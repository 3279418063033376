/** The queue of timeouts, sorted by target time: what setting and clearing timeouts does to it. */
module TimeoutQueues {
  import opened Bits
  import opened SortedQueues

  /** What a timeout calls; callbacks and their arguments are known by their addresses. */
  datatype Call = Call(callback: nat, arg: nat)

  /** `struct timeout_entry`: the key is the target time; the serial number counts all timeouts there have been. */
  type Timeout = Entry<Call>

  /** One more than the largest `uint32_t`. */
  const IDS: nat := 0x1_0000_0000

  /** The 32-bit id of a timeout. */
  function IdOf(t: Timeout): nat {
    t.serial % IDS
  }

  /** A call of `set_timeout` by a callback, at the time that it reads. */
  datatype Request = Request(call: Call, timeoutUs: nat, time: nat)

  /** Sorted by target time, ties in the order of creation, with serial numbers that were given out. */
  ghost predicate InOrder(queue: seq<Timeout>, created: nat) {
    Stable(queue) && SerialsBelow(queue, created + 1) && forall i, j :: 0 <= i < j < |queue| ==>
      queue[i].serial != queue[j].serial
  }

  function TargetTime(frequency: nat, time: nat, timeoutUs: nat): nat {
    (time + frequency / 1000000 * timeoutUs) % WORD
  }

  /** The timeout that a request makes, with the next serial number. */
  function Made(frequency: nat, r: Request, serial: nat): Timeout {
    Entry(TargetTime(frequency, r.time, r.timeoutUs), serial, r.call)
  }

  /** One entry more: for this call, with this serial number, and with a target below 2^64 that is `sum` but for
      multiples of that. */
  ghost predicate OneMore(before: seq<Timeout>, queue: seq<Timeout>, call: Call, serial: nat, sum: nat) {
    exists t: Timeout :: OneMoreIs(before, queue, call, serial, sum, t)
  }

  ghost predicate OneMoreIs(before: seq<Timeout>, queue: seq<Timeout>, call: Call, serial: nat, sum: nat, t: Timeout) {
    && t.item == call && t.serial == serial && t.key < 0x1_0000_0000_0000_0000
    && (sum - t.key) % 0x1_0000_0000_0000_0000 == 0
    && multiset(queue) == multiset(before) + multiset{t}
  }

  /** The target is the time read plus the delay in ticks of the clock, as far as 64 bits hold it. */
  lemma MadeOneMore(queue: seq<Timeout>, frequency: nat, r: Request, serial: nat)
    ensures OneMore(queue, Inserted(queue, Made(frequency, r, serial)), r.call, serial,
        r.time + frequency / 1000000 * r.timeoutUs)
  {
    var t, sum := Made(frequency, r, serial), r.time + frequency / 1000000 * r.timeoutUs;
    InsertedMultiset(queue, t);
    hide Inserted;
    assert sum == WORD * (sum / WORD) + sum % WORD;
    assert (WORD * (sum / WORD)) % WORD == 0;
    assert OneMoreIs(queue, Inserted(queue, t), r.call, serial, sum, t);
  }

  lemma InsertedMultiset(queue: seq<Timeout>, t: Timeout)
    ensures multiset(Inserted(queue, t)) == multiset(queue) + multiset{t}
  {
    var n := FirstAbove(queue, t.key);
    assert queue == queue[..n] + queue[n..];
    assert Inserted(queue, t) == queue[..n] + [t] + queue[n..];
  }

  /** The queue after a list of requests. */
  function Requested(queue: seq<Timeout>, created: nat, frequency: nat, requests: seq<Request>): seq<Timeout>
    decreases |requests|
  {
    if requests == [] then queue
    else
      var r := requests[0];
      Requested(Inserted(queue, Made(frequency, r, created + 1)), created + 1, frequency, requests[1..])
  }

  /** A new timeout keeps the queue in order. */
  lemma InsertedInOrder(queue: seq<Timeout>, created: nat, t: Timeout)
    requires InOrder(queue, created) && t.serial == created + 1
    ensures InOrder(Inserted(queue, t), created + 1)
  {
    StableInsert(queue, t);
    hide Stable, Less, FirstAbove;
  }

  lemma CutInOrder(queue: seq<Timeout>, created: nat, k: nat)
    requires InOrder(queue, created) && k < |queue|
    ensures InOrder(queue[..k] + queue[k + 1..], created)
    ensures forall t :: t in queue[..k] + queue[k + 1..] <==> t in queue && t.serial != queue[k].serial
  {
    hide Less;
    var rest := queue[..k] + queue[k + 1..];
    assert forall i :: 0 <= i < |rest| ==> rest[i] == queue[if i < k then i else i + 1];
    CutKeeps(queue, k);
  }

  lemma CutKeeps(queue: seq<Timeout>, k: nat)
    requires k < |queue| && forall i, j :: 0 <= i < j < |queue| ==> queue[i].serial != queue[j].serial
    ensures forall t :: t in queue[..k] + queue[k + 1..] <==> t in queue && t.serial != queue[k].serial
  {
    var rest := queue[..k] + queue[k + 1..];
    forall t | t in queue && t.serial != queue[k].serial ensures t in rest {
      var i :| 0 <= i < |queue| && queue[i] == t;
      assert rest[if i < k then i else i - 1] == t;
    }
  }

  /** The queue without its first entry with this id. */
  function Cleared(queue: seq<Timeout>, id: nat): seq<Timeout> {
    if queue == [] then []
    else if IdOf(queue[0]) == id then queue[1..]
    else [queue[0]] + Cleared(queue[1..], id)
  }

  lemma {:induction false} ClearedFirst(queue: seq<Timeout>, id: nat, k: nat)
    requires k <= |queue| && forall i :: 0 <= i < k ==> IdOf(queue[i]) != id
    ensures k < |queue| && IdOf(queue[k]) == id ==> Cleared(queue, id) == queue[..k] + queue[k + 1..]
    ensures k == |queue| ==> Cleared(queue, id) == queue
  {
    hide IdOf;
    if k > 0 {
      ClearedFirst(queue[1..], id, k - 1);
      assert queue == [queue[0]] + queue[1..];
      assert k < |queue| ==> queue[1..][..k - 1] == queue[1..k] && queue[1..][k..] == queue[k + 1..];
    }
  }

  /** Clearing by the id of a timeout takes away that timeout and no other exactly if none with the same id expires
      before it. */
  lemma ClearedWanted(queue: seq<Timeout>, created: nat, i: nat)
    requires InOrder(queue, created) && i < |queue|
    ensures (forall t :: t in Cleared(queue, IdOf(queue[i])) <==> t in queue && t != queue[i])
      <==> forall j :: 0 <= j < i ==> IdOf(queue[j]) != IdOf(queue[i])
  {
    hide Stable, IdOf;
    var k := FirstWithId(queue, i);
    ClearedFirst(queue, IdOf(queue[i]), k);
    CutInOrder(queue, created, k);
    if k < i { assert queue[k] in queue && queue[k].serial != queue[i].serial; }
    forall t | t in queue && t.serial == queue[k].serial ensures t == queue[k] {
    }
  }

  lemma {:induction false} FirstWithId(queue: seq<Timeout>, i: nat) returns (k: nat)
    requires i < |queue|
    ensures k <= i && IdOf(queue[k]) == IdOf(queue[i]) && forall j :: 0 <= j < k ==> IdOf(queue[j]) != IdOf(queue[i])
  {
    hide IdOf;
    k := i;
    if j :| 0 <= j < i && IdOf(queue[j]) == IdOf(queue[i]) {
      k := FirstWithId(queue, j);
    }
  }

  /** As long as every queued timeout is one of the last 2^32, ids tell the queued timeouts apart. */
  lemma RecentIds(queue: seq<Timeout>, created: nat, i: nat, j: nat)
    requires InOrder(queue, created) && i < |queue| && j < |queue| && i != j
    requires forall t :: t in queue ==> created - t.serial < IDS
    ensures IdOf(queue[i]) != IdOf(queue[j])
  {
    hide Stable;
    assert queue[i] in queue && queue[j] in queue;
    assert queue[i].serial != queue[j].serial;
  }

  /** Of two queued timeouts 2^32 creations apart with the same id, clearing by that of the later one takes away the
      earlier one. */
  lemma IdReused(queue: seq<Timeout>, i: nat, j: nat)
    requires i < j < |queue| && queue[j].serial == queue[i].serial + IDS
    requires forall k :: 0 <= k < i ==> IdOf(queue[k]) != IdOf(queue[i])
    ensures Cleared(queue, IdOf(queue[j])) == queue[..i] + queue[i + 1..]
  {
    assert IdOf(queue[j]) == IdOf(queue[i]);
    hide IdOf, Cleared;
    ClearedFirst(queue, IdOf(queue[j]), i);
  }

  /** One timeout is set, and then `k` times another one is set and cleared by its id. */
  function Busy(first: Request, others: nat -> Request, frequency: nat, k: nat): seq<Timeout>
    decreases k
  {
    if k == 0 then [Made(frequency, first, 1)]
    else
      var t := Made(frequency, others(k), k + 1);
      Cleared(Inserted(Busy(first, others, frequency, k - 1), t), IdOf(t))
  }

  /** For fewer than 2^32 times, the first timeout alone stays queued. */
  lemma {:induction false} BusyKeeps(first: Request, others: nat -> Request, frequency: nat, k: nat)
    requires k < IDS
    ensures Busy(first, others, frequency, k) == [Made(frequency, first, 1)]
    decreases k
  {
    hide TargetTime, Inserted, Cleared;
    if k > 0 {
      BusyKeeps(first, others, frequency, k - 1);
      SetAndCleared(Made(frequency, first, 1), Made(frequency, others(k), k + 1));
    }
  }

  lemma SetAndCleared(first: Timeout, t: Timeout)
    requires IdOf(t) != IdOf(first)
    ensures Cleared(Inserted([first], t), IdOf(t)) == [first]
  {
    hide IdOf;
    if t.key < first.key {
      assert Inserted([first], t) == [t, first];
      assert [t, first][1..] == [first];
    } else {
      assert Inserted([first], t) == [first, t];
      assert [first, t][1..] == [t] && [t][1..] == [];
    }
  }

  /**
   After 2^32 - 1 other timeouts were set and cleared, while the first was not yet due, one more gets its id. When
   that is due no earlier, clearing it takes away the first timeout, and leaves it in the queue.
   */
  lemma WrongOneCleared(first: Request, others: nat -> Request, last: Request, frequency: nat)
    requires TargetTime(frequency, first.time, first.timeoutUs) <= TargetTime(frequency, last.time, last.timeoutUs)
    ensures var t := Made(frequency, last, IDS + 1);
            var queue := Inserted(Busy(first, others, frequency, IDS - 1), t);
            queue == [Made(frequency, first, 1), t] && Cleared(queue, IdOf(t)) == [t]
  {
    hide TargetTime, Cleared;
    BusyKeeps(first, others, frequency, IDS - 1);
    var f, t := Made(frequency, first, 1), Made(frequency, last, IDS + 1);
    assert Inserted([f], t) == [f, t];
    IdReused([f, t], 0, 1);
  }

  lemma NothingRequested(queue: seq<Timeout>, created: nat, frequency: nat)
    ensures Requested(queue, created, frequency, []) == queue
  {
  }

  lemma OneRequest(queue: seq<Timeout>, created: nat, frequency: nat, r: Request)
    ensures Requested(queue, created, frequency, [r]) == Inserted(queue, Made(frequency, r, created + 1))
  {
    assert [r][1..] == [];
  }

  lemma {:induction false} RequestedConcat(queue: seq<Timeout>, created: nat, frequency: nat, xs: seq<Request>,
      ys: seq<Request>)
    ensures Requested(queue, created, frequency, xs + ys) ==
      Requested(Requested(queue, created, frequency, xs), created + |xs|, frequency, ys)
    decreases |xs|
  {
    if xs == [] {
      assert xs + ys == ys;
    } else {
      var r := xs[0];
      assert (xs + ys)[0] == r && (xs + ys)[1..] == xs[1..] + ys;
      RequestedConcat(Inserted(queue, Made(frequency, r, created + 1)), created + 1, frequency, xs[1..], ys);
    }
  }

  lemma HeadInOrder(queue: seq<Timeout>, created: nat)
    requires InOrder(queue, created) && queue != []
    ensures InOrder(queue[1..], created)
  {
    hide Less;
  }
}

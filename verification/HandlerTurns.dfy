/**
 The turns of the loop of the timer handler, whose callbacks set further timeouts: what a turn does, when the
 loop ends, and what it has done by then.
 */
module HandlerTurns {
  import opened Bits
  import opened SortedQueues
  import opened TimeoutQueues

  /** What a callback, called in the given turn, asks for. */
  type Callbacks = (Call, nat) -> seq<Request>

  /** The queue after a turn: the head is called, and what it asks for is inserted. */
  function AfterTurn(queue: seq<Timeout>, created: nat, frequency: nat, asks: Callbacks, turn: nat): seq<Timeout>
    requires queue != []
  {
    Requested(queue[1..], created, frequency, asks(queue[0].item, turn))
  }

  function CreatedAfter(queue: seq<Timeout>, created: nat, asks: Callbacks, turn: nat): nat
    requires queue != []
  {
    created + |asks(queue[0].item, turn)|
  }

  predicate Due(queue: seq<Timeout>, now: nat) {
    queue != [] && queue[0].key <= now
  }

  /** From the given turn on, the head is due for exactly `n` turns. */
  predicate EndsAfter(queue: seq<Timeout>, created: nat, frequency: nat, asks: Callbacks, now: nat, turn: nat, n: nat)
    decreases n
  {
    if n == 0 then !Due(queue, now)
    else
      && Due(queue, now)
      && EndsAfter(AfterTurn(queue, created, frequency, asks, turn), CreatedAfter(queue, created, asks, turn),
          frequency, asks, now, turn + 1, n - 1)
  }

  /** What these turns call, in order. */
  function Called(queue: seq<Timeout>, created: nat, frequency: nat, asks: Callbacks, turn: nat, n: nat): seq<Timeout>
    decreases n
  {
    if n == 0 || queue == [] then []
    else
      [queue[0]] + Called(AfterTurn(queue, created, frequency, asks, turn), CreatedAfter(queue, created, asks, turn),
          frequency, asks, turn + 1, n - 1)
  }

  /** What is queued after them. */
  function Left(queue: seq<Timeout>, created: nat, frequency: nat, asks: Callbacks, turn: nat, n: nat): seq<Timeout>
    decreases n
  {
    if n == 0 || queue == [] then queue
    else Left(AfterTurn(queue, created, frequency, asks, turn), CreatedAfter(queue, created, asks, turn), frequency,
        asks, turn + 1, n - 1)
  }

  lemma NotOverYet(queue: seq<Timeout>, created: nat, frequency: nat, asks: Callbacks, now: nat, turn: nat, n: nat)
    requires EndsAfter(queue, created, frequency, asks, now, turn, n) && Due(queue, now)
    ensures n > 0
  {
  }

  lemma OverNow(queue: seq<Timeout>, created: nat, frequency: nat, asks: Callbacks, now: nat, turn: nat, n: nat)
    requires EndsAfter(queue, created, frequency, asks, now, turn, n) && !Due(queue, now)
    ensures n == 0 && Called(queue, created, frequency, asks, turn, n) == []
    ensures Left(queue, created, frequency, asks, turn, n) == queue
  {
  }

  // Callbacks that ask for later times only.

  ghost predicate Later(requests: seq<Request>, frequency: nat, now: nat) {
    forall r :: r in requests ==> TargetTime(frequency, r.time, r.timeoutUs) > now
  }

  ghost predicate Expired(queue: seq<Timeout>, now: nat) {
    forall t :: t in queue ==> t.key <= now
  }

  ghost predicate Unexpired(queue: seq<Timeout>, now: nat) {
    forall t :: t in queue ==> t.key > now
  }

  /** All that the callbacks of these timeouts ask for, called from the given turn on. */
  function RequestsOf(called: seq<Timeout>, asks: Callbacks, turn: nat): seq<Request> {
    if called == [] then [] else asks(called[0].item, turn) + RequestsOf(called[1..], asks, turn + 1)
  }

  /** Expired timeouts stay where they are while later ones are inserted. */
  lemma {:induction false} RequestedBehind(expired: seq<Timeout>, rest: seq<Timeout>, created: nat, frequency: nat,
      requests: seq<Request>, now: nat)
    requires Expired(expired, now) && Unexpired(rest, now) && Later(requests, frequency, now)
    ensures Requested(expired + rest, created, frequency, requests) ==
      expired + Requested(rest, created, frequency, requests)
    ensures Unexpired(Requested(rest, created, frequency, requests), now)
    decreases |requests|
  {
    hide TargetTime;
    if requests != [] {
      var t := Made(frequency, requests[0], created + 1);
      assert requests[0] in requests && Later(requests[1..], frequency, now);
      InsertedBehind(expired, rest, t, now);
      RequestedBehind(expired, Inserted(rest, t), created + 1, frequency, requests[1..], now);
    }
  }

  lemma InsertedInTail(queue: seq<Timeout>, t: Timeout)
    requires queue != [] && queue[0].key <= t.key
    ensures Inserted(queue, t) == [queue[0]] + Inserted(queue[1..], t)
  {
    var n := FirstAbove(queue[1..], t.key);
    assert FirstAbove(queue, t.key) == n + 1;
    hide FirstAbove;
    assert queue == [queue[0]] + queue[1..];
    assert queue[..n + 1] == [queue[0]] + queue[1..][..n] && queue[n + 1..] == queue[1..][n..];
  }

  lemma {:induction false} InsertedBehind(expired: seq<Timeout>, rest: seq<Timeout>, t: Timeout, now: nat)
    requires Expired(expired, now) && Unexpired(rest, now) && t.key > now
    ensures Inserted(expired + rest, t) == expired + Inserted(rest, t) && Unexpired(Inserted(rest, t), now)
  {
    hide Inserted;
    InsertedElements(rest, t);
    if expired == [] {
      assert expired + rest == rest && expired + Inserted(rest, t) == Inserted(rest, t);
    } else {
      var all := expired + rest;
      assert all[0] == expired[0] && expired[0] in expired && all[1..] == expired[1..] + rest;
      InsertedInTail(all, t);
      InsertedBehind(expired[1..], rest, t, now);
      assert [expired[0]] + (expired[1..] + Inserted(rest, t)) == expired + Inserted(rest, t);
    }
  }

  lemma OneTurn(queue: seq<Timeout>, created: nat, frequency: nat, asks: Callbacks, now: nat, turn: nat, n: nat)
    requires Due(queue, now) && n > 0
    ensures var after, count := AfterTurn(queue, created, frequency, asks, turn), CreatedAfter(queue, created, asks,
        turn);
      && EndsAfter(queue, created, frequency, asks, now, turn, n) ==
        EndsAfter(after, count, frequency, asks, now, turn + 1, n - 1)
      && Called(queue, created, frequency, asks, turn, n) ==
        [queue[0]] + Called(after, count, frequency, asks, turn + 1, n - 1)
      && Left(queue, created, frequency, asks, turn, n) == Left(after, count, frequency, asks, turn + 1, n - 1)
  {
    hide Requested;
  }

  lemma NoTurn(queue: seq<Timeout>, created: nat, frequency: nat, asks: Callbacks, now: nat, turn: nat)
    requires !Due(queue, now)
    ensures EndsAfter(queue, created, frequency, asks, now, turn, 0)
    ensures Called(queue, created, frequency, asks, turn, 0) == []
    ensures Left(queue, created, frequency, asks, turn, 0) == queue
  {
  }

  /**
   When all callbacks ask for later times, the handler ends, has called exactly the expired timeouts, once and in
   order, and what they asked for is queued among the others.
   */
  lemma {:induction false} LaterEnds(expired: seq<Timeout>, rest: seq<Timeout>, created: nat, frequency: nat,
      asks: Callbacks, now: nat, turn: nat)
    requires Expired(expired, now) && Unexpired(rest, now)
    requires forall c, k :: Later(asks(c, k), frequency, now)
    ensures EndsAfter(expired + rest, created, frequency, asks, now, turn, |expired|)
    ensures Called(expired + rest, created, frequency, asks, turn, |expired|) == expired
    ensures Left(expired + rest, created, frequency, asks, turn, |expired|) ==
      Requested(rest, created, frequency, RequestsOf(expired, asks, turn))
    decreases |expired|
  {
    hide Later, TargetTime, EndsAfter, Called, Left, Requested;
    var queue := expired + rest;
    if expired == [] {
      assert queue == rest;
      NoTurn(queue, created, frequency, asks, now, turn);
      NothingRequested(rest, created, frequency);
    } else {
      assert queue[0] == expired[0] && expired[0] in expired && queue[1..] == expired[1..] + rest;
      var made := asks(queue[0].item, turn);
      RequestedBehind(expired[1..], rest, created, frequency, made, now);
      OneTurn(queue, created, frequency, asks, now, turn, |expired|);
      LaterEnds(expired[1..], Requested(rest, created, frequency, made), created + |made|, frequency, asks, now,
          turn + 1);
      RequestedConcat(rest, created, frequency, made, RequestsOf(expired[1..], asks, turn + 1));
    }
  }

  /** The expired timeouts of a queue in order are the first ones. */
  lemma ExpiredFirst(queue: seq<Timeout>, created: nat, now: nat)
    requires InOrder(queue, created)
    ensures var n := FirstAbove(queue, now);
      && queue == queue[..n] + queue[n..] && Expired(queue[..n], now) && Unexpired(queue[n..], now)
      && forall t :: t in queue[..n] <==> t in queue && t.key <= now
  {
    hide FirstAbove;
    var n := FirstAbove(queue, now);
    forall i | 0 <= i < |queue| ensures queue[i].key <= now <==> i < n { FirstAboveSplits(queue, now, i); }
    hide InOrder;
    forall i | 0 <= i < |queue[n..]| ensures queue[n..][i].key > now {
      assert queue[n..][i] == queue[n + i];
    }
    forall t | t in queue && t.key <= now ensures t in queue[..n] {
      var i :| 0 <= i < |queue| && queue[i] == t;
      assert queue[..n][i] == t;
    }
  }

  /** So for a queue in order exactly the timeouts that have expired are called. */
  lemma LaterHandled(queue: seq<Timeout>, created: nat, frequency: nat, asks: Callbacks, now: nat)
    requires InOrder(queue, created) && forall c, k :: Later(asks(c, k), frequency, now)
    ensures var n := FirstAbove(queue, now);
      && EndsAfter(queue, created, frequency, asks, now, 0, n)
      && Called(queue, created, frequency, asks, 0, n) == queue[..n]
      && Left(queue, created, frequency, asks, 0, n) ==
        Requested(queue[n..], created, frequency, RequestsOf(queue[..n], asks, 0))
      && forall t :: t in queue[..n] <==> t in queue && t.key <= now
  {
    hide Later, EndsAfter, Called, Left, Requested, FirstAbove;
    var n := FirstAbove(queue, now);
    ExpiredFirst(queue, created, now);
    LaterEnds(queue[..n], queue[n..], created, frequency, asks, now, 0);
  }

  /** A new timeout is called by a run of the handler at `now` exactly if its delay has gone by, on a clock of any
      frequency, as long as the time that it is for is below 2^64. */
  lemma CalledWhenDue(before: seq<Timeout>, queue: seq<Timeout>, created: nat, frequency: nat, asks: Callbacks,
      now: nat, call: Call, serial: nat, time: nat, timeoutUs: nat)
    requires InOrder(queue, created) && forall c, k :: Later(asks(c, k), frequency, now)
    requires OneMore(before, queue, call, serial, time + frequency / 1000000 * timeoutUs)
    requires time + frequency / 1000000 * timeoutUs < 0x1_0000_0000_0000_0000
    ensures var called := Called(queue, created, frequency, asks, 0, FirstAbove(queue, now));
      && EndsAfter(queue, created, frequency, asks, now, 0, FirstAbove(queue, now))
      && ((exists t :: t in called && t.serial == serial) <==> now >= time + frequency / 1000000 * timeoutUs)
      && forall t :: t in called && t.serial == serial ==> t.item == call
  {
    hide Later, EndsAfter, Called, FirstAbove, InOrder, OneMoreIs;
    var sum := time + frequency / 1000000 * timeoutUs;
    var t: Timeout :| OneMoreIs(before, queue, call, serial, sum, t);
    NewTarget(before, queue, call, serial, sum, t);
    CalledIff(queue, created, frequency, asks, now, t);
  }

  lemma NewTarget(before: seq<Timeout>, queue: seq<Timeout>, call: Call, serial: nat, sum: nat, t: Timeout)
    requires OneMoreIs(before, queue, call, serial, sum, t) && sum < 0x1_0000_0000_0000_0000
    ensures t in queue && t.key == sum && t.item == call && t.serial == serial
  {
    Congruent(sum, t.key);
    assert t in multiset(queue);
  }

  /** A queued timeout is called exactly if its time has come. */
  lemma CalledIff(queue: seq<Timeout>, created: nat, frequency: nat, asks: Callbacks, now: nat, t: Timeout)
    requires InOrder(queue, created) && t in queue && forall c, k :: Later(asks(c, k), frequency, now)
    ensures var called := Called(queue, created, frequency, asks, 0, FirstAbove(queue, now));
      && EndsAfter(queue, created, frequency, asks, now, 0, FirstAbove(queue, now))
      && ((exists x :: x in called && x.serial == t.serial) <==> t.key <= now)
      && forall x :: x in called && x.serial == t.serial ==> x == t
  {
    hide Later, EndsAfter, Called, FirstAbove, InOrder, Left, Requested, RequestsOf;
    LaterHandled(queue, created, frequency, asks, now);
    OnlySerial(queue, created, t);
  }

  lemma Congruent(sum: nat, key: nat)
    requires sum < WORD && key < WORD && (sum - key) % WORD == 0
    ensures sum == key
  {
  }

  lemma OnlySerial(queue: seq<Timeout>, created: nat, t: Timeout)
    requires InOrder(queue, created) && t in queue
    ensures forall x :: x in queue && x.serial == t.serial ==> x == t
  {
    hide Stable;
    forall x | x in queue && x.serial == t.serial ensures x == t {
      var i, j :| 0 <= i < |queue| && queue[i] == x && 0 <= j < |queue| && queue[j] == t;
    }
  }

  // Which requests are for times that have passed.

  lemma SumWraps(x: nat, d: nat)
    requires x < WORD
    ensures (x + d) % WORD == if x + d % WORD < WORD then x + d % WORD else x + d % WORD - WORD
  {
    var q := d / WORD;
    assert x + d == WORD * q + (x + d % WORD);
  }

  /**
   A request made at `now` or later, on a clock that has not wrapped, is for a time that has passed exactly if no time
   has gone by and none is asked for, or if the sum wraps to at most `now`.
   */
  lemma PassedIff(frequency: nat, r: Request, now: nat)
    requires now <= r.time < WORD
    ensures var delay := frequency / 1000000 * r.timeoutUs % WORD;
      TargetTime(frequency, r.time, r.timeoutUs) <= now <==>
        (r.time == now && delay == 0) || (r.time + delay >= WORD && r.time + delay - WORD <= now)
  {
    SumWraps(r.time, frequency / 1000000 * r.timeoutUs);
  }
}

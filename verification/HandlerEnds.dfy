/**
 Whether one run of the timer handler ends: the calls that a callback's requests for passed times lead to form a
 graph, and the handler ends exactly if no cycle of it is reached from what has expired.
 */
module HandlerEnds {
  import opened Bits
  import opened Lists
  import opened SortedQueues
  import opened TimeoutQueues
  import opened HandlerTurns

  /** The calls that each call leads to. */
  type Graph = Call -> seq<Call>

  predicate Chain(next: Graph, cs: seq<Call>) {
    forall i :: 0 <= i < |cs| - 1 ==> cs[i + 1] in next(cs[i])
  }

  /** Some chain from `c` comes back to where it was. */
  ghost predicate ReachesCycle(next: Graph, c: Call) {
    exists cs: seq<Call> :: cs != [] && cs[0] == c && Chain(next, cs) && !Distinct(cs)
  }

  /** No chain from `c` has more than `n` calls. */
  ghost predicate Bounded(next: Graph, c: Call, n: nat)
    decreases n
  {
    n > 0 && forall d :: d in next(c) ==> Bounded(next, d, n - 1)
  }

  lemma {:induction false} BoundedMore(next: Graph, c: Call, n: nat, m: nat)
    requires Bounded(next, c, n) && n <= m
    ensures Bounded(next, c, m)
    decreases n
  {
    forall d | d in next(c) ensures Bounded(next, d, m - 1) {
      BoundedMore(next, d, n - 1, m - 1);
    }
  }

  lemma {:induction false} LongChain(next: Graph, c: Call, n: nat) returns (cs: seq<Call>)
    requires !Bounded(next, c, n)
    ensures |cs| == n + 1 && cs[0] == c && Chain(next, cs)
    decreases n
  {
    if n == 0 {
      cs := [c];
    } else {
      var d :| d in next(c) && !Bounded(next, d, n - 1);
      var rest := LongChain(next, d, n - 1);
      cs := [c] + rest;
      forall i | 0 <= i < |cs| - 1 ensures cs[i + 1] in next(cs[i]) {
        if i > 0 { assert rest[i - 1 + 1] in next(rest[i - 1]); }
      }
    }
  }

  /** Round a cycle, no bound holds. */
  lemma {:induction false} CycleUnbounded(next: Graph, cs: seq<Call>, i: nat, j: nat, m: nat, n: nat)
    requires Chain(next, cs) && i < j < |cs| && cs[i] == cs[j] && m <= j
    ensures !Bounded(next, cs[m], n)
    decreases n
  {
    if n > 0 {
      var k := if m < j then m + 1 else i + 1;
      assert cs[k] in next(cs[k - 1]) && cs[k - 1] == cs[m];
      CycleUnbounded(next, cs, i, j, k, n - 1);
    }
  }

  /** The calls include all that they lead to. */
  ghost predicate Closed(next: Graph, calls: set<Call>) {
    forall c, d :: c in calls && d in next(c) ==> d in calls
  }

  lemma {:induction false} ChainInside(next: Graph, calls: set<Call>, cs: seq<Call>, i: nat)
    requires Closed(next, calls) && Chain(next, cs) && i < |cs| && cs[0] in calls
    ensures cs[i] in calls
  {
    if i > 0 {
      ChainInside(next, calls, cs, i - 1);
      assert cs[i - 1 + 1] in next(cs[i - 1]);
    }
  }

  lemma {:induction false} DistinctInside(cs: seq<Call>, calls: set<Call>)
    requires Distinct(cs) && forall i :: 0 <= i < |cs| ==> cs[i] in calls
    ensures |cs| <= |calls|
  {
    if cs != [] {
      assert Distinct(cs[1..]) && forall i :: 0 <= i < |cs[1..]| ==> cs[1..][i] in calls - {cs[0]};
      DistinctInside(cs[1..], calls - {cs[0]});
    }
  }

  /** Among finitely many calls, a cycle is reached exactly if the chains are longer than the number of calls. */
  lemma CycleIff(next: Graph, calls: set<Call>, c: Call)
    requires Closed(next, calls) && c in calls
    ensures ReachesCycle(next, c) <==> !Bounded(next, c, |calls|)
    ensures ReachesCycle(next, c) ==> forall n: nat :: !Bounded(next, c, n)
  {
    hide Bounded, Closed, Chain;
    if cs: seq<Call> :| cs != [] && cs[0] == c && Chain(next, cs) && !Distinct(cs) {
      var i, j :| 0 <= i < j < |cs| && cs[i] == cs[j];
      forall n: nat ensures !Bounded(next, c, n) { CycleUnbounded(next, cs, i, j, 0, n); }
    }
    if !Bounded(next, c, |calls|) {
      var cs := LongChain(next, c, |calls|);
      forall i | 0 <= i < |cs| ensures cs[i] in calls { ChainInside(next, calls, cs, i); }
      if Distinct(cs) { DistinctInside(cs, calls); }
    }
  }

  /** A call that reaches a cycle leads to another one that does. */
  lemma CycleNext(next: Graph, calls: set<Call>, c: Call) returns (d: Call)
    requires Closed(next, calls) && c in calls && ReachesCycle(next, c)
    ensures d in next(c) && d in calls && ReachesCycle(next, d)
  {
    hide ReachesCycle, Chain;
    CycleIff(next, calls, c);
    assert !Bounded(next, c, |calls| + 1);
    d :| d in next(c) && !Bounded(next, d, |calls|);
    CycleIff(next, calls, d);
  }

  // How many calls a call leads to.

  /** The number of calls that `c` makes necessary, itself included, along chains of at most `n`. */
  function Cost(next: Graph, c: Call, n: nat): nat
    decreases n, 0
  {
    if n == 0 then 0 else 1 + Costs(next, next(c), n - 1)
  }

  function Costs(next: Graph, cs: seq<Call>, n: nat): nat
    decreases n, |cs| + 1
  {
    if cs == [] then 0 else Cost(next, cs[0], n) + Costs(next, cs[1..], n)
  }

  lemma {:induction false} CostStays(next: Graph, c: Call, n: nat, m: nat)
    requires Bounded(next, c, n) && n <= m
    ensures Cost(next, c, n) == Cost(next, c, m)
    decreases n, 0
  {
    CostsStay(next, next(c), n - 1, m - 1);
  }

  lemma {:induction false} CostsStay(next: Graph, cs: seq<Call>, n: nat, m: nat)
    requires n <= m && forall c :: c in cs ==> Bounded(next, c, n)
    ensures Costs(next, cs, n) == Costs(next, cs, m)
    decreases n, |cs| + 1
  {
    if cs != [] {
      assert cs[0] in cs && forall c :: c in cs[1..] ==> c in cs;
      CostStays(next, cs[0], n, m);
      CostsStay(next, cs[1..], n, m);
    }
  }

  lemma {:induction false} CostsConcat(next: Graph, cs: seq<Call>, ds: seq<Call>, n: nat)
    ensures Costs(next, cs + ds, n) == Costs(next, cs, n) + Costs(next, ds, n)
    decreases |cs|
  {
    hide Cost;
    if cs == [] {
      assert cs + ds == ds;
    } else {
      assert (cs + ds)[0] == cs[0] && (cs + ds)[1..] == cs[1..] + ds;
      CostsConcat(next, cs[1..], ds, n);
    }
  }

  // What the expired timeouts of a queue make necessary.

  /** The calls of the expired timeouts. */
  function ExpiredCalls(queue: seq<Timeout>, now: nat): seq<Call> {
    if queue == [] then [] else (if queue[0].key <= now then [queue[0].item] else []) + ExpiredCalls(queue[1..], now)
  }

  lemma {:induction false} ExpiredConcat(xs: seq<Timeout>, ys: seq<Timeout>, now: nat)
    ensures ExpiredCalls(xs + ys, now) == ExpiredCalls(xs, now) + ExpiredCalls(ys, now)
  {
    if xs == [] {
      assert xs + ys == ys;
    } else {
      assert (xs + ys)[0] == xs[0] && (xs + ys)[1..] == xs[1..] + ys;
      ExpiredConcat(xs[1..], ys, now);
      var head := if xs[0].key <= now then [xs[0].item] else [];
      assert head + (ExpiredCalls(xs[1..], now) + ExpiredCalls(ys, now)) ==
        head + ExpiredCalls(xs[1..], now) + ExpiredCalls(ys, now);
    }
  }

  lemma {:induction false} ExpiredElements(queue: seq<Timeout>, now: nat)
    ensures forall t :: t in queue && t.key <= now ==> t.item in ExpiredCalls(queue, now)
    ensures forall c :: c in ExpiredCalls(queue, now) ==> exists t :: t in queue && t.key <= now && t.item == c
  {
    if queue != [] {
      ExpiredElements(queue[1..], now);
      assert queue == [queue[0]] + queue[1..];
      forall c | c in ExpiredCalls(queue, now) ensures exists t :: t in queue && t.key <= now && t.item == c {
        if c !in ExpiredCalls(queue[1..], now) { assert queue[0] in queue; }
      }
    }
  }

  /** The calls that these requests ask for at times that have passed. */
  function PassedCalls(requests: seq<Request>, frequency: nat, now: nat): seq<Call> {
    if requests == [] then []
    else
      var r := requests[0];
      (if TargetTime(frequency, r.time, r.timeoutUs) <= now then [r.call] else []) +
        PassedCalls(requests[1..], frequency, now)
  }

  lemma InsertedCost(next: Graph, queue: seq<Timeout>, t: Timeout, now: nat, n: nat)
    ensures Costs(next, ExpiredCalls(Inserted(queue, t), now), n) ==
      Costs(next, ExpiredCalls(queue, now), n) + if t.key <= now then Cost(next, t.item, n) else 0
  {
    hide Costs, Cost, FirstAbove;
    var k := FirstAbove(queue, t.key);
    var before, after := queue[..k], queue[k..];
    assert queue == before + after && Inserted(queue, t) == (before + [t]) + after;
    ExpiredConcat(before, after, now);
    ExpiredConcat(before + [t], after, now);
    ExpiredConcat(before, [t], now);
    CostsConcat(next, ExpiredCalls(before, now), ExpiredCalls(after, now), n);
    CostsConcat(next, ExpiredCalls(before + [t], now), ExpiredCalls(after, now), n);
    CostsConcat(next, ExpiredCalls(before, now), ExpiredCalls([t], now), n);
    OneCost(next, t, now, n);
  }

  lemma OneCost(next: Graph, t: Timeout, now: nat, n: nat)
    ensures Costs(next, ExpiredCalls([t], now), n) == if t.key <= now then Cost(next, t.item, n) else 0
  {
    hide Cost;
    assert [t][1..] == [];
    assert ExpiredCalls([t], now) == if t.key <= now then [t.item] else [];
  }

  lemma {:induction false} RequestedCost(next: Graph, queue: seq<Timeout>, created: nat, frequency: nat,
      requests: seq<Request>, now: nat, n: nat)
    ensures Costs(next, ExpiredCalls(Requested(queue, created, frequency, requests), now), n) ==
      Costs(next, ExpiredCalls(queue, now), n) + Costs(next, PassedCalls(requests, frequency, now), n)
    decreases |requests|
  {
    hide Cost, TargetTime, ExpiredCalls;
    if requests != [] {
      var r := requests[0];
      var t := Made(frequency, r, created + 1);
      InsertedCost(next, queue, t, now, n);
      RequestedCost(next, Inserted(queue, t), created + 1, frequency, requests[1..], now, n);
      var passed := if t.key <= now then [r.call] else [];
      CostsConcat(next, passed, PassedCalls(requests[1..], frequency, now), n);
      assert passed != [] ==> passed[0] == r.call && passed[1..] == [];
    }
  }

  lemma {:induction false} RequestedExpired(queue: seq<Timeout>, created: nat, frequency: nat, requests: seq<Request>,
      now: nat, c: Call)
    ensures c in ExpiredCalls(Requested(queue, created, frequency, requests), now) <==>
      c in ExpiredCalls(queue, now) || c in PassedCalls(requests, frequency, now)
    decreases |requests|
  {
    hide TargetTime, ExpiredCalls;
    if requests != [] {
      var t := Made(frequency, requests[0], created + 1);
      InsertedExpired(queue, t, now, c);
      RequestedExpired(Inserted(queue, t), created + 1, frequency, requests[1..], now, c);
    }
  }

  lemma InsertedExpired(queue: seq<Timeout>, t: Timeout, now: nat, c: Call)
    ensures c in ExpiredCalls(Inserted(queue, t), now) <==>
      c in ExpiredCalls(queue, now) || (t.key <= now && t.item == c)
  {
    hide ExpiredCalls, Inserted;
    InsertedElements(queue, t);
    ExpiredElements(queue, now);
    ExpiredElements(Inserted(queue, t), now);
  }

  // The handler.

  /** Whatever the turn, what a call asks for at passed times are the calls that it leads to. */
  ghost predicate Follows(asks: Callbacks, frequency: nat, now: nat, next: Graph) {
    forall c, turn :: PassedCalls(asks(c, turn), frequency, now) == next(c)
  }

  lemma DueCalls(queue: seq<Timeout>, created: nat, now: nat)
    requires InOrder(queue, created)
    ensures Due(queue, now) <==> ExpiredCalls(queue, now) != []
    ensures Due(queue, now) ==> ExpiredCalls(queue, now) == [queue[0].item] + ExpiredCalls(queue[1..], now)
  {
    if queue != [] && queue[0].key > now {
      forall t | t in queue ensures t.key > now {
        var i :| 0 <= i < |queue| && queue[i] == t;
        assert i > 0 ==> Less(queue[0], queue[i]);
      }
      ExpiredElements(queue, now);
      if ExpiredCalls(queue, now) != [] { assert ExpiredCalls(queue, now)[0] in ExpiredCalls(queue, now); }
    }
  }

  lemma {:induction false} RequestedInOrder(queue: seq<Timeout>, created: nat, frequency: nat, requests: seq<Request>)
    requires InOrder(queue, created)
    ensures InOrder(Requested(queue, created, frequency, requests), created + |requests|)
    decreases |requests|
  {
    hide InOrder, Inserted, TargetTime;
    if requests != [] {
      var t := Made(frequency, requests[0], created + 1);
      InsertedInOrder(queue, created, t);
      RequestedInOrder(Inserted(queue, t), created + 1, frequency, requests[1..]);
    }
  }

  lemma TurnInOrder(queue: seq<Timeout>, created: nat, frequency: nat, asks: Callbacks, turn: nat)
    requires InOrder(queue, created) && queue != []
    ensures InOrder(AfterTurn(queue, created, frequency, asks, turn), CreatedAfter(queue, created, asks, turn))
  {
    hide InOrder, Requested;
    HeadInOrder(queue, created);
    RequestedInOrder(queue[1..], created, frequency, asks(queue[0].item, turn));
  }

  ghost predicate AllBounded(next: Graph, cs: seq<Call>, n: nat) {
    forall c :: c in cs ==> Bounded(next, c, n)
  }

  /** When all chains are bounded, each turn takes one from the number of calls that are necessary, so the handler
      ends. */
  lemma {:induction false} BoundedEnds(queue: seq<Timeout>, created: nat, frequency: nat, asks: Callbacks, now: nat,
      turn: nat, next: Graph, m: nat)
    requires InOrder(queue, created) && Follows(asks, frequency, now, next)
    requires AllBounded(next, ExpiredCalls(queue, now), m)
    ensures EndsAfter(queue, created, frequency, asks, now, turn, Costs(next, ExpiredCalls(queue, now), m))
    decreases Costs(next, ExpiredCalls(queue, now), m)
  {
    hide InOrder, Requested, Bounded, AllBounded, ExpiredCalls, Costs, Follows, EndsAfter;
    DueCalls(queue, created, now);
    if !Due(queue, now) {
      NothingNecessary(next, m);
      NoTurn(queue, created, frequency, asks, now, turn);
    } else {
      var after, count := AfterTurn(queue, created, frequency, asks, turn), CreatedAfter(queue, created, asks, turn);
      TurnInOrder(queue, created, frequency, asks, turn);
      TurnCost(queue, created, frequency, asks, now, turn, next, m);
      BoundedEnds(after, count, frequency, asks, now, turn + 1, next, m);
      OneTurn(queue, created, frequency, asks, now, turn, Costs(next, ExpiredCalls(queue, now), m));
    }
  }

  lemma NothingNecessary(next: Graph, m: nat)
    ensures Costs(next, [], m) == 0
  {
  }

  lemma TurnCost(queue: seq<Timeout>, created: nat, frequency: nat, asks: Callbacks, now: nat, turn: nat, next: Graph,
      m: nat)
    requires InOrder(queue, created) && Follows(asks, frequency, now, next)
    requires AllBounded(next, ExpiredCalls(queue, now), m) && Due(queue, now)
    ensures var after := ExpiredCalls(AfterTurn(queue, created, frequency, asks, turn), now);
      AllBounded(next, after, m) && Costs(next, after, m) == Costs(next, ExpiredCalls(queue, now), m) - 1
  {
    hide InOrder, Requested, ExpiredCalls, Costs;
    DueCalls(queue, created, now);
    var c, rest := queue[0].item, ExpiredCalls(queue[1..], now);
    var made := asks(c, turn);
    assert PassedCalls(made, frequency, now) == next(c);
    assert c in ExpiredCalls(queue, now) && forall d :: d in rest ==> d in ExpiredCalls(queue, now);
    RequestedCost(next, queue[1..], created, frequency, made, now, m);
    CostsConcat(next, [c], rest, m);
    SingleCost(next, c, m);
    CostsStay(next, next(c), m - 1, m);
    forall d | d in ExpiredCalls(AfterTurn(queue, created, frequency, asks, turn), now) ensures Bounded(next, d, m) {
      RequestedExpired(queue[1..], created, frequency, made, now, d);
      if d in next(c) { BoundedMore(next, d, m - 1, m); }
    }
  }

  lemma SingleCost(next: Graph, c: Call, m: nat)
    requires m > 0
    ensures Costs(next, [c], m) == 1 + Costs(next, next(c), m - 1)
  {
    assert [c][1..] == [];
  }

  /** While a call that reaches a cycle has expired, the handler goes on. */
  lemma {:induction false} CycleGoesOn(queue: seq<Timeout>, created: nat, frequency: nat, asks: Callbacks, now: nat,
      turn: nat, next: Graph, calls: set<Call>, c: Call, n: nat)
    requires InOrder(queue, created) && Follows(asks, frequency, now, next) && Closed(next, calls)
    requires c in ExpiredCalls(queue, now) && c in calls && ReachesCycle(next, c)
    ensures !EndsAfter(queue, created, frequency, asks, now, turn, n)
    decreases n
  {
    hide InOrder, Requested, ExpiredCalls, ReachesCycle, Closed;
    DueCalls(queue, created, now);
    if n > 0 {
      var head := queue[0].item;
      var made := asks(head, turn);
      assert PassedCalls(made, frequency, now) == next(head);
      var d := c;
      if c !in ExpiredCalls(queue[1..], now) { d := CycleNext(next, calls, c); }
      RequestedExpired(queue[1..], created, frequency, made, now, d);
      TurnInOrder(queue, created, frequency, asks, turn);
      CycleGoesOn(AfterTurn(queue, created, frequency, asks, turn), CreatedAfter(queue, created, asks, turn), frequency,
          asks, now, turn + 1, next, calls, d, n - 1);
    }
  }

  /**
   The handler ends if and only if no expired timeout's call reaches a cycle of requests for passed times: for finitely
   many calls, in any queue, and at any turn.
   */
  lemma EndsIff(queue: seq<Timeout>, created: nat, frequency: nat, asks: Callbacks, now: nat, next: Graph,
      calls: set<Call>)
    requires InOrder(queue, created) && Follows(asks, frequency, now, next) && Closed(next, calls)
    requires forall t :: t in queue ==> t.item in calls
    ensures (exists n :: EndsAfter(queue, created, frequency, asks, now, 0, n)) <==>
      forall t :: t in queue && t.key <= now ==> !ReachesCycle(next, t.item)
  {
    hide InOrder, ExpiredCalls, EndsAfter, ReachesCycle, Closed, Follows, Costs;
    ExpiredElements(queue, now);
    if t :| t in queue && t.key <= now && ReachesCycle(next, t.item) {
      forall n: nat ensures !EndsAfter(queue, created, frequency, asks, now, 0, n) {
        CycleGoesOn(queue, created, frequency, asks, now, 0, next, calls, t.item, n);
      }
    } else {
      forall c | c in ExpiredCalls(queue, now) ensures Bounded(next, c, |calls|) { CycleIff(next, calls, c); }
      BoundedEnds(queue, created, frequency, asks, now, 0, next, |calls|);
    }
  }

  /** At a frequency of a million, a callback that sets itself again for a deadline: at each turn, at a later time. */
  function Rearmed(deadline: nat, now: nat): Callbacks {
    (c, turn) =>
      var time := (now + 1 + turn) % WORD;
      [Request(c, (deadline + WORD - time) % WORD, time)]
  }

  /** Once the deadline has passed, the delay that is left wraps, and the handler does not end. */
  lemma RearmedForever(deadline: nat, now: nat, t: Timeout, n: nat)
    requires deadline <= now < WORD && t.key <= now
    ensures !EndsAfter([t], t.serial, 1000000, Rearmed(deadline, now), now, 0, n)
  {
    var asks, next, c := Rearmed(deadline, now), (d: Call) => [d], t.item;
    forall d, turn ensures PassedCalls(asks(d, turn), 1000000, now) == next(d) {
      var time := (now + 1 + turn) % WORD;
      DeadlineReached(deadline, time);
      var made := asks(d, turn);
      assert made == [Request(d, (deadline + WORD - time) % WORD, time)] && made[1..] == [];
    }
    hide EndsAfter;
    assert Chain(next, [c, c]) && [c, c][0] == [c, c][1];
    assert ReachesCycle(next, c);
    EndsIff([t], t.serial, 1000000, asks, now, next, {c});
    assert t in [t];
  }

  lemma DeadlineReached(deadline: nat, time: nat)
    requires deadline < WORD && time < WORD
    ensures TargetTime(1000000, time, (deadline + WORD - time) % WORD) == deadline
  {
  }
}

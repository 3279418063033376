/** Timeouts: a queue sorted by target time, and the hardware timer programmed for its head. */
module Timeouts {
  import opened SortedQueues
  import opened TimeoutQueues
  import opened HandlerTurns

  /** What the timer was last programmed for: a target time, or an interrupt that is put off. */
  datatype Timer = At(time: nat) | Postponed

  function TimerFor(queue: seq<Timeout>): Timer {
    if queue == [] then Postponed else At(queue[0].key)
  }

  /** The timer is programmed for the earliest of the targets. */
  lemma TimerEarliest(queue: seq<Timeout>, created: nat)
    requires InOrder(queue, created) && queue != []
    ensures var timer := TimerFor(queue);
      && timer.At? && (exists t :: t in queue && t.key == timer.time) && forall t :: t in queue ==> timer.time <= t.key
  {
    assert queue[0] in queue;
    forall t | t in queue ensures queue[0].key <= t.key {
      var i :| 0 <= i < |queue| && queue[i] == t;
      if i > 0 { assert Less(queue[0], queue[i]); }
    }
  }

  class Timeouts {
    const cpuFrequency: nat
    /** The count whose lower 32 bits are `created_timeouts_count`. */
    var createdTimeoutsCount: nat
    var queue: seq<Timeout>
    var timer: Timer

    /** The queue is in order and the timer is programmed for its head. */
    ghost predicate Valid()
      reads this
    {
      InOrder(queue, createdTimeoutsCount) && timer == TimerFor(queue)
    }

    /** `timeouts_setup` */
    constructor (cpuFrequency: nat)
      ensures Valid() && this.cpuFrequency == cpuFrequency && queue == [] && createdTimeoutsCount == 0
    {
      this.cpuFrequency, createdTimeoutsCount, queue, timer := cpuFrequency, 0, [], Postponed;
    }

    /** `_set_next_timeout` */
    method SetNextTimeout()
      modifies this`timer
      ensures timer == TimerFor(queue)
    {
      timer := if queue != [] then At(queue[0].key) else Postponed;
    }

    /** `_insert_to_timeouts_queue` */
    method InsertToTimeoutsQueue(t: Timeout)
      modifies this`queue
      ensures queue == Inserted(old(queue), t)
    {
      var current := 0;
      while current < |queue|
        invariant 0 <= current <= |queue| && queue == old(queue)
        invariant forall i :: 0 <= i < current ==> queue[i].key <= t.key
      {
        if t.key < queue[current].key {
          queue := queue[..current] + [t] + queue[current..];
          return;
        }
        current := current + 1;
      }
      queue := queue + [t];
      assert old(queue)[..current] == old(queue) && old(queue)[current..] == [];
    }

    /** `set_timeout` at the time that `sbi_read_time` gives. */
    method SetTimeout(call: Call, timeoutUs: nat, time: nat) returns (id: nat)
      requires InOrder(queue, createdTimeoutsCount)
      modifies this
      ensures Valid() && createdTimeoutsCount == old(createdTimeoutsCount) + 1
      ensures queue == Inserted(old(queue), Made(cpuFrequency, Request(call, timeoutUs, time), createdTimeoutsCount))
      ensures OneMore(old(queue), queue, call, createdTimeoutsCount, time + cpuFrequency / 1000000 * timeoutUs)
      ensures id == createdTimeoutsCount % 0x1_0000_0000
    {
      createdTimeoutsCount := createdTimeoutsCount + 1;
      var entry := Made(cpuFrequency, Request(call, timeoutUs, time), createdTimeoutsCount);
      InsertedInOrder(queue, old(createdTimeoutsCount), entry);
      MadeOneMore(queue, cpuFrequency, Request(call, timeoutUs, time), createdTimeoutsCount);
      InsertToTimeoutsQueue(entry);
      SetNextTimeout();
      return IdOf(entry);
    }

    /** `clear_timeout`: the first entry with this id is gone, and no other. */
    method ClearTimeout(timeoutId: nat)
      requires Valid()
      modifies this`queue, this`timer
      ensures Valid() && queue == Cleared(old(queue), timeoutId)
    {
      hide IdOf, InOrder;
      var current := 0;
      while current < |queue|
        invariant 0 <= current <= |queue| && queue == old(queue)
        invariant forall i :: 0 <= i < current ==> IdOf(queue[i]) != timeoutId
      {
        if IdOf(queue[current]) == timeoutId {
          CutInOrder(queue, createdTimeoutsCount, current);
          ClearedFirst(queue, timeoutId, current);
          queue := queue[..current] + queue[current + 1..];
          SetNextTimeout();
          return;
        }
        current := current + 1;
      }
      ClearedFirst(queue, timeoutId, current);
      SetNextTimeout();
    }

    /** A callback makes its calls of `set_timeout`. */
    method RunCallback(requests: seq<Request>)
      requires InOrder(queue, createdTimeoutsCount)
      modifies this
      ensures InOrder(queue, createdTimeoutsCount) && createdTimeoutsCount == old(createdTimeoutsCount) + |requests|
      ensures queue == Requested(old(queue), old(createdTimeoutsCount), cpuFrequency, requests)
    {
      hide InOrder, Requested, FirstAbove, InsertAt;
      ghost var queue0, created0 := queue, createdTimeoutsCount;
      NothingRequested(queue0, created0, cpuFrequency);
      for i := 0 to |requests|
        invariant InOrder(queue, createdTimeoutsCount) && createdTimeoutsCount == created0 + i
        invariant queue == Requested(queue0, created0, cpuFrequency, requests[..i])
      {
        var r := requests[i];
        var id := SetTimeout(r.call, r.timeoutUs, r.time);
        assert requests[..i + 1] == requests[..i] + [r];
        RequestedConcat(queue0, created0, cpuFrequency, requests[..i], [r]);
        OneRequest(Requested(queue0, created0, cpuFrequency, requests[..i]), created0 + i, cpuFrequency, r);
      }
      assert requests[..|requests|] == requests;
    }

    /**
     `timeouts_interrupt_handler` at time `now`, when it ends after so many turns: the heads that are due are called
     one after the other, and what their callbacks ask for is queued. `EndsIff` says when it ends.
     */
    method InterruptHandler(now: nat, asks: Callbacks, ghost turns: nat) returns (called: seq<Timeout>)
      requires Valid() && EndsAfter(queue, createdTimeoutsCount, cpuFrequency, asks, now, 0, turns)
      modifies this
      ensures Valid() && !Due(queue, now)
      ensures called == Called(old(queue), old(createdTimeoutsCount), cpuFrequency, asks, 0, turns)
      ensures queue == Left(old(queue), old(createdTimeoutsCount), cpuFrequency, asks, 0, turns)
    {
      hide InOrder, Requested, EndsAfter, Called, Left;
      ghost var queue0, created0 := queue, createdTimeoutsCount;
      called := [];
      while queue != []
        invariant |called| <= turns && InOrder(queue, createdTimeoutsCount)
        invariant EndsAfter(queue, createdTimeoutsCount, cpuFrequency, asks, now, |called|, turns - |called|)
        invariant Called(queue0, created0, cpuFrequency, asks, 0, turns) ==
          called + Called(queue, createdTimeoutsCount, cpuFrequency, asks, |called|, turns - |called|)
        invariant Left(queue0, created0, cpuFrequency, asks, 0, turns) ==
          Left(queue, createdTimeoutsCount, cpuFrequency, asks, |called|, turns - |called|)
        decreases turns - |called|
      {
        if queue[0].key > now {
          break;
        }
        NotOverYet(queue, createdTimeoutsCount, cpuFrequency, asks, now, |called|, turns - |called|);
        OneTurn(queue, createdTimeoutsCount, cpuFrequency, asks, now, |called|, turns - |called|);
        var entry := queue[0];
        HeadInOrder(queue, createdTimeoutsCount);
        queue := queue[1..];
        RunCallback(asks(entry.item, |called|));
        called := called + [entry];
      }
      OverNow(queue, createdTimeoutsCount, cpuFrequency, asks, now, |called|, turns - |called|);
      SetNextTimeout();
    }
  }
}

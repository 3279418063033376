/** The tasks of interrupt handling: a queue sorted by priority over a ring of 128 static slots. */
module InterruptTasks {
  import opened Lists
  import opened SortedQueues

  const TASKS_BUFFER_SIZE: nat := 128

  /** `struct interrupt_task` without its list node. */
  datatype Slot = Slot(handler: nat, arg: nat, priority: nat)

  /** What is queued: the slot, with its priority as the key and the number of the addition that filled it. */
  type Queued = Entry<nat>

  function Entries(queue: seq<nat>, buffer: seq<Slot>, filledBy: seq<nat>): (r: seq<Queued>)
    requires |buffer| == |filledBy| == TASKS_BUFFER_SIZE && forall i :: 0 <= i < |queue| ==>
      queue[i] < TASKS_BUFFER_SIZE
    ensures |r| == |queue| && forall i :: 0 <= i < |r| ==>
      r[i] == Entry(buffer[queue[i]].priority, filledBy[queue[i]], queue[i])
  {
    seq(|queue|, i requires 0 <= i < |queue| => Entry(buffer[queue[i]].priority, filledBy[queue[i]], queue[i]))
  }

  /** Every queued slot was filled by one of the additions so far, the one that its number says, and is queued once. */
  ghost predicate Ring(queue: seq<nat>, filledBy: seq<nat>, added: nat) {
    && |filledBy| == TASKS_BUFFER_SIZE
    && (forall i :: 0 <= i < |queue| ==>
      queue[i] < TASKS_BUFFER_SIZE && filledBy[queue[i]] < added && filledBy[queue[i]] % TASKS_BUFFER_SIZE == queue[i])
    && (forall i, j :: 0 <= i < j < |queue| ==> queue[i] != queue[j])
  }

  /** The next slot of the ring is still queued exactly when an addition that is a multiple of 128 additions old is. */
  lemma NextSlotQueued(queue: seq<nat>, filledBy: seq<nat>, added: nat)
    requires Ring(queue, filledBy, added)
    ensures added % TASKS_BUFFER_SIZE in queue <==>
      exists i :: 0 <= i < |queue| && (added - filledBy[queue[i]]) % TASKS_BUFFER_SIZE == 0
  {
    forall i | 0 <= i < |queue| ensures queue[i] == added % TASKS_BUFFER_SIZE <==>
      (added - filledBy[queue[i]]) % TASKS_BUFFER_SIZE == 0 {
      SameRemainder(added, filledBy[queue[i]]);
    }
    if added % TASKS_BUFFER_SIZE in queue {
      var i :| 0 <= i < |queue| && queue[i] == added % TASKS_BUFFER_SIZE;
      assert (added - filledBy[queue[i]]) % TASKS_BUFFER_SIZE == 0;
    }
  }

  /**
   What an addition to a ring does to the tasks that are queued. They all keep their contents if and only if
   the next slot is not queued, or is written with what it holds; and the queue, wherever the slot enters it,
   stays without repetitions if and only if the slot is not queued.
   */
  lemma AdditionKeepsQueued(queue: seq<nat>, buffer: seq<Slot>, filledBy: seq<nat>, added: nat, task: Slot, n: nat)
    requires Ring(queue, filledBy, added) && |buffer| == TASKS_BUFFER_SIZE && n <= |queue|
    ensures var head := added % TASKS_BUFFER_SIZE;
      && ((forall q :: q in queue ==> q < TASKS_BUFFER_SIZE && buffer[head := task][q] == buffer[q]) <==>
        head !in queue || buffer[head] == task)
      && (Distinct(InsertAt(queue, n, head)) <==> head !in queue)
  {
    var head := added % TASKS_BUFFER_SIZE;
    var inserted := InsertAt(queue, n, head);
    hide InsertAt;
    if head in queue {
      var i :| 0 <= i < |queue| && queue[i] == head;
      assert inserted[if i < n then i else i + 1] == inserted[n];
    }
  }

  /** The whole state: the next slot is `added` modulo the size of the ring. */
  datatype State = State(buffer: seq<Slot>, queue: seq<nat>, filledBy: seq<nat>, added: nat)

  ghost predicate Wellformed(s: State) {
    |s.buffer| == TASKS_BUFFER_SIZE && Ring(s.queue, s.filledBy, s.added)
  }

  /** `interrupt_tasks_add` when the next slot is not queued. */
  ghost function Added(s: State, task: Slot): (r: State)
    requires Wellformed(s) && s.added % TASKS_BUFFER_SIZE !in s.queue
    ensures Wellformed(r)
  {
    var head, n := s.added % TASKS_BUFFER_SIZE, FirstAbove(Entries(s.queue, s.buffer, s.filledBy), task.priority);
    RingAdd(s.queue, s.filledBy, s.added, head, n);
    State(s.buffer[head := task], InsertAt(s.queue, n, head), s.filledBy[head := s.added], s.added + 1)
  }

  /** `interrupt_tasks_execute` when a task is queued. */
  function Executed(s: State): State
    requires s.queue != []
  {
    s.(queue := s.queue[1..])
  }

  ghost function Initial(): State {
    State(seq(TASKS_BUFFER_SIZE, i => Slot(0, 0, 0)), [], seq(TASKS_BUFFER_SIZE, i => 0), 0)
  }

  lemma FirstAddition(first: Slot)
    ensures var s := Added(Initial(), first);
      Wellformed(s) && s.queue == [0] && s.buffer[0] == first && s.added == 1
  {
  }

  /** A more urgent task goes before the one that is queued, and is executed first. */
  lemma UrgentPasses(s: State, urgent: Slot)
    requires Wellformed(s) && s.queue == [0] && 0 < s.added < TASKS_BUFFER_SIZE
    requires urgent.priority < s.buffer[0].priority
    ensures var head := s.added % TASKS_BUFFER_SIZE; head == s.added && head !in s.queue
    ensures Added(s, urgent).queue == [s.added, 0]
    ensures var r := Executed(Added(s, urgent));
      Wellformed(r) && r.queue == [0] && r.buffer[0] == s.buffer[0] && r.added == s.added + 1
  {
    hide Ring, InsertAt;
    RingInside(s.queue, s.filledBy, s.added);
    assert FirstAbove(Entries(s.queue, s.buffer, s.filledBy), urgent.priority) == 0;
    assert InsertAt(s.queue, 0, s.added) == [s.added, 0];
    var added := Added(s, urgent);
    RingTail(added.queue, added.filledBy, added.added);
    assert [s.added, 0][1..] == [0];
  }

  lemma RingTail(queue: seq<nat>, filledBy: seq<nat>, added: nat)
    requires Ring(queue, filledBy, added) && queue != []
    ensures Ring(queue[1..], filledBy, added)
  {
  }

  /** After `first` was added, `k` times a more urgent task is added and executed: `first` stays queued. */
  ghost function Busy(first: Slot, urgent: Slot, k: nat): (s: State)
    requires urgent.priority < first.priority && k < TASKS_BUFFER_SIZE
    ensures Wellformed(s) && s.queue == [0] && s.buffer[0] == first && s.added == k + 1
  {
    hide Added, Executed, Ring, Initial;
    if k == 0 then
      FirstAddition(first);
      Added(Initial(), first)
    else
      var s := Busy(first, urgent, k - 1);
      UrgentPasses(s, urgent);
      Executed(Added(s, urgent))
  }

  /** So 128 additions and 127 executions leave a queued task where the next addition writes. */
  lemma SlotOverrun(first: Slot, urgent: Slot, next: Slot)
    requires urgent.priority < first.priority && next != first
    ensures var s := Busy(first, urgent, 127);
      && s.added == 128 && s.queue == [0] && s.buffer[0] == first
      && s.added % TASKS_BUFFER_SIZE in s.queue
      && s.buffer[s.added % TASKS_BUFFER_SIZE := next][s.queue[0]] == next != first
      && forall n :: 0 <= n <= |s.queue| ==> !Distinct(InsertAt(s.queue, n, s.added % TASKS_BUFFER_SIZE))
  {
    hide Distinct, InsertAt;
    var s := Busy(first, urgent, 127);
    forall n | 0 <= n <= |s.queue| ensures !Distinct(InsertAt(s.queue, n, s.added % TASKS_BUFFER_SIZE)) {
      AdditionKeepsQueued(s.queue, s.buffer, s.filledBy, s.added, next, n);
    }
  }

  lemma SameRemainder(a: nat, b: nat)
    requires b <= a
    ensures (a - b) % TASKS_BUFFER_SIZE == 0 <==> a % TASKS_BUFFER_SIZE == b % TASKS_BUFFER_SIZE
  {
  }

  lemma RingInside(queue: seq<nat>, filledBy: seq<nat>, added: nat)
    requires Ring(queue, filledBy, added)
    ensures |filledBy| == TASKS_BUFFER_SIZE && forall i :: 0 <= i < |queue| ==> queue[i] < TASKS_BUFFER_SIZE
  {
  }

  lemma NextHead(added: nat)
    ensures (added % TASKS_BUFFER_SIZE + 1) % TASKS_BUFFER_SIZE == (added + 1) % TASKS_BUFFER_SIZE
  {
  }

  lemma RingSerials(queue: seq<nat>, buffer: seq<Slot>, filledBy: seq<nat>, added: nat)
    requires Ring(queue, filledBy, added) && |buffer| == TASKS_BUFFER_SIZE
    ensures SerialsBelow(Entries(queue, buffer, filledBy), added)
  {
  }

  lemma RingAdd(queue: seq<nat>, filledBy: seq<nat>, added: nat, slot: nat, n: nat)
    requires Ring(queue, filledBy, added) && n <= |queue| && slot == added % TASKS_BUFFER_SIZE && slot !in queue
    ensures Ring(InsertAt(queue, n, slot), filledBy[slot := added], added + 1)
  {
    hide InsertAt;
  }

  lemma EntriesAdd(queue: seq<nat>, buffer: seq<Slot>, filledBy: seq<nat>, slot: nat, s: Slot, serial: nat, n: nat)
    requires |buffer| == |filledBy| == TASKS_BUFFER_SIZE && slot < TASKS_BUFFER_SIZE && n <= |queue| && slot !in queue
    requires forall i :: 0 <= i < |queue| ==> queue[i] < TASKS_BUFFER_SIZE
    ensures forall i :: 0 <= i <= |queue| ==> InsertAt(queue, n, slot)[i] < TASKS_BUFFER_SIZE
    ensures Entries(InsertAt(queue, n, slot), buffer[slot := s], filledBy[slot := serial])
      == InsertAt(Entries(queue, buffer, filledBy), n, Entry(s.priority, serial, slot))
  {
    hide InsertAt;
    assert forall i :: 0 <= i < |queue| ==> queue[i] != slot;
  }

  /** Where the search stops. */
  lemma PlaceFound(queue: seq<nat>, buffer: seq<Slot>, filledBy: seq<nat>, priority: nat, n: nat)
    requires |buffer| == |filledBy| == TASKS_BUFFER_SIZE && forall i :: 0 <= i < |queue| ==>
      queue[i] < TASKS_BUFFER_SIZE
    requires n <= |queue| && forall i :: 0 <= i < n ==> buffer[queue[i]].priority <= priority
    requires n < |queue| ==> priority < buffer[queue[n]].priority
    ensures FirstAbove(Entries(queue, buffer, filledBy), priority) == n
  {
    hide Entries;
  }

  class InterruptTasks {
    const tasksBuffer: array<Slot>
    var tasksBufferHead: nat
    var tasksQueue: seq<nat>

    /** The number of additions so far, and the one that last filled each slot. */
    ghost var added: nat
    ghost var filledBy: seq<nat>

    ghost predicate Valid()
      reads this, tasksBuffer
    {
      && tasksBuffer.Length == TASKS_BUFFER_SIZE && tasksBufferHead == added % TASKS_BUFFER_SIZE
      && Ring(tasksQueue, filledBy, added) && Stable(Queue())
    }

    ghost function Queue(): seq<Queued>
      requires tasksBuffer.Length == TASKS_BUFFER_SIZE && Ring(tasksQueue, filledBy, added)
      reads this, tasksBuffer
    {
      Entries(tasksQueue, tasksBuffer[..], filledBy)
    }

    ghost function Now(): State
      reads this, tasksBuffer
    {
      State(tasksBuffer[..], tasksQueue, filledBy, added)
    }

    constructor ()
      ensures Valid() && Now() == Initial()
    {
      tasksBuffer := new Slot[TASKS_BUFFER_SIZE](_ => Slot(0, 0, 0));
      tasksBufferHead, tasksQueue, added, filledBy := 0, [], 0, seq(TASKS_BUFFER_SIZE, i => 0);
      new;
      assert tasksBuffer[..] == Initial().buffer;
    }

    /**
     `interrupt_tasks_add`. The next slot of the ring is written whether or not it is queued. If it is not,
     the task goes behind all tasks of smaller or equal priority numbers and no queued task is touched.
     */
    method Add(handler: nat, arg: nat, priority: nat)
      requires Valid()
      modifies this, tasksBuffer
      ensures tasksBuffer[..] == old(tasksBuffer[..])[old(tasksBufferHead) := Slot(handler, arg, priority)]
      ensures tasksBufferHead == (old(tasksBufferHead) + 1) % TASKS_BUFFER_SIZE
      ensures old(tasksBufferHead) !in old(tasksQueue) ==>
        && Valid() && Now() == Added(old(Now()), Slot(handler, arg, priority))
        && Queue() == Inserted(old(Queue()), Entry(priority, old(added), old(tasksBufferHead)))
        && forall q :: q in old(tasksQueue) ==> q < TASKS_BUFFER_SIZE && tasksBuffer[q] == old(tasksBuffer[q])
    {
      hide Stable, Ring, Entries, SerialsBelow, FirstAbove, InsertAt;
      ghost var queue0, slots0, buffer0, filledBy0 := Queue(), tasksQueue, tasksBuffer[..], filledBy;
      var newEntry := tasksBufferHead;
      tasksBuffer[newEntry] := Slot(handler, arg, priority);
      tasksBufferHead := (tasksBufferHead + 1) % TASKS_BUFFER_SIZE;
      RingInside(tasksQueue, filledBy, added);
      var current := 0;
      while current < |tasksQueue|
        invariant 0 <= current <= |tasksQueue|
        invariant newEntry !in slots0 ==> forall i :: 0 <= i < current ==> buffer0[slots0[i]].priority <= priority
      {
        if priority < tasksBuffer[tasksQueue[current]].priority {
          break;
        }
        current := current + 1;
      }
      assert tasksBuffer[..] == buffer0[newEntry := Slot(handler, arg, priority)];
      if newEntry !in slots0 {
        PlaceFound(slots0, buffer0, filledBy0, priority, current);
        RingAdd(slots0, filledBy0, added, newEntry, current);
        EntriesAdd(slots0, buffer0, filledBy0, newEntry, Slot(handler, arg, priority), added, current);
        RingSerials(slots0, buffer0, filledBy0, added);
        StableInsert(queue0, Entry(priority, added, newEntry));
        NextHead(added);
      }
      tasksQueue := InsertAt(tasksQueue, current, newEntry);
      filledBy := filledBy[newEntry := added];
      added := added + 1;
    }

    /** `interrupt_tasks_execute` up to the call of the handler: the first task, if there is one, leaves the queue. */
    method Execute() returns (found: bool, task: Slot)
      requires Valid()
      modifies this`tasksQueue
      ensures Valid() && found == (old(tasksQueue) != [])
      ensures found ==>
        task == tasksBuffer[old(tasksQueue)[0]] && Queue() == old(Queue())[1..] && Now() == Executed(old(Now()))
      ensures !found ==> Now() == old(Now())
    {
      if tasksQueue == [] {
        return false, Slot(0, 0, 0);
      }
      task := tasksBuffer[tasksQueue[0]];
      tasksQueue := tasksQueue[1..];
      return true, task;
    }
  }
}

/**
 The scheduler: ready, waiting and killed queues, the task table, and the deferred switch after interrupts.
 Each call is one atomic step, up to and including the switch.
 */
module Scheduler {
  import opened Lists

  datatype TaskState = Ready | Running | Waiting | Killed

  /** The scheduling part of `struct task`: its state and the event it last waited for. */
  datatype TaskInfo = TaskInfo(state: TaskState, eventId: nat, arg: nat)

  const TASK_WAIT_PROCESS_KILL: nat := 1

  /** The pid of the static bootstrap task, which is in no queue. */
  const BOOTSTRAP: nat := 0

  datatype State = State(tasks: map<nat, TaskInfo>, ready: seq<nat>, waiting: seq<nat>, killed: seq<nat>,
      table: seq<nat>,
                         current: nat, idle: nat, inInterrupt: bool, needReschedule: bool, reaped: seq<nat>)

  /** The conditions that callers of `cpu_scheduler_fire_cond` pass. */
  datatype Condition = Any | PidIs(pid: nat) | ArgIs(arg: nat)

  predicate Matches(tasks: map<nat, TaskInfo>, p: nat, eventId: nat, cond: Condition) {
    && p in tasks && tasks[p].eventId == eventId
    && match cond
       case Any => true
       case PidIs(pid) => p == pid
       case ArgIs(arg) => tasks[p].arg == arg
  }

  /** The tasks of `xs` that an event wakes, or those that it does not, in order. */
  function Sift(tasks: map<nat, TaskInfo>, xs: seq<nat>, eventId: nat, cond: Condition, woken: bool): seq<nat> {
    if xs == [] then []
    else
      (if Matches(tasks, xs[0], eventId, cond) == woken then [xs[0]] else [])
      + Sift(tasks, xs[1..], eventId, cond, woken)
  }

  function Woken(tasks: map<nat, TaskInfo>, xs: seq<nat>, eventId: nat, cond: Condition): seq<nat> {
    Sift(tasks, xs, eventId, cond, true)
  }

  function Asleep(tasks: map<nat, TaskInfo>, xs: seq<nat>, eventId: nat, cond: Condition): seq<nat> {
    Sift(tasks, xs, eventId, cond, false)
  }

  function SetState(tasks: map<nat, TaskInfo>, p: nat, state: TaskState): map<nat, TaskInfo>
    requires p in tasks
  {
    tasks[p := TaskInfo(state, tasks[p].eventId, tasks[p].arg)]
  }

  function MakeReady(tasks: map<nat, TaskInfo>, woken: set<nat>): map<nat, TaskInfo> {
    map p | p in tasks :: if p in woken then TaskInfo(Ready, tasks[p].eventId, tasks[p].arg) else tasks[p]
  }

  function Elements(xs: seq<nat>): set<nat> {
    set x | x in xs
  }

  function Added(s: State, p: nat): State {
    s.(tasks := s.tasks[p := TaskInfo(Ready, 0, 0)], ready := s.ready + [p], table := s.table + [p])
  }

  function Fired(s: State, eventId: nat, cond: Condition): State {
    var woken := Woken(s.tasks, s.waiting, eventId, cond);
    s.(tasks := MakeReady(s.tasks, Elements(woken)), waiting := Asleep(s.tasks, s.waiting, eventId, cond),
        ready := s.ready + woken)
  }

  /** The state after a switch to the head of the ready queue. */
  function Switched(s: State): State
    requires s.ready != []
  {
    var next := s.ready[0];
    if s.current in s.tasks && s.tasks[s.current].state == Running then
      var ready := Remove(s.ready + [s.current], next);
      s.(tasks := SetRunning(SetState(s.tasks, s.current, Ready), next), ready := ready, current := next)
    else
      s.(tasks := SetRunning(s.tasks, next), ready := Remove(s.ready, next), current := next)
  }

  function SetRunning(tasks: map<nat, TaskInfo>, p: nat): map<nat, TaskInfo> {
    if p in tasks then SetState(tasks, p, Running) else tasks
  }

  function NextDone(s: State): State {
    if s.inInterrupt then s.(needReschedule := true)
    else if s.ready == [] then s
    else Switched(s)
  }

  predicate CanBeKilled(s: State, p: nat) {
    p in s.tasks && s.tasks[p].state != Killed
  }

  /** The task in the killed queue, its parents not yet woken. */
  function MarkedKilled(s: State, p: nat): State
    requires CanBeKilled(s, p)
  {
    s.(tasks := SetState(s.tasks, p, Killed), killed := s.killed + [p],
       ready := if s.tasks[p].state == Ready then Remove(s.ready, p) else s.ready,
       waiting := if s.tasks[p].state == Waiting then Remove(s.waiting, p) else s.waiting)
  }

  function KillDone(s: State, p: nat): State {
    if !CanBeKilled(s, p) then s
    else
      var fired := Fired(MarkedKilled(s, p), TASK_WAIT_PROCESS_KILL, ArgIs(p));
      if p == s.current then NextDone(fired) else fired
  }

  /** The current task goes to the end of the waiting queue, before the switch. */
  function NowWaiting(s: State, eventId: nat, arg: nat): State {
    s.(tasks := s.tasks[s.current := TaskInfo(Waiting, eventId, arg)], waiting := s.waiting + [s.current])
  }

  function WaitDone(s: State, eventId: nat, arg: nat): State {
    NextDone(NowWaiting(s, eventId, arg))
  }

  function Exited(s: State): State {
    if s.needReschedule then NextDone(s.(inInterrupt := false, needReschedule := false)) else s.(inInterrupt := false)
  }

  function ReapDone(s: State): State {
    if s.killed == [] then s
    else
      var p := s.killed[0];
      s.(killed := s.killed[1..], table := Remove(s.table, p), tasks := s.tasks - {p}, reaped := s.reaped + [p])
  }

  /** The steps: calls of the scheduler, the start and end of interrupt handling, the quantum timer, and one turn of
      the loop of the idle task. */
  datatype Step = Add(p: nat) | Kill(p: nat) | Wait(eventId: nat, arg: nat) | Fire(eventId: nat, cond: Condition)
                | Next | Enter | Exit | Tick | Reap

  /** What callers see to: pids are new, the idle task is not killed and does not wait, only a running task waits. */
  predicate Enabled(s: State, step: Step) {
    match step
    case Add(p) => p !in s.tasks && p !in s.reaped && p != BOOTSTRAP
    case Kill(p) => p != s.idle
    case Wait(_, _) => s.current in s.tasks && s.tasks[s.current].state == Running && s.current != s.idle
    case Fire(_, _) => true
    case Next => true
    case Enter => !s.inInterrupt
    case Exit => s.inInterrupt
    case Tick => s.inInterrupt
    case Reap => !s.inInterrupt && s.current in {s.idle, BOOTSTRAP}
  }

  function Do(s: State, step: Step): State {
    match step
    case Add(p) => Added(s, p)
    case Kill(p) => KillDone(s, p)
    case Wait(eventId, arg) => WaitDone(s, eventId, arg)
    case Fire(eventId, cond) => Fired(s, eventId, cond)
    case Next => NextDone(s)
    case Enter => s.(inInterrupt := true)
    case Exit => Exited(s)
    case Tick => s.(needReschedule := true)
    case Reap => ReapDone(s)
  }

  /** Each queue holds exactly the tasks whose state names it, once. */
  ghost predicate Queued(tasks: map<nat, TaskInfo>, queue: seq<nat>, state: TaskState) {
    && Distinct(queue)
    && forall p :: p in queue <==> p in tasks && tasks[p].state == state
  }

  ghost predicate Queues(s: State) {
    && Queued(s.tasks, s.ready, Ready) && Queued(s.tasks, s.waiting, Waiting) && Queued(s.tasks, s.killed, Killed)
    && Distinct(s.table) && forall p :: p in s.table <==> p in s.tasks
  }

  /** At most the current task runs. */
  predicate OneRuns(s: State) {
    forall p :: p in s.tasks && s.tasks[p].state == Running ==> p == s.current
  }

  /** A current task that does not run is about to be switched away from. */
  predicate SwitchPending(s: State) {
    && (s.current in s.tasks && s.tasks[s.current].state != Running ==> s.inInterrupt && s.needReschedule)
    && (s.current !in s.tasks ==> s.current == BOOTSTRAP)
    && (s.needReschedule ==> s.inInterrupt)
  }

  predicate IdleReady(s: State) {
    s.idle in s.tasks && s.tasks[s.idle].state in {Ready, Running}
  }

  /** A reaped task is gone for good. */
  ghost predicate ReapedOnce(s: State) {
    && Distinct(s.reaped) && BOOTSTRAP !in s.tasks && BOOTSTRAP !in s.reaped
    && forall p :: p in s.reaped ==> p !in s.tasks
  }

  ghost predicate Inv(s: State) {
    Queues(s) && OneRuns(s) && SwitchPending(s) && IdleReady(s) && ReapedOnce(s)
  }

  /** After `cpu_scheduler_init`: the idle task is ready and the bootstrap task is current. */
  function Initial(idle: nat): State {
    State(map[idle := TaskInfo(Ready, 0, 0)], [idle], [], [], [idle], BOOTSTRAP, idle, false, false, [])
  }

  lemma InitialInv(idle: nat)
    requires idle != BOOTSTRAP
    ensures Inv(Initial(idle))
  {
  }

  lemma {:induction false} SiftElements(tasks: map<nat, TaskInfo>, xs: seq<nat>, eventId: nat, cond: Condition,
      woken: bool)
    requires Distinct(xs)
    ensures Distinct(Sift(tasks, xs, eventId, cond, woken))
    ensures forall p :: p in Sift(tasks, xs, eventId, cond, woken) <==>
      p in xs && Matches(tasks, p, eventId, cond) == woken
  {
    hide Matches;
    if xs != [] {
      assert Distinct(xs[1..]) && xs[0] !in xs[1..] && forall p :: p in xs <==> p == xs[0] || p in xs[1..];
      SiftElements(tasks, xs[1..], eventId, cond, woken);
    }
  }

  lemma AddKeeps(s: State, p: nat)
    requires Inv(s) && Enabled(s, Add(p))
    ensures Inv(Added(s, p))
  {
    AppendDistinct(s.ready, p);
    AppendDistinct(s.table, p);
  }

  /** All of the invariant but the switch after a step that may leave the current task not running. */
  ghost predicate InvBut(s: State) {
    && Queues(s) && OneRuns(s) && IdleReady(s) && ReapedOnce(s)
    && (s.current !in s.tasks ==> s.current == BOOTSTRAP) && (s.needReschedule ==> s.inInterrupt)
  }

  /** A task whose state changes leaves the queue of the old state and enters that of the new one. */
  lemma QueueLeft(tasks: map<nat, TaskInfo>, queue: seq<nat>, p: nat, state: TaskState, state': TaskState)
    requires Queued(tasks, queue, state) && p in tasks && state' != state
    ensures Queued(SetState(tasks, p, state'), Remove(queue, p), state)
    ensures tasks[p].state != state ==> Queued(SetState(tasks, p, state'), queue, state)
  {
    RemoveDistinct(queue, p);
  }

  lemma QueueEntered(tasks: map<nat, TaskInfo>, queue: seq<nat>, p: nat, state: TaskState)
    requires Queued(tasks, queue, state) && p in tasks && tasks[p].state != state
    ensures Queued(SetState(tasks, p, state), queue + [p], state)
  {
    AppendDistinct(queue, p);
  }

  lemma FiredReady(tasks: map<nat, TaskInfo>, ready: seq<nat>, waiting: seq<nat>, woken: seq<nat>)
    requires Queued(tasks, ready, Ready) && Queued(tasks, waiting, Waiting) && Distinct(woken) && forall p ::
      p in woken ==> p in waiting
    ensures Queued(MakeReady(tasks, Elements(woken)), ready + woken, Ready)
  {
    forall i, j | 0 <= i < |ready| && 0 <= j < |woken| ensures ready[i] != woken[j] {
      assert ready[i] in ready && woken[j] in woken;
    }
    forall p ensures p in ready + woken <==> p in ready || p in woken {
    }
  }

  lemma FiredWaiting(tasks: map<nat, TaskInfo>, waiting: seq<nat>, woken: seq<nat>, asleep: seq<nat>)
    requires Queued(tasks, waiting, Waiting) && Distinct(asleep)
    requires forall p :: p in woken ==> p in waiting
    requires forall p :: p in asleep <==> p in waiting && p !in woken
    ensures Queued(MakeReady(tasks, Elements(woken)), asleep, Waiting)
  {
  }

  lemma FiredKilled(tasks: map<nat, TaskInfo>, killed: seq<nat>, waiting: seq<nat>, woken: seq<nat>)
    requires Queued(tasks, killed, Killed) && Queued(tasks, waiting, Waiting) && forall p :: p in woken ==> p in waiting
    ensures Queued(MakeReady(tasks, Elements(woken)), killed, Killed)
  {
  }

  lemma SiftWaiting(tasks: map<nat, TaskInfo>, xs: seq<nat>, eventId: nat, cond: Condition)
    requires Distinct(xs)
    ensures Distinct(Woken(tasks, xs, eventId, cond)) && Distinct(Asleep(tasks, xs, eventId, cond))
    ensures forall p :: p in Woken(tasks, xs, eventId, cond) <==> p in xs && Matches(tasks, p, eventId, cond)
    ensures forall p :: p in Asleep(tasks, xs, eventId, cond) <==> p in xs && !Matches(tasks, p, eventId, cond)
  {
    hide Matches, Distinct;
    SiftElements(tasks, xs, eventId, cond, true);
    SiftElements(tasks, xs, eventId, cond, false);
  }

  lemma FireKeeps(s: State, eventId: nat, cond: Condition)
    requires InvBut(s)
    ensures InvBut(Fired(s, eventId, cond)) && (SwitchPending(s) ==> SwitchPending(Fired(s, eventId, cond)))
  {
    hide Matches, Woken, Asleep, Distinct;
    var woken, asleep := Woken(s.tasks, s.waiting, eventId, cond), Asleep(s.tasks, s.waiting, eventId, cond);
    SiftWaiting(s.tasks, s.waiting, eventId, cond);
    FiredReady(s.tasks, s.ready, s.waiting, woken);
    FiredWaiting(s.tasks, s.waiting, woken, asleep);
    FiredKilled(s.tasks, s.killed, s.waiting, woken);
  }

  lemma SwitchKeeps(s: State)
    requires InvBut(s) && s.ready != [] && !s.inInterrupt
    ensures Inv(Switched(s)) && Switched(s).current == s.ready[0]
  {
    hide Remove, Distinct;
    var next := s.ready[0];
    assert next in s.ready;
    if s.current in s.tasks && s.tasks[s.current].state == Running {
      QueueEntered(s.tasks, s.ready, s.current, Ready);
      QueueLeft(s.tasks, s.waiting, s.current, Waiting, Ready);
      QueueLeft(s.tasks, s.killed, s.current, Killed, Ready);
      var tasks := SetState(s.tasks, s.current, Ready);
      NextRuns(s, tasks, s.ready + [s.current], next);
    } else {
      NextRuns(s, s.tasks, s.ready, next);
    }
  }

  lemma NextRuns(s: State, tasks: map<nat, TaskInfo>, ready: seq<nat>, next: nat)
    requires Queued(tasks, ready, Ready) && Queued(tasks, s.waiting, Waiting) && Queued(tasks, s.killed, Killed)
    requires next in ready
    requires Distinct(s.table) && tasks.Keys == s.tasks.Keys && forall p :: p in s.table <==> p in s.tasks
    requires forall p :: p in tasks ==> tasks[p].state != Running
    requires s.idle in tasks && tasks[s.idle].state == Ready && ReapedOnce(s) && !s.needReschedule
    ensures Inv(s.(tasks := SetRunning(tasks, next), ready := Remove(ready, next), current := next))
  {
    hide Remove, Distinct;
    QueueLeft(tasks, ready, next, Ready, Running);
    QueueLeft(tasks, s.waiting, next, Waiting, Running);
    QueueLeft(tasks, s.killed, next, Killed, Running);
  }

  lemma NextKeeps(s: State)
    requires InvBut(s)
    requires s.current in s.tasks && s.tasks[s.current].state != Running && !s.inInterrupt ==> s.ready != []
    ensures Inv(NextDone(s))
  {
    if !s.inInterrupt && s.ready != [] { SwitchKeeps(s); }
  }

  lemma MarkKeeps(s: State, p: nat)
    requires Inv(s) && CanBeKilled(s, p) && p != s.idle
    ensures InvBut(MarkedKilled(s, p)) && (p != s.current ==> SwitchPending(MarkedKilled(s, p)))
    ensures p == s.current && !s.inInterrupt ==> s.idle in MarkedKilled(s, p).ready
  {
    hide Remove, Distinct;
    QueueLeft(s.tasks, s.ready, p, Ready, Killed);
    QueueLeft(s.tasks, s.waiting, p, Waiting, Killed);
    QueueEntered(s.tasks, s.killed, p, Killed);
    assert SetState(s.tasks, p, Killed).Keys == s.tasks.Keys;
  }

  lemma KillKeeps(s: State, p: nat)
    requires Inv(s) && p != s.idle
    ensures Inv(KillDone(s, p))
  {
    hide MarkedKilled, Fired, NextDone, Queues, OneRuns, IdleReady, ReapedOnce;
    if CanBeKilled(s, p) {
      var marked := MarkedKilled(s, p);
      MarkKeeps(s, p);
      FireKeeps(marked, TASK_WAIT_PROCESS_KILL, ArgIs(p));
      if p == s.current {
        StillReady(s, marked, p);
        NextKeeps(Fired(marked, TASK_WAIT_PROCESS_KILL, ArgIs(p)));
      }
    }
  }

  lemma StillReady(s: State, marked: State, p: nat)
    requires CanBeKilled(s, p) && marked == MarkedKilled(s, p)
    ensures var fired := Fired(marked, TASK_WAIT_PROCESS_KILL, ArgIs(p));
      fired.inInterrupt == s.inInterrupt && (s.idle in marked.ready ==> fired.ready != []) && fired.current == s.current
  {
  }

  lemma QueueKept(tasks: map<nat, TaskInfo>, queue: seq<nat>, p: nat, state: TaskState, info: TaskInfo)
    requires Queued(tasks, queue, state) && p in tasks && tasks[p].state != state && info.state != state
    ensures Queued(tasks[p := info], queue, state)
  {
    hide Distinct;
  }

  lemma QueueJoined(tasks: map<nat, TaskInfo>, queue: seq<nat>, p: nat, info: TaskInfo)
    requires Queued(tasks, queue, info.state) && p in tasks && tasks[p].state != info.state
    ensures Queued(tasks[p := info], queue + [p], info.state)
  {
    hide Distinct;
    AppendDistinct(queue, p);
  }

  lemma WaitingKeeps(s: State, eventId: nat, arg: nat)
    requires Inv(s) && Enabled(s, Wait(eventId, arg))
    ensures InvBut(NowWaiting(s, eventId, arg)) && s.idle in s.ready
  {
    hide Distinct, Queued;
    var info := TaskInfo(Waiting, eventId, arg);
    assert s.idle in s.ready by { ReadyKnown(s.tasks, s.ready, s.idle); }
    QueueKept(s.tasks, s.ready, s.current, Ready, info);
    QueueJoined(s.tasks, s.waiting, s.current, info);
    QueueKept(s.tasks, s.killed, s.current, Killed, info);
  }

  lemma ReadyKnown(tasks: map<nat, TaskInfo>, ready: seq<nat>, p: nat)
    requires Queued(tasks, ready, Ready) && p in tasks && tasks[p].state == Ready
    ensures p in ready
  {
    hide Distinct;
  }

  lemma WaitKeeps(s: State, eventId: nat, arg: nat)
    requires Inv(s) && Enabled(s, Wait(eventId, arg))
    ensures Inv(WaitDone(s, eventId, arg))
  {
    hide Inv, InvBut, NextDone;
    WaitingKeeps(s, eventId, arg);
    NextKeeps(NowWaiting(s, eventId, arg));
  }

  lemma Reaped(tasks: map<nat, TaskInfo>, queue: seq<nat>, p: nat, state: TaskState)
    requires Queued(tasks, queue, state) && p in tasks && tasks[p].state != state
    ensures Queued(tasks - {p}, queue, state)
  {
  }

  lemma ReapKeeps(s: State)
    requires Inv(s) && Enabled(s, Reap)
    ensures Inv(ReapDone(s)) && ReapDone(s).current == s.current
    ensures s.killed != [] ==> s.killed[0] != s.current
  {
    hide Remove, Distinct, Queued;
    if s.killed != [] {
      var p := s.killed[0];
      HeadReaped(s.tasks, s.killed);
      RemoveDistinct(s.table, p);
      AppendDistinct(s.reaped, p);
      Reaped(s.tasks, s.ready, p, Ready);
      Reaped(s.tasks, s.waiting, p, Waiting);
    }
  }

  lemma HeadReaped(tasks: map<nat, TaskInfo>, killed: seq<nat>)
    requires Queued(tasks, killed, Killed) && killed != []
    ensures killed[0] in tasks && tasks[killed[0]].state == Killed && Queued(tasks - {killed[0]}, killed[1..], Killed)
  {
    assert killed[0] in killed;
    assert killed[0] !in killed[1..] && forall q :: q in killed <==> q == killed[0] || q in killed[1..];
  }

  /** Every step keeps the invariant. */
  lemma StepKeeps(s: State, step: Step)
    requires Inv(s) && Enabled(s, step)
    ensures Inv(Do(s, step))
  {
    match step
    case Add(p) => AddKeeps(s, p);
    case Kill(p) => KillKeeps(s, p);
    case Wait(eventId, arg) => WaitKeeps(s, eventId, arg);
    case Fire(eventId, cond) => FireKeeps(s, eventId, cond);
    case Next => NextKeeps(s);
    case Enter =>
    case Exit => if s.needReschedule { ExitKeeps(s); }
    case Tick =>
    case Reap => ReapKeeps(s);
  }

  lemma ExitKeeps(s: State)
    requires Inv(s) && s.inInterrupt && s.needReschedule
    ensures Inv(Exited(s))
  {
    assert s.current in s.tasks && s.tasks[s.current].state != Running ==> s.idle in s.ready;
    NextKeeps(s.(inInterrupt := false, needReschedule := false));
  }

  // Which step changes what of a task.

  /** The step wakes task `p` if it waits: by an event of its kind, to all, to it or to its argument, or by the end of
      the task that it waits for. */
  predicate Rouses(s: State, step: Step, p: nat)
    requires p in s.tasks
  {
    match step
    case Fire(eventId, Any) => s.tasks[p].eventId == eventId
    case Fire(eventId, PidIs(pid)) => s.tasks[p].eventId == eventId && p == pid
    case Fire(eventId, ArgIs(arg)) => s.tasks[p].eventId == eventId && s.tasks[p].arg == arg
    case Kill(q) => CanBeKilled(s, q) && s.tasks[p].eventId == TASK_WAIT_PROCESS_KILL && s.tasks[p].arg == q
    case _ => false
  }

  lemma FiredStates(s: State, eventId: nat, cond: Condition, p: nat)
    requires Queued(s.tasks, s.waiting, Waiting) && p in s.tasks
    ensures var s' := Fired(s, eventId, cond);
      && p in s'.tasks && s'.tasks[p].eventId == s.tasks[p].eventId && s'.tasks[p].arg == s.tasks[p].arg
      && s'.tasks[p].state ==
        if s.tasks[p].state == Waiting && Rouses(s, Fire(eventId, cond), p) then Ready else s.tasks[p].state
  {
    SiftWaiting(s.tasks, s.waiting, eventId, cond);
    hide Sift, Woken, Asleep;
  }

  /** A switch changes no waiting or killed task. */
  lemma SwitchedStates(s: State, p: nat)
    requires InvBut(s) && p in s.tasks
    ensures var s' := NextDone(s);
      && p in s'.tasks && s'.tasks[p].eventId == s.tasks[p].eventId && s'.tasks[p].arg == s.tasks[p].arg
      && (s'.tasks[p].state == Waiting <==> s.tasks[p].state == Waiting)
      && (s'.tasks[p].state == Killed <==> s.tasks[p].state == Killed)
  {
    hide Distinct, Remove;
    if s.ready != [] { HeadKnown(s); }
    if s.ready != [] { assert s.ready[0] in s.ready; }
  }

  lemma KilledStates(s: State, q: nat, p: nat)
    requires Inv(s) && q != s.idle && p in s.tasks && CanBeKilled(s, q)
    ensures var s' := KillDone(s, q);
      && p in s'.tasks && s'.tasks[p].eventId == s.tasks[p].eventId && s'.tasks[p].arg == s.tasks[p].arg
      && (s'.tasks[p].state == Killed <==> s.tasks[p].state == Killed || p == q)
      && (s'.tasks[p].state == Waiting <==> p != q && s.tasks[p].state == Waiting && !Rouses(s, Kill(q), p))
  {
    hide Fired, NextDone, Queued, OneRuns, IdleReady, ReapedOnce, Remove;
    var marked := MarkedKilled(s, q);
    MarkKeeps(s, q);
    WaitersKnown(marked);
    FiredStates(marked, TASK_WAIT_PROCESS_KILL, ArgIs(q), p);
    FireKeeps(marked, TASK_WAIT_PROCESS_KILL, ArgIs(q));
    if q == s.current { SwitchedStates(Fired(marked, TASK_WAIT_PROCESS_KILL, ArgIs(q)), p); }
  }

  /**
   The life of a task: it leaves the table when it is reaped; it is killed by its kill alone; it waits from its own
   wait, for what it then asked, until it is killed or roused; otherwise it is ready or running.
   */
  lemma StatesAfter(s: State, step: Step, p: nat)
    requires Inv(s) && Enabled(s, step) && p in s.tasks
    ensures p in Do(s, step).tasks <==> !(step == Reap && s.killed != [] && s.killed[0] == p)
    ensures p in Do(s, step).tasks ==>
      var t, t' := s.tasks[p], Do(s, step).tasks[p];
      var waits := step.Wait? && p == s.current;
      && (t'.state == Killed <==> t.state == Killed || step == Kill(p))
      && (t'.state == Waiting <==> waits || (t.state == Waiting && step != Kill(p) && !Rouses(s, step, p)))
      && if waits then t'.eventId == step.eventId && t'.arg == step.arg else t'.eventId == t.eventId && t'.arg == t.arg
  {
    hide Fired, NextDone, KillDone, Distinct, Remove;
    match step
    case Kill(q) =>
      if CanBeKilled(s, q) { KilledStates(s, q, p); } else { NotKilled(s, q); }
    case Wait(eventId, arg) =>
      WaitingKeeps(s, eventId, arg);
      SwitchedStates(NowWaiting(s, eventId, arg), p);
    case Fire(eventId, cond) => FiredStates(s, eventId, cond, p);
    case Next => SwitchedStates(s, p);
    case Exit =>
      if s.needReschedule { SwitchedStates(s.(inInterrupt := false, needReschedule := false), p); }
    case _ =>
  }

  lemma NotKilled(s: State, q: nat)
    requires !CanBeKilled(s, q)
    ensures KillDone(s, q) == s
  {
  }

  /** In a queue instead of a state: a waiter leaves the waiting queue exactly if it is killed or roused. */
  lemma LeavesWaiting(s: State, step: Step, p: nat)
    requires Inv(s) && Enabled(s, step) && p in s.waiting
    ensures p in s.tasks
    ensures p !in Do(s, step).waiting <==> step == Kill(p) || Rouses(s, step, p)
    ensures Rouses(s, step, p) && step != Kill(p) ==>
      p in Do(s, step).tasks && Do(s, step).tasks[p].state in {Ready, Running}
  {
    hide Distinct, Do, OneRuns, SwitchPending, IdleReady, ReapedOnce, Enabled;
    StepKeeps(s, step);
    StatesAfter(s, step, p);
    HeadState(s);
  }

  /** The kill of a task wakes exactly the waiters for its end, */
  lemma KillLeaves(s: State, q: nat, p: nat)
    requires Inv(s) && q != s.idle && CanBeKilled(s, q) && p in s.waiting && p != q
    ensures p in s.tasks
    ensures p !in Do(s, Kill(q)).waiting <==>
      s.tasks[p].eventId == TASK_WAIT_PROCESS_KILL && s.tasks[p].arg == q
  {
    LeavesWaiting(s, Kill(q), p);
    hide Inv, Do;
  }

  /** and an event exactly those of its kind that it is meant for: all, one task, or those with one argument. */
  lemma FireLeaves(s: State, eventId: nat, p: nat, x: nat)
    requires Inv(s) && p in s.waiting
    ensures p in s.tasks
    ensures p !in Do(s, Fire(eventId, Any)).waiting <==> s.tasks[p].eventId == eventId
    ensures p !in Do(s, Fire(eventId, PidIs(x))).waiting <==> s.tasks[p].eventId == eventId && p == x
    ensures p !in Do(s, Fire(eventId, ArgIs(x))).waiting <==> s.tasks[p].eventId == eventId && s.tasks[p].arg == x
  {
    LeavesWaiting(s, Fire(eventId, Any), p);
    LeavesWaiting(s, Fire(eventId, PidIs(x)), p);
    LeavesWaiting(s, Fire(eventId, ArgIs(x)), p);
    hide Inv, Do;
  }

  lemma HeadState(s: State)
    requires Inv(s)
    ensures s.killed != [] ==> s.killed[0] in s.tasks && s.tasks[s.killed[0]].state == Killed
  {
    hide Distinct;
    if s.killed != [] { assert s.killed[0] in s.killed; }
  }

  /** Task `p` waits for this event with this argument. */
  predicate Waits(s: State, p: nat, eventId: nat, arg: nat) {
    p in s.tasks && s.tasks[p].state == Waiting && s.tasks[p].eventId == eventId && s.tasks[p].arg == arg
  }

  /** States of a run and the steps between them. */
  ghost predicate Run(ss: seq<State>, steps: seq<Step>) {
    && |ss| == |steps| + 1 && Inv(ss[0])
    && forall i :: 0 <= i < |steps| ==> Enabled(ss[i], steps[i]) && ss[i + 1] == Do(ss[i], steps[i])
  }

  /** The invariant holds throughout every run. */
  lemma {:induction false} RunKeeps(ss: seq<State>, steps: seq<Step>, i: nat)
    requires Run(ss, steps) && i < |ss|
    ensures Inv(ss[i])
  {
    hide Inv, Enabled, Do;
    if i > 0 {
      RunKeeps(ss, steps, i - 1);
      StepKeeps(ss[i - 1], steps[i - 1]);
    }
  }

  /** Step `j` kills or rouses the waiter. */
  ghost predicate EndsWait(ss: seq<State>, steps: seq<Step>, p: nat, eventId: nat, arg: nat, j: nat)
    requires |ss| == |steps| + 1 && j < |steps|
  {
    Waits(ss[j], p, eventId, arg) && (steps[j] == Kill(p) || Rouses(ss[j], steps[j], p))
  }

  /**
   A task that starts to wait in a run goes on waiting, for that and with that argument, until it is killed or roused: a
   task that waits for the end of another is roused by its kill, or by an event of that kind, and by nothing else.
   */
  lemma {:induction false} WaitsUntil(ss: seq<State>, steps: seq<Step>, p: nat, eventId: nat, arg: nat, n: nat)
    requires Run(ss, steps) && 0 < n <= |steps| && steps[0] == Wait(eventId, arg) && ss[0].current == p
    ensures Waits(ss[n], p, eventId, arg) || exists j: nat :: 0 < j < n && EndsWait(ss, steps, p, eventId, arg, j)
  {
    hide Inv, Do, Rouses;
    RunKeeps(ss, steps, n - 1);
    if n == 1 {
      StatesAfter(ss[0], steps[0], p);
    } else {
      WaitsUntil(ss, steps, p, eventId, arg, n - 1);
      if Waits(ss[n - 1], p, eventId, arg) {
        StatesAfter(ss[n - 1], steps[n - 1], p);
        NotReaped(ss[n - 1], p);
        if steps[n - 1] == Kill(p) || Rouses(ss[n - 1], steps[n - 1], p) {
          assert EndsWait(ss, steps, p, eventId, arg, n - 1);
        }
      }
    }
  }

  lemma NotReaped(s: State, p: nat)
    requires Inv(s) && p in s.tasks && s.tasks[p].state == Waiting
    ensures s.killed != [] ==> s.killed[0] != p
  {
    HeadState(s);
  }

  /** The kill of the task that another waits for makes that ready, or running at once. */
  lemma KillRouses(s: State, p: nat, q: nat)
    requires Inv(s) && q != s.idle && CanBeKilled(s, q) && p != q && Waits(s, p, TASK_WAIT_PROCESS_KILL, q)
    ensures p in Do(s, Kill(q)).tasks && Do(s, Kill(q)).tasks[p].state in {Ready, Running}
  {
    StatesAfter(s, Kill(q), p);
    hide Inv, Do;
  }

  /** The step completes a call of `cpu_scheduler_next`. */
  predicate Switches(s: State, step: Step) {
    match step
    case Kill(p) => CanBeKilled(s, p) && p == s.current && !s.inInterrupt
    case Wait(_, _) => !s.inInterrupt && s.ready != []
    case Next => !s.inInterrupt && s.ready != []
    case Exit => s.needReschedule && s.ready != []
    case _ => false
  }

  /** Whenever another task becomes the current one, a switch is counted, and after one that is counted the current task
      runs. */
  lemma SwitchesRun(s: State, step: Step)
    requires Inv(s) && Enabled(s, step)
    ensures Do(s, step).current != s.current ==> Switches(s, step)
    ensures Switches(s, step) ==> Runs(Do(s, step), Do(s, step).current)
  {
    hide Remove, Distinct, Queues, Sift;
    StepKeeps(s, step);
    match step
    case Kill(p) =>
      if CanBeKilled(s, p) && p == s.current && !s.inInterrupt {
        MarkKeeps(s, p);
        FireKeeps(MarkedKilled(s, p), TASK_WAIT_PROCESS_KILL, ArgIs(p));
        StillReady(s, MarkedKilled(s, p), p);
        SwitchRuns(Fired(MarkedKilled(s, p), TASK_WAIT_PROCESS_KILL, ArgIs(p)));
      }
    case Wait(eventId, arg) =>
      WaitingKeeps(s, eventId, arg);
      if !s.inInterrupt { SwitchRuns(NowWaiting(s, eventId, arg)); }
    case Next => if !s.inInterrupt && s.ready != [] { SwitchRuns(s); }
    case Exit =>
      if s.needReschedule && s.ready != [] {
        SameQueues(s, s.(inInterrupt := false, needReschedule := false));
        SwitchRuns(s.(inInterrupt := false, needReschedule := false));
      }
    case _ =>
  }

  lemma SwitchRuns(s: State)
    requires InvBut(s) && s.ready != [] && !s.inInterrupt
    ensures Runs(NextDone(s), NextDone(s).current) && NextDone(s).current == s.ready[0]
  {
    hide Remove, Distinct;
    HeadKnown(s);
  }

  /** A switch was asked for: by a call of `cpu_scheduler_next`, by a wait, or by the kill of the current task. */
  predicate AsksToSwitch(s: State, step: Step) {
    step == Next || step.Wait? || (step == Kill(s.current) && CanBeKilled(s, s.current))
  }

  /** A reschedule is pending exactly from the quantum timer, or from when a switch was asked for in an interrupt, to
      the end of an interrupt; what was asked for outside of one happens at once. */
  lemma PendingAfter(s: State, step: Step)
    requires Enabled(s, step)
    ensures Do(s, step).inInterrupt <==> step == Enter || (s.inInterrupt && step != Exit)
    ensures Do(s, step).needReschedule <==>
      step == Tick || (s.inInterrupt && AsksToSwitch(s, step)) || (s.needReschedule && step != Exit)
    ensures Do(s, step).current != s.current ==>
      (!s.inInterrupt && AsksToSwitch(s, step)) || (step == Exit && s.needReschedule)
  {
    hide Sift, Remove;
  }

  /** The quantum timer, or a request to switch in an interrupt, holds to the end of that interrupt, whatever happens
      until then, and leads to a switch to the head of the ready queue. */
  lemma TickSwitches(ss: seq<State>, steps: seq<Step>, n: nat)
    requires Run(ss, steps) && 0 < n < |steps| && steps[n] == Exit && forall i :: 0 < i < n ==> steps[i] != Exit
    requires steps[0] == Tick || (ss[0].inInterrupt && AsksToSwitch(ss[0], steps[0]))
    ensures ss[n].ready != [] ==>
      Switches(ss[n], Exit) && ss[n + 1].current == ss[n].ready[0] && Runs(ss[n + 1], ss[n + 1].current)
  {
    hide Inv, Enabled, Do, AsksToSwitch, Runs;
    PendingStays(ss, steps, n);
    RunKeeps(ss, steps, n);
    SwitchesRun(ss[n], Exit);
    if ss[n].ready != [] { AtExit(ss[n]); }
  }

  lemma AtExit(s: State)
    requires s.needReschedule && s.ready != []
    ensures Switches(s, Exit) && Do(s, Exit).current == s.ready[0]
  {
  }

  lemma {:induction false} PendingStays(ss: seq<State>, steps: seq<Step>, n: nat)
    requires Run(ss, steps) && 0 < n <= |steps| && forall i :: 0 < i < n ==> steps[i] != Exit
    requires steps[0] == Tick || (ss[0].inInterrupt && AsksToSwitch(ss[0], steps[0]))
    ensures ss[n].inInterrupt && ss[n].needReschedule
  {
    hide Inv, Do, AsksToSwitch;
    PendingAfter(ss[n - 1], steps[n - 1]);
    if n == 1 {
      NotAtOnce(ss[0], steps[0]);
    } else {
      PendingStays(ss, steps, n - 1);
    }
  }

  lemma NotAtOnce(s: State, step: Step)
    requires Enabled(s, step) && (step == Tick || (s.inInterrupt && AsksToSwitch(s, step)))
    ensures s.inInterrupt && step != Exit
  {
  }

  function SwitchCount(ss: seq<State>, steps: seq<Step>, n: nat): nat
    requires n <= |steps| < |ss|
  {
    if n == 0 then 0 else SwitchCount(ss, steps, n - 1) + (if Switches(ss[n - 1], steps[n - 1]) then 1 else 0)
  }

  /** Task `p` is at position `k` of the ready queue or nearer to its head. */
  ghost predicate ReadyBy(s: State, p: nat, k: int) {
    exists i :: 0 <= i < |s.ready| && i <= k && s.ready[i] == p
  }

  predicate Runs(s: State, p: nat) {
    p in s.tasks && s.tasks[p].state == Running
  }

  lemma ReadyAppended(s: State, s': State, p: nat, k: int)
    requires ReadyBy(s, p, k) && s.ready <= s'.ready
    ensures ReadyBy(s', p, k)
  {
    var i :| 0 <= i < |s.ready| && i <= k && s.ready[i] == p;
    assert s'.ready[i] == p;
  }

  /** A switch runs the head of the ready queue and brings the others one nearer to it. */
  lemma NextBringsNearer(s: State, p: nat, k: int)
    requires InvBut(s) && ReadyBy(s, p, k)
    ensures var switch := !s.inInterrupt && s.ready != [];
      Runs(NextDone(s), p) || ReadyBy(NextDone(s), p, if switch then k - 1 else k)
  {
    hide Distinct;
    var i :| 0 <= i < |s.ready| && i <= k && s.ready[i] == p;
    if !s.inInterrupt {
      var s' := Switched(s);
      assert s.ready[0] in s.ready;
      if i > 0 {
        assert s'.ready[i - 1] == p;
      }
    }
  }

  lemma MarkBringsNearer(s: State, q: nat, p: nat, k: int)
    requires Inv(s) && CanBeKilled(s, q) && ReadyBy(s, p, k) && p != q
    ensures ReadyBy(MarkedKilled(s, q), p, k)
  {
    hide Remove, Distinct, OneRuns, SwitchPending, IdleReady, ReapedOnce, SetState;
    var i :| 0 <= i < |s.ready| && i <= k && s.ready[i] == p;
    if s.tasks[q].state == Ready {
      assert q in s.ready;
      var j :| 0 <= j < |s.ready| && s.ready[j] == q;
      RemoveAt(s.ready, j);
      assert Cut(s.ready, j)[if i < j then i else i - 1] == p;
    }
  }

  /** No step but its kill takes a task back in the ready queue, and each completed switch brings it nearer. */
  lemma StepBringsNearer(s: State, step: Step, p: nat, k: int)
    requires Inv(s) && Enabled(s, step) && step != Kill(p) && ReadyBy(s, p, k)
    ensures Runs(Do(s, step), p) || ReadyBy(Do(s, step), p, if Switches(s, step) then k - 1 else k)
  {
    hide Queues, Remove, Woken, Asleep, Sift, MakeReady, ReapedOnce;
    match step
    case Kill(q) =>
      if CanBeKilled(s, q) {
        MarkBringsNearer(s, q, p, k);
        MarkKeeps(s, q);
        var marked := MarkedKilled(s, q);
        FireKeeps(marked, TASK_WAIT_PROCESS_KILL, ArgIs(q));
        var fired := Fired(marked, TASK_WAIT_PROCESS_KILL, ArgIs(q));
        ReadyAppended(marked, fired, p, k);
        if q == s.current { NextBringsNearer(fired, p, k); }
      }
    case Wait(eventId, arg) => WaitBringsNearer(s, eventId, arg, p, k);
    case Exit => if s.needReschedule { ExitBringsNearer(s, p, k); }
    case Next => NextBringsNearer(s, p, k);
    case Add(_) => ReadyAppended(s, Do(s, step), p, k);
    case Fire(_, _) => ReadyAppended(s, Do(s, step), p, k);
    case Enter => ReadyAppended(s, Do(s, step), p, k);
    case Tick => ReadyAppended(s, Do(s, step), p, k);
    case Reap => ReadyAppended(s, Do(s, step), p, k);
  }

  lemma WaitBringsNearer(s: State, eventId: nat, arg: nat, p: nat, k: int)
    requires Inv(s) && Enabled(s, Wait(eventId, arg)) && ReadyBy(s, p, k)
    ensures Runs(WaitDone(s, eventId, arg), p) || ReadyBy(WaitDone(s, eventId, arg), p,
        if !s.inInterrupt && s.ready != [] then k - 1 else k)
  {
    hide Inv, InvBut, NextDone, Runs, ReadyBy;
    var t := NowWaiting(s, eventId, arg);
    WaitingKeeps(s, eventId, arg);
    ReadyAppended(s, t, p, k);
    NextBringsNearer(t, p, k);
  }

  lemma ExitBringsNearer(s: State, p: nat, k: int)
    requires Inv(s) && s.inInterrupt && s.needReschedule && ReadyBy(s, p, k)
    ensures Runs(Exited(s), p) || ReadyBy(Exited(s), p, if s.ready != [] then k - 1 else k)
  {
    hide Queues, NextDone;
    var t := s.(inInterrupt := false, needReschedule := false);
    ReadyAppended(s, t, p, k);
    assert Queues(t) by { SameQueues(s, t); }
    NextBringsNearer(t, p, k);
  }

  lemma SameQueues(s: State, t: State)
    requires Queues(s) && t.tasks == s.tasks && t.ready == s.ready && t.waiting == s.waiting && t.killed == s.killed
    requires t.table == s.table
    ensures Queues(t)
  {
  }

  /** A ready task at position `k` that is not killed runs after at most `k + 1` completed switches. */
  lemma {:induction false} BoundedWaiting(ss: seq<State>, steps: seq<Step>, p: nat, k: nat, n: nat)
    requires Run(ss, steps) && n <= |steps| && ReadyBy(ss[0], p, k)
    requires forall i :: 0 <= i < n ==> steps[i] != Kill(p)
    ensures (exists i :: 0 <= i <= n && Runs(ss[i], p)) || ReadyBy(ss[n], p, k - SwitchCount(ss, steps, n))
    ensures SwitchCount(ss, steps, n) > k ==> exists i :: 0 <= i <= n && Runs(ss[i], p)
  {
    hide Inv, Enabled, Do, Switches, Runs;
    if n > 0 {
      BoundedWaiting(ss, steps, p, k, n - 1);
      if i :| 0 <= i <= n - 1 && Runs(ss[i], p) {
        assert Runs(ss[i], p);
      } else {
        RunKeeps(ss, steps, n - 1);
        StepBringsNearer(ss[n - 1], steps[n - 1], p, k - SwitchCount(ss, steps, n - 1));
      }
    }
  }

  /** Task `p` is at position `k` of the killed queue or nearer to its head. */
  ghost predicate KilledBy(s: State, p: nat, k: int) {
    exists i :: 0 <= i < |s.killed| && i <= k && s.killed[i] == p
  }

  function ReapCount(steps: seq<Step>, n: nat): nat
    requires n <= |steps|
  {
    if n == 0 then 0 else ReapCount(steps, n - 1) + (if steps[n - 1] == Reap then 1 else 0)
  }

  /** The killed queue grows at its end and shrinks at its head alone. */
  lemma StepKeepsKilled(s: State, step: Step)
    ensures if step == Reap && s.killed != [] then Do(s, step).killed == s.killed[1..] &&
      Do(s, step).reaped == s.reaped + [s.killed[0]]
      else s.killed <= Do(s, step).killed && Do(s, step).reaped == s.reaped
  {
  }

  /** A killed task is reaped when the idle task has taken its turn in the killed queue, and stays reaped. */
  lemma {:induction false} KilledIsReaped(ss: seq<State>, steps: seq<Step>, p: nat, k: nat, n: nat)
    requires Run(ss, steps) && n <= |steps| && (KilledBy(ss[0], p, k) || p in ss[0].reaped)
    ensures p in ss[n].reaped || KilledBy(ss[n], p, k - ReapCount(steps, n))
    ensures ReapCount(steps, n) > k ==> p in ss[n].reaped
  {
    hide Inv, Enabled, Do;
    if n > 0 {
      KilledIsReaped(ss, steps, p, k, n - 1);
      StepKeepsKilled(ss[n - 1], steps[n - 1]);
      if p !in ss[n - 1].reaped {
        KilledStep(ss[n - 1], ss[n], p, k - ReapCount(steps, n - 1), steps[n - 1] == Reap);
      }
    }
  }

  lemma KilledStep(s: State, s': State, p: nat, k: int, reap: bool)
    requires KilledBy(s, p, k)
    requires if reap && s.killed != [] then s'.killed == s.killed[1..] &&
      s'.reaped == s.reaped + [s.killed[0]] else s.killed <= s'.killed && s'.reaped == s.reaped
    ensures p in s'.reaped || KilledBy(s', p, if reap then k - 1 else k)
  {
    var i :| 0 <= i < |s.killed| && i <= k && s.killed[i] == p;
    if reap && i > 0 {
      assert s'.killed[i - 1] == p;
    } else if !reap {
      assert s'.killed[i] == p;
    }
  }

  /** An event wakes exactly the matching waiters, in the order in which they wait, and the others go on waiting in
      their order. */
  lemma {:induction false} SiftInOrder(tasks: map<nat, TaskInfo>, xs: seq<nat>, eventId: nat, cond: Condition,
      woken: bool, p: nat, q: nat)
    requires Distinct(xs)
    ensures Before(Sift(tasks, xs, eventId, cond, woken), p, q) <==>
      Before(xs, p, q) && Matches(tasks, p, eventId, cond) == woken && Matches(tasks, q, eventId, cond) == woken
  {
    hide Matches, Before, Distinct;
    if xs == [] {
      NothingBefore(p, q);
    } else {
      DistinctTail(xs);
      var rest := Sift(tasks, xs[1..], eventId, cond, woken);
      SiftInOrder(tasks, xs[1..], eventId, cond, woken, p, q);
      SiftElements(tasks, xs[1..], eventId, cond, woken);
      BeforeCons(xs[0], xs[1..], p, q);
      BeforeCons(xs[0], rest, p, q);
      assert xs == [xs[0]] + xs[1..] && [] + rest == rest;
    }
  }

  lemma NothingBefore(p: nat, q: nat)
    ensures !Before([], p, q)
  {
  }

  lemma DistinctTail(xs: seq<nat>)
    requires Distinct(xs) && xs != []
    ensures Distinct(xs[1..]) && xs[0] !in xs[1..]
  {
  }

  /** `p` is somewhere before `q` in `xs`. */
  ghost predicate Before(xs: seq<nat>, p: nat, q: nat) {
    exists i, j :: 0 <= i < j < |xs| && xs[i] == p && xs[j] == q
  }

  lemma BeforeCons(x: nat, xs: seq<nat>, p: nat, q: nat)
    ensures Before([x] + xs, p, q) <==> (x == p && q in xs) || Before(xs, p, q)
  {
    var ys := [x] + xs;
    if i, j :| 0 <= i < j < |ys| && ys[i] == p && ys[j] == q {
      if i == 0 { assert xs[j - 1] == q; } else { assert xs[i - 1] == p && xs[j - 1] == q; }
    }
    if x == p && q in xs {
      var j :| 0 <= j < |xs| && xs[j] == q;
      assert ys[0] == p && ys[j + 1] == q;
    }
    if i, j :| 0 <= i < j < |xs| && xs[i] == p && xs[j] == q {
      assert ys[i + 1] == p && ys[j + 1] == q;
    }
  }

  /** A task that starts to wait does so behind all others, and waiters that go on waiting keep their order. */
  lemma WaitersInOrder(s: State, step: Step, p: nat, q: nat)
    requires Inv(s) && Enabled(s, step) && p in s.waiting
    requires p in Do(s, step).waiting && q in Do(s, step).waiting && p != q
    ensures Before(s.waiting, p, q) || q !in s.waiting ==> Before(Do(s, step).waiting, p, q)
  {
    hide Sift, OneRuns, IdleReady, ReapedOnce, SwitchPending, Before, Distinct, Remove, Matches;
    match step
    case Kill(k) => if CanBeKilled(s, k) { KillInOrder(s, k, p, q); } else { NotKilled(s, k); }
    case Wait(eventId, arg) =>
      NextKeepsWaiting(NowWaiting(s, eventId, arg));
      LastInOrder(s.waiting, s.current, p, q);
    case Fire(eventId, cond) => FireInOrder(s, eventId, cond, p, q);
    case Next => NextKeepsWaiting(s);
    case Exit => NextKeepsWaiting(s.(inInterrupt := false, needReschedule := false));
    case _ =>
  }

  lemma NextKeepsWaiting(s: State)
    ensures NextDone(s).waiting == s.waiting
  {
  }

  lemma LastInOrder(waiting: seq<nat>, x: nat, p: nat, q: nat)
    requires p in waiting && q in waiting + [x]
    ensures Before(waiting, p, q) || q !in waiting ==> Before(waiting + [x], p, q)
  {
    var more := waiting + [x];
    if i, j :| 0 <= i < j < |waiting| && waiting[i] == p && waiting[j] == q {
      assert more[i] == p && more[j] == q;
    } else if q !in waiting {
      var i :| 0 <= i < |waiting| && waiting[i] == p;
      assert more[i] == p && more[|waiting|] == q;
    }
  }

  lemma FireInOrder(s: State, eventId: nat, cond: Condition, p: nat, q: nat)
    requires Distinct(s.waiting) && p in Fired(s, eventId, cond).waiting && q in Fired(s, eventId, cond).waiting
    ensures q in s.waiting && (Before(s.waiting, p, q) ==> Before(Fired(s, eventId, cond).waiting, p, q))
  {
    hide Sift, Before, Distinct, Matches;
    SiftElements(s.tasks, s.waiting, eventId, cond, false);
    SiftInOrder(s.tasks, s.waiting, eventId, cond, false, p, q);
  }

  lemma KillInOrder(s: State, k: nat, p: nat, q: nat)
    requires Inv(s) && CanBeKilled(s, k) && p in KillDone(s, k).waiting && q in KillDone(s, k).waiting
    ensures q in s.waiting && (Before(s.waiting, p, q) ==> Before(KillDone(s, k).waiting, p, q))
  {
    hide Fired, Before, Distinct, Remove, OneRuns, IdleReady, ReapedOnce, SwitchPending, NextDone;
    var marked := MarkedKilled(s, k);
    var fired := Fired(marked, TASK_WAIT_PROCESS_KILL, ArgIs(k));
    NextKeepsWaiting(fired);
    RemoveDistinct(s.waiting, k);
    FireInOrder(marked, TASK_WAIT_PROCESS_KILL, ArgIs(k), p, q);
    FiredSome(marked, TASK_WAIT_PROCESS_KILL, ArgIs(k), p);
    if Before(s.waiting, p, q) && marked.waiting != s.waiting { RemovedBefore(s.waiting, k, p, q); }
  }

  lemma FiredSome(s: State, eventId: nat, cond: Condition, p: nat)
    requires Distinct(s.waiting) && p in Fired(s, eventId, cond).waiting
    ensures p in s.waiting
  {
    hide Sift, Distinct, Matches;
    SiftElements(s.tasks, s.waiting, eventId, cond, false);
  }

  lemma RemovedBefore(xs: seq<nat>, x: nat, p: nat, q: nat)
    requires Distinct(xs) && Before(xs, p, q) && p != x && q != x
    ensures Before(Remove(xs, x), p, q)
  {
    hide Remove, Distinct, Before, Cut;
    if x in xs {
      var k :| 0 <= k < |xs| && xs[k] == x;
      RemoveAt(xs, k);
      CutBefore(xs, k, p, q);
    } else {
      RemoveAbsent(xs, x);
    }
  }

  lemma CutBefore(xs: seq<nat>, k: nat, p: nat, q: nat)
    requires k < |xs| && Before(xs, p, q) && p != xs[k] && q != xs[k]
    ensures Before(Cut(xs, k), p, q)
  {
    hide Cut;
    var i, j :| 0 <= i < j < |xs| && xs[i] == p && xs[j] == q;
    var a, b := if i < k then i else i - 1, if j < k then j else j - 1;
    assert a < b && Cut(xs, k)[a] == p && Cut(xs, k)[b] == q;
  }

  /** The scheduler of `cpu_scheduler.c`, the table of `task_table.c` and the two flags of `interrupt_handler.c`. */
  class CpuScheduler {
    var tasks: map<nat, TaskInfo>
    var readyQueue: seq<nat>
    var waitingQueue: seq<nat>
    var killedQueue: seq<nat>
    var entries: seq<nat>
    var currentTask: nat
    var idleTask: nat
    var isHandlingInterrupt: bool
    var needRescheduleCpu: bool
    ghost var reaped: seq<nat>

    ghost function Now(): State
      reads this
    {
      State(tasks, readyQueue, waitingQueue, killedQueue, entries, currentTask, idleTask, isHandlingInterrupt,
          needRescheduleCpu, reaped)
    }

    /** `cpu_scheduler_init` */
    constructor (idle: nat)
      ensures Now() == Initial(idle)
    {
      tasks := map[idle := TaskInfo(Ready, 0, 0)];
      readyQueue, waitingQueue, killedQueue, entries := [idle], [], [], [idle];
      currentTask, idleTask, isHandlingInterrupt, needRescheduleCpu, reaped := BOOTSTRAP, idle, false, false, [];
    }

    /** `cpu_scheduler_add_task` */
    method AddTask(p: nat)
      modifies this
      ensures Now() == Do(old(Now()), Add(p))
    {
      tasks := tasks[p := TaskInfo(Ready, 0, 0)];
      readyQueue := readyQueue + [p];
      entries := entries + [p];
    }

    /** `task_table_get_task`: the entry with this pid, if there is one. */
    method GetTask(pid: nat) returns (found: bool)
      ensures found <==> pid in entries
    {
      var i := 0;
      while i < |entries|
        invariant 0 <= i <= |entries| && pid !in entries[..i]
      {
        if entries[i] == pid {
          return true;
        }
        i := i + 1;
      }
      assert entries[..i] == entries;
      return false;
    }

    /** `cpu_scheduler_fire_cond` */
    method FireCond(eventId: nat, cond: Condition)
      requires Queued(tasks, waitingQueue, Waiting)
      modifies this`tasks, this`readyQueue, this`waitingQueue
      ensures Now() == Do(old(Now()), Fire(eventId, cond))
    {
      hide Queued, Woken, Asleep, MakeReady, Matches, Elements;
      ghost var tasks0, waiting0, ready0, done := tasks, waitingQueue, readyQueue, 0;
      ghost var woken, asleep: seq<nat> := [], [];
      FiredNone(tasks0, eventId, cond);
      assert waitingQueue == asleep + waiting0[done..];
      var task := 0;
      while task < |waitingQueue|
        invariant done <= |waiting0| && waitingQueue == asleep + waiting0[done..] && task == |asleep|
        invariant readyQueue == ready0 + woken && tasks == MakeReady(tasks0, Elements(woken))
        invariant woken == Woken(tasks0, waiting0[..done], eventId, cond)
        invariant asleep == Asleep(tasks0, waiting0[..done], eventId, cond)
        decreases |waitingQueue| - task
      {
        var p := waitingQueue[task];
        HeadOfRest(asleep, waiting0, done);
        WaiterKnown(tasks0, waiting0, woken, done, eventId, cond);
        FiredNext(tasks0, waiting0, eventId, cond, done);
        if Matches(tasks, p, eventId, cond) {
          OneMoreReady(tasks0, woken, p);
          tasks := SetState(tasks, p, Ready);
          waitingQueue := waitingQueue[..task] + waitingQueue[task + 1..];
          readyQueue := readyQueue + [p];
          woken := woken + [p];
        } else {
          asleep := asleep + [p];
          task := task + 1;
        }
        done := done + 1;
      }
      assert waiting0[..done] == waiting0;
    }

    /** `cpu_scheduler_next` */
    method Next()
      requires InvBut(Now())
      modifies this
      ensures Now() == Do(old(Now()), Step.Next)
    {
      hide InvBut, Remove;
      if isHandlingInterrupt {
        needRescheduleCpu := true;
        return;
      }
      if readyQueue == [] {
        return;
      }
      var prev, next := currentTask, readyQueue[0];
      HeadKnown(Now());
      if prev in tasks && tasks[prev].state == Running {
        tasks := SetState(tasks, prev, Ready);
        readyQueue := readyQueue + [prev];
      }
      tasks := SetState(tasks, next, Running);
      readyQueue := Remove(readyQueue, next);
      currentTask := next;
    }

    /** The part of `cpu_scheduler_kill_by_pid` that changes the queues. */
    method MoveToKilled(pid: nat)
      requires CanBeKilled(Now(), pid)
      modifies this`tasks, this`readyQueue, this`waitingQueue, this`killedQueue
      ensures Now() == MarkedKilled(old(Now()), pid)
    {
      hide Remove, SetState;
      if tasks[pid].state == Ready {
        readyQueue := Remove(readyQueue, pid);
      } else if tasks[pid].state == Waiting {
        waitingQueue := Remove(waitingQueue, pid);
      }
      tasks := SetState(tasks, pid, Killed);
      killedQueue := killedQueue + [pid];
    }

    /** `cpu_scheduler_kill_by_pid`: false, for the result 1, when there is no such task or it is already killed. */
    method KillByPid(pid: nat) returns (done: bool)
      requires Inv(Now()) && pid != idleTask
      modifies this
      ensures Now() == Do(old(Now()), Kill(pid)) && done == CanBeKilled(old(Now()), pid)
    {
      hide Inv, InvBut, Fired, Queued, MarkedKilled, NextDone;
      TableKnows(Now(), pid);
      var found := GetTask(pid);
      if !found || tasks[pid].state == Killed {
        return false;
      }
      MarkKeeps(Now(), pid);
      FireKeeps(MarkedKilled(Now(), pid), TASK_WAIT_PROCESS_KILL, ArgIs(pid));
      MoveToKilled(pid);
      WaitersKnown(Now());
      FireCond(TASK_WAIT_PROCESS_KILL, ArgIs(pid));
      if pid == currentTask {
        Next();
      }
      return true;
    }

    /** `cpu_scheduler_wait_arg` */
    method WaitArg(eventId: nat, arg: nat)
      requires Inv(Now()) && Enabled(Now(), Wait(eventId, arg))
      modifies this
      ensures Now() == Do(old(Now()), Wait(eventId, arg))
    {
      hide Inv, InvBut, NextDone, Remove;
      WaitingKeeps(Now(), eventId, arg);
      tasks := tasks[currentTask := TaskInfo(Waiting, eventId, arg)];
      waitingQueue := waitingQueue + [currentTask];
      Next();
    }

    /** The part of `interrupt_handler` before the loop over its tasks; false when an interrupt is already being
        handled. */
    method EnterInterrupt() returns (entered: bool)
      modifies this
      ensures entered == !old(isHandlingInterrupt)
      ensures Now() == if entered then Do(old(Now()), Enter) else old(Now())
    {
      if isHandlingInterrupt {
        return false;
      }
      isHandlingInterrupt := true;
      return true;
    }

    /** The part of `interrupt_handler` after that loop. */
    method LeaveInterrupt()
      requires Inv(Now()) && isHandlingInterrupt
      modifies this
      ensures Now() == Do(old(Now()), Exit)
    {
      isHandlingInterrupt := false;
      if needRescheduleCpu {
        needRescheduleCpu := false;
        Next();
      }
    }

    /** One turn of the inner loop of `cpu_scheduler_idle`, up to the call of `task_free`. */
    method Reap() returns (found: bool, task: nat)
      requires Inv(Now()) && Enabled(Now(), Step.Reap)
      modifies this
      ensures found == (old(killedQueue) != []) && Now() == Do(old(Now()), Step.Reap)
      ensures found ==> task == old(killedQueue)[0] && task != currentTask && task !in tasks
    {
      hide Distinct, Remove, OneRuns, IdleReady, ReapedOnce, SwitchPending;
      if killedQueue == [] {
        return false, 0;
      }
      ReapKeeps(Now());
      task := killedQueue[0];
      killedQueue := killedQueue[1..];
      entries := Remove(entries, task);
      tasks := tasks - {task};
      reaped := reaped + [task];
      return true, task;
    }
  }

  lemma TableKnows(s: State, p: nat)
    requires Inv(s)
    ensures p in s.table <==> p in s.tasks
  {
    hide Distinct, Queued;
  }

  lemma HeadKnown(s: State)
    requires InvBut(s) && s.ready != []
    ensures s.ready[0] in s.tasks
  {
    hide Distinct;
    assert s.ready[0] in s.ready;
  }

  lemma WaitersKnown(s: State)
    requires InvBut(s)
    ensures Queued(s.tasks, s.waiting, Waiting)
  {
    hide Distinct, Queued;
  }

  lemma FiredNone(tasks: map<nat, TaskInfo>, eventId: nat, cond: Condition)
    ensures MakeReady(tasks, Elements([])) == tasks
    ensures Woken(tasks, [], eventId, cond) == [] == Asleep(tasks, [], eventId, cond)
  {
  }

  /** What tells whether a waiter is woken does not change while others are woken. */
  lemma WaiterKnown(tasks: map<nat, TaskInfo>, waiting: seq<nat>, woken: seq<nat>, i: nat, eventId: nat,
      cond: Condition)
    requires Queued(tasks, waiting, Waiting) && i < |waiting|
    ensures waiting[i] in tasks && waiting[i] in MakeReady(tasks, Elements(woken))
    ensures Matches(MakeReady(tasks, Elements(woken)), waiting[i], eventId, cond) ==
      Matches(tasks, waiting[i], eventId, cond)
  {
    assert waiting[i] in waiting;
  }

  /** One more waiter is looked at. */
  lemma FiredNext(tasks: map<nat, TaskInfo>, xs: seq<nat>, eventId: nat, cond: Condition, done: nat)
    requires done < |xs|
    ensures var m := Matches(tasks, xs[done], eventId, cond);
      && Woken(tasks, xs[..done + 1], eventId, cond) ==
        Woken(tasks, xs[..done], eventId, cond) + (if m then [xs[done]] else [])
      && Asleep(tasks, xs[..done + 1], eventId, cond) ==
        Asleep(tasks, xs[..done], eventId, cond) + (if m then [] else [xs[done]])
  {
    assert xs[..done + 1] == xs[..done] + [xs[done]];
    SiftLast(tasks, xs[..done], eventId, cond, true, xs[done]);
    SiftLast(tasks, xs[..done], eventId, cond, false, xs[done]);
  }

  lemma {:induction false} SiftLast(tasks: map<nat, TaskInfo>, xs: seq<nat>, eventId: nat, cond: Condition, woken: bool,
      x: nat)
    ensures Sift(tasks, xs + [x], eventId, cond, woken) ==
      Sift(tasks, xs, eventId, cond, woken) + (if Matches(tasks, x, eventId, cond) == woken then [x] else [])
  {
    hide Matches;
    var last := if Matches(tasks, x, eventId, cond) == woken then [x] else [];
    if xs == [] {
      assert xs + [x] == [x] && [x][1..] == [];
      assert last + [] == last;
    } else {
      SiftLast(tasks, xs[1..], eventId, cond, woken, x);
      assert (xs + [x])[1..] == xs[1..] + [x] && (xs + [x])[0] == xs[0];
      assert [xs[0]] + (Sift(tasks, xs[1..], eventId, cond, woken) + last) ==
        [xs[0]] + Sift(tasks, xs[1..], eventId, cond, woken) + last;
    }
  }

  lemma HeadOfRest(asleep: seq<nat>, waiting: seq<nat>, done: nat)
    requires done < |waiting|
    ensures var queue := asleep + waiting[done..];
            && queue[|asleep|] == waiting[done]
            && queue[..|asleep|] + queue[|asleep| + 1..] == asleep + waiting[done + 1..]
            && queue == asleep + [waiting[done]] + waiting[done + 1..]
  {
  }

  lemma OneMoreReady(tasks: map<nat, TaskInfo>, woken: seq<nat>, p: nat)
    requires p in tasks
    ensures MakeReady(tasks, Elements(woken + [p])) == SetState(MakeReady(tasks, Elements(woken)), p, Ready)
  {
    assert Elements(woken + [p]) == Elements(woken) + {p};
  }
}

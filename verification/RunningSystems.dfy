/**
 The scheduler and the memory of its tasks together. A task touches memory while it runs, or that of a task which is not
 scheduled yet; the idle task frees what was killed.
 */
module RunningSystems {
  import opened Lists
  import opened AddressSpaces
  import opened Ownership
  import opened TaskCopies
  import opened TaskLife
  import opened TaskFork
  import opened TaskExec
  import opened TaskRuns
  import Sched = Scheduler
  import opened Systems

  /** The tasks have the same identifiers in the scheduler and in the memory. */
  datatype Kernel = Kernel(s: Sched.State, k: Snapshot, ts: map<nat, TaskView>)

  /** What is scheduled has memory of its own, and what was reaped has none. */
  ghost predicate Joined(x: Kernel, kernel: set<Item>) {
    && Sched.Inv(x.s) && System(x.k, x.ts, kernel)
    && x.s.tasks.Keys <= x.ts.Keys && forall p :: p in x.s.reaped ==> p !in x.ts
  }

  /** A change of the tasks' memory, a step of the scheduler, or a turn of the loop of the idle task. */
  datatype Move = Change(step: Step) | Schedule(call: Sched.Step) | Reaping

  /** Only the running task forks and faults, and only a task that is not scheduled can be started or freed by another;
      identifiers are not used again. */
  predicate MayStep(s: Sched.State, step: Step) {
    match step
    case Create(c) => c !in s.reaped
    case Exec(p) => Sched.Runs(s, p) || p !in s.tasks
    case Fork(p, c) => Sched.Runs(s, p) && c !in s.reaped
    case Do(p, _) => Sched.Runs(s, p)
    case End(p) => p !in s.tasks
  }

  ghost predicate Moved(move: Move, x: Kernel, y: Kernel, ramdisk: nat -> nat) {
    match move
    case Change(step) => MayStep(x.s, step) && y.s == x.s && Stepped(step, x.k, x.ts, y.k, y.ts, ramdisk)
    case Schedule(call) =>
      && call != Sched.Reap && Sched.Enabled(x.s, call) && (call.Add? ==> call.p in x.ts)
      && y.s == Sched.Do(x.s, call) && y.k == x.k && y.ts == x.ts
    case Reaping =>
      && Sched.Enabled(x.s, Sched.Reap) && y.s == Sched.Do(x.s, Sched.Reap)
      && if x.s.killed == [] then y.k == x.k && y.ts == x.ts
         else Stepped(End(x.s.killed[0]), x.k, x.ts, y.k, y.ts, ramdisk)
  }

  /** A step of the scheduler adds at most the task that is to be added. */
  lemma TasksKept(s: Sched.State, step: Sched.Step)
    requires Sched.Inv(s) && Sched.Enabled(s, step) && step != Sched.Reap
    ensures Sched.Do(s, step).tasks.Keys == s.tasks.Keys + if step.Add? then {step.p} else {}
    ensures Sched.Do(s, step).reaped == s.reaped
  {
    hide Sched.Queues, Sched.OneRuns, Sched.IdleReady, Sched.ReapedOnce, Sched.Sift;
  }

  /** What the tasks of a memory step become. */
  lemma KeysAfter(step: Step, k: Snapshot, ts: map<nat, TaskView>, k': Snapshot, ts': map<nat, TaskView>,
      ramdisk: nat -> nat)
    requires Stepped(step, k, ts, k', ts', ramdisk)
    ensures match step
      case Create(c) => c !in ts && ts'.Keys == ts.Keys + {c}
      case Fork(_, c) => c !in ts && ts'.Keys == ts.Keys + {c}
      case End(p) => p in ts && ts'.Keys == ts.Keys - {p}
      case _ => ts'.Keys == ts.Keys
  {
    hide Consistent, Created, ForkedTask, Forked, Ended, Handled, Renewed;
  }

  lemma MoveKeeps(move: Move, x: Kernel, y: Kernel, kernel: set<Item>, ramdisk: nat -> nat)
    requires Joined(x, kernel) && Moved(move, x, y, ramdisk)
    ensures Joined(y, kernel)
  {
    hide System, Stepped, Sched.Inv, Sched.Enabled;
    match move
    case Change(step) =>
      StepKeeps(step, x.k, x.ts, kernel, y.k, y.ts, ramdisk);
      KeysAfter(step, x.k, x.ts, y.k, y.ts, ramdisk);
    case Schedule(call) =>
      Sched.StepKeeps(x.s, call);
      TasksKept(x.s, call);
      hide Sched.Do;
    case Reaping =>
      Sched.ReapKeeps(x.s);
      if x.s.killed != [] {
        StepKeeps(End(x.s.killed[0]), x.k, x.ts, kernel, y.k, y.ts, ramdisk);
        KeysAfter(End(x.s.killed[0]), x.k, x.ts, y.k, y.ts, ramdisk);
      }
  }

  /** After `cpu_scheduler_init` the idle task is scheduled, and everything but its memory is the kernel's. */
  lemma FirstTask(k0: Snapshot, k: Snapshot, t: TaskView, idle: nat)
    requires Consistent(k0) && Consistent(k) && Created(k0, k, t) && idle != Sched.BOOTSTRAP
    ensures Joined(Kernel(Sched.Initial(idle), k, map[idle := t]), All(k0))
  {
    hide System, Consistent, Created, All, Sched.Inv;
    NoTasks(k0);
    CreateKeeps(k0, map[], All(k0), idle, k, t);
    Sched.InitialInv(idle);
    var none: map<nat, TaskView> := map[];
    assert none[idle := t] == map[idle := t];
  }

  ghost predicate JointRun(xs: seq<Kernel>, moves: seq<Move>, kernel: set<Item>, ramdisk: nat -> nat) {
    && |xs| == |moves| + 1 && Joined(xs[0], kernel)
    && forall i :: 0 <= i < |moves| ==> Moved(moves[i], xs[i], xs[i + 1], ramdisk)
  }

  /** In every state of every run, the scheduler and the memory are in order, and agree about the tasks. */
  lemma {:induction false} RunJoined(xs: seq<Kernel>, moves: seq<Move>, kernel: set<Item>, ramdisk: nat -> nat, i: nat)
    requires JointRun(xs, moves, kernel, ramdisk) && i < |xs|
    ensures Joined(xs[i], kernel)
  {
    hide Joined, Moved;
    if i > 0 {
      RunJoined(xs, moves, kernel, ramdisk, i - 1);
      assert Moved(moves[i - 1], xs[i - 1], xs[i - 1 + 1], ramdisk);
      MoveKeeps(moves[i - 1], xs[i - 1], xs[i], kernel, ramdisk);
    }
  }

  /** The current task's memory is live, whatever happens, and so is that of every task in a queue: it is given back
      only by the idle task. */
  lemma ScheduledLive(x: Kernel, kernel: set<Item>)
    requires Joined(x, kernel)
    ensures x.s.current in x.s.tasks || x.s.current == Sched.BOOTSTRAP
    ensures forall p :: p in x.s.ready + x.s.waiting + x.s.killed ==> p in x.s.tasks
    ensures forall p :: p in x.s.tasks ==> p in x.ts && Owned(x.k, x.ts[p]) && PartOf(x.k, x.ts[p]) <= All(x.k)
  {
    hide Owned, PartOf, All, Consistent, Split, Distinct;
    forall p | p in x.ts ensures PartOf(x.k, x.ts[p]) <= All(x.k) {
      PartIsOwned(x.k, x.ts[p]);
    }
  }

  /** So is the kernel, for every task that has an address space: throughout a run of both each page above the lower
      half translates as the kernel's own did at the start. */
  lemma KernelInEveryTask(xs: seq<Kernel>, moves: seq<Move>, kernel: set<Item>, ramdisk: nat -> nat, i: nat, p: nat,
      n: nat)
    requires JointRun(xs, moves, kernel, ramdisk) && i < |xs|
    requires p in xs[i].ts && xs[i].ts[p].pgd != 0 && USER_PAGES <= n < KERNEL_PAGES
    ensures LeafOf(xs[i].k, xs[i].ts[p].pgd, n) == LeafOf(xs[0].k, xs[0].k.kernelPgd, n)
  {
    hide JointRun, Consistent, Owned, LeafOf, Split, Sched.Inv;
    RunJoined(xs, moves, kernel, ramdisk, i);
    JointKernel(xs, moves, kernel, ramdisk, i);
    KernelInTask(xs[i].k, xs[i].ts[p]);
  }

  lemma {:induction false} JointKernel(xs: seq<Kernel>, moves: seq<Move>, kernel: set<Item>, ramdisk: nat -> nat,
      i: nat)
    requires JointRun(xs, moves, kernel, ramdisk) && i < |xs|
    ensures KernelKept(xs[0].k, xs[i].k)
  {
    hide Joined, Moved, LeafOf;
    if i > 0 {
      JointKernel(xs, moves, kernel, ramdisk, i - 1);
      assert Moved(moves[i - 1], xs[i - 1], xs[i - 1 + 1], ramdisk);
      MoveKernel(moves[i - 1], xs[i - 1], xs[i], ramdisk);
    }
  }

  lemma MoveKernel(move: Move, x: Kernel, y: Kernel, ramdisk: nat -> nat)
    requires Moved(move, x, y, ramdisk)
    ensures KernelKept(x.k, y.k)
  {
    hide Stepped, LeafOf, Sched.Enabled, Sched.Do;
    match move
    case Change(step) => StepKernel(step, x.k, x.ts, y.k, y.ts, ramdisk);
    case Schedule(_) =>
    case Reaping =>
      if x.s.killed != [] { StepKernel(End(x.s.killed[0]), x.k, x.ts, y.k, y.ts, ramdisk); }
  }

  // From the killing of a task to the return of its memory.

  /** The move takes task `p` out of the killed queue. */
  predicate Reaps(x: Kernel, move: Move, p: nat) {
    move == Reaping && x.s.killed != [] && x.s.killed[0] == p
  }

  /** Task `p` is as it was in `x0`, with the same part of the memory. */
  ghost predicate SamePart(x0: Kernel, x: Kernel, p: nat) {
    && p in x0.ts && p in x.ts && x.ts[p] == x0.ts[p] && PartOf(x.k, x.ts[p]) == PartOf(x0.k, x0.ts[p])
  }

  /** A task in the killed queue does not run, so nothing happens to its memory until it is reaped. */
  lemma KilledUntouched(move: Move, x: Kernel, y: Kernel, kernel: set<Item>, ramdisk: nat -> nat, p: nat)
    requires Joined(x, kernel) && Moved(move, x, y, ramdisk) && p in x.s.killed && !Reaps(x, move, p)
    ensures SamePart(x, y, p)
  {
    hide System, Stepped, PartOf, Sched.Enabled, Sched.Do;
    KilledState(x, kernel, p);
    match move
    case Change(step) =>
      StepKeeps(step, x.k, x.ts, kernel, y.k, y.ts, ramdisk);
      NewTask(step, x, y, ramdisk, p);
    case Schedule(call) =>
    case Reaping =>
      if x.s.killed != [] {
        StepKeeps(End(x.s.killed[0]), x.k, x.ts, kernel, y.k, y.ts, ramdisk);
      }
  }

  lemma KilledState(x: Kernel, kernel: set<Item>, p: nat)
    requires Joined(x, kernel) && p in x.s.killed
    ensures p in x.ts && p in x.s.tasks && !Sched.Runs(x.s, p)
  {
    hide System, Distinct;
  }

  lemma NewTask(step: Step, x: Kernel, y: Kernel, ramdisk: nat -> nat, p: nat)
    requires MayStep(x.s, step) && Stepped(step, x.k, x.ts, y.k, y.ts, ramdisk)
    requires p in x.ts && p in x.s.tasks && !Sched.Runs(x.s, p)
    ensures !Concerns(step, p)
  {
    KeysAfter(step, x.k, x.ts, y.k, y.ts, ramdisk);
    hide Stepped;
  }

  /** The reaping of a task returns exactly its part. */
  lemma ReapingReturns(x: Kernel, y: Kernel, kernel: set<Item>, ramdisk: nat -> nat, p: nat)
    requires Joined(x, kernel) && Moved(Reaping, x, y, ramdisk) && Reaps(x, Reaping, p)
    ensures p in x.ts && All(y.k) == All(x.k) - PartOf(x.k, x.ts[p]) && PartOf(x.k, x.ts[p]) <= All(x.k)
    ensures p !in y.ts && p in y.s.reaped
  {
    hide Consistent, Owned, RestOf, Everything, Items, Split, PartOf, Sched.Inv, Sched.Enabled, OthersSurvive;
    hide BlocksStay;
    assert Ended(x.k, y.k, x.ts[p]);
    PartIsOwned(x.k, x.ts[p]);
  }

  /** Move `i` of the run reaps task `p`, which has the part that it had at the start, and returns exactly that. */
  ghost predicate ReturnedAt(xs: seq<Kernel>, moves: seq<Move>, p: nat, i: nat)
    requires |xs| == |moves| + 1 && i < |moves|
  {
    && Reaps(xs[i], moves[i], p) && SamePart(xs[0], xs[i], p)
    && PartOf(xs[0].k, xs[0].ts[p]) <= All(xs[i].k)
    && All(xs[i + 1].k) == All(xs[i].k) - PartOf(xs[0].k, xs[0].ts[p])
  }

  /** Before move `n`, the task was returned once. */
  ghost predicate ReturnedOnce(xs: seq<Kernel>, moves: seq<Move>, p: nat, n: nat)
    requires |xs| == |moves| + 1 && n <= |moves|
  {
    exists i: nat :: i < n && ReturnedAt(xs, moves, p, i) && forall j :: 0 <= j < n && j != i ==>
      !Reaps(xs[j], moves[j], p)
  }

  function ReapingCount(moves: seq<Move>, n: nat): nat
    requires n <= |moves|
  {
    if n == 0 then 0 else ReapingCount(moves, n - 1) + (if moves[n - 1] == Reaping then 1 else 0)
  }

  /** What becomes of the killed queue and the reaped tasks in one move. */
  lemma QueueAfter(move: Move, x: Kernel, y: Kernel, ramdisk: nat -> nat)
    requires Moved(move, x, y, ramdisk)
    ensures if move == Reaping && x.s.killed != [] then y.s.killed == x.s.killed[1..] &&
      y.s.reaped == x.s.reaped + [x.s.killed[0]]
      else x.s.killed <= y.s.killed && y.s.reaped == x.s.reaped
  {
    hide Stepped, Sched.Enabled;
    match move
    case Change(_) =>
    case Schedule(call) => Sched.StepKeepsKilled(x.s, call);
    case Reaping => Sched.StepKeepsKilled(x.s, Sched.Reap);
  }

  /** The task is still killed, untouched and nearer to the head of the queue, or it was returned once. */
  ghost predicate Fate(xs: seq<Kernel>, moves: seq<Move>, p: nat, k: int, n: nat)
    requires |xs| == |moves| + 1 && n <= |moves|
  {
    || (Sched.KilledBy(xs[n].s, p, k - ReapingCount(moves, n)) && SamePart(xs[0], xs[n], p) &&
        forall j :: 0 <= j < n ==> !Reaps(xs[j], moves[j], p))
    || (p in xs[n].s.reaped && ReturnedOnce(xs, moves, p, n))
  }

  lemma {:induction false} KilledFate(xs: seq<Kernel>, moves: seq<Move>, kernel: set<Item>, ramdisk: nat -> nat, p: nat,
      k: nat, n: nat)
    requires JointRun(xs, moves, kernel, ramdisk) && n <= |moves| && Sched.KilledBy(xs[0].s, p, k)
    ensures Fate(xs, moves, p, k, n)
  {
    hide Joined, Moved, Fate, SamePart, Sched.KilledBy;
    if n == 0 {
      FateAtStart(xs, moves, kernel, p, k);
    } else {
      KilledFate(xs, moves, kernel, ramdisk, p, k, n - 1);
      RunJoined(xs, moves, kernel, ramdisk, n - 1);
      assert Moved(moves[n - 1], xs[n - 1], xs[n - 1 + 1], ramdisk);
      FateStep(xs, moves, kernel, ramdisk, p, k, n - 1);
    }
  }

  lemma FateAtStart(xs: seq<Kernel>, moves: seq<Move>, kernel: set<Item>, p: nat, k: nat)
    requires |xs| == |moves| + 1 && Joined(xs[0], kernel) && Sched.KilledBy(xs[0].s, p, k)
    ensures Fate(xs, moves, p, k, 0)
  {
    hide Joined, PartOf;
    assert p in xs[0].s.killed;
    KilledState(xs[0], kernel, p);
  }

  lemma FateStep(xs: seq<Kernel>, moves: seq<Move>, kernel: set<Item>, ramdisk: nat -> nat, p: nat, k: int, n: nat)
    requires |xs| == |moves| + 1 && n < |moves| && Joined(xs[n], kernel) && Moved(moves[n], xs[n], xs[n + 1], ramdisk)
    requires Fate(xs, moves, p, k, n)
    ensures Fate(xs, moves, p, k, n + 1)
  {
    hide Joined, Moved, PartOf, All;
    var x, y := xs[n], xs[n + 1];
    QueueAfter(moves[n], x, y, ramdisk);
    if p in x.s.reaped && ReturnedOnce(xs, moves, p, n) {
      ReapedNotKilled(x, kernel, p);
      OnceStill(xs, moves, p, n);
    } else {
      assert p in x.s.killed;
      Sched.KilledStep(x.s, y.s, p, k - ReapingCount(moves, n), moves[n] == Reaping);
      if Reaps(x, moves[n], p) {
        ReapingReturns(x, y, kernel, ramdisk, p);
        assert ReturnedAt(xs, moves, p, n);
        assert ReturnedOnce(xs, moves, p, n + 1);
      } else {
        KilledUntouched(moves[n], x, y, kernel, ramdisk, p);
        StillQueued(x, y, kernel, p, k - ReapingCount(moves, n), moves[n] == Reaping);
      }
    }
  }

  lemma ReapedNotKilled(x: Kernel, kernel: set<Item>, p: nat)
    requires Joined(x, kernel) && p in x.s.reaped
    ensures p !in x.s.killed
  {
    hide System, Distinct;
  }

  lemma OnceStill(xs: seq<Kernel>, moves: seq<Move>, p: nat, n: nat)
    requires |xs| == |moves| + 1 && n < |moves| && ReturnedOnce(xs, moves, p, n) && !Reaps(xs[n], moves[n], p)
    ensures ReturnedOnce(xs, moves, p, n + 1)
  {
    hide ReturnedAt, Reaps;
    var i: nat :| i < n && ReturnedAt(xs, moves, p, i) && forall j :: 0 <= j < n && j != i ==>
      !Reaps(xs[j], moves[j], p);
  }

  /** A task that is not the one reaped stays in the queue. */
  lemma StillQueued(x: Kernel, y: Kernel, kernel: set<Item>, p: nat, k: int, reap: bool)
    requires Joined(x, kernel) && Sched.KilledBy(x.s, p, k) && !(reap && x.s.killed != [] && x.s.killed[0] == p)
    requires if reap && x.s.killed != [] then y.s.killed == x.s.killed[1..] else x.s.killed <= y.s.killed
    ensures Sched.KilledBy(y.s, p, if reap then k - 1 else k)
  {
    hide Joined;
    var i :| 0 <= i < |x.s.killed| && i <= k && x.s.killed[i] == p;
    if reap {
      assert y.s.killed[i - 1] == p;
    } else {
      assert y.s.killed[i] == p;
    }
  }

  /**
   A killed task at position `k` of its queue has its memory returned by the idle task within `k + 1` turns of its loop:
   exactly once, and exactly the memory that it had when it was killed.
   */
  lemma KilledReturned(xs: seq<Kernel>, moves: seq<Move>, kernel: set<Item>, ramdisk: nat -> nat, p: nat, k: nat,
      n: nat)
    requires JointRun(xs, moves, kernel, ramdisk) && n <= |moves| && Sched.KilledBy(xs[0].s, p, k)
    requires ReapingCount(moves, n) > k
    ensures ReturnedOnce(xs, moves, p, |moves|) && ReturnedOnce(xs, moves, p, n)
  {
    hide JointRun, ReturnedOnce;
    assert |xs| == |moves| + 1 by { RunLength(xs, moves, kernel, ramdisk); }
    KilledFate(xs, moves, kernel, ramdisk, p, k, n);
    MoreReapings(moves, n, |moves|);
    KilledFate(xs, moves, kernel, ramdisk, p, k, |moves|);
  }

  lemma RunLength(xs: seq<Kernel>, moves: seq<Move>, kernel: set<Item>, ramdisk: nat -> nat)
    requires JointRun(xs, moves, kernel, ramdisk)
    ensures |xs| == |moves| + 1
  {
    hide Joined, Moved;
  }

  lemma {:induction false} MoreReapings(moves: seq<Move>, m: nat, n: nat)
    requires m <= n <= |moves|
    ensures ReapingCount(moves, m) <= ReapingCount(moves, n)
    decreases n - m
  {
    if m < n { MoreReapings(moves, m, n - 1); }
  }
}

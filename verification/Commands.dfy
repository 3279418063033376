/** The functions that use the scheduler and the memory of tasks together: each is a run of both. */
module Commands {
  import opened Lists
  import opened Sv39
  import opened PageTree
  import opened Roots
  import opened TaskMappings
  import opened AddressSpaces
  import opened Ownership
  import opened KernelMemory
  import opened TaskCopies
  import opened TaskLife
  import opened TaskFork
  import opened TaskCreation
  import opened TaskExec
  import Sched = Scheduler
  import opened Systems
  import opened RunningSystems

  /** `cpu_scheduler_init`: the idle task is created and scheduled. */
  method SchedulerInit(kernel: KernelMemory, pid: nat)
    returns (cpu: Sched.CpuScheduler, task: Task, ghost others: set<Item>)
    requires kernel.Valid() && Plenty(kernel.vm.pages.free, 1) && pid != Sched.BOOTSTRAP
    modifies kernel.heap, kernel.vm.pages`free, kernel.vm.pages`live, kernel.vm.pages.frameArray,
        kernel.vm.pages.ordersLists, kernel.heap.pools
    ensures fresh(cpu) && cpu.Now() == Sched.Initial(pid) && fresh(task) && task.pid == pid && kernel.Valid()
    ensures others == All(old(kernel.Now())) && Joined(Kernel(cpu.Now(), kernel.Now(), map[pid := View(task)]), others)
  {
    hide kernel.Valid, Plenty, Consistent, Joined, Created, All, RestOf, Everything, OthersKept, BlocksStay, Owned;
    ghost var k0 := kernel.Now();
    kernel.ValidConsistent();
    others := All(k0);
    task := CreateTask(kernel, pid);
    cpu := new Sched.CpuScheduler(pid);
    kernel.ValidConsistent();
    CreatedBy(k0, kernel.Now(), View(task));
    FirstTask(k0, kernel.Now(), View(task), pid);
  }

  lemma CreatedBy(k: Snapshot, k': Snapshot, t: TaskView)
    requires Owned(k', t) && t.pgd == 0 && RestOf(k', t) == Everything(k) && OthersKept(k, k', 0)
    requires BlocksStay(k, k', 0)
    ensures Created(k, k', t)
  {
    hide Owned, RestOf, Everything, OthersKept, BlocksStay;
  }

  /** A run from one state to another. */
  ghost predicate Leads(x: Kernel, moves: seq<Move>, y: Kernel, kernel: set<Item>, ramdisk: nat -> nat) {
    exists xs :: JointRun(xs, moves, kernel, ramdisk) && xs[0] == x && xs[|moves|] == y
  }

  lemma NoMove(x: Kernel, kernel: set<Item>, ramdisk: nat -> nat)
    requires Joined(x, kernel)
    ensures Leads(x, [], x, kernel, ramdisk)
  {
    hide Joined, Moved;
    assert JointRun([x], [], kernel, ramdisk);
  }

  lemma OneMove(x: Kernel, moves: seq<Move>, y: Kernel, move: Move, z: Kernel, kernel: set<Item>, ramdisk: nat -> nat)
    requires Leads(x, moves, y, kernel, ramdisk) && Moved(move, y, z, ramdisk)
    ensures Leads(x, moves + [move], z, kernel, ramdisk) && Joined(z, kernel)
  {
    hide Joined, Moved;
    var xs :| JointRun(xs, moves, kernel, ramdisk) && xs[0] == x && xs[|moves|] == y;
    var zs, more := xs + [z], moves + [move];
    forall i | 0 <= i < |more| ensures Moved(more[i], zs[i], zs[i + 1], ramdisk) {
      if i < |moves| { assert Moved(moves[i], xs[i], xs[i + 1], ramdisk); }
    }
    assert JointRun(zs, more, kernel, ramdisk);
    RunJoined(zs, more, kernel, ramdisk, |more|);
  }

  /** A task in the killed queue owns its memory. */
  lemma KilledOwns(x: Kernel, kernel: set<Item>)
    requires Joined(x, kernel) && x.s.killed != []
    ensures x.s.killed[0] in x.ts && Owned(x.k, x.ts[x.s.killed[0]]) && Consistent(x.k)
  {
    hide Owned, Split, Consistent, Distinct;
    assert x.s.killed[0] in x.s.killed;
    KilledState(x, kernel, x.s.killed[0]);
  }

  lemma InOrder(x: Kernel, kernel: set<Item>)
    requires Joined(x, kernel)
    ensures Sched.Inv(x.s)
  {
    hide System, Sched.Inv;
  }

  /** `tasks` are the structures of the tasks. */
  ghost predicate Structures(tasks: map<nat, Task>, ts: map<nat, TaskView>)
    reads tasks.Values
  {
    forall p :: p in ts ==> p in tasks && View(tasks[p]) == ts[p]
  }

  lemma ReapingMoves(x: Kernel, k: Snapshot, ts: map<nat, TaskView>, ramdisk: nat -> nat)
    requires Sched.Enabled(x.s, Sched.Reap)
    requires if x.s.killed == [] then k == x.k && ts == x.ts
      else
        var p := x.s.killed[0]; p in x.ts && ts == x.ts - {p} && Consistent(k) && Ended(x.k, k, x.ts[p])
    ensures Moved(Reaping, x, Kernel(Sched.Do(x.s, Sched.Reap), k, ts), ramdisk)
  {
    hide Sched.Enabled, Sched.Do, Consistent, Ended;
  }

  /** One turn of the loop of `cpu_scheduler_idle`: what is reaped is freed. */
  method IdleTurn(cpu: Sched.CpuScheduler, kernel: KernelMemory, tasks: map<nat, Task>, ghost ts: map<nat, TaskView>,
      ghost others: set<Item>)
    returns (found: bool, ghost ts': map<nat, TaskView>)
    requires kernel.Valid() && Joined(Kernel(cpu.Now(), kernel.Now(), ts), others)
    requires Sched.Enabled(cpu.Now(), Sched.Reap)
    requires Structures(tasks, ts)
    modifies cpu, kernel.vm`tables, kernel.vm`tree, kernel.heap`large, kernel.heap`chunks, kernel.heap.pools,
        kernel.vm.pages`free, kernel.vm.pages`live, kernel.vm.pages`pending, kernel.vm.pages.frameArray,
        kernel.vm.pages.ordersLists
    ensures kernel.Valid() && found == (old(cpu.killedQueue) != [])
    ensures ts' == if found then ts - {old(cpu.killedQueue)[0]} else ts
    ensures Moved(Reaping, Kernel(old(cpu.Now()), old(kernel.Now()), ts), Kernel(cpu.Now(), kernel.Now(), ts'),
        kernel.ramdisk)
  {
    hide kernel.Valid, System, Sched.Inv, Consistent, Sched.Enabled, Owned, Sched.Do, RestOf, Everything, OthersSurvive;
    hide BlocksStay, Moved, Joined, Sched.ReapDone;
    ghost var x := Kernel(cpu.Now(), kernel.Now(), ts);
    InOrder(x, others);
    if x.s.killed != [] { KilledOwns(x, others); }
    var p;
    found, p := cpu.Reap();
    ts' := if found then ts - {p} else ts;
    if found {
      FreeTask(kernel, tasks[p]);
      kernel.ValidConsistent();
    }
    ReapingMoves(x, kernel.Now(), ts', kernel.ramdisk);
  }

  /** `_syscall_fork`: the running task is copied, and the copy is scheduled. */
  method SyscallFork(cpu: Sched.CpuScheduler, kernel: KernelMemory, source: Task, pid: nat,
      ghost ts: map<nat, TaskView>, ghost others: set<Item>)
    returns (child: Task, ghost ts': map<nat, TaskView>)
    requires kernel.Valid() && Joined(Kernel(cpu.Now(), kernel.Now(), ts), others)
    requires Sched.Runs(cpu.Now(), cpu.currentTask) && ts[cpu.currentTask] == View(source) && source.pgd != 0
    requires pid !in ts && pid !in cpu.reaped && pid != Sched.BOOTSTRAP && EnoughFor(kernel.Now(), View(source))
    modifies cpu, kernel`contents, kernel.vm`tables, kernel.vm`tree, kernel.heap, kernel.vm.pages`free,
        kernel.vm.pages`live, kernel.vm.pages.frameArray, kernel.vm.pages.ordersLists, kernel.heap.pools
    ensures kernel.Valid() && fresh(child) && child.pid == pid && ts' == ts[pid := View(child)]
    ensures Forked(old(kernel.Now()), kernel.Now(), source.pgd, child.pgd)
    ensures Leads(Kernel(old(cpu.Now()), old(kernel.Now()), ts), [Change(Fork(old(cpu.currentTask), pid)),
        Schedule(Sched.Add(pid))], Kernel(cpu.Now(), kernel.Now(), ts'), others, kernel.ramdisk)
  {
    hide kernel.Valid, System, Sched.Inv, Consistent, Owned, Sched.Do, RestOf, Everything, Forked, SpacesKept;
    hide BlocksStay, EnoughFor, Leads;
    ghost var x, p := Kernel(cpu.Now(), kernel.Now(), ts), cpu.currentTask;
    OwnedIn(x, others, p);
    child := CopyTask(kernel, source, pid);
    kernel.ValidConsistent();
    ts' := ts[pid := View(child)];
    ghost var y := Kernel(cpu.Now(), kernel.Now(), ts');
    assert ForkedTask(x.k, y.k, View(child));
    NoMove(x, others, kernel.ramdisk);
    OneMove(x, [], x, Change(Fork(p, pid)), y, others, kernel.ramdisk);
    cpu.AddTask(pid);
    OneMove(x, [] + [Change(Fork(p, pid))], y, Schedule(Sched.Add(pid)), Kernel(cpu.Now(), kernel.Now(), ts'), others,
        kernel.ramdisk);
    TwoMoves(Change(Fork(p, pid)), Schedule(Sched.Add(pid)));
  }

  lemma TwoMoves(a: Move, b: Move)
    ensures [] + [a] + [b] == [a, b]
  {
  }

  lemma OwnedIn(x: Kernel, kernel: set<Item>, p: nat)
    requires Joined(x, kernel) && p in x.ts
    ensures Owned(x.k, x.ts[p]) && Consistent(x.k)
  {
    hide Owned, Consistent, Split;
  }

  /** What `command_exec` does. */
  function ExecMovesOf(failed: bool, pid: nat): seq<Move> {
    if failed then [Change(Create(pid)), Change(End(pid))]
    else [Change(Create(pid)), Change(Exec(pid)), Schedule(Sched.Add(pid)),
          Schedule(Sched.Wait(Sched.TASK_WAIT_PROCESS_KILL, pid))]
  }

  lemma CreateMoves(x: Kernel, k: Snapshot, pid: nat, t: TaskView, ramdisk: nat -> nat)
    requires pid !in x.ts && pid !in x.s.reaped && Consistent(k) && Created(x.k, k, t)
    ensures Moved(Change(Create(pid)), x, Kernel(x.s, k, x.ts[pid := t]), ramdisk)
  {
    hide Consistent, Created;
  }

  lemma NotScheduled(x: Kernel, kernel: set<Item>, pid: nat)
    requires Joined(x, kernel) && pid !in x.ts
    ensures pid !in x.s.tasks
  {
    hide System, Sched.Inv;
  }

  lemma ExecMoves(x: Kernel, k: Snapshot, pid: nat, t: TaskView, ramdisk: nat -> nat)
    requires pid in x.ts && pid !in x.s.tasks && Consistent(k) && Renewed(x.k, x.ts[pid], k, t)
    ensures Moved(Change(Exec(pid)), x, Kernel(x.s, k, x.ts[pid := t]), ramdisk)
  {
    hide Consistent, Renewed;
  }

  lemma EndMoves(x: Kernel, k: Snapshot, pid: nat, ramdisk: nat -> nat)
    requires pid in x.ts && pid !in x.s.tasks && Consistent(k) && Ended(x.k, k, x.ts[pid])
    ensures Moved(Change(End(pid)), x, Kernel(x.s, k, x.ts - {pid}), ramdisk)
  {
    hide Consistent, Ended;
  }

  lemma AddMoves(x: Kernel, pid: nat, ramdisk: nat -> nat)
    requires pid in x.ts && pid !in x.s.tasks && pid !in x.s.reaped && pid != Sched.BOOTSTRAP
    ensures Moved(Schedule(Sched.Add(pid)), x, Kernel(Sched.Do(x.s, Sched.Add(pid)), x.k, x.ts), ramdisk)
  {
    hide Sched.Do;
  }

  lemma WaitMoves(x: Kernel, pid: nat, ramdisk: nat -> nat)
    requires Sched.Enabled(x.s, Sched.Wait(Sched.TASK_WAIT_PROCESS_KILL, pid))
    ensures var wait := Sched.Wait(Sched.TASK_WAIT_PROCESS_KILL, pid);
      Moved(Schedule(wait), x, Kernel(Sched.Do(x.s, wait), x.k, x.ts), ramdisk)
  {
    hide Sched.Do, Sched.Enabled;
  }

  /** The running task can wait after it has scheduled another. */
  lemma WaitEnabled(s: Sched.State, pid: nat)
    requires Sched.Runs(s, s.current) && s.current != s.idle && pid !in s.tasks
    ensures Sched.Enabled(Sched.Do(s, Sched.Add(pid)), Sched.Wait(Sched.TASK_WAIT_PROCESS_KILL, pid))
  {
  }

  /** The first part of `command_exec`: a new task starts the program, or is freed again without it. */
  method StartProgram(kernel: KernelMemory, pid: nat, file: Option<Program>, leftover: seq<nat>, ghost s: Sched.State,
      ghost ts: map<nat, TaskView>, ghost others: set<Item>)
    returns (failed: bool, task: Task, ghost ts': map<nat, TaskView>)
    requires kernel.Valid() && Joined(Kernel(s, kernel.Now(), ts), others)
    requires pid !in ts && pid !in s.reaped && Plenty(kernel.vm.pages.free, 10)
    requires file.Some? ==> 0 < file.value.size < 0x1_0000_0000
    requires |leftover| == PAGE_TABLE_ENTRIES_NUM && leftover[..USER_ENTRIES] == Zeros(USER_ENTRIES)
    modifies kernel`contents, kernel.vm`tables, kernel.vm`tree, kernel.heap, kernel.heap.pools, kernel.vm.pages`free,
        kernel.vm.pages`live, kernel.vm.pages`pending, kernel.vm.pages.frameArray, kernel.vm.pages.ordersLists
    ensures kernel.Valid() && (failed <==> file == None) && fresh(task) && task.pid == pid
    ensures failed ==> ts' == ts && All(kernel.Now()) == All(old(kernel.Now()))
    ensures !failed ==>
      ts' == ts[pid := View(task)] && task.pgd != 0 && UserMappings(task.mappings, file.value.data, file.value.size)
    ensures Leads(Kernel(s, old(kernel.Now()), ts),
        [Change(Create(pid)), Change(if failed then End(pid) else Exec(pid))],
        Kernel(s, kernel.Now(), ts'), others, kernel.ramdisk)
  {
    hide kernel.Valid, System, Sched.Inv, Consistent, Owned, Sched.Do, RestOf, Everything, OthersKept, OthersSurvive;
    hide BlocksStay, Leads, Moved, Joined, Plenty, Renewed, UserMappings, OnlyTrampoline, View, All, Created, Ended;
    ghost var x := Kernel(s, kernel.Now(), ts);
    PlentyPages(kernel.vm.pages.free, 10);
    PlentyLeft(kernel.vm.pages.free, kernel.vm.pages.free, 10, 9);
    task := CreateTask(kernel, pid);
    kernel.ValidConsistent();
    ghost var k, t := kernel.Now(), View(task);
    PgdOf(task);
    CreatedBy(x.k, k, t);
    failed := ExecUser(kernel, task, file, leftover);
    if failed {
      PgdOf(task);
      FreeTask(kernel, task);
      EndedBy(k, kernel.Now(), t);
    }
    kernel.ValidConsistent();
    PgdOf(task);
    ts' := if failed then ts else ts[pid := View(task)];
    StartLeads(x, k, t, kernel.Now(), View(task), failed, pid, others, kernel.ramdisk);
  }

  lemma EndedBy(k: Snapshot, k': Snapshot, t: TaskView)
    requires Everything(k') == RestOf(k, t) && OthersSurvive(k, k', t.pgd) && BlocksStay(k, k', 0)
    ensures Ended(k, k', t)
  {
    hide RestOf, Everything, OthersSurvive, BlocksStay;
  }

  /** A new task was started, or freed again. */
  lemma StartLeads(x: Kernel, k: Snapshot, t: TaskView, k': Snapshot, t': TaskView, failed: bool, pid: nat,
      kernel: set<Item>, ramdisk: nat -> nat)
    requires Joined(x, kernel) && pid !in x.ts && pid !in x.s.reaped && Consistent(k) && Consistent(k')
    requires Created(x.k, k, t) && if failed then Ended(k, k', t) else Renewed(k, t, k', t')
    ensures Leads(x, [Change(Create(pid)), Change(if failed then End(pid) else Exec(pid))],
        Kernel(x.s, k', if failed then x.ts else x.ts[pid := t']), kernel, ramdisk)
    ensures if failed then All(k') == All(x.k) else t'.pgd != 0
  {
    hide Joined, Moved, Leads, Consistent, Owned, RestOf, Everything, Items, Renewed, OthersKept, OthersSurvive;
    hide BlocksStay;
    NoMove(x, kernel, ramdisk);
    NotScheduled(x, kernel, pid);
    var y := Kernel(x.s, k, x.ts[pid := t]);
    CreateMoves(x, k, pid, t, ramdisk);
    OneMove(x, [], x, Change(Create(pid)), y, kernel, ramdisk);
    var move := Change(if failed then End(pid) else Exec(pid));
    var z := Kernel(x.s, k', if failed then x.ts else x.ts[pid := t']);
    if failed {
      EndMoves(y, k', pid, ramdisk);
      assert y.ts - {pid} == x.ts;
    } else {
      ExecMoves(y, k', pid, t', ramdisk);
      assert y.ts[pid := t'] == x.ts[pid := t'];
      RenewedApart(k, t, k', t');
    }
    OneMove(x, [] + [Change(Create(pid))], y, move, z, kernel, ramdisk);
    TwoMoves(Change(Create(pid)), move);
  }

  lemma PgdOf(task: Task)
    ensures View(task).pgd == task.pgd
  {
  }

  /** `command_exec`, run by a task other than the idle one: a new task is started and scheduled, and the current one
      waits for its end. Without the file the new task is freed again, and all that is live is what was live before. */
  method CommandExec(cpu: Sched.CpuScheduler, kernel: KernelMemory, pid: nat, file: Option<Program>, leftover: seq<nat>,
      ghost ts: map<nat, TaskView>, ghost others: set<Item>)
    returns (failed: bool, task: Task, ghost ts': map<nat, TaskView>)
    requires kernel.Valid() && Joined(Kernel(cpu.Now(), kernel.Now(), ts), others)
    requires Sched.Runs(cpu.Now(), cpu.currentTask) && cpu.currentTask != cpu.idleTask
    requires pid !in ts && pid !in cpu.reaped && pid != Sched.BOOTSTRAP && Plenty(kernel.vm.pages.free, 10)
    requires file.Some? ==> 0 < file.value.size < 0x1_0000_0000
    requires |leftover| == PAGE_TABLE_ENTRIES_NUM && leftover[..USER_ENTRIES] == Zeros(USER_ENTRIES)
    modifies cpu, kernel`contents, kernel.vm`tables, kernel.vm`tree, kernel.heap, kernel.heap.pools,
        kernel.vm.pages`free, kernel.vm.pages`live, kernel.vm.pages`pending, kernel.vm.pages.frameArray,
        kernel.vm.pages.ordersLists
    ensures kernel.Valid() && (failed <==> file == None) && fresh(task) && task.pid == pid
    ensures failed ==> ts' == ts && All(kernel.Now()) == All(old(kernel.Now())) && cpu.Now() == old(cpu.Now())
    ensures !failed ==>
      ts' == ts[pid := View(task)] && task.pgd != 0 && UserMappings(task.mappings, file.value.data, file.value.size)
    ensures Leads(Kernel(old(cpu.Now()), old(kernel.Now()), ts), ExecMovesOf(failed, pid),
        Kernel(cpu.Now(), kernel.Now(), ts'), others, kernel.ramdisk)
  {
    hide kernel.Valid, System, Sched.Inv, Sched.Do, Leads, Moved, Joined, Plenty, UserMappings, Sched.Enabled;
    ghost var x := Kernel(cpu.Now(), kernel.Now(), ts);
    NotScheduled(x, others, pid);
    failed, task, ts' := StartProgram(kernel, pid, file, leftover, x.s, ts, others);
    if failed {
      return;
    }
    ghost var moves := [Change(Create(pid)), Change(Exec(pid))];
    ghost var z := Kernel(x.s, kernel.Now(), ts');
    WaitEnabled(x.s, pid);
    cpu.AddTask(pid);
    ghost var w := Kernel(cpu.Now(), kernel.Now(), ts');
    AddMoves(z, pid, kernel.ramdisk);
    OneMove(x, moves, z, Schedule(Sched.Add(pid)), w, others, kernel.ramdisk);
    InOrder(w, others);
    cpu.WaitArg(Sched.TASK_WAIT_PROCESS_KILL, pid);
    WaitMoves(w, pid, kernel.ramdisk);
    OneMove(x, moves + [Schedule(Sched.Add(pid))], w, Schedule(Sched.Wait(Sched.TASK_WAIT_PROCESS_KILL, pid)),
        Kernel(cpu.Now(), kernel.Now(), ts'), others, kernel.ramdisk);
    assert moves + [Schedule(Sched.Add(pid))] + [Schedule(Sched.Wait(Sched.TASK_WAIT_PROCESS_KILL, pid))] ==
      ExecMovesOf(false, pid);
  }
}

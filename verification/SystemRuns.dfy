/** What holds along every run of the process and scheduler machine. */
module SystemRuns {
  import Sched
  import opened DList
  import opened Forest
  import opened System

  /** `space` and `thread` say whether the address space and the thread could be made. */
  datatype Op =
    | OpYield
    | OpPreempt
    | OpFork(space: bool, thread: bool)
    | OpSpawn(space: bool, thread: bool)
    | OpExit(status: int)
    | OpWait(target: int, nohang: bool)
    | OpSweep
    | OpNewTask
    | OpEndTask

  ghost predicate InKernel(s: Sys) { s.sched.current !in s.owner }

  /** A thread that wakes up in waitpid goes on with it before anything else. */
  ghost predicate Allowed(s: Sys, op: Op) {
    match op
    case OpYield => InUser(s)
    case OpPreempt => InUser(s)
    case OpSpawn(_, _) => InUser(s)
    case OpFork(_, _) => !InKernel(s) && InUser(s)
    case OpExit(_) => !InKernel(s) && InUser(s)
    case OpWait(target, nohang) =>
      !InKernel(s) && s.sched.current in s.doing
      && (s.doing[s.sched.current] == User || (s.doing[s.sched.current] == Waiting(target) && !nohang))
    case OpSweep => InKernel(s)
    case OpNewTask => InKernel(s)
    case OpEndTask => InKernel(s) && s.sched.current != s.sched.idle
  }

  ghost predicate Step(s: Sys, op: Op, s': Sys) {
    && Allowed(s, op)
    && match op
       case OpYield => s' == Yield(s)
       case OpPreempt => s' == Preempt(s)
       case OpFork(space, thread) => |s.table.used| == MAX_PIDS && s.table.hint < MAX_PIDS
                                     && s' == if space then Birth(s, s.owner[s.sched.current], thread) else s
       case OpSpawn(space, thread) => |s.table.used| == MAX_PIDS && s.table.hint < MAX_PIDS
                                      && s' == if space then Birth(s, NULL, thread) else s
       case OpExit(status) => CanExit(s.table, s.owner[s.sched.current]) && s' == Exit(s, status)
       case OpWait(target, nohang) =>
         && s.owner[s.sched.current] in s.table.procs && (forall c :: c in s.table.procs ==> s.table.procs[c].pid < |s.table.used|)
         && s' == Wait(s, target, nohang)
       case OpSweep => s' == if INIT in s.table.procs then Sweep(s, s.table.procs[INIT].kids) else s
       case OpNewTask => s' == NewTask(s)
       case OpEndTask => s' == EndTask(s)
  }

  lemma StepInv(s: Sys, op: Op, s': Sys)
    requires Inv(s) && Step(s, op, s')
    ensures Inv(s')
  {
    hide Inv;
    match op
    case OpYield => YieldInv(s);
    case OpPreempt => YieldInv(s);
    case OpFork(_, thread) => BirthInv(s, s.owner[s.sched.current], thread);
    case OpSpawn(_, thread) => BirthInv(s, NULL, thread);
    case OpExit(status) => ExitInv(s, status);
    case OpWait(target, nohang) => WaitInv(s, target, nohang);
    case OpSweep =>
      if INIT in s.table.procs {
        InitKids(s);
        SweepInv(s, s.table.procs[INIT].kids);
      }
    case OpNewTask => NewTaskInv(s);
    case OpEndTask => EndTaskInv(s);
  }

  /** No step is ever stuck on its own demands. */
  lemma StepExists(s: Sys, op: Op)
    requires Inv(s) && Allowed(s, op)
    ensures exists s' :: Step(s, op, s')
  {
    hide Inv;
    hide CanExit;
    hide Yield;
    hide Preempt;
    hide Birth;
    hide Exit;
    hide Wait;
    hide Sweep;
    hide NewTask;
    hide EndTask;
    HintOk(s);
    if !InKernel(s) {
      Caller(s);
    }
    match op
    case OpYield => assert Step(s, op, Yield(s));
    case OpPreempt => assert Step(s, op, Preempt(s));
    case OpFork(space, thread) =>
      assert Step(s, op, if space then Birth(s, s.owner[s.sched.current], thread) else s);
    case OpSpawn(space, thread) =>
      assert Step(s, op, if space then Birth(s, NULL, thread) else s);
    case OpExit(status) => assert Step(s, op, Exit(s, status));
    case OpWait(target, nohang) => assert Step(s, op, Wait(s, target, nohang));
    case OpSweep => assert Step(s, op, if INIT in s.table.procs then Sweep(s, s.table.procs[INIT].kids) else s);
    case OpNewTask => assert Step(s, op, NewTask(s));
    case OpEndTask => assert Step(s, op, EndTask(s));
  }

  lemma HintOk(s: Sys)
    requires Inv(s)
    ensures |s.table.used| == MAX_PIDS && s.table.hint < MAX_PIDS
  {
  }

  ghost predicate Run(trace: seq<Sys>, ops: seq<Op>) {
    |trace| == |ops| + 1 && forall i :: 0 <= i < |ops| ==> Step(trace[i], ops[i], trace[i + 1])
  }

  lemma {:induction false} RunInv(trace: seq<Sys>, ops: seq<Op>, n: nat)
    requires Run(trace, ops) && Inv(trace[0]) && n < |trace|
    ensures Inv(trace[n])
  {
    if n > 0 {
      RunInv(trace, ops, n - 1);
      assert Step(trace[n - 1], ops[n - 1], trace[n]);
      StepInv(trace[n - 1], ops[n - 1], trace[n]);
    }
  }

  /** The machine right after boot: the idle task has the CPU and there is no process. */
  ghost predicate Booted(s: Sys) {
    && Sched.Inv(s.sched) && s.table.procs == map[] && s.table.order == [] && s.table.hint == 0 && s.table.next == INIT
    && |s.table.used| == MAX_PIDS && (forall p :: 0 <= p < MAX_PIDS ==> !s.table.used[p])
    && s.owner == map[] && s.doing == map[] && (forall t :: t in s.sched.state ==> t < s.nextTask)
    && s.exited == map[] && s.collected == map[] && s.reaped == {}
  }

  lemma BootedInv(s: Sys)
    requires Booted(s)
    ensures Inv(s)
  {
  }

  // ----- no lost wake-up -----

  /** A thread blocked in waitpid for `target`. */
  ghost predicate BlockedIn(s: Sys, r: Ptr, target: int) {
    && r in s.table.procs && s.table.procs[r].state == Alive && s.table.procs[r].thread in s.doing
    && s.doing[s.table.procs[r].thread] == Waiting(target) && Sleeps(s.sched.state, s.table.procs[r].thread)
  }

  /** In every reachable state a blocked process is registered as waiter; unless it is init
      it has a matching child and no matching child is a zombie. */
  lemma NoLostWakeup(trace: seq<Sys>, ops: seq<Op>, n: nat, r: Ptr, target: int)
    requires Run(trace, ops) && Inv(trace[0]) && n < |trace| && BlockedIn(trace[n], r, target)
    ensures var s := trace[n];
            && s.table.procs[r].waiter == s.table.procs[r].thread
            && (r != INIT ==> WaitsRight(s.table.procs, r, target))
  {
    RunInv(trace, ops, n);
    ProcNow(trace[n], r);
  }

  /** When a child exits, a blocked parent becomes ready or runs. */
  lemma ExitWakesParent(s: Sys, status: int, target: int)
    requires CanCall(s) && CanExit(s.table, s.owner[s.sched.current])
    requires BlockedIn(s, s.table.procs[s.owner[s.sched.current]].parent, target)
    ensures var t := s.table.procs[s.table.procs[s.owner[s.sched.current]].parent].thread; var s' := Exit(s, status);
            t == s'.sched.current || t in s'.sched.queue
  {
    var r := s.owner[s.sched.current];
    var p := s.table.procs[r].parent;
    ParentKnown(s, r);
    ProcNow(s, p);
    ExitSelf(s, status);
    hide Inv;
    hide ExitedProcs;
    WokenRuns(s.sched, s.table.procs[p].thread);
  }

  lemma WokenRuns(s: Sched.State, w: Ptr)
    requires Sleeps(s.state, w)
    ensures var s' := Sched.Block(Sched.Wake(s, w)); w == s'.current || w in s'.queue
  {
    var q := s.queue + [w];
    assert q[|s.queue|] == w;
    assert s.queue != [] ==> q[1..][|s.queue| - 1] == w;
  }

  // ----- exit statuses -----

  /** This step hands the status of zombie `z` to its parent. */
  ghost predicate Collects(s: Sys, op: Op, z: Ptr) {
    && op.OpWait? && s.sched.current in s.owner && s.owner[s.sched.current] in s.table.procs && z in s.table.procs
    && z == FindZombie(s.table.procs, s.table.procs[s.owner[s.sched.current]].kids, op.target)
  }

  /** Records only grow: exit statuses, collected statuses, ended threads. */
  ghost predicate Grows(s: Sys, s': Sys) {
    && (forall z :: z in s.exited ==> z in s'.exited && s'.exited[z] == s.exited[z])
    && (forall z :: z in s.collected ==> z in s'.collected && s'.collected[z] == s.collected[z])
    && s.reaped <= s'.reaped
    && (forall t :: t in s.doing && s.doing[t] == Ended ==> t in s'.doing && s'.doing[t] == Ended)
  }

  lemma StepGrows(s: Sys, op: Op, s': Sys)
    requires Inv(s) && Step(s, op, s')
    ensures Grows(s, s')
  {
    hide Inv;
    hide Created;
    hide PidScan;
    match op
    case OpYield =>
    case OpPreempt =>
    case OpFork(_, thread) => NextTaskNew(s);
    case OpSpawn(_, thread) => NextTaskNew(s);
    case OpExit(status) => ExitGrows(s, status);
    case OpWait(target, nohang) => WaitGrows(s, target, nohang);
    case OpSweep =>
      if INIT in s.table.procs {
        InitKids(s);
        SweepInv(s, s.table.procs[INIT].kids);
      }
    case OpNewTask =>
    case OpEndTask =>
  }

  lemma ExitGrows(s: Sys, status: int)
    requires CanCall(s) && CanExit(s.table, s.owner[s.sched.current])
    ensures Grows(s, Exit(s, status))
  {
    hide Inv;
    hide ExitedProcs;
    StatusFacts(s);
    Caller(s);
  }

  lemma WaitGrows(s: Sys, target: int, nohang: bool)
    requires CanCall(s) && s.owner[s.sched.current] in s.table.procs
    requires forall c :: c in s.table.procs ==> s.table.procs[c].pid < |s.table.used|
    ensures Grows(s, Wait(s, target, nohang))
  {
    hide Inv;
    hide Reaped;
    StatusFacts(s);
    Caller(s);
  }

  lemma StatusFacts(s: Sys)
    requires Inv(s)
    ensures forall z :: z in s.table.procs && s.table.procs[z].state != Zombie ==> z !in s.exited
    ensures forall z :: z in s.table.procs ==> z !in s.collected && z !in s.reaped
  {
  }

  lemma GrowsTrans(a: Sys, b: Sys, c: Sys)
    requires Grows(a, b) && Grows(b, c)
    ensures Grows(a, c)
  {
  }

  lemma {:induction false} RunGrows(trace: seq<Sys>, ops: seq<Op>, i: nat, j: nat)
    requires Run(trace, ops) && Inv(trace[0]) && i <= j < |trace|
    ensures Grows(trace[i], trace[j])
    decreases j - i
  {
    hide Inv;
    hide Step;
    if i < j {
      RunGrows(trace, ops, i, j - 1);
      RunInv(trace, ops, j - 1);
      StepGrows(trace[j - 1], ops[j - 1], trace[j]);
      GrowsTrans(trace[i], trace[j - 1], trace[j]);
    }
  }

  /** The status a process exits with stays with it until it is collected, unchanged, or
      init's reaper takes it. */
  lemma StatusKept(trace: seq<Sys>, ops: seq<Op>, i: nat, j: nat, z: Ptr)
    requires Run(trace, ops) && Inv(trace[0]) && i < j < |trace| && ops[i].OpExit?
    requires trace[i].sched.current in trace[i].owner && z == trace[i].owner[trace[i].sched.current]
    ensures if z in trace[j].table.procs
            then trace[j].table.procs[z].state == Zombie && trace[j].table.procs[z].status == ops[i].status
            else (z in trace[j].collected && trace[j].collected[z] == ops[i].status) || z in trace[j].reaped
  {
    assert Step(trace[i], ops[i], trace[i + 1]);
    assert trace[i + 1].exited == trace[i].exited[z := ops[i].status];
    RunGrows(trace, ops, i + 1, j);
    RunInv(trace, ops, j);
  }

  /** A process leaves the table only when its parent collects its status or, for a child of
      init, in the sweep. */
  lemma StepRemoves(s: Sys, op: Op, s': Sys, z: Ptr)
    requires Inv(s) && Step(s, op, s') && z in s.table.procs && z !in s'.table.procs
    ensures (Collects(s, op, z) && s.owner[s.sched.current] == s.table.procs[z].parent
             && z in s'.collected && s'.collected[z] == s.table.procs[z].status && z !in s.collected)
            || (op.OpSweep? && s.table.procs[z].parent == INIT && z in s'.reaped)
  {
    hide Inv;
    if op.OpWait? {
      StatusFacts(s);
      CollectTable(s, op.target);
      WaitRemoves(s, op.target, op.nohang, z);
    } else if op.OpSweep? {
      InitKids(s);
      SweepInv(s, s.table.procs[INIT].kids);
    } else {
      StepKeeps(s, op, s');
    }
  }

  lemma StepKeeps(s: Sys, op: Op, s': Sys)
    requires Inv(s) && Step(s, op, s') && !op.OpWait? && !op.OpSweep?
    ensures forall q :: q in s.table.procs ==> q in s'.table.procs
  {
    hide Inv;
    hide Born;
    match op
    case OpFork(space, thread) => BirthKeeps(s, s.owner[s.sched.current], thread);
    case OpSpawn(space, thread) => BirthKeeps(s, NULL, thread);
    case OpExit(status) => ExitSelf(s, status);
    case OpYield =>
    case OpPreempt =>
    case OpNewTask =>
    case OpEndTask =>
  }

  lemma BirthKeeps(s: Sys, parent: Ptr, thread: bool)
    requires CanBirth(s, parent) && |s.table.used| == MAX_PIDS && s.table.hint < MAX_PIDS
    ensures forall q :: q in s.table.procs ==> q in Birth(s, parent, thread).table.procs
  {
    hide Inv;
    hide Born;
    ParentAlive(s, parent);
    var pid := PidScan(s.table.used, s.table.hint, 0);
    if pid < MAX_PIDS {
      BornOld(s, parent, pid, thread);
    }
  }

  lemma WaitRemoves(s: Sys, target: int, nohang: bool, z: Ptr)
    requires s.sched.current in s.owner && s.owner[s.sched.current] in s.table.procs && z in s.table.procs
    requires forall c :: c in s.table.procs ==> s.table.procs[c].pid < |s.table.used|
    requires z !in Wait(s, target, nohang).table.procs
    ensures var s' := Wait(s, target, nohang);
            && z == FindZombie(s.table.procs, s.table.procs[s.owner[s.sched.current]].kids, target)
            && z in s'.collected && s'.collected[z] == s.table.procs[z].status
  {
  }

  /** No status is collected twice. */
  lemma CollectedOnce(trace: seq<Sys>, ops: seq<Op>, i: nat, j: nat, z: Ptr)
    requires Run(trace, ops) && Inv(trace[0]) && i < j < |ops| && Collects(trace[i], ops[i], z)
    ensures !Collects(trace[j], ops[j], z)
  {
    assert Step(trace[i], ops[i], trace[i + 1]);
    assert z in trace[i + 1].collected;
    RunGrows(trace, ops, i + 1, j);
    RunInv(trace, ops, j);
    StatusFacts(trace[j]);
  }

  // ----- threads that have exited -----

  /** A thread that has exited never runs again. */
  lemma EndedForever(trace: seq<Sys>, ops: seq<Op>, i: nat, j: nat, t: Ptr)
    requires Run(trace, ops) && Inv(trace[0]) && i <= j < |trace| && t in trace[i].doing && trace[i].doing[t] == Ended
    ensures t != trace[j].sched.current && t !in trace[j].sched.queue
  {
    RunGrows(trace, ops, i, j);
    RunInv(trace, ops, j);
    EndedSleeps(trace[j], t);
  }

  lemma EndedSleeps(s: Sys, t: Ptr)
    requires Inv(s) && t in s.doing && s.doing[t] == Ended
    ensures t != s.sched.current && t !in s.sched.queue
  {
    assert t in s.owner;
    ThreadNow(s, t);
  }

  // ----- the scheduler's view -----

  /** One scheduler state leads to another by the given operations. */
  ghost predicate Leads(a: Sched.State, ops: seq<Sched.Op>, b: Sched.State)
    decreases |ops|
  {
    if ops == [] then a == b else Sched.Allowed(a, ops[0]) && Leads(Sched.Apply(a, ops[0]), ops[1..], b)
  }

  lemma Leads1(a: Sched.State, op: Sched.Op)
    requires Sched.Allowed(a, op)
    ensures Leads(a, [op], Sched.Apply(a, op))
  {
  }

  lemma Leads2(a: Sched.State, x: Sched.Op, y: Sched.Op)
    requires Sched.Allowed(a, x) && Sched.Allowed(Sched.Apply(a, x), y)
    ensures Leads(a, [x, y], Sched.Apply(Sched.Apply(a, x), y))
  {
    Leads1(Sched.Apply(a, x), y);
    assert [x, y][1..] == [y];
  }

  lemma {:induction false} LeadsJoin(a: Sched.State, x: seq<Sched.Op>, b: Sched.State, y: seq<Sched.Op>, c: Sched.State)
    requires Leads(a, x, b) && Leads(b, y, c)
    ensures Leads(a, x + y, c)
    decreases |x|
  {
    if x == [] {
      assert x + y == y;
    } else {
      LeadsJoin(Sched.Apply(a, x[0]), x[1..], b, y, c);
      assert (x + y)[1..] == x[1..] + y;
    }
  }

  /** This step gives the CPU away or asks who should have it. */
  ghost predicate Decides(s: Sys, op: Op) {
    match op
    case OpWait(target, nohang) =>
      && !nohang && s.sched.current in s.owner && s.owner[s.sched.current] in s.table.procs
      && FindZombie(s.table.procs, s.table.procs[s.owner[s.sched.current]].kids, target) !in s.table.procs
      && HasMatch(s.table.procs, s.table.procs[s.owner[s.sched.current]].kids, target)
    case _ => op.OpYield? || op.OpPreempt? || op.OpExit? || op.OpEndTask?
  }

  ghost function Count(b: bool): nat { if b then 1 else 0 }

  /** Every step is, to the scheduler, at most two of its own operations, the last of which
      is the only one that may decide. */
  lemma StepIsSchedRun(s: Sys, op: Op, s': Sys) returns (ops: seq<Sched.Op>)
    requires Inv(s) && Step(s, op, s')
    ensures Leads(s.sched, ops, s'.sched) && |ops| <= 2 && Sched.Decisions(ops) == Count(Decides(s, op))
  {
    hide Inv;
    hide ExitedProcs;
    hide Sched.Apply;
    ops := [];
    if op.OpSweep? {
      if INIT in s.table.procs {
        InitKids(s);
        SweepInv(s, s.table.procs[INIT].kids);
      }
    } else if op.OpExit? {
      ops := ExitOps(s, op.status);
    } else if Decides(s, op) || s'.sched != s.sched {
      var o := OneOp(s, op, s');
      Leads1(s.sched, o);
      Sched.DecisionsFront([o]);
      ops := [o];
    }
  }

  lemma OneOp(s: Sys, op: Op, s': Sys) returns (o: Sched.Op)
    requires Inv(s) && Step(s, op, s') && (Decides(s, op) || s'.sched != s.sched) && !op.OpExit? && !op.OpSweep?
    ensures Sched.Allowed(s.sched, o) && s'.sched == Sched.Apply(s.sched, o) && (Sched.Decides(o) <==> Decides(s, op))
  {
    hide Inv;
    hide Created;
    hide PidScan;
    hide Reaped;
    hide FindZombie;
    hide Sched.Schedule;
    hide Sched.Push;
    NextTaskNew(s);
    match op
    case OpYield => o := Sched.OpYield;
    case OpPreempt => o := Sched.OpPreempt;
    case OpNewTask => o := Sched.OpEnqueue(s.nextTask);
    case OpEndTask => o := Sched.OpFinish;
    case OpFork(_, _) => o := Sched.OpEnqueue(s.nextTask);
    case OpSpawn(_, _) => o := Sched.OpEnqueue(s.nextTask);
    case OpWait(target, nohang) =>
      Caller(s);
      o := Sched.OpBlock;
  }

  lemma ExitOps(s: Sys, status: int) returns (ops: seq<Sched.Op>)
    requires CanCall(s) && CanExit(s.table, s.owner[s.sched.current])
    ensures Leads(s.sched, ops, Exit(s, status).sched) && |ops| == 2 && ops[0].OpWake? && ops[1].OpBlock?
    ensures Sched.Decisions(ops) == 1
  {
    hide Inv;
    hide ExitedProcs;
    Caller(s);
    var r := s.owner[s.sched.current];
    var w := WaiterOf(ExitedProcs(s.table.procs, r, status), s.table.procs[r].parent);
    Leads2(s.sched, Sched.OpWake(w), Sched.OpBlock);
    ops := [Sched.OpWake(w), Sched.OpBlock];
    Sched.DecisionsFront(ops);
    Sched.DecisionsFront(ops[1..]);
  }

  /** The decisions in the first `n` steps of a run. */
  ghost function Decisions(trace: seq<Sys>, ops: seq<Op>, n: nat): nat
    requires n <= |ops| < |trace|
  {
    if n == 0 then 0 else Decisions(trace, ops, n - 1) + Count(Decides(trace[n - 1], ops[n - 1]))
  }

  /** A whole run of the machine is one run of the scheduler with as many decisions. */
  lemma {:induction false} RunIsSchedRun(trace: seq<Sys>, ops: seq<Op>, n: nat) returns (all: seq<Sched.Op>)
    requires Run(trace, ops) && Inv(trace[0]) && n <= |ops|
    ensures Leads(trace[0].sched, all, trace[n].sched) && Sched.Decisions(all) == Decisions(trace, ops, n)
  {
    hide Inv;
    hide Step;
    hide Decides;
    hide Leads;
    hide Sched.Decisions;
    all := [];
    if n == 0 {
      NoOps(trace[0].sched);
    } else {
      RunInv(trace, ops, n - 1);
      var before := RunIsSchedRun(trace, ops, n - 1);
      var here := StepIsSchedRun(trace[n - 1], ops[n - 1], trace[n]);
      LeadsJoin(trace[0].sched, before, trace[n - 1].sched, here, trace[n].sched);
      DecisionsJoin(before, here);
      all := before + here;
    }
  }

  lemma NoOps(a: Sched.State)
    ensures Leads(a, [], a) && Sched.Decisions([]) == 0
  {
  }

  lemma {:induction false} DecisionsJoin(x: seq<Sched.Op>, y: seq<Sched.Op>)
    ensures Sched.Decisions(x + y) == Sched.Decisions(x) + Sched.Decisions(y)
    decreases |y|
  {
    if y == [] {
      assert x + y == x;
    } else {
      DecisionsJoin(x, y[..|y| - 1]);
      assert (x + y)[..|x + y| - 1] == x + y[..|y| - 1];
    }
  }

  /** A deciding step gives the CPU to the head of the queue and moves everyone else up. */
  lemma StepMoves(s: Sys, op: Op, s': Sys, k: nat)
    requires Inv(s) && Step(s, op, s') && k < |s.sched.queue|
    ensures var q, q' := s.sched.queue, s'.sched.queue;
            if !Decides(s, op) then k < |q'| && q'[k] == q[k]
            else if k == 0 then s'.sched.current == q[0]
            else k - 1 < |q'| && q'[k - 1] == q[k]
  {
    hide Inv;
    hide Sched.Apply;
    hide FindZombie;
    hide HasMatch;
    hide Leads;
    SchedNow(s);
    if op.OpSweep? {
      if INIT in s.table.procs {
        InitKids(s);
        SweepInv(s, s.table.procs[INIT].kids);
      }
    } else if op.OpExit? {
      hide Exit;
      var o := ExitOps(s, op.status);
      assert o == [o[0], o[1]];
      TwoMoves(s.sched, o[0], o[1], s'.sched, k);
    } else if Decides(s, op) || s'.sched != s.sched {
      var o := OneOp(s, op, s');
      Sched.QueueMoves(s.sched, o, k);
    }
  }

  lemma TwoMoves(a: Sched.State, x: Sched.Op, y: Sched.Op, b: Sched.State, k: nat)
    requires Sched.Inv(a) && Leads(a, [x, y], b) && !Sched.Decides(x) && Sched.Decides(y) && k < |a.queue|
    ensures if k == 0 then b.current == a.queue[0] else k - 1 < |b.queue| && b.queue[k - 1] == a.queue[k]
  {
    hide Sched.Apply;
    var m := Sched.Apply(a, x);
    assert Leads(m, [y], b) by { assert [x, y][1..] == [y]; }
    assert Leads(Sched.Apply(m, y), [], b) by { assert [y][1..] == []; }
    Sched.ApplyInv(a, x);
    Sched.QueueMoves(a, x, k);
    Sched.QueueMoves(m, y, k);
  }

  /** Round robin over the whole machine: whoever is at position `k` of the ready queue has
      had the CPU by the time of the `k + 1`st decision, whatever the processes do. */
  lemma {:induction false} DispatchedInTurn(trace: seq<Sys>, ops: seq<Op>, i: nat, j: nat, k: nat)
    requires Run(trace, ops) && Inv(trace[0]) && i <= j <= |ops| && k < |trace[i].sched.queue|
    requires Decisions(trace, ops, i) + k < Decisions(trace, ops, j)
    ensures exists m :: i < m <= j && trace[m].sched.current == trace[i].sched.queue[k]
    decreases j - i
  {
    hide Inv;
    hide Step;
    hide Decides;
    RunInv(trace, ops, i);
    assert Step(trace[i], ops[i], trace[i + 1]);
    StepMoves(trace[i], ops[i], trace[i + 1], k);
    if Decides(trace[i], ops[i]) && k == 0 {
      assert i < i + 1 <= j;
    } else {
      DispatchedInTurn(trace, ops, i + 1, j, if Decides(trace[i], ops[i]) then k - 1 else k);
    }
  }
}

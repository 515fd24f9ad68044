/** When pid 0 itself waits: a dying process hands its zombies to init without waking it. */
module InitWaits {
  import Sched
  import opened DList
  import opened Forest
  import opened System
  import opened SystemRuns

  /** The children of init by their parent fields: one matches and none of those is a zombie. */
  ghost predicate Served(procs: map<Ptr, Proc>, target: int) {
    && (exists c :: Kid(procs, target, c))
    && (forall c :: Kid(procs, target, c) ==> procs[c].state != Zombie)
  }

  ghost predicate Kid(procs: map<Ptr, Proc>, target: int, c: Ptr) {
    c in procs && procs[c].parent == INIT && Matches(procs[c], target)
  }

  lemma KidInList(s: Sys, c: Ptr)
    requires Inv(s) && INIT in s.table.procs
    ensures c in s.table.procs[INIT].kids <==> c in s.table.procs && s.table.procs[c].parent == INIT
  {
    if c in s.table.procs[INIT].kids {
      assert KidOk(s.table.procs, INIT, c);
    }
    if c in s.table.procs && s.table.procs[c].parent == INIT {
      assert ParentOk(s.table.procs, c);
    }
  }

  lemma ServedIff(s: Sys, target: int)
    requires Inv(s) && INIT in s.table.procs
    ensures WaitsRight(s.table.procs, INIT, target) <==> Served(s.table.procs, target)
  {
    hide Inv;
    var a := s.table.procs;
    forall c: Ptr
      ensures Kid(a, target, c) <==> c in a[INIT].kids && c in a && Matches(a[c], target)
    {
      KidInList(s, c);
    }
    if WaitsRight(a, INIT, target) {
      var c :| c in a[INIT].kids && c in a && Matches(a[c], target);
      assert Kid(a, target, c);
      forall d | Kid(a, target, d)
        ensures a[d].state != Zombie
      {
        assert !ZombieFor(a, target, d);
      }
    }
    if Served(a, target) {
      var c :| Kid(a, target, c);
      assert c in a[INIT].kids;
    }
  }

  // ----- the steps -----

  /** The caller exits, its parent is not init, and a zombie child of it matches. */
  ghost predicate Orphans(s: Sys, op: Op, target: int) {
    && op.OpExit? && s.sched.current in s.owner && s.owner[s.sched.current] in s.table.procs
    && s.table.procs[s.owner[s.sched.current]].parent != INIT
    && !NoZombie(s.table.procs, s.table.procs[s.owner[s.sched.current]].kids, target)
  }

  /** Old processes keep pid, state and parent, and a new one is not a child of init. */
  ghost predicate SameFamily(a: map<Ptr, Proc>, b: map<Ptr, Proc>) {
    && (forall q :: q in a && (q in b || a[q].parent == INIT) ==>
          q in b && b[q].pid == a[q].pid && b[q].state == a[q].state && b[q].parent == a[q].parent)
    && (forall q :: q in b && q !in a ==> b[q].parent != INIT)
  }

  lemma FamilyServed(a: map<Ptr, Proc>, b: map<Ptr, Proc>, target: int)
    requires SameFamily(a, b) && Served(a, target)
    ensures Served(b, target)
  {
    var c :| Kid(a, target, c);
    assert Kid(b, target, c);
    forall d | Kid(b, target, d)
      ensures b[d].state != Zombie
    {
      assert Kid(a, target, d);
    }
  }

  lemma CreatedFamily(t: Table, parent: Ptr, pid: nat, p: Proc)
    requires t.next !in t.procs && pid < MAX_PIDS && |t.used| == MAX_PIDS && p.parent == parent != INIT
    ensures SameFamily(t.procs, Created(t, parent, pid).procs[t.next := p])
  {
  }

  lemma BirthFamily(s: Sys, parent: Ptr, thread: bool)
    requires CanBirth(s, parent) && parent != INIT && |s.table.used| == MAX_PIDS && s.table.hint < MAX_PIDS
    ensures SameFamily(s.table.procs, Birth(s, parent, thread).table.procs)
  {
    hide Inv;
    hide SameFamily;
    hide InUser;
    ParentAlive(s, parent);
    var pid := PidScan(s.table.used, s.table.hint, 0);
    if pid < MAX_PIDS {
      var r, t := s.table.next, Created(s.table, parent, pid);
      CreatedFamily(s.table, parent, pid, t.procs[r].(state := Failed));
      CreatedFamily(s.table, parent, pid, t.procs[r].(thread := s.nextTask));
    } else {
      FamilySame(s.table.procs, s.table.procs);
    }
  }

  lemma FamilySame(a: map<Ptr, Proc>, b: map<Ptr, Proc>)
    requires SameShape(a, b) && forall q :: q in a ==> b[q].state == a[q].state
    ensures SameFamily(a, b)
  {
  }

  lemma ReapFamily(t: Table, z: Ptr)
    requires z in t.procs && t.procs[z].pid < |t.used| && t.procs[z].parent != INIT && t.procs[z].parent != z
    ensures SameFamily(t.procs, Reaped(t, z).procs)
  {
  }

  lemma WaitFamily(s: Sys, target: int, nohang: bool)
    requires CanCall(s) && s.owner[s.sched.current] in s.table.procs && s.owner[s.sched.current] != INIT
    requires forall c :: c in s.table.procs ==> s.table.procs[c].pid < |s.table.used|
    ensures SameFamily(s.table.procs, Wait(s, target, nohang).table.procs)
  {
    hide Inv;
    hide FindZombie;
    hide SameFamily;
    hide Reaped;
    CollectTable(s, target);
    var r, a := s.owner[s.sched.current], s.table.procs;
    var z := FindZombie(a, a[r].kids, target);
    if z in a {
      ReapFamily(s.table, z);
    } else {
      FamilySame(a, Wait(s, target, nohang).table.procs);
    }
  }

  /** The sweep takes zombies only, and init was waiting for none of those. */
  lemma SweepServed(s: Sys, target: int)
    requires Inv(s) && InUser(s) && INIT in s.table.procs && Served(s.table.procs, target)
    ensures Served(Sweep(s, s.table.procs[INIT].kids).table.procs, target)
  {
    hide Inv;
    InitKids(s);
    var a, s' := s.table.procs, Sweep(s, s.table.procs[INIT].kids);
    SweepInv(s, a[INIT].kids);
    var c :| Kid(a, target, c);
    assert Kid(s'.table.procs, target, c);
    forall d | Kid(s'.table.procs, target, d)
      ensures s'.table.procs[d].state != Zombie
    {
      assert Kid(a, target, d);
    }
  }

  /** Init sleeps, so the caller is another process. */
  lemma NotInit(s: Sys, target: int)
    requires Inv(s) && BlockedIn(s, INIT, target)
    ensures s.sched.current in s.owner ==> s.owner[s.sched.current] != INIT
    ensures InUser(s) || s.sched.current in s.owner
  {
    if s.sched.current in s.owner {
      Caller(s);
    }
  }

  /** After the exit the children of init are those it had and those of `r`. */
  ghost predicate Adopts(a: map<Ptr, Proc>, b: map<Ptr, Proc>, ks: seq<Ptr>, target: int, c: Ptr) {
    && (Kid(b, target, c) <==> Kid(a, target, c) || (c in ks && c in a && Matches(a[c], target)))
    && (Kid(b, target, c) ==> c in a && b[c].state == a[c].state)
  }

  lemma ExitedAdopts(t: Table, r: Ptr, status: int, target: int, c: Ptr)
    requires CanExit(t, r) && r != INIT && t.procs[r].parent != INIT
    ensures Adopts(t.procs, ExitedProcs(t.procs, r, status), t.procs[r].kids, target, c)
  {
    if c in t.procs[r].kids {
      assert KidOk(t.procs, r, c);
    }
    hide TInv;
    hide ExitedProcs;
    hide KidsOk;
    ExitedIs(t, r, status);
  }

  lemma WokenAdopts(a: map<Ptr, Proc>, b: map<Ptr, Proc>, p: Ptr, ks: seq<Ptr>, target: int, c: Ptr)
    requires Adopts(a, b, ks, target, c)
    ensures Adopts(a, Woken(b, p), ks, target, c)
  {
  }

  lemma ExitServedIff(s: Sys, status: int, target: int)
    requires CanCall(s) && CanExit(s.table, s.owner[s.sched.current]) && Served(s.table.procs, target)
    requires var r := s.owner[s.sched.current]; r != INIT && s.table.procs[r].parent != INIT
    ensures Served(Exit(s, status).table.procs, target) <==>
              NoZombie(s.table.procs, s.table.procs[s.owner[s.sched.current]].kids, target)
  {
    hide Inv;
    hide KidsOk;
    hide ExitedProcs;
    hide Woken;
    hide Adopts;
    var r := s.owner[s.sched.current];
    var a, b := s.table.procs, Exit(s, status).table.procs;
    forall c: Ptr
      ensures Adopts(a, b, a[r].kids, target, c)
    {
      ExitedAdopts(s.table, r, status, target, c);
      WokenAdopts(a, ExitedProcs(a, r, status), a[r].parent, a[r].kids, target, c);
    }
    MoreKids(a, b, a[r].kids, target);
  }

  lemma MoreKids(a: map<Ptr, Proc>, b: map<Ptr, Proc>, ks: seq<Ptr>, target: int)
    requires Served(a, target)
    requires forall c :: Adopts(a, b, ks, target, c)
    ensures Served(b, target) <==> NoZombie(a, ks, target)
  {
    var c :| Kid(a, target, c);
    assert Adopts(a, b, ks, target, c) && Kid(b, target, c);
    if Served(b, target) {
      forall z | z in ks
        ensures !ZombieFor(a, target, z)
      {
        assert Adopts(a, b, ks, target, z);
      }
    }
    if NoZombie(a, ks, target) {
      forall d | Kid(b, target, d)
        ensures b[d].state != Zombie
      {
        assert Adopts(a, b, ks, target, d) && (d in ks ==> !ZombieFor(a, target, d));
      }
    }
  }

  /** Any other step leaves init waiting for something. */
  lemma StepServed(s: Sys, op: Op, s': Sys, target: int)
    requires Inv(s) && Step(s, op, s') && BlockedIn(s, INIT, target) && Served(s.table.procs, target) && !op.OpExit?
    ensures Served(s'.table.procs, target)
  {
    hide Inv;
    hide Served;
    hide SameFamily;
    hide FindZombie;
    hide BlockedIn;
    NotInit(s, target);
    InitThere(s, target);
    match op
    case OpFork(space, thread) =>
      if space {
        BirthFamily(s, s.owner[s.sched.current], thread);
        FamilyServed(s.table.procs, s'.table.procs, target);
      }
    case OpSpawn(space, thread) =>
      if space {
        BirthFamily(s, NULL, thread);
        FamilyServed(s.table.procs, s'.table.procs, target);
      }
    case OpWait(t, nohang) =>
      WaitFamily(s, t, nohang);
      FamilyServed(s.table.procs, s'.table.procs, target);
    case OpSweep => SweepServed(s, target);
    case OpYield =>
    case OpPreempt =>
    case OpNewTask =>
    case OpEndTask =>
  }

  lemma InitThere(s: Sys, target: int)
    requires BlockedIn(s, INIT, target)
    ensures INIT in s.table.procs
  {
  }

  /** The exit wakes a blocked init exactly if the caller is its child. */
  lemma ExitWakesInitIff(s: Sys, status: int, target: int)
    requires CanCall(s) && CanExit(s.table, s.owner[s.sched.current]) && BlockedIn(s, INIT, target)
    ensures BlockedIn(Exit(s, status), INIT, target) <==> s.table.procs[s.owner[s.sched.current]].parent != INIT
  {
    hide Inv;
    hide ExitedProcs;
    NotInit(s, target);
    var r := s.owner[s.sched.current];
    var p := s.table.procs[r].parent;
    Caller(s);
    ProcNow(s, INIT);
    ThreadKnown(s, INIT);
    ParentKnown(s, r);
    ExitOther(s, status, INIT);
    ExitSched(s, status);
    if p != NULL && s.table.procs[p].thread != NULL {
      ThreadKnown(s, p);
    }
  }

  /** The one step that leaves a blocked init with a matching zombie, or with nothing to wait
      for: the exit of somebody else's child that has a matching zombie child. */
  lemma InitMissesIff(s: Sys, op: Op, s': Sys, target: int)
    requires Inv(s) && Step(s, op, s') && BlockedIn(s, INIT, target) && WaitsRight(s.table.procs, INIT, target)
    ensures BlockedIn(s', INIT, target) && !WaitsRight(s'.table.procs, INIT, target) <==> Orphans(s, op, target)
  {
    hide Inv;
    hide Served;
    hide BlockedIn;
    hide WaitsRight;
    hide NoZombie;
    StepInv(s, op, s');
    InitThere(s, target);
    ServedIff(s, target);
    if BlockedIn(s', INIT, target) {
      InitThere(s', target);
      ServedIff(s', target);
    }
    if op.OpExit? {
      hide Exit;
      NotInit(s, target);
      ExitWakesInitIff(s, op.status, target);
      if s.table.procs[s.owner[s.sched.current]].parent != INIT {
        ExitServedIff(s, op.status, target);
      }
    } else {
      StepServed(s, op, s', target);
    }
  }

  // ----- runs -----

  /** Init comes to be blocked only by its own waitpid, which finds a match and no zombie. */
  lemma InitBlocks(s: Sys, op: Op, s': Sys, target: int)
    requires Inv(s) && Step(s, op, s') && BlockedIn(s', INIT, target)
    ensures BlockedIn(s, INIT, target) || WaitsRight(s'.table.procs, INIT, target)
  {
    hide Inv;
    hide WaitsRight;
    hide BlockedIn;
    match op
    case OpYield => YieldBlocks(s, target);
    case OpPreempt => YieldBlocks(s, target);
    case OpFork(space, thread) =>
      if space {
        BirthBlocks(s, s.owner[s.sched.current], thread, target);
      }
    case OpSpawn(space, thread) =>
      if space {
        BirthBlocks(s, NULL, thread, target);
      }
    case OpExit(status) => ExitBlocks(s, status, target);
    case OpWait(t, nohang) => WaitBlocksInit(s, t, nohang, target);
    case OpSweep =>
      if INIT in s.table.procs {
        SweepBlocks(s, target);
      }
    case OpNewTask => NewTaskBlocks(s, target);
    case OpEndTask => EndTaskBlocks(s, target);
  }

  lemma YieldBlocks(s: Sys, target: int)
    requires Inv(s) && (BlockedIn(Yield(s), INIT, target) || BlockedIn(Preempt(s), INIT, target))
    ensures BlockedIn(s, INIT, target)
  {
    ThreadKnown(s, INIT);
    SchedNow(s);
    YieldSleep(s.sched);
    hide Inv;
    hide Sched.Inv;
    hide Sched.Yield;
    hide Sched.Preempt;
  }

  lemma NewTaskBlocks(s: Sys, target: int)
    requires Inv(s) && BlockedIn(NewTask(s), INIT, target)
    ensures BlockedIn(s, INIT, target)
  {
    NextTaskNew(s);
    ThreadKnown(s, INIT);
  }

  lemma EndTaskBlocks(s: Sys, target: int)
    requires Inv(s) && s.sched.current !in s.owner && s.sched.current != s.sched.idle && BlockedIn(EndTask(s), INIT, target)
    ensures BlockedIn(s, INIT, target)
  {
    ThreadKnown(s, INIT);
    assert s.sched.queue != [] ==> s.sched.queue[0] in s.sched.queue;
  }

  lemma BirthBlocks(s: Sys, parent: Ptr, thread: bool, target: int)
    requires CanBirth(s, parent) && |s.table.used| == MAX_PIDS && s.table.hint < MAX_PIDS
    requires BlockedIn(Birth(s, parent, thread), INIT, target)
    ensures BlockedIn(s, INIT, target)
  {
    hide Inv;
    hide InUser;
    hide Born;
    ParentAlive(s, parent);
    NextTaskNew(s);
    var pid := PidScan(s.table.used, s.table.hint, 0);
    if pid < MAX_PIDS {
      BornOld(s, parent, pid, thread);
      if INIT in s.table.procs {
        ProcNow(s, INIT);
      }
    }
  }

  lemma ExitBlocks(s: Sys, status: int, target: int)
    requires CanCall(s) && CanExit(s.table, s.owner[s.sched.current]) && BlockedIn(Exit(s, status), INIT, target)
    ensures BlockedIn(s, INIT, target)
  {
    hide Inv;
    hide ExitedProcs;
    Caller(s);
    ExitSelf(s, status);
    ExitSched(s, status);
    ExitOther(s, status, INIT);
    ProcNow(s, INIT);
    ThreadKnown(s, INIT);
  }

  lemma SweepBlocks(s: Sys, target: int)
    requires Inv(s) && InUser(s) && INIT in s.table.procs && BlockedIn(Sweep(s, s.table.procs[INIT].kids), INIT, target)
    ensures BlockedIn(s, INIT, target)
  {
    hide Inv;
    InitKids(s);
    SweepInv(s, s.table.procs[INIT].kids);
  }

  lemma WaitBlocksInit(s: Sys, t: int, nohang: bool, target: int)
    requires CanCall(s) && s.owner[s.sched.current] in s.table.procs && BlockedIn(Wait(s, t, nohang), INIT, target)
    requires forall c :: c in s.table.procs ==> s.table.procs[c].pid < |s.table.used|
    ensures BlockedIn(s, INIT, target) || WaitsRight(Wait(s, t, nohang).table.procs, INIT, target)
  {
    hide Inv;
    hide FindZombie;
    hide Reaped;
    hide HasMatch;
    hide NoZombie;
    hide GoWait;
    CollectTable(s, t);
    Caller(s);
    var r, a := s.owner[s.sched.current], s.table.procs;
    var z := FindZombie(a, a[r].kids, t);
    if z in a {
      ReapKept(s, z);
      ProcNow(s, INIT);
    } else if nohang || !HasMatch(a, a[r].kids, t) {
      ProcNow(s, INIT);
    } else {
      GoWaitBlocks(s, t, target);
    }
  }

  lemma ReapKept(s: Sys, z: Ptr)
    requires Inv(s) && z in s.table.procs && z != INIT && s.table.procs[z].pid < |s.table.used|
    ensures var b := Reaped(s.table, z).procs; var a := s.table.procs;
            INIT in b ==> INIT in a && b[INIT].state == a[INIT].state && b[INIT].thread == a[INIT].thread
  {
    hide Inv;
  }

  lemma GoWaitBlocks(s: Sys, t: int, target: int)
    requires CanCall(s) && s.owner[s.sched.current] in s.table.procs && BlockedIn(GoWait(s, t), INIT, target)
    requires WaitsRight(s.table.procs, s.owner[s.sched.current], t)
    ensures BlockedIn(s, INIT, target) || WaitsRight(GoWait(s, t).table.procs, INIT, target)
  {
    hide Inv;
    hide WaitsRight;
    hide Sched.Block;
    Caller(s);
    SchedNow(s);
    BlockSleep(s.sched);
    CallerRuns(s);
    GoWaitFrame(s, t);
    ProcNow(s, INIT);
    if s.owner[s.sched.current] == INIT {
      WaitKids(s, GoWait(s, t), INIT);
      WaitsKept(s.table.procs, GoWait(s, t).table.procs, INIT, t);
    } else {
      ThreadKnown(s, INIT);
    }
  }

  /** In every run a blocked init is waiting for a child that is no zombie, unless some process
      that was not its child has exited with a matching zombie child. */
  lemma {:induction false} InitNoLostWakeup(trace: seq<Sys>, ops: seq<Op>, n: nat, target: int)
    requires Run(trace, ops) && Inv(trace[0]) && n < |trace| && BlockedIn(trace[n], INIT, target)
    requires BlockedIn(trace[0], INIT, target) ==> WaitsRight(trace[0].table.procs, INIT, target)
    requires forall i :: 0 <= i < n ==> !Orphans(trace[i], ops[i], target)
    ensures WaitsRight(trace[n].table.procs, INIT, target)
  {
    hide Inv;
    hide Step;
    hide BlockedIn;
    hide WaitsRight;
    hide Orphans;
    InitThere(trace[n], target);
    if n > 0 {
      RunInv(trace, ops, n - 1);
      assert Step(trace[n - 1], ops[n - 1], trace[n]);
      InitBlocks(trace[n - 1], ops[n - 1], trace[n], target);
      if BlockedIn(trace[n - 1], INIT, target) {
        InitNoLostWakeup(trace, ops, n - 1, target);
        InitMissesIff(trace[n - 1], ops[n - 1], trace[n], target);
      }
    }
  }
}

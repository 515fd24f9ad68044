/** A child whose fork failed half way still counts as a child: waiting for nothing else never ends. */
module StuckWaits {
  import Sched
  import opened DList
  import opened Forest
  import opened System
  import opened SystemRuns

  /** A matching child of `r`, by its parent field. */
  ghost predicate Child(procs: map<Ptr, Proc>, r: Ptr, target: int, c: Ptr) {
    c in procs && procs[c].parent == r && Matches(procs[c], target)
  }

  /** A matching child exists and every one has failed in its creation. */
  ghost predicate OnlyFailed(procs: map<Ptr, Proc>, r: Ptr, target: int) {
    && (exists c :: Child(procs, r, target, c))
    && (forall c :: Child(procs, r, target, c) ==> procs[c].state == Failed)
  }

  ghost predicate WaitsFor(s: Sys, r: Ptr, target: int) {
    && r in s.table.procs && s.table.procs[r].state == Alive
    && s.table.procs[r].thread in s.doing && s.doing[s.table.procs[r].thread] == Waiting(target)
  }

  /** Process `r` is in waitpid and has nothing but failed children to wait for. */
  ghost predicate Stuck(s: Sys, r: Ptr, target: int) { r != INIT && WaitsFor(s, r, target) && OnlyFailed(s.table.procs, r, target) }

  // ----- every step -----

  /** The children of `r` are the same, and none that was not running has changed its state. */
  ghost predicate SameChildren(a: map<Ptr, Proc>, b: map<Ptr, Proc>, r: Ptr) {
    && (forall c :: c in a && a[c].parent == r ==>
          c in b && b[c].parent == r && b[c].pid == a[c].pid && (b[c].state == a[c].state || a[c].state == Alive))
    && (forall c :: c in b && b[c].parent == r ==> c in a && a[c].parent == r)
  }

  lemma ChildrenStay(a: map<Ptr, Proc>, b: map<Ptr, Proc>, r: Ptr, target: int)
    requires SameChildren(a, b, r) && OnlyFailed(a, r, target)
    ensures OnlyFailed(b, r, target)
  {
    var c :| Child(a, r, target, c);
    assert Child(b, r, target, c);
    forall d | Child(b, r, target, d)
      ensures b[d].state == Failed
    {
      assert Child(a, r, target, d);
    }
  }

  /** The caller of a step other than waitpid is in user mode, so it is not a process that waits. */
  lemma OtherCaller(s: Sys, r: Ptr, target: int)
    requires Inv(s) && WaitsFor(s, r, target) && s.sched.current in s.owner && s.sched.current in s.doing
    ensures s.doing[s.sched.current] == User ==> s.owner[s.sched.current] != r
  {
    Caller(s);
  }

  lemma CreatedChildren(t: Table, parent: Ptr, pid: nat, p: Proc, r: Ptr)
    requires t.next !in t.procs && pid < MAX_PIDS && |t.used| == MAX_PIDS && p.parent == parent != r
    ensures SameChildren(t.procs, Created(t, parent, pid).procs[t.next := p], r)
  {
  }

  lemma BirthStuck(s: Sys, parent: Ptr, thread: bool, r: Ptr, target: int)
    requires CanBirth(s, parent) && parent != r && |s.table.used| == MAX_PIDS && s.table.hint < MAX_PIDS && Stuck(s, r, target)
    ensures Stuck(Birth(s, parent, thread), r, target)
  {
    hide Inv;
    hide InUser;
    hide OnlyFailed;
    hide SameChildren;
    ParentAlive(s, parent);
    NextTaskNew(s);
    var pid := PidScan(s.table.used, s.table.hint, 0);
    if pid < MAX_PIDS {
      var q, t := s.table.next, Created(s.table, parent, pid);
      CreatedChildren(s.table, parent, pid, t.procs[q].(state := Failed), r);
      CreatedChildren(s.table, parent, pid, t.procs[q].(thread := s.nextTask), r);
      BornOld(s, parent, pid, thread);
      ChildrenStay(s.table.procs, Born(s, parent, pid, thread).table.procs, r, target);
    }
  }

  /** What exit does to one process, as far as its parent can see. */
  ghost predicate Seen(a: map<Ptr, Proc>, b: map<Ptr, Proc>, q: Ptr, c: Ptr) {
    && c in a && c in b && b[c].pid == a[c].pid && (b[c].state == a[c].state || c == q)
    && (b[c].parent == a[c].parent || (b[c].parent == INIT && a[c].parent == q))
  }

  lemma ExitedOne(t: Table, q: Ptr, status: int, c: Ptr)
    requires CanExit(t, q) && c in t.procs
    ensures Seen(t.procs, ExitedProcs(t.procs, q, status), q, c)
  {
    if c in t.procs[q].kids {
      assert KidOk(t.procs, q, c);
    }
    hide TInv;
    hide KidsOk;
    hide ExitedProcs;
    ExitedIs(t, q, status);
  }

  lemma WokenSeen(a: map<Ptr, Proc>, b: map<Ptr, Proc>, parent: Ptr, q: Ptr, c: Ptr)
    requires Seen(a, b, q, c)
    ensures Seen(a, Woken(b, parent), q, c)
  {
  }

  lemma WokenKeys(t: Table, q: Ptr, status: int, parent: Ptr)
    requires CanExit(t, q)
    ensures Woken(ExitedProcs(t.procs, q, status), parent).Keys == t.procs.Keys
  {
    hide TInv;
    hide KidsOk;
    hide ExitedProcs;
    ExitedIs(t, q, status);
  }

  lemma ExitedChildren(t: Table, q: Ptr, status: int, parent: Ptr, r: Ptr)
    requires CanExit(t, q) && q != r && r != INIT && t.procs[q].state == Alive
    ensures SameChildren(t.procs, Woken(ExitedProcs(t.procs, q, status), parent), r)
  {
    hide KidsOk;
    hide ExitedProcs;
    hide Woken;
    var b := Woken(ExitedProcs(t.procs, q, status), parent);
    WokenKeys(t, q, status, parent);
    forall c | c in t.procs
      ensures Seen(t.procs, b, q, c)
    {
      hide Seen;
      ExitedOne(t, q, status, c);
      WokenSeen(t.procs, ExitedProcs(t.procs, q, status), parent, q, c);
    }
    hide TInv;
  }

  lemma ExitStuck(s: Sys, status: int, r: Ptr, target: int)
    requires CanCall(s) && CanExit(s.table, s.owner[s.sched.current]) && s.owner[s.sched.current] != r && Stuck(s, r, target)
    ensures Stuck(Exit(s, status), r, target)
  {
    hide Inv;
    hide OnlyFailed;
    hide SameChildren;
    hide ExitedProcs;
    Caller(s);
    var q := s.owner[s.sched.current];
    ThreadKnownOf(s, r, target);
    ExitOther(s, status, r);
    ExitedChildren(s.table, q, status, s.table.procs[q].parent, r);
    ChildrenStay(s.table.procs, Exit(s, status).table.procs, r, target);
  }

  lemma ThreadKnownOf(s: Sys, r: Ptr, target: int)
    requires Inv(s) && WaitsFor(s, r, target)
    ensures var t := s.table.procs[r].thread; t in s.owner && s.owner[t] == r
  {
    ProcNow(s, r);
  }

  lemma ReapChildren(t: Table, z: Ptr, r: Ptr)
    requires z in t.procs && t.procs[z].pid < |t.used| && t.procs[z].parent != r && t.procs[z].parent != z
    ensures SameChildren(t.procs, Reaped(t, z).procs, r)
  {
  }

  lemma SameTable(a: map<Ptr, Proc>, b: map<Ptr, Proc>, r: Ptr)
    requires SameShape(a, b) && forall q :: q in a ==> b[q].state == a[q].state
    ensures SameChildren(a, b, r)
  {
  }

  lemma WaitStuck(s: Sys, t: int, nohang: bool, r: Ptr, target: int)
    requires CanCall(s) && s.owner[s.sched.current] in s.table.procs && s.owner[s.sched.current] != r && Stuck(s, r, target)
    requires forall c :: c in s.table.procs ==> s.table.procs[c].pid < |s.table.used|
    ensures Stuck(Wait(s, t, nohang), r, target)
  {
    hide Inv;
    hide OnlyFailed;
    hide SameChildren;
    hide FindZombie;
    hide Reaped;
    hide HasMatch;
    CollectTable(s, t);
    ThreadKnownOf(s, r, target);
    var q, a := s.owner[s.sched.current], s.table.procs;
    var z := FindZombie(a, a[q].kids, t);
    if z in a {
      ReapChildren(s.table, z, r);
      ReapedStays(s.table, z, r);
    } else {
      SameTable(a, Wait(s, t, nohang).table.procs, r);
    }
    ChildrenStay(a, Wait(s, t, nohang).table.procs, r, target);
  }

  lemma ReapedStays(t: Table, z: Ptr, r: Ptr)
    requires z in t.procs && t.procs[z].pid < |t.used| && r in t.procs && t.procs[z].state == Zombie && t.procs[r].state == Alive
    ensures var b := Reaped(t, z).procs; r in b && b[r].state == t.procs[r].state && b[r].thread == t.procs[r].thread
  {
  }

  /** With failed children only, the scan finds nothing and the caller has something to wait for. */
  lemma ScanFindsNone(s: Sys, target: int)
    requires CanCall(s) && s.owner[s.sched.current] in s.table.procs && OnlyFailed(s.table.procs, s.owner[s.sched.current], target)
    ensures var a := s.table.procs; var r := s.owner[s.sched.current];
            FindZombie(a, a[r].kids, target) !in a && HasMatch(a, a[r].kids, target)
  {
    hide Inv;
    hide FindZombie;
    var r, a := s.owner[s.sched.current], s.table.procs;
    CollectTable(s, target);
    var z := FindZombie(a, a[r].kids, target);
    assert z in a ==> Child(a, r, target, z);
    var c :| Child(a, r, target, c);
    ChildListed(s, r, c);
  }

  lemma GoWaitChildren(s: Sys, target: int)
    requires s.sched.current in s.owner && s.owner[s.sched.current] in s.table.procs
    ensures var a, b, r := s.table.procs, GoWait(s, target).table.procs, s.owner[s.sched.current];
            SameChildren(a, b, r) && SameChildren(b, a, r)
  {
    var a, b, r := s.table.procs, GoWait(s, target).table.procs, s.owner[s.sched.current];
    SameTable(a, b, r);
    SameTable(b, a, r);
  }

  lemma GoWaitStuckIff(s: Sys, target: int)
    requires CanCall(s) && s.owner[s.sched.current] in s.table.procs && s.owner[s.sched.current] != INIT
    ensures Stuck(GoWait(s, target), s.owner[s.sched.current], target) <==>
              OnlyFailed(s.table.procs, s.owner[s.sched.current], target)
  {
    hide Inv;
    hide OnlyFailed;
    hide SameChildren;
    hide Sched.Block;
    Caller(s);
    GoWaitChildren(s, target);
    var a, b, r := s.table.procs, GoWait(s, target).table.procs, s.owner[s.sched.current];
    if OnlyFailed(a, r, target) {
      ChildrenStay(a, b, r, target);
    }
    if OnlyFailed(b, r, target) {
      ChildrenStay(b, a, r, target);
    }
  }

  /** The waiting process itself goes back to sleep. */
  lemma OwnPass(s: Sys, target: int)
    requires CanCall(s) && s.owner[s.sched.current] in s.table.procs && Stuck(s, s.owner[s.sched.current], target)
    requires forall c :: c in s.table.procs ==> s.table.procs[c].pid < |s.table.used|
    ensures Stuck(Wait(s, target, false), s.owner[s.sched.current], target)
  {
    hide Inv;
    hide FindZombie;
    hide HasMatch;
    hide GoWait;
    hide OnlyFailed;
    ScanFindsNone(s, target);
    GoWaitStuckIff(s, target);
  }

  lemma ChildListed(s: Sys, r: Ptr, c: Ptr)
    requires Inv(s) && r in s.table.procs
    ensures c in s.table.procs[r].kids <==> c in s.table.procs && s.table.procs[c].parent == r
  {
    NoNull(s);
    if c in s.table.procs[r].kids {
      assert KidOk(s.table.procs, r, c);
    }
    if c in s.table.procs && s.table.procs[c].parent == r {
      assert ParentOk(s.table.procs, c);
    }
  }

  lemma SweepStuck(s: Sys, r: Ptr, target: int)
    requires Inv(s) && InUser(s) && INIT in s.table.procs && Stuck(s, r, target)
    ensures Stuck(Sweep(s, s.table.procs[INIT].kids), r, target)
  {
    hide Inv;
    hide OnlyFailed;
    InitKids(s);
    var a, s' := s.table.procs, Sweep(s, s.table.procs[INIT].kids);
    SweepInv(s, a[INIT].kids);
    ChildrenStay(a, s'.table.procs, r, target);
  }

  lemma StepStuck(s: Sys, op: Op, s': Sys, r: Ptr, target: int)
    requires Inv(s) && Step(s, op, s') && Stuck(s, r, target)
    ensures Stuck(s', r, target)
  {
    hide Inv;
    hide OnlyFailed;
    hide FindZombie;
    NullNotThere(s, r, target);
    if s.sched.current in s.owner && s.sched.current in s.doing {
      OtherCaller(s, r, target);
    }
    match op
    case OpFork(space, thread) =>
      if space {
        BirthStuck(s, s.owner[s.sched.current], thread, r, target);
      }
    case OpSpawn(space, thread) =>
      if space {
        BirthStuck(s, NULL, thread, r, target);
      }
    case OpExit(status) => ExitStuck(s, status, r, target);
    case OpWait(t, nohang) =>
      if s.owner[s.sched.current] == r {
        Caller(s);
        OwnPass(s, target);
      } else {
        WaitStuck(s, t, nohang, r, target);
      }
    case OpSweep =>
      if INIT in s.table.procs {
        SweepStuck(s, r, target);
      }
    case OpYield =>
    case OpPreempt =>
    case OpNewTask =>
    case OpEndTask =>
  }

  lemma NullNotThere(s: Sys, r: Ptr, target: int)
    requires Inv(s) && WaitsFor(s, r, target)
    ensures r != NULL
  {
    NoNull(s);
  }

  // ----- every run -----

  /** Such a process never returns from waitpid, in any run. */
  lemma {:induction false} StuckForever(trace: seq<Sys>, ops: seq<Op>, i: nat, j: nat, r: Ptr, target: int)
    requires Run(trace, ops) && Inv(trace[0]) && i <= j < |trace| && Stuck(trace[i], r, target)
    ensures Stuck(trace[j], r, target)
    decreases j - i
  {
    hide Inv;
    hide Step;
    hide Stuck;
    if i < j {
      StuckForever(trace, ops, i, j - 1, r, target);
      RunInv(trace, ops, j - 1);
      assert Step(trace[j - 1], ops[j - 1], trace[j]);
      StepStuck(trace[j - 1], ops[j - 1], trace[j], r, target);
    }
  }

  /** What can be checked before the call: a blocking waitpid gets stuck exactly if a child
      matches and all that do have failed. */
  lemma WaitStuckIff(s: Sys, target: int, s': Sys)
    requires Inv(s) && Step(s, OpWait(target, false), s') && s.owner[s.sched.current] != INIT
    ensures Stuck(s', s.owner[s.sched.current], target) <==> OnlyFailed(s.table.procs, s.owner[s.sched.current], target)
  {
    hide Inv;
    hide FindZombie;
    hide HasMatch;
    hide OnlyFailed;
    hide Stuck;
    hide GoWait;
    if OnlyFailed(s.table.procs, s.owner[s.sched.current], target) {
      ScanFindsNone(s, target);
    }
    if Stuck(s', s.owner[s.sched.current], target) {
      StillWaits(s, target, s');
    }
    GoWaitStuckIff(s, target);
  }

  /** Only going to sleep leaves the caller in waitpid. */
  lemma StillWaits(s: Sys, target: int, s': Sys)
    requires CanCall(s) && Step(s, OpWait(target, false), s') && Stuck(s', s.owner[s.sched.current], target)
    ensures s' == GoWait(s, target)
  {
    hide Inv;
    hide FindZombie;
    hide HasMatch;
    hide OnlyFailed;
    hide Reaped;
    Caller(s);
    CollectTable(s, target);
    var a, r := s.table.procs, s.owner[s.sched.current];
    var z := FindZombie(a, a[r].kids, target);
    if z in a {
      ReapedStays(s.table, z, r);
    }
  }

  /** The other half: a matching child that did start serves its waiting parent by exiting. It is
      then a zombie that the parent's next pass finds, and the parent runs or is queued. */
  lemma ExitServes(s: Sys, status: int, target: int)
    requires CanCall(s) && CanExit(s.table, s.owner[s.sched.current])
    requires var c := s.owner[s.sched.current]; var r := s.table.procs[c].parent;
             BlockedIn(s, r, target) && Child(s.table.procs, r, target, c)
    ensures var c := s.owner[s.sched.current]; var r := s.table.procs[c].parent; var s' := Exit(s, status);
            && r in s'.table.procs && c in s'.table.procs[r].kids && ZombieFor(s'.table.procs, target, c)
            && (s.table.procs[r].thread == s'.sched.current || s.table.procs[r].thread in s'.sched.queue)
  {
    var c := s.owner[s.sched.current];
    var r := s.table.procs[c].parent;
    ExitWakesParent(s, status, target);
    ParentKnown(s, c);
    ExitInv(s, status);
    ExitSelf(s, status);
    ExitKeepsParent(s, status);
    hide Inv;
    ChildListed(Exit(s, status), r, c);
  }

  lemma ExitKeepsParent(s: Sys, status: int)
    requires CanCall(s) && CanExit(s.table, s.owner[s.sched.current])
    ensures var c := s.owner[s.sched.current]; var b := Exit(s, status).table.procs;
            c in b && b[c].parent == s.table.procs[c].parent && b[c].pid == s.table.procs[c].pid
  {
    hide Inv;
    hide TInv;
    hide KidsOk;
    hide ExitedProcs;
    ExitedIs(s.table, s.owner[s.sched.current], status);
  }
}

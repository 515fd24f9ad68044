/** The process system calls over the stored scheduler and process table. */
module Syscalls {
  import Sched
  import opened DList
  import opened Forest
  import opened System
  import opened SystemRuns
  import opened Tasks
  import opened ProcTable

  const NO_MEM: int := -12
  const NO_CHILD: int := -10

  /** The sweep over values is the sweep of the table. */
  lemma {:induction false} SweepTable(s: Sys, ks: seq<Ptr>)
    ensures Sweep(s, ks).table == ReapAll(s.table, ks)
    ensures Sweep(s, ks) == s.(table := Sweep(s, ks).table, reaped := Sweep(s, ks).reaped)
    decreases |ks|
  {
    if ks != [] {
      if ks[0] in s.table.procs && s.table.procs[ks[0]].state == Zombie && s.table.procs[ks[0]].pid < |s.table.used| {
        SweepTable(ReapOne(s, ks[0]), ks[1..]);
      } else {
        SweepTable(s, ks[1..]);
      }
    }
  }

  /** Exactly the zombies among the children of init are gone. */
  ghost predicate SweptOut(p: map<Ptr, Proc>, p': map<Ptr, Proc>) {
    forall c :: c in p' <==> c in p && !(p[c].parent == INIT && p[c].state == Zombie)
  }

  lemma NoneYet(t: Table)
    requires TInv(t) && INIT !in t.procs
    ensures t.procs == map[]
  {
  }

  /** What waiting for a given pid answers: that pid and its status exactly if the child with it is
      a zombie, an error exactly if no child has it, and blocking or zero exactly if it lives. */
  ghost predicate PidOutcome(procs: map<Ptr, Proc>, kids: seq<Ptr>, target: int, nohang: bool, returned: bool, ret: int, status: int) {
    && (returned && ret == target <==> exists c :: c in kids && c in procs && procs[c].pid == target && procs[c].state == Zombie)
    && (returned && ret == target ==> forall c :: c in kids && c in procs && procs[c].pid == target ==> status == procs[c].status)
    && (returned && ret == NO_CHILD <==> !exists c :: c in kids && c in procs && procs[c].pid == target)
    && (!returned <==> !nohang && exists c :: c in kids && c in procs && procs[c].pid == target && procs[c].state != Zombie)
  }

  /** What waiting for any child answers: pid and status of the first zombie on the list if there is
      one, an error exactly if there is no child, and otherwise blocking or zero. */
  ghost predicate AnyOutcome(procs: map<Ptr, Proc>, kids: seq<Ptr>, nohang: bool, returned: bool, ret: int, status: int) {
    && (forall i :: 0 <= i < |kids| && kids[i] in procs && procs[kids[i]].state == Zombie
                    && (forall j :: 0 <= j < i ==> kids[j] in procs && procs[kids[j]].state != Zombie) ==>
          returned && ret == procs[kids[i]].pid && status == procs[kids[i]].status)
    && (returned && ret == NO_CHILD <==> kids == [])
    && (!returned <==> !nohang && kids != [] && forall c :: c in kids && c in procs ==> procs[c].state != Zombie)
  }

  lemma OutcomeIs(s: Sys, target: int, nohang: bool, returned: bool, ret: int, status: int)
    requires CanCall(s) && s.owner[s.sched.current] in s.table.procs
    requires var a := s.table.procs; var kids := a[s.owner[s.sched.current]].kids; var z := FindZombie(a, kids, target);
             if z in a then returned && ret == a[z].pid && status == a[z].status
             else if !HasMatch(a, kids, target) then returned && ret == NO_CHILD
             else if nohang then returned && ret == 0
             else !returned
    ensures var a := s.table.procs; var kids := a[s.owner[s.sched.current]].kids;
            && (target > 0 ==> PidOutcome(a, kids, target, nohang, returned, ret, status))
            && (target <= 0 ==> AnyOutcome(a, kids, nohang, returned, ret, status))
  {
    var r, a := s.owner[s.sched.current], s.table.procs;
    KidsList(s, r);
    forall c | c in a[r].kids
      ensures c in a
    {
      KidKnown(s, r, c);
    }
    NoNull(s);
    hide Inv;
    ByPid(a, a[r].kids, target, nohang, returned, ret, status);
  }

  lemma ByPid(a: map<Ptr, Proc>, kids: seq<Ptr>, target: int, nohang: bool, returned: bool, ret: int, status: int)
    requires forall r, q :: r in a && q in a && r != q ==> a[r].pid != a[q].pid
    requires NULL !in kids && NULL !in a && NoDup(kids) && forall c :: c in kids ==> c in a
    requires var z := FindZombie(a, kids, target);
             if z in a then returned && ret == a[z].pid && status == a[z].status
             else if !HasMatch(a, kids, target) then returned && ret == NO_CHILD
             else if nohang then returned && ret == 0
             else !returned
    ensures target > 0 ==> PidOutcome(a, kids, target, nohang, returned, ret, status)
    ensures target <= 0 ==> AnyOutcome(a, kids, nohang, returned, ret, status)
  {
    hide FindZombie;
    hide HasMatch;
    var i := FindZombieByPid(a, kids, target);
    HasMatchByPid(a, kids, target);
    var z := FindZombie(a, kids, target);
    if z == NULL {
      NoneCollected(a, kids, target);
    }
    if target > 0 {
      OnePid(a, kids, target);
    }
    if exists k: nat :: CountsBy(a, kids, target, k) {
      var k: nat :| CountsBy(a, kids, target, k);
      assert kids[k] in kids;
    }
    assert target <= 0 && kids != [] ==> CountsBy(a, kids, target, 0);
  }

  lemma NoneCollected(a: map<Ptr, Proc>, kids: seq<Ptr>, target: int)
    requires (forall k: nat :: !CollectsBy(a, kids, target, k)) && forall c :: c in kids ==> c in a
    ensures forall c :: c in kids && (target > 0 ==> a[c].pid == target) ==> a[c].state != Zombie
  {
    if target <= 0 {
      NoZombieUpTo(a, kids, target, |kids|);
    }
    forall c | c in kids && (target > 0 ==> a[c].pid == target)
      ensures a[c].state != Zombie
    {
      var k :| 0 <= k < |kids| && kids[k] == c;
      assert !CollectsBy(a, kids, target, k);
    }
  }

  lemma {:induction false} NoZombieUpTo(a: map<Ptr, Proc>, kids: seq<Ptr>, target: int, n: nat)
    requires (forall k: nat :: !CollectsBy(a, kids, target, k)) && (forall c :: c in kids ==> c in a) && target <= 0 && n <= |kids|
    ensures forall j :: 0 <= j < n ==> a[kids[j]].state != Zombie
  {
    if n > 0 {
      NoZombieUpTo(a, kids, target, n - 1);
      assert !CollectsBy(a, kids, target, n - 1);
    }
  }

  lemma OnePid(a: map<Ptr, Proc>, kids: seq<Ptr>, target: int)
    requires forall c :: c in kids ==> c in a
    ensures forall c :: c in kids && a[c].pid == target ==> exists k: nat :: CountsBy(a, kids, target, k)
  {
    forall c | c in kids && a[c].pid == target
      ensures exists k: nat :: CountsBy(a, kids, target, k)
    {
      var k :| 0 <= k < |kids| && kids[k] == c;
      assert CountsBy(a, kids, target, k);
    }
  }

  class Kernel {
    const sched: Scheduler
    const table: ProcessTable
    var owner: map<Ptr, Ptr>
    var nextTask: Ptr
    ghost var doing: map<Ptr, Doing>
    ghost var exited: map<Ptr, int>
    ghost var collected: map<Ptr, int>
    ghost var reaped: set<Ptr>

    ghost function View(): Sys
      reads this, sched, table
    {
      Sys(sched.View(), table.t, owner, doing, nextTask, exited, collected, reaped)
    }

    ghost predicate Valid()
      reads this, sched, table
    {
      sched.Valid() && table.Valid() && Inv(View())
    }

    /** Boot has ended: the idle task runs and there is no process yet. */
    constructor (boot: Ptr, idle: Ptr)
      requires boot != NULL && idle != NULL && boot != idle
      ensures Valid() && Booted(View()) && fresh(sched) && fresh(table)
    {
      sched := new Scheduler(boot, idle);
      table := new ProcessTable();
      owner := map[];
      nextTask := boot + idle + 1;
      doing := map[];
      exited := map[];
      collected := map[];
      reaped := {};
      new;
      sched.StartScheduler();
      BootedInv(View());
    }

    /** The first matching zombie child, as the loop over the child list finds it. */
    method ScanZombie(r: Ptr, target: int) returns (z: Ptr)
      requires table.Valid() && r in table.t.procs
      ensures z == FindZombie(table.t.procs, table.t.procs[r].kids, target)
      ensures z != NULL ==>
                && z in table.t.procs[r].kids && z in table.t.procs && table.t.procs[z].state == Zombie
                && (target > 0 ==> table.t.procs[z].pid == target)
    {
      hide TInv;
      ZombieHasPid(table.t.procs, table.t.procs[r].kids, target);
      ghost var procs, ks := table.t.procs, table.t.procs[r].kids;
      ParentRec(table.recs, procs, table.childLinks, r);
      var child := table.recs[r].childHead;
      ghost var k := 0;
      assert ks[0..] == ks;
      while child != NULL
        invariant k <= |ks| && (child == NULL <==> k == |ks|) && (k < |ks| ==> child == ks[k])
        invariant FindZombie(procs, ks, target) == FindZombie(procs, ks[k..], target)
        decreases |ks| - k
      {
        Neighbours(table.childLinks, ks, k);
        KidThere(table.t, r, k);
        assert ks[k..][1..] == ks[k + 1..];
        if target <= 0 || table.recs[child].pid == target {
          if table.recs[child].state == Zombie {
            return child;
          }
          if target > 0 {
            return NULL;
          }
        }
        child := table.childLinks[child].next;
        k := k + 1;
      }
      z := NULL;
    }

    method ScanMatch(r: Ptr, target: int) returns (found: bool)
      requires table.Valid() && r in table.t.procs
      ensures found <==> HasMatch(table.t.procs, table.t.procs[r].kids, target)
    {
      hide TInv;
      ghost var procs, ks := table.t.procs, table.t.procs[r].kids;
      ParentRec(table.recs, procs, table.childLinks, r);
      var child := table.recs[r].childHead;
      ghost var k := 0;
      while child != NULL
        invariant k <= |ks| && (child == NULL <==> k == |ks|) && (k < |ks| ==> child == ks[k])
        invariant forall j :: 0 <= j < k ==> ks[j] in procs && !Matches(procs[ks[j]], target)
        decreases |ks| - k
      {
        Neighbours(table.childLinks, ks, k);
        KidThere(table.t, r, k);
        if target <= 0 || table.recs[child].pid == target {
          assert ks[k] in ks;
          return true;
        }
        child := table.childLinks[child].next;
        k := k + 1;
      }
      found := false;
    }

    /** Makes a process and its thread and queues the thread. */
    method Beget(parent: Ptr, thread: bool) returns (ret: int)
      requires Valid() && CanBirth(View(), parent)
      modifies this, sched, table
      ensures Valid() && |old(View()).table.used| == MAX_PIDS && old(View()).table.hint < MAX_PIDS
      ensures View() == Birth(old(View()), parent, thread)
      ensures ret >= 0 <==> thread && exists p :: 0 <= p < MAX_PIDS && !old(View()).table.used[p]
      ensures ret >= 0 ==> var r := old(View()).table.next; r in table.t.procs && table.t.procs[r].pid == ret && table.t.procs[r].parent == parent
    {
      hide Inv;
      hide TInv;
      hide Created;
      hide Stands;
      hide KidLists;
      hide IsList;
      hide CanBirth;
      hide PidScan;
      hide Sched.Enqueue;
      hide Sched.Inv;
      hide CanExit;
      hide Sleeps;
      hide NoDup;
      ghost var s := View();
      BirthInv(s, parent, thread);
      ParentAlive(s, parent);
      NextTaskNew(s);
      TaskNew(s);
      PidRefusedIff(s.table.used, s.table.hint);
      var child := table.ProcessCreate(parent);
      if child == NULL {
        YoungTable(s.table);
        return NO_MEM;
      }
      ghost var pid := PidScan(s.table.used, s.table.hint, 0);
      ChildRec(s.table, parent, pid);
      ret := Furnish(child, thread, s, parent, pid);
    }

    /** Completes a new process, or marks it as failed. */
    method Furnish(child: Ptr, thread: bool, ghost s: Sys, ghost parent: Ptr, ghost pid: nat) returns (ret: int)
      requires table.Valid() && sched.Valid() && pid < MAX_PIDS == |s.table.used| && child == s.table.next
      requires table.t == Created(s.table, parent, pid) && View() == s.(table := table.t)
      requires child in table.t.procs && table.t.procs[child] == Proc(pid, Alive, 0, parent, [], NULL, NULL)
      requires s.nextTask !in s.sched.state && s.nextTask != NULL && s.nextTask !in s.sched.queue
      modifies this, sched, table
      ensures table.Valid() && sched.Valid() && View() == Born(s, parent, pid, thread)
      ensures ret >= 0 <==> thread
      ensures ret >= 0 ==> child in table.t.procs && table.t.procs[child].pid == ret && table.t.procs[child].parent == parent
    {
      hide Inv;
      hide TInv;
      hide Created;
      hide Stands;
      hide KidLists;
      hide IsList;
      hide NoDup;
      hide Sched.Enqueue;
      hide Sched.Inv;
      RecOfChild(table.recs, table.t.procs, child);
      if !thread {
        table.SetRecord(child, Failed, NULL, NULL);
        return NO_MEM;
      }
      AddThread(child);
      RecOfChild(table.recs, table.t.procs, child);
      ret := table.recs[child].pid;
    }

    /** Gives a process its thread and queues it. */
    method AddThread(child: Ptr)
      requires table.Valid() && sched.Valid() && child in table.t.procs && table.t.procs[child].state == Alive
      requires table.t.procs[child].waiter == NULL && nextTask !in sched.states && nextTask != NULL && nextTask !in sched.queue
      modifies `owner, `nextTask, `doing, sched, table
      ensures table.Valid() && sched.Valid() && sched.View() == Sched.Enqueue(old(sched.View()), old(nextTask))
      ensures table.t == old(table.t).(procs := old(table.t).procs[child := old(table.t).procs[child].(thread := old(nextTask))])
      ensures owner == old(owner)[old(nextTask) := child] && doing == old(doing)[old(nextTask) := User] && nextTask == old(nextTask) + 1
    {
      hide TInv;
      hide Stands;
      hide KidLists;
      hide IsList;
      var task := nextTask;
      nextTask := nextTask + 1;
      table.SetRecord(child, Alive, task, NULL);
      owner := owner[task := child];
      doing := doing[task := User];
      sched.DoEnqueue(task);
    }

    method SysFork(space: bool, thread: bool) returns (ret: int)
      requires Valid() && Allowed(View(), OpFork(space, thread))
      modifies this, sched, table
      ensures Valid() && Step(old(View()), OpFork(space, thread), View())
      ensures ret >= 0 <==> space && thread && exists p :: 0 <= p < MAX_PIDS && !old(View()).table.used[p]
      ensures ret >= 0 ==> var r := old(View()).table.next; r in table.t.procs && table.t.procs[r].pid == ret && table.t.procs[r].parent == old(View()).owner[old(View()).sched.current]
    {
      hide Inv;
      hide TInv;
      hide Birth;
      HintOk(View());
      if !space {
        return NO_MEM;
      }
      ret := Beget(owner[sched.current], thread);
    }

    method Spawn(space: bool, thread: bool) returns (ret: int)
      requires Valid() && Allowed(View(), OpSpawn(space, thread))
      modifies this, sched, table
      ensures Valid() && Step(old(View()), OpSpawn(space, thread), View())
      ensures ret >= 0 <==> space && thread && exists p :: 0 <= p < MAX_PIDS && !old(View()).table.used[p]
      ensures ret >= 0 ==> var r := old(View()).table.next; r in table.t.procs && table.t.procs[r].pid == ret && table.t.procs[r].parent == NULL
    {
      hide Inv;
      hide TInv;
      hide Birth;
      HintOk(View());
      if !space {
        return NO_MEM;
      }
      ret := Beget(NULL, thread);
    }

    /** Wakes whoever waits for children of the parent of `r`, if there is one. */
    method WakeParent(r: Ptr)
      requires table.Valid() && sched.Valid() && Sched.Inv(sched.View()) && r in table.t.procs
      requires var p := table.t.procs[r].parent;
               p == NULL || (p in table.t.procs && (table.t.procs[p].waiter == NULL || table.t.procs[p].waiter in sched.states))
      requires NULL !in table.t.procs
      modifies sched, table
      ensures table.Valid() && sched.Valid() && Sched.Inv(sched.View())
      ensures sched.View() == Sched.Wake(old(sched.View()), WaiterOf(old(table.t).procs, old(table.t).procs[r].parent))
      ensures table.t == old(table.t).(procs := Woken(old(table.t).procs, old(table.t).procs[r].parent))
    {
      hide TInv;
      hide Sched.Inv;
      hide Stands;
      hide KidLists;
      hide IsList;
      WakeNothing(sched.View());
      RecOfChild(table.recs, table.t.procs, r);
      var parent := table.recs[r].parent;
      if parent != NULL {
        RecOfChild(table.recs, table.t.procs, parent);
        var waiter := table.recs[parent].waiter;
        if waiter != NULL {
          sched.DoWake(waiter);
          table.SetRecord(parent, table.recs[parent].state, table.recs[parent].thread, NULL);
        }
        assert table.t.procs == Woken(old(table.t).procs, parent);
      }
    }

    /** The process becomes a zombie, its parent is woken and the thread sleeps for good. */
    method SysExit(status: int)
      requires Valid() && Allowed(View(), OpExit(status))
      modifies this, sched, table
      ensures Valid() && Step(old(View()), OpExit(status), View())
    {
      hide Inv;
      hide TInv;
      hide Sched.Inv;
      hide ExitedProcs;
      hide Stands;
      hide KidLists;
      hide IsList;
      hide Sched.Block;
      hide KidsOk;
      ghost var s := View();
      var t := sched.current;
      var r := owner[t];
      ExitInv(s, status);
      Caller(s);
      ExitWaiter(s, status);
      Sizes(s.table);
      SchedNow(s);
      table.MarkExit(r, status);
      WakeParent(r);
      sched.DoBlock();
      doing := doing[t := Ended];
      exited := exited[r := status];
    }

    /** One pass of the waitpid loop. Either it returns, with the collected status if a
        zombie was found, or the thread has blocked and the loop will be entered again. */
    method WaitPass(target: int, nohang: bool) returns (returned: bool, ret: int, status: int)
      requires Valid() && Allowed(View(), OpWait(target, nohang))
      modifies this, sched, table
      ensures Valid() && Step(old(View()), OpWait(target, nohang), View())
      ensures var s := old(View()); var r := s.owner[s.sched.current];
              var z := FindZombie(s.table.procs, s.table.procs[r].kids, target);
              z in s.table.procs ==> returned && ret == s.table.procs[z].pid && status == s.table.procs[z].status
      ensures var s := old(View()); var r := s.owner[s.sched.current];
              && (target > 0 ==> PidOutcome(s.table.procs, s.table.procs[r].kids, target, nohang, returned, ret, status))
              && (target <= 0 ==> AnyOutcome(s.table.procs, s.table.procs[r].kids, nohang, returned, ret, status))
    {
      hide Inv;
      hide TInv;
      hide Step;
      hide FindZombie;
      hide HasMatch;
      hide PidOutcome;
      hide AnyOutcome;
      ghost var s := View();
      Caller(s);
      returned, ret, status := ScanAndWait(target, nohang);
      OutcomeIs(s, target, nohang, returned, ret, status);
    }

    /** The pass itself: scan for a zombie, then for anything to wait for. */
    method ScanAndWait(target: int, nohang: bool) returns (returned: bool, ret: int, status: int)
      requires Valid() && Allowed(View(), OpWait(target, nohang))
      modifies this, sched, table
      ensures Valid() && Step(old(View()), OpWait(target, nohang), View())
      ensures var s := old(View()); var r := s.owner[s.sched.current];
              var z := FindZombie(s.table.procs, s.table.procs[r].kids, target);
              if z in s.table.procs then returned && ret == s.table.procs[z].pid && status == s.table.procs[z].status
              else if !HasMatch(s.table.procs, s.table.procs[r].kids, target) then returned && ret == NO_CHILD
              else if nohang then returned && ret == 0
              else !returned
    {
      hide Inv;
      hide TInv;
      hide Sched.Inv;
      hide Stands;
      hide KidLists;
      hide IsList;
      hide Sched.Block;
      hide FindZombie;
      hide HasMatch;
      hide CanExit;
      hide Reaped;
      ghost var s := View();
      WaitInv(s, target, nohang);
      Caller(s);
      SchedNow(s);
      CollectTable(s, target);
      NoNull(s);
      var t := sched.current;
      var r := owner[t];
      status := 0;
      var z := ScanZombie(r, target);
      FoundOrNull(s, target);
      if z != NULL {
        RecOfChild(table.recs, table.t.procs, z);
        status := table.recs[z].status;
        ret := table.recs[z].pid;
        table.ReapProcess(z);
        collected := collected[z := status];
        doing := doing[t := User];
        return true, ret, status;
      }
      var has := ScanMatch(r, target);
      if !has {
        doing := doing[t := User];
        return true, NO_CHILD, status;
      }
      if nohang {
        doing := doing[t := User];
        return true, 0, status;
      }
      RecOfChild(table.recs, table.t.procs, r);
      table.SetRecord(r, table.recs[r].state, table.recs[r].thread, t);
      sched.DoBlock();
      doing := doing[t := Waiting(target)];
      return false, 0, status;
    }

    method ReapInit()
      requires Valid() && Allowed(View(), OpSweep)
      modifies this, table
      ensures Valid() && Step(old(View()), OpSweep, View()) && SweptOut(old(View()).table.procs, View().table.procs)
    {
      hide Inv;
      hide TInv;
      hide Stands;
      hide KidLists;
      hide IsList;
      ghost var s := View();
      if INIT in s.table.procs {
        InitKids(s);
        SweepInv(s, s.table.procs[INIT].kids);
        SweepTable(s, s.table.procs[INIT].kids);
        SweepExactly(s);
      } else {
        NoneYet(s.table);
      }
      table.ReapZombiesOfInit();
      if INIT in s.table.procs {
        reaped := Sweep(s, s.table.procs[INIT].kids).reaped;
      }
    }

    method Reschedule(voluntary: bool)
      requires Valid() && InUser(View()) && sched.active
      modifies this, sched
      ensures Valid() && Step(old(View()), if voluntary then OpYield else OpPreempt, View())
    {
      hide Inv;
      hide TInv;
      ghost var s := View();
      YieldInv(s);
      SchedNow(s);
      if voluntary {
        sched.DoYield();
      } else {
        sched.DoPreempt();
      }
    }
  }

  lemma FoundOrNull(s: Sys, target: int)
    requires CanCall(s) && s.owner[s.sched.current] in s.table.procs
    ensures var r := s.owner[s.sched.current]; var z := FindZombie(s.table.procs, s.table.procs[r].kids, target);
            z == NULL || z in s.table.procs
  {
    var r := s.owner[s.sched.current];
    KidsList(s, r);
    FindZombieIs(s.table.procs, s.table.procs[r].kids, target);
  }

  /** After the process is marked its parent and the parent's waiter are still known. */
  lemma ExitWaiter(s: Sys, status: int)
    requires CanCall(s) && CanExit(s.table, s.owner[s.sched.current])
    ensures var r := s.owner[s.sched.current]; var p' := ExitedProcs(s.table.procs, r, status);
            && r in p' && NULL !in p' && p'[r].parent == s.table.procs[r].parent
            && var p := p'[r].parent; p == NULL || (p in p' && (p'[p].waiter == NULL || p'[p].waiter in s.sched.state))
  {
    var r := s.owner[s.sched.current];
    ParentKnown(s, r);
    ExitedIs(s.table, r, status);
    var p := s.table.procs[r].parent;
    if p != NULL {
      ProcNow(s, p);
      if s.table.procs[p].waiter != NULL {
        ThreadKnown(s, p);
      }
    }
    hide ExitedProcs;
    hide Inv;
  }

  lemma TaskNew(s: Sys)
    requires Inv(s)
    ensures s.nextTask !in s.sched.queue
  {
    NextTaskNew(s);
  }

  lemma YoungTable(t: Table)
    requires TInv(t)
    ensures t.next != NULL
  {
  }

  lemma ChildRec(t: Table, parent: Ptr, pid: nat)
    requires TInv(t) && pid < MAX_PIDS
    ensures |t.used| == MAX_PIDS && t.next != NULL
    ensures var t' := Created(t, parent, pid); t.next in t'.procs && t'.procs[t.next] == Proc(pid, Alive, 0, parent, [], NULL, NULL)
  {
  }

  lemma RecOfChild(recs: map<Ptr, Rec>, procs: map<Ptr, Proc>, r: Ptr)
    requires Stands(recs, procs) && r in procs
    ensures r in recs && recs[r] == RecOf(procs[r])
  {
  }

  lemma WakeNothing(s: Sched.State)
    requires Sched.Inv(s)
    ensures Sched.Wake(s, NULL) == s
  {
  }

  lemma KidThere(t: Table, r: Ptr, k: nat)
    requires TInv(t) && r in t.procs && k < |t.procs[r].kids|
    ensures t.procs[r].kids[k] in t.procs
  {
    assert t.procs[r].kids[k] in t.procs[r].kids;
    assert KidOk(t.procs, r, t.procs[r].kids[k]);
  }
}

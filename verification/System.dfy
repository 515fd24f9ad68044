/** Fork, exit, waitpid and the scheduler as one step machine. Every step is what one task
    does from one point where it can lose the CPU to the next. */
module System {
  import Sched
  import opened DList
  import opened Forest

  /** What a thread does when it next runs. */
  datatype Doing = User | Waiting(target: int) | Ended

  /** `owner` maps threads to processes; tasks outside it belong to the kernel. The last
      three fields record each exit status, each status collected and what init's reaper took. */
  datatype Sys = Sys(sched: Sched.State, table: Table, owner: map<Ptr, Ptr>, doing: map<Ptr, Doing>, nextTask: Ptr,
                     exited: map<Ptr, int>, collected: map<Ptr, int>, reaped: set<Ptr>)

  // ----- matching children -----

  predicate Matches(p: Proc, target: int) { target <= 0 || p.pid == target }

  /** The scan of the child list for a zombie; a given pid is looked for only once. */
  ghost function FindZombie(procs: map<Ptr, Proc>, kids: seq<Ptr>, target: int): Ptr {
    if kids == [] then NULL
    else if kids[0] in procs && Matches(procs[kids[0]], target) && procs[kids[0]].state == Zombie then kids[0]
    else if kids[0] in procs && Matches(procs[kids[0]], target) && target > 0 then NULL
    else FindZombie(procs, kids[1..], target)
  }

  ghost predicate ZombieFor(procs: map<Ptr, Proc>, target: int, c: Ptr) {
    c in procs && Matches(procs[c], target) && procs[c].state == Zombie
  }

  ghost predicate HasMatch(procs: map<Ptr, Proc>, kids: seq<Ptr>, target: int) {
    exists c :: c in kids && c in procs && Matches(procs[c], target)
  }

  ghost predicate NoZombie(procs: map<Ptr, Proc>, kids: seq<Ptr>, target: int) {
    forall c {:trigger ZombieFor(procs, target, c)} :: c in kids ==> !ZombieFor(procs, target, c)
  }

  /** The scan finds a matching zombie exactly if there is one. */
  lemma {:induction false} FindZombieIs(procs: map<Ptr, Proc>, kids: seq<Ptr>, target: int)
    requires forall r, q :: r in procs && q in procs && r != q ==> procs[r].pid != procs[q].pid
    requires NULL !in kids && NoDup(kids)
    ensures var z := FindZombie(procs, kids, target);
            if z == NULL then NoZombie(procs, kids, target) else z in kids && ZombieFor(procs, target, z)
  {
    if kids != [] {
      FindZombieIs(procs, kids[1..], target);
      assert forall c :: c in kids <==> c == kids[0] || c in kids[1..];
      assert kids[0] !in kids[1..];
    }
  }

  /** The child that a zombie is collected from: with a pid given, the one with that pid; otherwise
      the first on the list that is a zombie. */
  ghost predicate CollectsBy(procs: map<Ptr, Proc>, kids: seq<Ptr>, target: int, i: nat) {
    && i < |kids| && kids[i] in procs && procs[kids[i]].state == Zombie
    && (target > 0 ==> procs[kids[i]].pid == target)
    && (target <= 0 ==> forall j :: 0 <= j < i ==> kids[j] in procs ==> procs[kids[j]].state != Zombie)
  }

  /** A child that the call can wait for: the one with the pid given, or any. */
  ghost predicate CountsBy(procs: map<Ptr, Proc>, kids: seq<Ptr>, target: int, i: nat) {
    i < |kids| && kids[i] in procs && (target > 0 ==> procs[kids[i]].pid == target)
  }

  /** The scan in terms of pids. */
  lemma {:induction false} FindZombieByPid(procs: map<Ptr, Proc>, kids: seq<Ptr>, target: int) returns (i: nat)
    requires forall r, q :: r in procs && q in procs && r != q ==> procs[r].pid != procs[q].pid
    requires NULL !in kids && NoDup(kids)
    ensures var z := FindZombie(procs, kids, target);
            if z == NULL then forall k: nat :: !CollectsBy(procs, kids, target, k)
            else CollectsBy(procs, kids, target, i) && z == kids[i]
  {
    i := 0;
    if kids != [] {
      var k := FindZombieByPid(procs, kids[1..], target);
      var z := FindZombie(procs, kids, target);
      if z == NULL {
        forall j: nat
          ensures !CollectsBy(procs, kids, target, j)
        {
          if CollectsBy(procs, kids, target, j) && j > 0 {
            assert kids[1..][j - 1] == kids[j];
            assert CollectsBy(procs, kids[1..], target, j - 1);
          }
        }
      } else if z != kids[0] {
        i := k + 1;
        assert forall j :: 0 < j < |kids| ==> kids[1..][j - 1] == kids[j];
      }
    }
  }

  /** What the scan finds is a zombie child, with the pid asked for if one was given. */
  lemma {:induction false} ZombieHasPid(procs: map<Ptr, Proc>, kids: seq<Ptr>, target: int)
    ensures var z := FindZombie(procs, kids, target);
            z != NULL ==> z in kids && z in procs && procs[z].state == Zombie && (target > 0 ==> procs[z].pid == target)
  {
    if kids != [] {
      ZombieHasPid(procs, kids[1..], target);
    }
  }

  lemma HasMatchByPid(procs: map<Ptr, Proc>, kids: seq<Ptr>, target: int)
    ensures HasMatch(procs, kids, target) <==> exists i: nat :: CountsBy(procs, kids, target, i)
  {
    if HasMatch(procs, kids, target) {
      var c :| c in kids && c in procs && Matches(procs[c], target);
      var i :| 0 <= i < |kids| && kids[i] == c;
      assert CountsBy(procs, kids, target, i);
    }
    if exists i: nat :: CountsBy(procs, kids, target, i) {
      var i: nat :| CountsBy(procs, kids, target, i);
      assert kids[i] in kids;
    }
  }

  // ----- invariant -----

  ghost predicate Sleeps(st: map<Ptr, Sched.TState>, t: Ptr) { t in st && st[t] == Sched.Blocked }

  ghost predicate Runs(procs: map<Ptr, Proc>, r: Ptr, t: Ptr) {
    r in procs && procs[r].state == Alive && procs[r].thread == t
  }

  ghost predicate ThreadOk(procs: map<Ptr, Proc>, owner: map<Ptr, Ptr>, doing: map<Ptr, Doing>, st: map<Ptr, Sched.TState>, t: Ptr)
    requires t in owner && t in doing
  {
    && t in st
    && (doing[t] == Ended ==> Sleeps(st, t))
    && (doing[t] == User ==> !Sleeps(st, t))
    && (doing[t] != Ended ==> Runs(procs, owner[t], t))
  }

  /** A blocked waiter is waiting for something: a child matches and none of those is a zombie. */
  ghost predicate WaitsRight(procs: map<Ptr, Proc>, r: Ptr, target: int)
    requires r in procs
  {
    HasMatch(procs, procs[r].kids, target) && NoZombie(procs, procs[r].kids, target)
  }

  ghost predicate ProcOk(procs: map<Ptr, Proc>, owner: map<Ptr, Ptr>, doing: map<Ptr, Doing>, st: map<Ptr, Sched.TState>, r: Ptr)
    requires r in procs
  {
    var p := procs[r];
    && (p.thread != NULL ==> p.thread in owner && owner[p.thread] == r && p.thread in doing)
    && (p.state == Alive ==> p.thread != NULL && doing[p.thread] != Ended)
    && (p.waiter != NULL ==> p.waiter == p.thread && doing[p.thread].Waiting? && Sleeps(st, p.thread))
    && (p.state == Alive && doing[p.thread].Waiting? && Sleeps(st, p.thread) ==>
          p.waiter == p.thread && (r != INIT ==> WaitsRight(procs, r, doing[p.thread].target)))
  }

  /** An exit status is kept with the zombie until it is collected or init's reaper takes it. */
  ghost predicate StatusOk(s: Sys) {
    && (forall z :: z in s.exited ==> z < s.table.next)
    && (forall z :: z in s.exited && z in s.table.procs ==>
          s.table.procs[z].state == Zombie && s.table.procs[z].status == s.exited[z])
    && (forall z :: z in s.exited && z !in s.table.procs ==>
          (z in s.collected && s.collected[z] == s.exited[z]) || z in s.reaped)
    && (forall z :: z in s.table.procs && s.table.procs[z].state == Zombie ==> z in s.exited)
    && (forall z :: z in s.collected || z in s.reaped ==> z in s.exited && z !in s.table.procs)
  }

  ghost predicate ThreadsOk(s: Sys) {
    && s.owner.Keys == s.doing.Keys && s.sched.idle !in s.owner
    && (forall t :: t in s.sched.state ==> t < s.nextTask)
    && (forall t {:trigger ThreadOk(s.table.procs, s.owner, s.doing, s.sched.state, t)} :: t in s.owner ==>
          ThreadOk(s.table.procs, s.owner, s.doing, s.sched.state, t))
  }

  ghost predicate ProcsOk(s: Sys) {
    forall r {:trigger ProcOk(s.table.procs, s.owner, s.doing, s.sched.state, r)} :: r in s.table.procs ==>
      ProcOk(s.table.procs, s.owner, s.doing, s.sched.state, r)
  }

  ghost predicate Inv(s: Sys) {
    Sched.Inv(s.sched) && TInv(s.table) && ThreadsOk(s) && ProcsOk(s) && StatusOk(s)
  }

  // ----- steps -----

  ghost predicate InUser(s: Sys) { s.sched.current in s.owner ==> s.sched.current in s.doing && s.doing[s.sched.current] == User }

  ghost function Yield(s: Sys): Sys { s.(sched := Sched.Yield(s.sched)) }

  ghost function Preempt(s: Sys): Sys { s.(sched := Sched.Preempt(s.sched)) }

  ghost function NewTask(s: Sys): Sys { s.(sched := Sched.Enqueue(s.sched, s.nextTask), nextTask := s.nextTask + 1) }

  ghost function EndTask(s: Sys): Sys { s.(sched := Sched.Finish(s.sched)) }

  /** A new process with a given pid; its thread is made last and may fail. */
  ghost function Born(s: Sys, parent: Ptr, pid: nat, thread: bool): Sys
    requires |s.table.used| == MAX_PIDS && pid < MAX_PIDS
  {
    var r, t := s.table.next, Created(s.table, parent, pid);
    if !thread then s.(table := t.(procs := t.procs[r := t.procs[r].(state := Failed)]))
    else s.(table := t.(procs := t.procs[r := t.procs[r].(thread := s.nextTask)]),
            sched := Sched.Enqueue(s.sched, s.nextTask),
            owner := s.owner[s.nextTask := r], doing := s.doing[s.nextTask := User], nextTask := s.nextTask + 1)
  }

  /** A new process, unless all pids are taken. */
  ghost function Birth(s: Sys, parent: Ptr, thread: bool): Sys
    requires |s.table.used| == MAX_PIDS && s.table.hint < MAX_PIDS
  {
    var pid := PidScan(s.table.used, s.table.hint, 0);
    if pid == MAX_PIDS then s else Born(s, parent, pid, thread)
  }

  ghost function Woken(procs: map<Ptr, Proc>, parent: Ptr): map<Ptr, Proc> {
    if parent in procs then procs[parent := procs[parent].(waiter := NULL)] else procs
  }

  ghost function WaiterOf(procs: map<Ptr, Proc>, parent: Ptr): Ptr {
    if parent in procs then procs[parent].waiter else NULL
  }

  ghost function Exit(s: Sys, status: int): Sys
    requires s.sched.current in s.owner && CanExit(s.table, s.owner[s.sched.current])
  {
    var t := s.sched.current;
    var r := s.owner[t];
    var procs := ExitedProcs(s.table.procs, r, status);
    var parent := s.table.procs[r].parent;
    s.(table := s.table.(procs := Woken(procs, parent)),
       sched := Sched.Block(Sched.Wake(s.sched, WaiterOf(procs, parent))),
       doing := s.doing[t := Ended], exited := s.exited[r := status])
  }

  /** The caller records itself as waiter and blocks. */
  ghost function GoWait(s: Sys, target: int): Sys
    requires s.sched.current in s.owner && s.owner[s.sched.current] in s.table.procs
  {
    var t, procs := s.sched.current, s.table.procs;
    var r := s.owner[t];
    s.(table := s.table.(procs := procs[r := procs[r].(waiter := t)]), sched := Sched.Block(s.sched),
       doing := s.doing[t := Waiting(target)])
  }

  /** One pass of waitpid: collect a zombie, return at once, or block. */
  ghost function Wait(s: Sys, target: int, nohang: bool): Sys
    requires s.sched.current in s.owner && s.owner[s.sched.current] in s.table.procs
    requires forall c :: c in s.table.procs ==> s.table.procs[c].pid < |s.table.used|
  {
    var t := s.sched.current;
    var r := s.owner[t];
    var procs := s.table.procs;
    var z := FindZombie(procs, procs[r].kids, target);
    if z in procs then s.(table := Reaped(s.table, z), doing := s.doing[t := User], collected := s.collected[z := procs[z].status])
    else if nohang || !HasMatch(procs, procs[r].kids, target) then s.(doing := s.doing[t := User])
    else GoWait(s, target)
  }

  ghost function ReapOne(s: Sys, z: Ptr): Sys
    requires z in s.table.procs && s.table.procs[z].pid < |s.table.used|
  {
    s.(table := Reaped(s.table, z), reaped := s.reaped + {z})
  }

  /** The kernel's periodic sweep over the children of init. */
  ghost function Sweep(s: Sys, ks: seq<Ptr>): Sys
    decreases |ks|
  {
    if ks == [] then s
    else if ks[0] in s.table.procs && s.table.procs[ks[0]].state == Zombie && s.table.procs[ks[0]].pid < |s.table.used|
    then Sweep(ReapOne(s, ks[0]), ks[1..])
    else Sweep(s, ks[1..])
  }

  // ----- threads and states -----

  /** Only `t` may have changed between asleep and awake. */
  ghost predicate SameSleep(st: map<Ptr, Sched.TState>, st': map<Ptr, Sched.TState>, but: set<Ptr>) {
    forall t :: t in st && t !in but ==> t in st' && (Sleeps(st', t) <==> Sleeps(st, t))
  }

  lemma YieldSleep(s: Sched.State)
    requires Sched.Inv(s)
    ensures SameSleep(s.state, Sched.Yield(s).state, {}) && Sched.Yield(s).state.Keys == s.state.Keys
    ensures SameSleep(s.state, Sched.Preempt(s).state, {}) && Sched.Preempt(s).state.Keys == s.state.Keys
  {
  }

  /** A step of the scheduler that wakes nobody and puts nobody to sleep. */
  lemma SchedStepInv(s: Sys, sched: Sched.State)
    requires Inv(s) && Sched.Inv(sched) && SameSleep(s.sched.state, sched.state, {})
    requires sched.state.Keys == s.sched.state.Keys && sched.idle == s.sched.idle
    ensures Inv(s.(sched := sched))
  {
    hide Sched.Inv;
    hide TInv;
    var s' := s.(sched := sched);
    forall t | t in s'.owner
      ensures ThreadOk(s'.table.procs, s'.owner, s'.doing, s'.sched.state, t)
    {
      assert ThreadOk(s.table.procs, s.owner, s.doing, s.sched.state, t);
    }
    forall r | r in s'.table.procs
      ensures ProcOk(s'.table.procs, s'.owner, s'.doing, s'.sched.state, r)
    {
      assert ProcOk(s.table.procs, s.owner, s.doing, s.sched.state, r);
      var th := s.table.procs[r].thread;
      if th != NULL {
        assert ThreadOk(s.table.procs, s.owner, s.doing, s.sched.state, th);
      }
    }
  }

  lemma YieldInv(s: Sys)
    requires Inv(s)
    ensures Inv(Yield(s)) && Inv(Preempt(s))
  {
    hide Sched.Inv;
    hide TInv;
    hide ThreadsOk;
    hide ProcsOk;
    hide StatusOk;
    hide SameSleep;
    Sched.YieldInv(s.sched);
    Sched.PreemptInv(s.sched);
    YieldSleep(s.sched);
    SchedStepInv(s, Sched.Yield(s.sched));
    SchedStepInv(s, Sched.Preempt(s.sched));
  }

  // ----- what a step must leave alone -----

  /** The children of `q` look the same. */
  ghost predicate SameKidsOf(procs: map<Ptr, Proc>, procs': map<Ptr, Proc>, q: Ptr)
    requires q in procs && q in procs'
  {
    && procs'[q].kids == procs[q].kids
    && forall c :: c in procs[q].kids ==>
         c in procs && c in procs' && procs'[c].pid == procs[c].pid && procs'[c].state == procs[c].state
  }

  lemma WaitsKept(procs: map<Ptr, Proc>, procs': map<Ptr, Proc>, q: Ptr, target: int)
    requires q in procs && q in procs' && SameKidsOf(procs, procs', q) && WaitsRight(procs, q, target)
    ensures WaitsRight(procs', q, target)
  {
    var c :| c in procs[q].kids && c in procs && Matches(procs[c], target);
    assert c in procs' && Matches(procs'[c], target);
    forall d | d in procs'[q].kids
      ensures !ZombieFor(procs', target, d)
    {
      assert !ZombieFor(procs, target, d);
    }
  }

  lemma ProcKept(s: Sys, s': Sys, q: Ptr)
    requires var a, b := s.table.procs, s'.table.procs;
             && q in a && q in b && ProcOk(a, s.owner, s.doing, s.sched.state, q)
             && b[q].state == a[q].state && b[q].thread == a[q].thread && b[q].waiter == a[q].waiter
             && (a[q].thread != NULL ==>
                   && a[q].thread in s'.owner && s'.owner[a[q].thread] == q
                   && a[q].thread in s'.doing && s'.doing[a[q].thread] == s.doing[a[q].thread]
                   && (Sleeps(s'.sched.state, a[q].thread) <==> Sleeps(s.sched.state, a[q].thread))
                   && (Sleeps(s.sched.state, a[q].thread) && q != INIT && a[q].state == Alive ==> SameKidsOf(a, b, q)))
    ensures ProcOk(s'.table.procs, s'.owner, s'.doing, s'.sched.state, q)
  {
    var a, b := s.table.procs, s'.table.procs;
    var t := a[q].thread;
    if a[q].state == Alive && s.doing[t].Waiting? && Sleeps(s.sched.state, t) && q != INIT {
      WaitsKept(a, b, q, s.doing[t].target);
    }
  }

  lemma ThreadKept(s: Sys, s': Sys, t: Ptr)
    requires t in s.owner && t in s.doing && ThreadOk(s.table.procs, s.owner, s.doing, s.sched.state, t)
    requires t in s'.owner && s'.owner[t] == s.owner[t] && t in s'.doing && s'.doing[t] == s.doing[t]
    requires t in s'.sched.state && (Sleeps(s'.sched.state, t) <==> Sleeps(s.sched.state, t))
    requires s.doing[t] != Ended ==>
               var r := s.owner[t]; r in s'.table.procs && s'.table.procs[r].state == s.table.procs[r].state
                                    && s'.table.procs[r].thread == s.table.procs[r].thread
    ensures ThreadOk(s'.table.procs, s'.owner, s'.doing, s'.sched.state, t)
  {
  }

  /** Every thread of a process has a state of its own. */
  lemma ThreadKnown(s: Sys, q: Ptr)
    requires Inv(s) && q in s.table.procs && s.table.procs[q].thread != NULL
    ensures var t := s.table.procs[q].thread;
            t in s.owner && s.owner[t] == q && t in s.doing && t in s.sched.state && t < s.nextTask
  {
    assert ProcOk(s.table.procs, s.owner, s.doing, s.sched.state, q);
    assert ThreadOk(s.table.procs, s.owner, s.doing, s.sched.state, s.table.procs[q].thread);
  }

  lemma KidKnown(s: Sys, q: Ptr, c: Ptr)
    requires Inv(s) && q in s.table.procs && c in s.table.procs[q].kids
    ensures c in s.table.procs && s.table.procs[c].parent == q && q < c && c != INIT
  {
    assert KidOk(s.table.procs, q, c);
  }

  // ----- births -----

  ghost predicate CanBirth(s: Sys, parent: Ptr) {
    Inv(s) && InUser(s) && (parent == NULL || (s.sched.current in s.owner && parent == s.owner[s.sched.current]))
  }

  lemma ParentAlive(s: Sys, parent: Ptr)
    requires CanBirth(s, parent)
    ensures parent == NULL || (parent in s.table.procs && s.table.procs[parent].state == Alive
                               && s.table.procs[parent].thread == s.sched.current && !Sleeps(s.sched.state, s.sched.current))
    ensures |s.table.used| == MAX_PIDS && s.table.hint < MAX_PIDS && s.table.next !in s.table.procs && NULL !in s.table.procs
  {
    if parent != NULL {
      assert ThreadOk(s.table.procs, s.owner, s.doing, s.sched.state, s.sched.current);
    }
  }

  lemma BornTable(t: Table, parent: Ptr, pid: nat, task: Ptr)
    requires TInv(t) && pid == PidScan(t.used, t.hint, 0) < MAX_PIDS
    requires parent == NULL || (parent in t.procs && t.procs[parent].state == Alive)
    ensures var t', r := Created(t, parent, pid), t.next;
            && TInv(t'.(procs := t'.procs[r := t'.procs[r].(state := Failed)]))
            && TInv(t'.(procs := t'.procs[r := t'.procs[r].(thread := task)]))
  {
    Young(t);
    hide TInv;
    hide WithKid;
    CreatedInv(t, parent, pid);
    var t', r := Created(t, parent, pid), t.next;
    BirthShape(t', r, t'.procs[r].(state := Failed));
    BirthShape(t', r, t'.procs[r].(thread := task));
  }

  lemma BirthShape(t: Table, r: Ptr, p: Proc)
    requires TInv(t) && r in t.procs && p.pid == t.procs[r].pid && p.parent == t.procs[r].parent && p.kids == t.procs[r].kids
    requires p.state != Zombie
    ensures TInv(t.(procs := t.procs[r := p]))
  {
    SameShapeInv(t, t.procs[r := p]);
  }

  /** Old processes keep everything but, for the parent, the list of children. */
  ghost predicate OldKept(a: map<Ptr, Proc>, b: map<Ptr, Proc>, parent: Ptr) {
    forall q :: q in a ==>
      && q in b && b[q].pid == a[q].pid && b[q].state == a[q].state && b[q].status == a[q].status
      && b[q].thread == a[q].thread && b[q].waiter == a[q].waiter && (q != parent ==> b[q].kids == a[q].kids)
  }

  lemma CreatedOld(t: Table, parent: Ptr, pid: nat, p: Proc)
    requires t.next !in t.procs && pid < MAX_PIDS && |t.used| == MAX_PIDS
    ensures OldKept(t.procs, Created(t, parent, pid).procs[t.next := p], parent)
    ensures Created(t, parent, pid).procs[t.next := p].Keys == t.procs.Keys + {t.next}
  {
  }

  lemma BornOld(s: Sys, parent: Ptr, pid: nat, thread: bool)
    requires s.table.next !in s.table.procs && pid < MAX_PIDS && |s.table.used| == MAX_PIDS
    ensures var s' := Born(s, parent, pid, thread);
            && OldKept(s.table.procs, s'.table.procs, parent) && s'.table.procs.Keys == s.table.procs.Keys + {s.table.next}
            && s'.table.procs[s.table.next] ==
                 Proc(pid, if thread then Alive else Failed, 0, parent, [], if thread then s.nextTask else NULL, NULL)
            && s'.table.next == s.table.next + 1 && s'.exited == s.exited && s'.collected == s.collected && s'.reaped == s.reaped
            && (if thread then
                  && s'.owner == s.owner[s.nextTask := s.table.next] && s'.doing == s.doing[s.nextTask := User]
                  && s'.sched == Sched.Enqueue(s.sched, s.nextTask) && s'.nextTask == s.nextTask + 1
                else s'.owner == s.owner && s'.doing == s.doing && s'.sched == s.sched && s'.nextTask == s.nextTask)
  {
    hide OldKept;
    var r, t := s.table.next, Created(s.table, parent, pid);
    CreatedOld(s.table, parent, pid, t.procs[r].(state := Failed));
    CreatedOld(s.table, parent, pid, t.procs[r].(thread := s.nextTask));
  }

  lemma NextTaskNew(s: Sys)
    requires Inv(s)
    ensures s.nextTask != NULL && s.nextTask !in s.sched.state && s.nextTask !in s.owner && s.nextTask !in s.doing
    ensures s.nextTask != s.sched.idle
  {
    assert s.nextTask in s.owner ==> ThreadOk(s.table.procs, s.owner, s.doing, s.sched.state, s.nextTask);
  }

  ghost predicate CanBorn(s: Sys, parent: Ptr, pid: nat) {
    CanBirth(s, parent) && pid < MAX_PIDS && |s.table.used| == MAX_PIDS
  }

  lemma BornProcs(s: Sys, parent: Ptr, pid: nat, thread: bool)
    requires CanBorn(s, parent, pid)
    ensures ProcsOk(Born(s, parent, pid, thread))
  {
    hide Inv;
    hide Born;
    hide InUser;
    ParentAlive(s, parent);
    BornOld(s, parent, pid, thread);
    NextTaskNew(s);
    var s' := Born(s, parent, pid, thread);
    forall q | q in s'.table.procs
      ensures ProcOk(s'.table.procs, s'.owner, s'.doing, s'.sched.state, q)
    {
      if q in s.table.procs {
        BornProc(s, parent, pid, thread, q);
      }
    }
  }

  lemma ProcNow(s: Sys, q: Ptr)
    requires Inv(s) && q in s.table.procs
    ensures ProcOk(s.table.procs, s.owner, s.doing, s.sched.state, q)
  {
  }

  lemma ThreadNow(s: Sys, t: Ptr)
    requires Inv(s) && t in s.owner
    ensures t in s.doing && ThreadOk(s.table.procs, s.owner, s.doing, s.sched.state, t)
  {
  }

  lemma BornProc(s: Sys, parent: Ptr, pid: nat, thread: bool, q: Ptr)
    requires CanBorn(s, parent, pid) && q in s.table.procs
    ensures var s' := Born(s, parent, pid, thread);
            q in s'.table.procs && ProcOk(s'.table.procs, s'.owner, s'.doing, s'.sched.state, q)
  {
    hide Inv;
    hide Born;
    hide InUser;
    ParentAlive(s, parent);
    BornOld(s, parent, pid, thread);
    NextTaskNew(s);
    ProcNow(s, q);
    if s.table.procs[q].thread != NULL {
      ThreadKnown(s, q);
      forall c | c in s.table.procs[q].kids
        ensures c in s.table.procs
      {
        KidKnown(s, q, c);
      }
    }
    ProcKept(s, Born(s, parent, pid, thread), q);
  }

  lemma BornThreads(s: Sys, parent: Ptr, pid: nat, thread: bool)
    requires CanBorn(s, parent, pid)
    ensures ThreadsOk(Born(s, parent, pid, thread))
  {
    hide TInv;
    hide ProcsOk;
    hide StatusOk;
    hide Sched.Inv;
    hide Born;
    hide InUser;
    ParentAlive(s, parent);
    BornOld(s, parent, pid, thread);
    NextTaskNew(s);
    var s' := Born(s, parent, pid, thread);
    forall t | t in s'.owner
      ensures ThreadOk(s'.table.procs, s'.owner, s'.doing, s'.sched.state, t)
    {
      if t in s.owner {
        assert ThreadOk(s.table.procs, s.owner, s.doing, s.sched.state, t);
        ThreadKept(s, s', t);
      }
    }
  }

  lemma BornStatus(s: Sys, parent: Ptr, pid: nat, thread: bool)
    requires CanBorn(s, parent, pid)
    ensures StatusOk(Born(s, parent, pid, thread))
  {
    hide TInv;
    hide ProcsOk;
    hide ThreadsOk;
    hide Sched.Inv;
    hide Born;
    hide InUser;
    ParentAlive(s, parent);
    BornOld(s, parent, pid, thread);
  }

  lemma BirthInv(s: Sys, parent: Ptr, thread: bool)
    requires CanBirth(s, parent)
    ensures |s.table.used| == MAX_PIDS && s.table.hint < MAX_PIDS && Inv(Birth(s, parent, thread))
  {
    hide Sched.Inv;
    hide TInv;
    hide ThreadsOk;
    hide ProcsOk;
    hide StatusOk;
    hide Created;
    hide InUser;
    ParentAlive(s, parent);
    NextTaskNew(s);
    var pid := PidScan(s.table.used, s.table.hint, 0);
    if pid < MAX_PIDS {
      BornTable(s.table, parent, pid, s.nextTask);
      BornProcs(s, parent, pid, thread);
      BornThreads(s, parent, pid, thread);
      BornStatus(s, parent, pid, thread);
      Sched.EnqueueInv(s.sched, s.nextTask);
    }
  }

  lemma NewTaskInv(s: Sys)
    requires Inv(s)
    ensures Inv(NewTask(s))
  {
    NextTaskNew(s);
    Sched.EnqueueInv(s.sched, s.nextTask);
    NewTaskThreads(s);
  }

  lemma NewTaskThreads(s: Sys)
    requires Inv(s)
    ensures ThreadsOk(NewTask(s)) && ProcsOk(NewTask(s))
  {
    hide TInv;
    var s' := NewTask(s);
    NextTaskNew(s);
    forall t | t in s.owner
      ensures ThreadOk(s'.table.procs, s'.owner, s'.doing, s'.sched.state, t)
    {
      assert ThreadOk(s.table.procs, s.owner, s.doing, s.sched.state, t);
    }
    forall q | q in s.table.procs
      ensures ProcOk(s'.table.procs, s'.owner, s'.doing, s'.sched.state, q)
    {
      assert ProcOk(s.table.procs, s.owner, s.doing, s.sched.state, q);
      if s.table.procs[q].thread != NULL {
        ThreadKnown(s, q);
      }
    }
  }

  lemma EndTaskInv(s: Sys)
    requires Inv(s) && s.sched.current !in s.owner && s.sched.current != s.sched.idle
    ensures Inv(EndTask(s))
  {
    Sched.FinishInv(s.sched);
    assert SameSleep(s.sched.state, Sched.Finish(s.sched).state, {});
    SchedStepInv(s, Sched.Finish(s.sched));
  }

  // ----- exit -----

  ghost predicate CanCall(s: Sys) { Inv(s) && s.sched.current in s.owner }

  /** The caller's process is alive and the caller is its thread. */
  lemma Caller(s: Sys)
    requires CanCall(s)
    ensures var t := s.sched.current; var r := s.owner[t];
            && r in s.table.procs && s.table.procs[r].state == Alive && s.table.procs[r].thread == t
            && s.table.procs[r].waiter == NULL && !Sleeps(s.sched.state, t) && t in s.doing && s.doing[t] != Ended
            && t != s.sched.idle && CanExit(s.table, r)
    ensures forall c :: c in s.table.procs ==> s.table.procs[c].pid < |s.table.used|
  {
    var t := s.sched.current;
    ThreadNow(s, t);
    ProcNow(s, s.owner[t]);
    ExitReady(s.table, s.owner[t]);
  }

  lemma ParentKnown(s: Sys, r: Ptr)
    requires Inv(s) && r in s.table.procs
    ensures var p := s.table.procs[r].parent; p != r && (p == NULL || p in s.table.procs) && NULL !in s.table.procs
    ensures forall q :: q in s.table.procs && q != s.table.procs[r].parent ==> r !in s.table.procs[q].kids
  {
    assert ParentOk(s.table.procs, r);
    forall q | q in s.table.procs && r in s.table.procs[q].kids
      ensures q == s.table.procs[r].parent
    {
      assert KidOk(s.table.procs, q, r);
    }
  }

  /** What exit does to a process other than the one that exits. */
  lemma ExitOther(s: Sys, status: int, q: Ptr)
    requires CanCall(s) && q in s.table.procs && q != s.owner[s.sched.current] && CanExit(s.table, s.owner[s.sched.current])
    ensures var r := s.owner[s.sched.current]; var a, b := s.table.procs, Exit(s, status).table.procs;
            && q in b && b[q].state == a[q].state && b[q].status == a[q].status && b[q].thread == a[q].thread && b[q].pid == a[q].pid
            && b[q].waiter == (if q == a[r].parent then NULL else a[q].waiter)
            && (q != INIT ==> b[q].kids == a[q].kids)
  {
    hide ExitedProcs;
    hide Inv;
    hide TInv;
    hide KidsOk;
    ExitedIs(s.table, s.owner[s.sched.current], status);
  }

  lemma ExitSelf(s: Sys, status: int)
    requires CanCall(s) && CanExit(s.table, s.owner[s.sched.current])
    ensures var r := s.owner[s.sched.current]; var a, b := s.table.procs, Exit(s, status).table.procs;
            && b.Keys == a.Keys && b[r].state == Zombie && b[r].status == status && b[r].thread == a[r].thread
            && b[r].waiter == a[r].waiter
            && WaiterOf(ExitedProcs(a, r, status), a[r].parent) == WaiterOf(a, a[r].parent)
  {
    hide ExitedProcs;
    hide Inv;
    hide TInv;
    hide KidsOk;
    ParentKnown(s, s.owner[s.sched.current]);
    ExitedIs(s.table, s.owner[s.sched.current], status);
  }

  lemma ExitTable(s: Sys, status: int)
    requires CanCall(s) && CanExit(s.table, s.owner[s.sched.current])
    ensures TInv(Exit(s, status).table)
  {
    var r := s.owner[s.sched.current];
    ExitedInv(s.table, r, status);
    var t1 := s.table.(procs := ExitedProcs(s.table.procs, r, status));
    hide Inv;
    hide ExitedProcs;
    WokenInv(t1, s.table.procs[r].parent);
  }

  lemma WokenInv(t: Table, p: Ptr)
    requires TInv(t)
    ensures TInv(t.(procs := Woken(t.procs, p)))
  {
    SameShapeInv(t, Woken(t.procs, p));
  }

  /** The parent's waiter is woken and the caller goes to sleep for good. */
  lemma ExitSleep(s: Sched.State, w: Ptr)
    requires Sched.Inv(s) && s.current != s.idle && (w == NULL || Sleeps(s.state, w))
    ensures var s' := Sched.Block(Sched.Wake(s, w));
            && Sched.Inv(s') && s'.idle == s.idle && s'.state.Keys == s.state.Keys
            && forall x :: x in s.state ==> (Sleeps(s'.state, x) <==> x == s.current || (Sleeps(s.state, x) && x != w))
  {
    hide Sched.Inv;
    hide Sched.Block;
    Sched.WakeInv(s, w);
    var s1 := Sched.Wake(s, w);
    NullIsNoTask(s);
    hide Sched.Wake;
    BlockSleep(s1);
  }

  lemma NullIsNoTask(s: Sched.State)
    requires Sched.Inv(s)
    ensures NULL !in s.state
  {
  }

  /** Blocking puts the caller to sleep and nobody else. */
  lemma BlockSleep(s: Sched.State)
    requires Sched.Inv(s) && s.current != s.idle
    ensures var s' := Sched.Block(s);
            && Sched.Inv(s') && s'.idle == s.idle && s'.state.Keys == s.state.Keys
            && forall x :: x in s.state ==> (Sleeps(s'.state, x) <==> x == s.current || Sleeps(s.state, x))
  {
    Sched.BlockInv(s);
    assert s.queue[0] in s.queue;
  }

  lemma ExitSched(s: Sys, status: int)
    requires CanCall(s) && CanExit(s.table, s.owner[s.sched.current])
    ensures var s' := Exit(s, status); var r := s.owner[s.sched.current]; var w := WaiterOf(s.table.procs, s.table.procs[r].parent);
            && Sched.Inv(s'.sched) && s'.sched.idle == s.sched.idle && s'.sched.state.Keys == s.sched.state.Keys
            && (forall x :: x in s.sched.state ==>
                  (Sleeps(s'.sched.state, x) <==> x == s.sched.current || (Sleeps(s.sched.state, x) && x != w)))
            && (w != NULL ==> w == s.table.procs[s.table.procs[r].parent].thread && w in s.doing && s.doing[w].Waiting?)
  {
    Caller(s);
    var r := s.owner[s.sched.current];
    ParentKnown(s, r);
    var p := s.table.procs[r].parent;
    if p != NULL {
      ProcNow(s, p);
    }
    ExitSelf(s, status);
    ExitSleep(s.sched, WaiterOf(s.table.procs, p));
    hide Inv;
  }

  lemma ExitThreads(s: Sys, status: int)
    requires CanCall(s) && CanExit(s.table, s.owner[s.sched.current])
    ensures ThreadsOk(Exit(s, status))
  {
    hide Sched.Inv;
    hide TInv;
    hide ProcsOk;
    hide StatusOk;
    hide ExitedProcs;
    var s' := Exit(s, status);
    Caller(s);
    NullIsNoTask(s.sched);
    ExitSched(s, status);
    ExitSelf(s, status);
    forall t | t in s'.owner
      ensures ThreadOk(s'.table.procs, s'.owner, s'.doing, s'.sched.state, t)
    {
      assert ThreadOk(s.table.procs, s.owner, s.doing, s.sched.state, t);
      if t != s.sched.current && s.doing[t] != Ended {
        ExitOther(s, status, s.owner[t]);
      }
    }
  }

  lemma ExitProc(s: Sys, status: int, q: Ptr)
    requires CanCall(s) && CanExit(s.table, s.owner[s.sched.current]) && q in s.table.procs && q in Exit(s, status).table.procs
    ensures var s' := Exit(s, status); ProcOk(s'.table.procs, s'.owner, s'.doing, s'.sched.state, q)
  {
    hide Inv;
    hide TInv;
    hide ExitedProcs;
    var s' := Exit(s, status);
    var r := s.owner[s.sched.current];
    Caller(s);
    ExitSched(s, status);
    ExitSelf(s, status);
    ParentKnown(s, r);
    ProcNow(s, q);
    if s.table.procs[q].thread != NULL {
      ThreadKnown(s, q);
    }
    if q != r {
      ExitOther(s, status, q);
      if q != s.table.procs[r].parent {
        ExitBystander(s, status, q);
      }
    }
  }

  /** A process that neither exits nor is the parent sees nothing. */
  lemma ExitBystander(s: Sys, status: int, q: Ptr)
    requires CanCall(s) && CanExit(s.table, s.owner[s.sched.current]) && q in s.table.procs && q in Exit(s, status).table.procs
    requires var r := s.owner[s.sched.current]; q != r && q != s.table.procs[r].parent
    ensures var s' := Exit(s, status); ProcOk(s'.table.procs, s'.owner, s'.doing, s'.sched.state, q)
  {
    hide Inv;
    hide TInv;
    hide ExitedProcs;
    var s' := Exit(s, status);
    var r := s.owner[s.sched.current];
    Caller(s);
    ExitSched(s, status);
    ParentKnown(s, r);
    ExitOther(s, status, q);
    ProcNow(s, q);
    if s.table.procs[q].thread != NULL {
      ThreadKnown(s, q);
      if s.table.procs[r].parent != NULL && s.table.procs[s.table.procs[r].parent].thread != NULL {
        ThreadKnown(s, s.table.procs[r].parent);
      }
      if q != INIT {
        forall c | c in s.table.procs[q].kids
          ensures c in s.table.procs && c in s'.table.procs && s'.table.procs[c].pid == s.table.procs[c].pid
          ensures s'.table.procs[c].state == s.table.procs[c].state
        {
          KidKnown(s, q, c);
          ExitOther(s, status, c);
        }
      }
    }
    hide Exit;
    ProcKept(s, s', q);
  }

  lemma ExitStatus(s: Sys, status: int)
    requires CanCall(s) && CanExit(s.table, s.owner[s.sched.current])
    ensures StatusOk(Exit(s, status))
  {
    hide Sched.Inv;
    hide ProcsOk;
    hide ThreadsOk;
    hide ExitedProcs;
    var s' := Exit(s, status);
    Caller(s);
    ExitSelf(s, status);
    forall q | q in s.table.procs && q != s.owner[s.sched.current]
      ensures s'.table.procs[q].state == s.table.procs[q].state && s'.table.procs[q].status == s.table.procs[q].status
    {
      ExitOther(s, status, q);
    }
  }

  lemma ExitInv(s: Sys, status: int)
    requires CanCall(s)
    ensures CanExit(s.table, s.owner[s.sched.current]) && Inv(Exit(s, status))
  {
    hide Sched.Inv;
    hide TInv;
    hide ThreadsOk;
    hide StatusOk;
    hide ExitedProcs;
    Caller(s);
    ExitTable(s, status);
    ExitSched(s, status);
    ExitThreads(s, status);
    ExitStatus(s, status);
    ExitSelf(s, status);
    var s' := Exit(s, status);
    forall q | q in s'.table.procs
      ensures ProcOk(s'.table.procs, s'.owner, s'.doing, s'.sched.state, q)
    {
      ExitProc(s, status, q);
    }
  }

  // ----- waitpid -----

  lemma CollectTable(s: Sys, target: int)
    requires CanCall(s) && s.owner[s.sched.current] in s.table.procs
    ensures var r := s.owner[s.sched.current]; var a := s.table.procs; var z := FindZombie(a, a[r].kids, target);
            if z in a then z in a[r].kids && ZombieFor(a, target, z) && a[z].parent == r && z != INIT && z != r && a[z].pid < |s.table.used|
                           && TInv(Reaped(s.table, z))
            else NoZombie(a, a[r].kids, target)
  {
    var r := s.owner[s.sched.current];
    var a := s.table.procs;
    KidsList(s, r);
    FindZombieIs(a, a[r].kids, target);
    var z := FindZombie(a, a[r].kids, target);
    if z in a {
      NoNull(s);
      KidKnown(s, r, z);
      ReapedInv(s.table, z);
    } else if z != NULL {
      KidKnown(s, r, z);
    }
    hide Inv;
  }

  lemma NoNull(s: Sys)
    requires Inv(s)
    ensures NULL !in s.table.procs
  {
  }

  lemma KidsList(s: Sys, r: Ptr)
    requires Inv(s) && r in s.table.procs
    ensures NULL !in s.table.procs[r].kids && NoDup(s.table.procs[r].kids)
    ensures forall a, b :: a in s.table.procs && b in s.table.procs && a != b ==> s.table.procs[a].pid != s.table.procs[b].pid
  {
    NoNull(s);
    if NULL in s.table.procs[r].kids {
      KidKnown(s, r, NULL);
    }
  }

  ghost predicate CanReap(s: Sys, z: Ptr) {
    && Inv(s) && z in s.table.procs && z != INIT && s.table.procs[z].state == Zombie && s.table.procs[z].pid < |s.table.used|
    && s.table.procs[z].parent in s.table.procs
  }

  /** Reaping leaves every other process as it is, but for the parent's child list. */
  lemma ReapOther(s: Sys, z: Ptr, q: Ptr)
    requires CanReap(s, z) && q in s.table.procs && q != z
    ensures var b := Reaped(s.table, z).procs; var a := s.table.procs;
            q in b && b[q] == if q == a[z].parent then a[q].(kids := Drop(a[q].kids, z)) else a[q]
  {
    hide Inv;
  }

  /** The reaping step as seen by threads, processes and statuses; the waiting parent, if
      it is not init, is awake. */
  lemma ReapKeeps(s: Sys, z: Ptr, doing: map<Ptr, Doing>, collected: map<Ptr, int>, reaped: set<Ptr>)
    requires CanReap(s, z) && doing.Keys == s.doing.Keys
    requires forall t :: t in doing && t != s.sched.current ==> doing[t] == s.doing[t]
    requires s.sched.current in doing ==> doing[s.sched.current] == User
    requires s.table.procs[z].parent == INIT || (s.sched.current in s.owner && s.owner[s.sched.current] == s.table.procs[z].parent)
    ensures var s' := s.(table := Reaped(s.table, z), doing := doing, collected := collected, reaped := reaped);
            ThreadsOk(s') && ProcsOk(s')
  {
    hide TInv;
    hide StatusOk;
    var s' := s.(table := Reaped(s.table, z), doing := doing, collected := collected, reaped := reaped);
    CurrentAwake(s);
    forall t | t in s'.owner
      ensures ThreadOk(s'.table.procs, s'.owner, s'.doing, s'.sched.state, t)
    {
      ThreadNow(s, t);
      if s.doing[t] != Ended {
        ReapOther(s, z, s.owner[t]);
      }
    }
    forall q | q in s'.table.procs
      ensures ProcOk(s'.table.procs, s'.owner, s'.doing, s'.sched.state, q)
    {
      ReapProc(s, z, s', q);
    }
  }

  lemma CurrentAwake(s: Sys)
    requires Inv(s)
    ensures !Sleeps(s.sched.state, s.sched.current)
    ensures s.sched.current in s.owner ==>
              && s.sched.current in s.doing && s.doing[s.sched.current] != Ended
              && Runs(s.table.procs, s.owner[s.sched.current], s.sched.current)
  {
    if s.sched.current in s.owner {
      ThreadNow(s, s.sched.current);
    }
  }

  lemma ReapProc(s: Sys, z: Ptr, s': Sys, q: Ptr)
    requires CanReap(s, z) && s'.doing.Keys == s.doing.Keys && s'.table == Reaped(s.table, z) && s'.owner == s.owner && s'.sched == s.sched
    requires forall t :: t in s'.doing && t != s.sched.current ==> s'.doing[t] == s.doing[t]
    requires s.sched.current in s'.doing ==> s'.doing[s.sched.current] == User
    requires s.table.procs[z].parent == INIT || (s.sched.current in s.owner && s.owner[s.sched.current] == s.table.procs[z].parent)
    requires q in s'.table.procs
    ensures ProcOk(s'.table.procs, s'.owner, s'.doing, s'.sched.state, q)
  {
    var a, b := s.table.procs, s'.table.procs;
    CurrentAwake(s);
    hide Inv;
    assert q in a && q != z;
    ReapOther(s, z, q);
    ProcNow(s, q);
    if a[q].thread != NULL {
      ThreadKnown(s, q);
      if q != a[z].parent {
        forall c | c in a[q].kids
          ensures c in a && c in b && b[c].pid == a[c].pid && b[c].state == a[c].state
        {
          KidKnown(s, q, c);
          ReapOther(s, z, c);
        }
      }
      if a[q].thread == s.sched.current {
        assert a[q].waiter == NULL;
      } else {
        hide Reaped;
        ProcKept(s, s', q);
      }
    }
  }

  lemma ReapStatus(s: Sys, z: Ptr, s': Sys)
    requires CanReap(s, z) && s'.table == Reaped(s.table, z) && s'.exited == s.exited
    requires (s'.collected == s.collected[z := s.table.procs[z].status] && s'.reaped == s.reaped)
             || (s'.collected == s.collected && s'.reaped == s.reaped + {z})
    ensures StatusOk(s')
  {
    hide Sched.Inv;
    hide TInv;
    hide ThreadsOk;
    hide ProcsOk;
    assert s'.table.procs.Keys == s.table.procs.Keys - {z};
    forall q | q in s'.table.procs
      ensures s'.table.procs[q].state == s.table.procs[q].state && s'.table.procs[q].status == s.table.procs[q].status
    {
      ReapOther(s, z, q);
    }
  }

  lemma WaitBlocks(s: Sys, target: int)
    requires CanCall(s) && s.owner[s.sched.current] in s.table.procs && WaitsRight(s.table.procs, s.owner[s.sched.current], target)
    ensures Inv(GoWait(s, target))
  {
    hide Sched.Inv;
    hide TInv;
    hide StatusOk;
    hide ThreadsOk;
    var s' := GoWait(s, target);
    Caller(s);
    BlockSleep(s.sched);
    WaiterShape(s.table, s.owner[s.sched.current], s.sched.current);
    WaiterStatus(s, s');
    WaitThreads(s, target);
    forall q | q in s'.table.procs
      ensures ProcOk(s'.table.procs, s'.owner, s'.doing, s'.sched.state, q)
    {
      WaitProc(s, target, q);
    }
  }

  lemma WaitThreads(s: Sys, target: int)
    requires CanCall(s) && s.owner[s.sched.current] in s.table.procs
    ensures ThreadsOk(GoWait(s, target))
  {
    hide Sched.Inv;
    hide TInv;
    hide StatusOk;
    hide ProcsOk;
    hide Sched.Block;
    var s' := GoWait(s, target);
    Caller(s);
    BlockSleep(s.sched);
    forall x | x in s'.owner
      ensures ThreadOk(s'.table.procs, s'.owner, s'.doing, s'.sched.state, x)
    {
      assert ThreadOk(s.table.procs, s.owner, s.doing, s.sched.state, x);
    }
  }

  lemma WaiterShape(t: Table, r: Ptr, w: Ptr)
    requires TInv(t) && r in t.procs
    ensures TInv(t.(procs := t.procs[r := t.procs[r].(waiter := w)]))
  {
    SameShapeInv(t, t.procs[r := t.procs[r].(waiter := w)]);
  }

  lemma WaiterStatus(s: Sys, s': Sys)
    requires StatusOk(s) && s'.exited == s.exited && s'.collected == s.collected && s'.reaped == s.reaped
    requires s'.table == s.table.(procs := s'.table.procs) && s'.table.procs.Keys == s.table.procs.Keys
    requires forall q :: q in s.table.procs ==>
               s'.table.procs[q].state == s.table.procs[q].state && s'.table.procs[q].status == s.table.procs[q].status
    ensures StatusOk(s')
  {
  }

  lemma WaitProc(s: Sys, target: int, q: Ptr)
    requires CanCall(s) && s.owner[s.sched.current] in s.table.procs && q in s.table.procs
    requires WaitsRight(s.table.procs, s.owner[s.sched.current], target)
    ensures var s' := GoWait(s, target); ProcOk(s'.table.procs, s'.owner, s'.doing, s'.sched.state, q)
  {
    hide Inv;
    hide WaitsRight;
    hide ProcOk;
    hide Sched.Block;
    hide Sched.Inv;
    hide Sleeps;
    Caller(s);
    SchedNow(s);
    BlockSleep(s.sched);
    CallerRuns(s);
    GoWaitFrame(s, target);
    hide WaitFrame;
    if q == s.owner[s.sched.current] {
      WaitCaller(s, GoWait(s, target), target);
    } else {
      WaitOther(s, GoWait(s, target), q);
    }
  }

  /** What `GoWait` leaves as it was. */
  ghost predicate WaitFrame(s: Sys, s': Sys) {
    && s'.owner == s.owner && s'.table.procs.Keys == s.table.procs.Keys
    && (forall x :: x in s.doing && x != s.sched.current ==> x in s'.doing && s'.doing[x] == s.doing[x])
    && (forall x :: x in s.sched.state && x != s.sched.current ==> (Sleeps(s'.sched.state, x) <==> Sleeps(s.sched.state, x)))
    && (forall c :: c in s.table.procs ==>
          var a, b := s.table.procs[c], s'.table.procs[c];
          b.pid == a.pid && b.state == a.state && b.kids == a.kids && b.thread == a.thread)
  }

  lemma CallerRuns(s: Sys)
    requires Inv(s)
    ensures s.sched.current in s.sched.state
  {
  }

  lemma GoWaitFrame(s: Sys, target: int)
    requires s.sched.current in s.owner && s.owner[s.sched.current] in s.table.procs
    requires var b := Sched.Block(s.sched);
             forall x :: x in s.sched.state ==> (Sleeps(b.state, x) <==> x == s.sched.current || Sleeps(s.sched.state, x))
    ensures WaitFrame(s, GoWait(s, target))
  {
    hide Sched.Block;
    hide Sleeps;
  }

  lemma WaitKids(s: Sys, s': Sys, q: Ptr)
    requires Inv(s) && WaitFrame(s, s') && q in s.table.procs && q in s'.table.procs
    ensures SameKidsOf(s.table.procs, s'.table.procs, q)
  {
    hide Inv;
    forall c | c in s.table.procs[q].kids
      ensures c in s.table.procs
    {
      KidKnown(s, q, c);
    }
  }

  lemma WaitCaller(s: Sys, s': Sys, target: int)
    requires CanCall(s) && WaitFrame(s, s') && s.owner[s.sched.current] in s.table.procs
    requires WaitsRight(s.table.procs, s.owner[s.sched.current], target)
    requires var t, r := s.sched.current, s.owner[s.sched.current];
             && r in s'.table.procs && s'.table.procs[r].waiter == t && s'.table.procs[r].thread == t
             && t in s'.doing && s'.doing[t] == Waiting(target) && Sleeps(s'.sched.state, t)
    ensures s.owner[s.sched.current] in s'.table.procs
    ensures ProcOk(s'.table.procs, s'.owner, s'.doing, s'.sched.state, s.owner[s.sched.current])
  {
    var r := s.owner[s.sched.current];
    hide Inv;
    WaitKids(s, s', r);
    WaitsKept(s.table.procs, s'.table.procs, r, target);
    hide WaitsRight;
  }

  lemma WaitOther(s: Sys, s': Sys, q: Ptr)
    requires CanCall(s) && WaitFrame(s, s') && q in s.table.procs && q != s.owner[s.sched.current]
    requires q in s'.table.procs && s'.table.procs[q] == s.table.procs[q]
    ensures ProcOk(s'.table.procs, s'.owner, s'.doing, s'.sched.state, q)
  {
    hide Inv;
    hide WaitsRight;
    ProcNow(s, q);
    WaitKids(s, s', q);
    if s.table.procs[q].thread != NULL {
      ThreadKnown(s, q);
    }
    ProcKept(s, s', q);
  }

  lemma SchedNow(s: Sys)
    requires Inv(s)
    ensures Sched.Inv(s.sched)
  {
  }

  /** The thread goes back to user mode; nothing else changes. */
  lemma BackToUser(s: Sys)
    requires CanCall(s)
    ensures Inv(s.(doing := s.doing[s.sched.current := User]))
  {
    hide Sched.Inv;
    hide TInv;
    hide StatusOk;
    var t := s.sched.current;
    var s' := s.(doing := s.doing[t := User]);
    Caller(s);
    WaiterStatus(s, s');
    forall x | x in s'.owner
      ensures ThreadOk(s'.table.procs, s'.owner, s'.doing, s'.sched.state, x)
    {
      assert ThreadOk(s.table.procs, s.owner, s.doing, s.sched.state, x);
    }
    forall q | q in s'.table.procs
      ensures ProcOk(s'.table.procs, s'.owner, s'.doing, s'.sched.state, q)
    {
      assert ProcOk(s.table.procs, s.owner, s.doing, s.sched.state, q);
    }
  }

  lemma WaitInv(s: Sys, target: int, nohang: bool)
    requires CanCall(s)
    ensures s.owner[s.sched.current] in s.table.procs
    ensures forall c :: c in s.table.procs ==> s.table.procs[c].pid < |s.table.used|
    ensures Inv(Wait(s, target, nohang))
  {
    hide Sched.Inv;
    hide TInv;
    hide ThreadsOk;
    hide ProcsOk;
    hide StatusOk;
    Caller(s);
    CollectTable(s, target);
    var t := s.sched.current;
    var r := s.owner[t];
    var procs := s.table.procs;
    var z := FindZombie(procs, procs[r].kids, target);
    if z in procs {
      SameDoing(s);
      var s' := Wait(s, target, nohang);
      ReapKeeps(s, z, s'.doing, s'.collected, s'.reaped);
      ReapStatus(s, z, s');
    } else if nohang || !HasMatch(procs, procs[r].kids, target) {
      BackToUser(s);
    } else {
      WaitBlocks(s, target);
    }
  }

  lemma SameDoing(s: Sys)
    requires Inv(s)
    ensures s.owner.Keys == s.doing.Keys
  {
  }

  // ----- the sweep -----

  lemma ReapOneInv(s: Sys, z: Ptr)
    requires CanReap(s, z) && s.table.procs[z].parent == INIT && InUser(s)
    ensures Inv(ReapOne(s, z)) && InUser(ReapOne(s, z))
  {
    hide Sched.Inv;
    hide TInv;
    hide ThreadsOk;
    hide ProcsOk;
    hide StatusOk;
    var s' := ReapOne(s, z);
    SameDoing(s);
    assert s.sched.current in s.doing ==> s.doing[s.sched.current] == User;
    ReapedInv(s.table, z);
    ReapKeeps(s, z, s.doing, s'.collected, s'.reaped);
    ReapStatus(s, z, s');
  }

  ghost predicate OfInit(s: Sys, ks: seq<Ptr>) {
    NoDup(ks) && forall c :: c in ks ==> c in s.table.procs && s.table.procs[c].parent == INIT
  }

  lemma InitKids(s: Sys)
    requires Inv(s) && INIT in s.table.procs
    ensures OfInit(s, s.table.procs[INIT].kids)
  {
    KidsList(s, INIT);
    forall c | c in s.table.procs[INIT].kids
      ensures c in s.table.procs && s.table.procs[c].parent == INIT
    {
      KidKnown(s, INIT, c);
    }
  }

  lemma CanReapKid(s: Sys, z: Ptr)
    requires Inv(s) && z in s.table.procs && s.table.procs[z].parent == INIT && s.table.procs[z].state == Zombie
    ensures CanReap(s, z) && INIT in s.table.procs
  {
    assert ParentOk(s.table.procs, z);
  }

  /** The sweep keeps the invariant; it removes only zombies that are children of init. */
  lemma {:induction false} SweepInv(s: Sys, ks: seq<Ptr>)
    requires Inv(s) && InUser(s) && OfInit(s, ks)
    ensures Inv(Sweep(s, ks)) && SweepOnly(s, Sweep(s, ks), ks)
    decreases |ks|
  {
    hide Inv;
    if ks != [] {
      var z := ks[0];
      Sched.TailMembers(ks);
      if s.table.procs[z].state == Zombie && s.table.procs[z].pid < |s.table.used| {
        CanReapKid(s, z);
        ReapOneInv(s, z);
        var s1 := ReapOne(s, z);
        OfInitRest(s, z, ks);
        SweepInv(s1, ks[1..]);
        SweepMore(s, z, Sweep(s1, ks[1..]), ks);
      } else {
        SweepInv(s, ks[1..]);
      }
    }
  }

  lemma OfInitRest(s: Sys, z: Ptr, ks: seq<Ptr>)
    requires CanReap(s, z) && OfInit(s, ks) && ks != [] && z == ks[0] && s.table.procs[z].parent == INIT
    ensures OfInit(ReapOne(s, z), ks[1..])
  {
    Sched.TailMembers(ks);
    forall c | c in ks[1..]
      ensures c in ReapOne(s, z).table.procs && ReapOne(s, z).table.procs[c].parent == INIT
    {
      ReapOther(s, z, c);
    }
  }

  /** Everything but the reaped zombies of `ks` is as before. */
  ghost predicate SweepOnly(s: Sys, s': Sys, ks: seq<Ptr>) {
    && s'.sched == s.sched && s'.owner == s.owner && s'.doing == s.doing && s'.exited == s.exited && s'.collected == s.collected
    && s'.table.next == s.table.next && s.reaped <= s'.reaped
    && (forall q :: q in s'.table.procs ==>
          q in s.table.procs && s'.table.procs[q] == s.table.procs[q].(kids := s'.table.procs[q].kids))
    && (forall q :: q in s.table.procs && q !in s'.table.procs ==> q in ks && s.table.procs[q].state == Zombie && q in s'.reaped)
  }

  /** Of the listed processes no zombie is left. */
  lemma {:induction false} SweepNone(s: Sys, ks: seq<Ptr>)
    requires Inv(s) && InUser(s) && OfInit(s, ks)
    ensures forall c :: c in ks && c in Sweep(s, ks).table.procs ==> Sweep(s, ks).table.procs[c].state != Zombie
    decreases |ks|
  {
    hide Inv;
    if ks != [] {
      var z := ks[0];
      Sched.TailMembers(ks);
      SweepInv(s, ks);
      if s.table.procs[z].state == Zombie {
        CanReapKid(s, z);
        ReapOneInv(s, z);
        OfInitRest(s, z, ks);
        SweepNone(ReapOne(s, z), ks[1..]);
        SweepInv(ReapOne(s, z), ks[1..]);
        assert z !in ReapOne(s, z).table.procs;
      } else {
        SweepNone(s, ks[1..]);
      }
    }
  }

  /** The sweep removes exactly the zombies among the children of init. */
  lemma SweepExactly(s: Sys)
    requires Inv(s) && InUser(s) && INIT in s.table.procs
    ensures var s' := Sweep(s, s.table.procs[INIT].kids);
            forall c :: c in s'.table.procs <==> c in s.table.procs && !(s.table.procs[c].parent == INIT && s.table.procs[c].state == Zombie)
  {
    var ks := s.table.procs[INIT].kids;
    InitKids(s);
    SweepInv(s, ks);
    SweepNone(s, ks);
    forall c | c in s.table.procs && s.table.procs[c].parent == INIT
      ensures c in ks
    {
      assert ParentOk(s.table.procs, c);
    }
  }

  lemma SweepMore(s: Sys, z: Ptr, s': Sys, ks: seq<Ptr>)
    requires CanReap(s, z) && ks != [] && z == ks[0] && SweepOnly(ReapOne(s, z), s', ks[1..])
    ensures SweepOnly(s, s', ks)
  {
    var s1 := ReapOne(s, z);
    assert s1.table.procs.Keys == s.table.procs.Keys - {z};
    forall q | q in s'.table.procs
      ensures q in s.table.procs && s'.table.procs[q] == s.table.procs[q].(kids := s'.table.procs[q].kids)
    {
      ReapOther(s, z, q);
    }
    forall q | q in s.table.procs && q !in s'.table.procs
      ensures q in ks && s.table.procs[q].state == Zombie && q in s'.reaped
    {
      if q != z {
        ReapOther(s, z, q);
      }
    }
  }
}

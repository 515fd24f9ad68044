/** Runs from boot that lead to a waitpid that is never served. */
module BootRuns {
  import Sched
  import opened DList
  import opened Forest
  import opened InitWaits
  import opened StuckWaits
  import opened System
  import opened SystemRuns

  /** The operations lead from a machine just booted to the state. */
  ghost predicate Path(ops: seq<Op>, s: Sys) {
    exists trace :: Run(trace, ops) && Booted(trace[0]) && trace[|ops|] == s
  }

  lemma PathNext(ops: seq<Op>, s: Sys, op: Op, s': Sys)
    requires Path(ops, s) && Step(s, op, s')
    ensures Path(ops + [op], s')
  {
    hide Step;
    hide Booted;
    var trace :| Run(trace, ops) && Booted(trace[0]) && trace[|ops|] == s;
    var more, all := trace + [s'], ops + [op];
    forall i | 0 <= i < |all|
      ensures Step(more[i], all[i], more[i + 1])
    {
    }
    assert Run(more, all) && more[0] == trace[0] && more[|all|] == s';
  }

  lemma PathInv(ops: seq<Op>, s: Sys)
    requires Path(ops, s)
    ensures Inv(s)
  {
    hide Step;
    hide Inv;
    hide Booted;
    var trace :| Run(trace, ops) && Booted(trace[0]) && trace[|ops|] == s;
    BootedInv(trace[0]);
    RunInv(trace, ops, |ops|);
  }

  // ----- machine states by their parts -----

  ghost function Used(n: nat): seq<bool> { seq(MAX_PIDS, i => i < n) }

  /** The first `n` processes, newest first. */
  ghost function Order(n: nat): seq<Ptr> { if n == 0 then [] else [n] + Order(n - 1) }

  /** A machine on which `n` processes were made and none has been collected; task 1 is idle. */
  ghost function Mach(st: map<Ptr, Sched.TState>, q: seq<Ptr>, cur: Ptr, procs: map<Ptr, Proc>, owner: map<Ptr, Ptr>,
                      doing: map<Ptr, Doing>, exited: map<Ptr, int>, n: nat, next: Ptr): Sys
  {
    Sys(Sched.State(st, q, cur, 1), Table(procs, Order(n), Used(n), n, n + 1), owner, doing, next, exited, map[], {})
  }

  lemma UsedNext(n: nat)
    requires n < MAX_PIDS
    ensures PidScan(Used(n), n, 0) == n && Used(n)[n := true] == Used(n + 1)
  {
    assert Cyclic(n, 0) == n;
  }

  // ----- steps -----

  lemma YieldStep(s: Sys, s': Sys)
    requires InUser(s) && s' == s.(sched := Sched.Yield(s.sched))
    ensures Step(s, OpYield, s')
  {
  }

  lemma BirthIs(s: Sys, parent: Ptr, n: nat)
    requires n + 1 < MAX_PIDS && s.table.used == Used(n) && s.table.hint == n && s.table.next == n + 1
    ensures |s.table.used| == MAX_PIDS && Birth(s, parent, true) == Born(s, parent, n, true)
    ensures Birth(s, parent, false) == Born(s, parent, n, false)
    ensures (n + 1) % MAX_PIDS == n + 1
  {
    UsedNext(n);
  }

  lemma ForkStep(st: map<Ptr, Sched.TState>, q: seq<Ptr>, cur: Ptr, procs: map<Ptr, Proc>, owner: map<Ptr, Ptr>,
                 doing: map<Ptr, Doing>, n: nat, next: Ptr)
    requires n + 1 < MAX_PIDS && cur in owner && cur in doing && doing[cur] == User && owner[cur] in procs && n + 1 !in procs
    ensures var r := owner[cur];
            Step(Mach(st, q, cur, procs, owner, doing, map[], n, next), OpFork(true, true),
                 Mach(st[next := Sched.Ready], q + [next], cur,
                      procs[r := procs[r].(kids := procs[r].kids + [n + 1])][n + 1 := Proc(n, Alive, 0, r, [], next, NULL)],
                      owner[next := n + 1], doing[next := User], map[], n + 1, next + 1))
  {
    var s := Mach(st, q, cur, procs, owner, doing, map[], n, next);
    UsedNext(n);
    BirthIs(s, owner[cur], n);
  }

  lemma ForkFailsStep(st: map<Ptr, Sched.TState>, q: seq<Ptr>, cur: Ptr, procs: map<Ptr, Proc>, owner: map<Ptr, Ptr>,
                      doing: map<Ptr, Doing>, n: nat, next: Ptr)
    requires n + 1 < MAX_PIDS && cur in owner && cur in doing && doing[cur] == User && owner[cur] in procs && n + 1 !in procs
    ensures var r := owner[cur];
            Step(Mach(st, q, cur, procs, owner, doing, map[], n, next), OpFork(true, false),
                 Mach(st, q, cur,
                      procs[r := procs[r].(kids := procs[r].kids + [n + 1])][n + 1 := Proc(n, Failed, 0, r, [], NULL, NULL)],
                      owner, doing, map[], n + 1, next))
  {
    var s := Mach(st, q, cur, procs, owner, doing, map[], n, next);
    UsedNext(n);
    BirthIs(s, owner[cur], n);
  }

  // ----- the first steps -----

  ghost function Boot(): Sys { Mach(map[1 := Sched.Running], [], 1, map[], map[], map[], map[], 0, 2) }

  lemma BootPath()
    ensures Path([], Boot())
  {
    var trace := [Boot()];
    assert Run(trace, []) && Booted(trace[0]) && trace[0] == Boot();
  }

  ghost function Init(kids: seq<Ptr>, waiter: Ptr): Proc { Proc(0, Alive, 0, NULL, kids, 2, waiter) }

  ghost function Spawned(): Sys {
    Mach(map[1 := Sched.Running, 2 := Sched.Ready], [2], 1, map[1 := Init([], NULL)], map[2 := 1], map[2 := User], map[], 1, 3)
  }

  ghost function InitRuns(): Sys {
    Mach(map[1 := Sched.Running, 2 := Sched.Running], [1], 2, map[1 := Init([], NULL)], map[2 := 1], map[2 := User], map[], 1, 3)
  }

  lemma SpawnStep()
    ensures Step(Boot(), OpSpawn(true, true), Spawned())
  {
    UsedNext(0);
    BirthIs(Boot(), NULL, 0);
  }

  lemma InitRunsStep()
    ensures Step(Spawned(), OpYield, InitRuns())
  {
    YieldStep(Spawned(), InitRuns());
  }

  ghost function Second(kids: seq<Ptr>): Proc { Proc(1, Alive, 0, 1, kids, 3, NULL) }

  ghost function Third(kids: seq<Ptr>): Proc { Proc(2, Alive, 0, 2, kids, 4, NULL) }

  ghost function Fourth(): Proc { Proc(3, Alive, 0, 3, [], 5, NULL) }

  /** Two processes, with the given tasks queued behind the running one. */
  ghost function Two(third: Sched.TState, q: seq<Ptr>, cur: Ptr): Sys {
    Mach(map[1 := Sched.Running, 2 := Sched.Running, 3 := third], q, cur, map[1 := Init([2], NULL), 2 := Second([])],
         map[2 := 1, 3 := 2], map[2 := User, 3 := User], map[], 2, 4)
  }

  lemma TwoStep()
    ensures Step(InitRuns(), OpFork(true, true), Two(Sched.Ready, [1, 3], 2))
  {
    var procs := map[1 := Init([], NULL)];
    ForkStep(map[1 := Sched.Running, 2 := Sched.Running], [1], 2, procs, map[2 := 1], map[2 := User], 1, 3);
    assert procs[1].kids + [2] == [2];
    assert procs[1 := procs[1].(kids := procs[1].kids + [2])][2 := Proc(1, Alive, 0, 1, [], 3, NULL)]
        == map[1 := Init([2], NULL), 2 := Second([])];
    assert map[2 := 1][3 := 2] == map[2 := 1, 3 := 2] && map[2 := User][3 := User] == map[2 := User, 3 := User];
    assert map[1 := Sched.Running, 2 := Sched.Running][3 := Sched.Ready]
        == map[1 := Sched.Running, 2 := Sched.Running, 3 := Sched.Ready];
    assert [1] + [3] == [1, 3];
  }

  lemma TwoYields()
    ensures Step(Two(Sched.Ready, [1, 3], 2), OpYield, Two(Sched.Ready, [3, 2], 1))
    ensures Step(Two(Sched.Ready, [3, 2], 1), OpYield, Two(Sched.Running, [2, 1], 3))
  {
    assert ([1, 3] + [2])[1..] == [3, 2] && ([3, 2] + [1])[1..] == [2, 1];
    YieldStep(Two(Sched.Ready, [1, 3], 2), Two(Sched.Ready, [3, 2], 1));
    YieldStep(Two(Sched.Ready, [3, 2], 1), Two(Sched.Running, [2, 1], 3));
  }

  /** Init runs and has forked. */
  lemma TwoPath()
    ensures Path([OpSpawn(true, true), OpYield, OpFork(true, true)], Two(Sched.Ready, [1, 3], 2))
  {
    hide *;
    BootPath();
    SpawnStep();
    PathNext([], Boot(), OpSpawn(true, true), Spawned());
    assert [] + [OpSpawn(true, true)] == [OpSpawn(true, true)];
    InitRunsStep();
    PathNext([OpSpawn(true, true)], Spawned(), OpYield, InitRuns());
    assert [OpSpawn(true, true)] + [OpYield] == [OpSpawn(true, true), OpYield];
    TwoStep();
    PathNext([OpSpawn(true, true), OpYield], InitRuns(), OpFork(true, true), Two(Sched.Ready, [1, 3], 2));
    assert [OpSpawn(true, true), OpYield] + [OpFork(true, true)] == [OpSpawn(true, true), OpYield, OpFork(true, true)];
  }

  // ----- a failed child is all there is to wait for -----

  ghost function OneFailed(): Sys {
    Mach(map[1 := Sched.Running, 2 := Sched.Running, 3 := Sched.Running], [2, 1], 3,
         map[1 := Init([2], NULL), 2 := Second([3]), 3 := Proc(2, Failed, 0, 2, [], NULL, NULL)],
         map[2 := 1, 3 := 2], map[2 := User, 3 := User], map[], 3, 4)
  }

  lemma OneFailedStep()
    ensures Step(Two(Sched.Running, [2, 1], 3), OpFork(true, false), OneFailed())
  {
    var procs := map[1 := Init([2], NULL), 2 := Second([])];
    ForkFailsStep(map[1 := Sched.Running, 2 := Sched.Running, 3 := Sched.Running], [2, 1], 3, procs, map[2 := 1, 3 := 2],
                  map[2 := User, 3 := User], 2, 4);
    assert procs[2].kids + [3] == [3];
    assert procs[2 := procs[2].(kids := procs[2].kids + [3])][3 := Proc(2, Failed, 0, 2, [], NULL, NULL)]
        == map[1 := Init([2], NULL), 2 := Second([3]), 3 := Proc(2, Failed, 0, 2, [], NULL, NULL)];
  }

  lemma OneFailedFacts()
    ensures OnlyFailed(OneFailed().table.procs, 2, -1) && Allowed(OneFailed(), OpWait(-1, false))
    ensures OneFailed().sched.current in OneFailed().owner && OneFailed().owner[OneFailed().sched.current] == 2 != INIT
  {
    assert Child(OneFailed().table.procs, 2, -1, 3);
  }

  /** From boot: init forks, its child forks without success and waits for any child. */
  lemma StuckFromBoot() returns (s: Sys)
    ensures Stuck(s, 2, -1)
    ensures Path([OpSpawn(true, true), OpYield, OpFork(true, true)] + [OpYield, OpYield, OpFork(true, false), OpWait(-1, false)], s)
  {
    hide *;
    var ops := [OpSpawn(true, true), OpYield, OpFork(true, true)];
    TwoPath();
    TwoYields();
    PathNext(ops, Two(Sched.Ready, [1, 3], 2), OpYield, Two(Sched.Ready, [3, 2], 1));
    PathNext(ops + [OpYield], Two(Sched.Ready, [3, 2], 1), OpYield, Two(Sched.Running, [2, 1], 3));
    OneFailedStep();
    PathNext(ops + [OpYield] + [OpYield], Two(Sched.Running, [2, 1], 3), OpFork(true, false), OneFailed());
    PathInv(ops + [OpYield] + [OpYield] + [OpFork(true, false)], OneFailed());
    OneFailedFacts();
    StepExists(OneFailed(), OpWait(-1, false));
    s :| Step(OneFailed(), OpWait(-1, false), s);
    WaitStuckIff(OneFailed(), -1, s);
    PathNext(ops + [OpYield] + [OpYield] + [OpFork(true, false)], OneFailed(), OpWait(-1, false), s);
    assert ops + [OpYield] + [OpYield] + [OpFork(true, false)] + [OpWait(-1, false)]
        == ops + [OpYield, OpYield, OpFork(true, false), OpWait(-1, false)];
  }

  // ----- a zombie that init is not told of -----

  /** Init waits for any child. */
  ghost function InitSleeps(third: Sched.TState, q: seq<Ptr>, cur: Ptr): Sys {
    Mach(map[1 := Sched.Running, 2 := Sched.Blocked, 3 := third], q, cur, map[1 := Init([2], 2), 2 := Second([])],
         map[2 := 1, 3 := 2], map[2 := Waiting(-1), 3 := User], map[], 2, 4)
  }

  ghost function Three(fourth: Sched.TState, q: seq<Ptr>, cur: Ptr): Sys {
    Mach(map[1 := Sched.Running, 2 := Sched.Blocked, 3 := Sched.Running, 4 := fourth], q, cur,
         map[1 := Init([2], 2), 2 := Second([3]), 3 := Third([])],
         map[2 := 1, 3 := 2, 4 := 3], map[2 := Waiting(-1), 3 := User, 4 := User], map[], 3, 5)
  }

  ghost function Four(fifth: Sched.TState, q: seq<Ptr>, cur: Ptr): Sys {
    Mach(map[1 := Sched.Running, 2 := Sched.Blocked, 3 := Sched.Running, 4 := Sched.Running, 5 := fifth], q, cur,
         map[1 := Init([2], 2), 2 := Second([3]), 3 := Third([4]), 4 := Fourth()],
         map[2 := 1, 3 := 2, 4 := 3, 5 := 4], map[2 := Waiting(-1), 3 := User, 4 := User, 5 := User], map[], 4, 6)
  }

  lemma InitSleepsStep()
    ensures Step(Two(Sched.Ready, [1, 3], 2), OpWait(-1, false), InitSleeps(Sched.Ready, [3], 1))
  {
    hide GoWait;
    var s := Two(Sched.Ready, [1, 3], 2);
    var procs := s.table.procs;
    assert [2][1..] == [] && FindZombie(procs, [2], -1) == NULL;
    assert 2 in procs[1].kids && HasMatch(procs, procs[1].kids, -1);
    GoesToSleep();
  }

  lemma GoesToSleep()
    ensures GoWait(Two(Sched.Ready, [1, 3], 2), -1) == InitSleeps(Sched.Ready, [3], 1)
  {
    assert [1, 3][1..] == [3];
  }

  lemma ThreeStep()
    ensures Step(InitSleeps(Sched.Ready, [3], 1), OpYield, InitSleeps(Sched.Running, [1], 3))
    ensures Step(InitSleeps(Sched.Running, [1], 3), OpFork(true, true), Three(Sched.Ready, [1, 4], 3))
  {
    assert ([3] + [1])[1..] == [1];
    YieldStep(InitSleeps(Sched.Ready, [3], 1), InitSleeps(Sched.Running, [1], 3));
    ThreeFork();
  }

  lemma ThreeFork()
    ensures Step(InitSleeps(Sched.Running, [1], 3), OpFork(true, true), Three(Sched.Ready, [1, 4], 3))
  {
    var st := map[1 := Sched.Running, 2 := Sched.Blocked, 3 := Sched.Running];
    var procs := map[1 := Init([2], 2), 2 := Second([])];
    ForkStep(st, [1], 3, procs, map[2 := 1, 3 := 2], map[2 := Waiting(-1), 3 := User], 2, 4);
    assert procs[2].kids + [3] == [3];
    assert procs[2 := procs[2].(kids := procs[2].kids + [3])][3 := Proc(2, Alive, 0, 2, [], 4, NULL)]
        == map[1 := Init([2], 2), 2 := Second([3]), 3 := Third([])];
    assert map[2 := 1, 3 := 2][4 := 3] == map[2 := 1, 3 := 2, 4 := 3];
    assert map[2 := Waiting(-1), 3 := User][4 := User] == map[2 := Waiting(-1), 3 := User, 4 := User];
    assert st[4 := Sched.Ready] == map[1 := Sched.Running, 2 := Sched.Blocked, 3 := Sched.Running, 4 := Sched.Ready];
    assert [1] + [4] == [1, 4];
  }

  lemma ThreeYields()
    ensures Step(Three(Sched.Ready, [1, 4], 3), OpYield, Three(Sched.Ready, [4, 3], 1))
    ensures Step(Three(Sched.Ready, [4, 3], 1), OpYield, Three(Sched.Running, [3, 1], 4))
  {
    assert ([1, 4] + [3])[1..] == [4, 3] && ([4, 3] + [1])[1..] == [3, 1];
    YieldStep(Three(Sched.Ready, [1, 4], 3), Three(Sched.Ready, [4, 3], 1));
    YieldStep(Three(Sched.Ready, [4, 3], 1), Three(Sched.Running, [3, 1], 4));
  }

  lemma FourFork()
    ensures Step(Three(Sched.Running, [3, 1], 4), OpFork(true, true), Four(Sched.Ready, [3, 1, 5], 4))
  {
    var st := map[1 := Sched.Running, 2 := Sched.Blocked, 3 := Sched.Running, 4 := Sched.Running];
    var procs := map[1 := Init([2], 2), 2 := Second([3]), 3 := Third([])];
    ForkStep(st, [3, 1], 4, procs, map[2 := 1, 3 := 2, 4 := 3], map[2 := Waiting(-1), 3 := User, 4 := User], 3, 5);
    assert procs[3].kids + [4] == [4];
    assert procs[3 := procs[3].(kids := procs[3].kids + [4])][4 := Proc(3, Alive, 0, 3, [], 5, NULL)]
        == map[1 := Init([2], 2), 2 := Second([3]), 3 := Third([4]), 4 := Fourth()];
    assert map[2 := 1, 3 := 2, 4 := 3][5 := 4] == map[2 := 1, 3 := 2, 4 := 3, 5 := 4];
    assert map[2 := Waiting(-1), 3 := User, 4 := User][5 := User] == map[2 := Waiting(-1), 3 := User, 4 := User, 5 := User];
    assert st[5 := Sched.Ready]
        == map[1 := Sched.Running, 2 := Sched.Blocked, 3 := Sched.Running, 4 := Sched.Running, 5 := Sched.Ready];
    assert [3, 1] + [5] == [3, 1, 5];
  }

  lemma FourYields()
    ensures Step(Four(Sched.Ready, [3, 1, 5], 4), OpYield, Four(Sched.Ready, [1, 5, 4], 3))
    ensures Step(Four(Sched.Ready, [1, 5, 4], 3), OpYield, Four(Sched.Ready, [5, 4, 3], 1))
  {
    assert ([3, 1, 5] + [4])[1..] == [1, 5, 4] && ([1, 5, 4] + [3])[1..] == [5, 4, 3];
    YieldStep(Four(Sched.Ready, [3, 1, 5], 4), Four(Sched.Ready, [1, 5, 4], 3));
    YieldStep(Four(Sched.Ready, [1, 5, 4], 3), Four(Sched.Ready, [5, 4, 3], 1));
  }

  lemma FourYieldsLast()
    ensures Step(Four(Sched.Ready, [5, 4, 3], 1), OpYield, Four(Sched.Running, [4, 3, 1], 5))
  {
    assert ([5, 4, 3] + [1])[1..] == [4, 3, 1];
    YieldStep(Four(Sched.Ready, [5, 4, 3], 1), Four(Sched.Running, [4, 3, 1], 5));
  }

  /** All before the first exit. */
  ghost function Prologue(): seq<Op> {
    [OpSpawn(true, true), OpYield, OpFork(true, true)] + [OpWait(-1, false)] + [OpYield] + [OpFork(true, true)]
    + [OpYield] + [OpYield] + [OpFork(true, true)] + [OpYield] + [OpYield] + [OpYield]
  }

  lemma ThreePath()
    ensures Path([OpSpawn(true, true), OpYield, OpFork(true, true)] + [OpWait(-1, false)] + [OpYield] + [OpFork(true, true)]
                 + [OpYield] + [OpYield], Three(Sched.Running, [3, 1], 4))
  {
    hide *;
    var a := [OpSpawn(true, true), OpYield, OpFork(true, true)];
    TwoPath();
    InitSleepsStep();
    PathNext(a, Two(Sched.Ready, [1, 3], 2), OpWait(-1, false), InitSleeps(Sched.Ready, [3], 1));
    var b := a + [OpWait(-1, false)];
    ThreeStep();
    PathNext(b, InitSleeps(Sched.Ready, [3], 1), OpYield, InitSleeps(Sched.Running, [1], 3));
    PathNext(b + [OpYield], InitSleeps(Sched.Running, [1], 3), OpFork(true, true), Three(Sched.Ready, [1, 4], 3));
    var c := b + [OpYield] + [OpFork(true, true)];
    ThreeYields();
    PathNext(c, Three(Sched.Ready, [1, 4], 3), OpYield, Three(Sched.Ready, [4, 3], 1));
    PathNext(c + [OpYield], Three(Sched.Ready, [4, 3], 1), OpYield, Three(Sched.Running, [3, 1], 4));
  }

  lemma FourPath()
    ensures Path(Prologue(), Four(Sched.Running, [4, 3, 1], 5))
  {
    var a := [OpSpawn(true, true), OpYield, OpFork(true, true)] + [OpWait(-1, false)] + [OpYield] + [OpFork(true, true)]
             + [OpYield] + [OpYield];
    var b := a + [OpFork(true, true)];
    assert Prologue() == b + [OpYield] + [OpYield] + [OpYield];
    hide *;
    ThreePath();
    FourFork();
    PathNext(a, Three(Sched.Running, [3, 1], 4), OpFork(true, true), Four(Sched.Ready, [3, 1, 5], 4));
    FourYields();
    FourYieldsLast();
    PathNext(b, Four(Sched.Ready, [3, 1, 5], 4), OpYield, Four(Sched.Ready, [1, 5, 4], 3));
    PathNext(b + [OpYield], Four(Sched.Ready, [1, 5, 4], 3), OpYield, Four(Sched.Ready, [5, 4, 3], 1));
    PathNext(b + [OpYield] + [OpYield], Four(Sched.Ready, [5, 4, 3], 1), OpYield, Four(Sched.Running, [4, 3, 1], 5));
  }

  /** The youngest process runs, init sleeps and waits rightly. */
  lemma FourFacts(status: int)
    ensures var s := Four(Sched.Running, [4, 3, 1], 5);
            && Allowed(s, OpExit(status)) && s.sched.current in s.owner && s.owner[s.sched.current] == 4
            && BlockedIn(s, INIT, -1) && WaitsRight(s.table.procs, INIT, -1) && !Orphans(s, OpExit(status), -1)
            && 4 in s.table.procs && s.table.procs[4] == Fourth() && 3 in s.table.procs && s.table.procs[3] == Third([4])
            && 4 in s.owner && s.owner[4] == 3 && 4 in s.doing && s.doing[4] == User
  {
    var s := Four(Sched.Running, [4, 3, 1], 5);
    assert 2 in s.table.procs[INIT].kids;
    assert s.table.procs[4].kids == [];
  }

  /** Its exit is no business of init. */
  lemma InitSleepsOn(s: Sys, s': Sys)
    requires Inv(s) && Step(s, OpExit(7), s') && BlockedIn(s, INIT, -1) && WaitsRight(s.table.procs, INIT, -1)
    requires !Orphans(s, OpExit(7), -1) && s.owner[s.sched.current] == 4 && s.table.procs[4].parent == 3
    ensures BlockedIn(s', INIT, -1) && WaitsRight(s'.table.procs, INIT, -1)
  {
    hide Inv;
    hide BlockedIn;
    hide WaitsRight;
    hide Orphans;
    hide CanExit;
    ExitWakesInitIff(s, 7, -1);
    InitMissesIff(s, OpExit(7), s', -1);
  }

  /** After it the next process runs, and has a zombie child. */
  lemma OrphansNext(status: int, s': Sys)
    requires s'.sched.current == 4 && 4 in s'.owner && s'.owner[4] == 3 && 4 in s'.doing && s'.doing[4] == User
    requires var b := s'.table.procs;
             3 in b && b[3].parent == 2 && b[3].kids == [4] && 4 in b && b[4].state == Zombie && b[4].pid == 3
    ensures Allowed(s', OpExit(status)) && Orphans(s', OpExit(status), -1)
  {
    assert 4 in s'.table.procs[3].kids && ZombieFor(s'.table.procs, -1, 4);
  }

  lemma AfterFirstExit(status: int, s': Sys)
    requires Inv(Four(Sched.Running, [4, 3, 1], 5)) && Step(Four(Sched.Running, [4, 3, 1], 5), OpExit(7), s')
    ensures Allowed(s', OpExit(status)) && Orphans(s', OpExit(status), -1)
    ensures BlockedIn(s', INIT, -1) && WaitsRight(s'.table.procs, INIT, -1)
  {
    hide *;
    var s := Four(Sched.Running, [4, 3, 1], 5);
    FourFacts(7);
    FourParent();
    ExitSchedNow(s, s');
    ExitTableNow(s, s');
    InitSleepsOn(s, s');
    OrphansNext(status, s');
  }

  lemma FourParent()
    ensures var s := Four(Sched.Running, [4, 3, 1], 5); 4 in s.table.procs && s.table.procs[4].parent == 3
  {
  }

  lemma ExitSchedNow(s: Sys, s': Sys)
    requires s == Four(Sched.Running, [4, 3, 1], 5) && Step(s, OpExit(7), s')
    ensures s'.sched.current == 4 && s'.owner == s.owner && s'.doing == s.doing[5 := Ended]
  {
  }

  lemma ExitTableNow(s: Sys, s': Sys)
    requires s == Four(Sched.Running, [4, 3, 1], 5) && Step(s, OpExit(7), s')
    ensures var b := s'.table.procs;
            3 in b && b[3].parent == 2 && b[3].kids == [4] && 4 in b && b[4].state == Zombie && b[4].pid == 3
  {
    FourFacts(7);
    ExitedIs(s.table, 4, 7);
    hide ExitedProcs;
    hide CanExit;
    hide Mach;
  }

  /** From boot: a chain of four processes, of which the first waits for any child, the last exits
      and then the last but one. Its zombie child goes to init, which sleeps on beside it. */
  lemma InitMissesFromBoot(status: int) returns (s: Sys)
    ensures Path(Prologue() + [OpExit(7)] + [OpExit(status)], s)
    ensures BlockedIn(s, INIT, -1) && !WaitsRight(s.table.procs, INIT, -1)
  {
    hide *;
    var s0 := Four(Sched.Running, [4, 3, 1], 5);
    FourPath();
    PathInv(Prologue(), s0);
    FourFacts(7);
    StepExists(s0, OpExit(7));
    var s1 :| Step(s0, OpExit(7), s1);
    PathNext(Prologue(), s0, OpExit(7), s1);
    PathInv(Prologue() + [OpExit(7)], s1);
    AfterFirstExit(status, s1);
    StepExists(s1, OpExit(status));
    s :| Step(s1, OpExit(status), s);
    PathNext(Prologue() + [OpExit(7)], s1, OpExit(status), s);
    InitMissesIff(s1, OpExit(status), s, -1);
  }
}

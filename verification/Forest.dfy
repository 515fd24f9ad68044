/** The process forest: parents, child lists, the global list and the pid bitmap. */
module Forest {
  import opened DList

  const MAX_PIDS: nat := 32768

  /** The first process ever created gets pid 0 and is init. */
  const INIT: Ptr := 1

  /** `Failed` is a process whose set-up went wrong half way. */
  datatype PState = Alive | Zombie | Failed

  /** `waiter` is the thread to wake when a child exits. */
  datatype Proc = Proc(pid: nat, state: PState, status: int, parent: Ptr, kids: seq<Ptr>, thread: Ptr, waiter: Ptr)

  /** `order` is the global list, newest first; `next` is the next process object. */
  datatype Table = Table(procs: map<Ptr, Proc>, order: seq<Ptr>, used: seq<bool>, hint: nat, next: Ptr)

  // ----- pids -----

  function Cyclic(hint: nat, offset: nat): nat { (hint + offset) % MAX_PIDS }

  /** The first free pid in cyclic order from the hint, or `MAX_PIDS`. */
  function PidScan(used: seq<bool>, hint: nat, offset: nat): (pid: nat)
    requires |used| == MAX_PIDS && hint < MAX_PIDS && offset <= MAX_PIDS
    ensures pid <= MAX_PIDS && (pid < MAX_PIDS ==> !used[pid])
    decreases MAX_PIDS - offset
  {
    if offset == MAX_PIDS then MAX_PIDS
    else if !used[Cyclic(hint, offset)] then Cyclic(hint, offset)
    else PidScan(used, hint, offset + 1)
  }

  lemma {:induction false} PidScanAll(used: seq<bool>, hint: nat, offset: nat)
    requires |used| == MAX_PIDS && hint < MAX_PIDS && offset <= MAX_PIDS && PidScan(used, hint, offset) == MAX_PIDS
    ensures forall o :: offset <= o < MAX_PIDS ==> used[Cyclic(hint, o)]
    decreases MAX_PIDS - offset
  {
    if offset < MAX_PIDS {
      PidScanAll(used, hint, offset + 1);
    }
  }

  lemma CyclicReaches(hint: nat, p: nat, o: nat)
    requires hint < MAX_PIDS && p < MAX_PIDS && o == if hint <= p then p - hint else p + MAX_PIDS - hint
    ensures o < MAX_PIDS && Cyclic(hint, o) == p
  {
  }

  /** How far ahead of the hint a pid lies, counting round from the last to the first. */
  function Ahead(hint: nat, p: nat): nat
    requires hint < 32768
  {
    if hint <= p then p - hint else p + 32768 - hint
  }

  /** No free pid is nearer ahead of the hint than the one found. */
  lemma {:induction false} PidNearest(used: seq<bool>, hint: nat, offset: nat, q: nat)
    requires |used| == MAX_PIDS && hint < MAX_PIDS && offset <= MAX_PIDS && q < MAX_PIDS && !used[q] && offset <= Ahead(hint, q)
    ensures PidScan(used, hint, offset) < MAX_PIDS && Ahead(hint, PidScan(used, hint, offset)) <= Ahead(hint, q)
    decreases MAX_PIDS - offset
  {
    CyclicReaches(hint, q, Ahead(hint, q));
    if used[Cyclic(hint, offset)] {
      PidNearest(used, hint, offset + 1, q);
    } else {
      assert Ahead(hint, Cyclic(hint, offset)) == offset;
    }
  }

  /** A pid is refused exactly when all are taken. */
  lemma PidRefusedIff(used: seq<bool>, hint: nat)
    requires |used| == MAX_PIDS && hint < MAX_PIDS
    ensures PidScan(used, hint, 0) == MAX_PIDS <==> forall p :: 0 <= p < MAX_PIDS ==> used[p]
  {
    if PidScan(used, hint, 0) == MAX_PIDS {
      PidScanAll(used, hint, 0);
      forall p | 0 <= p < MAX_PIDS
        ensures used[p]
      {
        var o := if hint <= p then p - hint else p + MAX_PIDS - hint;
        CyclicReaches(hint, p, o);
      }
    }
  }

  // ----- invariant -----

  ghost predicate Listed(t: Table) {
    NoDup(t.order) && forall r :: r in t.order <==> r in t.procs
  }

  ghost predicate HasPid(procs: map<Ptr, Proc>, pid: nat) { exists r :: r in procs && procs[r].pid == pid }

  /** Pids are distinct and the bitmap is exactly the pids of the listed processes. */
  ghost predicate PidsOk(procs: map<Ptr, Proc>, used: seq<bool>) {
    && |used| == MAX_PIDS
    && (forall r :: r in procs ==> procs[r].pid < MAX_PIDS && used[procs[r].pid])
    && (forall r, q :: r in procs && q in procs && r != q ==> procs[r].pid != procs[q].pid)
    && (forall p :: 0 <= p < MAX_PIDS && used[p] ==> HasPid(procs, p))
  }

  ghost predicate ParentOk(procs: map<Ptr, Proc>, c: Ptr)
    requires c in procs
  {
    procs[c].parent != NULL ==> procs[c].parent in procs && c in procs[procs[c].parent].kids
  }

  ghost predicate KidOk(procs: map<Ptr, Proc>, r: Ptr, c: Ptr) { c in procs && procs[c].parent == r }

  /** A process is in the child list of its parent, once, and in no other. */
  ghost predicate KidsOk(procs: map<Ptr, Proc>) {
    && (forall r :: r in procs ==> NoDup(procs[r].kids))
    && (forall r, c {:trigger KidOk(procs, r, c)} :: r in procs && c in procs[r].kids ==> KidOk(procs, r, c))
    && (forall c {:trigger ParentOk(procs, c)} :: c in procs ==> ParentOk(procs, c))
  }

  /** Parents are older than their children and init is the oldest of all. */
  ghost predicate AgesOk(t: Table) {
    && 0 < t.next && (t.next == INIT ==> t.hint == 0)
    && (forall r :: r in t.procs ==> 0 < r < t.next && t.procs[r].parent < r)
    && (t.next > INIT ==> INIT in t.procs && t.procs[INIT].pid == 0 && t.procs[INIT].parent == NULL)
  }

  /** A zombie other than init has no children. */
  ghost predicate Childless(procs: map<Ptr, Proc>) {
    forall r :: r in procs && r != INIT && procs[r].state == Zombie ==> procs[r].kids == []
  }

  ghost predicate TInv(t: Table) {
    Listed(t) && PidsOk(t.procs, t.used) && KidsOk(t.procs) && AgesOk(t) && Childless(t.procs) && t.hint < MAX_PIDS
  }

  // ----- creation -----

  ghost function WithKid(procs: map<Ptr, Proc>, parent: Ptr, c: Ptr): map<Ptr, Proc> {
    if parent in procs then procs[parent := procs[parent].(kids := procs[parent].kids + [c])] else procs
  }

  ghost function Created(t: Table, parent: Ptr, pid: nat): Table
    requires pid < MAX_PIDS && |t.used| == MAX_PIDS
  {
    var r := t.next;
    t.(procs := WithKid(t.procs, parent, r)[r := Proc(pid, Alive, 0, parent, [], NULL, NULL)],
       order := [r] + t.order, used := t.used[pid := true], hint := (pid + 1) % MAX_PIDS, next := r + 1)
  }

  lemma CreatedInv(t: Table, parent: Ptr, pid: nat)
    requires TInv(t) && pid == PidScan(t.used, t.hint, 0) < MAX_PIDS
    requires parent == NULL || (parent in t.procs && t.procs[parent].state == Alive)
    ensures TInv(Created(t, parent, pid))
  {
    hide Listed;
    hide PidsOk;
    hide KidsOk;
    hide AgesOk;
    hide Childless;
    Young(t);
    if t.next == INIT {
      FirstPid(t);
    }
    var t' := Created(t, parent, pid);
    PidsMore(t.procs, t'.procs, t.used, t.next, pid);
    KidsMore(t.procs, parent, t.next, Proc(pid, Alive, 0, parent, [], NULL, NULL));
    CreatedListed(t, parent, pid);
    CreatedAges(t, parent, pid);
  }

  lemma Young(t: Table)
    requires TInv(t)
    ensures t.next !in t.procs && NULL !in t.procs && t.next != NULL && |t.used| == MAX_PIDS
  {
  }

  /** Before the first process every pid is free. */
  lemma FirstPid(t: Table)
    requires TInv(t) && t.next == INIT
    ensures t.procs == map[] && PidScan(t.used, t.hint, 0) == 0
  {
    assert forall r :: r in t.procs ==> false;
    assert !HasPid(t.procs, 0);
  }

  lemma CreatedListed(t: Table, parent: Ptr, pid: nat)
    requires Listed(t) && t.next !in t.procs && pid < MAX_PIDS && |t.used| == MAX_PIDS
    ensures Listed(Created(t, parent, pid))
  {
    var order' := [t.next] + t.order;
    assert t.next !in t.order;
    assert NoDup(order');
  }

  lemma CreatedAges(t: Table, parent: Ptr, pid: nat)
    requires AgesOk(t) && Childless(t.procs) && (t.next == INIT ==> pid == 0 && t.procs == map[]) && pid < MAX_PIDS && |t.used| == MAX_PIDS
    requires parent == NULL || (parent in t.procs && t.procs[parent].state == Alive)
    ensures AgesOk(Created(t, parent, pid)) && Childless(Created(t, parent, pid).procs)
  {
  }

  lemma PidsMore(procs: map<Ptr, Proc>, procs': map<Ptr, Proc>, used: seq<bool>, n: Ptr, pid: nat)
    requires PidsOk(procs, used) && n !in procs && pid < MAX_PIDS && !used[pid]
    requires procs'.Keys == procs.Keys + {n} && procs'[n].pid == pid && forall r :: r in procs ==> procs'[r].pid == procs[r].pid
    ensures PidsOk(procs', used[pid := true])
  {
    forall p | 0 <= p < MAX_PIDS && used[pid := true][p]
      ensures HasPid(procs', p)
    {
      if p == pid {
        assert n in procs';
      } else {
        var r :| r in procs && procs[r].pid == p;
        assert r in procs' && procs'[r].pid == p;
      }
    }
  }

  lemma KidsMore(procs: map<Ptr, Proc>, parent: Ptr, n: Ptr, q: Proc)
    requires KidsOk(procs) && n !in procs && n != NULL && NULL !in procs && (parent == NULL || parent in procs)
    requires q.parent == parent && q.kids == []
    ensures KidsOk(WithKid(procs, parent, n)[n := q])
  {
    var procs' := WithKid(procs, parent, n)[n := q];
    forall r, c | r in procs' && c in procs'[r].kids
      ensures KidOk(procs', r, c)
    {
      assert r in procs && (c in procs[r].kids ==> KidOk(procs, r, c));
    }
    forall c | c in procs'
      ensures ParentOk(procs', c)
    {
      if c != n {
        assert ParentOk(procs, c);
      }
    }
    forall r | r in procs'
      ensures NoDup(procs'[r].kids)
    {
      if r == parent {
        assert n in procs[r].kids ==> KidOk(procs, r, n);
      }
    }
  }

  // ----- fields that do not shape the forest -----

  /** The two tables differ in states, exit statuses, threads and waiters only. */
  ghost predicate SameShape(a: map<Ptr, Proc>, b: map<Ptr, Proc>) {
    && a.Keys == b.Keys
    && forall r :: r in a ==> r in b && b[r].pid == a[r].pid && b[r].parent == a[r].parent && b[r].kids == a[r].kids
  }

  lemma SameShapeInv(t: Table, procs: map<Ptr, Proc>)
    requires TInv(t) && SameShape(t.procs, procs) && Childless(procs)
    ensures TInv(t.(procs := procs))
  {
    forall p | 0 <= p < MAX_PIDS && t.used[p]
      ensures HasPid(procs, p)
    {
      var r :| r in t.procs && t.procs[r].pid == p;
      assert r in procs;
    }
    SameKids(t.procs, procs);
    hide KidsOk;
  }

  lemma SameKids(a: map<Ptr, Proc>, b: map<Ptr, Proc>)
    requires KidsOk(a) && SameShape(a, b)
    ensures KidsOk(b)
  {
    forall r, c | r in b && c in b[r].kids
      ensures KidOk(b, r, c)
    {
      assert KidOk(a, r, c);
    }
    forall c | c in b
      ensures ParentOk(b, c)
    {
      assert ParentOk(a, c);
    }
  }

  // ----- reaping -----

  ghost function WithoutKid(procs: map<Ptr, Proc>, parent: Ptr, c: Ptr): map<Ptr, Proc> {
    if parent in procs then procs[parent := procs[parent].(kids := Drop(procs[parent].kids, c))] else procs
  }

  ghost function Reaped(t: Table, r: Ptr): Table
    requires r in t.procs && t.procs[r].pid < |t.used|
  {
    var q := t.procs[r];
    t.(procs := WithoutKid(t.procs, q.parent, r) - {r}, order := Drop(t.order, r), used := t.used[q.pid := false])
  }

  lemma ReapedInv(t: Table, r: Ptr)
    requires TInv(t) && r in t.procs && r != INIT && t.procs[r].state == Zombie
    ensures t.procs[r].pid < |t.used| && TInv(Reaped(t, r))
  {
    hide Listed;
    hide PidsOk;
    hide KidsOk;
    hide AgesOk;
    PidInRange(t, r);
    ReapedListed(t, r);
    Young(t);
    PidsLess(t, r);
    KidsLess(t.procs, r);
    ReapedAges(t, r);
  }

  lemma PidInRange(t: Table, r: Ptr)
    requires PidsOk(t.procs, t.used) && r in t.procs
    ensures t.procs[r].pid < |t.used|
  {
  }

  lemma ReapedListed(t: Table, r: Ptr)
    requires Listed(t) && r in t.procs && t.procs[r].pid < |t.used|
    ensures Listed(Reaped(t, r))
  {
    DropMembers(t.order, r);
    assert Reaped(t, r).procs.Keys == t.procs.Keys - {r};
  }

  lemma PidsLess(t: Table, r: Ptr)
    requires PidsOk(t.procs, t.used) && r in t.procs
    ensures PidsOk(Reaped(t, r).procs, Reaped(t, r).used)
  {
    var t' := Reaped(t, r);
    forall p | 0 <= p < MAX_PIDS && t'.used[p]
      ensures HasPid(t'.procs, p)
    {
      var q :| q in t.procs && t.procs[q].pid == p;
      assert q in t'.procs && t'.procs[q].pid == p;
    }
  }

  lemma KidsLess(procs: map<Ptr, Proc>, r: Ptr)
    requires KidsOk(procs) && r in procs && procs[r].kids == [] && NULL !in procs
    ensures KidsOk(WithoutKid(procs, procs[r].parent, r) - {r})
  {
    var p := procs[r].parent;
    var procs' := WithoutKid(procs, p, r) - {r};
    if p in procs {
      DropMembers(procs[p].kids, r);
    }
    forall q, c | q in procs' && c in procs'[q].kids
      ensures KidOk(procs', q, c)
    {
      assert c in procs[q].kids && KidOk(procs, q, c);
    }
    forall c | c in procs'
      ensures ParentOk(procs', c)
    {
      assert ParentOk(procs, c);
    }
  }

  lemma ReapedAges(t: Table, r: Ptr)
    requires AgesOk(t) && Childless(t.procs) && r in t.procs && r != INIT && t.procs[r].pid < |t.used|
    ensures AgesOk(Reaped(t, r)) && Childless(Reaped(t, r).procs)
  {
    var p := t.procs[r].parent;
    assert p in t.procs && t.procs[p].kids == [] ==> Drop(t.procs[p].kids, r) == [];
  }

  // ----- handing children to init -----

  /** The first child of `d` becomes the last child of `n`. */
  ghost function MoveOne(procs: map<Ptr, Proc>, d: Ptr, n: Ptr): map<Ptr, Proc>
    requires d in procs && n in procs && procs[d].kids != [] && procs[d].kids[0] in procs
  {
    var c := procs[d].kids[0];
    var p1 := procs[d := procs[d].(kids := procs[d].kids[1..])];
    var p2 := p1[c := p1[c].(parent := n)];
    p2[n := p2[n].(kids := p2[n].kids + [c])]
  }

  lemma MoveOneInv(procs: map<Ptr, Proc>, d: Ptr, n: Ptr)
    requires KidsOk(procs) && d in procs && n in procs && d != n && procs[d].kids != [] && procs[n].parent != d && procs[d].parent != d
    requires n != NULL && d != NULL
    ensures procs[d].kids[0] in procs && KidsOk(MoveOne(procs, d, n))
    ensures var c := procs[d].kids[0]; c != n && c != d && procs[c].parent == d
  {
    var c := procs[d].kids[0];
    assert c in procs[d].kids && KidOk(procs, d, c);
    var procs' := MoveOne(procs, d, n);
    assert procs'[c] == procs[c].(parent := n);
    forall r, x | r in procs' && x in procs'[r].kids
      ensures KidOk(procs', r, x)
    {
      assert x in procs[r].kids ==> KidOk(procs, r, x);
    }
    MoveOneParents(procs, d, n);
    assert c in procs[n].kids ==> KidOk(procs, n, c);
  }

  lemma MoveOneParents(procs: map<Ptr, Proc>, d: Ptr, n: Ptr)
    requires KidsOk(procs) && d in procs && n in procs && d != n && d != NULL && procs[d].kids != []
    requires procs[d].kids[0] in procs && procs[d].kids[0] != n && procs[d].kids[0] != d
    ensures forall x {:trigger ParentOk(MoveOne(procs, d, n), x)} :: x in procs ==> ParentOk(MoveOne(procs, d, n), x)
  {
    var c := procs[d].kids[0];
    var procs' := MoveOne(procs, d, n);
    forall x | x in procs
      ensures ParentOk(procs', x)
    {
      assert ParentOk(procs, x);
      if x != c && procs[x].parent == d {
        var i := FindIndex(procs[d].kids, x);
        assert procs[d].kids[1..][i - 1] == x;
      }
    }
  }

  ghost function Reparented(procs: map<Ptr, Proc>, d: Ptr, n: Ptr): map<Ptr, Proc>
    requires KidsOk(procs) && d in procs && n in procs && d != n && procs[n].parent != d && procs[d].parent != d && n != NULL && d != NULL
    decreases |procs[d].kids|
  {
    if procs[d].kids == [] then procs
    else
      MoveOneInv(procs, d, n);
      Reparented(MoveOne(procs, d, n), d, n)
  }

  /** All children of `d` end up behind those `n` had, in order; nothing else changes. */
  lemma {:induction false} ReparentedIs(procs: map<Ptr, Proc>, d: Ptr, n: Ptr)
    requires KidsOk(procs) && d in procs && n in procs && d != n && procs[n].parent != d && procs[d].parent != d && n != NULL && d != NULL
    ensures var p' := Reparented(procs, d, n);
            && KidsOk(p') && p'.Keys == procs.Keys
            && p'[d] == procs[d].(kids := []) && p'[n] == procs[n].(kids := procs[n].kids + procs[d].kids)
            && forall r :: r in procs && r != d && r != n ==>
                 p'[r] == if r in procs[d].kids then procs[r].(parent := n) else procs[r]
    decreases |procs[d].kids|
  {
    if procs[d].kids != [] {
      MoveOneInv(procs, d, n);
      var p1 := MoveOne(procs, d, n);
      ReparentedIs(p1, d, n);
      var c := procs[d].kids[0];
      assert procs[n].kids + [c] + procs[d].kids[1..] == procs[n].kids + procs[d].kids;
      assert forall r :: r in procs[d].kids <==> r == c || r in procs[d].kids[1..];
      assert c !in procs[d].kids[1..];
    }
  }

  // ----- exit -----

  /** Process `r` becomes a zombie and its children go to init. */
  ghost function ExitedProcs(procs: map<Ptr, Proc>, r: Ptr, status: int): map<Ptr, Proc>
    requires r in procs && KidsOk(procs) && r != NULL && procs[r].parent != r
    requires r != INIT ==> INIT in procs && procs[INIT].parent == NULL
  {
    var p1 := procs[r := procs[r].(state := Zombie, status := status)];
    SameKids(procs, p1);
    if r == INIT then p1 else Reparented(p1, r, INIT)
  }

  ghost predicate CanExit(t: Table, r: Ptr) {
    && TInv(t) && r in t.procs && r != NULL && t.procs[r].parent != r
    && (r != INIT ==> INIT in t.procs && t.procs[INIT].parent == NULL)
  }

  lemma ExitReady(t: Table, r: Ptr)
    requires TInv(t) && r in t.procs
    ensures CanExit(t, r)
  {
  }

  /** What exit does to each process. */
  lemma ExitedIs(t: Table, r: Ptr, status: int)
    requires CanExit(t, r)
    ensures var p' := ExitedProcs(t.procs, r, status);
            && p'.Keys == t.procs.Keys && KidsOk(p')
            && p'[r] == t.procs[r].(state := Zombie, status := status, kids := if r == INIT then t.procs[r].kids else [])
            && forall q :: q in t.procs && q != r ==>
                 p'[q] == if r != INIT && q == INIT then t.procs[q].(kids := t.procs[q].kids + t.procs[r].kids)
                          else if r != INIT && q in t.procs[r].kids then t.procs[q].(parent := INIT)
                          else t.procs[q]
  {
    var p1 := t.procs[r := t.procs[r].(state := Zombie, status := status)];
    SameKids(t.procs, p1);
    hide KidsOk;
    if r != INIT {
      ReparentedIs(p1, r, INIT);
    }
  }

  lemma ExitedInv(t: Table, r: Ptr, status: int)
    requires CanExit(t, r)
    ensures TInv(t.(procs := ExitedProcs(t.procs, r, status)))
  {
    hide PidsOk;
    hide KidsOk;
    hide AgesOk;
    hide Childless;
    hide ExitedProcs;
    ExitedIs(t, r, status);
    var p' := ExitedProcs(t.procs, r, status);
    ExitedPids(t, p', r);
    ExitedAges(t, p', r);
  }

  lemma ExitedPids(t: Table, p': map<Ptr, Proc>, r: Ptr)
    requires PidsOk(t.procs, t.used) && p'.Keys == t.procs.Keys && forall q :: q in t.procs ==> p'[q].pid == t.procs[q].pid
    ensures PidsOk(p', t.used)
  {
    forall p | 0 <= p < MAX_PIDS && t.used[p]
      ensures HasPid(p', p)
    {
      var q :| q in t.procs && t.procs[q].pid == p;
      assert q in p';
    }
  }

  lemma ExitedAges(t: Table, p': map<Ptr, Proc>, r: Ptr)
    requires CanExit(t, r) && p'.Keys == t.procs.Keys && p'[r].pid == t.procs[r].pid && p'[r].parent == t.procs[r].parent
    requires r != INIT ==> p'[r].kids == []
    requires forall q :: q in t.procs && q != r ==> p'[q].pid == t.procs[q].pid && p'[q].state == t.procs[q].state
    requires forall q :: q in t.procs && q != r && q != INIT ==>
               p'[q].kids == t.procs[q].kids && (p'[q].parent == t.procs[q].parent || p'[q].parent == INIT)
    requires r != INIT ==> p'[INIT].parent == NULL
    ensures AgesOk(t.(procs := p')) && Childless(p')
  {
  }

  // ----- reaping the zombies among a list of processes -----

  ghost function ReapAll(t: Table, ks: seq<Ptr>): Table
    decreases |ks|
  {
    if ks == [] then t
    else if ks[0] in t.procs && t.procs[ks[0]].state == Zombie && t.procs[ks[0]].pid < |t.used|
    then ReapAll(Reaped(t, ks[0]), ks[1..])
    else ReapAll(t, ks[1..])
  }

  /** No chain of parents returns to where it started. */
  lemma {:induction false} NoCycle(t: Table, chain: seq<Ptr>)
    requires TInv(t) && |chain| > 1
    requires forall i :: 0 <= i < |chain| - 1 ==> chain[i] in t.procs && t.procs[chain[i]].parent == chain[i + 1]
    ensures chain[|chain| - 1] < chain[0]
    decreases |chain|
  {
    if |chain| > 2 {
      NoCycle(t, chain[1..]);
    }
    assert t.procs[chain[0]].parent == chain[1];
  }
}

/** The process table as it is stored: records with intrusive child lists, one global list
    and a bitmap of pids. */
module ProcTable {
  import opened DList
  import opened Forest

  datatype Rec = Rec(pid: nat, state: PState, status: int, parent: Ptr, thread: Ptr, waiter: Ptr, childHead: Ptr, childTail: Ptr)

  /** A record as it stands for process `p`. */
  function RecOf(p: Proc): Rec {
    Rec(p.pid, p.state, p.status, p.parent, p.thread, p.waiter,
        if p.kids == [] then NULL else p.kids[0], if p.kids == [] then NULL else p.kids[|p.kids| - 1])
  }

  ghost predicate Stands(recs: map<Ptr, Rec>, procs: map<Ptr, Proc>) {
    recs.Keys == procs.Keys && forall r :: r in procs ==> recs[r] == RecOf(procs[r])
  }

  ghost predicate KidLists(m: Links, procs: map<Ptr, Proc>) {
    forall r :: r in procs ==> IsList(m, procs[r].kids)
  }

  /** Child lists of different processes share no node. */
  lemma KidsApart(procs: map<Ptr, Proc>, r: Ptr, q: Ptr)
    requires KidsOk(procs) && r in procs && q in procs && r != q
    ensures forall c :: c in procs[r].kids ==> c !in procs[q].kids
  {
    forall c | c in procs[r].kids
      ensures c !in procs[q].kids
    {
      assert KidOk(procs, r, c);
      assert c in procs[q].kids ==> KidOk(procs, q, c);
    }
  }

  lemma UnlinkedLists(m: Links, procs: map<Ptr, Proc>, p: Ptr, c: Ptr)
    requires KidsOk(procs) && KidLists(m, procs) && p in procs && c in procs[p].kids
    ensures c in m && (m[c].prev == NULL || m[c].prev in m) && (m[c].next == NULL || m[c].next in m)
    ensures IsList(Unlink(m, c), Drop(procs[p].kids, c))
    ensures forall q :: q in procs && q != p ==> IsList(Unlink(m, c), procs[q].kids)
  {
    var k := IndexOf(procs[p].kids, c);
    UnlinkList(m, procs[p].kids, k);
    forall q | q in procs && q != p
      ensures IsList(Unlink(m, c), procs[q].kids)
    {
      KidsApart(procs, p, q);
      UnlinkKeeps(m, procs[p].kids, k, procs[q].kids);
    }
  }

  class ProcessTable {
    var recs: map<Ptr, Rec>
    var childLinks: Links
    var globalLinks: Links
    var processList: Ptr
    var bitmap: seq<bool>
    var hint: nat
    var next: Ptr
    ghost var t: Table

    ghost predicate Valid()
      reads this
    {
      && TInv(t) && Stands(recs, t.procs) && KidLists(childLinks, t.procs)
      && IsList(globalLinks, t.order) && processList == First(t.order)
      && bitmap == t.used && hint == t.hint && next == t.next
    }

    constructor ()
      ensures Valid() && t.procs == map[] && t.order == [] && t.hint == 0 && t.next == INIT
      ensures forall p :: 0 <= p < MAX_PIDS ==> !t.used[p]
    {
      recs := map[];
      childLinks := map[];
      globalLinks := map[];
      processList := NULL;
      bitmap := seq(MAX_PIDS, i => false);
      hint := 0;
      next := INIT;
      t := Table(map[], [], seq(MAX_PIDS, i => false), 0, INIT);
    }

    /** Marks the first free pid from the hint on as used. */
    method PidAlloc() returns (pid: nat)
      requires |bitmap| == MAX_PIDS && hint < MAX_PIDS
      modifies `bitmap, `hint
      ensures pid == PidScan(old(bitmap), old(hint), 0)
      ensures forall q :: 0 <= q < MAX_PIDS && !old(bitmap)[q] ==> pid < MAX_PIDS && Ahead(old(hint), pid) <= Ahead(old(hint), q)
      ensures pid == MAX_PIDS ==> bitmap == old(bitmap) && hint == old(hint)
      ensures pid < MAX_PIDS ==> bitmap == old(bitmap)[pid := true] && hint == (pid + 1) % MAX_PIDS
    {
      forall q | 0 <= q < MAX_PIDS && !bitmap[q]
        ensures PidScan(bitmap, hint, 0) < MAX_PIDS && Ahead(hint, PidScan(bitmap, hint, 0)) <= Ahead(hint, q)
      {
        PidNearest(bitmap, hint, 0, q);
      }
      for offset := 0 to MAX_PIDS
        invariant bitmap == old(bitmap) && hint == old(hint)
        invariant PidScan(bitmap, hint, 0) == PidScan(bitmap, hint, offset)
      {
        pid := (hint + offset) % MAX_PIDS;
        if !bitmap[pid] {
          bitmap := bitmap[pid := true];
          hint := (pid + 1) % MAX_PIDS;
          return;
        }
      }
      pid := MAX_PIDS;
    }

    method PidFree(pid: nat)
      requires |bitmap| == MAX_PIDS
      modifies `bitmap
      ensures bitmap == if pid < MAX_PIDS then old(bitmap)[pid := false] else old(bitmap)
    {
      if pid >= MAX_PIDS {
        return;
      }
      bitmap := bitmap[pid := false];
    }

    method FindProcess(pid: nat) returns (r: Ptr)
      requires IsList(globalLinks, t.order) && processList == First(t.order) && forall q :: q in t.order ==> q in recs
      ensures if r == NULL then forall q :: q in t.order ==> recs[q].pid != pid else r in t.order && recs[r].pid == pid
    {
      r := processList;
      ghost var k := 0;
      assert t.order != [] ==> NodeOk(globalLinks, t.order, 0);
      while r != NULL
        invariant k <= |t.order| && (r == NULL <==> k == |t.order|) && (k < |t.order| ==> r == t.order[k])
        invariant forall j :: 0 <= j < k ==> recs[t.order[j]].pid != pid
        decreases |t.order| - k
      {
        assert NodeOk(globalLinks, t.order, k);
        if recs[r].pid == pid {
          return;
        }
        Neighbours(globalLinks, t.order, k);
        r := globalLinks[r].next;
        k := k + 1;
      }
    }

    method LinkChild(parent: Ptr, child: Ptr, ghost ks: seq<Ptr>)
      requires IsList(childLinks, ks) && child != NULL && child !in ks && parent in recs
      requires recs[parent].childHead == First(ks) && recs[parent].childTail == Last(ks)
      modifies `recs, `childLinks
      ensures (Last(ks) == NULL || Last(ks) in old(childLinks)) && childLinks == LinkBack(old(childLinks), Last(ks), child)
      ensures recs == old(recs)[parent := old(recs)[parent].(childHead := First(ks + [child]), childTail := child)]
    {
      LinkBackList(childLinks, ks, child);
      var tail := recs[parent].childTail;
      childLinks := childLinks[child := Link(NULL, tail)];
      if tail != NULL {
        childLinks := SetNext(childLinks, tail, child);
      } else {
        recs := recs[parent := recs[parent].(childHead := child)];
      }
      recs := recs[parent := recs[parent].(childTail := child)];
    }

    method UnlinkChild(parent: Ptr, child: Ptr, ghost ks: seq<Ptr>)
      requires IsList(childLinks, ks) && child in ks && parent in recs
      requires recs[parent].childHead == First(ks) && recs[parent].childTail == Last(ks)
      modifies `recs, `childLinks
      ensures var m := old(childLinks);
              && child in m && (m[child].prev == NULL || m[child].prev in m) && (m[child].next == NULL || m[child].next in m)
              && childLinks == Unlink(m, child)
      ensures recs == old(recs)[parent := old(recs)[parent].(childHead := First(Drop(ks, child)), childTail := Last(Drop(ks, child)))]
    {
      ghost var k := IndexOf(ks, child);
      UnlinkList(childLinks, ks, k);
      Neighbours(childLinks, ks, k);
      EndsAfter(ks, k);
      var prev, nxt := childLinks[child].prev, childLinks[child].next;
      if prev != NULL {
        childLinks := SetNext(childLinks, prev, nxt);
      } else {
        recs := recs[parent := recs[parent].(childHead := nxt)];
      }
      if nxt != NULL {
        childLinks := SetPrev(childLinks, nxt, prev);
      } else {
        recs := recs[parent := recs[parent].(childTail := prev)];
      }
      childLinks := childLinks[child := Link(NULL, NULL)];
    }

    method UnlinkGlobal(r: Ptr, ghost order: seq<Ptr>)
      requires IsList(globalLinks, order) && r in order && processList == First(order)
      modifies `globalLinks, `processList
      ensures IsList(globalLinks, Drop(order, r)) && processList == First(Drop(order, r))
    {
      ghost var k := IndexOf(order, r);
      UnlinkList(globalLinks, order, k);
      Neighbours(globalLinks, order, k);
      EndsAfter(order, k);
      var prev, nxt := globalLinks[r].prev, globalLinks[r].next;
      if prev != NULL {
        globalLinks := SetNext(globalLinks, prev, nxt);
      } else {
        processList := nxt;
      }
      if nxt != NULL {
        globalLinks := SetPrev(globalLinks, nxt, prev);
      }
      globalLinks := globalLinks[r := Link(NULL, NULL)];
    }

    /** A new process at the head of the global list and the tail of its parent's children. */
    method ProcessCreate(parent: Ptr) returns (r: Ptr)
      requires Valid() && (parent == NULL || (parent in t.procs && t.procs[parent].state == Alive))
      modifies this
      ensures Valid()
      ensures var pid := PidScan(old(t).used, old(t).hint, 0);
              if pid == MAX_PIDS then r == NULL && t == old(t) else r == old(t).next && t == Created(old(t), parent, pid)
    {
      hide TInv;
      hide KidLists;
      hide Stands;
      ghost var was := t;
      Sizes(t);
      var pid := PidAlloc();
      if pid == MAX_PIDS {
        return NULL;
      }
      r := next;
      next := next + 1;
      Young(was);
      ListedNow(was);
      CreatedInv(was, parent, pid);
      recs := recs[r := Rec(pid, Alive, 0, parent, NULL, NULL, NULL, NULL)];
      if parent != NULL {
        ParentRec(old(recs), was.procs, childLinks, parent);
        NewKid(was, parent, r);
        LinkChild(parent, r, was.procs[parent].kids);
      }
      LinkFrontList(globalLinks, was.order, r);
      globalLinks := globalLinks[r := Link(processList, NULL)];
      if processList != NULL {
        globalLinks := SetPrev(globalLinks, processList, r);
      }
      processList := r;
      t := Created(was, parent, pid);
      CreatedStands(old(recs), was, parent, pid);
      CreatedLists(old(childLinks), was, parent, pid);
    }

    /** Takes a zombie off its parent's list and the global list and frees its pid. */
    method ReapProcess(r: Ptr)
      requires Valid() && r in t.procs && r != INIT
      modifies this
      ensures Valid()
      ensures if old(t).procs[r].state == Zombie then old(t).procs[r].pid < |old(t).used| && t == Reaped(old(t), r) else t == old(t)
    {
      hide TInv;
      hide KidLists;
      hide Stands;
      hide IsList;
      hide Reaped;
      ghost var was := t;
      RecNow(recs, t.procs, r);
      if recs[r].state != Zombie {
        return;
      }
      Sizes(was);
      ListedNow(was);
      ReapedInv(was, r);
      ZombieRec(was, r);
      var parent := recs[r].parent;
      if parent != NULL {
        ParentRec(recs, was.procs, childLinks, parent);
        UnlinkChild(parent, r, was.procs[parent].kids);
      }
      UnlinkGlobal(r, was.order);
      PidFree(recs[r].pid);
      recs := recs - {r};
      ReapedLists(old(childLinks), was, r);
      ReapedStands(old(recs), was, r);
      t := Reaped(was, r);
      assert t.order == Drop(was.order, r) && t.used == was.used[was.procs[r].pid := false] && t.hint == was.hint && t.next == was.next by {
        ReapedFields(was, r);
      }
    }

    /** Fields that do not shape the forest. */
    method SetRecord(r: Ptr, state: PState, thread: Ptr, waiter: Ptr)
      requires Valid() && r in t.procs && (state == Zombie ==> t.procs[r].state == Zombie)
      modifies `recs, `t
      ensures Valid()
      ensures t == old(t).(procs := old(t).procs[r := old(t).procs[r].(state := state, thread := thread, waiter := waiter)])
    {
      hide TInv;
      hide KidLists;
      hide Stands;
      hide IsList;
      ghost var p1 := t.procs[r := t.procs[r].(state := state, thread := thread, waiter := waiter)];
      RecNow(recs, t.procs, r);
      RecordShape(t, r, p1);
      SameLists(childLinks, t.procs, p1);
      RecordStands(recs, t.procs, r, state, thread, waiter);
      recs := recs[r := recs[r].(state := state, thread := thread, waiter := waiter)];
      t := t.(procs := p1);
    }

    /** Every child of `d` is moved to the end of the children of `n`. */
    method ReparentChildren(d: Ptr, n: Ptr, ghost p0: map<Ptr, Proc>)
      requires Stands(recs, p0) && KidLists(childLinks, p0) && CanMove(p0, d, n)
      modifies `recs, `childLinks
      ensures Stands(recs, Reparented(p0, d, n)) && KidLists(childLinks, Reparented(p0, d, n))
    {
      hide KidsOk;
      hide Stands;
      hide KidLists;
      hide IsList;
      hide MoveOne;
      ghost var p: map<Ptr, Proc> := p0;
      ParentRec(recs, p, childLinks, d);
      var child := recs[d].childHead;
      while child != NULL
        invariant Stands(recs, p) && KidLists(childLinks, p) && CanMove(p, d, n)
        invariant child == First(p[d].kids) && (child == NULL ==> p[d].kids == [])
        invariant Reparented(p, d, n) == Reparented(p0, d, n)
        decreases |p[d].kids|
      {
        ghost var c := child;
        MoveReady(p, childLinks, d, n);
        ParentRec(recs, p, childLinks, d);
        ParentRec(recs, p, childLinks, n);
        RecNow(recs, p, c);
        var nxt := childLinks[child].next;
        ghost var recs0, m0 := recs, childLinks;
        UnlinkChild(d, child, p[d].kids);
        recs := recs[child := recs[child].(parent := n)];
        LinkChild(n, child, p[n].kids);
        MoveStands(recs0, p, d, n);
        MoveLists(m0, p, d, n);
        assert recs == MovedRecs(recs0, p, d, n);
        MoveKeeps(p, childLinks, d, n);
        p := MoveOne(p, d, n);
        child := nxt;
      }
    }

    /** The process becomes a zombie; its children go to the process with pid 0. */
    method MarkExit(r: Ptr, status: int)
      requires Valid() && r in t.procs && CanExit(t, r)
      modifies this
      ensures Valid() && t == old(t).(procs := ExitedProcs(old(t).procs, r, status))
    {
      hide TInv;
      hide KidLists;
      hide Stands;
      hide IsList;
      hide KidsOk;
      ghost var was := t;
      ghost var p1 := was.procs[r := was.procs[r].(state := Zombie, status := status)];
      Sizes(was);
      SameKids(was.procs, p1);
      RecNow(recs, t.procs, r);
      recs := recs[r := recs[r].(status := status, state := Zombie)];
      ZombieStands(old(recs), was.procs, r, status);
      SameLists(childLinks, was.procs, p1);
      OrderRecs(recs, was, p1);
      var init := FindProcess(0);
      InitFound(recs, was, p1, r, init);
      ExitedInv(was, r, status);
      if init != NULL && init != r {
        ReparentChildren(r, init, p1);
      }
      t := was.(procs := ExitedProcs(was.procs, r, status));
    }

    /** Reaps every zombie among the children of the process with pid 0. */
    method ReapZombiesOfInit()
      requires Valid()
      modifies this
      ensures Valid()
      ensures t == if INIT in old(t).procs then ReapAll(old(t), old(t).procs[INIT].kids) else old(t)
    {
      hide TInv;
      hide KidLists;
      hide Stands;
      hide IsList;
      hide Reaped;
      OrderRecs(recs, t, t.procs);
      var init := FindProcess(0);
      InitThere(recs, t, init);
      if init == NULL {
        return;
      }
      ghost var kept, rest := [], t.procs[INIT].kids;
      ParentRec(recs, t.procs, childLinks, INIT);
      var child := recs[init].childHead;
      while child != NULL
        invariant Valid() && INIT in t.procs && t.procs[INIT].kids == kept + rest
        invariant child == First(rest) && (child == NULL ==> rest == [])
        invariant ReapAll(t, rest) == ReapAll(old(t), old(t).procs[INIT].kids)
        decreases |rest|
      {
        SweepNode(t, childLinks, kept, rest);
        RecNow(recs, t.procs, child);
        var nxt := childLinks[child].next;
        ghost var was := t;
        if recs[child].state == Zombie {
          ReapProcess(child);
          SweepReaped(was, kept, rest);
        } else {
          kept := kept + [child];
        }
        rest := rest[1..];
        child := nxt;
      }
    }
  }

  lemma RecordShape(t: Table, r: Ptr, p1: map<Ptr, Proc>)
    requires TInv(t) && SameShape(t.procs, p1) && forall q :: q in t.procs && p1[q].state == Zombie ==> t.procs[q].state == Zombie
    ensures TInv(t.(procs := p1))
  {
    SameShapeInv(t, p1);
  }

  lemma RecordStands(recs: map<Ptr, Rec>, procs: map<Ptr, Proc>, r: Ptr, state: PState, thread: Ptr, waiter: Ptr)
    requires Stands(recs, procs) && r in procs && r in recs
    ensures Stands(recs[r := recs[r].(state := state, thread := thread, waiter := waiter)],
                   procs[r := procs[r].(state := state, thread := thread, waiter := waiter)])
  {
  }

  lemma ZombieStands(recs: map<Ptr, Rec>, procs: map<Ptr, Proc>, r: Ptr, status: int)
    requires Stands(recs, procs) && r in procs && r in recs
    ensures Stands(recs[r := recs[r].(status := status, state := Zombie)], procs[r := procs[r].(state := Zombie, status := status)])
  {
  }

  lemma SameLists(m: Links, a: map<Ptr, Proc>, b: map<Ptr, Proc>)
    requires KidLists(m, a) && SameShape(a, b)
    ensures KidLists(m, b)
  {
    hide IsList;
  }

  lemma OrderRecs(recs: map<Ptr, Rec>, t: Table, procs: map<Ptr, Proc>)
    requires TInv(t) && Stands(recs, procs) && procs.Keys == t.procs.Keys
    ensures forall q :: q in t.order ==> q in recs
  {
  }

  lemma InitFound(recs: map<Ptr, Rec>, t: Table, p1: map<Ptr, Proc>, r: Ptr, init: Ptr)
    requires TInv(t) && r in t.procs && Stands(recs, p1) && SameShape(t.procs, p1) && forall q :: q in t.order ==> q in recs
    requires if init == NULL then forall q :: q in t.order ==> recs[q].pid != 0 else init in t.order && recs[init].pid == 0
    ensures init == INIT && CanExit(t, r) && (r != INIT ==> CanMove(p1, r, INIT))
  {
    ExitReady(t, r);
    SameKids(t.procs, p1);
    assert INIT in t.procs && INIT in t.order && p1[INIT].pid == 0;
    hide KidsOk;
  }

  lemma InitThere(recs: map<Ptr, Rec>, t: Table, init: Ptr)
    requires TInv(t) && Stands(recs, t.procs) && forall q :: q in t.order ==> q in recs
    requires if init == NULL then forall q :: q in t.order ==> recs[q].pid != 0 else init in t.order && recs[init].pid == 0
    ensures if init == NULL then INIT !in t.procs else init == INIT && INIT in t.procs
  {
    if INIT in t.procs {
      assert INIT in t.order && t.procs[INIT].pid == 0;
    }
    if init != NULL {
      assert init in t.procs && t.procs[init].pid == 0 && INIT in t.procs;
    }
  }

  lemma SweepNode(t: Table, m: Links, kept: seq<Ptr>, rest: seq<Ptr>)
    requires TInv(t) && KidLists(m, t.procs) && INIT in t.procs && t.procs[INIT].kids == kept + rest && rest != []
    ensures var c := rest[0];
            && c in t.procs && c != INIT && c in m && m[c].next == First(rest[1..]) && (First(rest[1..]) == NULL ==> rest[1..] == [])
            && t.procs[c].parent == INIT && t.procs[c].pid < |t.used|
    ensures t.procs[INIT].kids == kept + [rest[0]] + rest[1..]
  {
    var ks := t.procs[INIT].kids;
    assert ks[|kept|] == rest[0];
    assert rest[0] in ks && KidOk(t.procs, INIT, rest[0]);
    Neighbours(m, ks, |kept|);
    assert NextOf(ks, |kept|) == First(rest[1..]);
  }

  lemma SweepReaped(t: Table, kept: seq<Ptr>, rest: seq<Ptr>)
    requires TInv(t) && INIT in t.procs && t.procs[INIT].kids == kept + rest && rest != [] && rest[0] in t.procs
    requires rest[0] != INIT && t.procs[rest[0]].parent == INIT && t.procs[rest[0]].pid < |t.used|
    ensures var t' := Reaped(t, rest[0]); INIT in t'.procs && t'.procs[INIT].kids == kept + rest[1..]
  {
    var ks := t.procs[INIT].kids;
    assert ks[|kept|] == rest[0];
    assert IndexOf(ks, rest[0]) == |kept|;
    assert Without(ks, |kept|) == kept + rest[1..];
  }

  ghost predicate CanMove(procs: map<Ptr, Proc>, d: Ptr, n: Ptr) {
    && KidsOk(procs) && d in procs && n in procs && d != n && procs[n].parent != d && procs[d].parent != d && n != NULL && d != NULL
  }

  lemma DropFirst(s: seq<Ptr>)
    requires s != [] && NoDup(s)
    ensures Drop(s, s[0]) == s[1..]
  {
    assert s[0] in s;
    assert IndexOf(s, s[0]) == 0;
  }

  lemma MoveReady(p: map<Ptr, Proc>, m: Links, d: Ptr, n: Ptr)
    requires CanMove(p, d, n) && KidLists(m, p) && p[d].kids != []
    ensures var c := p[d].kids[0]; var ks := p[d].kids;
            && c in p && c != NULL && c != d && c != n && c in ks && c !in p[n].kids && Drop(ks, c) == ks[1..]
            && c in m && m[c].next == First(ks[1..]) && (First(ks[1..]) == NULL ==> ks[1..] == [])
            && (m[c].prev == NULL || m[c].prev in m) && (m[c].next == NULL || m[c].next in m)
            && IsList(Unlink(m, c), p[n].kids) && IsList(Unlink(m, c), ks[1..])
  {
    var ks := p[d].kids;
    var c := ks[0];
    MoveOneInv(p, d, n);
    DropFirst(ks);
    UnlinkedLists(m, p, d, c);
    KidsApart(p, d, n);
    Neighbours(m, ks, 0);
    assert NodeOk(m, ks, 0);
    assert First(ks[1..]) == NextOf(ks, 0);
  }

  function MovedRecs(recs: map<Ptr, Rec>, p: map<Ptr, Proc>, d: Ptr, n: Ptr): map<Ptr, Rec>
    requires d in p && n in p && p[d].kids != [] && {d, n, p[d].kids[0]} <= recs.Keys
  {
    var ks := p[d].kids;
    var c := ks[0];
    var r1 := recs[d := recs[d].(childHead := if |ks| > 1 then ks[1] else NULL, childTail := if |ks| > 1 then ks[|ks| - 1] else NULL)];
    var r2 := r1[c := r1[c].(parent := n)];
    r2[n := r2[n].(childHead := if p[n].kids == [] then c else p[n].kids[0], childTail := c)]
  }

  lemma MoveStands(recs: map<Ptr, Rec>, p: map<Ptr, Proc>, d: Ptr, n: Ptr)
    requires CanMove(p, d, n) && Stands(recs, p) && p[d].kids != []
    ensures p[d].kids[0] in p && Stands(MovedRecs(recs, p, d, n), MoveOne(p, d, n))
  {
    MoveOneInv(p, d, n);
    hide KidsOk;
  }

  lemma MoveLists(m: Links, p: map<Ptr, Proc>, d: Ptr, n: Ptr)
    requires CanMove(p, d, n) && KidLists(m, p) && p[d].kids != []
    ensures var c := p[d].kids[0];
            && c in p && c in m && (m[c].prev == NULL || m[c].prev in m) && (m[c].next == NULL || m[c].next in m)
            && (Last(p[n].kids) == NULL || Last(p[n].kids) in Unlink(m, c))
            && KidLists(LinkBack(Unlink(m, c), Last(p[n].kids), c), MoveOne(p, d, n))
  {
    var c := p[d].kids[0];
    MoveReady(p, m, d, n);
    UnlinkedLists(m, p, d, c);
    var m1 := Unlink(m, c);
    LinkBackList(m1, p[n].kids, c);
    var m2 := LinkBack(m1, Last(p[n].kids), c);
    var p' := MoveOne(p, d, n);
    forall q | q in p' && q != n
      ensures IsList(m2, p'[q].kids)
    {
      MoveOther(p, d, n, q);
      LinkBackKeeps(m1, p[n].kids, c, p'[q].kids);
    }
  }

  /** The list of a process other than `n`, after the move, is apart from the list of `n`. */
  lemma MoveOther(p: map<Ptr, Proc>, d: Ptr, n: Ptr, q: Ptr)
    requires CanMove(p, d, n) && p[d].kids != [] && p[d].kids[0] in p && q in p && q != n && p[d].kids[0] != n && p[d].kids[0] != d
    ensures var ks := MoveOne(p, d, n)[q].kids;
            && ks == (if q == d then p[d].kids[1..] else p[q].kids)
            && p[d].kids[0] !in ks && forall y :: y in p[n].kids ==> y !in ks
  {
    KidsApart(p, n, q);
    if q != d {
      KidsApart(p, d, q);
    }
  }

  lemma MoveKeeps(p: map<Ptr, Proc>, m: Links, d: Ptr, n: Ptr)
    requires CanMove(p, d, n) && p[d].kids != []
    ensures p[d].kids[0] in p && CanMove(MoveOne(p, d, n), d, n) && MoveOne(p, d, n)[d].kids == p[d].kids[1..]
  {
    MoveOneInv(p, d, n);
  }

  lemma Sizes(t: Table)
    requires TInv(t)
    ensures |t.used| == MAX_PIDS && t.hint < MAX_PIDS && KidsOk(t.procs)
  {
  }

  lemma ParentRec(recs: map<Ptr, Rec>, procs: map<Ptr, Proc>, m: Links, p: Ptr)
    requires Stands(recs, procs) && KidLists(m, procs) && p in procs
    ensures p in recs && recs[p].childHead == First(procs[p].kids) && recs[p].childTail == Last(procs[p].kids)
    ensures IsList(m, procs[p].kids) && (First(procs[p].kids) == NULL ==> procs[p].kids == [])
  {
    assert procs[p].kids != [] ==> NodeOk(m, procs[p].kids, 0);
  }

  lemma RecNow(recs: map<Ptr, Rec>, procs: map<Ptr, Proc>, r: Ptr)
    requires Stands(recs, procs) && r in procs
    ensures r in recs && recs[r] == RecOf(procs[r])
  {
  }

  lemma ReapedFields(t: Table, r: Ptr)
    requires r in t.procs && t.procs[r].pid < |t.used|
    ensures var t' := Reaped(t, r);
            t'.order == Drop(t.order, r) && t'.used == t.used[t.procs[r].pid := false] && t'.hint == t.hint && t'.next == t.next
  {
  }

  lemma ReapedStands(recs: map<Ptr, Rec>, t: Table, r: Ptr)
    requires Stands(recs, t.procs) && r in t.procs && t.procs[r].pid < |t.used| && t.procs[r].parent != r && NULL !in t.procs
    requires var p := t.procs[r].parent; p == NULL || p in t.procs
    ensures var p := t.procs[r].parent;
            Stands((if p == NULL then recs
                    else recs[p := recs[p].(childHead := First(Drop(t.procs[p].kids, r)), childTail := Last(Drop(t.procs[p].kids, r)))]) - {r},
                   Reaped(t, r).procs)
  {
    hide Drop;
  }

  lemma NewKid(t: Table, parent: Ptr, r: Ptr)
    requires TInv(t) && parent in t.procs && r !in t.procs
    ensures r !in t.procs[parent].kids
  {
    assert r in t.procs[parent].kids ==> KidOk(t.procs, parent, r);
  }

  lemma ZombieRec(t: Table, r: Ptr)
    requires TInv(t) && r in t.procs
    ensures NULL !in t.procs && r in t.order && t.procs[r].parent != r && t.procs[r].pid < MAX_PIDS
    ensures t.procs[r].parent != NULL ==> t.procs[r].parent in t.procs && r in t.procs[t.procs[r].parent].kids
  {
    assert ParentOk(t.procs, r);
  }

  lemma CreatedStands(recs: map<Ptr, Rec>, t: Table, parent: Ptr, pid: nat)
    requires Stands(recs, t.procs) && t.next !in t.procs && NULL !in t.procs && pid < MAX_PIDS && |t.used| == MAX_PIDS && t.next != NULL
    requires parent == NULL || parent in t.procs
    ensures var r := t.next; var recs1 := recs[r := Rec(pid, Alive, 0, parent, NULL, NULL, NULL, NULL)];
            Stands(if parent == NULL then recs1
                   else recs1[parent := recs1[parent].(childHead := First(t.procs[parent].kids + [r]), childTail := r)],
                   Created(t, parent, pid).procs)
  {
  }

  lemma CreatedLists(m: Links, t: Table, parent: Ptr, pid: nat)
    requires KidLists(m, t.procs) && TInv(t) && pid < MAX_PIDS && (parent == NULL || parent in t.procs)
    ensures parent != NULL ==> Last(t.procs[parent].kids) == NULL || Last(t.procs[parent].kids) in m
    ensures KidLists(if parent == NULL then m else LinkBack(m, Last(t.procs[parent].kids), t.next), Created(t, parent, pid).procs)
  {
    Young(t);
    if parent != NULL {
      NewKid(t, parent, t.next);
      LinkBackList(m, t.procs[parent].kids, t.next);
      var m' := LinkBack(m, Last(t.procs[parent].kids), t.next);
      forall q | q in t.procs && q != parent
        ensures IsList(m', t.procs[q].kids)
      {
        KidsApart(t.procs, parent, q);
        NewKid(t, q, t.next);
        LinkBackKeeps(m, t.procs[parent].kids, t.next, t.procs[q].kids);
      }
    }
  }

  lemma ReapedLists(m: Links, t: Table, r: Ptr)
    requires KidLists(m, t.procs) && TInv(t) && r in t.procs && t.procs[r].pid < |t.used|
    ensures var p := t.procs[r].parent;
            && (p != NULL ==> r in m && (m[r].prev == NULL || m[r].prev in m) && (m[r].next == NULL || m[r].next in m))
            && KidLists(if p == NULL then m else Unlink(m, r), Reaped(t, r).procs)
  {
    var p := t.procs[r].parent;
    ZombieRec(t, r);
    if p != NULL {
      UnlinkedLists(m, t.procs, p, r);
    }
    hide IsList;
  }

  lemma ListedNow(t: Table)
    requires TInv(t)
    ensures Listed(t)
  {
  }

  lemma EndsAfter(s: seq<Ptr>, k: nat)
    requires k < |s| && NoDup(s)
    ensures k == 0 ==> First(Without(s, k)) == NextOf(s, k)
    ensures k > 0 ==> First(Without(s, k)) == First(s)
    ensures k == |s| - 1 ==> Last(Without(s, k)) == PrevOf(s, k)
    ensures k < |s| - 1 ==> Last(Without(s, k)) == Last(s)
  {
  }
}

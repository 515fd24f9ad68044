/** Copy-on-write sharing is invisible: over every run, each address space reads and
    writes as if fork had copied every page. */
module CowRuns {
  import opened PageEntry
  import opened Cow
  import Pmm

  // ----- what a program can observe -----

  /** Rights of a page as its owner sees them: a copy-on-write page is writable. */
  datatype PageView = PageView(writable: bool, user: bool, writeThrough: bool, cacheDisable: bool,
                               isGlobal: bool, noExecute: bool, bytes: Bytes)

  type Eager = map<Slot, PageView>

  ghost function ViewOf(e: Entry, bytes: Bytes): PageView {
    PageView(e.writable || e.cow, e.user, e.writeThrough, e.cacheDisable, e.isGlobal, e.noExecute, bytes)
  }

  ghost function PagesView(leaf: map<Slot, Entry>, data: map<Frame, Bytes>): Eager {
    map s | s in leaf && leaf[s].frame in data :: ViewOf(leaf[s], data[leaf[s].frame])
  }

  ghost function View(w: World): Eager {
    PagesView(w.leaf, w.data)
  }

  // ----- operations -----

  datatype Op =
    | Map(s: Slot, e: Entry, bytes: Bytes)
    | Clone(src: Frame, dst: Frame)
    | CloneFails(src: Frame)
    | Fault(s: Slot)
    | Write(s: Slot, offset: nat, value: Byte)
    | Free(r: Frame)
    | Hold(f: Frame, bytes: Bytes)
    | Unhold(f: Frame)

  /** The space rooted at `dst` becomes a marked copy of `src`, and `src` is marked. */
  ghost predicate ClonedSpace(leaf: map<Slot, Entry>, leaf': map<Slot, Entry>, src: Frame, dst: Frame) {
    && (forall s :: s in leaf' <==> s in leaf || (s.r == dst && Reroot(s, src) in leaf))
    && (forall s :: s in leaf ==> leaf'[s] == if s.r == src then CowMark(leaf[s]) else leaf[s])
    && (forall s: Slot :: s.r == dst && Reroot(s, src) in leaf ==> leaf'[s] == CowMark(leaf[Reroot(s, src)]))
  }

  ghost predicate MarkedSpace(leaf: map<Slot, Entry>, leaf': map<Slot, Entry>, src: Frame) {
    && leaf'.Keys == leaf.Keys
    && forall s :: s in leaf ==> leaf'[s] == leaf[s] || (s.r == src && leaf'[s] == CowMark(leaf[s]))
  }

  ghost predicate FreedSpace(leaf: map<Slot, Entry>, leaf': map<Slot, Entry>, r: Frame) {
    && (forall s :: s in leaf' <==> s in leaf && s.r != r)
    && (forall s :: s in leaf' ==> leaf'[s] == leaf[s])
  }

  /** The pages of the space rooted at `r` that name frame `f`. */
  ghost function MappersIn(leaf: map<Slot, Entry>, r: Frame, f: Frame): set<Slot> {
    set s | s in leaf && s.r == r && leaf[s].frame == f
  }

  /** A page of `src` that names `f` has been marked for sharing. */
  ghost predicate Marked(leaf: map<Slot, Entry>, leaf': map<Slot, Entry>, src: Frame, f: Frame) {
    exists s :: s in leaf && s in leaf' && s.r == src && leaf[s].frame == f && leaf'[s] == CowMark(leaf[s])
  }

  /** `w'` is `t`, except that the counts of frames that are no user pages may differ. */
  ghost predicate Agrees(w': World, t: World) {
    && w'.leaf == t.leaf && w'.live == t.live && w'.held == t.held && w'.data == t.data
    && |w'.refs| == |t.refs| && forall f :: f in t.live && f < |t.refs| ==> w'.refs[f] == t.refs[f]
  }

  /** Each page of the source that names a frame adds one reference to it. */
  ghost predicate CloneCounts(w: World, w': World, src: Frame) {
    && w'.live == w.live && w'.held == w.held && w'.data == w.data && |w'.refs| == |w.refs|
    && forall f :: f in w.live && f < |w.refs| ==> w'.refs[f] == w.refs[f] + |MappersIn(w.leaf, src, f)|
  }

  /** References taken for a copy that was abandoned stay, held by nobody. */
  ghost predicate FailCounts(w: World, w': World, src: Frame) {
    && w'.live == w.live && w'.data == w.data && w.held <= w'.held && |w'.refs| == |w.refs|
    && (forall f :: w'.held[f] > w.held[f] ==> Marked(w.leaf, w'.leaf, src, f))
    && forall f :: f in w.live && f < |w.refs| ==> w'.refs[f] == w.refs[f] + (w'.held[f] - w.held[f])
  }

  /** Each page of the space gives one reference back; frames left without one are free. */
  ghost predicate FreeCounts(w: World, w': World, r: Frame) {
    && w'.held == w.held && w'.data == w.data && |w'.refs| == |w.refs|
    && (forall f :: f in w'.live <==> f in w.live && f < |w.refs| && w.refs[f] > |MappersIn(w.leaf, r, f)|)
    && forall f :: f in w'.live && f < |w.refs| ==> w'.refs[f] == w.refs[f] - |MappersIn(w.leaf, r, f)|
  }

  ghost predicate Step(w: World, op: Op, w': World) {
    match op
    case Map(s, e, bytes) =>
      && (e.present ==> e.frame in w.data && w.data[e.frame] == bytes)
      && FreshFor(w, e) && Agrees(w', MapOver(w, s, e))
    case Clone(src, dst) =>
      && (forall s :: s in w.leaf ==> s.r != dst)
      && ClonedSpace(w.leaf, w'.leaf, src, dst) && CloneCounts(w, w', src)
    case CloneFails(src) =>
      MarkedSpace(w.leaf, w'.leaf, src) && FailCounts(w, w', src)
    case Fault(s) =>
      && s in w.leaf && w.leaf[s].cow && w.leaf[s].frame < |w.refs|
      && if w.refs[w.leaf[s].frame] <= 1 then Agrees(w', Reclaim(w, s))
         else w.leaf[s].frame in w.data && exists g :: CopiedTo(w, s, g, w')
    case Write(s, offset, value) =>
      && s in w.leaf && w.leaf[s].writable && offset < Pmm.PAGE_SIZE && w.leaf[s].frame in w.data
      && Agrees(w', w.(data := w.data[w.leaf[s].frame := w.data[w.leaf[s].frame][offset := value]]))
    case Free(r) =>
      FreedSpace(w.leaf, w'.leaf, r) && FreeCounts(w, w', r)
    case Hold(f, bytes) =>
      f !in w.live && f < Pmm.MAX_PAGES && f < |w.refs| && Agrees(w', Cow.Hold(w, f, bytes))
    case Unhold(f) =>
      f in w.held && f < |w.refs| && Agrees(w', Cow.Unhold(w, f))
  }

  ghost predicate CopiedTo(w: World, s: Slot, g: Frame, w': World)
    requires s in w.leaf && w.leaf[s].frame < |w.refs| && w.leaf[s].frame in w.data
  {
    g < Pmm.MAX_PAGES && g < |w.refs| && g !in w.live && Agrees(w', CopyOut(w, s, g))
  }

  /** The same operation when fork copies every page at once. */
  ghost function EagerStep(v: Eager, op: Op): Eager {
    match op
    case Map(s, e, bytes) =>
      if e.present then v[s := ViewOf(e, bytes)] else v - {s}
    case Clone(src, dst) =>
      EagerClone(v, src, dst)
    case Write(s, offset, value) =>
      if s in v && offset < Pmm.PAGE_SIZE then v[s := v[s].(bytes := v[s].bytes[offset := value])] else v
    case Free(r) =>
      map s | s in v && s.r != r :: v[s]
    case CloneFails(_) => v
    case Fault(_) => v
    case Hold(_, _) => v
    case Unhold(_) => v
  }

  // ----- every step keeps the invariant -----

  lemma AgreesInv(w': World, t: World)
    requires Inv(t) && Agrees(w', t)
    ensures Inv(w')
  {
  }

  /** A frame is a user page exactly if somebody refers to it. */
  lemma LiveIff(w: World, f: Frame)
    requires Inv(w)
    ensures f in w.live <==> f in w.held || Mappers(w.leaf, f) != {}
  {
    if Mappers(w.leaf, f) != {} {
      var s :| s in Mappers(w.leaf, f);
    }
  }

  /** Entries and outside references determine counts and frames. */
  lemma InvAgrees(w': World, t: World)
    requires Inv(w') && Inv(t) && w'.leaf == t.leaf && w'.held == t.held && w'.data == t.data
    ensures Agrees(w', t)
  {
    forall f: Frame
      ensures f in w'.live <==> f in t.live
    {
      LiveIff(w', f);
      LiveIff(t, f);
    }
  }

  lemma {:induction false} RerootSize(a: set<Slot>, src: Frame, dst: Frame)
    requires forall s :: s in a ==> s.r == src
    ensures |set s | s in a :: Reroot(s, dst)| == |a|
    decreases |a|
  {
    var b := set s | s in a :: Reroot(s, dst);
    if a == {} {
      assert b == {};
    } else {
      var x :| x in a;
      RerootSize(a - {x}, src, dst);
      var c := set s | s in a - {x} :: Reroot(s, dst);
      forall s | s in a && Reroot(s, dst) == Reroot(x, dst)
        ensures s == x
      {
        assert Reroot(Reroot(s, dst), src) == s && Reroot(Reroot(x, dst), src) == x;
      }
      assert b == c + {Reroot(x, dst)};
    }
  }

  lemma CloneMappers(leaf: map<Slot, Entry>, leaf': map<Slot, Entry>, src: Frame, dst: Frame, f: Frame)
    requires ClonedSpace(leaf, leaf', src, dst) && forall s :: s in leaf ==> s.r != dst
    ensures |Mappers(leaf', f)| == |Mappers(leaf, f)| + |MappersIn(leaf, src, f)|
  {
    var a := MappersIn(leaf, src, f);
    var b := set s | s in a :: Reroot(s, dst);
    RerootSize(a, src, dst);
    forall s
      ensures s in Mappers(leaf', f) <==> s in Mappers(leaf, f) || s in b
    {
      if s.r == dst && Reroot(s, src) in leaf {
        assert Reroot(Reroot(s, src), dst) == s;
      }
    }
    assert Mappers(leaf', f) == Mappers(leaf, f) + b;
    assert Mappers(leaf, f) !! b;
  }

  lemma CloneKeepsInv(w: World, src: Frame, dst: Frame, w': World)
    requires Inv(w) && (forall s :: s in w.leaf ==> s.r != dst)
    requires ClonedSpace(w.leaf, w'.leaf, src, dst) && CloneCounts(w, w', src)
    ensures Inv(w')
  {
    CloneKeepsCounts(w, src, dst, w');
    ClonePlaces(w, src, dst, w');
    hide CountsOk;
    hide LeavesOk;
    hide SharedInPlace;
    forall x | x in w'.leaf && w'.leaf[x].writable
      ensures w'.leaf[x].frame < |w'.refs| && w'.refs[w'.leaf[x].frame] == 1
    {
      CloneWriter(w, src, dst, w', x);
    }
    hide ClonedSpace;
    hide CloneCounts;
  }

  lemma CloneKeepsCounts(w: World, src: Frame, dst: Frame, w': World)
    requires LeavesOk(w) && CountsOk(w) && (forall s :: s in w.leaf ==> s.r != dst)
    requires ClonedSpace(w.leaf, w'.leaf, src, dst) && CloneCounts(w, w', src)
    ensures LeavesOk(w') && CountsOk(w')
  {
    forall s | s in w'.leaf
      ensures w'.leaf[s].present && w'.leaf[s].frame in w'.live
    {
      var s0 := if s in w.leaf then s else Reroot(s, src);
      assert s0 in w.leaf;
    }
    forall f | f in w'.live
      ensures w'.refs[f] >= 1 && w'.refs[f] == |Mappers(w'.leaf, f)| + w'.held[f]
    {
      CloneMappers(w.leaf, w'.leaf, src, dst, f);
    }
    hide ClonedSpace;
    hide Mappers;
  }

  lemma CloneWriter(w: World, src: Frame, dst: Frame, w': World, x: Slot)
    requires Inv(w) && ClonedSpace(w.leaf, w'.leaf, src, dst) && CloneCounts(w, w', src) && x in w'.leaf && w'.leaf[x].writable
    ensures w'.leaf[x].frame < |w'.refs| && w'.refs[w'.leaf[x].frame] == 1
  {
    assert x in w.leaf && x.r != src;
    var a := MappersIn(w.leaf, src, w.leaf[x].frame);
    if a != {} {
      var y :| y in a;
      SoleMapper(w, x, y);
    }
    assert a == {};
  }

  lemma ClonePlaces(w: World, src: Frame, dst: Frame, w': World)
    requires SharedInPlace(w) && ClonedSpace(w.leaf, w'.leaf, src, dst)
    ensures SharedInPlace(w')
  {
    forall x, y | x in w'.leaf && y in w'.leaf && w'.leaf[x].frame == w'.leaf[y].frame
      ensures SamePage(x, y)
    {
      var x0 := if x in w.leaf then x else Reroot(x, src);
      var y0 := if y in w.leaf then y else Reroot(y, src);
      assert w.leaf[x0].frame == w.leaf[y0].frame;
      assert SamePage(x0, y0);
    }
  }

  lemma FreeMappers(leaf: map<Slot, Entry>, leaf': map<Slot, Entry>, r: Frame, f: Frame)
    requires FreedSpace(leaf, leaf', r)
    ensures |Mappers(leaf, f)| == |Mappers(leaf', f)| + |MappersIn(leaf, r, f)|
  {
    assert Mappers(leaf, f) == Mappers(leaf', f) + MappersIn(leaf, r, f);
  }

  lemma FreeKeepsInv(w: World, r: Frame, w': World)
    requires Inv(w) && FreedSpace(w.leaf, w'.leaf, r) && FreeCounts(w, w', r)
    ensures Inv(w')
  {
    forall f | f in w.live
      ensures w.refs[f] - |MappersIn(w.leaf, r, f)| == |Mappers(w'.leaf, f)| + w'.held[f]
    {
      FreeMappers(w.leaf, w'.leaf, r, f);
    }
    forall s | s in w'.leaf
      ensures w'.leaf[s].frame in w'.live
    {
      var f := w.leaf[s].frame;
      SubsetSize({s}, Mappers(w'.leaf, f));
    }
    forall x | x in w'.leaf && w'.leaf[x].writable
      ensures w'.refs[w'.leaf[x].frame] == 1
    {
      var f := w.leaf[x].frame;
      SubsetSize({x}, Mappers(w'.leaf, f));
    }
  }

  lemma FailMappers(leaf: map<Slot, Entry>, leaf': map<Slot, Entry>, src: Frame, f: Frame)
    requires MarkedSpace(leaf, leaf', src)
    ensures Mappers(leaf', f) == Mappers(leaf, f)
  {
  }

  lemma FailKeepsInv(w: World, src: Frame, w': World)
    requires Inv(w) && MarkedSpace(w.leaf, w'.leaf, src) && FailCounts(w, w', src)
    ensures Inv(w')
  {
    FailKeepsCounts(w, src, w');
    forall x | x in w'.leaf && w'.leaf[x].writable
      ensures w'.leaf[x].frame < |w'.refs| && w'.refs[w'.leaf[x].frame] == 1
    {
      FailWriter(w, src, w', x);
    }
  }

  lemma FailKeepsCounts(w: World, src: Frame, w': World)
    requires LeavesOk(w) && CountsOk(w) && MarkedSpace(w.leaf, w'.leaf, src) && FailCounts(w, w', src)
    ensures LeavesOk(w') && CountsOk(w')
  {
    hide Mappers;
    forall f: Frame
      ensures Mappers(w'.leaf, f) == Mappers(w.leaf, f)
    {
      FailMappers(w.leaf, w'.leaf, src, f);
    }
    FailLeaves(w, src, w');
    forall f | f in w'.held
      ensures f in w.live
    {
      if w'.held[f] > w.held[f] {
        assert Marked(w.leaf, w'.leaf, src, f);
      }
    }
    hide MarkedSpace;
    hide Marked;
    hide LeavesOk;
  }

  lemma FailLeaves(w: World, src: Frame, w': World)
    requires LeavesOk(w) && MarkedSpace(w.leaf, w'.leaf, src) && w'.live == w.live
    ensures LeavesOk(w')
  {
  }

  /** A page that is still writable was not shared. */
  lemma FailWriter(w: World, src: Frame, w': World, x: Slot)
    requires Inv(w) && MarkedSpace(w.leaf, w'.leaf, src) && FailCounts(w, w', src) && x in w'.leaf && w'.leaf[x].writable
    ensures w'.leaf[x].frame < |w'.refs| && w'.refs[w'.leaf[x].frame] == 1
  {
    var f := w.leaf[x].frame;
    if w'.held[f] > w.held[f] {
      var s :| s in w.leaf && s in w'.leaf && s.r == src && w.leaf[s].frame == f && w'.leaf[s] == CowMark(w.leaf[s]);
      SoleMapper(w, x, s);
      assert false;
    }
  }

  lemma StepKeepsInv(w: World, op: Op, w': World)
    requires Inv(w) && Step(w, op, w')
    ensures Inv(w')
  {
    match op
    case Map(s, e, bytes) =>
      MapOverKeepsInv(w, s, e);
      hide Inv;
      AgreesInv(w', MapOver(w, s, e));
    case Clone(src, dst) =>
      hide Inv;
      CloneKeepsInv(w, src, dst, w');
    case CloneFails(src) =>
      hide Inv;
      FailKeepsInv(w, src, w');
    case Fault(s) =>
      FaultKeepsInv(w, s, w');
    case Write(s, offset, value) =>
      WriteKeepsInv(w, s, w.data[w.leaf[s].frame][offset := value], w');
    case Free(r) =>
      hide Inv;
      FreeKeepsInv(w, r, w');
    case Hold(f, bytes) =>
      hide Inv;
      HoldKeepsInv(w, f, bytes);
      AgreesInv(w', Cow.Hold(w, f, bytes));
    case Unhold(f) =>
      hide Inv;
      UnholdKeepsInv(w, f);
      AgreesInv(w', Cow.Unhold(w, f));
  }

  lemma FaultKeepsInv(w: World, s: Slot, w': World)
    requires Inv(w) && Step(w, Fault(s), w')
    ensures Inv(w')
  {
    if w.refs[w.leaf[s].frame] <= 1 {
      ReclaimKeepsInv(w, s);
      AgreesInv(w', Reclaim(w, s));
    } else {
      var g :| CopiedTo(w, s, g, w');
      CopyOutKeepsInv(w, s, g);
      AgreesInv(w', CopyOut(w, s, g));
    }
  }

  lemma WriteKeepsInv(w: World, s: Slot, bytes: Bytes, w': World)
    requires Inv(w) && s in w.leaf && Agrees(w', w.(data := w.data[w.leaf[s].frame := bytes]))
    ensures Inv(w')
  {
  }

  // ----- one step -----

  /** Every page of every space has contents. */
  ghost predicate Backed(leaf: map<Slot, Entry>, data: map<Frame, Bytes>) {
    forall s :: s in leaf ==> leaf[s].frame in data
  }

  lemma InvBacked(w: World)
    requires Inv(w)
    ensures Backed(w.leaf, w.data)
  {
  }

  lemma MapRefines(leaf: map<Slot, Entry>, data: map<Frame, Bytes>, s: Slot, e: Entry)
    requires Backed(leaf, data) && e.frame in data
    ensures PagesView(leaf[s := e], data) == PagesView(leaf, data)[s := ViewOf(e, data[e.frame])]
  {
  }

  lemma UnmapRefines(leaf: map<Slot, Entry>, data: map<Frame, Bytes>, s: Slot)
    ensures PagesView(leaf - {s}, data) == PagesView(leaf, data) - {s}
  {
  }

  ghost function EagerClone(v: Eager, src: Frame, dst: Frame): Eager {
    v + map s | s in v && s.r == src :: Reroot(s, dst) := v[Reroot(s, src)]
  }

  lemma CloneRefines(leaf: map<Slot, Entry>, leaf': map<Slot, Entry>, data: map<Frame, Bytes>, src: Frame, dst: Frame)
    requires Backed(leaf, data) && ClonedSpace(leaf, leaf', src, dst) && forall s :: s in leaf ==> s.r != dst
    ensures PagesView(leaf', data) == EagerClone(PagesView(leaf, data), src, dst)
  {
    hide *;
    var v, v' := PagesView(leaf, data), PagesView(leaf', data);
    var e := EagerClone(v, src, dst);
    forall s
      ensures SameAt(v', e, s)
    {
      CloneAgrees(leaf, leaf', data, src, dst, s);
    }
    SameView(v', e);
  }

  ghost predicate SameAt(v: Eager, e: Eager, s: Slot) { (s in v <==> s in e) && (s in v && s in e ==> v[s] == e[s]) }

  lemma SameView(v: Eager, e: Eager)
    requires forall s :: SameAt(v, e, s)
    ensures v == e
  {
    forall s
      ensures (s in v <==> s in e) && (s in v && s in e ==> v[s] == e[s])
    {
      assert SameAt(v, e, s);
    }
  }

  lemma CloneAgrees(leaf: map<Slot, Entry>, leaf': map<Slot, Entry>, data: map<Frame, Bytes>, src: Frame, dst: Frame, s: Slot)
    requires Backed(leaf, data) && ClonedSpace(leaf, leaf', src, dst) && forall x :: x in leaf ==> x.r != dst
    ensures SameAt(PagesView(leaf', data), EagerClone(PagesView(leaf, data), src, dst), s)
  {
    var v := PagesView(leaf, data);
    assert forall x :: x in v ==> x in leaf;
    hide ClonedSpace;
    hide EagerClone;
    hide PagesView;
    hide Backed;
    EagerCloneAt(v, src, dst, s);
    ClonedAt(leaf, leaf', data, src, dst, s);
  }

  lemma EagerCloneAt(v: Eager, src: Frame, dst: Frame, s: Slot)
    requires forall x :: x in v ==> x.r != dst
    ensures var e := EagerClone(v, src, dst);
            && (s in e <==> s in v || (s.r == dst && Reroot(s, src) in v))
            && (s in v ==> e[s] == v[s])
            && (s.r == dst && Reroot(s, src) in v ==> e[s] == v[Reroot(s, src)])
  {
    if s.r == dst && Reroot(s, src) in v {
      assert Reroot(Reroot(s, src), dst) == s;
    }
  }

  lemma ClonedAt(leaf: map<Slot, Entry>, leaf': map<Slot, Entry>, data: map<Frame, Bytes>, src: Frame, dst: Frame, s: Slot)
    requires Backed(leaf, data) && ClonedSpace(leaf, leaf', src, dst) && forall x :: x in leaf ==> x.r != dst
    ensures var v, v' := PagesView(leaf, data), PagesView(leaf', data);
            && (s in v' <==> s in v || (s.r == dst && Reroot(s, src) in v))
            && (s in v ==> v'[s] == v[s])
            && (s.r == dst && Reroot(s, src) in v ==> v'[s] == v[Reroot(s, src)])
  {
  }

  lemma MarkRefines(leaf: map<Slot, Entry>, leaf': map<Slot, Entry>, data: map<Frame, Bytes>, src: Frame)
    requires MarkedSpace(leaf, leaf', src)
    ensures PagesView(leaf', data) == PagesView(leaf, data)
  {
    forall s | s in leaf
      ensures leaf'[s].frame == leaf[s].frame
      ensures leaf[s].frame in data ==> ViewOf(leaf'[s], data[leaf[s].frame]) == ViewOf(leaf[s], data[leaf[s].frame])
    {
    }
  }

  lemma FaultRefines(w: World, s: Slot, w': World)
    requires Inv(w) && Step(w, Fault(s), w')
    ensures View(w') == View(w)
  {
    if w.refs[w.leaf[s].frame] <= 1 {
      ReclaimView(w.leaf, w.data, s);
    } else {
      var g :| CopiedTo(w, s, g, w');
      assert forall x :: x in w.leaf ==> w.leaf[x].frame != g;
      CopyOutView(w.leaf, w.data, s, g);
    }
  }

  lemma ReclaimView(leaf: map<Slot, Entry>, data: map<Frame, Bytes>, s: Slot)
    requires s in leaf && leaf[s].cow
    ensures PagesView(leaf[s := leaf[s].(writable := true, cow := false)], data) == PagesView(leaf, data)
  {
  }

  lemma CopyOutView(leaf: map<Slot, Entry>, data: map<Frame, Bytes>, s: Slot, g: Frame)
    requires s in leaf && leaf[s].cow && leaf[s].frame in data && forall x :: x in leaf ==> leaf[x].frame != g
    ensures PagesView(leaf[s := leaf[s].(frame := g, writable := true, cow := false)], data[g := data[leaf[s].frame]])
            == PagesView(leaf, data)
  {
  }

  /** A write reaches one page of one space: nobody else maps a writable frame. */
  lemma WriteRefines(leaf: map<Slot, Entry>, data: map<Frame, Bytes>, s: Slot, bytes: Bytes)
    requires s in leaf && Backed(leaf, data) && forall x :: x in leaf && x != s ==> leaf[x].frame != leaf[s].frame
    ensures PagesView(leaf, data[leaf[s].frame := bytes]) ==
            PagesView(leaf, data)[s := ViewOf(leaf[s], bytes)]
  {
  }

  lemma WriterAlone(w: World, s: Slot)
    requires Inv(w) && s in w.leaf && w.leaf[s].writable
    ensures forall x :: x in w.leaf && x != s ==> w.leaf[x].frame != w.leaf[s].frame
  {
    forall x | x in w.leaf && x != s
      ensures w.leaf[x].frame != w.leaf[s].frame
    {
      if w.leaf[x].frame == w.leaf[s].frame {
        SoleMapper(w, s, x);
      }
    }
  }

  lemma FreeRefines(leaf: map<Slot, Entry>, leaf': map<Slot, Entry>, data: map<Frame, Bytes>, r: Frame)
    requires FreedSpace(leaf, leaf', r)
    ensures PagesView(leaf', data) == map s | s in PagesView(leaf, data) && s.r != r :: PagesView(leaf, data)[s]
  {
  }

  lemma HoldRefines(leaf: map<Slot, Entry>, data: map<Frame, Bytes>, f: Frame, bytes: Bytes)
    requires Backed(leaf, data) && forall s :: s in leaf ==> leaf[s].frame != f
    ensures PagesView(leaf, data[f := bytes]) == PagesView(leaf, data)
  {
  }

  lemma MapCase(w: World, s: Slot, e: Entry, bytes: Bytes, w': World)
    requires Backed(w.leaf, w.data) && Step(w, Map(s, e, bytes), w')
    ensures View(w') == EagerStep(View(w), Map(s, e, bytes))
  {
    MapOverShape(w, s, e);
    hide MapOver;
    if e.present {
      MapRefines(w.leaf, w.data, s, e);
    } else {
      UnmapRefines(w.leaf, w.data, s);
    }
  }

  lemma WriteCase(w: World, s: Slot, offset: nat, value: Byte, w': World)
    requires Inv(w) && Step(w, Write(s, offset, value), w')
    ensures View(w') == EagerStep(View(w), Write(s, offset, value))
  {
    InvBacked(w);
    WriterAlone(w, s);
    hide Inv;
    WriteRefines(w.leaf, w.data, s, w.data[w.leaf[s].frame][offset := value]);
  }

  lemma StepRefines(w: World, op: Op, w': World)
    requires Inv(w) && Step(w, op, w')
    ensures View(w') == EagerStep(View(w), op)
  {
    hide Inv;
    hide Step;
    hide View;
    InvBacked(w);
    match op
    case Map(s, e, bytes) => MapCase(w, s, e, bytes, w');
    case Clone(src, dst) => SpaceCase(w, op, w');
    case CloneFails(src) => SpaceCase(w, op, w');
    case Fault(s) => FaultRefines(w, s, w');
    case Write(s, offset, value) => WriteCase(w, s, offset, value, w');
    case Free(r) => SpaceCase(w, op, w');
    case Hold(f, bytes) => HoldCase(w, f, bytes, w');
    case Unhold(f) => UnholdCase(w, f, w');
  }

  lemma SpaceCase(w: World, op: Op, w': World)
    requires Backed(w.leaf, w.data) && Step(w, op, w') && (op.Clone? || op.CloneFails? || op.Free?)
    ensures View(w') == EagerStep(View(w), op)
  {
    hide ClonedSpace;
    hide MarkedSpace;
    hide FreedSpace;
    hide PagesView;
    hide EagerClone;
    hide Backed;
    match op
    case Clone(src, dst) => CloneRefines(w.leaf, w'.leaf, w.data, src, dst);
    case CloneFails(src) => MarkRefines(w.leaf, w'.leaf, w.data, src);
    case Free(r) => FreeRefines(w.leaf, w'.leaf, w.data, r);
  }

  lemma HoldCase(w: World, f: Frame, bytes: Bytes, w': World)
    requires Inv(w) && Step(w, Hold(f, bytes), w')
    ensures View(w') == View(w)
  {
    InvBacked(w);
    assert forall s :: s in w.leaf ==> w.leaf[s].frame in w.live;
    hide Inv;
    hide PagesView;
    HoldRefines(w.leaf, w.data, f, bytes);
  }

  lemma UnholdCase(w: World, f: Frame, w': World)
    requires Step(w, Unhold(f), w')
    ensures View(w') == View(w)
  {
    hide PagesView;
  }

  // ----- every run -----

  ghost predicate Run(trace: seq<World>, ops: seq<Op>) {
    && |trace| == |ops| + 1 && Inv(trace[0])
    && forall i :: 0 <= i < |ops| ==> Step(trace[i], ops[i], trace[i + 1])
  }

  ghost function EagerRun(v: Eager, ops: seq<Op>): Eager {
    if ops == [] then v else EagerStep(EagerRun(v, ops[..|ops| - 1]), ops[|ops| - 1])
  }

  /** Copy-on-write refines eager copying: after any run of any length, by any number of
      address spaces, each page of each space reads what it would if every fork had
      copied every page. */
  lemma {:induction false} LazyIsEager(trace: seq<World>, ops: seq<Op>, n: nat)
    requires Run(trace, ops) && n <= |ops|
    ensures Inv(trace[n]) && View(trace[n]) == EagerRun(View(trace[0]), ops[..n])
  {
    hide Step;
    hide Inv;
    hide View;
    hide EagerStep;
    if n == 0 {
      assert ops[..0] == [];
    } else {
      LazyIsEager(trace, ops, n - 1);
      assert Step(trace[n - 1], ops[n - 1], trace[n]);
      StepKeepsInv(trace[n - 1], ops[n - 1], trace[n]);
      StepRefines(trace[n - 1], ops[n - 1], trace[n]);
      assert ops[..n][..n - 1] == ops[..n - 1];
    }
  }

  ghost predicate Accounted(w: World) {
    && (forall f :: f in w.live ==> f < |w.refs| && w.refs[f] == |Mappers(w.leaf, f)| + w.held[f])
    && (forall s, t ::
          s in w.leaf && t in w.leaf && w.leaf[s].writable && w.leaf[s].frame == w.leaf[t].frame ==> s == t)
    && (forall f :: f in w.live <==> f in w.held || Mappers(w.leaf, f) != {})
  }

  /** In every state of every run a writable page is its frame's only mapping, and every
      frame's count is the number of entries that name it plus the references held
      outside page tables. */
  lemma RunKeepsCounts(trace: seq<World>, ops: seq<Op>, n: nat)
    requires Run(trace, ops) && n <= |ops|
    ensures Accounted(trace[n])
  {
    LazyIsEager(trace, ops, n);
    var w := trace[n];
    forall s, t | s in w.leaf && t in w.leaf && w.leaf[s].writable && w.leaf[s].frame == w.leaf[t].frame
      ensures s == t
    {
      SoleMapper(w, s, t);
    }
    forall f: Frame
      ensures f in w.live <==> f in w.held || Mappers(w.leaf, f) != {}
    {
      LiveIff(w, f);
    }
  }

  // ----- isolation -----

  /** Operations that are not about the space rooted at `r`. */
  predicate Elsewhere(op: Op, r: Frame) {
    match op
    case Map(s, _, _) => s.r != r
    case Clone(_, dst) => dst != r
    case Write(s, _, _) => s.r != r
    case Free(x) => x != r
    case CloneFails(_) => true
    case Fault(_) => true
    case Hold(_, _) => true
    case Unhold(_) => true
  }

  ghost predicate SameSpace(v: Eager, v': Eager, r: Frame) {
    && (forall s: Slot :: s.r == r ==> (s in v <==> s in v'))
    && (forall s :: s in v && s in v' && s.r == r ==> v'[s] == v[s])
  }

  lemma EagerElsewhere(v: Eager, op: Op, r: Frame)
    requires Elsewhere(op, r)
    ensures SameSpace(v, EagerStep(v, op), r)
  {
  }

  lemma {:induction false} EagerRunElsewhere(v: Eager, ops: seq<Op>, r: Frame)
    requires forall i :: 0 <= i < |ops| ==> Elsewhere(ops[i], r)
    ensures SameSpace(v, EagerRun(v, ops), r)
  {
    if ops != [] {
      EagerRunElsewhere(v, ops[..|ops| - 1], r);
      EagerElsewhere(EagerRun(v, ops[..|ops| - 1]), ops[|ops| - 1], r);
    }
  }

  /** No run of other spaces, whatever it forks, writes, faults on or frees, changes what
      a space reads or may write. */
  lemma SpacesIsolated(trace: seq<World>, ops: seq<Op>, r: Frame)
    requires Run(trace, ops) && forall i :: 0 <= i < |ops| ==> Elsewhere(ops[i], r)
    ensures SameSpace(View(trace[0]), View(trace[|ops|]), r)
  {
    LazyIsEager(trace, ops, |ops|);
    assert ops[..|ops|] == ops;
    EagerRunElsewhere(View(trace[0]), ops, r);
  }

  // ----- steps as the tables and the allocator take them -----

  lemma ReclaimStep(w: World, s: Slot)
    requires Inv(w) && s in w.leaf && w.leaf[s].cow && w.refs[w.leaf[s].frame] <= 1
    ensures Step(w, Fault(s), Reclaim(w, s))
  {
  }

  lemma CopyOutStep(w: World, s: Slot, g: Frame)
    requires Inv(w) && s in w.leaf && w.leaf[s].cow && w.refs[w.leaf[s].frame] > 1
    requires g < Pmm.MAX_PAGES && g !in w.live
    ensures w.leaf[s].frame in w.data && Step(w, Fault(s), CopyOut(w, s, g))
  {
    assert w.leaf[s].frame in w.live;
    assert CopiedTo(w, s, g, CopyOut(w, s, g));
  }

  lemma MapStep(w: World, s: Slot, e: Entry, bytes: Bytes, w': World)
    requires Inv(w) && Inv(w') && FreshFor(w, e) && (e.present ==> e.frame in w.data && w.data[e.frame] == bytes)
    requires w'.leaf == MapOver(w, s, e).leaf && w'.held == MapOver(w, s, e).held && w'.data == w.data
    ensures Step(w, Map(s, e, bytes), w')
  {
    hide Inv;
    MapOverShape(w, s, e);
    MapOverKeepsInv(w, s, e);
    InvAgrees(w', MapOver(w, s, e));
  }

  lemma CloneStep(w: World, src: Frame, dst: Frame, w': World)
    requires Inv(w) && Inv(w') && (forall s :: s in w.leaf ==> s.r != dst)
    requires ClonedSpace(w.leaf, w'.leaf, src, dst) && w'.held == w.held && w'.data == w.data
    ensures Step(w, Clone(src, dst), w')
  {
    forall f: Frame
      ensures f in w'.live <==> f in w.live
      ensures f in w.live ==> w'.refs[f] == w.refs[f] + |MappersIn(w.leaf, src, f)|
    {
      LiveIff(w, f);
      LiveIff(w', f);
      CloneMappers(w.leaf, w'.leaf, src, dst, f);
    }
  }

  lemma FailStep(w: World, src: Frame, w': World)
    requires Inv(w) && Inv(w') && MarkedSpace(w.leaf, w'.leaf, src) && w.held <= w'.held && w'.data == w.data
    requires forall f :: w'.held[f] > w.held[f] ==> Marked(w.leaf, w'.leaf, src, f)
    ensures Step(w, CloneFails(src), w')
  {
    forall f: Frame
      ensures f in w'.live <==> f in w.live
      ensures f in w.live ==> w'.refs[f] == w.refs[f] + (w'.held[f] - w.held[f])
    {
      LiveIff(w, f);
      LiveIff(w', f);
      FailMappers(w.leaf, w'.leaf, src, f);
    }
  }

  lemma FreeStep(w: World, r: Frame, w': World)
    requires Inv(w) && Inv(w') && FreedSpace(w.leaf, w'.leaf, r) && w'.held == w.held && w'.data == w.data
    ensures Step(w, Free(r), w')
  {
    forall f: Frame
      ensures f in w'.live <==> f in w.live && w.refs[f] > |MappersIn(w.leaf, r, f)|
      ensures f in w'.live ==> w'.refs[f] == w.refs[f] - |MappersIn(w.leaf, r, f)|
    {
      LiveIff(w, f);
      LiveIff(w', f);
      FreeMappers(w.leaf, w'.leaf, r, f);
    }
  }
}

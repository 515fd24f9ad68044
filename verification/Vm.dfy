/** Physical memory, the page-table trees in it and the user pages they map, as one
    value, with the updates the kernel makes and the invariant each of them keeps. */
module Vm {
  import opened PageEntry
  import opened PageTree
  import opened PageWalk
  import Pmm
  import Cow

  /** `tab` and `data` are the frames' contents as tables and as user pages, `used` and
      `refs` the page allocator's view. `owner` maps a frame to the table in it, `leaf`
      are the present user pages, `live` the frames that back them, `held` references
      kept outside page tables, `other` the frames used for anything else. */
  datatype State = State(
    tree: Tree,
    tab: map<Frame, Table>, data: map<Frame, Cow.Bytes>,
    used: seq<bool>, refs: seq<Pmm.Count>,
    owner: map<Frame, Node>,
    leaf: map<Slot, Entry>, live: set<Frame>, held: multiset<Frame>, other: set<Frame>)

  ghost function World(v: State): Cow.World {
    Cow.World(v.leaf, v.refs, v.live, v.held, v.data)
  }

  ghost predicate Memory(v: State) {
    forall n :: n in v.tree.cell ==>
      v.tree.cell[n].frame in v.tab && v.tab[v.tree.cell[n].frame] == v.tree.cell[n].table
  }

  ghost predicate Owners(v: State) {
    && (forall n :: n in v.tree.cell ==>
          v.tree.cell[n].frame in v.owner && v.owner[v.tree.cell[n].frame] == n)
    && (forall f :: f in v.owner ==> v.owner[f] in v.tree.cell && v.tree.cell[v.owner[f]].frame == f)
  }

  ghost predicate Frames(v: State) {
    && |v.used| == |v.refs| == Pmm.MAX_PAGES
    && v.live !! v.other && v.owner.Keys !! v.live && v.owner.Keys !! v.other
    && (forall f :: f in v.owner || f in v.live || f in v.other ==> f < Pmm.MAX_PAGES)
    && (forall f :: f in v.owner ==> v.refs[f] <= 1 && (v.owner[f].r != v.tree.kernel ==> v.refs[f] == 1))
    && (forall f :: 0 <= f < Pmm.MAX_PAGES ==>
          (v.used[f] <==> f in v.owner || f in v.live || f in v.other))
  }

  ghost predicate Inv(v: State) {
    && Wf(v.tree) && Leaves(v.tree, v.leaf) && Memory(v) && Owners(v) && Frames(v)
    && Cow.Inv(World(v))
  }

  /** The copy-on-write invariant only looks at frames in use as user pages. */
  lemma SameUse(w: Cow.World, w': Cow.World)
    requires Cow.Inv(w) && w'.leaf == w.leaf && w'.live == w.live && w'.held == w.held
    requires |w'.refs| == |w.refs| && w.data.Keys <= w'.data.Keys
    requires forall f :: f in w.live ==> w'.refs[f] == w.refs[f]
    ensures Cow.Inv(w')
  {
  }

  /** Which entries are in force does not matter to memory. */
  lemma SameMemory(v: State, t': Tree)
    requires Memory(v) && Owners(v) && Frames(v) && SameCells(v.tree, t')
    ensures var v' := v.(tree := t'); Memory(v') && Owners(v') && Frames(v')
  {
  }

  // ----- tables -----

  /** What the invariant says of one table. */
  lemma TableFacts(v: State, n: Node)
    requires Inv(v) && n in v.tree.cell
    ensures var f := v.tree.cell[n].frame;
            && f in v.tab && v.tab[f] == v.tree.cell[n].table && f < Pmm.MAX_PAGES && v.used[f]
            && f !in v.live && f !in v.other
            && (n.r != v.tree.kernel ==> v.refs[f] == 1)
  {
    assert v.tree.cell[n].frame in v.owner;
  }

  /** Frame `f` becomes table `n`, with whatever it held before. */
  ghost function NewTable(v: State, n: Node, f: Frame, tb: Table): State
    requires f < |v.used| && f < |v.refs|
  {
    v.(used := v.used[f := true], refs := v.refs[f := 1], tab := v.tab[f := tb],
       tree := Add(v.tree, n, f, tb), owner := v.owner[f := n])
  }

  lemma NewTableInv(v: State, n: Node, f: Frame, tb: Table)
    requires Inv(v) && n !in v.tree.cell && f < Pmm.MAX_PAGES && !v.used[f]
    requires IndexOk(v.tree, n) && (n.Pml4? ==> n.r == f)
    ensures Inv(NewTable(v, n, f, tb))
  {
    AddWf(v.tree, n, f, tb);
    AddLeaves(v.tree, n, f, tb, v.leaf);
    NewTableFrames(v, n, f, tb);
    SameUse(World(v), World(NewTable(v, n, f, tb)));
  }

  lemma NewTableFrames(v: State, n: Node, f: Frame, tb: Table)
    requires Memory(v) && Owners(v) && Frames(v) && n !in v.tree.cell && f < Pmm.MAX_PAGES && !v.used[f]
    ensures var v' := NewTable(v, n, f, tb); Memory(v') && Owners(v') && Frames(v')
  {
  }

  /** Writing entry `i` of table `n` in memory. */
  ghost function Store(v: State, n: Node, i: nat, e: Entry): State
    requires n in v.tree.cell && i < ENTRIES && v.tree.cell[n].frame in v.tab
  {
    var f := v.tree.cell[n].frame;
    v.(tab := v.tab[f := v.tab[f][i := e]], tree := Put(v.tree, n, i, e))
  }

  lemma StoreMemory(v: State, n: Node, i: nat, e: Entry)
    requires Memory(v) && Owners(v) && Frames(v) && n in v.tree.cell && i < ENTRIES
    ensures Memory(Store(v, n, i, e)) && Owners(Store(v, n, i, e)) && Frames(Store(v, n, i, e))
  {
    var v' := Store(v, n, i, e);
    forall m | m in v'.tree.cell
      ensures v'.tree.cell[m].frame in v'.tab && v'.tab[v'.tree.cell[m].frame] == v'.tree.cell[m].table
    {
      if m != n {
        assert v.owner[v.tree.cell[m].frame] == m && v.owner[v.tree.cell[n].frame] == n;
      }
    }
  }

  /** An entry that is not in force, or any entry of a kernel leaf table, may be set freely. */
  lemma StoreInert(v: State, n: Node, i: nat, e: Entry)
    requires Inv(v) && n in v.tree.cell && i < ENTRIES
    requires !InForce(v.tree, n, i) || (n.Pt? && n.r == v.tree.kernel)
    ensures Inv(Store(v, n, i, e))
  {
    StoreMemory(v, n, i, e);
    PutInertWf(v.tree, n, i, e);
    PutInertLeaves(v.tree, n, i, e, v.leaf);
  }

  /** Bringing a freshly written inert entry into force. */
  ghost function Grow(v: State, n: Node): State
    requires n in v.tree.cell
  {
    v.(tree := Extend(v.tree, n))
  }

  lemma GrowInv(v: State, n: Node)
    requires Inv(v) && Loose(v.tree, n) && v.tree.cell[n].hi < ENTRIES
    requires Inert(v.tree, n, v.tree.cell[n].hi)
    ensures Inv(Grow(v, n))
  {
    ExtendWf(v.tree, n);
    ExtendLeaves(v.tree, n, v.leaf);
    ExtendCells(v.tree, n);
    SameMemory(v, Extend(v.tree, n));
  }

  /** Pointing entry `i` of `n` at the finished table below it. */
  ghost function LinkChild(v: State, n: Node, i: nat): State
    requires n in v.tree.cell && !n.Pt? && i < ENTRIES && Child(n, i) in v.tree.cell
    requires v.tree.cell[n].frame in v.tab
  {
    var f := v.tree.cell[n].frame;
    v.(tab := v.tab[f := v.tab[f][i := DirEntry(v.tree.cell[Child(n, i)].frame)]],
       tree := Link(v.tree, n, i))
  }

  lemma LinkChildInv(v: State, n: Node, i: nat)
    requires Inv(v) && !n.Pt? && InForce(v.tree, n, i) && Inert(v.tree, n, i) && Finished(v.tree, Child(n, i))
    ensures Inv(LinkChild(v, n, i))
  {
    LinkWf(v.tree, n, i);
    LinkLeaves(v.tree, n, i, v.leaf);
    var e := DirEntry(v.tree.cell[Child(n, i)].frame);
    StoreMemory(v, n, i, e);
    LinkCells(v.tree, n, i);
    SameMemory(Store(v, n, i, e), Link(v.tree, n, i));
    assert LinkChild(v, n, i) == Store(v, n, i, e).(tree := Link(v.tree, n, i));
  }

  /** A ready-made table of inert entries is put below entry `i` of `n`. */
  ghost function InsertTable(v: State, n: Node, i: nat, f: Frame, tb: Table): State
    requires n in v.tree.cell && !n.Pt? && i < ENTRIES && v.tree.cell[n].frame in v.tab
    requires f < |v.used| && f < |v.refs|
  {
    var g := v.tree.cell[n].frame;
    v.(used := v.used[f := true], refs := v.refs[f := 1],
       tab := v.tab[f := tb][g := v.tab[g][i := DirEntry(f)]],
       tree := Insert(v.tree, n, i, f, tb), owner := v.owner[f := Child(n, i)])
  }

  lemma InsertTableInv(v: State, n: Node, i: nat, f: Frame, tb: Table)
    requires Inv(v) && !n.Pt? && InForce(v.tree, n, i) && Inert(v.tree, n, i) && Child(n, i) !in v.tree.cell
    requires f < Pmm.MAX_PAGES && !v.used[f]
    requires forall j :: 0 <= j < ENTRIES ==>
               !tb[j].present || (n.r == v.tree.kernel && !n.Pml4? && (n.Pd? || tb[j].huge))
    ensures v.tree.cell[n].frame in v.tab && Inv(InsertTable(v, n, i, f, tb))
  {
    var c := Child(n, i);
    NewTableInv(v, c, f, tb);
    var v1 := NewTable(v, c, f, tb);
    ActivateInv(v1, c);
    var v2 := v1.(tree := Activate(v1.tree, c));
    LinkChildInv(v2, n, i);
    InsertTableSteps(v, n, i, f, tb);
  }

  lemma InsertTableSteps(v: State, n: Node, i: nat, f: Frame, tb: Table)
    requires Memory(v) && Owners(v) && Frames(v)
    requires n in v.tree.cell && !n.Pt? && i < ENTRIES && Child(n, i) !in v.tree.cell
    requires f < Pmm.MAX_PAGES && !v.used[f]
    ensures var v1 := NewTable(v, Child(n, i), f, tb);
            var v2 := v1.(tree := Activate(v1.tree, Child(n, i)));
            v2.tree.cell[n].frame in v2.tab && LinkChild(v2, n, i) == InsertTable(v, n, i, f, tb)
  {
    assert v.tree.cell[n].frame in v.owner && v.tree.cell[n].frame != f;
    hide Frames;
    hide Owners;
    InsertSteps(v.tree, n, i, f, tb);
  }

  lemma InsertSteps(t: Tree, n: Node, i: nat, f: Frame, tb: Table)
    requires n in t.cell && !n.Pt? && i < ENTRIES && Child(n, i) !in t.cell
    ensures Link(Activate(Add(t, Child(n, i), f, tb), Child(n, i)), n, i) == Insert(t, n, i, f, tb)
  {
  }

  lemma CompleteInv(v: State, n: Node)
    requires Inv(v) && n in v.tree.cell && n.Pml4? && n.r != v.tree.kernel && v.tree.cell[n].hi == USER_ENTRIES
    ensures Inv(v.(tree := Complete(v.tree, n)))
  {
    CompleteWf(v.tree, n, v.leaf);
    CompleteCells(v.tree, n);
    SameMemory(v, Complete(v.tree, n));
  }

  lemma ActivateInv(v: State, n: Node)
    requires Inv(v) && Loose(v.tree, n) && v.tree.cell[n].hi == 0
    requires forall i :: 0 <= i < ENTRIES ==> Inert(v.tree, n, i)
    ensures Inv(v.(tree := Activate(v.tree, n))) && Finished(Activate(v.tree, n), n)
  {
    ActivateWf(v.tree, n);
    ActivateLeaves(v.tree, n, v.leaf);
    ActivateCells(v.tree, n);
    SameMemory(v, Activate(v.tree, n));
  }

  /** Clearing the parent's entry for table `c`. */
  ghost function UnlinkChild(v: State, c: Node): State
    requires c in v.tree.cell && !c.Pml4? && Parent(c) in v.tree.cell && Index(c) < ENTRIES
    requires v.tree.cell[Parent(c)].frame in v.tab
  {
    var f := v.tree.cell[Parent(c)].frame;
    v.(tab := v.tab[f := v.tab[f][Index(c) := ZERO]], tree := Unlink(v.tree, c))
  }

  lemma UnlinkChildInv(v: State, c: Node)
    requires Inv(v) && c in v.tree.cell && !c.Pml4? && v.tree.cell[c].linked
    ensures Parent(c) in v.tree.cell && Index(c) < ENTRIES && v.tree.cell[Parent(c)].frame in v.tab
    ensures Inv(UnlinkChild(v, c)) && Finished(UnlinkChild(v, c).tree, c)
  {
    UnlinkWf(v.tree, c);
    UnlinkLeaves(v.tree, c, v.leaf);
    StoreMemory(v, Parent(c), Index(c), ZERO);
    UnlinkCells(v.tree, c);
    SameMemory(Store(v, Parent(c), Index(c), ZERO), Unlink(v.tree, c));
    assert UnlinkChild(v, c) == Store(v, Parent(c), Index(c), ZERO).(tree := Unlink(v.tree, c));
  }

  /** Tear-down moves past an entry; the table below it, if any, is cut loose. */
  ghost function PassChild(v: State, n: Node): State
    requires n in v.tree.cell && !n.Pt? && Child(n, v.tree.cell[n].lo) in v.tree.cell
  {
    v.(tree := Pass(v.tree, n))
  }

  lemma PassChildInv(v: State, n: Node)
    requires Inv(v) && Loose(v.tree, n) && !n.Pt? && InForce(v.tree, n, v.tree.cell[n].lo)
    requires !Inert(v.tree, n, v.tree.cell[n].lo)
    ensures var i := v.tree.cell[n].lo;
            && Child(n, i) in v.tree.cell
            && v.tree.cell[Child(n, i)].frame == At(v.tree, n, i).frame
            && Inv(PassChild(v, n)) && Finished(PassChild(v, n).tree, Child(n, i))
  {
    PassWf(v.tree, n);
    PassLeaves(v.tree, n, v.leaf);
    PassCells(v.tree, n);
    SameMemory(v, Pass(v.tree, n));
  }

  ghost function PassInert(v: State, n: Node): State
    requires n in v.tree.cell
  {
    v.(tree := Advance(v.tree, n))
  }

  lemma PassInertInv(v: State, n: Node)
    requires Inv(v) && Loose(v.tree, n) && v.tree.cell[n].lo < v.tree.cell[n].hi
    requires Inert(v.tree, n, v.tree.cell[n].lo)
    ensures Inv(PassInert(v, n))
  {
    AdvanceWf(v.tree, n);
    AdvanceInertLeaves(v.tree, n, v.leaf);
    AdvanceCells(v.tree, n);
    SameMemory(v, Advance(v.tree, n));
  }

  /** The frame of a spent table goes back to the allocator. */
  ghost function FreeTable(v: State, n: Node): State
    requires n in v.tree.cell && v.tree.cell[n].frame < |v.used| && v.tree.cell[n].frame < |v.refs|
  {
    var f := v.tree.cell[n].frame;
    v.(tree := Remove(v.tree, n), owner := v.owner - {f},
       used := v.used[f := false], refs := v.refs[f := 0])
  }

  lemma FreeTableInv(v: State, n: Node)
    requires Inv(v) && Spent(v.tree, n)
    ensures v.tree.cell[n].frame < |v.used| && Inv(FreeTable(v, n))
  {
    RemoveWf(v.tree, n);
    RemoveLeaves(v.tree, n, v.leaf);
    FreeTableFrames(v, n);
    SameUse(World(v), World(FreeTable(v, n)));
  }

  lemma FreeTableFrames(v: State, n: Node)
    requires Memory(v) && Owners(v) && Frames(v) && n in v.tree.cell
    ensures v.tree.cell[n].frame < |v.used|
    ensures var v' := FreeTable(v, n); Memory(v') && Owners(v') && Frames(v')
  {
    var v' := FreeTable(v, n);
    forall m | m in v'.tree.cell
      ensures v'.tree.cell[m].frame in v'.owner && v'.owner[v'.tree.cell[m].frame] == m
    {
      assert v.owner[v.tree.cell[m].frame] == m && v.owner[v.tree.cell[n].frame] == n;
    }
  }

  /** The linked table `n` turns out empty: its frame is freed and its parent's entry cleared. */
  ghost function PruneTable(v: State, n: Node): State
    requires n in v.tree.cell && !n.Pml4? && Parent(n) in v.tree.cell && Index(n) < ENTRIES
    requires v.tree.cell[n].frame < |v.used| == |v.refs| && v.tree.cell[Parent(n)].frame in v.tab
  {
    var f, g := v.tree.cell[n].frame, v.tree.cell[Parent(n)].frame;
    v.(tree := Prune(v.tree, n), owner := v.owner - {f}, used := v.used[f := false], refs := v.refs[f := 0],
       tab := v.tab[g := v.tab[g][Index(n) := ZERO]])
  }

  lemma PruneTableInv(v: State, n: Node)
    requires Inv(v) && n in v.tree.cell && !n.Pml4? && v.tree.cell[n].linked
    requires forall i :: 0 <= i < ENTRIES ==> !At(v.tree, n, i).present
    ensures Parent(n) in v.tree.cell && Index(n) < ENTRIES
    ensures v.tree.cell[n].frame < |v.used| == |v.refs| && v.tree.cell[Parent(n)].frame in v.tab
    ensures Inv(PruneTable(v, n))
  {
    assert |v.used| == |v.refs|;
    hide Inv;
    UnlinkChildInv(v, n);
    var v1 := UnlinkChild(v, n);
    assert v1.tree.cell[n].table == v.tree.cell[n].table;
    assert forall i :: 0 <= i < ENTRIES ==> At(v1.tree, n, i) == At(v.tree, n, i);
    DeactivateInv(v1, n);
    var v2 := v1.(tree := Deactivate(v1.tree, n));
    FreeTableInv(v2, n);
    PruneSteps(v, n);
  }

  lemma PruneSteps(v: State, n: Node)
    requires n in v.tree.cell && !n.Pml4? && Parent(n) in v.tree.cell && Index(n) < ENTRIES
    requires v.tree.cell[n].frame < |v.used| == |v.refs| && v.tree.cell[Parent(n)].frame in v.tab
    ensures var v1 := UnlinkChild(v, n);
            FreeTable(v1.(tree := Deactivate(v1.tree, n)), n) == PruneTable(v, n)
  {
    assert Remove(Deactivate(Unlink(v.tree, n), n), n).cell == Prune(v.tree, n).cell;
  }

  lemma DeactivateInv(v: State, n: Node)
    requires Inv(v) && Loose(v.tree, n) && forall i :: 0 <= i < ENTRIES ==> !At(v.tree, n, i).present
    ensures Inv(v.(tree := Deactivate(v.tree, n))) && Spent(Deactivate(v.tree, n), n)
  {
    DeactivateWf(v.tree, n);
    DeactivateLeaves(v.tree, n, v.leaf);
    DeactivateCells(v.tree, n);
    SameMemory(v, Deactivate(v.tree, n));
  }

  /** The frame of a spent table is forgotten, and stays in use for good. */
  ghost function LoseTable(v: State, n: Node): State
    requires n in v.tree.cell
  {
    var f := v.tree.cell[n].frame;
    v.(tree := Remove(v.tree, n), owner := v.owner - {f}, other := v.other + {f})
  }

  lemma LoseTableInv(v: State, n: Node)
    requires Inv(v) && Spent(v.tree, n)
    ensures Inv(LoseTable(v, n))
  {
    RemoveWf(v.tree, n);
    RemoveLeaves(v.tree, n, v.leaf);
    LoseTableFrames(v, n);
  }

  lemma LoseTableFrames(v: State, n: Node)
    requires Memory(v) && Owners(v) && Frames(v) && n in v.tree.cell
    ensures var v' := LoseTable(v, n); Memory(v') && Owners(v') && Frames(v')
  {
    var v' := LoseTable(v, n);
    forall m | m in v'.tree.cell
      ensures v'.tree.cell[m].frame in v'.owner && v'.owner[v'.tree.cell[m].frame] == m
    {
      assert v.owner[v.tree.cell[m].frame] == m && v.owner[v.tree.cell[n].frame] == n;
    }
  }

  // ----- user pages -----

  ghost function WithWorld(v: State, w: Cow.World): State {
    v.(leaf := w.leaf, refs := w.refs, live := w.live, held := w.held, data := w.data)
  }

  ghost predicate UserPt(v: State, n: Node, i: nat) {
    n.Pt? && n.r != v.tree.kernel && InForce(v.tree, n, i)
  }

  lemma UserPtLeaf(v: State, n: Node, i: nat)
    requires Inv(v) && UserPt(v, n, i)
    ensures SlotAt(n, i) in v.leaf <==> At(v.tree, n, i).present
    ensures SlotAt(n, i) in v.leaf ==>
              && v.leaf[SlotAt(n, i)] == At(v.tree, n, i)
              && At(v.tree, n, i).frame in v.live && At(v.tree, n, i).frame < Pmm.MAX_PAGES
              && v.tree.cell[n].frame in v.tab
              && v.tab[v.tree.cell[n].frame][i] == At(v.tree, n, i)
  {
    var s := SlotAt(n, i);
    assert PtOf(s) == n;
    assert IsLeaf(v.tree, s) <==> At(v.tree, n, i).present;
  }

  /** Counts of user pages do not concern the frames of tables. */
  lemma SameFrames(v: State, w: Cow.World)
    requires Memory(v) && Owners(v) && Frames(v) && w.live == v.live && |w.refs| == |v.refs|
    requires forall f :: 0 <= f < |v.refs| && f !in v.live ==> w.refs[f] == v.refs[f]
    ensures var v' := WithWorld(v, w); Memory(v') && Owners(v') && Frames(v')
  {
  }

  /** Fork of one page: entry `i` of `sn`, already copied to the next entry of `dn`, is
      marked in `sn` and comes into force in `dn`. */
  ghost function ShareEntry(v: State, sn: Node, dn: Node, i: nat): State
    requires sn.Pt? && dn.Pt? && sn in v.tree.cell && dn in v.tree.cell && dn != sn && i < ENTRIES
    requires v.tree.cell[sn].frame in v.tab && SlotAt(sn, i) in v.leaf && v.leaf[SlotAt(sn, i)].frame < |v.refs|
  {
    var e := CowMark(At(v.tree, sn, i));
    WithWorld(Store(v, sn, i, e), Cow.Share(World(v), SlotAt(sn, i), SlotAt(dn, i))).(
      tree := Extend(Put(v.tree, sn, i, e), dn))
  }

  ghost predicate CanShare(v: State, sn: Node, dn: Node, i: nat) {
    && Inv(v) && UserPt(v, sn, i) && At(v.tree, sn, i).present
    && NextEntry(v.tree, dn, i, CowMark(At(v.tree, sn, i)))
    && dn != sn && dn.r != v.tree.kernel && dn == RerootNode(sn, dn.r)
    && v.tree.cell[sn].frame in v.tab && SlotAt(sn, i) in v.leaf
    && v.leaf[SlotAt(sn, i)].frame < |v.refs| && v.refs[v.leaf[SlotAt(sn, i)].frame] < Pmm.REF_MAX
  }

  lemma ShareEntryInv(v: State, sn: Node, dn: Node, i: nat)
    requires CanShare(v, sn, dn, i)
    ensures Inv(ShareEntry(v, sn, dn, i))
  {
    ShareEntryFresh(v, sn, dn, i);
    ShareWf(v.tree, sn, dn, i);
    ShareLeaves(v.tree, sn, dn, i, v.leaf);
    ShareEntryMemory(v, sn, dn, i);
    Cow.ShareKeepsInv(World(v), SlotAt(sn, i), SlotAt(dn, i));
    assert World(ShareEntry(v, sn, dn, i)) == Cow.Share(World(v), SlotAt(sn, i), SlotAt(dn, i));
  }

  lemma ShareEntryFresh(v: State, sn: Node, dn: Node, i: nat)
    requires CanShare(v, sn, dn, i)
    ensures v.leaf[SlotAt(sn, i)] == At(v.tree, sn, i) && SlotAt(dn, i) !in v.leaf
    ensures v.leaf[SlotAt(sn, i)].frame in v.live
  {
    assert PtOf(SlotAt(sn, i)) == sn && PtOf(SlotAt(dn, i)) == dn;
    assert !IsLeaf(v.tree, SlotAt(dn, i));
  }

  lemma ShareEntryMemory(v: State, sn: Node, dn: Node, i: nat)
    requires Memory(v) && Owners(v) && Frames(v) && sn.Pt? && dn.Pt? && dn != sn && i < ENTRIES
    requires sn in v.tree.cell && dn in v.tree.cell && SlotAt(sn, i) in v.leaf
    requires v.leaf[SlotAt(sn, i)] == At(v.tree, sn, i) && v.leaf[SlotAt(sn, i)].frame in v.live
    ensures var v' := ShareEntry(v, sn, dn, i); Memory(v') && Owners(v') && Frames(v')
  {
    var e := CowMark(At(v.tree, sn, i));
    ExtendCells(Put(v.tree, sn, i, e), dn);
    RewriteMemory(v, sn, i, e, Extend(Put(v.tree, sn, i, e), dn),
                  Cow.Share(World(v), SlotAt(sn, i), SlotAt(dn, i)));
  }

  lemma RewriteMemory(v: State, n: Node, i: nat, e: Entry, t': Tree, w: Cow.World)
    requires Memory(v) && Owners(v) && Frames(v) && n in v.tree.cell && i < ENTRIES
    requires SameCells(Put(v.tree, n, i, e), t') && w.live == v.live && |w.refs| == |v.refs|
    requires forall f :: 0 <= f < |v.refs| && f !in v.live ==> w.refs[f] == v.refs[f]
    ensures var v' := WithWorld(Store(v, n, i, e), w).(tree := t'); Memory(v') && Owners(v') && Frames(v')
  {
    StoreMemory(v, n, i, e);
    SameMemory(Store(v, n, i, e), t');
    SameFrames(Store(v, n, i, e).(tree := t'), w);
  }

  /** Tear-down of one page: the entry's reference is given back. */
  ghost function DropEntry(v: State, n: Node): State
    requires n.Pt? && n in v.tree.cell && SlotAt(n, v.tree.cell[n].lo) in v.leaf
    requires v.leaf[SlotAt(n, v.tree.cell[n].lo)].frame < |v.used| == |v.refs|
  {
    var s := SlotAt(n, v.tree.cell[n].lo);
    var f := v.leaf[s].frame;
    WithWorld(v, Cow.Drop(World(v), s)).(
      tree := Advance(v.tree, n),
      used := if v.refs[f] > 1 then v.used else v.used[f := false])
  }

  lemma DropEntryInv(v: State, n: Node)
    requires Inv(v) && Loose(v.tree, n) && UserPt(v, n, v.tree.cell[n].lo) && At(v.tree, n, v.tree.cell[n].lo).present
    ensures var i := v.tree.cell[n].lo;
            && SlotAt(n, i) in v.leaf && v.leaf[SlotAt(n, i)] == At(v.tree, n, i)
            && v.leaf[SlotAt(n, i)].frame < |v.used| == |v.refs| && Inv(DropEntry(v, n))
  {
    var s := SlotAt(n, v.tree.cell[n].lo);
    UserPtLeaf(v, n, v.tree.cell[n].lo);
    DropEntryTree(v, n);
    DropEntryMemory(v, n);
    Cow.DropKeepsInv(World(v), s);
    hide Cow.Inv;
    hide Memory;
    hide Owners;
    hide Frames;
    hide Wf;
    hide Leaves;
    assert World(DropEntry(v, n)) == Cow.Drop(World(v), s);
  }

  lemma DropEntryTree(v: State, n: Node)
    requires Wf(v.tree) && Leaves(v.tree, v.leaf) && Loose(v.tree, n) && n.Pt? && InForce(v.tree, n, v.tree.cell[n].lo)
    ensures Wf(Advance(v.tree, n)) && Leaves(Advance(v.tree, n), v.leaf - {SlotAt(n, v.tree.cell[n].lo)})
  {
    AdvanceWf(v.tree, n);
    AdvanceLeaves(v.tree, n, v.leaf);
  }

  lemma DropEntryMemory(v: State, n: Node)
    requires Memory(v) && Owners(v) && Frames(v) && n in v.tree.cell && n.Pt?
    requires SlotAt(n, v.tree.cell[n].lo) in v.leaf && v.leaf[SlotAt(n, v.tree.cell[n].lo)].frame in v.live
    ensures var v' := DropEntry(v, n); Memory(v') && Owners(v') && Frames(v')
  {
    var s := SlotAt(n, v.tree.cell[n].lo);
    AdvanceCells(v.tree, n);
    DropFrames(v, Advance(v.tree, n), v.leaf[s].frame, Cow.Drop(World(v), s));
  }

  lemma DropFrames(v: State, t': Tree, f: Frame, w: Cow.World)
    requires Memory(v) && Owners(v) && Frames(v) && f in v.live && SameCells(v.tree, t')
    requires w.live == (if v.refs[f] > 1 then v.live else v.live - {f}) && |w.refs| == |v.refs|
    requires forall g :: 0 <= g < |v.refs| && g != f ==> w.refs[g] == v.refs[g]
    ensures var v' := WithWorld(v, w).(tree := t', used := if v.refs[f] > 1 then v.used else v.used[f := false]);
            Memory(v') && Owners(v') && Frames(v')
  {
    SameMemory(v, t');
    DropEntryFrames(v.(tree := t'), f, w);
  }

  lemma DropEntryFrames(v: State, f: Frame, w: Cow.World)
    requires Memory(v) && Owners(v) && Frames(v) && f in v.live
    requires w.live == (if v.refs[f] > 1 then v.live else v.live - {f}) && |w.refs| == |v.refs|
    requires forall g :: 0 <= g < |v.refs| && g != f ==> w.refs[g] == v.refs[g]
    ensures var v' := WithWorld(v, w).(used := if v.refs[f] > 1 then v.used else v.used[f := false]);
            Memory(v') && Owners(v') && Frames(v')
  {
  }

  /** A page of a lost table: its reference is never given back. */
  ghost function OrphanEntry(v: State, n: Node): State
    requires n.Pt? && n in v.tree.cell && SlotAt(n, v.tree.cell[n].lo) in v.leaf
  {
    WithWorld(v, Cow.Orphan(World(v), SlotAt(n, v.tree.cell[n].lo))).(tree := Advance(v.tree, n))
  }

  lemma OrphanEntryInv(v: State, n: Node)
    requires Inv(v) && Loose(v.tree, n) && UserPt(v, n, v.tree.cell[n].lo) && At(v.tree, n, v.tree.cell[n].lo).present
    ensures SlotAt(n, v.tree.cell[n].lo) in v.leaf && Inv(OrphanEntry(v, n))
  {
    var s := SlotAt(n, v.tree.cell[n].lo);
    UserPtLeaf(v, n, v.tree.cell[n].lo);
    AdvanceWf(v.tree, n);
    AdvanceLeaves(v.tree, n, v.leaf);
    AdvanceCells(v.tree, n);
    SameMemory(v, Advance(v.tree, n));
    Cow.OrphanKeepsInv(World(v), s);
    SameFrames(v.(tree := Advance(v.tree, n)), Cow.Orphan(World(v), s));
    assert World(OrphanEntry(v, n)) == Cow.Orphan(World(v), s);
  }

  /** Rewriting a user page entry in force, with the matching change to the world. */
  ghost function RewriteEntry(v: State, n: Node, i: nat, e: Entry, w: Cow.World): State
    requires n in v.tree.cell && i < ENTRIES && v.tree.cell[n].frame in v.tab
  {
    WithWorld(Store(v, n, i, e), w)
  }

  lemma RewriteEntryInv(v: State, n: Node, i: nat, e: Entry, w: Cow.World)
    requires Inv(v) && UserPt(v, n, i) && Cow.Inv(w)
    requires w.leaf == LeafPut(v.leaf, SlotAt(n, i), e) && w.live == v.live
    requires |w.refs| == |v.refs| && forall f :: 0 <= f < |v.refs| && f !in v.live ==> w.refs[f] == v.refs[f]
    ensures v.tree.cell[n].frame in v.tab && Inv(RewriteEntry(v, n, i, e, w))
  {
    PutInertWf(v.tree, n, i, e);
    PutLeaves(v.tree, n, i, e, v.leaf);
    StoreMemory(v, n, i, e);
    SameFrames(Store(v, n, i, e), w);
    assert World(RewriteEntry(v, n, i, e, w)) == w;
  }

  /** A frame newly allocated for a user page, held by its allocator. */
  ghost function HoldFrame(v: State, f: Frame, bytes: Cow.Bytes): State
    requires f < |v.used| == |v.refs|
  {
    WithWorld(v, Cow.Hold(World(v), f, bytes)).(used := v.used[f := true])
  }

  lemma HoldFrameInv(v: State, f: Frame, bytes: Cow.Bytes)
    requires Inv(v) && f < Pmm.MAX_PAGES && !v.used[f]
    ensures Inv(HoldFrame(v, f, bytes))
  {
    Cow.HoldKeepsInv(World(v), f, bytes);
    HoldFrameFrames(v, f, bytes);
    assert World(HoldFrame(v, f, bytes)) == Cow.Hold(World(v), f, bytes);
  }

  lemma HoldFrameFrames(v: State, f: Frame, bytes: Cow.Bytes)
    requires Memory(v) && Owners(v) && Frames(v) && f < Pmm.MAX_PAGES && !v.used[f]
    ensures var v' := HoldFrame(v, f, bytes); Memory(v') && Owners(v') && Frames(v')
  {
  }

  /** A held reference is given back. */
  ghost function UnholdFrame(v: State, f: Frame): State
    requires f < |v.used| == |v.refs|
  {
    WithWorld(v, Cow.Unhold(World(v), f)).(used := if v.refs[f] > 1 then v.used else v.used[f := false])
  }

  lemma UnholdFrameInv(v: State, f: Frame)
    requires Inv(v) && f in v.held
    ensures f < |v.used| == |v.refs| && Inv(UnholdFrame(v, f))
  {
    assert f in World(v).held && f in v.live;
    Cow.UnholdKeepsInv(World(v), f);
    DropEntryFrames(v, f, Cow.Unhold(World(v), f));
    hide Cow.Inv;
    hide Memory;
    hide Owners;
    hide Frames;
    assert World(UnholdFrame(v, f)) == Cow.Unhold(World(v), f);
  }
}

/** Copying a subtree of tables while sharing the pages it maps. */
module Fork {
  import opened PageEntry
  import opened PageTree
  import opened Vm
  import opened Teardown
  import Pmm
  import Cow

  /** Same table in the same place; only leaf tables may differ in contents. */
  ghost predicate SameTable(c: Cell, c': Cell, mayMark: bool) {
    && c'.frame == c.frame && c'.lo == c.lo && c'.hi == c.hi && c'.linked == c.linked
    && (!mayMark ==> c'.table == c.table)
  }

  /** Of the subtree at `sn`, the part below its first `i` entries is copied at `dn`. */
  ghost predicate TablesCloned(t: Tree, t': Tree, sn: Node, dn: Node, i: nat) {
    && t'.kernel == t.kernel
    && dn in t'.cell && t'.cell[dn].lo == 0 && t'.cell[dn].hi == i && !t'.cell[dn].linked
    && (forall m :: m in t.cell ==> m in t'.cell && SameTable(t.cell[m], t'.cell[m], m.Pt? && Below(m, sn)))
    && (forall m :: m in t'.cell && m !in t.cell ==> Below(m, dn))
    && (forall m :: m in t'.cell && Below(m, dn) && m != dn ==> t'.cell[m].linked && DownIndex(m, dn) < i)
  }

  /** Done pages are marked in the source and shared into the copy. */
  ghost predicate PagesCloned(leaf: map<Slot, Entry>, leaf': map<Slot, Entry>, sn: Node, dn: Node, i: nat) {
    && (forall s :: s in leaf' <==> s in leaf || (PageGone(s, dn, i) && Reroot(s, sn.r) in leaf))
    && (forall s :: s in leaf ==> leaf'[s] == if PageGone(s, sn, i) then CowMark(leaf[s]) else leaf[s])
    && (forall s :: PageGone(s, dn, i) && Reroot(s, sn.r) in leaf ==> leaf'[s] == CowMark(leaf[Reroot(s, sn.r)]))
  }

  ghost predicate Cloned(v: State, v': State, sn: Node, dn: Node, i: nat) {
    && TablesCloned(v.tree, v'.tree, sn, dn, i) && PagesCloned(v.leaf, v'.leaf, sn, dn, i)
    && v'.data == v.data && NothingLost(v, v')
  }

  /** Nothing exists yet where the copy goes. */
  ghost predicate Clear(t: Tree, dn: Node) {
    forall m :: m in t.cell ==> !Below(m, dn)
  }

  /** A complete subtree of a user space, ready to be copied. */
  ghost predicate Source(t: Tree, sn: Node) {
    && sn in t.cell && sn.r != t.kernel && t.cell[sn].lo == 0 && t.cell[sn].hi == ENTRIES && Hanging(t, sn)
  }

  ghost predicate NoSaturation(v: State, sn: Node) {
    forall s :: s in v.leaf && Under(s, sn) && v.leaf[s].frame < |v.refs| ==> v.refs[v.leaf[s].frame] < Pmm.REF_MAX
  }

  lemma CloneStart(v: State, sn: Node, dn: Node, f: Frame, tb: Table)
    requires sn in v.tree.cell && Clear(v.tree, dn) && dn == RerootNode(sn, dn.r)
    requires f < |v.used| && f < |v.refs|
    ensures Cloned(v, NewTable(v, dn, f, tb), sn, dn, 0)
  {
    assert Below(dn, dn);
    CloneStartTables(v.tree, sn, dn, f, tb);
  }

  lemma CloneStartTables(t: Tree, sn: Node, dn: Node, f: Frame, tb: Table)
    requires sn in t.cell && Clear(t, dn) && dn !in t.cell
    ensures TablesCloned(t, Add(t, dn, f, tb), sn, dn, 0)
  {
    forall m | Below(m, dn) && m in Add(t, dn, f, tb).cell
      ensures m == dn
    {
    }
    assert Below(dn, dn);
  }

  lemma NoPages(t: Tree, leaf: map<Slot, Entry>, dn: Node, s: Slot)
    requires Leaves(t, leaf) && Clear(t, dn) && s in leaf
    ensures !Under(s, dn)
  {
    assert IsLeaf(t, s);
    assert PtOf(s) in t.cell && !Below(PtOf(s), dn);
  }

  lemma RerootUnder(s: Slot, sn: Node, dr: Frame)
    requires Under(s, RerootNode(sn, dr))
    ensures Under(Reroot(s, sn.r), sn) && IndexIn(Reroot(s, sn.r), sn) == IndexIn(s, RerootNode(sn, dr))
  {
  }

  // ----- an entry with nothing behind it -----

  lemma NoPageThere(t: Tree, leaf: map<Slot, Entry>, sn: Node, i: nat)
    requires Wf(t) && Leaves(t, leaf) && Hanging(t, sn) && sn in t.cell && i < ENTRIES
    requires if sn.Pt? then !At(t, sn, i).present else Child(sn, i) !in t.cell
    ensures forall s :: s in leaf && Under(s, sn) ==> IndexIn(s, sn) != i
  {
    forall s | s in leaf && Under(s, sn)
      ensures IndexIn(s, sn) != i
    {
      assert IsLeaf(t, s);
      if !sn.Pt? && IndexIn(s, sn) == i {
        NoneBelow(t, sn, Child(sn, i), PtOf(s));
      }
    }
  }

  lemma CloneInertPages(leaf: map<Slot, Entry>, leaf1: map<Slot, Entry>, sn: Node, dn: Node, i: nat)
    requires dn == RerootNode(sn, dn.r) && PagesCloned(leaf, leaf1, sn, dn, i)
    requires forall s :: s in leaf && Under(s, sn) ==> IndexIn(s, sn) != i
    ensures PagesCloned(leaf, leaf1, sn, dn, i + 1)
  {
    forall s | Under(s, dn) && IndexIn(s, dn) == i
      ensures Reroot(s, sn.r) !in leaf
    {
      RerootUnder(s, sn, dn.r);
    }
  }

  ghost function SkipEntry(v: State, dn: Node, i: nat, e: Entry): State
    requires dn in v.tree.cell && i < ENTRIES && v.tree.cell[dn].frame in v.tab
  {
    Grow(Store(v, dn, i, e), dn)
  }

  lemma SkipEntryInv(v: State, dn: Node, i: nat, e: Entry)
    requires Inv(v) && Loose(v.tree, dn) && v.tree.cell[dn].hi == i < ENTRIES && !e.present
    ensures v.tree.cell[dn].frame in v.tab && Inv(SkipEntry(v, dn, i, e))
  {
    StoreInert(v, dn, i, e);
    hide Inv;
    GrowInv(Store(v, dn, i, e), dn);
  }

  lemma SkipTables(t: Tree, t1: Tree, sn: Node, dn: Node, i: nat, e: Entry)
    requires TablesCloned(t, t1, sn, dn, i) && i < ENTRIES && dn !in t.cell
    ensures TablesCloned(t, Extend(Put(t1, dn, i, e), dn), sn, dn, i + 1)
  {
  }

  lemma CloneInert(v: State, v1: State, sn: Node, dn: Node, i: nat, e: Entry)
    requires Inv(v) && Source(v.tree, sn) && Clear(v.tree, dn) && Cloned(v, v1, sn, dn, i) && i < ENTRIES
    requires dn == RerootNode(sn, dn.r) && v1.tree.cell[dn].frame in v1.tab
    requires if sn.Pt? then !At(v.tree, sn, i).present else Child(sn, i) !in v.tree.cell
    ensures Cloned(v, SkipEntry(v1, dn, i, e), sn, dn, i + 1)
  {
    assert Below(dn, dn);
    NoPageThere(v.tree, v.leaf, sn, i);
    CloneInertPages(v.leaf, v1.leaf, sn, dn, i);
    SkipTables(v.tree, v1.tree, sn, dn, i, e);
  }

  // ----- a page -----

  lemma CloneLeafPages(leaf: map<Slot, Entry>, leaf1: map<Slot, Entry>, sn: Node, dn: Node, i: nat)
    requires sn.Pt? && dn.Pt? && dn == RerootNode(sn, dn.r) && dn != sn && PagesCloned(leaf, leaf1, sn, dn, i)
    requires SlotAt(sn, i) in leaf && (forall s :: s in leaf ==> !Under(s, dn))
    ensures var e := CowMark(leaf[SlotAt(sn, i)]);
            PagesCloned(leaf, leaf1[SlotAt(sn, i) := e][SlotAt(dn, i) := e], sn, dn, i + 1)
  {
    var s0, t0 := SlotAt(sn, i), SlotAt(dn, i);
    assert Reroot(t0, sn.r) == s0;
    forall s: Slot
      ensures PageGone(s, sn, i + 1) <==> PageGone(s, sn, i) || s == s0
      ensures PageGone(s, dn, i + 1) <==> PageGone(s, dn, i) || s == t0
      ensures s in leaf ==> !PageGone(s, dn, i)
    {
      GoneNext(s, sn, i);
      GoneNext(s, dn, i);
    }
    assert t0 !in leaf && !PageGone(s0, sn, i) && s0 != t0;
    hide PageGone;
    hide Under;
  }

  lemma GoneNext(s: Slot, n: Node, i: nat)
    requires n.Pt?
    ensures PageGone(s, n, i + 1) <==> PageGone(s, n, i) || s == SlotAt(n, i)
    ensures PageGone(s, n, i) ==> Under(s, n)
  {
  }

  lemma CloneLeafTables(t: Tree, t1: Tree, sn: Node, dn: Node, i: nat, e: Entry)
    requires TablesCloned(t, t1, sn, dn, i) && i < ENTRIES && dn !in t.cell && sn in t.cell && sn.Pt? && dn.Pt? && sn != dn
    ensures TablesCloned(t, Extend(Put(Put(t1, dn, i, e), sn, i, e), dn), sn, dn, i + 1)
  {
    assert Below(sn, sn);
  }

  // ----- a table -----

  /** The copy `Child(dn, i)` is finished and hooked into `dn`. */
  ghost function HookEntry(v: State, dn: Node, i: nat): State
    requires dn in v.tree.cell && !dn.Pt? && i < ENTRIES && v.tree.cell[dn].frame in v.tab
    requires Child(dn, i) in v.tree.cell
  {
    LinkChild(SkipEntry(v, dn, i, ZERO), dn, i)
  }

  lemma HookEntryInv(v: State, dn: Node, i: nat)
    requires Inv(v) && Loose(v.tree, dn) && !dn.Pt? && v.tree.cell[dn].lo <= v.tree.cell[dn].hi == i < ENTRIES
    requires dn.Pml4? && dn.r != v.tree.kernel ==> i < USER_ENTRIES
    requires Finished(v.tree, Child(dn, i))
    ensures v.tree.cell[dn].frame in v.tab && Inv(HookEntry(v, dn, i))
  {
    SkipEntryInv(v, dn, i, ZERO);
    hide Inv;
    LinkChildInv(SkipEntry(v, dn, i, ZERO), dn, i);
  }

  lemma HookTables(t: Tree, t1: Tree, t2: Tree, sn: Node, dn: Node, i: nat)
    requires !sn.Pt? && !dn.Pt? && i < ENTRIES && dn !in t.cell && dn == RerootNode(sn, dn.r)
    requires TablesCloned(t, t1, sn, dn, i) && TablesCloned(t1, t2, Child(sn, i), Child(dn, i), ENTRIES)
    ensures dn in t2.cell && TablesCloned(t, Link(Extend(Put(t2, dn, i, ZERO), dn), dn, i), sn, dn, i + 1)
  {
    assert SameTable(t1.cell[dn], t2.cell[dn], false);
    HookTablesOld(t, t1, t2, sn, dn, i);
    HookTablesNew(t, t1, t2, sn, dn, i);
    DownChild(Child(dn, i), dn);
    hide Below;
    hide DownIndex;
  }

  lemma HookTablesOld(t: Tree, t1: Tree, t2: Tree, sn: Node, dn: Node, i: nat)
    requires !sn.Pt? && !dn.Pt? && i < ENTRIES && dn !in t.cell && dn == RerootNode(sn, dn.r)
    requires TablesCloned(t, t1, sn, dn, i) && TablesCloned(t1, t2, Child(sn, i), Child(dn, i), ENTRIES)
    ensures forall m :: m in t.cell ==> m in t2.cell && SameTable(t.cell[m], t2.cell[m], m.Pt? && Below(m, sn))
    ensures forall m :: m in t2.cell && m !in t.cell ==> Below(m, dn)
  {
    forall m | m in t.cell
      ensures m in t2.cell && SameTable(t.cell[m], t2.cell[m], m.Pt? && Below(m, sn))
    {
      assert SameTable(t1.cell[m], t2.cell[m], m.Pt? && Below(m, Child(sn, i)));
      assert Below(m, Child(sn, i)) ==> Below(m, sn);
    }
    forall m | m in t2.cell && m !in t.cell
      ensures Below(m, dn)
    {
      assert Below(m, Child(dn, i)) ==> Below(m, dn);
    }
  }

  lemma HookTablesNew(t: Tree, t1: Tree, t2: Tree, sn: Node, dn: Node, i: nat)
    requires !sn.Pt? && !dn.Pt? && i < ENTRIES && dn !in t.cell && dn == RerootNode(sn, dn.r)
    requires TablesCloned(t, t1, sn, dn, i) && TablesCloned(t1, t2, Child(sn, i), Child(dn, i), ENTRIES)
    requires dn in t2.cell
    ensures forall m :: m in t2.cell && Below(m, dn) && m != dn && m != Child(dn, i) ==>
              t2.cell[m].linked && DownIndex(m, dn) < i + 1
  {
    var c := Child(dn, i);
    forall m | m in t2.cell && Below(m, dn) && m != dn && m != c
      ensures t2.cell[m].linked && DownIndex(m, dn) < i + 1
    {
      DownChild(m, dn);
      if m in t1.cell {
        assert SameTable(t1.cell[m], t2.cell[m], m.Pt? && Below(m, Child(sn, i)));
      } else {
        assert Below(m, c);
      }
    }
  }

  lemma HookPages(leaf: map<Slot, Entry>, leaf1: map<Slot, Entry>, leaf2: map<Slot, Entry>, sn: Node, dn: Node, i: nat)
    requires !sn.Pt? && !dn.Pt? && dn == RerootNode(sn, dn.r) && dn != sn
    requires PagesCloned(leaf, leaf1, sn, dn, i)
    requires PagesCloned(leaf1, leaf2, Child(sn, i), Child(dn, i), ENTRIES)
    requires forall s :: s in leaf ==> !Under(s, dn) && Slotted(s)
    ensures PagesCloned(leaf, leaf2, sn, dn, i + 1)
  {
    var cs, cd := Child(sn, i), Child(dn, i);
    forall s
      ensures PageGone(s, sn, i + 1) <==> PageGone(s, sn, i) || Under(s, cs)
      ensures PageGone(s, dn, i + 1) <==> PageGone(s, dn, i) || Under(s, cd)
    {
    }
    forall s | s in leaf1
      ensures Slotted(s)
    {
    }
    HookPagesKeys(leaf, leaf1, leaf2, sn, dn, i);
  }

  ghost predicate Slotted(s: Slot) { s.a < ENTRIES && s.b < ENTRIES && s.c < ENTRIES && s.d < ENTRIES }

  lemma HookPagesKeys(leaf: map<Slot, Entry>, leaf1: map<Slot, Entry>, leaf2: map<Slot, Entry>, sn: Node, dn: Node, i: nat)
    requires !sn.Pt? && !dn.Pt? && dn == RerootNode(sn, dn.r) && dn != sn
    requires PagesCloned(leaf, leaf1, sn, dn, i)
    requires PagesCloned(leaf1, leaf2, Child(sn, i), Child(dn, i), ENTRIES)
    requires forall s :: s in leaf ==> !Under(s, dn) && Slotted(s)
    ensures forall s :: s in leaf2 <==> s in leaf || (PageGone(s, dn, i + 1) && Reroot(s, sn.r) in leaf)
  {
  }

  // ----- counters along the way -----

  /** Pages not yet shared keep their counts. */
  lemma RefsUnmoved(v: State, v1: State, sn: Node, dn: Node, i: nat, s: Slot)
    requires Inv(v) && Inv(v1) && Cloned(v, v1, sn, dn, i) && dn == RerootNode(sn, dn.r) && Clear(v.tree, dn)
    requires s in v.leaf && Under(s, sn) && i <= IndexIn(s, sn)
    ensures v.leaf[s].frame < |v.refs| && v.leaf[s].frame < |v1.refs|
    ensures s in v1.leaf && v1.leaf[s] == v.leaf[s] && v1.refs[v.leaf[s].frame] == v.refs[v.leaf[s].frame]
  {
    assert Cow.Inv(World(v)) && Cow.Inv(World(v1));
    hide Inv;
    hide TablesCloned;
    hide Cow.Inv;
    WorldRefs(World(v), World(v1), sn, dn, i, s);
  }

  lemma WorldRefs(w: Cow.World, w1: Cow.World, sn: Node, dn: Node, i: nat, s: Slot)
    requires Cow.Inv(w) && Cow.Inv(w1) && w1.held == w.held
    requires PagesCloned(w.leaf, w1.leaf, sn, dn, i) && dn == RerootNode(sn, dn.r)
    requires s in w.leaf && Under(s, sn) && i <= IndexIn(s, sn)
    ensures w.leaf[s].frame < |w.refs| && w.leaf[s].frame < |w1.refs|
    ensures s in w1.leaf && w1.leaf[s] == w.leaf[s] && w1.refs[w.leaf[s].frame] == w.refs[w.leaf[s].frame]
  {
    SameMappers(w.leaf, w1.leaf, sn, dn, i, s);
  }

  lemma SameMappers(leaf: map<Slot, Entry>, leaf1: map<Slot, Entry>, sn: Node, dn: Node, i: nat, s: Slot)
    requires PagesCloned(leaf, leaf1, sn, dn, i) && dn == RerootNode(sn, dn.r)
    requires s in leaf && Under(s, sn) && i <= IndexIn(s, sn)
    requires forall x, y :: x in leaf && y in leaf && leaf[x].frame == leaf[y].frame ==> SamePage(x, y)
    ensures s in leaf1 && leaf1[s] == leaf[s]
    ensures Cow.Mappers(leaf1, leaf[s].frame) == Cow.Mappers(leaf, leaf[s].frame)
  {
    var f := leaf[s].frame;
    forall x | x in leaf1 && leaf1[x].frame == f
      ensures x in leaf && leaf[x].frame == f
    {
      if x !in leaf {
        RerootUnder(x, sn, dn.r);
      }
    }
    forall x | x in leaf && leaf[x].frame == f
      ensures x in leaf1 && leaf1[x].frame == f
    {
    }
  }

  lemma NoSaturationBelow(v: State, v1: State, sn: Node, dn: Node, i: nat)
    requires Inv(v) && Inv(v1) && Cloned(v, v1, sn, dn, i) && dn == RerootNode(sn, dn.r) && Clear(v.tree, dn)
    requires !sn.Pt? && NoSaturation(v, sn) && dn.r != sn.r
    ensures NoSaturation(v1, Child(sn, i))
  {
    hide Inv;
    hide TablesCloned;
    forall s | s in v1.leaf && Under(s, Child(sn, i)) && v1.leaf[s].frame < |v1.refs|
      ensures v1.refs[v1.leaf[s].frame] < Pmm.REF_MAX
    {
      assert s in v.leaf;
      RefsUnmoved(v, v1, sn, dn, i, s);
    }
  }

  // ----- sharing the page behind entry `i` -----

  ghost function ShareNext(v: State, sn: Node, dn: Node, i: nat): State
    requires sn.Pt? && dn.Pt? && sn in v.tree.cell && dn in v.tree.cell && dn != sn && i < ENTRIES
    requires v.tree.cell[sn].frame in v.tab && v.tree.cell[dn].frame in v.tab
    requires SlotAt(sn, i) in v.leaf && v.leaf[SlotAt(sn, i)].frame < |v.refs|
  {
    ShareEntry(Store(v, dn, i, CowMark(At(v.tree, sn, i))), sn, dn, i)
  }

  ghost predicate ReadyToShare(v: State, sn: Node, dn: Node, i: nat) {
    && Inv(v) && UserPt(v, sn, i) && At(v.tree, sn, i).present
    && dn.Pt? && Loose(v.tree, dn) && v.tree.cell[dn].lo <= v.tree.cell[dn].hi == i
    && dn != sn && dn.r != v.tree.kernel && dn == RerootNode(sn, dn.r)
    && SlotAt(sn, i) in v.leaf
    && v.leaf[SlotAt(sn, i)].frame < |v.refs| && v.refs[v.leaf[SlotAt(sn, i)].frame] < Pmm.REF_MAX
  }

  lemma ShareNextInv(v: State, sn: Node, dn: Node, i: nat)
    requires ReadyToShare(v, sn, dn, i)
    ensures v.tree.cell[sn].frame in v.tab && v.tree.cell[dn].frame in v.tab
    ensures v.tree.cell[sn].frame != v.tree.cell[dn].frame
    ensures Inv(ShareNext(v, sn, dn, i))
  {
    ShareFrames(v, sn, dn);
    hide Inv;
    StoreInert(v, dn, i, CowMark(At(v.tree, sn, i)));
    ShareNextReady(v, sn, dn, i);
    ShareEntryInv(Store(v, dn, i, CowMark(At(v.tree, sn, i))), sn, dn, i);
  }

  lemma ShareNextReady(v: State, sn: Node, dn: Node, i: nat)
    requires ReadyToShare(v, sn, dn, i) && v.tree.cell[sn].frame in v.tab && v.tree.cell[dn].frame in v.tab
    requires Inv(Store(v, dn, i, CowMark(At(v.tree, sn, i))))
    ensures CanShare(Store(v, dn, i, CowMark(At(v.tree, sn, i))), sn, dn, i)
  {
    hide Inv;
  }

  lemma ShareFrames(v: State, sn: Node, dn: Node)
    requires Inv(v) && sn in v.tree.cell && dn in v.tree.cell && sn != dn
    ensures v.tree.cell[sn].frame in v.tab && v.tree.cell[dn].frame in v.tab
    ensures v.tree.cell[sn].frame != v.tree.cell[dn].frame
  {
    assert v.owner[v.tree.cell[sn].frame] == sn && v.owner[v.tree.cell[dn].frame] == dn;
  }

  lemma CloneLeaf(v: State, v1: State, sn: Node, dn: Node, i: nat)
    requires Inv(v) && Clear(v.tree, dn) && sn in v.tree.cell && Cloned(v, v1, sn, dn, i) && ReadyToShare(v1, sn, dn, i)
    requires v1.tree.cell[sn].frame in v1.tab && v1.tree.cell[dn].frame in v1.tab
    requires dn.r != sn.r
    ensures Cloned(v, ShareNext(v1, sn, dn, i), sn, dn, i + 1)
  {
    UserPtLeaf(v1, sn, i);
    CloneNoPages(v, dn);
    hide Inv;
    CloneLeafFrom(v, v1, sn, dn, i);
  }

  lemma CloneLeafFrom(v: State, v1: State, sn: Node, dn: Node, i: nat)
    requires sn.Pt? && dn == RerootNode(sn, dn.r) && dn.r != sn.r && i < ENTRIES
    requires Clear(v.tree, dn) && sn in v.tree.cell && sn in v1.tree.cell && Cloned(v, v1, sn, dn, i)
    requires v1.tree.cell[sn].frame in v1.tab && v1.tree.cell[dn].frame in v1.tab
    requires SlotAt(sn, i) in v1.leaf && v1.leaf[SlotAt(sn, i)].frame < |v1.refs|
    requires v1.leaf[SlotAt(sn, i)] == At(v1.tree, sn, i) && forall s :: s in v.leaf ==> !Under(s, dn)
    ensures Cloned(v, ShareNext(v1, sn, dn, i), sn, dn, i + 1)
  {
    assert Below(dn, dn) && dn !in v.tree.cell;
    assert SlotAt(sn, i) in v.leaf && v1.leaf[SlotAt(sn, i)] == v.leaf[SlotAt(sn, i)];
    CloneLeafPages(v.leaf, v1.leaf, sn, dn, i);
    CloneLeafTables(v.tree, v1.tree, sn, dn, i, CowMark(At(v1.tree, sn, i)));
    hide TablesCloned;
    hide PagesCloned;
  }

  lemma CloneNoPages(v: State, dn: Node)
    requires Inv(v) && Clear(v.tree, dn)
    ensures forall s :: s in v.leaf ==> !Under(s, dn)
  {
    forall s | s in v.leaf
      ensures !Under(s, dn)
    {
      NoPages(v.tree, v.leaf, dn, s);
    }
  }

  // ----- when memory runs out -----

  /** The source may have been marked; every table and page is where it was, and only
      references outside the tables and lost frames can have been added. */
  ghost predicate CloneFailed(v: State, v': State, sn: Node) {
    && v'.tree.kernel == v.tree.kernel
    && (forall m :: m in v'.tree.cell <==> m in v.tree.cell)
    && (forall m :: m in v.tree.cell ==> SameTable(v.tree.cell[m], v'.tree.cell[m], m.Pt? && Below(m, sn)))
    && MarkedOnly(v.leaf, v'.leaf, sn)
    && v'.data == v.data && v.held <= v'.held && v.other <= v'.other
    && forall f :: v'.held[f] > v.held[f] ==> MarkedBelow(v.leaf, v'.leaf, sn, f)
  }

  /** A page below `sn` that names `f` has been marked for sharing. */
  ghost predicate MarkedBelow(leaf: map<Slot, Entry>, leaf': map<Slot, Entry>, sn: Node, f: Frame) {
    exists s :: s in leaf && s in leaf' && Under(s, sn) && leaf[s].frame == f && leaf'[s] == CowMark(leaf[s])
  }

  ghost predicate MarkedOnly(leaf: map<Slot, Entry>, leaf': map<Slot, Entry>, sn: Node) {
    && leaf'.Keys == leaf.Keys
    && forall s :: s in leaf ==> leaf'[s] == leaf[s] || (Under(s, sn) && leaf'[s] == CowMark(leaf[s]))
  }

  ghost predicate OnlyLost(v: State, v': State) {
    v.held <= v'.held && v.other <= v'.other
  }

  /** A page that names `f` is gone. */
  ghost predicate GonePage(leaf: map<Slot, Entry>, leaf': map<Slot, Entry>, f: Frame) {
    exists s :: s in leaf && s !in leaf' && leaf[s].frame == f
  }

  /** Pages only go, and a reference is held outside the tables only for a page that went. */
  ghost predicate Leaked(v: State, v': State) {
    && OnlyLost(v, v')
    && (forall s :: s in v'.leaf ==> s in v.leaf && v'.leaf[s] == v.leaf[s])
    && forall f :: v'.held[f] > v.held[f] ==> GonePage(v.leaf, v'.leaf, f)
  }

  lemma LeakNone(v: State, v': State)
    requires v'.held == v.held && v.other <= v'.other && forall s :: s in v'.leaf ==> s in v.leaf && v'.leaf[s] == v.leaf[s]
    ensures Leaked(v, v')
  {
  }

  lemma TornLeaks(v: State, v': State, n: Node)
    requires Torn(v, v', n) && NothingLost(v, v')
    ensures Leaked(v, v')
  {
  }

  lemma LeakPage(v: State, v': State, s: Slot)
    requires s in v.leaf && v'.leaf == v.leaf - {s} && v'.held == v.held + multiset{v.leaf[s].frame} && v'.other == v.other
    ensures Leaked(v, v')
  {
    forall f | v'.held[f] > v.held[f]
      ensures GonePage(v.leaf, v'.leaf, f)
    {
      assert s in v.leaf && s !in v'.leaf && v.leaf[s].frame == f;
    }
  }

  lemma LeakTrans(v: State, v1: State, v2: State)
    requires Leaked(v, v1) && Leaked(v1, v2)
    ensures Leaked(v, v2)
  {
    forall f | v2.held[f] > v.held[f]
      ensures GonePage(v.leaf, v2.leaf, f)
    {
      if v2.held[f] > v1.held[f] {
        var s :| s in v1.leaf && s !in v2.leaf && v1.leaf[s].frame == f;
        assert s in v.leaf;
      } else {
        var s :| s in v.leaf && s !in v1.leaf && v.leaf[s].frame == f;
        assert s !in v2.leaf;
      }
    }
  }

  /** A failed copy of a child leaves the partial copy of its parent as it was. */
  lemma FailedBelow(v: State, v1: State, v2: State, v3: State, sn: Node, dn: Node, i: nat)
    requires !sn.Pt? && Cloned(v, v1, sn, dn, i) && CloneFailed(v1, v2, Child(sn, i)) && Torn(v2, v3, dn) && Leaked(v2, v3)
    requires Clear(v.tree, dn) && dn == RerootNode(sn, dn.r) && dn.r != sn.r
    requires forall s :: s in v.leaf ==> !Under(s, dn)
    ensures CloneFailed(v, v3, sn)
  {
    FailedBelowTables(v.tree, v1.tree, v2.tree, v3.tree, sn, dn, i);
    FailedBelowPages(v.leaf, v1.leaf, v2.leaf, v3.leaf, sn, dn, i);
    forall f | v3.held[f] > v.held[f]
      ensures MarkedBelow(v.leaf, v3.leaf, sn, f)
    {
      if v3.held[f] > v2.held[f] {
        GoneWasMarked(v.leaf, v1.leaf, v2.leaf, v3.leaf, sn, dn, i, f);
      } else {
        ChildWasMarked(v.leaf, v1.leaf, v2.leaf, v3.leaf, sn, dn, i, f);
      }
    }
    hide TablesCloned;
    hide PagesCloned;
    hide TablesTorn;
    hide PagesTorn;
    hide MarkedBelow;
    hide GonePage;
    hide MarkedOnly;
    hide SameTable;
  }

  /** A page of the copy stands for a page of the source that was marked when it was shared. */
  lemma GoneWasMarked(leaf: map<Slot, Entry>, leaf1: map<Slot, Entry>, leaf2: map<Slot, Entry>,
                      leaf3: map<Slot, Entry>, sn: Node, dn: Node, i: nat, f: Frame)
    requires !sn.Pt? && PagesCloned(leaf, leaf1, sn, dn, i) && MarkedOnly(leaf1, leaf2, Child(sn, i)) && dn == RerootNode(sn, dn.r) && dn.r != sn.r
    requires PagesTorn(leaf2, leaf3, dn) && (forall s :: s in leaf ==> !Under(s, dn)) && GonePage(leaf2, leaf3, f)
    ensures MarkedBelow(leaf, leaf3, sn, f)
  {
    var s :| s in leaf2 && s !in leaf3 && leaf2[s].frame == f;
    assert Under(s, dn) && s in leaf1;
    var x := Reroot(s, sn.r);
    assert x in leaf && PageGone(x, sn, i);
    assert leaf1[s] == CowMark(leaf[x]) && leaf1[x] == CowMark(leaf[x]);
    assert x in leaf3 && leaf3[x] == leaf2[x];
  }

  lemma ChildWasMarked(leaf: map<Slot, Entry>, leaf1: map<Slot, Entry>, leaf2: map<Slot, Entry>,
                       leaf3: map<Slot, Entry>, sn: Node, dn: Node, i: nat, f: Frame)
    requires !sn.Pt? && PagesCloned(leaf, leaf1, sn, dn, i) && MarkedOnly(leaf1, leaf2, Child(sn, i)) && dn == RerootNode(sn, dn.r) && dn.r != sn.r
    requires PagesTorn(leaf2, leaf3, dn) && (forall s :: s in leaf ==> !Under(s, dn)) && MarkedBelow(leaf1, leaf2, Child(sn, i), f)
    ensures MarkedBelow(leaf, leaf3, sn, f)
  {
    var s :| s in leaf1 && s in leaf2 && Under(s, Child(sn, i)) && leaf1[s].frame == f && leaf2[s] == CowMark(leaf1[s]);
    assert Under(s, sn) && !Under(s, dn);
    assert s in leaf && s in leaf3;
  }

  lemma FailedBelowTables(t: Tree, t1: Tree, t2: Tree, t3: Tree, sn: Node, dn: Node, i: nat)
    requires !sn.Pt? && dn == RerootNode(sn, dn.r) && Clear(t, dn) && TablesCloned(t, t1, sn, dn, i)
    requires t2.kernel == t1.kernel && (forall m :: m in t2.cell <==> m in t1.cell)
    requires forall m :: m in t1.cell ==> SameTable(t1.cell[m], t2.cell[m], m.Pt? && Below(m, Child(sn, i)))
    requires TablesTorn(t2, t3, dn)
    ensures t3.kernel == t.kernel && (forall m :: m in t3.cell <==> m in t.cell)
    ensures forall m :: m in t.cell ==> SameTable(t.cell[m], t3.cell[m], m.Pt? && Below(m, sn))
  {
    forall m | Below(m, Child(sn, i))
      ensures Below(m, sn)
    {
    }
  }

  lemma FailedBelowPages(leaf: map<Slot, Entry>, leaf1: map<Slot, Entry>, leaf2: map<Slot, Entry>,
                         leaf3: map<Slot, Entry>, sn: Node, dn: Node, i: nat)
    requires !sn.Pt? && PagesCloned(leaf, leaf1, sn, dn, i) && MarkedOnly(leaf1, leaf2, Child(sn, i))
    requires PagesTorn(leaf2, leaf3, dn) && forall s :: s in leaf ==> !Under(s, dn)
    ensures MarkedOnly(leaf, leaf3, sn)
  {
    forall s
      ensures s in leaf3 <==> s in leaf
    {
    }
    forall s | s in leaf
      ensures leaf3[s] == leaf[s] || (Under(s, sn) && leaf3[s] == CowMark(leaf[s]))
    {
      assert leaf3[s] == leaf2[s] && s in leaf1;
    }
  }

  lemma HookDone(v: State, v1: State, v2: State, sn: Node, dn: Node, i: nat)
    requires Inv(v) && Clear(v.tree, dn) && !sn.Pt? && dn == RerootNode(sn, dn.r) && dn.r != sn.r && i < ENTRIES
    requires Cloned(v, v1, sn, dn, i) && Cloned(v1, v2, Child(sn, i), Child(dn, i), ENTRIES)
    requires dn in v2.tree.cell && v2.tree.cell[dn].frame in v2.tab
    ensures Cloned(v, HookEntry(v2, dn, i), sn, dn, i + 1)
  {
    hide Inv;
    CloneNoPages(v, dn);
    AllSlotted(v);
    assert Below(dn, dn) && dn !in v.tree.cell;
    HookTables(v.tree, v1.tree, v2.tree, sn, dn, i);
    HookPages(v.leaf, v1.leaf, v2.leaf, sn, dn, i);
    hide TablesCloned;
    hide PagesCloned;
  }

  lemma AllSlotted(v: State)
    requires Inv(v)
    ensures forall s :: s in v.leaf ==> Slotted(s)
  {
    forall s | s in v.leaf
      ensures Slotted(s)
    {
      assert IsLeaf(v.tree, s);
      assert CellOk(v.tree, PtOf(s));
    }
  }

  /** The entry of the source about to be copied. */
  ghost predicate NextEntryIs(v: State, v1: State, sn: Node, i: nat) {
    && InForce(v1.tree, sn, i) && v1.tree.cell[sn].frame in v1.tab && i < ENTRIES
    && v1.tab[v1.tree.cell[sn].frame][i] == At(v1.tree, sn, i)
    && (!At(v1.tree, sn, i).present ==>
          if sn.Pt? then sn in v.tree.cell && !At(v.tree, sn, i).present else Child(sn, i) !in v.tree.cell)
    && (At(v1.tree, sn, i).present && sn.Pt? ==> SlotAt(sn, i) in v1.leaf)
    && (At(v1.tree, sn, i).present && !sn.Pt? ==>
          !At(v1.tree, sn, i).huge && Source(v1.tree, Child(sn, i))
          && v1.tree.cell[Child(sn, i)].frame == At(v1.tree, sn, i).frame)
  }

  lemma NextPage(v: State, v1: State, sn: Node, dn: Node, i: nat)
    requires Inv(v) && Inv(v1) && Source(v.tree, sn) && Cloned(v, v1, sn, dn, i) && i < ENTRIES
    requires sn.Pt? && dn.r != sn.r && dn.Pt?
    ensures NextEntryIs(v, v1, sn, i)
  {
    hide Inv;
    assert SameTable(v.tree.cell[sn], v1.tree.cell[sn], true);
    TableFacts(v1, sn);
    UserPtLeaf(v, sn, i);
    UserPtLeaf(v1, sn, i);
    assert SlotAt(sn, i) in v.leaf <==> SlotAt(sn, i) in v1.leaf;
  }

  lemma NextTable(v: State, v1: State, sn: Node, dn: Node, i: nat)
    requires Inv(v) && Inv(v1) && Source(v.tree, sn) && Cloned(v, v1, sn, dn, i) && i < ENTRIES
    requires !sn.Pt? && dn.r != sn.r && (sn.Pml4? ==> i < USER_ENTRIES)
    ensures NextEntryIs(v, v1, sn, i)
  {
    hide Inv;
    assert SameTable(v.tree.cell[sn], v1.tree.cell[sn], false);
    TableFacts(v1, sn);
    SourceOf(v, v1.tree, sn, dn, i);
  }

  lemma SourceOf(v: State, t1: Tree, sn: Node, dn: Node, i: nat)
    requires Inv(v) && Source(v.tree, sn) && !sn.Pt? && i < ENTRIES && (sn.Pml4? ==> i < USER_ENTRIES)
    requires TablesCloned(v.tree, t1, sn, dn, i) && dn.r != sn.r
    ensures InForce(v.tree, sn, i)
    ensures At(v.tree, sn, i).present <==> Child(sn, i) in v.tree.cell
    ensures At(v.tree, sn, i).present ==>
              !At(v.tree, sn, i).huge && Source(t1, Child(sn, i)) && t1.cell[Child(sn, i)].frame == At(v.tree, sn, i).frame
  {
    SourceEntry(v.tree, sn, i);
    if Child(sn, i) in v.tree.cell {
      SourceBelow(v.tree, t1, sn, dn, i);
    }
  }

  lemma SourceEntry(t: Tree, sn: Node, i: nat)
    requires Wf(t) && Source(t, sn) && !sn.Pt? && i < ENTRIES && (sn.Pml4? ==> i < USER_ENTRIES)
    ensures InForce(t, sn, i)
    ensures At(t, sn, i).present <==> Child(sn, i) in t.cell
    ensures At(t, sn, i).present ==> !At(t, sn, i).huge
  {
    assert PointsDown(t, sn, i);
    if Child(sn, i) in t.cell {
      assert Below(Child(sn, i), sn) && Child(sn, i) != sn;
      assert LinkedFrom(t, Child(sn, i));
    }
  }

  lemma SourceBelow(t: Tree, t1: Tree, sn: Node, dn: Node, i: nat)
    requires Wf(t) && Source(t, sn) && !sn.Pt? && Child(sn, i) in t.cell && InForce(t, sn, i) && At(t, sn, i).present && !At(t, sn, i).huge
    requires TablesCloned(t, t1, sn, dn, i) && dn.r != sn.r
    ensures Source(t1, Child(sn, i)) && t1.cell[Child(sn, i)].frame == At(t, sn, i).frame
  {
    var c := Child(sn, i);
    assert PointsDown(t, sn, i);
    assert SameTable(t.cell[c], t1.cell[c], c.Pt? && Below(c, sn));
    forall m | m in t1.cell && Below(m, c) && m != c
      ensures t1.cell[m].linked
    {
      assert m in t.cell && Below(m, sn) && m != sn;
      assert SameTable(t.cell[m], t1.cell[m], m.Pt? && Below(m, sn));
    }
  }

  lemma ClearBelow(t: Tree, t1: Tree, sn: Node, dn: Node, i: nat)
    requires Clear(t, dn) && !dn.Pt? && TablesCloned(t, t1, sn, dn, i)
    ensures Clear(t1, Child(dn, i))
  {
    forall m | m in t1.cell && Below(m, dn) && m != dn
      ensures !Below(m, Child(dn, i))
    {
      DownChild(m, dn);
    }
  }

  // ----- what a copy costs -----

  /** How many tables the subtree at `n` has. */
  ghost function TreeSize(t: Tree, n: Node): nat
    decreases Level(n), 1, 0
  {
    if n in t.cell then 1 + SizeTo(t, n, ENTRIES) else 0
  }

  /** How many of them lie below its first `i` entries. */
  ghost function SizeTo(t: Tree, n: Node, i: nat): nat
    decreases Level(n), 0, i
  {
    if i == 0 || n.Pt? then 0 else SizeTo(t, n, i - 1) + TreeSize(t, Child(n, i - 1))
  }

  ghost function EntrySize(t: Tree, n: Node, i: nat): nat {
    if n.Pt? then 0 else TreeSize(t, Child(n, i))
  }

  lemma SizeNone(t: Tree, n: Node)
    ensures SizeTo(t, n, 0) == 0
  {
  }

  lemma SizeNext(t: Tree, n: Node, i: nat)
    ensures SizeTo(t, n, i + 1) == SizeTo(t, n, i) + EntrySize(t, n, i)
  {
  }

  lemma {:induction false} SizeGrows(t: Tree, n: Node, i: nat, k: nat)
    requires i <= k
    ensures SizeTo(t, n, i) <= SizeTo(t, n, k)
  {
    if i < k {
      SizeGrows(t, n, i, k - 1);
    }
  }

  lemma {:induction false} SizeSame(t: Tree, t': Tree, n: Node)
    requires forall m :: Below(m, n) ==> (m in t.cell <==> m in t'.cell)
    ensures TreeSize(t', n) == TreeSize(t, n)
    decreases Level(n), 1, 0
  {
    assert Below(n, n);
    SizeToSame(t, t', n, ENTRIES);
  }

  lemma {:induction false} SizeToSame(t: Tree, t': Tree, n: Node, i: nat)
    requires forall m :: Below(m, n) ==> (m in t.cell <==> m in t'.cell)
    ensures SizeTo(t', n, i) == SizeTo(t, n, i)
    decreases Level(n), 0, i
  {
    if i > 0 && !n.Pt? {
      SizeToSame(t, t', n, i - 1);
      SizeSame(t, t', Child(n, i - 1));
    }
  }

  /** Copying changes no size in the source. */
  lemma SourceSize(v: State, v1: State, sn: Node, dn: Node, i: nat)
    requires Cloned(v, v1, sn, dn, i) && dn.r != sn.r && NextEntryIs(v, v1, sn, i)
    ensures EntrySize(v1.tree, sn, i) == EntrySize(v.tree, sn, i)
    ensures !At(v1.tree, sn, i).present ==> EntrySize(v.tree, sn, i) == 0
  {
    if !sn.Pt? {
      forall m | Below(m, Child(sn, i))
        ensures m in v.tree.cell <==> m in v1.tree.cell
      {
      }
      SizeSame(v.tree, v1.tree, Child(sn, i));
    }
  }
}

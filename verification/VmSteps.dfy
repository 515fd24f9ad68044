/** What each operation of the virtual memory manager does to the state of memory. */
module VmSteps {
  import opened Arith
  import opened PageEntry
  import opened PageTree
  import opened PageWalk
  import opened Vm
  import opened Teardown
  import opened Fork
  import Pmm
  import Cow
  import CowRuns

  /** Between operations every table is linked and wholly in force. */
  ghost predicate Stable(t: Tree) {
    forall n :: n in t.cell ==> (n.Pml4? || t.cell[n].linked) && t.cell[n].lo == 0 && t.cell[n].hi == ENTRIES
  }

  lemma {:induction false} StableReached(t: Tree, n: Node)
    requires Wf(t) && Stable(t) && n in t.cell
    ensures Reached(t, n)
    decreases 3 - Level(n)
  {
    if !n.Pml4? {
      assert LinkedFrom(t, n);
      StableReached(t, Parent(n));
    }
  }

  /** No translation changes. */
  ghost predicate SameLook(t: Tree, t': Tree) {
    forall s :: Walkable(t, s) ==> Walkable(t', s) && Look(t', s) == Look(t, s)
  }

  /** User pages, their frames and contents are untouched. */
  ghost predicate SameUsers(v: State, v': State) {
    v'.leaf == v.leaf && v'.live == v.live && v'.held == v.held && v'.data == v.data && v'.other == v.other
  }

  /** Only tables are added, each where there was no table, and none takes rights away. */
  ghost predicate Grown(t: Tree, t': Tree) {
    && t'.kernel == t.kernel
    && (forall n :: n in t.cell ==> n in t'.cell && t'.cell[n].frame == t.cell[n].frame)
    && (forall n :: n in t'.cell && n.Pml4? ==> n in t.cell)
    && OpenedUp(t, t')
  }

  lemma Unchanged(t: Tree)
    ensures SameLook(t, t) && Grown(t, t)
  {
  }

  lemma Further(t: Tree, t1: Tree, t2: Tree)
    requires SameLook(t, t1) && Grown(t, t1) && SameLook(t1, t2) && Grown(t1, t2)
    ensures SameLook(t, t2) && Grown(t, t2)
  {
    forall s | Walkable(t, s)
      ensures Walkable(t2, s) && Look(t2, s) == Look(t, s)
    {
      assert Walkable(t1, s);
    }
  }

  lemma ChildFacts(v: State, n: Node, i: nat)
    requires Inv(v) && Stable(v.tree) && !n.Pt? && InForce(v.tree, n, i)
    ensures PointsDown(v.tree, n, i)
    ensures Inert(v.tree, n, i) ==> Child(n, i) !in v.tree.cell
  {
    if Child(n, i) in v.tree.cell {
      assert LinkedFrom(v.tree, Child(n, i));
    }
  }

  /** What putting an empty table below a free entry keeps. */
  lemma EnsureStep(v: State, n: Node, i: nat, f: Frame, tb: Table)
    requires Inv(v) && Stable(v.tree) && !n.Pt? && InForce(v.tree, n, i) && !At(v.tree, n, i).present
    requires f < Pmm.MAX_PAGES && !v.used[f] && forall j :: 0 <= j < ENTRIES ==> tb[j] == ZERO
    ensures v.tree.cell[n].frame in v.tab
    ensures var v' := InsertTable(v, n, i, f, tb);
            && Inv(v') && Stable(v'.tree) && SameUsers(v, v')
            && Grown(v.tree, v'.tree) && SameLook(v.tree, v'.tree)
  {
    ChildFacts(v, n, i);
    InsertTableInv(v, n, i, f, tb);
    EnsureLook(v.tree, n, i, f, tb);
    InsertStable(v.tree, n, i, f, tb);
  }

  lemma InsertStable(t: Tree, n: Node, i: nat, f: Frame, tb: Table)
    requires Stable(t) && n in t.cell && !n.Pt? && i < ENTRIES && Child(n, i) !in t.cell
    requires !At(t, n, i).present || At(t, n, i).huge
    requires forall j :: 0 <= j < ENTRIES ==> !tb[j].present || tb[j].huge || n.Pd?
    ensures Stable(Insert(t, n, i, f, tb)) && Grown(t, Insert(t, n, i, f, tb))
  {
  }

  lemma EnsureLook(t: Tree, n: Node, i: nat, f: Frame, tb: Table)
    requires Wf(t) && Stable(t) && !n.Pt? && InForce(t, n, i) && !At(t, n, i).present
    requires Child(n, i) !in t.cell && Wf(Insert(t, n, i, f, tb)) && forall j :: 0 <= j < ENTRIES ==> tb[j] == ZERO
    ensures SameLook(t, Insert(t, n, i, f, tb))
  {
    StableReached(t, n);
    forall s | Walkable(t, s)
      ensures Look(Insert(t, n, i, f, tb), s) == Look(t, s)
    {
      InsertEmpty(t, n, i, f, tb, s);
    }
  }

  /** What splitting a huge page keeps. */
  lemma SplitStep(v: State, n: Node, i: nat, f: Frame, tb: Table)
    requires Inv(v) && Stable(v.tree) && !n.Pt? && InForce(v.tree, n, i)
    requires At(v.tree, n, i).present && At(v.tree, n, i).huge
    requires f < Pmm.MAX_PAGES && !v.used[f]
    requires forall j :: 0 <= j < ENTRIES ==> tb[j] == SubEntry(n, At(v.tree, n, i), j)
    ensures v.tree.cell[n].frame in v.tab
    ensures var v' := InsertTable(v, n, i, f, tb);
            && Inv(v') && Stable(v'.tree) && SameUsers(v, v')
            && Grown(v.tree, v'.tree) && SameLook(v.tree, v'.tree)
            && InForce(v'.tree, n, i) && At(v'.tree, n, i) == DirEntry(f)
  {
    ChildFacts(v, n, i);
    InsertTableInv(v, n, i, f, tb);
    SplitLook(v.tree, n, i, f, tb);
    InsertStable(v.tree, n, i, f, tb);
  }

  lemma SplitLook(t: Tree, n: Node, i: nat, f: Frame, tb: Table)
    requires Wf(t) && Stable(t) && (n.Pdpt? || n.Pd?) && InForce(t, n, i) && At(t, n, i).present && At(t, n, i).huge
    requires Child(n, i) !in t.cell && Wf(Insert(t, n, i, f, tb))
    requires forall j :: 0 <= j < ENTRIES ==> tb[j] == SubEntry(n, At(t, n, i), j)
    ensures SameLook(t, Insert(t, n, i, f, tb))
  {
    StableReached(t, n);
    forall s | Walkable(t, s)
      ensures Look(Insert(t, n, i, f, tb), s) == Look(t, s)
    {
      InsertSplit(t, n, i, f, tb, s);
    }
  }

  // ----- setting one page -----

  /** Where the virtual address is translated in the space rooted at `r`. */
  function SlotOf(r: Frame, va: nat): Slot {
    Slot(r, va / 0x80_0000_0000 % 512, va / 0x4000_0000 % 512, va / 0x20_0000 % 512, va / 0x1000 % 512)
  }

  /** The address that the four indices stand for. */
  function Address(s: Slot): nat { s.a * 0x80_0000_0000 + s.b * 0x4000_0000 + s.c * 0x20_0000 + s.d * 0x1000 }

  /** The indices are those the processor takes from the low 48 bits of the address. */
  lemma SlotRebuilds(r: Frame, va: nat)
    ensures var s := SlotOf(r, va);
            && s.r == r && s.a < 512 && s.b < 512 && s.c < 512 && s.d < 512
            && s.a * 0x80_0000_0000 + s.b * 0x4000_0000 + s.c * 0x20_0000 + s.d * 0x1000 + va % 4096 == va % 0x1_0000_0000_0000
  {
    SlotAddress(r, va);
    hide SlotOf;
  }

  lemma SlotAddress(r: Frame, va: nat)
    ensures SlotOf(r, va).r == r && Indexed(SlotOf(r, va))
    ensures Address(SlotOf(r, va)) + va % 4096 == va % 0x1_0000_0000_0000
  {
    hide Address;
    var s := SlotOf(r, va);
    Shifts(va);
    Nines(s, va / 0x1000, va / 0x20_0000, va / 0x4000_0000, va / 0x80_0000_0000, va / 0x80_0000_0000 / 512);
    DivModUnique(va, 0x1_0000_0000_0000, va / 0x80_0000_0000 / 512, Address(s) + va % 4096);
  }

  /** A number with its last four digits to base 512. */
  lemma Nines(s: Slot, p: nat, p1: nat, p2: nat, p3: nat, u: nat)
    requires Indexed(s) && p == p1 * 512 + s.d && p1 == p2 * 512 + s.c && p2 == p3 * 512 + s.b && p3 == u * 512 + s.a
    ensures p * 4096 == u * 0x1_0000_0000_0000 + Address(s) && Address(s) + 4096 <= 0x1_0000_0000_0000
  {
  }

  /** Each index is what is left after dropping nine more bits. */
  lemma Shifts(va: nat)
    ensures va / 0x20_0000 == va / 0x1000 / 512 && va / 0x4000_0000 == va / 0x20_0000 / 512
    ensures va / 0x80_0000_0000 == va / 0x4000_0000 / 512
  {
  }

  /** A huge page takes the low 30 or 21 bits of the address as the offset into it. */
  lemma HugeOffset(r: Frame, va: nat, e: Entry)
    ensures var s := SlotOf(r, va);
            && HugeFrame(Pdpt(r, s.a), e, s) * 4096 + va % 4096 == e.frame / 262144 * 0x4000_0000 + va % 0x4000_0000
            && HugeFrame(Pd(r, s.a, s.b), e, s) * 4096 + va % 4096 == e.frame / 512 * 0x20_0000 + va % 0x20_0000
  {
    Shifts(va);
    var s := SlotOf(r, va);
    DivModUnique(va, 0x4000_0000, va / 0x4000_0000, (s.c * 512 + s.d) * 4096 + va % 4096);
    DivModUnique(va, 0x20_0000, va / 0x20_0000, s.d * 4096 + va % 4096);
  }

  lemma SameSlot(r: Frame, x: nat, y: nat)
    requires x < 0x1_0000_0000_0000 && y < 0x1_0000_0000_0000 && SlotOf(r, x) == SlotOf(r, y)
    ensures x / 4096 == y / 4096
  {
    hide SlotOf;
    hide Address;
    SlotAddress(r, x);
    SlotAddress(r, y);
    assert x - x % 4096 == y - y % 4096;
  }

  /** Two addresses below 2^48 have one slot exactly if they lie in the same 4 KiB page. */
  lemma SlotIffPage(r: Frame, x: nat, y: nat)
    requires x < 0x1_0000_0000_0000 && y < 0x1_0000_0000_0000
    ensures SlotOf(r, x) == SlotOf(r, y) <==> x / 4096 == y / 4096
  {
    if x / 4096 == y / 4096 {
      Shifts(x);
      Shifts(y);
    }
    if SlotOf(r, x) == SlotOf(r, y) {
      SameSlot(r, x, y);
    }
  }

  ghost function SetPage(v: State, s: Slot, e: Entry): State
    requires PtOf(s) in v.tree.cell && s.d < ENTRIES && v.tree.cell[PtOf(s)].frame in v.tab
  {
    if s.r == v.tree.kernel then Store(v, PtOf(s), s.d, e)
    else RewriteEntry(v, PtOf(s), s.d, e, Cow.MapOver(World(v), s, e))
  }

  ghost function PageLook(e: Entry): Trans {
    if e.present then Translated(e, e.frame) else Fault
  }

  /** The flat view of mapping: one page changes, all others translate as before. */
  ghost predicate OnlyPage(t: Tree, t': Tree, s: Slot, tr: Trans) {
    forall x :: Walkable(t, x) ==> Walkable(t', x) && Look(t', x) == if x == s then tr else Look(t, x)
  }

  /** What a leaf entry gives to its page: its own rights in a user space, and in the kernel's
      those that the tables above that are already there leave of them. */
  ghost function PathLook(t: Tree, s: Slot, e: Entry): Trans {
    if s.r == t.kernel then Cut(t, PtOf(s), PageLook(e)) else PageLook(e)
  }

  /** Nothing above makes a page of an entry that is not present. */
  lemma PathFault(t: Tree, s: Slot)
    ensures PathLook(t, s, ZERO) == Fault
  {
    assert Cut(t, Pml4(s.r), Fault) == Fault && Cut(t, Pdpt(s.r, s.a), Fault) == Fault;
    assert Cut(t, Pd(s.r, s.a, s.b), Fault) == Fault;
  }

  ghost predicate PageSet(v: State, v': State, s: Slot, e: Entry) {
    && OnlyPage(v.tree, v'.tree, s, PathLook(v.tree, s, e))
    && v'.live == v.live && v'.data == v.data && v'.other == v.other
    && (s.r == v.tree.kernel ==> v'.leaf == v.leaf && v'.held == v.held)
    && (s.r != v.tree.kernel ==>
          v'.leaf == Cow.MapOver(World(v), s, e).leaf && v'.held == Cow.MapOver(World(v), s, e).held)
  }

  lemma SetPageStep(v: State, s: Slot, e: Entry)
    requires Inv(v) && Stable(v.tree) && Indexed(s) && PtOf(s) in v.tree.cell
    requires s.r != v.tree.kernel ==> Cow.FreshFor(World(v), e)
    ensures v.tree.cell[PtOf(s)].frame in v.tab && Inv(SetPage(v, s, e)) && Stable(SetPage(v, s, e).tree)
    ensures PageSet(v, SetPage(v, s, e), s, e)
  {
    SetPageInv(v, s, e);
    SetPageView(v, s, e);
  }

  lemma SetPageView(v: State, s: Slot, e: Entry)
    requires Wf(v.tree) && Stable(v.tree) && Cow.Inv(World(v)) && Indexed(s) && PtOf(s) in v.tree.cell
    requires v.tree.cell[PtOf(s)].frame in v.tab && (s.r != v.tree.kernel ==> Cow.FreshFor(World(v), e))
    ensures Stable(SetPage(v, s, e).tree) && PageSet(v, SetPage(v, s, e), s, e)
  {
    hide Wf;
    hide Cow.Inv;
    hide Stable;
    hide OnlyPage;
    SetPageLook(v.tree, s, e);
    if s.r != v.tree.kernel {
      Cow.MapOverKeepsInv(World(v), s, e);
    }
  }

  lemma SetPageInv(v: State, s: Slot, e: Entry)
    requires Inv(v) && Stable(v.tree) && Indexed(s) && PtOf(s) in v.tree.cell
    requires s.r != v.tree.kernel ==> Cow.FreshFor(World(v), e)
    ensures v.tree.cell[PtOf(s)].frame in v.tab && Inv(SetPage(v, s, e))
  {
    var n := PtOf(s);
    assert InForce(v.tree, n, s.d);
    hide Stable;
    if s.r == v.tree.kernel {
      StoreInert(v, n, s.d, e);
    } else {
      var w := Cow.MapOver(World(v), s, e);
      Cow.MapOverKeepsInv(World(v), s, e);
      assert SlotAt(n, s.d) == s;
      RewriteEntryInv(v, n, s.d, e, w);
    }
  }

  lemma SetPageLook(t: Tree, s: Slot, e: Entry)
    requires Wf(t) && Stable(t) && Indexed(s) && PtOf(s) in t.cell
    ensures var t' := Put(t, PtOf(s), s.d, e);
            Stable(t') && OnlyPage(t, t', s, PathLook(t, s, e))
  {
    var n, t' := PtOf(s), Put(t, PtOf(s), s.d, e);
    StableReached(t, n);
    ThroughIsCut(t, n, PageLook(e));
    if s.r != t.kernel {
      ThroughUser(t, n, PageLook(e));
    }
    forall x | Walkable(t, x)
      ensures Look(t', x) == if x == s then PathLook(t, s, e) else Look(t, x)
    {
      PutLook(t, n, e, x, s);
    }
  }

  lemma PathGrown(t: Tree, t1: Tree, s: Slot, e: Entry)
    requires Wf(t1) && Stable(t1) && PtOf(s) in t1.cell && Grown(t, t1)
    ensures PathLook(t1, s, e) == PathLook(t, s, e)
  {
    StableReached(t1, PtOf(s));
    ThroughIsCut(t1, PtOf(s), PageLook(e));
    ThroughOpened(t, t1, PtOf(s), PageLook(e));
  }

  lemma OnlyAfter(t: Tree, t1: Tree, t': Tree, s: Slot, tr: Trans)
    requires SameLook(t, t1) && OnlyPage(t1, t', s, tr)
    ensures OnlyPage(t, t', s, tr)
  {
    hide Look;
    forall x | Walkable(t, x)
      ensures Walkable(t', x) && Look(t', x) == if x == s then tr else Look(t, x)
    {
      assert Walkable(t1, x);
    }
  }

  /** Tables first, then the page: together still a single-page change. */
  lemma AfterGrowth(v: State, v1: State, v': State, s: Slot, e: Entry)
    requires SameUsers(v, v1) && SameLook(v.tree, v1.tree) && Grown(v.tree, v1.tree) && PageSet(v1, v', s, e)
    requires Inv(v1) && Stable(v1.tree) && PtOf(s) in v1.tree.cell
    ensures PageSet(v, v', s, e)
  {
    PathGrown(v.tree, v1.tree, s, e);
    OnlyAfter(v.tree, v1.tree, v'.tree, s, PathLook(v1.tree, s, e));
    assert v1.tree.kernel == v.tree.kernel;
    hide Inv;
    hide Stable;
    hide Grown;
    hide SameLook;
    hide OnlyPage;
    hide PathLook;
  }

  /** In memory terms: the processor's walk changes for one page only. */
  lemma WalkAfter(v: State, v': State, s: Slot, tr: Trans)
    requires Inv(v) && Inv(v') && OnlyPage(v.tree, v'.tree, s, tr)
    ensures forall x :: Walkable(v.tree, x) ==> Walk(v'.tab, x) == if x == s then tr else Walk(v.tab, x)
  {
    forall x | Walkable(v.tree, x)
      ensures Walk(v'.tab, x) == if x == s then tr else Walk(v.tab, x)
    {
      WalkIsLook(v.tree, v.tab, x);
      WalkIsLook(v'.tree, v'.tab, x);
    }
  }

  lemma FreshKept(v: State, v1: State, e: Entry)
    requires Inv(v) && Inv(v1) && SameUsers(v, v1) && Cow.FreshFor(World(v), e)
    ensures Cow.FreshFor(World(v1), e)
  {
    if e.present {
      assert Cow.Mappers(v1.leaf, e.frame) == Cow.Mappers(v.leaf, e.frame);
    }
  }

  lemma MapOverRefs(v: State, s: Slot, e: Entry)
    ensures Cow.MapOver(World(v), s, e).refs == v.refs && Cow.MapOver(World(v), s, e).data == v.data
  {
    Cow.MapOverShape(World(v), s, e);
  }

  lemma RootFacts(v: State, r: Frame, a: nat)
    requires Inv(v) && Stable(v.tree) && Pml4(r) in v.tree.cell && a < ENTRIES
    requires r != v.tree.kernel ==> a < USER_ENTRIES
    ensures v.tree.cell[Pml4(r)].frame == r && InForce(v.tree, Pml4(r), a)
    ensures !(At(v.tree, Pml4(r), a).present && At(v.tree, Pml4(r), a).huge)
  {
    assert CellOk(v.tree, Pml4(r));
    ChildFacts(v, Pml4(r), a);
  }

  lemma InnerFacts(v: State, n: Node, i: nat)
    requires Stable(v.tree) && n in v.tree.cell && !n.Pml4? && i < ENTRIES
    ensures InForce(v.tree, n, i)
  {
  }

  lemma PageSetWalk(v: State, v': State, s: Slot, e: Entry)
    requires Inv(v) && Inv(v') && PageSet(v, v', s, e)
    ensures forall x :: Walkable(v.tree, x) ==>
              Walk(v'.tab, x) == if x == s then PathLook(v.tree, s, e) else Walk(v.tab, x)
  {
    WalkAfter(v, v', s, PathLook(v.tree, s, e));
  }

  // ----- unmapping -----

  ghost predicate Vacant(t: Tree, n: Node)
    requires n in t.cell
  {
    forall i :: 0 <= i < ENTRIES ==> !At(t, n, i).present
  }

  /** Table `n` translates no page but `s`. */
  ghost predicate OnlyFor(t: Tree, n: Node, s: Slot)
    decreases Level(n)
  {
    && n in t.cell
    && (forall i :: 0 <= i < ENTRIES && i != IndexIn(s, n) ==> !At(t, n, i).present)
    && (n.Pt? || OnlyFor(t, Child(n, IndexIn(s, n)), s))
  }

  /** No huge page stands in the way of `s`. */
  ghost predicate SmallPath(t: Tree, s: Slot)
    requires Indexed(s)
  {
    && (Pdpt(s.r, s.a) in t.cell ==> !(At(t, Pdpt(s.r, s.a), s.b).present && At(t, Pdpt(s.r, s.a), s.b).huge))
    && (Pd(s.r, s.a, s.b) in t.cell ==>
          !(At(t, Pd(s.r, s.a, s.b), s.c).present && At(t, Pd(s.r, s.a, s.b), s.c).huge))
  }

  /** What dropping an empty table keeps. */
  lemma PruneStep(v: State, n: Node)
    requires Inv(v) && Stable(v.tree) && n in v.tree.cell && !n.Pml4? && Vacant(v.tree, n)
    ensures Parent(n) in v.tree.cell && Index(n) < ENTRIES
    ensures v.tree.cell[n].frame < |v.used| == |v.refs| && v.tree.cell[Parent(n)].frame in v.tab
    ensures var v' := PruneTable(v, n);
            Inv(v') && Stable(v'.tree) && SameUsers(v, v') && SameLook(v.tree, v'.tree)
  {
    PruneTableInv(v, n);
    PruneKeepsLook(v.tree, n);
  }

  lemma PruneKeepsLook(t: Tree, n: Node)
    requires Wf(t) && Stable(t) && n in t.cell && !n.Pml4? && Vacant(t, n)
    requires Parent(n) in t.cell && Index(n) < ENTRIES && Wf(Prune(t, n))
    ensures Stable(Prune(t, n)) && SameLook(t, Prune(t, n))
  {
    StableReached(t, n);
    forall s | Walkable(t, s)
      ensures Look(Prune(t, n), s) == Look(t, s)
    {
      PruneLook(t, n, s);
    }
  }

  lemma ParentFacts(v: State, n: Node)
    requires Inv(v) && Stable(v.tree) && n in v.tree.cell && !n.Pml4?
    ensures Parent(n) in v.tree.cell && Index(n) < ENTRIES
    ensures v.tree.cell[n].frame != v.tree.cell[Parent(n)].frame
    ensures v.refs[v.tree.cell[n].frame] <= 1
  {
    assert LinkedFrom(v.tree, n);
    assert v.owner[v.tree.cell[n].frame] == n && v.owner[v.tree.cell[Parent(n)].frame] == Parent(n);
  }

  ghost function PruneIf(t: Tree, n: Node): Tree
    requires n in t.cell && !n.Pml4? && Parent(n) in t.cell && Index(n) < ENTRIES
  {
    if Vacant(t, n) then Prune(t, n) else t
  }

  /** The page is gone, nothing else is, and the tables gone are those that served it alone. */
  ghost predicate Unmapped(v: State, v': State, s: Slot) {
    && OnlyPage(v.tree, v'.tree, s, Fault)
    && v'.live == v.live && v'.data == v.data && v'.other == v.other
    && (s.r == v.tree.kernel ==> v'.leaf == v.leaf && v'.held == v.held)
    && (s.r != v.tree.kernel ==>
          v'.leaf == Cow.MapOver(World(v), s, ZERO).leaf && v'.held == Cow.MapOver(World(v), s, ZERO).held)
    && (forall n :: n in v'.tree.cell <==>
          n in v.tree.cell && !(Under(s, n) && !n.Pml4? && OnlyFor(v.tree, n, s)))
  }

  /** So do the walks of the processor. */
  lemma OnlyWalk(v: State, v': State, s: Slot, tr: Trans)
    requires Inv(v) && Inv(v') && Stable(v.tree) && Stable(v'.tree) && OnlyPage(v.tree, v'.tree, s, tr)
    ensures forall x :: Walkable(v.tree, x) ==> Walk(v'.tab, x) == if x == s then tr else Walk(v.tab, x)
  {
    hide Walk;
    hide Look;
    forall x | Walkable(v.tree, x)
      ensures Walk(v'.tab, x) == if x == s then tr else Walk(v.tab, x)
    {
      WalkIsLook(v.tree, v.tab, x);
      WalkIsLook(v'.tree, v'.tab, x);
    }
  }

  /** The walk of page `s` faults, and every other walk ends where it did. */
  ghost predicate OnlyFaults(t: Tree, tab: map<Frame, Table>, tab': map<Frame, Table>, s: Slot) {
    forall x :: Walkable(t, x) ==> Walk(tab', x) == if x == s then Fault else Walk(tab, x)
  }

  /** The processor lets the user read the page, or write it. */
  ghost predicate Allows(tab: map<Frame, Table>, s: Slot, write: bool) {
    Indexed(s) && Walk(tab, s).To? && Walk(tab, s).user && (write ==> Walk(tab, s).writable)
  }

  lemma UnmappedWalk(v: State, v': State, s: Slot)
    requires Inv(v) && Inv(v') && Stable(v.tree) && Stable(v'.tree) && Indexed(s)
    requires if Look(v.tree, s) == Fault then v' == v else Unmapped(v, v', s)
    ensures OnlyFaults(v.tree, v.tab, v'.tab, s)
  {
    hide Walk;
    hide Look;
    if Look(v.tree, s) == Fault {
      if Walkable(v.tree, s) {
        WalkIsLook(v.tree, v.tab, s);
      }
    } else {
      OnlyWalk(v, v', s, Fault);
    }
  }

  /** The tables on the way to `s`, one level after the other. */
  lemma StepDown(v: State, n: Node, i: nat)
    requires Inv(v) && Stable(v.tree) && !n.Pt? && InForce(v.tree, n, i)
    requires !(At(v.tree, n, i).present && At(v.tree, n, i).huge)
    ensures v.tree.cell[n].frame in v.tab && v.tab[v.tree.cell[n].frame][i] == At(v.tree, n, i)
    ensures At(v.tree, n, i).present <==> Child(n, i) in v.tree.cell
    ensures Child(n, i) in v.tree.cell ==> v.tree.cell[Child(n, i)].frame == At(v.tree, n, i).frame
  {
    TableFacts(v, n);
    ChildFacts(v, n, i);
    if Child(n, i) in v.tree.cell {
      assert LinkedFrom(v.tree, Child(n, i));
    }
  }

  lemma PathFacts(v: State, s: Slot)
    requires Inv(v) && Stable(v.tree) && Walkable(v.tree, s) && SmallPath(v.tree, s)
    requires !(At(v.tree, Pml4(s.r), s.a).present && At(v.tree, Pml4(s.r), s.a).huge)
    ensures var n := Pml4(s.r); var i := s.a;
            && v.tree.cell[n].frame in v.tab && v.tab[v.tree.cell[n].frame][i] == At(v.tree, n, i)
            && (At(v.tree, n, i).present <==> Child(n, i) in v.tree.cell)
            && (Child(n, i) in v.tree.cell ==> v.tree.cell[Child(n, i)].frame == At(v.tree, n, i).frame)
    ensures var n := Pdpt(s.r, s.a); var i := s.b;
            n in v.tree.cell ==>
            && v.tree.cell[n].frame in v.tab && v.tab[v.tree.cell[n].frame][i] == At(v.tree, n, i)
            && (At(v.tree, n, i).present <==> Child(n, i) in v.tree.cell)
            && (Child(n, i) in v.tree.cell ==> v.tree.cell[Child(n, i)].frame == At(v.tree, n, i).frame)
    ensures var n := Pd(s.r, s.a, s.b); var i := s.c;
            n in v.tree.cell ==>
            && v.tree.cell[n].frame in v.tab && v.tab[v.tree.cell[n].frame][i] == At(v.tree, n, i)
            && (At(v.tree, n, i).present <==> Child(n, i) in v.tree.cell)
            && (Child(n, i) in v.tree.cell ==> v.tree.cell[Child(n, i)].frame == At(v.tree, n, i).frame)
    ensures var n := PtOf(s);
            n in v.tree.cell ==> v.tree.cell[n].frame in v.tab && v.tab[v.tree.cell[n].frame][s.d] == At(v.tree, n, s.d)
    ensures Look(v.tree, s) == Fault <==>
            !(Pdpt(s.r, s.a) in v.tree.cell && Pd(s.r, s.a, s.b) in v.tree.cell && PtOf(s) in v.tree.cell
              && At(v.tree, PtOf(s), s.d).present)
  {
    hide Inv;
    StepDown(v, Pml4(s.r), s.a);
    var n2, n1, n0 := Pdpt(s.r, s.a), Pd(s.r, s.a, s.b), PtOf(s);
    if n2 in v.tree.cell { StepDown(v, n2, s.b); }
    if n1 in v.tree.cell { StepDown(v, n1, s.c); }
    if n0 in v.tree.cell { TableFacts(v, n0); }
    LookPath(v.tree, s);
  }

  lemma LookPath(t: Tree, s: Slot)
    requires Walkable(t, s) && SmallPath(t, s)
    requires !(At(t, Pml4(s.r), s.a).present && At(t, Pml4(s.r), s.a).huge)
    requires At(t, Pml4(s.r), s.a).present <==> Pdpt(s.r, s.a) in t.cell
    requires Pdpt(s.r, s.a) in t.cell ==> (At(t, Pdpt(s.r, s.a), s.b).present <==> Pd(s.r, s.a, s.b) in t.cell)
    requires Pd(s.r, s.a, s.b) in t.cell ==> (At(t, Pd(s.r, s.a, s.b), s.c).present <==> PtOf(s) in t.cell)
    ensures Look(t, s) == Fault <==>
            !(Pdpt(s.r, s.a) in t.cell && Pd(s.r, s.a, s.b) in t.cell && PtOf(s) in t.cell
              && At(t, PtOf(s), s.d).present)
  {
    var n2, n1, n0 := Pdpt(s.r, s.a), Pd(s.r, s.a, s.b), PtOf(s);
    if n2 in t.cell && n1 in t.cell && n0 in t.cell {
      assert LookFrom(t, n1, s) == Fault <==> LookFrom(t, n0, s) == Fault;
      assert LookFrom(t, n2, s) == Fault <==> LookFrom(t, n1, s) == Fault;
    } else if n2 in t.cell && n1 in t.cell {
      assert LookFrom(t, n1, s) == Fault;
      assert LookFrom(t, n2, s) == Fault;
    } else if n2 in t.cell {
      assert LookFrom(t, n2, s) == Fault;
    }
  }

  /** All tables on the way to `s` are there. */
  ghost predicate OnPath(t: Tree, s: Slot) {
    && Indexed(s) && Pml4(s.r) in t.cell && Pdpt(s.r, s.a) in t.cell && Pd(s.r, s.a, s.b) in t.cell && PtOf(s) in t.cell
    && At(t, Pml4(s.r), s.a).present && At(t, Pdpt(s.r, s.a), s.b).present && At(t, Pd(s.r, s.a, s.b), s.c).present
  }

  /** Whether the cleanup of table `n` (below the cleaned `t`) fires. */
  lemma CleanupExact(t0: Tree, t: Tree, c: Node, s: Slot)
    requires !c.Pml4? && Under(s, c) && Indexed(s)
    requires c in t0.cell && c in t.cell && Parent(c) in t0.cell && Parent(c) in t.cell
    requires t.cell[Parent(c)].table == t0.cell[Parent(c)].table && At(t0, Parent(c), Index(c)).present
    requires Vacant(t, c) <==> OnlyFor(t0, c, s)
    ensures var t' := PruneIf(t, c);
            && Parent(c) in t'.cell && (Vacant(t', Parent(c)) <==> OnlyFor(t0, Parent(c), s))
            && (forall n :: n in t'.cell <==> n in t.cell && !(n == c && OnlyFor(t0, c, s)))
            && (forall n :: n in t'.cell && n != Parent(c) ==> t'.cell[n] == t.cell[n])
  {
    var p, i := Parent(c), Index(c);
    assert IndexIn(s, p) == i && Child(p, i) == c;
    var t' := PruneIf(t, c);
    assert forall j :: 0 <= j < ENTRIES && j != i ==> At(t', p, j) == At(t0, p, j);
    if Vacant(t, c) {
      assert !At(t', p, i).present;
    } else {
      assert At(t', p, i) == At(t0, p, i);
    }
  }

  ghost function AfterUnmap(t: Tree, s: Slot): Tree
    requires OnPath(t, s)
  {
    PruneIf(PruneIf(PruneIf(Put(t, PtOf(s), s.d, ZERO), PtOf(s)), Pd(s.r, s.a, s.b)), Pdpt(s.r, s.a))
  }

  lemma UnmapTables(t: Tree, s: Slot)
    requires OnPath(t, s)
    ensures forall n :: n in AfterUnmap(t, s).cell <==>
              n in t.cell && !(Under(s, n) && !n.Pml4? && OnlyFor(t, n, s))
  {
    var n0, n1, n2 := PtOf(s), Pd(s.r, s.a, s.b), Pdpt(s.r, s.a);
    var t1 := Put(t, n0, s.d, ZERO);
    assert Vacant(t1, n0) <==> OnlyFor(t, n0, s) by {
      assert forall j :: 0 <= j < ENTRIES && j != s.d ==> At(t1, n0, j) == At(t, n0, j);
      assert At(t1, n0, s.d) == ZERO;
    }
    CleanupExact(t, t1, n0, s);
    var t2 := PruneIf(t1, n0);
    CleanupExact(t, t2, n1, s);
    var t3 := PruneIf(t2, n1);
    CleanupExact(t, t3, n2, s);
  }

  lemma UnmapSummary(v0: State, v1: State, v2: State, v3: State, v4: State, s: Slot)
    requires OnPath(v0.tree, s) && PageSet(v0, v1, s, ZERO) && v1.tree == Put(v0.tree, PtOf(s), s.d, ZERO)
    requires SameUsers(v1, v2) && SameUsers(v2, v3) && SameUsers(v3, v4)
    requires SameLook(v1.tree, v2.tree) && SameLook(v2.tree, v3.tree) && SameLook(v3.tree, v4.tree)
    requires v4.tree == AfterUnmap(v0.tree, s)
    ensures Unmapped(v0, v4, s)
  {
    UnmapTables(v0.tree, s);
    PathFault(v0.tree, s);
    forall x | Walkable(v0.tree, x)
      ensures Walkable(v4.tree, x) && Look(v4.tree, x) == if x == s then Fault else Look(v0.tree, x)
    {
      assert Walkable(v1.tree, x);
      assert Walkable(v2.tree, x);
      assert Walkable(v3.tree, x);
    }
  }

  lemma AfterDrain(v: State, v1: State, n: Node, i: nat)
    requires Drained(v, v1, n, i) && Finished(v.tree, n) && Hanging(v.tree, n)
    ensures Loose(v1.tree, n) && v1.tree.cell[n].lo == i && v1.tree.cell[n].hi == ENTRIES
    ensures v1.tree.cell[n].frame == v.tree.cell[n].frame && Hanging(v1.tree, n)
  {
    HangingKept(v.tree, v1.tree, n, i);
  }

  lemma NothingCopied(v: State, sn: Node)
    ensures CloneFailed(v, v, sn) && Leaked(v, v) && OnlyLost(v, v)
  {
  }

  lemma CopyIndex(v: State, sn: Node, dn: Node)
    requires Inv(v) && sn in v.tree.cell && !sn.Pml4? && sn.r != v.tree.kernel
    requires dn == RerootNode(sn, dn.r) && dn.r != v.tree.kernel && Clear(v.tree, dn)
    ensures IndexOk(v.tree, dn) && dn !in v.tree.cell
  {
    assert CellOk(v.tree, sn);
    assert Below(dn, dn);
  }

  lemma CloneNext(v: State, v1: State, sn: Node, dn: Node, i: nat)
    requires Inv(v) && Inv(v1) && Source(v.tree, sn) && Cloned(v, v1, sn, dn, i) && i < ENTRIES
    requires dn.r != sn.r && dn == RerootNode(sn, dn.r) && (sn.Pml4? ==> i < USER_ENTRIES) && Clear(v.tree, dn)
    ensures NextEntryIs(v, v1, sn, i) && v1.tree.cell[dn].frame in v1.tab && Loose(v1.tree, dn)
    ensures !sn.Pt? ==> Clear(v1.tree, Child(dn, i))
  {
    TableFacts(v1, dn);
    hide Inv;
    if sn.Pt? {
      NextPage(v, v1, sn, dn, i);
    } else {
      NextTable(v, v1, sn, dn, i);
      ClearBelow(v.tree, v1.tree, sn, dn, i);
    }
  }

  lemma HiBound(v: State, n: Node)
    requires Inv(v) && n in v.tree.cell
    ensures v.tree.cell[n].hi <= ENTRIES
  {
    assert CellOk(v.tree, n);
  }

  lemma AfterDrainTo(v: State, v1: State, n: Node, i: nat)
    requires Drained(v, v1, n, i) && Loose(v.tree, n) && Hanging(v.tree, n)
    ensures Loose(v1.tree, n) && v1.tree.cell[n].lo == i && v1.tree.cell[n].hi == v.tree.cell[n].hi
    ensures v1.tree.cell[n].frame == v.tree.cell[n].frame && Hanging(v1.tree, n)
  {
    HangingKept(v.tree, v1.tree, n, i);
  }

  /** Written in one go, the hook entry needs no zero first. */
  lemma HookMemory(v: State, dn: Node, i: nat)
    requires dn in v.tree.cell && !dn.Pt? && i < ENTRIES && v.tree.cell[dn].frame in v.tab && Child(dn, i) in v.tree.cell
    ensures var f := v.tree.cell[dn].frame; var v' := HookEntry(v, dn, i);
            && v'.tab == v.tab[f := v.tab[f][i := DirEntry(v.tree.cell[Child(dn, i)].frame)]]
            && v'.data == v.data && v'.used == v.used && v'.refs == v.refs && v'.other == v.other
            && v'.tree.kernel == v.tree.kernel
            && dn in v'.tree.cell && v'.tree.cell[dn].frame == f
            && (forall n :: n in v.tree.cell ==> n in v'.tree.cell)
  {
    var f := v.tree.cell[dn].frame;
    var e := DirEntry(v.tree.cell[Child(dn, i)].frame);
    assert v.tab[f][i := ZERO][i := e] == v.tab[f][i := e];
  }

  lemma UsedLive(v: State, n: Node, i: nat)
    requires Inv(v) && UserPt(v, n, i) && At(v.tree, n, i).present
    ensures var f := At(v.tree, n, i).frame; f < Pmm.MAX_PAGES && |v.used| == |v.refs| == Pmm.MAX_PAGES && v.used[f]
  {
    UserPtLeaf(v, n, i);
  }

  lemma ShareMemory(v: State, sn: Node, dn: Node, i: nat)
    requires ReadyToShare(v, sn, dn, i) && v.tree.cell[sn].frame in v.tab && v.tree.cell[dn].frame in v.tab
    requires v.tree.cell[sn].frame != v.tree.cell[dn].frame && v.leaf[SlotAt(sn, i)] == At(v.tree, sn, i)
    ensures var fs, fd, e := v.tree.cell[sn].frame, v.tree.cell[dn].frame, CowMark(At(v.tree, sn, i));
            var v' := ShareNext(v, sn, dn, i);
            && v'.tab == v.tab[fs := v.tab[fs][i := e]][fd := v.tab[fd][i := e]]
            && v'.refs == v.refs[e.frame := v.refs[e.frame] + 1] && v'.used == v.used && v'.data == v.data
            && v'.other == v.other && v'.tree.kernel == v.tree.kernel
            && (forall n :: n in v.tree.cell ==> n in v'.tree.cell)
  {
    hide Inv;
  }

  lemma CloneShape(v: State, v1: State, sn: Node, dn: Node, i: nat)
    requires Cloned(v, v1, sn, dn, i) && sn in v.tree.cell
    ensures sn in v1.tree.cell && v1.tree.cell[sn].frame == v.tree.cell[sn].frame
    ensures Loose(v1.tree, dn) && v1.tree.cell[dn].lo == 0 && v1.tree.cell[dn].hi == i
  {
    assert SameTable(v.tree.cell[sn], v1.tree.cell[sn], sn.Pt? && Below(sn, sn));
  }

  lemma CanShareNext(v: State, v1: State, sn: Node, dn: Node, i: nat)
    requires Inv(v) && Inv(v1) && Cloned(v, v1, sn, dn, i) && dn == RerootNode(sn, dn.r) && Clear(v.tree, dn)
    requires Source(v.tree, sn) && sn.Pt? && dn.r != sn.r && dn.r != v.tree.kernel && NoSaturation(v, sn)
    requires NextEntryIs(v, v1, sn, i) && At(v1.tree, sn, i).present
    ensures ReadyToShare(v1, sn, dn, i)
  {
    hide Inv;
    CloneShape(v, v1, sn, dn, i);
    assert SlotAt(sn, i) in v.leaf;
    RefsUnmoved(v, v1, sn, dn, i, SlotAt(sn, i));
  }

  lemma AbandonShape(v0: State, v1: State, v2: State, sn: Node, dn: Node, i: nat)
    requires !sn.Pt? && Cloned(v0, v1, sn, dn, i) && CloneFailed(v1, v2, Child(sn, i)) && dn == RerootNode(sn, dn.r)
    ensures Loose(v2.tree, dn) && v2.tree.cell[dn].lo == 0 && v2.tree.cell[dn].hi == i && Hanging(v2.tree, dn)
    ensures v2.tree.cell[dn].frame == v1.tree.cell[dn].frame
  {
    forall m | m in v2.tree.cell
      ensures m in v1.tree.cell && v2.tree.cell[m].linked == v1.tree.cell[m].linked
    {
      assert SameTable(v1.tree.cell[m], v2.tree.cell[m], m.Pt? && Below(m, Child(sn, i)));
    }
    assert SameTable(v1.tree.cell[dn], v2.tree.cell[dn], false);
  }

  lemma HookShape(v0: State, v1: State, v2: State, sn: Node, dn: Node, i: nat)
    requires !sn.Pt? && dn == RerootNode(sn, dn.r)
    requires Cloned(v0, v1, sn, dn, i) && Cloned(v1, v2, Child(sn, i), Child(dn, i), ENTRIES)
    ensures Loose(v2.tree, dn) && v2.tree.cell[dn].lo == 0 && v2.tree.cell[dn].hi == i
    ensures v2.tree.cell[dn].frame == v1.tree.cell[dn].frame && Finished(v2.tree, Child(dn, i))
  {
    assert SameTable(v1.tree.cell[dn], v2.tree.cell[dn], false);
  }

  // ----- whole address spaces -----

  lemma {:induction false} RootUp(t: Tree, n: Node)
    requires Wf(t) && Stable(t) && n in t.cell
    ensures Pml4(n.r) in t.cell
    decreases 3 - Level(n)
  {
    if !n.Pml4? {
      assert LinkedFrom(t, n);
      RootUp(t, Parent(n));
    }
  }

  /** A frame not in use is the root of nothing. */
  lemma FreshRoot(v: State, f: Frame)
    requires Inv(v) && Stable(v.tree) && f < Pmm.MAX_PAGES && !v.used[f]
    ensures Clear(v.tree, Pml4(f)) && Pml4(f) !in v.tree.cell
  {
    forall m | m in v.tree.cell
      ensures !Below(m, Pml4(f))
    {
      RootUp(v.tree, m);
    }
  }

  lemma StableSource(v: State, r: Frame)
    requires Inv(v) && Stable(v.tree) && Pml4(r) in v.tree.cell
    ensures Loose(v.tree, Pml4(r)) && Finished(v.tree, Pml4(r)) && Hanging(v.tree, Pml4(r))
    ensures v.tree.cell[Pml4(r)].frame == r
    ensures r != v.tree.kernel ==> Source(v.tree, Pml4(r))
  {
    assert CellOk(v.tree, Pml4(r));
  }

  lemma NewRootStep(v: State, f: Frame, tb: Table)
    requires Inv(v) && Stable(v.tree) && f < Pmm.MAX_PAGES && !v.used[f] && f != v.tree.kernel
    requires forall i :: 0 <= i < USER_ENTRIES ==> tb[i] == ZERO
    ensures Pml4(f) !in v.tree.cell && f < |v.used| == |v.refs| && Inv(NewRoot(v, f, tb))
    ensures Stable(NewRoot(v, f, tb).tree) && SameUsers(v, NewRoot(v, f, tb))
    ensures var v' := NewRoot(v, f, tb);
            && v'.tab == v.tab[f := tb] && v'.used == v.used[f := true] && v'.refs == v.refs[f := 1]
            && v'.tree.kernel == v.tree.kernel && Pml4(f) in v'.tree.cell
            && (forall n :: n in v.tree.cell ==> n in v'.tree.cell)
  {
    FreshRoot(v, f);
    assert |v.used| == |v.refs|;
    hide Inv;
    NewRootInv(v, f, tb);
    NewRootShape(v, f, tb);
    hide NewRoot;
  }

  lemma NewRootInv(v: State, f: Frame, tb: Table)
    requires Inv(v) && Pml4(f) !in v.tree.cell && f < Pmm.MAX_PAGES && f < |v.used| == |v.refs| && !v.used[f] && f != v.tree.kernel
    requires forall i :: 0 <= i < USER_ENTRIES ==> tb[i] == ZERO
    ensures Inv(NewRoot(v, f, tb))
  {
    hide Inv;
    NewTableInv(v, Pml4(f), f, tb);
    ActivateInv(NewTable(v, Pml4(f), f, tb), Pml4(f));
  }

  lemma NewRootShape(v: State, f: Frame, tb: Table)
    requires Stable(v.tree) && Pml4(f) !in v.tree.cell && f < |v.used| && f < |v.refs|
    ensures Stable(NewRoot(v, f, tb).tree) && SameUsers(v, NewRoot(v, f, tb))
    ensures var v' := NewRoot(v, f, tb);
            && v'.tab == v.tab[f := tb] && v'.used == v.used[f := true] && v'.refs == v.refs[f := 1]
            && v'.tree.kernel == v.tree.kernel && Pml4(f) in v'.tree.cell
            && (forall n :: n in v.tree.cell ==> n in v'.tree.cell)
  {
  }

  ghost function NewRoot(v: State, f: Frame, tb: Table): State
    requires f < |v.used| && f < |v.refs|
  {
    var v1 := NewTable(v, Pml4(f), f, tb);
    v1.(tree := Activate(v1.tree, Pml4(f)))
  }

  lemma KernelRoot(v: State)
    requires Inv(v) && Pml4(v.tree.kernel) in v.tree.cell
    ensures v.tree.cell[Pml4(v.tree.kernel)].frame == v.tree.kernel
  {
    assert CellOk(v.tree, Pml4(v.tree.kernel));
  }

  lemma NoPagesOf(v: State, f: Frame)
    requires Inv(v) && Stable(v.tree) && f < Pmm.MAX_PAGES && !v.used[f]
    ensures forall s :: s in v.leaf ==> s.r != f
  {
    FreshRoot(v, f);
    CloneNoPages(v, Pml4(f));
  }

  lemma TornStable(v: State, v': State, r: Frame)
    requires Stable(v.tree) && Torn(v, v', Pml4(r))
    ensures Stable(v'.tree)
    ensures forall n :: n in v'.tree.cell <==> n in v.tree.cell && n.r != r
    ensures CowRuns.FreedSpace(v.leaf, v'.leaf, r) && v'.data == v.data && v'.tree.kernel == v.tree.kernel
  {
  }

  lemma FreeIsStep(v: State, v': State, r: Frame)
    requires Inv(v) && Inv(v') && Stable(v.tree) && Torn(v, v', Pml4(r)) && NothingLost(v, v')
    ensures CowRuns.Step(World(v), CowRuns.Free(r), World(v'))
  {
    WorldInv(v);
    WorldInv(v');
    hide Inv;
    hide Cow.Inv;
    TornStable(v, v', r);
    CowRuns.FreeStep(World(v), r, World(v'));
  }

  lemma CloneStable(t: Tree, t1: Tree, sn: Node, dn: Node)
    requires Stable(t) && Wf(t1) && TablesCloned(t, t1, sn, dn, USER_ENTRIES) && dn.Pml4?
    ensures Stable(Complete(t1, dn)) && Complete(t1, dn).kernel == t.kernel
    ensures forall n :: n in t.cell ==> n in Complete(t1, dn).cell
  {
    forall m | m in t1.cell && m != dn
      ensures (m.Pml4? || t1.cell[m].linked) && t1.cell[m].lo == 0 && t1.cell[m].hi == ENTRIES
    {
      if m in t.cell {
        assert SameTable(t.cell[m], t1.cell[m], m.Pt? && Below(m, sn));
      } else {
        assert Below(m, dn);
        assert LinkedFrom(t1, m);
        assert PointsDown(t1, Parent(m), Index(m));
      }
    }
  }

  lemma CloneIsStep(v: State, v1: State, v': State, src: Frame, dst: Frame)
    requires Inv(v) && Inv(v') && Cloned(v, v1, Pml4(src), Pml4(dst), USER_ENTRIES) && Clear(v.tree, Pml4(dst))
    requires World(v').leaf == v1.leaf && World(v').held == v1.held && World(v').data == v1.data
    ensures CowRuns.Step(World(v), CowRuns.Clone(src, dst), World(v'))
  {
    WorldInv(v);
    WorldInv(v');
    UserHalf(v);
    CloneNoPages(v, Pml4(dst));
    hide Inv;
    hide Cow.Inv;
    hide TablesCloned;
    CloneSpace(v.leaf, v1.leaf, src, dst);
    CowRuns.CloneStep(World(v), src, dst, World(v'));
  }

  /** The kernel's half of root `f` is as it was. */
  ghost predicate KernelHalf(tab: map<Frame, Table>, tab': map<Frame, Table>, f: Frame) {
    f in tab && f in tab' && forall j :: USER_ENTRIES <= j < ENTRIES ==> tab'[f][j] == tab[f][j]
  }

  /** Copying below a root does not write the root. */
  lemma RootKept(v: State, v': State, sn: Node, dn: Node, n: Node)
    requires Inv(v) && Inv(v') && Cloned(v, v', sn, dn, ENTRIES) && n in v.tree.cell && n.Pml4?
    ensures n in v'.tree.cell && v'.tree.cell[n].frame == v.tree.cell[n].frame
    ensures var f := v.tree.cell[n].frame; f in v.tab && f in v'.tab && v'.tab[f] == v.tab[f]
  {
    assert SameTable(v.tree.cell[n], v'.tree.cell[n], n.Pt? && Below(n, sn));
  }

  lemma UserHalf(v: State)
    requires Inv(v)
    ensures forall s :: s in v.leaf ==> s.a < USER_ENTRIES
  {
    forall s | s in v.leaf
      ensures s.a < USER_ENTRIES
    {
      assert IsLeaf(v.tree, s);
      assert CellOk(v.tree, PtOf(s));
    }
  }

  lemma CloneSpace(leaf: map<Slot, Entry>, leaf1: map<Slot, Entry>, src: Frame, dst: Frame)
    requires PagesCloned(leaf, leaf1, Pml4(src), Pml4(dst), USER_ENTRIES)
    requires forall s :: s in leaf ==> s.a < USER_ENTRIES
    ensures CowRuns.ClonedSpace(leaf, leaf1, src, dst)
  {
  }

  lemma CloneFailIsStep(v: State, v': State, src: Frame)
    requires Inv(v) && Inv(v') && CloneFailed(v, v', Pml4(src))
    ensures CowRuns.Step(World(v), CowRuns.CloneFails(src), World(v'))
  {
    WorldInv(v);
    WorldInv(v');
    hide Inv;
    hide Cow.Inv;
    forall f | v'.held[f] > v.held[f]
      ensures CowRuns.Marked(v.leaf, v'.leaf, src, f)
    {
      assert MarkedBelow(v.leaf, v'.leaf, Pml4(src), f);
    }
    CowRuns.FailStep(World(v), src, World(v'));
  }

  lemma FailedStable(v: State, v': State, src: Frame)
    requires Stable(v.tree) && CloneFailed(v, v', Pml4(src))
    ensures Stable(v'.tree) && forall n :: n in v'.tree.cell <==> n in v.tree.cell
  {
    forall m | m in v'.tree.cell
      ensures (m.Pml4? || v'.tree.cell[m].linked) && v'.tree.cell[m].lo == 0 && v'.tree.cell[m].hi == ENTRIES
    {
      assert SameTable(v.tree.cell[m], v'.tree.cell[m], m.Pt? && Below(m, Pml4(src)));
    }
  }

  lemma BeyondUser(t: Tree, n: Node, h: nat)
    requires n.Pml4? && n.r != t.kernel && (h == USER_ENTRIES || (n in t.cell && t.cell[n].hi == h))
    ensures forall i :: h <= i < ENTRIES ==> !InForce(t, n, i)
  {
  }

  lemma KernelInUse(v: State, f: Frame)
    requires Inv(v) && f < Pmm.MAX_PAGES && !v.used[f] && Pml4(v.tree.kernel) in v.tree.cell
    ensures f != v.tree.kernel
  {
    TableFacts(v, Pml4(v.tree.kernel));
    KernelRoot(v);
  }

  lemma FailedLost(v: State, v': State, src: Frame)
    requires CloneFailed(v, v', Pml4(src))
    ensures OnlyLost(v, v')
  {
  }

  lemma CloneStableOf(v: State, v1: State, src: Frame, dst: Frame)
    requires Inv(v1) && Stable(v.tree) && Cloned(v, v1, Pml4(src), Pml4(dst), USER_ENTRIES)
    ensures Stable(Complete(v1.tree, Pml4(dst))) && Complete(v1.tree, Pml4(dst)).kernel == v.tree.kernel
    ensures forall n :: n in v.tree.cell ==> n in Complete(v1.tree, Pml4(dst)).cell
  {
    CloneStable(v.tree, v1.tree, Pml4(src), Pml4(dst));
  }

  // ----- copy-on-write faults -----

  lemma UserSmall(v: State, s: Slot)
    requires Inv(v) && Stable(v.tree) && Walkable(v.tree, s) && s.r != v.tree.kernel
    ensures SmallPath(v.tree, s) && !(At(v.tree, Pml4(s.r), s.a).present && At(v.tree, Pml4(s.r), s.a).huge)
  {
    ChildFacts(v, Pml4(s.r), s.a);
    if Pdpt(s.r, s.a) in v.tree.cell { ChildFacts(v, Pdpt(s.r, s.a), s.b); }
    if Pd(s.r, s.a, s.b) in v.tree.cell { ChildFacts(v, Pd(s.r, s.a, s.b), s.c); }
  }

  /** A page is mapped exactly when all tables on the way to it are there. */
  lemma LeafPath(v: State, s: Slot)
    requires Inv(v) && Stable(v.tree) && Indexed(s) && s.r != v.tree.kernel
    ensures s in v.leaf <==> PtOf(s) in v.tree.cell && At(v.tree, PtOf(s), s.d).present
    ensures s in v.leaf ==> v.leaf[s] == At(v.tree, PtOf(s), s.d) && v.leaf[s].frame in v.live && v.leaf[s].frame in v.data
    ensures PtOf(s) in v.tree.cell ==>
              Pml4(s.r) in v.tree.cell && Pdpt(s.r, s.a) in v.tree.cell && Pd(s.r, s.a, s.b) in v.tree.cell
  {
    assert IsLeaf(v.tree, s) <==> PtOf(s) in v.tree.cell && At(v.tree, PtOf(s), s.d).present;
    if PtOf(s) in v.tree.cell {
      assert LinkedFrom(v.tree, PtOf(s));
      assert LinkedFrom(v.tree, Pd(s.r, s.a, s.b));
      assert LinkedFrom(v.tree, Pdpt(s.r, s.a));
    }
  }

  /** What the processor makes of a user address: exactly the rights of the page's own entry. */
  lemma UserWalk(v: State, s: Slot)
    requires Inv(v) && Stable(v.tree) && Walkable(v.tree, s) && s.r != v.tree.kernel
    ensures Walk(v.tab, s) == if s in v.leaf then PageLook(v.leaf[s]) else Fault
  {
    WalkIsLook(v.tree, v.tab, s);
    UserLook(v.tree, s);
    hide Look;
    LeafPath(v, s);
  }

  lemma UserLook(t: Tree, s: Slot)
    requires Wf(t) && Stable(t) && Walkable(t, s) && s.r != t.kernel
    ensures Look(t, s) == if PtOf(s) in t.cell then PageLook(At(t, PtOf(s), s.d)) else Fault
  {
    var n := PtOf(s);
    if n in t.cell {
      StableReached(t, n);
      LookReaches(t, n, s);
      ThroughUser(t, n, LookFrom(t, n, s));
    } else {
      NoLeafTable(t, s);
    }
  }

  lemma NoLeafTable(t: Tree, s: Slot)
    requires Wf(t) && Stable(t) && Walkable(t, s) && s.r != t.kernel && PtOf(s) !in t.cell
    ensures Look(t, s) == Fault
  {
    var n3, n2, n1 := Pml4(s.r), Pdpt(s.r, s.a), Pd(s.r, s.a, s.b);
    assert PointsDown(t, n3, s.a);
    if n2 in t.cell {
      assert InForce(t, n2, s.b) && PointsDown(t, n2, s.b);
    }
    if n1 in t.cell {
      assert InForce(t, n1, s.c) && PointsDown(t, n1, s.c);
      assert LookFrom(t, n1, s) == Fault;
    }
    assert LookFrom(t, n2, s) == Fault;
  }

  /** What sharing leaves of a translation. */
  function ReadOnly(tr: Trans): Trans { if tr.Fault? then Fault else tr.(writable := false) }

  /** Every user page of `src` is seen in both spaces as it was in `src`, but for writing. */
  ghost predicate SharedWalks(tab: map<Frame, Table>, tab': map<Frame, Table>, src: Frame, dst: Frame) {
    forall s: Slot :: Indexed(s) && s.r == src && s.a < USER_ENTRIES ==>
      Walk(tab', s) == Walk(tab', Reroot(s, dst)) == ReadOnly(Walk(tab, s))
  }

  /** After a clone the processor sees the same pages in both spaces, with the same rights but
      without writing. */
  lemma CloneWalk(v: State, v': State, src: Frame, dst: Frame, s: Slot)
    requires Inv(v) && Inv(v') && Stable(v.tree) && Stable(v'.tree) && v'.tree.kernel == v.tree.kernel
    requires CowRuns.ClonedSpace(v.leaf, v'.leaf, src, dst) && s.r == src && src != v.tree.kernel && dst != v.tree.kernel && dst != src
    requires Walkable(v.tree, s) && Walkable(v'.tree, s) && Walkable(v'.tree, Reroot(s, dst))
    requires forall x :: x in v.leaf ==> x.r != dst
    ensures Walk(v'.tab, s) == Walk(v'.tab, Reroot(s, dst)) == ReadOnly(Walk(v.tab, s))
  {
    hide Inv;
    hide Stable;
    hide Walk;
    UserWalk(v, s);
    UserWalk(v', s);
    UserWalk(v', Reroot(s, dst));
    assert Reroot(Reroot(s, dst), src) == s;
  }

  lemma CloneWalks(v: State, v': State, src: Frame, dst: Frame)
    requires Inv(v) && Inv(v') && Stable(v.tree) && Stable(v'.tree) && v'.tree.kernel == v.tree.kernel
    requires CowRuns.Step(World(v), CowRuns.Clone(src, dst), World(v'))
    requires Pml4(src) in v.tree.cell && Pml4(src) in v'.tree.cell && Pml4(dst) in v'.tree.cell
    requires src != v.tree.kernel && dst != v.tree.kernel && dst != src
    ensures SharedWalks(v.tab, v'.tab, src, dst)
  {
    hide Inv;
    hide Walk;
    forall s: Slot | Indexed(s) && s.r == src && s.a < USER_ENTRIES
      ensures Walk(v'.tab, s) == Walk(v'.tab, Reroot(s, dst)) == ReadOnly(Walk(v.tab, s))
    {
      RootFacts(v, src, s.a);
      RootFacts(v', src, s.a);
      RootFacts(v', dst, s.a);
      CloneWalk(v, v', src, dst, s);
    }
  }

  ghost function ReclaimPage(v: State, s: Slot): State
    requires PtOf(s) in v.tree.cell && s.d < ENTRIES && v.tree.cell[PtOf(s)].frame in v.tab && s in v.leaf
  {
    RewriteEntry(v, PtOf(s), s.d, v.leaf[s].(writable := true, cow := false), Cow.Reclaim(World(v), s))
  }

  lemma ReclaimPageInv(v: State, s: Slot)
    requires Inv(v) && s in v.leaf && v.leaf[s].frame < |v.refs| && v.refs[v.leaf[s].frame] <= 1
    ensures PtOf(s) in v.tree.cell && s.d < ENTRIES && v.tree.cell[PtOf(s)].frame in v.tab && Inv(ReclaimPage(v, s))
  {
    hide Inv;
    LeafFacts(v, s);
    ReclaimWorld(v, s);
    RewriteEntryInv(v, PtOf(s), s.d, v.leaf[s].(writable := true, cow := false), Cow.Reclaim(World(v), s));
  }

  lemma LeafFacts(v: State, s: Slot)
    requires Inv(v) && s in v.leaf
    ensures PtOf(s) in v.tree.cell && s.d < ENTRIES && v.tree.cell[PtOf(s)].frame in v.tab
    ensures UserPt(v, PtOf(s), s.d) && SlotAt(PtOf(s), s.d) == s && v.leaf[s].present
    ensures |v.refs| == |v.used| == Pmm.MAX_PAGES && v.leaf[s].frame < |v.refs| && v.leaf[s].frame in v.data
    ensures v.leaf[s].frame in v.live && v.refs[v.leaf[s].frame] >= 1 && v.used[v.leaf[s].frame]
  {
    assert IsLeaf(v.tree, s) && Cow.Inv(World(v));
    TableFacts(v, PtOf(s));
    assert v.leaf[s].frame in World(v).live;
  }

  lemma ReclaimWorld(v: State, s: Slot)
    requires Inv(v) && s in v.leaf && v.leaf[s].frame < |v.refs| && v.refs[v.leaf[s].frame] <= 1
    ensures Cow.Inv(Cow.Reclaim(World(v), s))
  {
    LeafFacts(v, s);
    assert Cow.Inv(World(v));
    hide Inv;
    Cow.ReclaimKeepsInv(World(v), s);
  }

  /** The copy goes to frame `g`; the shared frame loses one reference. */
  ghost function CopyPage(v: State, s: Slot, g: Frame): State
    requires PtOf(s) in v.tree.cell && s.d < ENTRIES && v.tree.cell[PtOf(s)].frame in v.tab && s in v.leaf
    requires v.leaf[s].frame < |v.refs| && g < |v.refs| == |v.used| && v.leaf[s].frame in v.data
  {
    RewriteEntry(HoldFrame(v, g, v.data[v.leaf[s].frame]), PtOf(s), s.d,
                 v.leaf[s].(frame := g, writable := true, cow := false), Cow.CopyOut(World(v), s, g))
  }

  lemma CopyPageInv(v: State, s: Slot, g: Frame)
    requires Inv(v) && s in v.leaf && v.leaf[s].frame < |v.refs| && v.refs[v.leaf[s].frame] > 1
    requires g < Pmm.MAX_PAGES && !v.used[g]
    ensures PtOf(s) in v.tree.cell && s.d < ENTRIES && v.tree.cell[PtOf(s)].frame in v.tab
    ensures g < |v.refs| == |v.used| && v.leaf[s].frame in v.data && Inv(CopyPage(v, s, g))
  {
    hide Inv;
    LeafFacts(v, s);
    CopyPageWorld(v, s, g);
    HoldFrameInv(v, g, v.data[v.leaf[s].frame]);
    CopyPageRewrite(v, s, g);
  }

  lemma CopyPageRewrite(v: State, s: Slot, g: Frame)
    requires PtOf(s) in v.tree.cell && s.d < ENTRIES && v.tree.cell[PtOf(s)].frame in v.tab && s in v.leaf
    requires UserPt(v, PtOf(s), s.d) && SlotAt(PtOf(s), s.d) == s && v.leaf[s].present
    requires v.leaf[s].frame < |v.refs| && g < |v.refs| == |v.used| && v.leaf[s].frame in v.data
    requires v.leaf[s].frame in v.live && Cow.Inv(Cow.CopyOut(World(v), s, g))
    requires Inv(HoldFrame(v, g, v.data[v.leaf[s].frame]))
    ensures Inv(CopyPage(v, s, g))
  {
    hide Inv;
    hide Cow.Inv;
    var v1 := HoldFrame(v, g, v.data[v.leaf[s].frame]);
    RewriteEntryInv(v1, PtOf(s), s.d, v.leaf[s].(frame := g, writable := true, cow := false), Cow.CopyOut(World(v), s, g));
  }

  lemma CopyPageWorld(v: State, s: Slot, g: Frame)
    requires Inv(v) && s in v.leaf && v.leaf[s].frame < |v.refs| && v.refs[v.leaf[s].frame] > 1
    requires g < Pmm.MAX_PAGES && !v.used[g]
    ensures g < |v.refs| && v.leaf[s].frame in v.data && Cow.Inv(Cow.CopyOut(World(v), s, g))
  {
    LeafFacts(v, s);
    assert Cow.Inv(World(v)) && g !in v.live;
    hide Inv;
    Cow.CopyOutKeepsInv(World(v), s, g);
  }

  lemma PutStable(t: Tree, n: Node, i: nat, e: Entry)
    requires Stable(t) && n in t.cell && i < ENTRIES
    ensures Stable(Put(t, n, i, e)) && Put(t, n, i, e).cell.Keys == t.cell.Keys
  {
  }

  lemma WorldInv(v: State)
    requires Inv(v)
    ensures Cow.Inv(World(v))
  {
  }

  lemma ReclaimIsStep(v: State, s: Slot)
    requires Inv(v) && Stable(v.tree) && s in v.leaf && v.leaf[s].cow
    requires v.leaf[s].frame < |v.refs| && v.refs[v.leaf[s].frame] <= 1
    requires PtOf(s) in v.tree.cell && s.d < ENTRIES && v.tree.cell[PtOf(s)].frame in v.tab
    ensures CowRuns.Step(World(v), CowRuns.Fault(s), World(ReclaimPage(v, s)))
    ensures NothingLost(v, ReclaimPage(v, s)) && Stable(ReclaimPage(v, s).tree)
    ensures ReclaimPage(v, s).tree.cell.Keys == v.tree.cell.Keys
  {
    hide Inv;
    hide Cow.Inv;
    hide CowRuns.Step;
    hide Stable;
    WorldInv(v);
    CowRuns.ReclaimStep(World(v), s);
    PutStable(v.tree, PtOf(s), s.d, v.leaf[s].(writable := true, cow := false));
    assert World(ReclaimPage(v, s)) == Cow.Reclaim(World(v), s);
  }

  lemma CopyIsStep(v: State, s: Slot, g: Frame)
    requires Inv(v) && Stable(v.tree) && s in v.leaf && v.leaf[s].cow && g < |v.refs| == |v.used| == Pmm.MAX_PAGES
    requires g !in v.live && v.leaf[s].frame < |v.refs| && v.refs[v.leaf[s].frame] > 1 && v.leaf[s].frame in v.data
    requires PtOf(s) in v.tree.cell && s.d < ENTRIES && v.tree.cell[PtOf(s)].frame in v.tab
    ensures CowRuns.Step(World(v), CowRuns.Fault(s), World(CopyPage(v, s, g)))
    ensures NothingLost(v, CopyPage(v, s, g)) && Stable(CopyPage(v, s, g).tree)
    ensures CopyPage(v, s, g).tree.cell.Keys == v.tree.cell.Keys
  {
    hide Inv;
    hide Cow.Inv;
    hide CowRuns.Step;
    hide Stable;
    WorldInv(v);
    CowRuns.CopyOutStep(World(v), s, g);
    PutStable(v.tree, PtOf(s), s.d, v.leaf[s].(frame := g, writable := true, cow := false));
    assert World(CopyPage(v, s, g)) == Cow.CopyOut(World(v), s, g);
  }

  ghost function RefCount(v: State, s: Slot): nat {
    if s in v.leaf && v.leaf[s].frame < |v.refs| then v.refs[v.leaf[s].frame] else 0
  }

  lemma FreshNotLive(v: State, g: Frame)
    requires Inv(v) && g < Pmm.MAX_PAGES && !v.used[g]
    ensures g !in v.live
  {
  }

  lemma CopyPageParts(v: State, s: Slot, g: Frame)
    requires PtOf(s) in v.tree.cell && s.d < ENTRIES && v.tree.cell[PtOf(s)].frame in v.tab && s in v.leaf
    requires v.leaf[s].frame < |v.refs| && g < |v.refs| == |v.used| && v.leaf[s].frame in v.data
    requires g != v.leaf[s].frame && v.refs[v.leaf[s].frame] > 1
    ensures var f, pt, v' := v.leaf[s].frame, v.tree.cell[PtOf(s)].frame, CopyPage(v, s, g);
            && v'.tab == v.tab[pt := v.tab[pt][s.d := v.leaf[s].(frame := g, writable := true, cow := false)]]
            && v'.data == v.data[g := v.data[f]]
            && v'.used == v.used[g := true] && v'.refs == v.refs[g := 1][f := v.refs[f] - 1]
            && v'.other == v.other && v'.tree.kernel == v.tree.kernel
  {
  }

  // ----- user accesses -----

  ghost function Poke(v: State, f: Frame, offset: nat, value: Cow.Byte): State
    requires f in v.data && offset < Pmm.PAGE_SIZE
  {
    v.(data := v.data[f := v.data[f][offset := value]])
  }

  lemma PokeInv(v: State, f: Frame, offset: nat, value: Cow.Byte)
    requires Inv(v) && f in v.data && offset < Pmm.PAGE_SIZE
    ensures Inv(Poke(v, f, offset, value))
  {
    SameUse(World(v), World(Poke(v, f, offset, value)));
  }

  lemma PokeIsStep(v: State, s: Slot, offset: nat, value: Cow.Byte)
    requires Inv(v) && s in v.leaf && v.leaf[s].writable && offset < Pmm.PAGE_SIZE && v.leaf[s].frame in v.data
    requires Inv(Poke(v, v.leaf[s].frame, offset, value))
    ensures CowRuns.Step(World(v), CowRuns.Write(s, offset, value), World(Poke(v, v.leaf[s].frame, offset, value)))
  {
    hide Inv;
    hide Cow.Inv;
    WorldInv(v);
    WorldInv(Poke(v, v.leaf[s].frame, offset, value));
  }

  /** A present page given to a user space by `MapPage` is one step of the flat machine. */
  lemma PageSetIsStep(v: State, v': State, s: Slot, e: Entry, bytes: Cow.Bytes)
    requires Inv(v) && Inv(v') && PageSet(v, v', s, e) && s.r != v.tree.kernel && Cow.FreshFor(World(v), e)
    requires e.present ==> e.frame in v.data && v.data[e.frame] == bytes
    ensures CowRuns.Step(World(v), CowRuns.Map(s, e, bytes), World(v'))
  {
    hide Inv;
    hide Cow.Inv;
    hide OnlyPage;
    WorldInv(v);
    WorldInv(v');
    CowRuns.MapStep(World(v), s, e, bytes, World(v'));
  }

  /** The contents that the step speaks of are those the frame has. */
  lemma MappedStep(v: State, v': State, s: Slot, e: Entry)
    requires Inv(v) && Inv(v') && PageSet(v, v', s, e) && s.r != v.tree.kernel && Cow.FreshFor(World(v), e)
    ensures exists bytes :: CowRuns.Step(World(v), CowRuns.Map(s, e, bytes), World(v'))
  {
    hide Inv;
    hide PageSet;
    hide CowRuns.Step;
    WorldInv(v);
    if e.present {
      PageSetIsStep(v, v', s, e, v.data[e.frame]);
    } else {
      var bytes: Cow.Bytes :| true;
      PageSetIsStep(v, v', s, e, bytes);
    }
  }

  /** So is taking a page out of a user space by `UnmapPage`, whatever tables go with it. */
  lemma UnmapIsStep(v: State, v': State, s: Slot, bytes: Cow.Bytes)
    requires Inv(v) && Inv(v') && Unmapped(v, v', s) && s.r != v.tree.kernel
    ensures CowRuns.Step(World(v), CowRuns.Map(s, ZERO, bytes), World(v'))
  {
    hide Inv;
    hide OnlyPage;
    hide CowRuns.Step;
    PathFault(v.tree, s);
    PageSetIsStep(v, v', s, ZERO, bytes);
  }

  /** What the owner of the space may do to the page: write it now or after a fault. */
  ghost predicate MayWrite(v: State, s: Slot) {
    && s in v.leaf && v.leaf[s].user
    && (v.leaf[s].writable
        || (v.leaf[s].cow && (RefCount(v, s) <= 1 || exists p :: 0 <= p < |v.used| && !v.used[p])))
  }

  lemma AfterFault(v: State, v': State, s: Slot)
    requires Inv(v) && CowRuns.Step(World(v), CowRuns.Fault(s), World(v'))
    ensures s in v.leaf && s in v'.leaf && v'.leaf[s].writable && v'.leaf[s].user == v.leaf[s].user
    ensures CowRuns.View(World(v')) == CowRuns.View(World(v))
  {
    WorldInv(v);
    CowRuns.StepRefines(World(v), CowRuns.Fault(s), World(v'));
  }

  lemma AfterWrite(v: State, v1: State, v': State, s: Slot, offset: nat, value: Cow.Byte)
    requires Inv(v1) && CowRuns.View(World(v1)) == CowRuns.View(World(v))
    requires CowRuns.Step(World(v1), CowRuns.Write(s, offset, value), World(v'))
    ensures CowRuns.View(World(v')) == CowRuns.EagerStep(CowRuns.View(World(v)), CowRuns.Write(s, offset, value))
  {
    WorldInv(v1);
    CowRuns.StepRefines(World(v1), CowRuns.Write(s, offset, value), World(v'));
  }

  lemma HoldIsStep(v: State, f: Frame, bytes: Cow.Bytes)
    requires Inv(v) && f < Pmm.MAX_PAGES && f < |v.used| == |v.refs| && !v.used[f] && Inv(HoldFrame(v, f, bytes))
    ensures CowRuns.Step(World(v), CowRuns.Hold(f, bytes), World(HoldFrame(v, f, bytes)))
    ensures HoldFrame(v, f, bytes).held[f] == 1
  {
    FreshNotLive(v, f);
    WorldInv(v);
    WorldInv(HoldFrame(v, f, bytes));
    assert f !in v.held;
    hide Inv;
    hide Cow.Inv;
  }

  lemma UnholdIsStep(v: State, f: Frame)
    requires Inv(v) && f in v.held
    ensures f < |v.used| == |v.refs| == Pmm.MAX_PAGES && v.used[f] && v.refs[f] >= 1
    ensures CowRuns.Step(World(v), CowRuns.Unhold(f), World(UnholdFrame(v, f)))
    ensures f in UnholdFrame(v, f).live <==> v.refs[f] > 1
  {
    assert f in World(v).held && f in v.live;
  }

  // ----- giving everything back -----

  /** Memory with one empty kernel root in frame `k`; every other used frame is somebody else's. */
  ghost function Bare(k: Frame, tab: map<Frame, Table>, data: map<Frame, Cow.Bytes>, used: seq<bool>, refs: seq<Pmm.Count>): State
    requires k in tab
  {
    State(Tree(k, map[Pml4(k) := Cell(k, tab[k], 0, ENTRIES, false)]), tab, data, used, refs, map[k := Pml4(k)],
          map[], {}, multiset{}, set f: Frame | f < |used| && used[f] && f != k)
  }

  /** The invariant holds to begin with, whatever the frames contain. */
  lemma BareInv(k: Frame, tab: map<Frame, Table>, data: map<Frame, Cow.Bytes>, used: seq<bool>, refs: seq<Pmm.Count>)
    requires |used| == |refs| == Pmm.MAX_PAGES && k < Pmm.MAX_PAGES && used[k] && refs[k] <= 1
    requires k in tab && forall i :: 0 <= i < ENTRIES ==> !tab[k][i].present
    ensures Inv(Bare(k, tab, data, used, refs)) && Stable(Bare(k, tab, data, used, refs).tree) && NoSpaces(Bare(k, tab, data, used, refs))
  {
  }

  /** No user space is left. */
  ghost predicate NoSpaces(v: State) {
    forall n :: n in v.tree.cell ==> n.r == v.tree.kernel
  }

  lemma NoSpacesLive(v: State)
    requires Inv(v) && NoSpaces(v)
    ensures v.leaf == map[] && forall f :: f in v.live <==> f in v.held
  {
    forall s
      ensures s !in v.leaf
    {
      if s in v.leaf {
        LeafFacts(v, s);
      }
    }
    WorldInv(v);
    assert forall f :: Cow.Mappers(v.leaf, f) == {};
  }

  /** Freeing every user space restores the exact set of free frames: two moments with no
      user space, the same kernel tables and the same frames held by others have the same
      frames in use. */
  lemma FreeFramesRestored(v: State, v': State)
    requires Inv(v) && Inv(v') && NoSpaces(v) && NoSpaces(v') && v.tree.kernel == v'.tree.kernel
    requires v'.tree.cell.Keys == v.tree.cell.Keys
    requires forall n :: n in v.tree.cell ==> v'.tree.cell[n].frame == v.tree.cell[n].frame
    requires NothingLost(v, v')
    ensures v'.used == v.used
  {
    NoSpacesLive(v);
    NoSpacesLive(v');
    SameOwners(v, v');
    forall f | 0 <= f < Pmm.MAX_PAGES
      ensures v'.used[f] == v.used[f]
    {
    }
  }

  lemma SameOwners(v: State, v': State)
    requires Owners(v) && Owners(v') && v'.tree.cell.Keys == v.tree.cell.Keys
    requires forall n :: n in v.tree.cell ==> v'.tree.cell[n].frame == v.tree.cell[n].frame
    ensures v'.owner.Keys == v.owner.Keys
  {
    forall f
      ensures f in v.owner <==> f in v'.owner
    {
      if f in v.owner {
        assert v'.tree.cell[v.owner[f]].frame == f;
      }
      if f in v'.owner {
        assert v.tree.cell[v'.owner[f]].frame == f;
      }
    }
  }
}

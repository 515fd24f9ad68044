/** The virtual memory manager: page-table trees rewritten in place in physical memory. */
module Vmm {
  import opened PageEntry
  import opened PageTree
  import opened PageWalk
  import opened Vm
  import opened Teardown
  import opened Fork
  import opened VmSteps
  import Pmm
  import Cow
  import CowRuns

  class Mmu {
    const pmm: Pmm.Allocator
    const kernel: Frame
    var tab: map<Frame, Table>
    var data: map<Frame, Cow.Bytes>
    ghost var v: State

    ghost predicate Valid()
      reads this, pmm, pmm.bitmap, pmm.refcounts
    {
      && pmm.Valid() && pmm.st.used == v.used && pmm.st.refs == v.refs
      && tab == v.tab && data == v.data && kernel == v.tree.kernel
      && Inv(v) && 0 in v.other
      && (kernel != 0 ==> Pml4(kernel) in v.tree.cell)
    }

    /** Captures the page tables and memory the kernel boots with. */
    constructor (pmm: Pmm.Allocator, kernel: Frame, tab: map<Frame, Table>, data: map<Frame, Cow.Bytes>,
                 ghost boot: State)
      requires pmm.Valid() && pmm.st.used == boot.used && pmm.st.refs == boot.refs
      requires tab == boot.tab && data == boot.data && kernel == boot.tree.kernel && Inv(boot) && 0 in boot.other
      requires kernel != 0 ==> Pml4(kernel) in boot.tree.cell
      ensures Valid() && v == boot && this.pmm == pmm
    {
      this.pmm, this.kernel, this.tab, this.data := pmm, kernel, tab, data;
      v := boot;
    }

    /** A frame from the page allocator, or frame zero when memory is exhausted. */
    method AllocFrame() returns (f: Frame)
      requires Valid()
      modifies pmm, pmm.bitmap, pmm.refcounts
      ensures pmm.Valid() && |v.used| == |v.refs| == Pmm.MAX_PAGES
      ensures f == 0 ==> pmm.st == old(pmm.st) && forall p :: 0 <= p < Pmm.MAX_PAGES ==> v.used[p]
      ensures f != 0 ==> f < Pmm.MAX_PAGES && !v.used[f]
                         && pmm.st.used == v.used[f := true] && pmm.st.refs == v.refs[f := 1]
      ensures f == 0 <==> old(pmm.freePages) == 0
      ensures pmm.freePages == if f == 0 then 0 else old(pmm.freePages) - 1
    {
      var p := pmm.AllocPage();
      if p == Pmm.INVALID {
        return 0;
      }
      f := p / Pmm.PAGE_SIZE;
      assert v.used[0];
    }

    method ZeroTable(f: Frame)
      requires f in tab
      modifies this`tab
      ensures f in tab && tab == old(tab)[f := tab[f]] && forall j :: 0 <= j < ENTRIES ==> tab[f][j] == ZERO
    {
      for k := 0 to ENTRIES
        invariant f in tab && tab == old(tab)[f := tab[f]]
        invariant forall j :: 0 <= j < k ==> tab[f][j] == ZERO
      {
        tab := tab[f := tab[f][k := ZERO]];
      }
    }

    /** The freshly filled table in frame `sub` is hooked below entry `i` of `n`. */
    method LinkTable(ghost n: Node, phys: Frame, i: nat, sub: Frame)
      requires pmm.Valid() && sub < |v.used| == |v.refs|
      requires pmm.st.used == v.used[sub := true] && pmm.st.refs == v.refs[sub := 1]
      requires sub in tab && tab == v.tab[sub := tab[sub]] && data == v.data && kernel == v.tree.kernel
      requires n in v.tree.cell && !n.Pt? && i < ENTRIES && v.tree.cell[n].frame == phys != sub && phys in v.tab
      requires 0 in v.other && (kernel != 0 ==> Pml4(kernel) in v.tree.cell)
      requires Inv(InsertTable(v, n, i, sub, tab[sub]))
      modifies this`tab, this`v
      ensures Valid() && v == InsertTable(old(v), n, i, sub, old(tab)[sub])
    {
      hide Inv;
      ghost var tb := tab[sub];
      tab := tab[phys := tab[phys][i := DirEntry(sub)]];
      v := InsertTable(v, n, i, sub, tb);
    }

    /** Makes sure a table hangs below entry `i` of table `n`. */
    method EnsureTable(ghost n: Node, phys: Frame, i: nat) returns (ok: bool, sub: Frame)
      requires Valid() && Stable(v.tree)
      requires n in v.tree.cell && !n.Pt? && v.tree.cell[n].frame == phys && InForce(v.tree, n, i)
      requires !(At(v.tree, n, i).present && At(v.tree, n, i).huge)
      modifies this`tab, this`v, pmm, pmm.bitmap, pmm.refcounts
      ensures Valid() && Stable(v.tree) && SameUsers(old(v), v)
      ensures Grown(old(v).tree, v.tree) && SameLook(old(v).tree, v.tree)
      ensures ok ==> Child(n, i) in v.tree.cell && v.tree.cell[Child(n, i)].frame == sub
      ensures !ok ==> pmm.freePages == 0
    {
      hide Inv;
      hide Stable;
      hide SameLook;
      hide Grown;
      Unchanged(v.tree);
      TableFacts(v, n);
      ChildFacts(v, n, i);
      var e := tab[phys][i];
      if e.present {
        return true, e.frame;
      }
      sub := AllocFrame();
      if sub == 0 {
        return false, 0;
      }
      var garbage: Table := *;
      tab := tab[sub := garbage];
      ZeroTable(sub);
      ghost var tb := tab[sub];
      EnsureStep(v, n, i, sub, tb);
      LinkTable(n, phys, i, sub);
      ok := true;
    }

    method FillSplit(f: Frame, e: Entry, gib: bool, ghost n: Node)
      requires f in tab && gib == n.Pdpt?
      modifies this`tab
      ensures f in tab && tab == old(tab)[f := tab[f]] && forall j :: 0 <= j < ENTRIES ==> tab[f][j] == SubEntry(n, e, j)
    {
      var base := if gib then e.frame / GIB_FRAMES * GIB_FRAMES else e.frame / MIB2_FRAMES * MIB2_FRAMES;
      var subSize := if gib then MIB2_FRAMES else 1;
      for k := 0 to ENTRIES
        invariant f in tab && tab == old(tab)[f := tab[f]]
        invariant forall j :: 0 <= j < k ==> tab[f][j] == SubEntry(n, e, j)
      {
        var sub := Entry(base + k * subSize, e.present, e.writable, e.user, e.writeThrough, e.cacheDisable,
                         false, false, false, e.noExecute);
        if gib {
          sub := sub.(huge := true);
        }
        tab := tab[f := tab[f][k := sub]];
      }
    }

    /** Replaces the huge page at entry `i` of `n` by a table of 512 smaller pages. */
    method SplitHuge(ghost n: Node, phys: Frame, i: nat, gib: bool) returns (ok: bool)
      requires Valid() && Stable(v.tree)
      requires n in v.tree.cell && gib == n.Pdpt? && !n.Pt? && v.tree.cell[n].frame == phys && InForce(v.tree, n, i)
      requires At(v.tree, n, i).present && At(v.tree, n, i).huge
      modifies this`tab, this`v, pmm, pmm.bitmap, pmm.refcounts
      ensures Valid() && Stable(v.tree) && SameUsers(old(v), v)
      ensures Grown(old(v).tree, v.tree) && SameLook(old(v).tree, v.tree)
      ensures ok ==> InForce(v.tree, n, i) && At(v.tree, n, i).present && !At(v.tree, n, i).huge
      ensures !ok ==> pmm.freePages == 0
    {
      hide Inv;
      hide Stable;
      hide SameLook;
      hide Grown;
      hide SubEntry;
      hide InsertTable;
      Unchanged(v.tree);
      TableFacts(v, n);
      ChildFacts(v, n, i);
      var e := tab[phys][i];
      var sub := AllocFrame();
      if sub == 0 {
        return false;
      }
      var garbage: Table := *;
      tab := tab[sub := garbage];
      FillSplit(sub, e, gib, n);
      ghost var tb := tab[sub];
      SplitStep(v, n, i, sub, tb);
      LinkTable(n, phys, i, sub);
      ok := true;
    }

    /** One level down from table `n`, splitting a huge page that is in the way. */
    method EnterTable(ghost n: Node, phys: Frame, i: nat, gib: bool) returns (ok: bool, sub: Frame)
      requires Valid() && Stable(v.tree)
      requires n in v.tree.cell && gib == n.Pdpt? && (n.Pdpt? || n.Pd?)
      requires v.tree.cell[n].frame == phys && InForce(v.tree, n, i)
      modifies this`tab, this`v, pmm, pmm.bitmap, pmm.refcounts
      ensures Valid() && Stable(v.tree) && SameUsers(old(v), v)
      ensures Grown(old(v).tree, v.tree) && SameLook(old(v).tree, v.tree)
      ensures ok ==> Child(n, i) in v.tree.cell && v.tree.cell[Child(n, i)].frame == sub
      ensures !ok ==> pmm.freePages == 0
    {
      hide Inv;
      hide SameLook;
      hide Stable;
      TableFacts(v, n);
      Unchanged(v.tree);
      ghost var t0 := v.tree;
      var e := tab[phys][i];
      if e.present && e.huge {
        ok := SplitHuge(n, phys, i, gib);
        if !ok {
          return false, 0;
        }
      }
      ghost var t1 := v.tree;
      ok, sub := EnsureTable(n, phys, i);
      Further(t0, t1, v.tree);
    }

    /** Writes the entry of slot `s` in its leaf table. */
    method SetEntry(ghost s: Slot, phys: Frame, d: nat, e: Entry)
      requires Valid() && Stable(v.tree) && Indexed(s) && PtOf(s) in v.tree.cell && d == s.d
      requires v.tree.cell[PtOf(s)].frame == phys
      requires s.r != kernel ==> Cow.FreshFor(World(v), e)
      modifies this`tab, this`v
      ensures Valid() && Stable(v.tree) && PageSet(old(v), v, s, e)
      ensures v.tree == Put(old(v).tree, PtOf(s), d, e)
    {
      hide Inv;
      hide Stable;
      hide PageSet;
      TableFacts(v, PtOf(s));
      SetPageStep(v, s, e);
      if s.r != kernel {
        MapOverRefs(v, s, e);
      }
      tab := tab[phys := tab[phys][d := e]];
      v := SetPage(v, s, e);
    }

    /** Walks down to the leaf table, adding and splitting tables on the way. */
    method Descend(r: Frame, a: nat, b: nat, c: nat) returns (ok: bool, pt: Frame)
      requires Valid() && Stable(v.tree) && Pml4(r) in v.tree.cell && (r != kernel ==> a < USER_ENTRIES)
      requires a < ENTRIES && b < ENTRIES && c < ENTRIES
      modifies this`tab, this`v, pmm, pmm.bitmap, pmm.refcounts
      ensures Valid() && Stable(v.tree) && SameUsers(old(v), v)
      ensures Grown(old(v).tree, v.tree) && SameLook(old(v).tree, v.tree)
      ensures ok ==> Pt(r, a, b, c) in v.tree.cell && v.tree.cell[Pt(r, a, b, c)].frame == pt
      ensures !ok ==> pmm.freePages == 0
    {
      hide Inv;
      hide SameLook;
      hide Stable;
      hide Grown;
      ghost var v0 := v;
      RootFacts(v, r, a);
      var pdpt, pd;
      pt := 0;
      ok, pdpt := EnsureTable(Pml4(r), r, a);
      if !ok {
        return;
      }
      ghost var v1 := v;
      InnerFacts(v, Pdpt(r, a), b);
      ok, pd := EnterTable(Pdpt(r, a), pdpt, b, true);
      Further(v0.tree, v1.tree, v.tree);
      if !ok {
        return;
      }
      ghost var v2 := v;
      InnerFacts(v, Pd(r, a, b), c);
      ok, pt := EnterTable(Pd(r, a, b), pd, c, false);
      Further(v0.tree, v2.tree, v.tree);
    }

    /** Finds or makes the leaf table and sets the entry. */
    method MapEntry(va: Pmm.Word, flags: Entry, frame: Frame, root: Frame) returns (ok: bool)
      requires Valid() && Stable(v.tree) && !flags.huge
      requires var r := if root != 0 then root else kernel;
               r != 0 ==>
                 && Pml4(r) in v.tree.cell && (r != kernel ==> SlotOf(r, va).a < USER_ENTRIES)
                 && (r != kernel ==> Cow.FreshFor(World(v), flags.(frame := frame)))
      modifies this`tab, this`v, pmm, pmm.bitmap, pmm.refcounts
      ensures Valid() && Stable(v.tree)
      ensures !ok ==> (root == 0 && kernel == 0) || pmm.freePages == 0
      ensures var s := SlotOf(if root != 0 then root else kernel, va);
              if ok then PageSet(old(v), v, s, flags.(frame := frame))
              else SameUsers(old(v), v) && SameLook(old(v).tree, v.tree)
      ensures var s := SlotOf(if root != 0 then root else kernel, va);
              ok ==> forall x :: Walkable(old(v).tree, x) ==>
                Walk(tab, x) == if x == s then PathLook(old(v).tree, s, flags.(frame := frame)) else Walk(old(tab), x)
    {
      hide Inv;
      hide SameLook;
      hide Stable;
      hide PageSet;
      hide Grown;
      hide PathLook;
      Unchanged(v.tree);
      var r := if root != 0 then root else kernel;
      if r == 0 {
        return false;
      }
      var a := va / 0x80_0000_0000 % 512;
      var b := va / 0x4000_0000 % 512;
      var c := va / 0x20_0000 % 512;
      var d := va / 0x1000 % 512;
      ghost var s := SlotOf(r, va);
      ghost var v0 := v;
      var pt;
      ok, pt := Descend(r, a, b, c);
      if !ok {
        return;
      }
      ghost var v3 := v;
      var e := flags.(frame := frame);
      if r != kernel {
        FreshKept(v0, v3, e);
      }
      SetEntry(s, pt, d, e);
      AfterGrowth(v0, v3, v, s, e);
      PageSetWalk(v0, v, s, e);
    }

    /** Maps one 4 KiB page: a single-page update of the address space, whatever tables
        had to be added or huge pages split on the way. A false result is a panic. */
    method MapPage(va: Pmm.Word, flags: Entry, frame: Frame, root: Frame) returns (ok: bool)
      requires Valid() && Stable(v.tree) && !flags.huge
      requires var r := if root != 0 then root else kernel;
               r != 0 ==>
                 && Pml4(r) in v.tree.cell && (r != kernel ==> SlotOf(r, va).a < USER_ENTRIES)
                 && (r != kernel ==> Cow.FreshFor(World(v), flags.(frame := frame)))
      modifies this`tab, this`v, pmm, pmm.bitmap, pmm.refcounts
      ensures Valid() && Stable(v.tree)
      ensures !ok ==> (root == 0 && kernel == 0) || pmm.freePages == 0
      ensures var s := SlotOf(if root != 0 then root else kernel, va);
              if ok then PageSet(old(v), v, s, flags.(frame := frame))
              else SameUsers(old(v), v) && SameLook(old(v).tree, v.tree)
      ensures var s := SlotOf(if root != 0 then root else kernel, va);
              ok ==> forall x :: Walkable(old(v).tree, x) ==>
                Walk(tab, x) == if x == s then PathLook(old(v).tree, s, flags.(frame := frame)) else Walk(old(tab), x)
      ensures ok && root != 0 && root != kernel ==>
                exists bytes :: CowRuns.Step(World(old(v)), CowRuns.Map(SlotOf(root, va), flags.(frame := frame), bytes), World(v))
    {
      hide Inv;
      hide SameLook;
      hide Stable;
      hide PageSet;
      hide Walk;
      hide CowRuns.Step;
      ghost var v0 := v;
      ok := MapEntry(va, flags, frame, root);
      if ok && root != 0 && root != kernel {
        MappedStep(v0, v, SlotOf(root, va), flags.(frame := frame));
      }
    }

    method TableIsEmpty(phys: Frame) returns (empty: bool)
      requires phys in tab
      ensures empty <==> forall i :: 0 <= i < ENTRIES ==> !tab[phys][i].present
    {
      for k := 0 to ENTRIES
        invariant forall j :: 0 <= j < k ==> !tab[phys][j].present
      {
        if tab[phys][k].present {
          return false;
        }
      }
      return true;
    }

    method RemoveTable(ghost n: Node, phys: Frame, parent: Frame, i: nat)
      requires Valid() && n in v.tree.cell && !n.Pml4? && v.tree.cell[n].frame == phys
      requires Parent(n) in v.tree.cell && v.tree.cell[Parent(n)].frame == parent && Index(n) == i < ENTRIES
      requires phys < |v.used| == |v.refs| == Pmm.MAX_PAGES && v.used[phys] && v.refs[phys] <= 1 && parent in v.tab
      requires Inv(PruneTable(v, n))
      modifies this`tab, this`v, pmm, pmm.bitmap, pmm.refcounts
      ensures Valid() && v == PruneTable(old(v), n)
    {
      hide Inv;
      pmm.FreePage(phys * Pmm.PAGE_SIZE);
      assert pmm.st.used == v.used[phys := false] && pmm.st.refs == v.refs[phys := 0];
      tab := tab[parent := tab[parent][i := ZERO]];
      v := PruneTable(v, n);
    }

    /** Frees table `n` and clears its parent's entry if nothing is present in it. */
    method CleanupTable(ghost n: Node, phys: Frame, parent: Frame, i: nat) returns (freed: bool)
      requires Valid() && Stable(v.tree) && n in v.tree.cell && !n.Pml4? && v.tree.cell[n].frame == phys
      requires Parent(n) in v.tree.cell && v.tree.cell[Parent(n)].frame == parent && Index(n) == i < ENTRIES
      modifies this`tab, this`v, pmm, pmm.bitmap, pmm.refcounts
      ensures Valid() && Stable(v.tree) && SameUsers(old(v), v) && SameLook(old(v).tree, v.tree)
      ensures freed <==> Vacant(old(v).tree, n)
      ensures v.tree == PruneIf(old(v).tree, n)
      ensures !freed ==> v == old(v)
    {
      hide Inv;
      hide Stable;
      hide SameLook;
      Unchanged(v.tree);
      TableFacts(v, n);
      TableFacts(v, Parent(n));
      ParentFacts(v, n);
      assert forall k :: 0 <= k < ENTRIES ==> At(v.tree, n, k) == tab[phys][k];
      freed := TableIsEmpty(phys);
      assert freed <==> Vacant(v.tree, n);
      if freed {
        PruneStep(v, n);
        RemoveTable(n, phys, parent, i);
      }
    }

    /** Clears the entry of a mapped page, then the tables above it bottom-up. */
    method ClearPage(s: Slot, pdpt: Frame, pd: Frame, pt: Frame)
      requires Valid() && Stable(v.tree) && OnPath(v.tree, s) && v.tree.cell[Pml4(s.r)].frame == s.r
      requires v.tree.cell[Pdpt(s.r, s.a)].frame == pdpt && v.tree.cell[Pd(s.r, s.a, s.b)].frame == pd
      requires v.tree.cell[PtOf(s)].frame == pt
      modifies this`tab, this`v, pmm, pmm.bitmap, pmm.refcounts
      ensures Valid() && Stable(v.tree) && Unmapped(old(v), v, s)
    {
      hide Inv;
      hide Stable;
      hide SameLook;
      hide PageSet;
      hide Unmapped;
      hide Vacant;
      ghost var v0 := v;
      SetEntry(s, pt, s.d, ZERO);
      ghost var v1 := v;
      var freed := CleanupTable(PtOf(s), pt, pd, s.c);
      ghost var v2 := v;
      freed := CleanupTable(Pd(s.r, s.a, s.b), pd, pdpt, s.b);
      ghost var v3 := v;
      freed := CleanupTable(Pdpt(s.r, s.a), pdpt, s.r, s.a);
      UnmapSummary(v0, v1, v2, v3, v, s);
    }

    /** Walks down to the leaf entry; if it is present, clears it and cleans up. */
    method UnmapEntry(va: Pmm.Word, root: Frame) returns (ok: bool)
      requires Valid() && Stable(v.tree)
      requires var r := if root != 0 then root else kernel;
               r != 0 ==> Pml4(r) in v.tree.cell && (r != kernel ==> SlotOf(r, va).a < USER_ENTRIES)
                          && SmallPath(v.tree, SlotOf(r, va))
      modifies this`tab, this`v, pmm, pmm.bitmap, pmm.refcounts
      ensures Valid() && Stable(v.tree)
      ensures ok <==> (root != 0 || kernel != 0)
      ensures var s := SlotOf(if root != 0 then root else kernel, va);
              ok ==> if Look(old(v).tree, s) == Fault then v == old(v) else Unmapped(old(v), v, s)
    {
      hide Inv;
      hide Stable;
      hide SameLook;
      hide PageSet;
      hide Unmapped;
      var r := if root != 0 then root else kernel;
      if r == 0 {
        return false;
      }
      ok := true;
      var a := va / 0x80_0000_0000 % 512;
      var b := va / 0x4000_0000 % 512;
      var c := va / 0x20_0000 % 512;
      var d := va / 0x1000 % 512;
      ghost var s := SlotOf(r, va);
      RootFacts(v, r, a);
      PathFacts(v, s);
      if !tab[r][a].present {
        return;
      }
      var pdpt := tab[r][a].frame;
      if !tab[pdpt][b].present {
        return;
      }
      var pd := tab[pdpt][b].frame;
      if !tab[pd][c].present {
        return;
      }
      var pt := tab[pd][c].frame;
      if !tab[pt][d].present {
        return;
      }
      ClearPage(Slot(r, a, b, c, d), pdpt, pd, pt);
    }

    /** Unmaps one 4 KiB page: a single-page removal that frees exactly the tables left
        with nothing in them. */
    method UnmapPage(va: Pmm.Word, root: Frame) returns (ok: bool)
      requires Valid() && Stable(v.tree)
      requires var r := if root != 0 then root else kernel;
               r != 0 ==> Pml4(r) in v.tree.cell && (r != kernel ==> SlotOf(r, va).a < USER_ENTRIES)
                          && SmallPath(v.tree, SlotOf(r, va))
      modifies this`tab, this`v, pmm, pmm.bitmap, pmm.refcounts
      ensures Valid() && Stable(v.tree)
      ensures ok <==> (root != 0 || kernel != 0)
      ensures var s := SlotOf(if root != 0 then root else kernel, va);
              ok ==> if Look(old(v).tree, s) == Fault then v == old(v) else Unmapped(old(v), v, s)
      ensures var s := SlotOf(if root != 0 then root else kernel, va);
              ok ==> OnlyFaults(old(v).tree, old(tab), tab, s)
      ensures var s := SlotOf(root, va);
              ok && root != 0 && root != kernel && Look(old(v).tree, s) != Fault ==>
                exists bytes :: CowRuns.Step(World(old(v)), CowRuns.Map(s, ZERO, bytes), World(v))
    {
      hide Inv;
      hide Stable;
      hide SameLook;
      hide PageSet;
      hide Unmapped;
      hide Look;
      hide CowRuns.Step;
      hide OnlyFaults;
      ghost var v0, s := v, SlotOf(if root != 0 then root else kernel, va);
      ok := UnmapEntry(va, root);
      if ok {
        UnmappedWalk(v0, v, s);
      }
      if ok && root != 0 && root != kernel && Look(v0.tree, SlotOf(root, va)) != Fault {
        ghost var bytes: Cow.Bytes :| true;
        UnmapIsStep(v0, v, SlotOf(root, va), bytes);
      }
    }

    /** Gives back the reference of the next page entry of the leaf table `n`. */
    method ReleasePage(ghost n: Node, f: Frame)
      requires Valid() && Loose(v.tree, n) && UserPt(v, n, v.tree.cell[n].lo)
      requires At(v.tree, n, v.tree.cell[n].lo).present && At(v.tree, n, v.tree.cell[n].lo).frame == f
      modifies this`v, pmm, pmm.bitmap, pmm.refcounts
      ensures Valid() && NothingLost(old(v), v) && v.data == old(v).data
      ensures v.tree == Advance(old(v).tree, n) && v.leaf == old(v).leaf - {SlotAt(n, old(v).tree.cell[n].lo)}
    {
      hide Inv;
      DropEntryInv(v, n);
      pmm.FreePage(f * Pmm.PAGE_SIZE);
      v := DropEntry(v, n);
    }

    /** Gives back the frame of a table with nothing left in it. */
    method ReleaseTable(ghost n: Node, phys: Frame)
      requires Valid() && Spent(v.tree, n) && n.r != kernel && v.tree.cell[n].frame == phys
      modifies this`v, pmm, pmm.bitmap, pmm.refcounts
      ensures phys < |old(v).used| && phys < |old(v).refs| && v == FreeTable(old(v), n) && Valid()
    {
      hide Inv;
      TableFacts(v, n);
      FreeTableInv(v, n);
      pmm.FreePage(phys * Pmm.PAGE_SIZE);
      v := FreeTable(v, n);
    }

    /** Tears down the loose subtree at `n`: every page reference and every table in it
        is given back, and nothing else changes. */
    method FreeTree(ghost n: Node, phys: Frame, depth: nat)
      requires Valid() && Finished(v.tree, n) && !n.Pml4? && n.r != kernel && Hanging(v.tree, n)
      requires v.tree.cell[n].frame == phys && depth == Level(n)
      modifies this`v, pmm, pmm.bitmap, pmm.refcounts
      ensures Valid() && Torn(old(v), v, n) && NothingLost(old(v), v)
      decreases depth
    {
      hide Inv;
      hide Drained;
      hide Torn;
      ghost var v0 := v;
      DrainedStart(v, n);
      for i := 0 to ENTRIES
        invariant Valid() && Drained(v0, v, n, i) && NothingLost(v0, v)
        invariant Loose(v.tree, n) && v.tree.cell[n].lo == i && v.tree.cell[n].hi == ENTRIES
        invariant v.tree.cell[n].frame == phys && Hanging(v.tree, n)
      {
        NextDown(v, n, i);
        ghost var v1 := v;
        var entry := tab[phys][i];
        if !entry.present {
          PassInertInv(v, n);
          DrainInert(v0, v, n, i);
          v := PassInert(v, n);
        } else if depth == 0 {
          ReleasePage(n, entry.frame);
          DrainPage(v0, v1, v, n, i);
        } else {
          CutLoose(v, n, i);
          v := PassChild(v, n);
          ghost var v2 := v;
          FreeTree(Child(n, i), entry.frame, depth - 1);
          DrainTable(v0, v1, v2, v, n, i);
        }
        AfterDrain(v0, v, n, i + 1);
      }
      DrainEnd(v0, v, n, ENTRIES);
      ReleaseTable(n, phys);
    }

    /** Forgets everything below the loose table `n`. */
    ghost method LeakBelow(n: Node)
      requires Valid() && Loose(v.tree, n) && v.tree.cell[n].lo == 0 && n.r != kernel && !n.Pml4? && Hanging(v.tree, n)
      modifies this`v
      ensures Valid() && Drained(old(v), v, n, old(v).tree.cell[n].hi) && Leaked(old(v), v)
      decreases Level(n), 0
    {
      hide Inv;
      hide Drained;
      hide Torn;
      hide Leaked;
      var v0 := v;
      var h := v.tree.cell[n].hi;
      DrainedStart(v, n);
      NothingCopied(v, n);
      HiBound(v, n);
      for i := 0 to h
        invariant Valid() && Drained(v0, v, n, i) && Leaked(v0, v)
        invariant Loose(v.tree, n) && v.tree.cell[n].lo == i && v.tree.cell[n].hi == h && Hanging(v.tree, n)
      {
        NextDown(v, n, i);
        var v1 := v;
        if !At(v.tree, n, i).present {
          PassInertInv(v, n);
          DrainInert(v0, v, n, i);
          v := PassInert(v, n);
          LeakNone(v1, v);
        } else if n.Pt? {
          OrphanEntryInv(v, n);
          v := OrphanEntry(v, n);
          LeakPage(v1, v, SlotAt(n, i));
          DrainPage(v0, v1, v, n, i);
        } else {
          CutLoose(v, n, i);
          v := PassChild(v, n);
          LeakNone(v1, v);
          var v2 := v;
          LeakTree(Child(n, i));
          LeakTrans(v1, v2, v);
          DrainTable(v0, v1, v2, v, n, i);
        }
        LeakTrans(v0, v1, v);
        AfterDrainTo(v0, v, n, i + 1);
      }
    }

    ghost method LeakTree(n: Node)
      requires Valid() && Finished(v.tree, n) && n.r != kernel && !n.Pml4? && Hanging(v.tree, n)
      modifies this`v
      ensures Valid() && Torn(old(v), v, n) && Leaked(old(v), v)
      decreases Level(n), 1
    {
      hide Inv;
      hide Drained;
      hide Torn;
      hide Leaked;
      var v0 := v;
      LeakBelow(n);
      var v1 := v;
      DrainEnd(v0, v, n, ENTRIES);
      AfterDrainTo(v0, v, n, ENTRIES);
      LoseTableInv(v, n);
      v := LoseTable(v, n);
      LeakNone(v1, v);
      LeakTrans(v0, v1, v);
    }

    /** Copies an absent entry: nothing to share. */
    method SkipOne(ghost dn: Node, dst: Frame, i: nat)
      requires Valid() && Loose(v.tree, dn) && v.tree.cell[dn].hi == i < ENTRIES && v.tree.cell[dn].frame == dst
      modifies this`tab, this`v
      ensures dst in old(tab) && old(v).tree.cell[dn].frame in old(v).tab
      ensures tab == old(tab)[dst := old(tab)[dst][i := ZERO]]
      ensures Valid() && v == SkipEntry(old(v), dn, i, ZERO)
    {
      hide Inv;
      SkipEntryInv(v, dn, i, ZERO);
      tab := tab[dst := tab[dst][i := ZERO]];
      v := SkipEntry(v, dn, i, ZERO);
    }

    method MarkAndCopy(src: Frame, dst: Frame, i: nat, entry: Entry)
      requires src in tab && dst in tab && src != dst && i < ENTRIES && tab[src][i] == entry
      modifies this`tab
      ensures tab == old(tab)[src := old(tab)[src][i := CowMark(entry)]][dst := old(tab)[dst][i := CowMark(entry)]]
    {
      if entry.writable {
        tab := tab[src := tab[src][i := entry.(writable := false, cow := true)]];
      }
      assert tab[src] == old(tab)[src][i := CowMark(entry)];
      tab := tab[dst := tab[dst][i := tab[src][i]]];
    }

    /** Shares the page behind one present leaf entry. */
    method ShareOne(ghost sn: Node, ghost dn: Node, src: Frame, dst: Frame, i: nat)
      requires Valid() && ReadyToShare(v, sn, dn, i)
      requires v.tree.cell[sn].frame == src && v.tree.cell[dn].frame == dst
      modifies this`tab, this`v, pmm`st, pmm.refcounts
      ensures old(v).tree.cell[sn].frame in old(v).tab && old(v).tree.cell[dn].frame in old(v).tab
      ensures Valid() && v == ShareNext(old(v), sn, dn, i)
    {
      hide Inv;
      ShareNextInv(v, sn, dn, i);
      UserPtLeaf(v, sn, i);
      UsedLive(v, sn, i);
      ShareMemory(v, sn, dn, i);
      hide ReadyToShare;
      hide ShareNext;
      var entry := tab[src][i];
      pmm.RetainPage(entry.frame * Pmm.PAGE_SIZE);
      MarkAndCopy(src, dst, i, entry);
      v := ShareNext(v, sn, dn, i);
    }

    /** Gives up a copy after the copy of a child has failed. */
    method Abandon(ghost v0: State, ghost v1: State, ghost sn: Node, ghost dn: Node, dst: Frame, ghost i: nat)
      requires Valid() && Inv(v0) && !sn.Pt? && Cloned(v0, v1, sn, dn, i) && CloneFailed(v1, v, Child(sn, i))
      requires Clear(v0.tree, dn) && dn == RerootNode(sn, dn.r) && dn.r != sn.r && dn.r != kernel && !dn.Pml4?
      requires dn in v1.tree.cell && v1.tree.cell[dn].frame == dst && i <= ENTRIES
      modifies this`v, pmm, pmm.bitmap, pmm.refcounts
      ensures Valid() && CloneFailed(v0, v, sn)
    {
      hide Inv;
      hide Cloned;
      hide CloneFailed;
      hide Torn;
      hide Drained;
      ghost var v2 := v;
      AbandonShape(v0, v1, v, sn, dn, i);
      LeakBelow(dn);
      ghost var v3 := v;
      AfterDrainTo(v2, v, dn, i);
      DrainEnd(v2, v, dn, i);
      ReleaseTable(dn, dst);
      LeakNone(v3, v);
      LeakTrans(v2, v3, v);
      CloneNoPages(v0, dn);
      FailedBelow(v0, v1, v2, v, sn, dn, i);
    }

    /** Hooks the finished copy `sub` of a child into the copy of its parent. */
    method Hook(ghost v0: State, ghost v1: State, ghost sn: Node, ghost dn: Node, dst: Frame, sub: Frame, i: nat)
      requires Valid() && Inv(v0) && !sn.Pt? && i < ENTRIES && (dn.Pml4? ==> i < USER_ENTRIES)
      requires dn == RerootNode(sn, dn.r) && dn.r != sn.r && Clear(v0.tree, dn)
      requires Cloned(v0, v1, sn, dn, i) && Cloned(v1, v, Child(sn, i), Child(dn, i), ENTRIES)
      requires dn in v1.tree.cell && v1.tree.cell[dn].frame == dst && v.tree.cell[Child(dn, i)].frame == sub
      modifies this`tab, this`v
      ensures dst in old(tab) && tab == old(tab)[dst := old(tab)[dst][i := DirEntry(sub)]]
      ensures Valid() && Cloned(v0, v, sn, dn, i + 1) && dn in v.tree.cell && v.tree.cell[dn].frame == dst
    {
      hide Inv;
      hide Cloned;
      HookShape(v0, v1, v, sn, dn, i);
      HookEntryInv(v, dn, i);
      HookDone(v0, v1, v, sn, dn, i);
      HookMemory(v, dn, i);
      hide HookEntry;
      tab := tab[dst := tab[dst][i := DirEntry(sub)]];
      v := HookEntry(v, dn, i);
    }

    /** A table for the copy of `sn`, with nothing copied yet. */
    method StartCopy(ghost sn: Node, ghost dn: Node) returns (dst: Frame)
      requires Valid() && Source(v.tree, sn) && !sn.Pml4?
      requires dn == RerootNode(sn, dn.r) && dn.r != sn.r && dn.r != kernel && Clear(v.tree, dn)
      modifies this`tab, this`v, pmm, pmm.bitmap, pmm.refcounts
      ensures Valid() && (dst == 0 ==> v == old(v))
      ensures dst != 0 ==> Cloned(old(v), v, sn, dn, 0) && dn in v.tree.cell && v.tree.cell[dn].frame == dst
      ensures dst == 0 <==> old(pmm.freePages) == 0
      ensures pmm.freePages == if dst == 0 then 0 else old(pmm.freePages) - 1
    {
      hide Inv;
      hide Cloned;
      CopyIndex(v, sn, dn);
      dst := AllocFrame();
      if dst == 0 {
        return;
      }
      var garbage: Table := *;
      tab := tab[dst := garbage];
      NewTableInv(v, dn, dst, garbage);
      CloneStart(v, sn, dn, dst, garbage);
      v := NewTable(v, dn, dst, garbage);
    }

    /** Copies the subtree at `sn`, sharing its pages copy-on-write. Without memory for
        every table the copy is abandoned: the source still maps what it mapped. */
    method CloneTable(ghost sn: Node, ghost dn: Node, src: Frame, depth: nat) returns (dst: Frame)
      requires Valid() && Source(v.tree, sn) && !sn.Pml4? && v.tree.cell[sn].frame == src && depth == Level(sn)
      requires dn == RerootNode(sn, dn.r) && dn.r != sn.r && dn.r != kernel
      requires Clear(v.tree, dn) && NoSaturation(v, sn)
      modifies this`tab, this`v, pmm, pmm.bitmap, pmm.refcounts
      ensures Valid()
      ensures dst != 0 ==> Cloned(old(v), v, sn, dn, ENTRIES) && v.tree.cell[dn].frame == dst
      ensures dst == 0 ==> CloneFailed(old(v), v, sn)
      ensures dst != 0 <==> TreeSize(old(v).tree, sn) <= old(pmm.freePages)
      ensures dst != 0 ==> pmm.freePages == old(pmm.freePages) - TreeSize(old(v).tree, sn)
      decreases depth, 1
    {
      hide Inv;
      hide Cloned;
      hide CloneFailed;
      hide Torn;
      hide Drained;
      hide SizeTo;
      ghost var v0 := v;
      NothingCopied(v, sn);
      dst := StartCopy(sn, dn);
      if dst == 0 {
        return;
      }
      SizeNone(v0.tree, sn);
      for i := 0 to ENTRIES
        invariant Valid() && Cloned(v0, v, sn, dn, i) && dn in v.tree.cell && v.tree.cell[dn].frame == dst
        invariant pmm.freePages + 1 + SizeTo(v0.tree, sn, i) == old(pmm.freePages)
      {
        SizeNext(v0.tree, sn, i);
        SizeGrows(v0.tree, sn, i + 1, ENTRIES);
        var ok := CloneEntry(v0, sn, dn, src, dst, i, depth);
        if !ok {
          return 0;
        }
      }
    }

    /** Copies entry `i`; false means the whole copy has been abandoned. */
    method CloneEntry(ghost v0: State, ghost sn: Node, ghost dn: Node, src: Frame, dst: Frame, i: nat, depth: nat)
      returns (ok: bool)
      requires Valid() && Inv(v0) && Source(v0.tree, sn) && !sn.Pml4? && v0.tree.cell[sn].frame == src
      requires depth == Level(sn) && v0.tree.kernel == kernel
      requires dn == RerootNode(sn, dn.r) && dn.r != sn.r && dn.r != kernel
      requires Clear(v0.tree, dn) && NoSaturation(v0, sn) && i < ENTRIES
      requires Cloned(v0, v, sn, dn, i) && dn in v.tree.cell && v.tree.cell[dn].frame == dst
      modifies this`tab, this`v, pmm, pmm.bitmap, pmm.refcounts
      ensures Valid()
      ensures ok ==> Cloned(v0, v, sn, dn, i + 1) && dn in v.tree.cell && v.tree.cell[dn].frame == dst
      ensures !ok ==> CloneFailed(v0, v, sn)
      ensures ok <==> EntrySize(v0.tree, sn, i) <= old(pmm.freePages)
      ensures ok ==> pmm.freePages == old(pmm.freePages) - EntrySize(v0.tree, sn, i)
      decreases depth, 0
    {
      hide Inv;
      hide Cloned;
      hide CloneFailed;
      ok := true;
      CloneShape(v0, v, sn, dn, i);
      CloneNext(v0, v, sn, dn, i);
      SourceSize(v0, v, sn, dn, i);
      hide TreeSize;
      ghost var v1 := v;
      var entry := tab[src][i];
      if !entry.present {
        CloneInert(v0, v, sn, dn, i, ZERO);
        SkipOne(dn, dst, i);
      } else if depth == 0 {
        CanShareNext(v0, v, sn, dn, i);
        CloneLeaf(v0, v, sn, dn, i);
        ShareOne(sn, dn, src, dst, i);
      } else {
        NoSaturationBelow(v0, v, sn, dn, i);
        var sub := CloneTable(Child(sn, i), Child(dn, i), entry.frame, depth - 1);
        if sub == 0 {
          Abandon(v0, v1, sn, dn, dst, i);
          ok := false;
        } else {
          Hook(v0, v1, sn, dn, dst, sub, i);
        }
      }
    }

    /** Copies the kernel's half of a root table. */
    method CopyKernelHalf(dst: Frame, src: Frame)
      requires dst in tab && src in tab && dst != src
      modifies this`tab
      ensures dst in tab && tab == old(tab)[dst := tab[dst]]
      ensures forall i :: 0 <= i < USER_ENTRIES ==> tab[dst][i] == old(tab)[dst][i]
      ensures forall i :: USER_ENTRIES <= i < ENTRIES ==> tab[dst][i] == old(tab)[src][i]
    {
      for k := USER_ENTRIES to ENTRIES
        invariant dst in tab && tab == old(tab)[dst := tab[dst]]
        invariant forall i :: 0 <= i < USER_ENTRIES ==> tab[dst][i] == old(tab)[dst][i]
        invariant forall i :: USER_ENTRIES <= i < k ==> tab[dst][i] == old(tab)[src][i]
      {
        tab := tab[dst := tab[dst][k := tab[src][k]]];
      }
    }

    /** A new user space: nothing mapped below, the kernel above. */
    method CreateUserPml4() returns (root: Frame)
      requires Valid() && Stable(v.tree)
      modifies this`tab, this`v, pmm, pmm.bitmap, pmm.refcounts
      ensures Valid() && Stable(v.tree) && SameUsers(old(v), v)
      ensures root == 0 ==> v == old(v) && (kernel == 0 || pmm.freePages == 0)
      ensures root != 0 ==> Pml4(root) !in old(v).tree.cell && Pml4(root) in v.tree.cell && root != kernel
      ensures root != 0 ==> forall s :: s in v.leaf ==> s.r != root
      ensures root != 0 ==> root in tab && kernel in tab && forall i :: USER_ENTRIES <= i < ENTRIES ==> tab[root][i] == tab[kernel][i]
    {
      hide Inv;
      hide Stable;
      if kernel == 0 {
        return 0;
      }
      TableFacts(v, Pml4(kernel));
      KernelRoot(v);
      root := AllocFrame();
      if root == 0 {
        return;
      }
      var garbage: Table := *;
      tab := tab[root := garbage];
      ZeroTable(root);
      CopyKernelHalf(root, kernel);
      ghost var tb := tab[root];
      assert tab == v.tab[root := tb];
      NewRootStep(v, root, tb);
      NoPagesOf(v, root);
      hide NewRoot;
      v := NewRoot(v, root, tb);
    }

    /** Tears down what hangs below the first `count` entries of a user root. */
    method DrainRoot(root: Frame, count: nat)
      requires Valid() && Loose(v.tree, Pml4(root)) && root != kernel && Hanging(v.tree, Pml4(root))
      requires v.tree.cell[Pml4(root)].lo == 0 && count <= v.tree.cell[Pml4(root)].hi && count <= USER_ENTRIES
      requires v.tree.cell[Pml4(root)].frame == root
      modifies this`v, pmm, pmm.bitmap, pmm.refcounts
      ensures Valid() && Drained(old(v), v, Pml4(root), count) && NothingLost(old(v), v)
    {
      hide Inv;
      hide Drained;
      hide Torn;
      ghost var v0 := v;
      ghost var n := Pml4(root);
      DrainedStart(v, n);
      for i := 0 to count
        invariant Valid() && Drained(v0, v, n, i) && NothingLost(v0, v)
        invariant Loose(v.tree, n) && v.tree.cell[n].lo == i && v.tree.cell[n].hi == v0.tree.cell[n].hi
        invariant v.tree.cell[n].frame == root && Hanging(v.tree, n)
      {
        NextDown(v, n, i);
        ghost var v1 := v;
        var entry := tab[root][i];
        if !entry.present {
          PassInertInv(v, n);
          DrainInert(v0, v, n, i);
          v := PassInert(v, n);
        } else {
          CutLoose(v, n, i);
          v := PassChild(v, n);
          ghost var v2 := v;
          FreeTree(Child(n, i), entry.frame, 2);
          DrainTable(v0, v1, v2, v, n, i);
        }
        AfterDrainTo(v0, v, n, i + 1);
      }
    }

    /** Frees a user space: every page reference and every table of it is given back, and
        every other space is untouched. */
    method FreeAddressSpace(root: Frame)
      requires Valid() && Stable(v.tree) && (root != 0 ==> Pml4(root) in v.tree.cell && root != kernel)
      modifies this`v, pmm, pmm.bitmap, pmm.refcounts
      ensures Valid() && Stable(v.tree)
      ensures root == 0 ==> v == old(v)
      ensures root != 0 ==>
                && CowRuns.Step(World(old(v)), CowRuns.Free(root), World(v)) && NothingLost(old(v), v)
                && forall n :: n in v.tree.cell <==> n in old(v).tree.cell && n.r != root
    {
      hide Inv;
      hide Stable;
      hide Torn;
      hide Drained;
      hide CowRuns.Step;
      if root == 0 {
        return;
      }
      ghost var v0 := v;
      ghost var n := Pml4(root);
      StableSource(v, root);
      DrainRoot(root, USER_ENTRIES);
      ghost var v1 := v;
      AfterDrainTo(v0, v1, n, USER_ENTRIES);
      BeyondUser(v0.tree, n, USER_ENTRIES);
      BeyondUser(v1.tree, n, USER_ENTRIES);
      DrainEnd(v0, v, n, USER_ENTRIES);
      ReleaseTable(n, root);
      TornStable(v0, v, root);
      FreeIsStep(v0, v, root);
    }

    /** Copies one entry of a user root; false means the copy has been given up. */
    method CloneRootEntry(ghost v0: State, src: Frame, dst: Frame, i: nat) returns (ok: bool)
      requires Valid() && Inv(v0) && Source(v0.tree, Pml4(src)) && v0.tree.cell[Pml4(src)].frame == src
      requires v0.tree.kernel == kernel && dst != src && dst != kernel
      requires Clear(v0.tree, Pml4(dst)) && NoSaturation(v0, Pml4(src)) && i < USER_ENTRIES
      requires Cloned(v0, v, Pml4(src), Pml4(dst), i) && Pml4(dst) in v.tree.cell && v.tree.cell[Pml4(dst)].frame == dst
      modifies this`tab, this`v, pmm, pmm.bitmap, pmm.refcounts
      ensures Valid()
      ensures ok ==> Cloned(v0, v, Pml4(src), Pml4(dst), i + 1) && Pml4(dst) in v.tree.cell
                     && v.tree.cell[Pml4(dst)].frame == dst
      ensures !ok ==> CloneFailed(v0, v, Pml4(src))
      ensures ok ==> KernelHalf(old(tab), tab, dst)
      ensures ok <==> EntrySize(v0.tree, Pml4(src), i) <= old(pmm.freePages)
      ensures ok ==> pmm.freePages == old(pmm.freePages) - EntrySize(v0.tree, Pml4(src), i)
    {
      hide Inv;
      hide Cloned;
      hide CloneFailed;
      ok := true;
      ghost var sn, dn := Pml4(src), Pml4(dst);
      CloneShape(v0, v, sn, dn, i);
      CloneNext(v0, v, sn, dn, i);
      SourceSize(v0, v, sn, dn, i);
      hide TreeSize;
      ghost var v1 := v;
      var entry := tab[src][i];
      if !entry.present {
        CloneInert(v0, v, sn, dn, i, ZERO);
        SkipOne(dn, dst, i);
      } else {
        NoSaturationBelow(v0, v, sn, dn, i);
        var sub := CloneTable(Child(sn, i), Child(dn, i), entry.frame, 2);
        if sub == 0 {
          AbandonRoot(v0, v1, src, dst, i);
          ok := false;
        } else {
          RootKept(v1, v, Child(sn, i), Child(dn, i), dn);
          Hook(v0, v1, sn, dn, dst, sub, i);
        }
      }
    }

    /** Gives up the copy of a root: the finished subtrees are freed properly. */
    method AbandonRoot(ghost v0: State, ghost v1: State, src: Frame, dst: Frame, i: nat)
      requires Valid() && Inv(v0) && Cloned(v0, v1, Pml4(src), Pml4(dst), i) && CloneFailed(v1, v, Pdpt(src, i))
      requires Clear(v0.tree, Pml4(dst)) && dst != src && dst != kernel
      requires Pml4(dst) in v1.tree.cell && v1.tree.cell[Pml4(dst)].frame == dst && i < USER_ENTRIES
      modifies this`v, pmm, pmm.bitmap, pmm.refcounts
      ensures Valid() && CloneFailed(v0, v, Pml4(src))
    {
      hide Inv;
      hide Cloned;
      hide CloneFailed;
      hide Torn;
      hide Drained;
      ghost var sn, dn := Pml4(src), Pml4(dst);
      ghost var v2 := v;
      AbandonShape(v0, v1, v, sn, dn, i);
      DrainRoot(dst, i);
      ghost var v3 := v;
      AfterDrainTo(v2, v, dn, i);
      DrainEnd(v2, v, dn, i);
      ReleaseTable(dn, dst);
      TornLeaks(v2, v, dn);
      CloneNoPages(v0, dn);
      FailedBelow(v0, v1, v2, v, sn, dn, i);
    }

    /** Fork: a new space that shares every page of `src` copy-on-write, or zero when
        memory runs out, with `src` mapping what it mapped. */
    method CloneAddressSpace(src: Frame) returns (dst: Frame)
      requires Valid() && Stable(v.tree) && Pml4(src) in v.tree.cell && src != kernel
      requires NoSaturation(v, Pml4(src))
      modifies this`tab, this`v, pmm, pmm.bitmap, pmm.refcounts
      ensures Valid() && Stable(v.tree)
      ensures dst != 0 <==> kernel != 0 && 1 + SizeTo(old(v).tree, Pml4(src), USER_ENTRIES) <= old(pmm.freePages)
      ensures dst != 0 ==>
                && CowRuns.Step(World(old(v)), CowRuns.Clone(src, dst), World(v)) && NothingLost(old(v), v)
                && Pml4(dst) !in old(v).tree.cell && Pml4(dst) in v.tree.cell && dst != kernel
                && (forall n :: n in old(v).tree.cell ==> n in v.tree.cell)
                && src in old(tab) && dst in tab
                && (forall i :: USER_ENTRIES <= i < ENTRIES ==> tab[dst][i] == old(tab)[src][i])
      ensures dst != 0 ==> SharedWalks(old(tab), tab, src, dst)
      ensures dst == 0 ==>
                && CowRuns.Step(World(old(v)), CowRuns.CloneFails(src), World(v)) && OnlyLost(old(v), v)
                && (forall n :: n in v.tree.cell <==> n in old(v).tree.cell)
    {
      hide Inv;
      hide Stable;
      hide Cloned;
      hide CloneFailed;
      hide CowRuns.Step;
      hide SizeTo;
      hide SharedWalks;
      ghost var v0 := v;
      ghost var sn := Pml4(src);
      NothingCopied(v, sn);
      FailedStable(v, v, src);
      CloneFailIsStep(v, v, src);
      if kernel == 0 {
        return 0;
      }
      StableSource(v, src);
      TableFacts(v, sn);
      dst := AllocFrame();
      if dst == 0 {
        return;
      }
      ghost var dn := Pml4(dst);
      FreshRoot(v, dst);
      KernelInUse(v, dst);
      var garbage: Table := *;
      tab := tab[dst := garbage];
      CopyKernelHalf(dst, src);
      ghost var tb := tab[dst];
      assert tab == v.tab[dst := tb];
      NewTableInv(v, dn, dst, tb);
      CloneStart(v, sn, dn, dst, tb);
      v := NewTable(v, dn, dst, tb);
      SizeNone(v0.tree, sn);
      for i := 0 to USER_ENTRIES
        invariant Valid() && Cloned(v0, v, sn, dn, i) && dn in v.tree.cell && v.tree.cell[dn].frame == dst
        invariant pmm.freePages + 1 + SizeTo(v0.tree, sn, i) == old(pmm.freePages)
        invariant dst in tab && forall j :: USER_ENTRIES <= j < ENTRIES ==> tab[dst][j] == old(tab)[src][j]
      {
        SizeNext(v0.tree, sn, i);
        SizeGrows(v0.tree, sn, i + 1, USER_ENTRIES);
        var ok := CloneRootEntry(v0, src, dst, i);
        if !ok {
          FailedStable(v0, v, src);
          CloneFailIsStep(v0, v, src);
          FailedLost(v0, v, src);
          return 0;
        }
      }
      FinishClone(v0, src, dst);
      CloneWalks(v0, v, src, dst);
    }

    /** The copied root is complete: from here on it is a space like any other. */
    ghost method FinishClone(v0: State, src: Frame, dst: Frame)
      requires Valid() && Inv(v0) && Stable(v0.tree) && Clear(v0.tree, Pml4(dst)) && dst != kernel
      requires Cloned(v0, v, Pml4(src), Pml4(dst), USER_ENTRIES) && Pml4(src) in v0.tree.cell
      modifies this`v
      ensures Valid() && Stable(v.tree) && CowRuns.Step(World(v0), CowRuns.Clone(src, dst), World(v))
      ensures NothingLost(v0, v) && Pml4(dst) in v.tree.cell && forall n :: n in v0.tree.cell ==> n in v.tree.cell
    {
      hide Inv;
      hide Stable;
      hide CowRuns.Step;
      var v1 := v;
      var dn := Pml4(dst);
      CloneShape(v0, v, Pml4(src), dn, USER_ENTRIES);
      CompleteInv(v, dn);
      CloneStableOf(v0, v1, src, dst);
      v := v.(tree := Complete(v.tree, dn));
      CloneIsStep(v0, v1, v, src, dst);
    }

    /** The walk of a user address down to its leaf table. */
    method FindPt(s: Slot) returns (found: bool, pt: Frame)
      requires Valid() && Stable(v.tree) && Indexed(s) && s.a < USER_ENTRIES && s.r != kernel && Pml4(s.r) in v.tree.cell
      ensures found <==> PtOf(s) in v.tree.cell
      ensures found ==> v.tree.cell[PtOf(s)].frame == pt && pt in tab && tab[pt] == v.tree.cell[PtOf(s)].table
    {
      hide Inv;
      hide Stable;
      RootFacts(v, s.r, s.a);
      UserSmall(v, s);
      PathFacts(v, s);
      LeafPath(v, s);
      if !tab[s.r][s.a].present {
        return false, 0;
      }
      var pdpt := tab[s.r][s.a].frame;
      if !tab[pdpt][s.b].present {
        return false, 0;
      }
      var pd := tab[pdpt][s.b].frame;
      if !tab[pd][s.c].present {
        return false, 0;
      }
      TableFacts(v, PtOf(s));
      return true, tab[pd][s.c].frame;
    }

    method CopyBytes(from: Frame, to: Frame)
      requires from in data && to in data && from != to
      modifies this`data
      ensures data == old(data)[to := old(data)[from]]
    {
      for k := 0 to Pmm.PAGE_SIZE
        invariant to in data && data == old(data)[to := data[to]]
        invariant forall j :: 0 <= j < k ==> data[to][j] == old(data)[from][j]
      {
        data := data[to := data[to][k := data[from][k]]];
      }
      assert data[to] == old(data)[from];
    }

    /** Resolves a user write to a present read-only page. It succeeds exactly for a
        copy-on-write page, unless a copy is needed and no frame is left. */
    method HandleCowFault(va: Pmm.Word, errorCode: nat, root: Frame) returns (handled: bool)
      requires Valid() && Stable(v.tree)
      requires root != 0 ==> Pml4(root) in v.tree.cell && root != kernel && SlotOf(root, va).a < USER_ENTRIES
      modifies this`tab, this`data, this`v, pmm, pmm.bitmap, pmm.refcounts
      ensures Valid() && Stable(v.tree) && NothingLost(old(v), v) && v.tree.cell.Keys == old(v).tree.cell.Keys
      ensures var s := SlotOf(root, va);
              handled <==> (errorCode % 8 == 7 && root != 0 && s in old(v).leaf && old(v).leaf[s].cow
                            && (RefCount(old(v), s) <= 1 || exists p :: 0 <= p < |old(v).used| && !old(v).used[p]))
      ensures handled ==> CowRuns.Step(World(old(v)), CowRuns.Fault(SlotOf(root, va)), World(v))
      ensures !handled ==> v == old(v)
    {
      hide Inv;
      hide Stable;
      hide CowRuns.Step;
      if errorCode % 8 != 7 || root == 0 {
        return false;
      }
      var s := Slot(root, va / 0x80_0000_0000 % 512, va / 0x4000_0000 % 512, va / 0x20_0000 % 512, va / 0x1000 % 512);
      var found, pt := FindPt(s);
      LeafPath(v, s);
      if !found {
        return false;
      }
      var pte := tab[pt][s.d];
      if !pte.present || !pte.cow {
        return false;
      }
      handled := ResolveFault(s, pt, pte);
    }

    method ResolveFault(s: Slot, pt: Frame, pte: Entry) returns (handled: bool)
      requires Valid() && Stable(v.tree) && s in v.leaf && v.leaf[s] == pte && pte.cow
      requires PtOf(s) in v.tree.cell && v.tree.cell[PtOf(s)].frame == pt
      modifies this`tab, this`data, this`v, pmm, pmm.bitmap, pmm.refcounts
      ensures Valid() && Stable(v.tree) && NothingLost(old(v), v) && v.tree.cell.Keys == old(v).tree.cell.Keys
      ensures handled <==> RefCount(old(v), s) <= 1 || exists p :: 0 <= p < |old(v).used| && !old(v).used[p]
      ensures handled ==> CowRuns.Step(World(old(v)), CowRuns.Fault(s), World(v))
      ensures !handled ==> v == old(v)
    {
      hide Inv;
      hide Stable;
      hide CowRuns.Step;
      LeafFacts(v, s);
      var n := pmm.PageRefCount(pte.frame * Pmm.PAGE_SIZE);
      if n <= 1 {
        ReclaimPageInv(v, s);
        ReclaimIsStep(v, s);
        tab := tab[pt := tab[pt][s.d := pte.(writable := true, cow := false)]];
        v := ReclaimPage(v, s);
        return true;
      }
      handled := CopyShared(s, pt, pte);
    }

    method CopyShared(s: Slot, pt: Frame, pte: Entry) returns (handled: bool)
      requires Valid() && Stable(v.tree) && s in v.leaf && v.leaf[s] == pte && pte.cow && RefCount(v, s) > 1
      requires PtOf(s) in v.tree.cell && v.tree.cell[PtOf(s)].frame == pt
      modifies this`tab, this`data, this`v, pmm, pmm.bitmap, pmm.refcounts
      ensures Valid() && Stable(v.tree) && NothingLost(old(v), v) && v.tree.cell.Keys == old(v).tree.cell.Keys
      ensures handled <==> exists p :: 0 <= p < |old(v).used| && !old(v).used[p]
      ensures handled ==> CowRuns.Step(World(old(v)), CowRuns.Fault(s), World(v))
      ensures !handled ==> v == old(v)
    {
      hide Inv;
      hide Stable;
      hide CowRuns.Step;
      LeafFacts(v, s);
      var g := AllocFrame();
      if g == 0 {
        return false;
      }
      CopyPageInv(v, s, g);
      FreshNotLive(v, g);
      CopyIsStep(v, s, g);
      hide CopyPage;
      InstallCopy(s, pt, pte, g);
      handled := true;
    }

    /** Copies the page into frame `g`, points the entry at it and drops the old reference. */
    method InstallCopy(s: Slot, pt: Frame, pte: Entry, g: Frame)
      requires pmm.Valid() && g < |v.used| == |v.refs| == Pmm.MAX_PAGES
      requires pmm.st.used == v.used[g := true] && pmm.st.refs == v.refs[g := 1]
      requires tab == v.tab && data == v.data && kernel == v.tree.kernel && s in v.leaf && v.leaf[s] == pte
      requires PtOf(s) in v.tree.cell && v.tree.cell[PtOf(s)].frame == pt && pt in v.tab && s.d < ENTRIES
      requires pte.frame < |v.refs| && pte.frame != g && v.refs[pte.frame] > 1 && v.used[pte.frame] && pte.frame in v.data
      requires 0 in v.other && (kernel != 0 ==> Pml4(kernel) in v.tree.cell)
      requires CopyPage(v, s, g).tree.cell.Keys == v.tree.cell.Keys && Inv(CopyPage(v, s, g))
      modifies this`tab, this`data, this`v, pmm, pmm.bitmap, pmm.refcounts
      ensures Valid() && v == CopyPage(old(v), s, g)
    {
      hide Inv;
      CopyPageParts(v, s, g);
      hide CopyPage;
      var garbage: Cow.Bytes := *;
      data := data[g := garbage];
      CopyBytes(pte.frame, g);
      assert data == v.data[g := v.data[pte.frame]];
      tab := tab[pt := tab[pt][s.d := pte.(frame := g, writable := true, cow := false)]];
      DropShared(pte.frame);
      v := CopyPage(v, s, g);
    }

    /** Gives back one of several references to a page. */
    method DropShared(f: Frame)
      requires pmm.Valid() && f < Pmm.MAX_PAGES && pmm.st.used[f] && pmm.st.refs[f] > 1
      modifies pmm, pmm.bitmap, pmm.refcounts
      ensures pmm.Valid() && pmm.st.used == old(pmm.st).used && pmm.st.refs == old(pmm.st).refs[f := old(pmm.st).refs[f] - 1]
    {
      pmm.FreePage(f * Pmm.PAGE_SIZE);
    }

    /** A user write, faults included: seen by its own space alone, and as if every fork
        had copied every page. A false result is an access violation. */
    method UserWrite(va: Pmm.Word, value: Cow.Byte, root: Frame) returns (ok: bool)
      requires Valid() && Stable(v.tree) && root != 0
      requires Pml4(root) in v.tree.cell && root != kernel && SlotOf(root, va).a < USER_ENTRIES
      modifies this`tab, this`data, this`v, pmm, pmm.bitmap, pmm.refcounts
      ensures Valid() && Stable(v.tree) && NothingLost(old(v), v) && v.tree.cell.Keys == old(v).tree.cell.Keys
      ensures ok <==> MayWrite(old(v), SlotOf(root, va))
      ensures ok ==> Allows(tab, SlotOf(root, va), true)
      ensures CowRuns.View(World(v)) ==
              if ok then CowRuns.EagerStep(CowRuns.View(World(old(v))),
                                           CowRuns.Write(SlotOf(root, va), va % Pmm.PAGE_SIZE, value))
              else CowRuns.View(World(old(v)))
    {
      hide Inv;
      hide Stable;
      hide Walk;
      hide CowRuns.Step;
      hide CowRuns.View;
      hide CowRuns.EagerStep;
      ghost var v0 := v;
      var s := Slot(root, va / 0x80_0000_0000 % 512, va / 0x4000_0000 % 512, va / 0x20_0000 % 512, va / 0x1000 % 512);
      RootFacts(v, root, s.a);
      UserWalk(v, s);
      LeafPath(v, s);
      var tr := Walk(tab, s);
      if tr.Fault? {
        return false;
      }
      if !(tr.user && tr.writable) {
        var handled := HandleCowFault(va, 7, root);
        if !handled {
          return false;
        }
        AfterFault(v0, v, s);
        RootFacts(v, root, s.a);
        UserWalk(v, s);
        LeafPath(v, s);
        tr := Walk(tab, s);
        if tr.Fault? || !(tr.user && tr.writable) {
          return false;
        }
      }
      ghost var v1 := v;
      StoreByte(s, tr.frame, va % Pmm.PAGE_SIZE, value);
      AfterWrite(v0, v1, v, s, va % Pmm.PAGE_SIZE, value);
      ok := true;
    }

    /** The store itself, once the page is writable. */
    method StoreByte(ghost s: Slot, f: Frame, offset: nat, value: Cow.Byte)
      requires Valid() && s in v.leaf && v.leaf[s].writable && v.leaf[s].frame == f && f in v.data && offset < Pmm.PAGE_SIZE
      modifies this`data, this`v
      ensures Valid() && v == Poke(old(v), f, offset, value)
      ensures CowRuns.Step(World(old(v)), CowRuns.Write(s, offset, value), World(v))
    {
      hide Inv;
      hide CowRuns.Step;
      PokeInv(v, f, offset, value);
      PokeIsStep(v, s, offset, value);
      data := data[f := data[f][offset := value]];
      v := Poke(v, f, offset, value);
    }

    /** A user read returns the byte of the eager view. */
    method UserRead(va: Pmm.Word, root: Frame) returns (ok: bool, value: Cow.Byte)
      requires Valid() && Stable(v.tree) && root != 0
      requires Pml4(root) in v.tree.cell && root != kernel && SlotOf(root, va).a < USER_ENTRIES
      ensures ok <==> Allows(tab, SlotOf(root, va), false)
      ensures ok <==> SlotOf(root, va) in v.leaf && v.leaf[SlotOf(root, va)].user
      ensures ok ==> SlotOf(root, va) in CowRuns.View(World(v))
                     && value == CowRuns.View(World(v))[SlotOf(root, va)].bytes[va % Pmm.PAGE_SIZE]
    {
      hide Inv;
      hide Stable;
      hide Walk;
      var s := Slot(root, va / 0x80_0000_0000 % 512, va / 0x4000_0000 % 512, va / 0x20_0000 % 512, va / 0x1000 % 512);
      RootFacts(v, root, s.a);
      UserWalk(v, s);
      LeafPath(v, s);
      var tr := Walk(tab, s);
      if tr.Fault? || !tr.user {
        return false, 0;
      }
      return true, data[tr.frame][va % Pmm.PAGE_SIZE];
    }

    /** A frame for a user page, with whatever it held before; the caller holds it. */
    method AllocUserFrame() returns (f: Frame)
      requires Valid() && Stable(v.tree)
      modifies this`data, this`v, pmm, pmm.bitmap, pmm.refcounts
      ensures Valid() && Stable(v.tree) && v.tree == old(v).tree && v.other == old(v).other
      ensures f == 0 ==> v == old(v) && pmm.freePages == 0
      ensures f != 0 ==>
                && f in v.data && f < |v.refs| && v.refs[f] == 1 && v.held[f] == 1 && f in v.live
                && v.leaf == old(v).leaf && v.held == old(v).held + multiset{f}
                && CowRuns.Step(World(old(v)), CowRuns.Hold(f, v.data[f]), World(v))
    {
      hide Inv;
      hide Stable;
      hide CowRuns.Step;
      f := AllocFrame();
      if f == 0 {
        return;
      }
      var garbage: Cow.Bytes := *;
      HoldFrameInv(v, f, garbage);
      HoldIsStep(v, f, garbage);
      data := data[f := garbage];
      v := HoldFrame(v, f, garbage);
    }

    /** Gives back a frame reference held outside the tables. */
    method FreeUserFrame(f: Frame)
      requires Valid() && Stable(v.tree) && f in v.held
      modifies this`v, pmm, pmm.bitmap, pmm.refcounts
      ensures Valid() && Stable(v.tree) && v.tree == old(v).tree && v.other == old(v).other
      ensures CowRuns.Step(World(old(v)), CowRuns.Unhold(f), World(v))
      ensures f in v.live <==> old(v).refs[f] > 1
    {
      hide Inv;
      hide Stable;
      hide CowRuns.Step;
      UnholdFrameInv(v, f);
      UnholdIsStep(v, f);
      pmm.FreePage(f * Pmm.PAGE_SIZE);
      v := UnholdFrame(v, f);
    }
  }
}

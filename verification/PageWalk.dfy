/** Address translation: the walk the processor makes through memory, and what each
    update of the tables does to it. */
module PageWalk {
  import opened PageEntry
  import opened PageTree

  /** Where an address goes: a 4 KiB frame and the rights and caching bits of its page. */
  datatype Trans =
    | Fault
    | To(frame: Frame, writable: bool, user: bool, writeThrough: bool, cacheDisable: bool, noExecute: bool)

  function Translated(e: Entry, f: Frame): Trans {
    To(f, e.writable, e.user, e.writeThrough, e.cacheDisable, e.noExecute)
  }

  /** What an entry above leaves of a translation: writing and user access must be allowed at
      every level, and execution can be forbidden at any. */
  function Restrict(e: Entry, tr: Trans): Trans {
    if tr.Fault? then Fault
    else tr.(writable := tr.writable && e.writable, user := tr.user && e.user, noExecute := tr.noExecute || e.noExecute)
  }

  const GIB_FRAMES: nat := 262144
  const MIB2_FRAMES: nat := 512

  /** The frame that a huge page at table `n` gives to slot `s`. */
  function HugeFrame(n: Node, e: Entry, s: Slot): Frame {
    if n.Pdpt? then e.frame / GIB_FRAMES * GIB_FRAMES + s.c * MIB2_FRAMES + s.d
    else e.frame / MIB2_FRAMES * MIB2_FRAMES + s.d
  }

  predicate Indexed(s: Slot) { s.a < ENTRIES && s.b < ENTRIES && s.c < ENTRIES && s.d < ENTRIES }

  /** The processor's walk from the table in frame `f`, standing at level of `n`. */
  function WalkFrom(tab: map<Frame, Table>, f: Frame, n: Node, s: Slot): Trans
    requires Indexed(s)
    decreases Level(n)
  {
    if f !in tab then Fault else
    var e := tab[f][IndexIn(s, n)];
    if !e.present then Fault
    else if n.Pt? then Translated(e, e.frame)
    else if e.huge && !n.Pml4? then Translated(e, HugeFrame(n, e, s))
    else Restrict(e, WalkFrom(tab, e.frame, Child(n, IndexIn(s, n)), s))
  }

  function Walk(tab: map<Frame, Table>, s: Slot): Trans
    requires Indexed(s)
  {
    WalkFrom(tab, s.r, Pml4(s.r), s)
  }

  /** The same walk over the tree of tables. */
  ghost function LookFrom(t: Tree, n: Node, s: Slot): Trans
    requires Indexed(s)
    decreases Level(n)
  {
    if n !in t.cell then Fault else
    var e := At(t, n, IndexIn(s, n));
    if !e.present then Fault
    else if n.Pt? then Translated(e, e.frame)
    else if e.huge && !n.Pml4? then Translated(e, HugeFrame(n, e, s))
    else Restrict(e, LookFrom(t, Child(n, IndexIn(s, n)), s))
  }

  /** A complete root and a slot in the half it owns. */
  ghost predicate Walkable(t: Tree, s: Slot) {
    Indexed(s) && InForce(t, Pml4(s.r), s.a)
  }

  ghost function Look(t: Tree, s: Slot): Trans
    requires Indexed(s)
  {
    LookFrom(t, Pml4(s.r), s)
  }

  lemma {:induction false} WalkIsLookFrom(t: Tree, tab: map<Frame, Table>, n: Node, s: Slot)
    requires Wf(t) && Indexed(s) && Under(s, n) && InForce(t, n, IndexIn(s, n))
    requires forall m :: m in t.cell ==> t.cell[m].frame in tab && tab[t.cell[m].frame] == t.cell[m].table
    ensures WalkFrom(tab, t.cell[n].frame, n, s) == LookFrom(t, n, s)
    decreases Level(n)
  {
    if !n.Pt? {
      var i := IndexIn(s, n);
      assert PointsDown(t, n, i);
      var e := At(t, n, i);
      if e.present && !e.huge {
        WalkIsLookFrom(t, tab, Child(n, i), s);
      }
    }
  }

  /** Memory and tree agree on every walkable slot. */
  lemma WalkIsLook(t: Tree, tab: map<Frame, Table>, s: Slot)
    requires Wf(t) && Walkable(t, s)
    requires forall m :: m in t.cell ==> t.cell[m].frame in tab && tab[t.cell[m].frame] == t.cell[m].table
    ensures Walk(tab, s) == Look(t, s)
  {
    WalkIsLookFrom(t, tab, Pml4(s.r), s);
  }

  /** Two trees that agree on every linked table and on the roots. */
  ghost predicate AgreeBelow(t: Tree, t': Tree, c: Node) {
    forall m :: m in t.cell && m != c ==> m in t'.cell && t'.cell[m].table == t.cell[m].table
  }

  /** A change of entry `i` of `n` is seen only by the slots translated through it. */
  lemma {:induction false} LookElsewhere(t: Tree, t': Tree, n: Node, i: nat, m: Node, s: Slot)
    requires Wf(t) && Indexed(s) && Under(s, m) && InForce(t, m, IndexIn(s, m))
    requires !(Under(s, n) && IndexIn(s, n) == i)
    requires AgreeBelow(t, t', n) && n in t.cell && n in t'.cell && i < ENTRIES
    requires forall j :: 0 <= j < ENTRIES && j != i ==> t'.cell[n].table[j] == t.cell[n].table[j]
    ensures LookFrom(t', m, s) == LookFrom(t, m, s)
    decreases Level(m)
  {
    if !m.Pt? {
      var j := IndexIn(s, m);
      assert PointsDown(t, m, j);
      if At(t, m, j).present && !At(t, m, j).huge {
        LookElsewhere(t, t', n, i, Child(m, j), s);
      }
    }
  }

  /** Table `n` is linked, and so is every table above it. */
  ghost predicate Reached(t: Tree, n: Node)
    decreases 3 - Level(n)
  {
    n in t.cell && (n.Pml4? || (t.cell[n].linked && Reached(t, Parent(n))))
  }

  /** What the entries above table `n` leave of a translation. */
  ghost function Through(t: Tree, n: Node, tr: Trans): Trans
    decreases 3 - Level(n)
  {
    if n.Pml4? then tr
    else if Parent(n) !in t.cell || Index(n) >= ENTRIES then Fault
    else Through(t, Parent(n), Restrict(At(t, Parent(n), Index(n)), tr))
  }

  /** A slot under a reached table is looked up in that table, with the rights of those above. */
  lemma {:induction false} LookReaches(t: Tree, n: Node, s: Slot)
    requires Wf(t) && Indexed(s) && Under(s, n) && Reached(t, n)
    ensures Look(t, s) == Through(t, n, LookFrom(t, n, s))
    decreases 3 - Level(n)
  {
    if !n.Pml4? {
      assert LinkedFrom(t, n);
      LookReaches(t, Parent(n), s);
    }
  }

  lemma {:induction false} ThroughFault(t: Tree, n: Node)
    ensures Through(t, n, Fault) == Fault
    decreases 3 - Level(n)
  {
    if !n.Pml4? && Parent(n) in t.cell && Index(n) < ENTRIES {
      ThroughFault(t, Parent(n));
    }
  }

  /** Table `m` lies above `n`. */
  predicate Over(m: Node, n: Node) { m != n && Below(n, m) }

  lemma {:induction false} ThroughSame(t: Tree, t': Tree, n: Node, tr: Trans)
    requires forall m :: Over(m, n) ==> (m in t'.cell <==> m in t.cell)
    requires forall m :: Over(m, n) && m in t.cell ==> t'.cell[m].table == t.cell[m].table
    ensures Through(t', n, tr) == Through(t, n, tr)
    decreases 3 - Level(n)
  {
    if !n.Pml4? {
      var p := Parent(n);
      assert Over(p, n);
      if p in t.cell && Index(n) < ENTRIES {
        assert forall m :: Over(m, p) ==> Over(m, n);
        ThroughSame(t, t', p, Restrict(At(t, p, Index(n)), tr));
      }
    }
  }

  /** What the entries above table `n` leave of a translation, as far as there are any. */
  ghost function Cut(t: Tree, n: Node, tr: Trans): Trans
    decreases 3 - Level(n)
  {
    if n.Pml4? then tr
    else
      var p, i := Parent(n), Index(n);
      Cut(t, p, if p in t.cell && i < ENTRIES && At(t, p, i).present && !At(t, p, i).huge then Restrict(At(t, p, i), tr) else tr)
  }

  /** An entry for a table that takes no right away. */
  predicate Open(e: Entry) { e.present && !e.huge && e.writable && e.user && !e.noExecute }

  /** Entries for tables have been added where there were none, and those are open. */
  ghost predicate OpenedUp(t: Tree, t': Tree) {
    && (forall n, i :: n in t.cell && n in t'.cell && !n.Pt? && 0 <= i < ENTRIES ==>
          At(t', n, i) == At(t, n, i) || ((!At(t, n, i).present || At(t, n, i).huge) && Open(At(t', n, i))))
    && (forall n, i :: n in t'.cell && n !in t.cell && !n.Pt? && 0 <= i < ENTRIES ==>
          !At(t', n, i).present || At(t', n, i).huge || Open(At(t', n, i)))
  }

  /** Added tables take no right away from what is below them. */
  lemma {:induction false} ThroughOpened(t: Tree, t': Tree, n: Node, tr: Trans)
    requires Wf(t') && Reached(t', n) && OpenedUp(t, t') && forall m :: m in t.cell ==> m in t'.cell
    ensures Through(t', n, tr) == Cut(t, n, tr)
    decreases 3 - Level(n)
  {
    if !n.Pml4? {
      var p, i := Parent(n), Index(n);
      assert LinkedFrom(t', n);
      ThroughOpened(t, t', p, Restrict(At(t', p, i), tr));
    }
  }

  lemma ThroughIsCut(t: Tree, n: Node, tr: Trans)
    requires Wf(t) && Reached(t, n)
    ensures Through(t, n, tr) == Cut(t, n, tr)
  {
    ThroughOpened(t, t, n, tr);
  }

  /** In a user space the tables above take nothing away. */
  lemma {:induction false} ThroughUser(t: Tree, n: Node, tr: Trans)
    requires Wf(t) && Reached(t, n) && n.r != t.kernel
    ensures Through(t, n, tr) == tr
    decreases 3 - Level(n)
  {
    if !n.Pml4? {
      assert LinkedFrom(t, n);
      assert PointsDown(t, Parent(n), Index(n));
      ThroughUser(t, Parent(n), tr);
    }
  }

  // ----- putting a table below an inert entry -----

  /** Table `c` = child `i` of `n`, holding `tb`, is added and linked. */
  ghost function Insert(t: Tree, n: Node, i: nat, f: Frame, tb: Table): Tree
    requires n in t.cell && !n.Pt? && i < ENTRIES
  {
    t.(cell := t.cell[n := t.cell[n].(table := t.cell[n].table[i := DirEntry(f)])]
                     [Child(n, i) := Cell(f, tb, 0, ENTRIES, true)])
  }

  lemma {:induction false} ReachedInsert(t: Tree, n: Node, i: nat, f: Frame, tb: Table, m: Node)
    requires Wf(t) && n in t.cell && !n.Pt? && i < ENTRIES && Child(n, i) !in t.cell && Reached(t, m)
    ensures Reached(Insert(t, n, i, f, tb), m)
    decreases 3 - Level(m)
  {
    if !m.Pml4? {
      ReachedInsert(t, n, i, f, tb, Parent(m));
    }
  }

  lemma InsertElsewhere(t: Tree, n: Node, i: nat, f: Frame, tb: Table, s: Slot)
    requires Wf(t) && n in t.cell && !n.Pt? && InForce(t, n, i) && Child(n, i) !in t.cell
    requires Walkable(t, s) && !(Under(s, n) && IndexIn(s, n) == i)
    ensures Look(Insert(t, n, i, f, tb), s) == Look(t, s)
  {
    LookElsewhere(t, Insert(t, n, i, f, tb), n, i, Pml4(s.r), s);
  }

  lemma InsertBelow(t: Tree, n: Node, i: nat, f: Frame, tb: Table, s: Slot)
    requires Reached(t, n) && Wf(t) && !n.Pt? && i < ENTRIES && Child(n, i) !in t.cell
    requires Wf(Insert(t, n, i, f, tb))
    requires Indexed(s) && Under(s, n) && IndexIn(s, n) == i
    ensures Look(Insert(t, n, i, f, tb), s)
            == Through(t, n, Restrict(DirEntry(f), LookFrom(Insert(t, n, i, f, tb), Child(n, i), s)))
    ensures Look(t, s) == Through(t, n, LookFrom(t, n, s))
  {
    var t' := Insert(t, n, i, f, tb);
    ReachedInsert(t, n, i, f, tb, n);
    LookReaches(t', n, s);
    LookReaches(t, n, s);
    assert Below(Child(n, i), n) && !Over(n, n);
    assert forall m :: Over(m, n) ==> m != Child(n, i);
    ThroughSame(t, t', n, LookFrom(t', n, s));
  }

  /** An empty table in place of a non-present entry translates nothing new. */
  lemma InsertEmpty(t: Tree, n: Node, i: nat, f: Frame, tb: Table, s: Slot)
    requires Wf(t) && Reached(t, n) && !n.Pt? && InForce(t, n, i) && Child(n, i) !in t.cell
    requires !At(t, n, i).present && forall j :: 0 <= j < ENTRIES ==> !tb[j].present
    requires Wf(Insert(t, n, i, f, tb)) && Walkable(t, s)
    ensures Look(Insert(t, n, i, f, tb), s) == Look(t, s)
  {
    if Under(s, n) && IndexIn(s, n) == i {
      InsertBelow(t, n, i, f, tb, s);
    } else {
      InsertElsewhere(t, n, i, f, tb, s);
    }
  }

  /** Entry `j` of the table that replaces the huge page `e` of table `n`. */
  function SubEntry(n: Node, e: Entry, j: nat): Entry {
    Entry(if n.Pdpt? then e.frame / GIB_FRAMES * GIB_FRAMES + j * MIB2_FRAMES
          else e.frame / MIB2_FRAMES * MIB2_FRAMES + j,
          e.present, e.writable, e.user, e.writeThrough, e.cacheDisable,
          n.Pdpt?, false, false, e.noExecute)
  }

  lemma GibParts(base: nat, c: nat)
    ensures (base / GIB_FRAMES * GIB_FRAMES + c * MIB2_FRAMES) / MIB2_FRAMES * MIB2_FRAMES
            == base / GIB_FRAMES * GIB_FRAMES + c * MIB2_FRAMES
  {
    var q := base / GIB_FRAMES;
    assert q * GIB_FRAMES + c * MIB2_FRAMES == (q * 512 + c) * MIB2_FRAMES;
  }

  /** The entries of the new table translate as the huge entry did, and the entry that points to
      it takes no right away. */
  lemma SplitParts(t: Tree, n: Node, i: nat, f: Frame, tb: Table, s: Slot)
    requires n in t.cell && (n.Pdpt? || n.Pd?) && i < ENTRIES && Indexed(s) && IndexIn(s, n) == i && Under(s, n)
    requires At(t, n, i).present && At(t, n, i).huge
    requires forall j :: 0 <= j < ENTRIES ==> tb[j] == SubEntry(n, At(t, n, i), j)
    ensures Restrict(DirEntry(f), LookFrom(Insert(t, n, i, f, tb), Child(n, i), s)) == LookFrom(t, n, s)
  {
    GibParts(At(t, n, i).frame, s.c);
  }

  /** Splitting a huge page leaves every translation as it was. */
  lemma InsertSplit(t: Tree, n: Node, i: nat, f: Frame, tb: Table, s: Slot)
    requires Wf(t) && Reached(t, n) && (n.Pdpt? || n.Pd?) && InForce(t, n, i) && Child(n, i) !in t.cell
    requires At(t, n, i).present && At(t, n, i).huge
    requires forall j :: 0 <= j < ENTRIES ==> tb[j] == SubEntry(n, At(t, n, i), j)
    requires Wf(Insert(t, n, i, f, tb)) && Walkable(t, s)
    ensures Look(Insert(t, n, i, f, tb), s) == Look(t, s)
  {
    if Under(s, n) && IndexIn(s, n) == i {
      hide Wf;
      hide LookFrom;
      hide Through;
      InsertBelow(t, n, i, f, tb, s);
      SplitParts(t, n, i, f, tb, s);
    } else {
      InsertElsewhere(t, n, i, f, tb, s);
    }
  }

  // ----- setting a leaf entry -----

  /** Setting entry `d` of a reached leaf table changes that one translation. */
  lemma PutLook(t: Tree, n: Node, e: Entry, s: Slot, target: Slot)
    requires Wf(t) && n.Pt? && Reached(t, n) && InForce(t, n, target.d) && Walkable(t, s)
    requires PtOf(target) == n && Indexed(target)
    ensures Look(Put(t, n, target.d, e), s) ==
            if s != target then Look(t, s)
            else Through(t, n, if e.present then Translated(e, e.frame) else Fault)
  {
    var t' := Put(t, n, target.d, e);
    if s == target {
      PutInertWf(t, n, target.d, e);
      ReachedPut(t, n, target.d, e, n);
      LookReaches(t', n, s);
      ThroughSame(t, t', n, LookFrom(t', n, s));
    } else {
      LookElsewhere(t, t', n, target.d, Pml4(s.r), s);
    }
  }

  lemma {:induction false} ReachedPut(t: Tree, n: Node, i: nat, e: Entry, m: Node)
    requires n in t.cell && i < ENTRIES && Reached(t, m)
    ensures Reached(Put(t, n, i, e), m)
    decreases 3 - Level(m)
  {
    if !m.Pml4? {
      ReachedPut(t, n, i, e, Parent(m));
    }
  }

  // ----- dropping an empty table -----

  /** Linked table `n` is dropped and its parent's entry cleared. */
  ghost function Prune(t: Tree, n: Node): Tree
    requires !n.Pml4? && Parent(n) in t.cell && Index(n) < ENTRIES
  {
    var p := Parent(n);
    t.(cell := t.cell[p := t.cell[p].(table := t.cell[p].table[Index(n) := ZERO])] - {n})
  }

  lemma {:induction false} ReachedPrune(t: Tree, n: Node, m: Node)
    requires !n.Pml4? && Parent(n) in t.cell && Index(n) < ENTRIES && Reached(t, m) && !Below(m, n)
    ensures Reached(Prune(t, n), m)
    decreases 3 - Level(m)
  {
    if !m.Pml4? {
      ReachedPrune(t, n, Parent(m));
    }
  }

  /** An empty table translated nothing, so nothing is lost with it. */
  lemma PruneLook(t: Tree, n: Node, s: Slot)
    requires Wf(t) && !n.Pml4? && Reached(t, n) && Walkable(t, s)
    requires forall i :: 0 <= i < ENTRIES ==> !At(t, n, i).present
    ensures Parent(n) in t.cell && Index(n) < ENTRIES && InForce(t, Parent(n), Index(n))
    ensures Wf(Prune(t, n)) ==> Look(Prune(t, n), s) == Look(t, s)
  {
    assert LinkedFrom(t, n);
    var p := Parent(n);
    var t' := Prune(t, n);
    if Wf(t') {
      if Under(s, n) {
        LookReaches(t, n, s);
        ThroughFault(t, n);
        ReachedPrune(t, n, p);
        LookReaches(t', p, s);
        ThroughFault(t', p);
      } else {
        PruneElsewhere(t, n, Pml4(s.r), s);
      }
    }
  }

  lemma {:induction false} PruneElsewhere(t: Tree, n: Node, m: Node, s: Slot)
    requires Wf(t) && !n.Pml4? && Parent(n) in t.cell && Index(n) < ENTRIES
    requires Indexed(s) && Under(s, m) && !Under(s, n) && InForce(t, m, IndexIn(s, m))
    ensures LookFrom(Prune(t, n), m, s) == LookFrom(t, m, s)
    decreases Level(m)
  {
    if !m.Pt? {
      var j := IndexIn(s, m);
      assert PointsDown(t, m, j);
      if At(t, m, j).present && !At(t, m, j).huge {
        PruneElsewhere(t, n, Child(m, j), s);
      }
    }
  }
}

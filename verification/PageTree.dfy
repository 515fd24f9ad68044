/** Page-table trees as values: which tables exist, in which frames, what they hold and
    which of their entries are in force while a table is being built or torn down. */
module PageTree {
  import opened PageEntry

  /** Entries `lo..hi` of the table are in force; a table that is not `linked` has no
      entry of its parent pointing at it (yet, or any more). */
  datatype Cell = Cell(frame: Frame, table: Table, lo: nat, hi: nat, linked: bool)

  /** All tables of all address spaces; `kernel` is the kernel's root. */
  datatype Tree = Tree(kernel: Frame, cell: map<Node, Cell>)

  /** User roots own their lower half; the upper half belongs to the kernel root. */
  ghost predicate Owns(t: Tree, n: Node, i: nat) {
    n.Pml4? && n.r != t.kernel ==> i < USER_ENTRIES
  }

  ghost predicate InForce(t: Tree, n: Node, i: nat) {
    n in t.cell && t.cell[n].lo <= i < t.cell[n].hi && i < ENTRIES && Owns(t, n, i)
  }

  ghost function At(t: Tree, n: Node, i: nat): Entry
    requires n in t.cell && i < ENTRIES
  {
    t.cell[n].table[i]
  }

  // ----- the invariant -----

  ghost predicate IndexOk(t: Tree, n: Node) {
    !n.Pml4? ==>
      && n.a < ENTRIES && (n.r != t.kernel ==> n.a < USER_ENTRIES)
      && (n.Pd? || n.Pt? ==> n.b < ENTRIES) && (n.Pt? ==> n.c < ENTRIES)
  }

  ghost predicate CellOk(t: Tree, n: Node)
    requires n in t.cell
  {
    && IndexOk(t, n) && (n.Pml4? ==> t.cell[n].frame == n.r && !t.cell[n].linked)
    && t.cell[n].lo <= t.cell[n].hi <= ENTRIES
  }

  ghost predicate LinkedFrom(t: Tree, n: Node)
    requires n in t.cell && !n.Pml4?
  {
    && InForce(t, Parent(n), Index(n))
    && var e := At(t, Parent(n), Index(n)); e.present && !e.huge && e.frame == t.cell[n].frame
  }

  ghost predicate PointsDown(t: Tree, n: Node, i: nat)
    requires n in t.cell && !n.Pt? && i < ENTRIES
  {
    var e := At(t, n, i);
    e.present ==>
      if e.huge then n.r == t.kernel && !n.Pml4?
      else
        && Child(n, i) in t.cell && t.cell[Child(n, i)].linked && t.cell[Child(n, i)].frame == e.frame
        && t.cell[Child(n, i)].lo == 0 && t.cell[Child(n, i)].hi == ENTRIES
        && (n.r != t.kernel ==> e == DirEntry(e.frame))
  }

  ghost predicate Linked(t: Tree) {
    forall n :: n in t.cell && !n.Pml4? && t.cell[n].linked ==> LinkedFrom(t, n)
  }

  ghost predicate Closed(t: Tree) {
    forall n, i :: InForce(t, n, i) && !n.Pt? ==> PointsDown(t, n, i)
  }

  ghost predicate Wf(t: Tree) {
    (forall n :: n in t.cell ==> CellOk(t, n)) && Linked(t) && Closed(t)
  }

  /** Slot `s` is a present 4 KiB page of a user space. */
  ghost predicate IsLeaf(t: Tree, s: Slot) {
    s.r != t.kernel && InForce(t, PtOf(s), s.d) && At(t, PtOf(s), s.d).present
  }

  ghost predicate Leaves(t: Tree, leaf: map<Slot, Entry>) {
    && (forall s :: s in leaf ==> IsLeaf(t, s) && leaf[s] == At(t, PtOf(s), s.d))
    && (forall s :: IsLeaf(t, s) ==> s in leaf)
  }

  // ----- steps -----

  /** An entry that stands for no table and for no user page. */
  ghost predicate Inert(t: Tree, n: Node, i: nat)
    requires n in t.cell && i < ENTRIES
  {
    || !Owns(t, n, i)
    || !At(t, n, i).present
    || (n.r == t.kernel && (n.Pt? || (At(t, n, i).huge && !n.Pml4?)))
  }

  /** A new table, nothing in it in force yet. */
  ghost function Add(t: Tree, n: Node, f: Frame, tb: Table): Tree {
    t.(cell := t.cell[n := Cell(f, tb, 0, 0, false)])
  }

  lemma AddWf(t: Tree, n: Node, f: Frame, tb: Table)
    requires Wf(t) && n !in t.cell && IndexOk(t, n) && (n.Pml4? ==> n.r == f)
    ensures Wf(Add(t, n, f, tb))
  {
    var t' := Add(t, n, f, tb);
    forall m, i | InForce(t', m, i) && !m.Pt?
      ensures PointsDown(t', m, i)
    {
      assert InForce(t, m, i);
      assert PointsDown(t, m, i);
    }
    forall m | m in t'.cell && !m.Pml4? && t'.cell[m].linked
      ensures LinkedFrom(t', m)
    {
      assert LinkedFrom(t, m);
    }
  }

  lemma AddLeaves(t: Tree, n: Node, f: Frame, tb: Table, leaf: map<Slot, Entry>)
    requires Leaves(t, leaf) && n !in t.cell
    ensures Leaves(Add(t, n, f, tb), leaf)
  {
    var t' := Add(t, n, f, tb);
    forall s
      ensures IsLeaf(t', s) <==> IsLeaf(t, s)
    {
    }
  }

  ghost function Put(t: Tree, n: Node, i: nat, e: Entry): Tree
    requires n in t.cell && i < ENTRIES
  {
    t.(cell := t.cell[n := t.cell[n].(table := t.cell[n].table[i := e])])
  }

  /** Writing an entry that is not in force, or an inert one, with another inert one. */
  lemma PutInertWf(t: Tree, n: Node, i: nat, e: Entry)
    requires Wf(t) && n in t.cell && i < ENTRIES
    requires !InForce(t, n, i) || n.Pt?
    ensures Wf(Put(t, n, i, e))
  {
    var t' := Put(t, n, i, e);
    forall m, j | InForce(t', m, j) && !m.Pt?
      ensures PointsDown(t', m, j)
    {
      assert InForce(t, m, j);
      assert PointsDown(t, m, j);
    }
    forall m | m in t'.cell && !m.Pml4? && t'.cell[m].linked
      ensures LinkedFrom(t', m)
    {
      assert LinkedFrom(t, m);
    }
  }

  lemma PutInertLeaves(t: Tree, n: Node, i: nat, e: Entry, leaf: map<Slot, Entry>)
    requires Leaves(t, leaf) && n in t.cell && i < ENTRIES
    requires !InForce(t, n, i) || !n.Pt? || n.r == t.kernel
    ensures Leaves(Put(t, n, i, e), leaf)
  {
    var t' := Put(t, n, i, e);
    forall s
      ensures IsLeaf(t', s) <==> IsLeaf(t, s)
      ensures IsLeaf(t, s) ==> At(t', PtOf(s), s.d) == At(t, PtOf(s), s.d)
    {
    }
  }

  /** Writing a user page entry that is in force. */
  ghost function LeafPut(leaf: map<Slot, Entry>, s: Slot, e: Entry): map<Slot, Entry> {
    if e.present then leaf[s := e] else leaf - {s}
  }

  lemma PutLeaves(t: Tree, n: Node, i: nat, e: Entry, leaf: map<Slot, Entry>)
    requires Leaves(t, leaf) && n.Pt? && n.r != t.kernel && InForce(t, n, i)
    ensures Leaves(Put(t, n, i, e), LeafPut(leaf, SlotAt(n, i), e))
  {
    var t' := Put(t, n, i, e);
    forall s
      ensures IsLeaf(t', s) <==> if s == SlotAt(n, i) then e.present else IsLeaf(t, s)
      ensures IsLeaf(t', s) ==> At(t', PtOf(s), s.d) == if s == SlotAt(n, i) then e else At(t, PtOf(s), s.d)
    {
    }
  }

  /** One more entry comes into force. */
  ghost function Extend(t: Tree, n: Node): Tree
    requires n in t.cell
  {
    t.(cell := t.cell[n := t.cell[n].(hi := t.cell[n].hi + 1)])
  }

  /** The first entry in force stops being so. */
  ghost function Advance(t: Tree, n: Node): Tree
    requires n in t.cell
  {
    t.(cell := t.cell[n := t.cell[n].(lo := t.cell[n].lo + 1)])
  }

  ghost predicate Loose(t: Tree, n: Node) {
    n in t.cell && !t.cell[n].linked
  }

  lemma ExtendWf(t: Tree, n: Node)
    requires Wf(t) && Loose(t, n) && t.cell[n].hi < ENTRIES && (n.Pt? || Inert(t, n, t.cell[n].hi))
    ensures Wf(Extend(t, n))
  {
    var t' := Extend(t, n);
    forall m, j | InForce(t', m, j) && !m.Pt?
      ensures PointsDown(t', m, j)
    {
      if !(m == n && j == t.cell[n].hi) {
        assert InForce(t, m, j);
        assert PointsDown(t, m, j);
      }
    }
    forall m | m in t'.cell && !m.Pml4? && t'.cell[m].linked
      ensures LinkedFrom(t', m)
    {
      assert LinkedFrom(t, m);
    }
  }

  lemma ExtendLeaves(t: Tree, n: Node, leaf: map<Slot, Entry>)
    requires Leaves(t, leaf) && n in t.cell && t.cell[n].lo <= t.cell[n].hi < ENTRIES
    ensures var i := t.cell[n].hi;
            Leaves(Extend(t, n), if n.Pt? && !Inert(t, n, i) then leaf[SlotAt(n, i) := At(t, n, i)] else leaf)
  {
    var t' := Extend(t, n);
    forall s
      ensures IsLeaf(t', s) <==>
              if n.Pt? && s == SlotAt(n, t.cell[n].hi) then !Inert(t, n, t.cell[n].hi) else IsLeaf(t, s)
    {
    }
  }

  lemma AdvanceWf(t: Tree, n: Node)
    requires Wf(t) && Loose(t, n) && t.cell[n].lo < t.cell[n].hi && (n.Pt? || Inert(t, n, t.cell[n].lo))
    ensures Wf(Advance(t, n))
  {
    var t' := Advance(t, n);
    forall m, j | InForce(t', m, j) && !m.Pt?
      ensures PointsDown(t', m, j)
    {
      assert InForce(t, m, j);
      assert PointsDown(t, m, j);
    }
    forall m | m in t'.cell && !m.Pml4? && t'.cell[m].linked
      ensures LinkedFrom(t', m)
    {
      assert LinkedFrom(t, m);
    }
  }

  lemma AdvanceLeaves(t: Tree, n: Node, leaf: map<Slot, Entry>)
    requires Leaves(t, leaf) && n in t.cell && t.cell[n].lo < t.cell[n].hi <= ENTRIES
    ensures Leaves(Advance(t, n), if n.Pt? then leaf - {SlotAt(n, t.cell[n].lo)} else leaf)
  {
    var t' := Advance(t, n);
    forall s
      ensures IsLeaf(t', s) <==> IsLeaf(t, s) && !(n.Pt? && s == SlotAt(n, t.cell[n].lo))
    {
    }
  }

  /** Linking the finished table below entry `i` of `n`, in place of an inert entry. */
  ghost function Link(t: Tree, n: Node, i: nat): Tree
    requires n in t.cell && !n.Pt? && i < ENTRIES && Child(n, i) in t.cell
  {
    var c := Child(n, i);
    t.(cell := t.cell[n := t.cell[n].(table := t.cell[n].table[i := DirEntry(t.cell[c].frame)])]
                     [c := t.cell[c].(linked := true)])
  }

  ghost predicate Finished(t: Tree, n: Node) {
    Loose(t, n) && t.cell[n].lo == 0 && t.cell[n].hi == ENTRIES
  }

  lemma LinkWf(t: Tree, n: Node, i: nat)
    requires Wf(t) && !n.Pt? && InForce(t, n, i) && Inert(t, n, i) && Finished(t, Child(n, i))
    ensures Wf(Link(t, n, i))
  {
    LinkClosed(t, n, i);
    var t' := Link(t, n, i);
    forall m | m in t'.cell && !m.Pml4? && t'.cell[m].linked
      ensures LinkedFrom(t', m)
    {
      if m != Child(n, i) {
        assert LinkedFrom(t, m);
        assert Parent(m) == n ==> Index(m) != i;
      }
    }
  }

  lemma LinkClosed(t: Tree, n: Node, i: nat)
    requires Wf(t) && !n.Pt? && InForce(t, n, i) && Inert(t, n, i) && Finished(t, Child(n, i))
    ensures Closed(Link(t, n, i))
  {
    var t' := Link(t, n, i);
    forall m, j | InForce(t', m, j) && !m.Pt?
      ensures PointsDown(t', m, j)
    {
      assert InForce(t, m, j);
      assert PointsDown(t, m, j);
    }
  }

  lemma LinkLeaves(t: Tree, n: Node, i: nat, leaf: map<Slot, Entry>)
    requires Leaves(t, leaf) && n in t.cell && !n.Pt? && i < ENTRIES && Child(n, i) in t.cell
    ensures Leaves(Link(t, n, i), leaf)
  {
    var t' := Link(t, n, i);
    forall s
      ensures IsLeaf(t', s) <==> IsLeaf(t, s)
      ensures IsLeaf(t, s) ==> At(t', PtOf(s), s.d) == At(t, PtOf(s), s.d)
    {
    }
  }

  /** Tear-down moves past the first entry in force, cutting loose the table below it. */
  ghost function Pass(t: Tree, n: Node): Tree
    requires n in t.cell && !n.Pt? && Child(n, t.cell[n].lo) in t.cell
  {
    var c := Child(n, t.cell[n].lo);
    t.(cell := t.cell[n := t.cell[n].(lo := t.cell[n].lo + 1)][c := t.cell[c].(linked := false)])
  }

  lemma PassWf(t: Tree, n: Node)
    requires Wf(t) && Loose(t, n) && !n.Pt? && InForce(t, n, t.cell[n].lo) && !Inert(t, n, t.cell[n].lo)
    ensures Child(n, t.cell[n].lo) in t.cell && t.cell[Child(n, t.cell[n].lo)].frame == At(t, n, t.cell[n].lo).frame
    ensures Wf(Pass(t, n)) && Finished(Pass(t, n), Child(n, t.cell[n].lo))
  {
    assert PointsDown(t, n, t.cell[n].lo);
    PassClosed(t, n);
    var t' := Pass(t, n);
    forall m | m in t'.cell && !m.Pml4? && t'.cell[m].linked
      ensures LinkedFrom(t', m)
    {
      assert LinkedFrom(t, m);
    }
  }

  lemma PassClosed(t: Tree, n: Node)
    requires Wf(t) && Loose(t, n) && !n.Pt? && InForce(t, n, t.cell[n].lo) && Child(n, t.cell[n].lo) in t.cell
    ensures Closed(Pass(t, n))
  {
    var t' := Pass(t, n);
    forall m, j | InForce(t', m, j) && !m.Pt?
      ensures PointsDown(t', m, j)
    {
      assert InForce(t, m, j);
      assert PointsDown(t, m, j);
    }
  }

  lemma PassLeaves(t: Tree, n: Node, leaf: map<Slot, Entry>)
    requires Leaves(t, leaf) && n in t.cell && !n.Pt? && Child(n, t.cell[n].lo) in t.cell
    ensures Leaves(Pass(t, n), leaf)
  {
    var t' := Pass(t, n);
    forall s
      ensures IsLeaf(t', s) <==> IsLeaf(t, s)
      ensures IsLeaf(t, s) ==> At(t', PtOf(s), s.d) == At(t, PtOf(s), s.d)
    {
    }
  }

  /** Clearing the parent's entry for a linked table. */
  ghost function Unlink(t: Tree, c: Node): Tree
    requires c in t.cell && !c.Pml4? && Parent(c) in t.cell && Index(c) < ENTRIES
  {
    var n := Parent(c);
    t.(cell := t.cell[n := t.cell[n].(table := t.cell[n].table[Index(c) := ZERO])]
                     [c := t.cell[c].(linked := false)])
  }

  lemma UnlinkWf(t: Tree, c: Node)
    requires Wf(t) && c in t.cell && !c.Pml4? && t.cell[c].linked
    ensures Parent(c) in t.cell && Index(c) < ENTRIES && Wf(Unlink(t, c)) && Finished(Unlink(t, c), c)
  {
    assert LinkedFrom(t, c);
    var n := Parent(c);
    assert PointsDown(t, n, Index(c));
    UnlinkClosed(t, c);
    var t' := Unlink(t, c);
    forall m | m in t'.cell && !m.Pml4? && t'.cell[m].linked
      ensures LinkedFrom(t', m)
    {
      assert LinkedFrom(t, m);
    }
  }

  lemma UnlinkClosed(t: Tree, c: Node)
    requires Wf(t) && c in t.cell && !c.Pml4? && t.cell[c].linked
    requires Parent(c) in t.cell && Index(c) < ENTRIES
    ensures Closed(Unlink(t, c))
  {
    var t' := Unlink(t, c);
    forall m, j | InForce(t', m, j) && !m.Pt?
      ensures PointsDown(t', m, j)
    {
      assert InForce(t, m, j);
      assert PointsDown(t, m, j);
    }
  }

  lemma UnlinkLeaves(t: Tree, c: Node, leaf: map<Slot, Entry>)
    requires Leaves(t, leaf) && c in t.cell && !c.Pml4? && Parent(c) in t.cell && Index(c) < ENTRIES
    ensures Leaves(Unlink(t, c), leaf)
  {
    var t' := Unlink(t, c);
    forall s
      ensures IsLeaf(t', s) <==> IsLeaf(t, s)
      ensures IsLeaf(t, s) ==> At(t', PtOf(s), s.d) == At(t, PtOf(s), s.d)
    {
    }
  }

  /** Dropping a loose table with nothing left in force. */
  ghost function Remove(t: Tree, n: Node): Tree {
    t.(cell := t.cell - {n})
  }

  ghost predicate Spent(t: Tree, n: Node) {
    Loose(t, n) && forall i :: 0 <= i < ENTRIES ==> !InForce(t, n, i)
  }

  lemma RemoveWf(t: Tree, n: Node)
    requires Wf(t) && Spent(t, n)
    ensures Wf(Remove(t, n))
  {
    var t' := Remove(t, n);
    forall m, j | InForce(t', m, j) && !m.Pt?
      ensures PointsDown(t', m, j)
    {
      assert InForce(t, m, j);
      assert PointsDown(t, m, j);
    }
    forall m | m in t'.cell && !m.Pml4? && t'.cell[m].linked
      ensures LinkedFrom(t', m)
    {
      assert LinkedFrom(t, m);
    }
  }

  lemma RemoveLeaves(t: Tree, n: Node, leaf: map<Slot, Entry>)
    requires Leaves(t, leaf) && Spent(t, n)
    ensures Leaves(Remove(t, n), leaf)
  {
    var t' := Remove(t, n);
    forall s
      ensures IsLeaf(t', s) <==> IsLeaf(t, s)
    {
    }
  }

  lemma AdvanceInertLeaves(t: Tree, n: Node, leaf: map<Slot, Entry>)
    requires Leaves(t, leaf) && n in t.cell && t.cell[n].lo < t.cell[n].hi <= ENTRIES
    requires Inert(t, n, t.cell[n].lo)
    ensures Leaves(Advance(t, n), leaf)
  {
    AdvanceLeaves(t, n, leaf);
    if n.Pt? {
      var s := SlotAt(n, t.cell[n].lo);
      assert !IsLeaf(t, s);
      assert leaf - {s} == leaf;
    }
  }

  /** A table of inert entries comes into force as a whole. */
  ghost function Activate(t: Tree, n: Node): Tree
    requires n in t.cell
  {
    t.(cell := t.cell[n := t.cell[n].(lo := 0, hi := ENTRIES)])
  }

  lemma ActivateWf(t: Tree, n: Node)
    requires Wf(t) && Loose(t, n) && t.cell[n].hi == 0
    requires forall i :: 0 <= i < ENTRIES ==> Inert(t, n, i)
    ensures Wf(Activate(t, n)) && Finished(Activate(t, n), n)
  {
    var t' := Activate(t, n);
    forall m, j | InForce(t', m, j) && !m.Pt?
      ensures PointsDown(t', m, j)
    {
      if m != n {
        assert InForce(t, m, j);
        assert PointsDown(t, m, j);
      } else {
        assert Inert(t, n, j);
      }
    }
    forall m | m in t'.cell && !m.Pml4? && t'.cell[m].linked
      ensures LinkedFrom(t', m)
    {
      assert LinkedFrom(t, m);
    }
  }

  lemma ActivateLeaves(t: Tree, n: Node, leaf: map<Slot, Entry>)
    requires Leaves(t, leaf) && n in t.cell && t.cell[n].hi == 0
    requires forall i :: 0 <= i < ENTRIES ==> Inert(t, n, i)
    ensures Leaves(Activate(t, n), leaf)
  {
    var t' := Activate(t, n);
    forall s
      ensures IsLeaf(t', s) <==> IsLeaf(t, s)
    {
      if PtOf(s) == n && s.d < ENTRIES {
        assert Inert(t, n, s.d);
      }
    }
  }

  lemma ActivateCells(t: Tree, n: Node)
    requires n in t.cell
    ensures SameCells(t, Activate(t, n))
  {
  }

  /** A user root whose own half is in force is complete: the rest is the kernel's. */
  ghost function Complete(t: Tree, n: Node): Tree
    requires n in t.cell
  {
    t.(cell := t.cell[n := t.cell[n].(hi := ENTRIES)])
  }

  lemma CompleteWf(t: Tree, n: Node, leaf: map<Slot, Entry>)
    requires Wf(t) && Leaves(t, leaf) && n in t.cell && n.Pml4? && n.r != t.kernel && t.cell[n].hi == USER_ENTRIES
    ensures Wf(Complete(t, n)) && Leaves(Complete(t, n), leaf)
  {
    var t' := Complete(t, n);
    forall m, i
      ensures InForce(t', m, i) <==> InForce(t, m, i)
    {
    }
    CompleteClosed(t, n);
    forall s
      ensures IsLeaf(t', s) <==> IsLeaf(t, s)
    {
    }
  }

  lemma CompleteClosed(t: Tree, n: Node)
    requires Wf(t) && n in t.cell && n.Pml4? && n.r != t.kernel && t.cell[n].hi == USER_ENTRIES
    ensures Wf(Complete(t, n))
  {
    var t' := Complete(t, n);
    forall m, j | InForce(t', m, j) && !m.Pt?
      ensures PointsDown(t', m, j)
    {
      assert InForce(t, m, j);
      assert PointsDown(t, m, j);
    }
    forall m | m in t'.cell && !m.Pml4? && t'.cell[m].linked
      ensures LinkedFrom(t', m)
    {
      assert LinkedFrom(t, m);
    }
  }

  lemma CompleteCells(t: Tree, n: Node)
    requires n in t.cell
    ensures SameCells(t, Complete(t, n))
  {
  }

  /** A loose table of inert entries goes out of force as a whole. */
  ghost function Deactivate(t: Tree, n: Node): Tree
    requires n in t.cell
  {
    t.(cell := t.cell[n := t.cell[n].(lo := ENTRIES, hi := ENTRIES)])
  }

  lemma DeactivateWf(t: Tree, n: Node)
    requires Wf(t) && Loose(t, n) && forall i :: 0 <= i < ENTRIES ==> !At(t, n, i).present
    ensures Wf(Deactivate(t, n)) && Spent(Deactivate(t, n), n)
  {
    var t' := Deactivate(t, n);
    forall m, j | InForce(t', m, j) && !m.Pt?
      ensures PointsDown(t', m, j)
    {
      assert InForce(t, m, j);
      assert PointsDown(t, m, j);
    }
    forall m | m in t'.cell && !m.Pml4? && t'.cell[m].linked
      ensures LinkedFrom(t', m)
    {
      assert LinkedFrom(t, m);
    }
  }

  lemma DeactivateLeaves(t: Tree, n: Node, leaf: map<Slot, Entry>)
    requires Leaves(t, leaf) && n in t.cell && forall i :: 0 <= i < ENTRIES ==> !At(t, n, i).present
    ensures Leaves(Deactivate(t, n), leaf)
  {
    var t' := Deactivate(t, n);
    forall s
      ensures IsLeaf(t', s) <==> IsLeaf(t, s)
    {
    }
  }

  lemma DeactivateCells(t: Tree, n: Node)
    requires n in t.cell
    ensures SameCells(t, Deactivate(t, n))
  {
  }

  /** Entry `i` of the leaf table `dn` under construction is written but not in force. */
  ghost predicate NextEntry(t: Tree, dn: Node, i: nat, e: Entry) {
    dn.Pt? && Loose(t, dn) && t.cell[dn].lo <= t.cell[dn].hi == i < ENTRIES && At(t, dn, i) == e
  }

  lemma ShareWf(t: Tree, sn: Node, dn: Node, i: nat)
    requires Wf(t) && InForce(t, sn, i) && sn.Pt? && dn != sn
    requires NextEntry(t, dn, i, CowMark(At(t, sn, i)))
    ensures Wf(Extend(Put(t, sn, i, CowMark(At(t, sn, i))), dn))
  {
    PutInertWf(t, sn, i, CowMark(At(t, sn, i)));
    ExtendWf(Put(t, sn, i, CowMark(At(t, sn, i))), dn);
  }

  lemma ShareLeaves(t: Tree, sn: Node, dn: Node, i: nat, leaf: map<Slot, Entry>)
    requires Leaves(t, leaf) && InForce(t, sn, i) && sn.Pt? && dn != sn
    requires sn.r != t.kernel && dn.r != t.kernel && At(t, sn, i).present
    requires NextEntry(t, dn, i, CowMark(At(t, sn, i)))
    ensures var e := CowMark(At(t, sn, i));
            Leaves(Extend(Put(t, sn, i, e), dn), leaf[SlotAt(sn, i) := e][SlotAt(dn, i) := e])
  {
    var e := CowMark(At(t, sn, i));
    PutLeaves(t, sn, i, e, leaf);
    ExtendLeaves(Put(t, sn, i, e), dn, leaf[SlotAt(sn, i) := e]);
  }

  // ----- what stays in memory -----

  /** The same tables in the same frames, whatever is in force. */
  ghost predicate SameCells(t: Tree, t': Tree) {
    && t'.kernel == t.kernel && t'.cell.Keys == t.cell.Keys
    && forall n :: n in t.cell ==>
         t'.cell[n].frame == t.cell[n].frame && t'.cell[n].table == t.cell[n].table
  }

  lemma ExtendCells(t: Tree, n: Node)
    requires n in t.cell
    ensures SameCells(t, Extend(t, n))
  {
  }

  lemma AdvanceCells(t: Tree, n: Node)
    requires n in t.cell
    ensures SameCells(t, Advance(t, n))
  {
  }

  lemma PassCells(t: Tree, n: Node)
    requires n in t.cell && !n.Pt? && Child(n, t.cell[n].lo) in t.cell
    ensures SameCells(t, Pass(t, n))
  {
  }

  lemma LinkCells(t: Tree, n: Node, i: nat)
    requires n in t.cell && !n.Pt? && i < ENTRIES && Child(n, i) in t.cell
    ensures SameCells(Put(t, n, i, DirEntry(t.cell[Child(n, i)].frame)), Link(t, n, i))
  {
  }

  lemma UnlinkCells(t: Tree, c: Node)
    requires c in t.cell && !c.Pml4? && Parent(c) in t.cell && Index(c) < ENTRIES
    ensures SameCells(Put(t, Parent(c), Index(c), ZERO), Unlink(t, c))
  {
  }
}

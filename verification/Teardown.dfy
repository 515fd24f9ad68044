/** What remains after part of a subtree of tables has been torn down. */
module Teardown {
  import opened PageEntry
  import opened PageTree
  import opened Vm
  import Pmm
  import Cow

  /** The entry of table `n` below which table `m` hangs. */
  ghost function DownIndex(m: Node, n: Node): nat
    requires Below(m, n) && m != n
  {
    match n
    case Pml4(_) => m.a
    case Pdpt(_, _) => m.b
    case Pd(_, _, _) => m.c
  }

  lemma DownChild(m: Node, n: Node)
    requires Below(m, n) && m != n
    ensures !n.Pt? && Below(m, Child(n, DownIndex(m, n)))
    ensures forall i :: Below(m, Child(n, i)) ==> i == DownIndex(m, n)
  {
  }

  /** Every table below `n` hangs from it. */
  ghost predicate Hanging(t: Tree, n: Node) {
    forall m :: m in t.cell && Below(m, n) && m != n ==> t.cell[m].linked
  }

  lemma {:induction false} NoneBelow(t: Tree, n: Node, c: Node, m: Node)
    requires Wf(t) && Hanging(t, n) && Below(c, n) && c != n && c !in t.cell && m in t.cell
    ensures !Below(m, c)
    decreases Level(c) - Level(m)
  {
    if Below(m, c) {
      assert Below(m, n) && m != n;
      assert LinkedFrom(t, m);
      NoneBelow(t, n, c, Parent(m));
    }
  }

  /** Gone: tables below the first `i` entries of `n`, and the pages they mapped. */
  ghost predicate Gone(m: Node, n: Node, i: nat) {
    Below(m, n) && m != n && DownIndex(m, n) < i
  }

  ghost predicate PageGone(s: Slot, n: Node, i: nat) {
    Under(s, n) && IndexIn(s, n) < i
  }

  ghost predicate TablesDrained(t: Tree, t': Tree, n: Node, i: nat) {
    && t'.kernel == t.kernel && n in t.cell && n in t'.cell && t'.cell[n] == t.cell[n].(lo := i)
    && (forall m :: m != n ==> (m in t'.cell <==> m in t.cell && !Gone(m, n, i)))
    && (forall m :: m in t'.cell && m != n ==> t'.cell[m] == t.cell[m])
  }

  ghost predicate PagesDrained(leaf: map<Slot, Entry>, leaf': map<Slot, Entry>, n: Node, i: nat) {
    && (forall s :: s in leaf' <==> s in leaf && !PageGone(s, n, i))
    && (forall s :: s in leaf' ==> leaf'[s] == leaf[s])
  }

  ghost predicate Drained(v: State, v': State, n: Node, i: nat) {
    && TablesDrained(v.tree, v'.tree, n, i) && PagesDrained(v.leaf, v'.leaf, n, i)
    && v'.data == v.data
  }

  /** A whole subtree is gone, with all it mapped. */
  ghost predicate TablesTorn(t: Tree, t': Tree, n: Node) {
    && t'.kernel == t.kernel
    && (forall m :: m in t'.cell <==> m in t.cell && !Below(m, n))
    && (forall m :: m in t'.cell ==> t'.cell[m] == t.cell[m])
  }

  ghost predicate PagesTorn(leaf: map<Slot, Entry>, leaf': map<Slot, Entry>, n: Node) {
    && (forall s :: s in leaf' <==> s in leaf && !Under(s, n))
    && (forall s :: s in leaf' ==> leaf'[s] == leaf[s])
  }

  ghost predicate Torn(v: State, v': State, n: Node) {
    && TablesTorn(v.tree, v'.tree, n) && PagesTorn(v.leaf, v'.leaf, n)
    && v'.data == v.data
  }

  /** No reference changed hands outside the tables, and no frame was lost. */
  ghost predicate NothingLost(v: State, v': State) {
    v'.held == v.held && v'.other == v.other
  }

  lemma DrainedStart(v: State, n: Node)
    requires n in v.tree.cell && v.tree.cell[n].lo == 0
    ensures Drained(v, v, n, 0)
  {
  }

  lemma HangingKept(t: Tree, t': Tree, n: Node, i: nat)
    requires Hanging(t, n) && TablesDrained(t, t', n, i)
    ensures Hanging(t', n)
  {
  }

  // ----- one entry further -----

  lemma DrainInertTables(t: Tree, t1: Tree, n: Node, i: nat)
    requires Wf(t1) && Hanging(t1, n) && TablesDrained(t, t1, n, i) && i < ENTRIES
    requires n.Pt? || Child(n, i) !in t1.cell
    ensures TablesDrained(t, Advance(t1, n), n, i + 1)
  {
    forall m | m in t1.cell && m != n
      ensures !Gone(m, n, i + 1)
    {
      if Gone(m, n, i + 1) {
        DownChild(m, n);
        NoneBelow(t1, n, Child(n, i), m);
      }
    }
  }

  lemma DrainInertPages(t: Tree, leaf: map<Slot, Entry>, leaf1: map<Slot, Entry>, n: Node, i: nat)
    requires Wf(t) && Leaves(t, leaf1) && Hanging(t, n) && n in t.cell && i < ENTRIES && t.cell[n].lo == i
    requires PagesDrained(leaf, leaf1, n, i)
    requires if n.Pt? then !At(t, n, i).present else Child(n, i) !in t.cell
    ensures PagesDrained(leaf, leaf1, n, i + 1)
  {
    forall s | s in leaf1
      ensures !PageGone(s, n, i + 1)
    {
      if PageGone(s, n, i + 1) {
        assert IsLeaf(t, s);
        if !n.Pt? {
          NoneBelow(t, n, Child(n, i), PtOf(s));
        }
      }
    }
  }

  /** An entry with no table or page behind it is passed over. */
  lemma DrainInert(v: State, v1: State, n: Node, i: nat)
    requires Inv(v1) && Hanging(v1.tree, n) && Drained(v, v1, n, i) && i < ENTRIES
    requires if n.Pt? then !At(v1.tree, n, i).present else Child(n, i) !in v1.tree.cell
    ensures Drained(v, PassInert(v1, n), n, i + 1)
  {
    DrainInertTables(v.tree, v1.tree, n, i);
    DrainInertPages(v1.tree, v.leaf, v1.leaf, n, i);
  }

  /** A page entry is given back. */
  lemma DrainPage(v: State, v1: State, v2: State, n: Node, i: nat)
    requires Drained(v, v1, n, i) && i < ENTRIES && n.Pt?
    requires v2.tree == Advance(v1.tree, n) && v2.leaf == v1.leaf - {SlotAt(n, i)}
    requires v2.data == v1.data
    ensures Drained(v, v2, n, i + 1)
  {
  }

  /** The table below entry `i` has been cut loose and torn down. */
  lemma DrainTable(v: State, v1: State, v2: State, v3: State, n: Node, i: nat)
    requires Drained(v, v1, n, i) && i < ENTRIES && !n.Pt? && Child(n, i) in v1.tree.cell
    requires v1.tree.cell[n].lo == i
    requires v2 == PassChild(v1, n) && Torn(v2, v3, Child(n, i))
    ensures Drained(v, v3, n, i + 1)
  {
    DrainTables(v.tree, v1.tree, v3.tree, n, i);
    forall s
      ensures PageGone(s, n, i + 1) <==> PageGone(s, n, i) || Under(s, Child(n, i))
    {
    }
  }

  lemma DrainTables(t: Tree, t1: Tree, t3: Tree, n: Node, i: nat)
    requires TablesDrained(t, t1, n, i) && i < ENTRIES && !n.Pt? && Child(n, i) in t1.cell && t1.cell[n].lo == i
    requires TablesTorn(Pass(t1, n), t3, Child(n, i))
    ensures TablesDrained(t, t3, n, i + 1)
  {
    var c := Child(n, i);
    forall m | m != n
      ensures Gone(m, n, i + 1) <==> Gone(m, n, i) || Below(m, c)
    {
      if Below(m, n) {
        DownChild(m, n);
      }
    }
  }

  /** What hangs below `n` hangs from an entry in force. */
  lemma {:induction false} HangsInForce(t: Tree, n: Node, m: Node)
    requires Wf(t) && Hanging(t, n) && m in t.cell && Below(m, n) && m != n
    ensures InForce(t, n, DownIndex(m, n))
    decreases 3 - Level(m)
  {
    assert LinkedFrom(t, m);
    if Parent(m) != n {
      HangsInForce(t, n, Parent(m));
    }
  }

  lemma PageInForce(t: Tree, leaf: map<Slot, Entry>, n: Node, s: Slot)
    requires Wf(t) && Leaves(t, leaf) && Hanging(t, n) && s in leaf && Under(s, n)
    ensures InForce(t, n, IndexIn(s, n))
  {
    assert IsLeaf(t, s);
    if !n.Pt? {
      HangsInForce(t, n, PtOf(s));
    }
  }

  /** With nothing in force beyond the drained entries the table itself follows. */
  lemma DrainEnd(v: State, v1: State, n: Node, h: nat)
    requires Drained(v, v1, n, h) && Inv(v) && Hanging(v.tree, n)
    requires forall i :: h <= i < ENTRIES ==> !InForce(v.tree, n, i)
    ensures Torn(v, LoseTable(v1, n), n)
    ensures v1.tree.cell[n].frame < |v1.used| && v1.tree.cell[n].frame < |v1.refs| ==>
              Torn(v, FreeTable(v1, n), n)
  {
    DrainEndTables(v.tree, v1.tree, n, h);
    forall s | s in v.leaf && Under(s, n)
      ensures PageGone(s, n, h)
    {
      PageInForce(v.tree, v.leaf, n, s);
    }
  }

  lemma DrainEndTables(t: Tree, t1: Tree, n: Node, h: nat)
    requires TablesDrained(t, t1, n, h) && Wf(t) && Hanging(t, n)
    requires forall i :: h <= i < ENTRIES ==> !InForce(t, n, i)
    ensures TablesTorn(t, Remove(t1, n), n)
  {
    forall m | m in t.cell && Below(m, n) && m != n
      ensures Gone(m, n, h)
    {
      HangsInForce(t, n, m);
    }
  }

  // ----- entry by entry -----

  /** What stands behind entry `i` of the loose table `n` about to be passed. */
  lemma NextDown(v: State, n: Node, i: nat)
    requires Inv(v) && Loose(v.tree, n) && n.r != v.tree.kernel && InForce(v.tree, n, i) && i == v.tree.cell[n].lo
    requires Hanging(v.tree, n)
    ensures var e := At(v.tree, n, i);
            && v.tree.cell[n].frame in v.tab && v.tab[v.tree.cell[n].frame][i] == e
            && (e.present && !n.Pt? ==>
                  !e.huge && !Inert(v.tree, n, i) && Child(n, i) in v.tree.cell
                  && v.tree.cell[Child(n, i)].frame == e.frame)
            && (!e.present ==> Inert(v.tree, n, i) && (n.Pt? || Child(n, i) !in v.tree.cell))
  {
    if !n.Pt? {
      assert PointsDown(v.tree, n, i);
      if Child(n, i) in v.tree.cell {
        assert LinkedFrom(v.tree, Child(n, i));
      }
    }
  }

  /** Cutting the next subtree loose leaves it ready to be torn down. */
  lemma CutLoose(v: State, n: Node, i: nat)
    requires Inv(v) && Loose(v.tree, n) && !n.Pt? && InForce(v.tree, n, i) && i == v.tree.cell[n].lo
    requires !Inert(v.tree, n, i) && Hanging(v.tree, n)
    ensures var c := Child(n, i);
            && c in v.tree.cell && Inv(PassChild(v, n)) && Finished(PassChild(v, n).tree, c)
            && Hanging(PassChild(v, n).tree, c) && Loose(PassChild(v, n).tree, n)
  {
    hide Inv;
    PassChildInv(v, n);
    HangingBelow(v.tree, n);
  }

  lemma HangingBelow(t: Tree, n: Node)
    requires Hanging(t, n) && n in t.cell && !n.Pt? && Child(n, t.cell[n].lo) in t.cell
    ensures Hanging(Pass(t, n), Child(n, t.cell[n].lo))
  {
    var t' := Pass(t, n);
    var c := Child(n, t.cell[n].lo);
    forall m | m in t'.cell && Below(m, c) && m != c
      ensures t'.cell[m].linked
    {
      assert Below(m, n) && m != n;
    }
  }
}

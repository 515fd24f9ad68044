/** Doubly linked lists whose links are stored in the nodes. Several lists may share one
    store of links as long as no node is on two of them. */
module DList {

  type Ptr = nat

  const NULL: Ptr := 0

  datatype Link = Link(next: Ptr, prev: Ptr)

  type Links = map<Ptr, Link>

  ghost predicate NoDup(s: seq<Ptr>) { forall i, j :: 0 <= i < j < |s| ==> s[i] != s[j] }

  ghost function NextOf(s: seq<Ptr>, i: nat): Ptr { if i + 1 < |s| then s[i + 1] else NULL }

  ghost function PrevOf(s: seq<Ptr>, i: nat): Ptr { if 0 < i <= |s| then s[i - 1] else NULL }

  ghost predicate NodeOk(m: Links, s: seq<Ptr>, i: nat)
    requires i < |s|
  {
    s[i] != NULL && s[i] in m && m[s[i]] == Link(NextOf(s, i), PrevOf(s, i))
  }

  ghost function First(s: seq<Ptr>): Ptr { if s == [] then NULL else s[0] }

  ghost function Last(s: seq<Ptr>): Ptr { if s == [] then NULL else s[|s| - 1] }

  /** The nodes of `s`, in order, linked both ways. */
  ghost predicate IsList(m: Links, s: seq<Ptr>) {
    NoDup(s) && forall i :: 0 <= i < |s| ==> NodeOk(m, s, i)
  }

  // ----- insertion at the back -----

  function SetNext(m: Links, p: Ptr, x: Ptr): Links
    requires p in m
  {
    m[p := m[p].(next := x)]
  }

  function SetPrev(m: Links, p: Ptr, x: Ptr): Links
    requires p in m
  {
    m[p := m[p].(prev := x)]
  }

  function LinkBack(m: Links, tail: Ptr, x: Ptr): Links
    requires tail == NULL || tail in m
  {
    var m1 := m[x := Link(NULL, tail)];
    if tail == NULL then m1 else SetNext(m1, tail, x)
  }

  lemma LinkBackList(m: Links, s: seq<Ptr>, x: Ptr)
    requires IsList(m, s) && x != NULL && x !in s
    ensures Last(s) == NULL <==> s == []
    ensures Last(s) != NULL ==> Last(s) in m
    ensures IsList(LinkBack(m, Last(s), x), s + [x])
  {
    if s != [] {
      assert NodeOk(m, s, |s| - 1);
    }
    var m' := LinkBack(m, Last(s), x);
    var s' := s + [x];
    forall i | 0 <= i < |s'|
      ensures NodeOk(m', s', i)
    {
      if i < |s| {
        assert NodeOk(m, s, i);
      }
    }
  }

  // ----- insertion at the front -----

  function LinkFront(m: Links, head: Ptr, x: Ptr): Links
    requires head == NULL || head in m
  {
    var m1 := m[x := Link(head, NULL)];
    if head == NULL then m1 else SetPrev(m1, head, x)
  }

  lemma LinkFrontList(m: Links, s: seq<Ptr>, x: Ptr)
    requires IsList(m, s) && x != NULL && x !in s
    ensures First(s) != NULL ==> First(s) in m
    ensures First(s) == NULL <==> s == []
    ensures IsList(LinkFront(m, First(s), x), [x] + s)
  {
    if s != [] {
      assert NodeOk(m, s, 0);
    }
    var m' := LinkFront(m, First(s), x);
    var s' := [x] + s;
    forall i | 0 <= i < |s'|
      ensures NodeOk(m', s', i)
    {
      if i > 0 {
        assert NodeOk(m, s, i - 1);
        assert s'[i] == s[i - 1];
      }
    }
  }

  // ----- removal -----

  function Unlink(m: Links, x: Ptr): Links
    requires x in m && (m[x].prev == NULL || m[x].prev in m) && (m[x].next == NULL || m[x].next in m)
  {
    var l := m[x];
    var m1 := if l.prev == NULL then m else SetNext(m, l.prev, l.next);
    var m2 := if l.next == NULL then m1 else SetPrev(m1, l.next, l.prev);
    m2[x := Link(NULL, NULL)]
  }

  ghost function Without(s: seq<Ptr>, k: nat): seq<Ptr>
    requires k < |s|
  {
    s[..k] + s[k + 1..]
  }

  lemma Neighbours(m: Links, s: seq<Ptr>, k: nat)
    requires IsList(m, s) && k < |s|
    ensures s[k] in m && m[s[k]] == Link(NextOf(s, k), PrevOf(s, k))
    ensures NextOf(s, k) == NULL <==> k == |s| - 1
    ensures PrevOf(s, k) == NULL <==> k == 0
    ensures NextOf(s, k) == NULL || NextOf(s, k) in m
    ensures PrevOf(s, k) == NULL || PrevOf(s, k) in m
  {
    assert NodeOk(m, s, k);
    if k + 1 < |s| {
      assert NodeOk(m, s, k + 1);
    }
    if k > 0 {
      assert NodeOk(m, s, k - 1);
    }
  }

  lemma UnlinkList(m: Links, s: seq<Ptr>, k: nat)
    requires IsList(m, s) && k < |s|
    ensures s[k] in m && (m[s[k]].prev == NULL || m[s[k]].prev in m) && (m[s[k]].next == NULL || m[s[k]].next in m)
    ensures IsList(Unlink(m, s[k]), Without(s, k))
  {
    Neighbours(m, s, k);
    var m' := Unlink(m, s[k]);
    var s' := Without(s, k);
    WithoutNoDup(s, k);
    forall i | 0 <= i < |s'|
      ensures NodeOk(m', s', i)
    {
      UnlinkNode(m, s, k, i);
    }
  }

  lemma UnlinkNode(m: Links, s: seq<Ptr>, k: nat, i: nat)
    requires IsList(m, s) && k < |s| && i < |s| - 1
    requires s[k] in m && (m[s[k]].prev == NULL || m[s[k]].prev in m) && (m[s[k]].next == NULL || m[s[k]].next in m)
    ensures NodeOk(Unlink(m, s[k]), Without(s, k), i)
  {
    var o := if i < k then i else i + 1;
    assert Without(s, k)[i] == s[o];
    assert NodeOk(m, s, o) && NodeOk(m, s, k);
  }

  lemma WithoutNoDup(s: seq<Ptr>, k: nat)
    requires NoDup(s) && k < |s|
    ensures NoDup(Without(s, k))
    ensures forall x :: x in Without(s, k) <==> x in s && x != s[k]
  {
    var s' := Without(s, k);
    forall i | 0 <= i < |s'|
      ensures s'[i] == s[if i < k then i else i + 1]
    {
    }
    forall x
      ensures x in s' <==> x in s && x != s[k]
    {
      if x in s && x != s[k] {
        var i :| 0 <= i < |s| && s[i] == x;
        assert s'[if i < k then i else i - 1] == x;
      }
    }
  }

  // ----- lists that share the store -----

  /** A store that agrees on all nodes of a list holds the same list. */
  lemma ListKept(m: Links, m': Links, s: seq<Ptr>)
    requires IsList(m, s) && forall i :: 0 <= i < |s| ==> s[i] in m && s[i] in m' && m'[s[i]] == m[s[i]]
    ensures IsList(m', s)
  {
    forall i | 0 <= i < |s|
      ensures NodeOk(m', s, i)
    {
      assert NodeOk(m, s, i);
    }
  }

  lemma LinkBackKeeps(m: Links, s: seq<Ptr>, x: Ptr, t: seq<Ptr>)
    requires IsList(m, s) && IsList(m, t) && x !in t && x != NULL && forall y :: y in s ==> y !in t
    requires Last(s) == NULL || Last(s) in m
    ensures IsList(LinkBack(m, Last(s), x), t)
  {
    forall i | 0 <= i < |t|
      ensures t[i] in m && t[i] != x && t[i] != Last(s)
    {
      assert t[i] in t && NodeOk(m, t, i);
      assert s != [] ==> Last(s) in s;
    }
    ListKept(m, LinkBack(m, Last(s), x), t);
  }

  lemma UnlinkKeeps(m: Links, s: seq<Ptr>, k: nat, t: seq<Ptr>)
    requires IsList(m, s) && IsList(m, t) && k < |s| && forall y :: y in s ==> y !in t
    requires s[k] in m && (m[s[k]].prev == NULL || m[s[k]].prev in m) && (m[s[k]].next == NULL || m[s[k]].next in m)
    ensures IsList(Unlink(m, s[k]), t)
  {
    Neighbours(m, s, k);
    forall i | 0 <= i < |t|
      ensures t[i] in m && t[i] != s[k] && t[i] != NextOf(s, k) && t[i] != PrevOf(s, k)
    {
      assert t[i] in t && NodeOk(m, t, i);
      assert k + 1 < |s| ==> s[k + 1] in s;
      assert k > 0 ==> s[k - 1] in s;
    }
    ListKept(m, Unlink(m, s[k]), t);
  }

  lemma {:induction false} FindIndex(s: seq<Ptr>, x: Ptr) returns (k: nat)
    requires x in s
    ensures k < |s| && s[k] == x
  {
    k :| 0 <= k < |s| && s[k] == x;
  }

  ghost function IndexOf(s: seq<Ptr>, x: Ptr): (k: nat)
    requires x in s
    ensures k < |s| && s[k] == x
  {
    var k :| 0 <= k < |s| && s[k] == x;
    k
  }

  /** The list without the node `x`. */
  ghost function Drop(s: seq<Ptr>, x: Ptr): seq<Ptr> {
    if x in s then Without(s, IndexOf(s, x)) else s
  }

  lemma DropMembers(s: seq<Ptr>, x: Ptr)
    requires NoDup(s)
    ensures NoDup(Drop(s, x)) && forall y :: y in Drop(s, x) <==> y in s && y != x
  {
    if x in s {
      WithoutNoDup(s, IndexOf(s, x));
    }
  }
}

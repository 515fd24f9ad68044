/** The intrusive list that holds timer buckets: a ring through a head node that is not an
    item. A head that was never used has no links at all. */
module Intrusive {
  import opened DList

  ghost function NextIn(h: Ptr, s: seq<Ptr>, i: nat): Ptr { if i + 1 < |s| then s[i + 1] else h }

  ghost function PrevIn(h: Ptr, s: seq<Ptr>, i: nat): Ptr { if 0 < i <= |s| then s[i - 1] else h }

  ghost predicate ItemOk(m: Links, h: Ptr, s: seq<Ptr>, i: nat)
    requires i < |s|
  {
    s[i] != NULL && s[i] != h && s[i] in m && m[s[i]] == Link(NextIn(h, s, i), PrevIn(h, s, i))
  }

  ghost predicate Ring(m: Links, h: Ptr, s: seq<Ptr>) {
    && h in m && m[h] == Link(if s == [] then h else s[0], if s == [] then h else s[|s| - 1])
    && NoDup(s) && forall i :: 0 <= i < |s| ==> ItemOk(m, h, s, i)
  }

  /** The items of the list with head `h`, in order. */
  ghost predicate Holds(m: Links, h: Ptr, s: seq<Ptr>) {
    h != NULL && h in m && if m[h].next == NULL then s == [] else Ring(m, h, s)
  }

  /** Nothing but the list's own nodes and `x` has changed. */
  ghost predicate OnlyList(m: Links, m': Links, h: Ptr, s: seq<Ptr>, x: Ptr) {
    forall q :: q in m && q != h && q != x && q !in s ==> q in m' && m'[q] == m[q]
  }

  /** Another list without shared nodes is untouched. */
  lemma OtherList(m: Links, m': Links, h: Ptr, s: seq<Ptr>, x: Ptr, g: Ptr, t: seq<Ptr>)
    requires Holds(m, g, t) && OnlyList(m, m', h, s, x) && g != h && g != x && g !in s
    requires forall y :: y in t ==> y != h && y != x && y !in s
    ensures Holds(m', g, t)
  {
    forall i | 0 <= i < |t|
      ensures ItemOk(m', g, t, i)
    {
      assert t[i] in t && ItemOk(m, g, t, i);
    }
  }

  class Store {
    var links: Links

    /** Heads `lo..hi` that were never used. */
    constructor (lo: Ptr, hi: Ptr)
      requires lo <= hi
      ensures forall h: Ptr :: (h in links <==> lo <= h < hi) && (h in links ==> links[h] == Link(NULL, NULL))
    {
      links := map[];
      new;
      for h := lo to hi
        invariant forall g: Ptr :: (g in links <==> lo <= g < h) && (g in links ==> links[g] == Link(NULL, NULL))
      {
        links := links[h := Link(NULL, NULL)];
      }
    }

    method Empty(h: Ptr, ghost s: seq<Ptr>) returns (r: bool)
      requires Holds(links, h, s)
      ensures r <==> s == []
    {
      assert s != [] ==> ItemOk(links, h, s, 0);
      r := links[h].next == NULL || links[h].next == h;
    }

    method PushBack(h: Ptr, x: Ptr, ghost s: seq<Ptr>)
      requires Holds(links, h, s) && x != NULL && x != h && x !in s
      modifies this
      ensures Holds(links, h, s + [x]) && OnlyList(old(links), links, h, s, x)
    {
      if links[h].next == NULL {
        links := links[h := Link(x, x)][x := Link(h, h)];
      } else {
        assert s != [] ==> ItemOk(links, h, s, |s| - 1);
        var last := links[h].prev;
        links := links[x := Link(h, last)];
        links := SetNext(links, last, x);
        links := SetPrev(links, h, x);
      }
      PushedBack(old(links), h, s, x, links);
    }

    method PushFront(h: Ptr, x: Ptr, ghost s: seq<Ptr>)
      requires Holds(links, h, s) && x != NULL && x != h && x !in s
      modifies this
      ensures Holds(links, h, [x] + s) && OnlyList(old(links), links, h, s, x)
    {
      if links[h].next == NULL {
        links := links[h := Link(x, x)][x := Link(h, h)];
      } else {
        assert s != [] ==> ItemOk(links, h, s, 0);
        var first := links[h].next;
        links := links[x := Link(first, h)];
        links := SetPrev(links, first, x);
        links := SetNext(links, h, x);
      }
      PushedFront(old(links), h, s, x, links);
    }

    method Remove(x: Ptr, ghost h: Ptr, ghost s: seq<Ptr>, ghost k: nat)
      requires Holds(links, h, s) && k < |s| && s[k] == x
      modifies this
      ensures Holds(links, h, Without(s, k)) && OnlyList(old(links), links, h, s, x)
    {
      assert ItemOk(links, h, s, k);
      assert k > 0 ==> ItemOk(links, h, s, k - 1);
      assert k + 1 < |s| ==> ItemOk(links, h, s, k + 1);
      var prev, next := links[x].prev, links[x].next;
      links := SetNext(links, prev, next);
      links := SetPrev(links, next, prev);
      Removed(old(links), h, s, k, links);
    }

    method PopFront(h: Ptr, ghost s: seq<Ptr>) returns (x: Ptr)
      requires Holds(links, h, s)
      modifies this
      ensures if s == [] then x == NULL && links == old(links) else x == s[0] && Holds(links, h, s[1..])
      ensures OnlyList(old(links), links, h, s, x)
    {
      var empty := Empty(h, s);
      if empty {
        return NULL;
      }
      x := links[h].next;
      Remove(x, h, s, 0);
      assert Without(s, 0) == s[1..];
    }
  }

  // ----- many lists over the same nodes -----

  /** Every item is one of `1..top` and on one list only. */
  ghost predicate Apart(lists: seq<seq<Ptr>>, top: Ptr) {
    && (forall i, x :: 0 <= i < |lists| && x in lists[i] ==> 0 < x <= top)
    && (forall i, j, x :: 0 <= i < |lists| && 0 <= j < |lists| && x in lists[i] && x in lists[j] ==> i == j)
  }

  ghost predicate Loose(lists: seq<seq<Ptr>>, x: Ptr) {
    forall i :: 0 <= i < |lists| ==> x !in lists[i]
  }

  function Head(top: Ptr, i: nat): Ptr { top + 1 + i }

  ghost predicate AllHold(m: Links, top: Ptr, lists: seq<seq<Ptr>>) {
    forall i :: 0 <= i < |lists| ==> Holds(m, Head(top, i), lists[i])
  }

  /** A change within list `i` leaves the lists beside it alone. */
  lemma OthersHold(m: Links, m': Links, top: Ptr, lists: seq<seq<Ptr>>, i: nat, x: Ptr, s: seq<Ptr>)
    requires Apart(lists, top) && AllHold(m, top, lists) && i < |lists| && x <= top
    requires OnlyList(m, m', Head(top, i), lists[i], x) && Holds(m', Head(top, i), s)
    requires forall j :: 0 <= j < |lists| && j != i ==> x !in lists[j]
    ensures AllHold(m', top, lists[i := s])
  {
    hide Holds;
    hide OnlyList;
    forall j | 0 <= j < |lists|
      ensures Holds(m', Head(top, j), lists[i := s][j])
    {
      if j != i {
        OtherList(m, m', Head(top, i), lists[i], x, Head(top, j), lists[j]);
      }
    }
  }

  lemma ApartPut(lists: seq<seq<Ptr>>, top: Ptr, i: nat, x: Ptr)
    requires Apart(lists, top) && i < |lists| && Loose(lists, x) && 0 < x <= top
    ensures Apart(lists[i := lists[i] + [x]], top)
  {
  }

  lemma ApartTake(lists: seq<seq<Ptr>>, top: Ptr, i: nat)
    requires Apart(lists, top) && i < |lists| && lists[i] != [] && NoDup(lists[i])
    ensures Apart(lists[i := lists[i][1..]], top) && Loose(lists[i := lists[i][1..]], lists[i][0])
  {
    assert lists[i][0] in lists[i];
    assert forall x :: x in lists[i][1..] ==> x in lists[i] && x != lists[i][0];
  }

  /** Lists that share one store; an item moves between them without being copied. */
  class Buckets {
    const store: Store
    const count: nat
    const top: Ptr
    ghost var lists: seq<seq<Ptr>>

    ghost predicate Valid()
      reads `lists, store
    {
      |lists| == count && AllHold(store.links, top, lists) && Apart(lists, top)
    }

    constructor (count: nat, top: Ptr)
      ensures Valid() && fresh(store) && this.count == count && this.top == top
      ensures lists == seq(count, i => [])
    {
      this.count, this.top := count, top;
      store := new Store(top + 1, top + 1 + count);
      lists := seq(count, i => []);
    }

    method Empty(i: nat) returns (r: bool)
      requires Valid() && i < count
      ensures r <==> lists[i] == []
    {
      r := store.Empty(Head(top, i), lists[i]);
    }

    method PushBack(i: nat, x: Ptr)
      requires Valid() && i < count && 0 < x <= top && Loose(lists, x)
      modifies `lists, store
      ensures Valid() && lists == old(lists)[i := old(lists)[i] + [x]]
    {
      ghost var m := store.links;
      store.PushBack(Head(top, i), x, lists[i]);
      OthersHold(m, store.links, top, lists, i, x, lists[i] + [x]);
      ApartPut(lists, top, i, x);
      lists := lists[i := lists[i] + [x]];
    }

    method PopFront(i: nat) returns (x: Ptr)
      requires Valid() && i < count
      modifies `lists, store
      ensures Valid()
      ensures old(lists)[i] == [] ==> x == NULL && lists == old(lists)
      ensures old(lists)[i] != [] ==>
                x == old(lists)[i][0] && 0 < x <= top && lists == old(lists)[i := old(lists)[i][1..]] && Loose(lists, x)
    {
      ghost var m, s := store.links, lists[i];
      x := store.PopFront(Head(top, i), s);
      if s != [] {
        assert x in lists[i];
        HeldOnce(m, Head(top, i), s);
        OthersHold(m, store.links, top, lists, i, x, s[1..]);
        ApartTake(lists, top, i);
        lists := lists[i := s[1..]];
      }
    }
  }

  lemma HeldOnce(m: Links, h: Ptr, s: seq<Ptr>)
    requires Holds(m, h, s)
    ensures NoDup(s)
  {
  }

  lemma PushedBack(m: Links, h: Ptr, s: seq<Ptr>, x: Ptr, m': Links)
    requires Holds(m, h, s) && x != NULL && x != h && x !in s
    requires if m[h].next == NULL then m' == m[h := Link(x, x)][x := Link(h, h)]
             else var last := m[h].prev; var m1 := m[x := Link(h, last)];
                  last in m1 && m' == SetPrev(SetNext(m1, last, x), h, x)
    ensures Holds(m', h, s + [x]) && OnlyList(m, m', h, s, x)
  {
    var s' := s + [x];
    assert s'[|s|] == x && (s != [] ==> s'[0] == s[0] && ItemOk(m, h, s, 0) && ItemOk(m, h, s, |s| - 1));
    forall i | 0 <= i < |s'|
      ensures ItemOk(m', h, s', i)
    {
      if i < |s| {
        assert ItemOk(m, h, s, i);
      }
    }
  }

  lemma PushedFront(m: Links, h: Ptr, s: seq<Ptr>, x: Ptr, m': Links)
    requires Holds(m, h, s) && x != NULL && x != h && x !in s
    requires if m[h].next == NULL then m' == m[h := Link(x, x)][x := Link(h, h)]
             else var first := m[h].next; var m1 := m[x := Link(first, h)];
                  first in m1 && m' == SetNext(SetPrev(m1, first, x), h, x)
    ensures Holds(m', h, [x] + s) && OnlyList(m, m', h, s, x)
  {
    var s' := [x] + s;
    assert s'[0] == x && (s != [] ==> s'[|s|] == s[|s| - 1] && ItemOk(m, h, s, 0) && ItemOk(m, h, s, |s| - 1));
    forall i | 0 <= i < |s'|
      ensures ItemOk(m', h, s', i)
    {
      if i > 0 {
        assert ItemOk(m, h, s, i - 1) && s'[i] == s[i - 1];
      }
    }
  }

  lemma Removed(m: Links, h: Ptr, s: seq<Ptr>, k: nat, m': Links)
    requires Holds(m, h, s) && k < |s| && s[k] in m
    requires var l := m[s[k]]; l.prev in m && l.next in SetNext(m, l.prev, l.next)
                               && m' == SetPrev(SetNext(m, l.prev, l.next), l.next, l.prev)
    ensures Holds(m', h, Without(s, k)) && OnlyList(m, m', h, s, s[k])
  {
    assert ItemOk(m, h, s, k);
    var s' := Without(s, k);
    WithoutNoDup(s, k);
    forall i | 0 <= i < |s'|
      ensures ItemOk(m', h, s', i)
    {
      var o := if i < k then i else i + 1;
      assert s'[i] == s[o] && ItemOk(m, h, s, o);
    }
    RemovedHead(m, h, s, k, m');
  }

  lemma RemovedHead(m: Links, h: Ptr, s: seq<Ptr>, k: nat, m': Links)
    requires Holds(m, h, s) && k < |s| && s[k] in m && m[s[k]] == Link(NextIn(h, s, k), PrevIn(h, s, k))
    requires var l := m[s[k]]; l.prev in m && l.next in SetNext(m, l.prev, l.next)
                               && m' == SetPrev(SetNext(m, l.prev, l.next), l.next, l.prev)
    ensures var s' := Without(s, k);
            h in m' && m'[h] == Link(if s' == [] then h else s'[0], if s' == [] then h else s'[|s'| - 1])
            && m'[h].next != NULL
  {
    var s' := Without(s, k);
    var n := |s| - 1;
    assert ItemOk(m, h, s, 0) && ItemOk(m, h, s, n);
    assert k > 0 ==> ItemOk(m, h, s, k - 1) && s'[0] == s[0];
    assert k < n ==> ItemOk(m, h, s, k + 1) && s'[n - 1] == s[n];
    assert k == 0 && n > 0 ==> s'[0] == s[1];
    assert k == n && n > 0 ==> s'[n - 1] == s[n - 1];
  }
}

/** The slice allocator: eight size classes, each with a linked list of free slices cut
    from whole pages. */
module Slices {
  import opened Arith
  import Pmm
  import opened HeapBlocks
  import opened HeapSpec
  import opened KernelHeap

  const CLASSES: nat := 8
  const LARGEST: nat := 2048
  const CLASS_ALIGN: nat := 16

  function Size(c: nat): nat {
    if c == 0 then 16 else if c == 1 then 32 else if c == 2 then 64 else if c == 3 then 128
    else if c == 4 then 256 else if c == 5 then 512 else if c == 6 then 1024 else 2048
  }

  function PerPage(c: nat): nat { Pmm.PAGE_SIZE / Size(c) }

  /** The smallest class that holds `size` bytes; `CLASSES` if none does. */
  ghost predicate IsClassFor(size: nat, al: nat, c: nat) {
    if size == 0 || !PowerOfTwo(al) || LARGEST < size || CLASS_ALIGN < al then c == CLASSES
    else c < CLASSES && size <= Size(c) && forall d :: 0 <= d < c ==> Size(d) < size
  }

  method ClassFor(size: nat, al: nat) returns (c: nat)
    ensures IsClassFor(size, al, c)
  {
    if size == 0 || !PowerOfTwo(al) {
      return CLASSES;
    }
    var required := if size > 8 then size else 8;
    c := 0;
    while c < CLASSES
      invariant c <= CLASSES && forall d :: 0 <= d < c ==> Size(d) < size || CLASS_ALIGN < al
    {
      if required <= Size(c) && al <= CLASS_ALIGN {
        return;
      }
      c := c + 1;
    }
    assert Size(7) < size || CLASS_ALIGN < al;
  }

  /** The sizes are the powers of two from 16 to 2048, so a slice is less than twice as large as
      was asked for, or 16 bytes. */
  lemma ClassTight(size: nat, al: nat, c: nat)
    requires IsClassFor(size, al, c)
    ensures c < 8 <==> 0 < size <= 2048 && PowerOfTwo(al) && al <= 16
    ensures c < 8 ==> PowerOfTwo(Size(c)) && size <= Size(c) && Size(c) % 16 == 0 && (Size(c) == 16 || Size(c) < 2 * size)
  {
    assert PowerOfTwo(2) && PowerOfTwo(4) && PowerOfTwo(8) && PowerOfTwo(16) && PowerOfTwo(32) && PowerOfTwo(64);
    assert PowerOfTwo(128) && PowerOfTwo(256) && PowerOfTwo(512) && PowerOfTwo(1024) && PowerOfTwo(2048);
    if 0 < c < 8 {
      assert Size(c - 1) < size && Size(c) == 2 * Size(c - 1);
    }
  }

  // ----- where slices are -----

  /** `owned` maps each page to its class; `a` is one of the slices cut from its page. */
  ghost predicate IsSlice(hhdm: nat, owned: map<nat, nat>, a: Addr, c: nat) {
    && hhdm <= a && PageOf(hhdm, a) in owned && owned[PageOf(hhdm, a)] == c && c < CLASSES
    && (a - hhdm) % Size(c) == 0
  }

  /** The blocks of `s` that make up a block of `m * s` do not reach over its end. */
  lemma InOneBlock(q: nat, r: nat, s: nat, m: nat)
    requires 0 < s && r < m
    ensures 0 < m * s && (q * m + r) * s / (m * s) == q && ((q * m + r) * s + s - 1) / (m * s) == q
  {
    Distribute(q * m, r, s);
    MulAssoc(q, m, s);
    Distribute(r, 1, s);
    MulMono(r + 1, m, s);
    DivModUnique((q * m + r) * s, m * s, q, r * s);
    DivModUnique((q * m + r) * s + s - 1, m * s, q, r * s + s - 1);
  }

  lemma InOnePage(x: nat, c: nat)
    requires c < CLASSES && x % Size(c) == 0
    ensures (x + Size(c) - 1) / Pmm.PAGE_SIZE == x / Pmm.PAGE_SIZE
  {
    assert 0 < Size(c) && 0 < PerPage(c) && PerPage(c) * Size(c) == Pmm.PAGE_SIZE;
    hide Size;
    hide PerPage;
    var s, m := Size(c), PerPage(c);
    DivMod(x, s);
    DivMod(x / s, m);
    InOneBlock(x / s / m, x / s % m, s, m);
  }

  lemma Steps(x: nat, y: nat, c: nat)
    requires c < CLASSES && x % Size(c) == 0 && y % Size(c) == 0 && x < y
    ensures x + Size(c) <= y
  {
  }

  /** A slice lies in one page; two slices never overlap; a slice has one class. */
  lemma SlicesDisjoint(hhdm: nat, owned: map<nat, nat>, a: Addr, c: nat, b: Addr, d: nat)
    requires IsSlice(hhdm, owned, a, c) && IsSlice(hhdm, owned, b, d)
    ensures PageOf(hhdm, a + Size(c) - 1) == PageOf(hhdm, a)
    ensures a == b ==> c == d
    ensures a < b ==> a + Size(c) <= b
  {
    InOnePage(a - hhdm, c);
    if a < b && PageOf(hhdm, a) == PageOf(hhdm, b) {
      Steps(a - hhdm, b - hhdm, c);
    }
  }

  // ----- the lists -----

  ghost function NodeNext(fl: seq<Addr>, k: nat): Addr {
    if k + 1 < |fl| then fl[k + 1] else 0
  }

  ghost predicate Linked(w: Words, head: Addr, fl: seq<Addr>) {
    && head == (if fl == [] then 0 else fl[0])
    && forall k {:trigger NodeNext(fl, k)} :: 0 <= k < |fl| ==> Has(w, fl[k], NodeNext(fl, k))
  }

  ghost predicate AllApart(fl: seq<Addr>, a: Addr) { forall k :: 0 <= k < |fl| ==> Apart(a, fl[k]) }

  lemma OtherLinked(w: Words, head: Addr, fl: seq<Addr>, a: Addr, x: nat)
    requires Linked(w, head, fl) && AllApart(fl, a)
    ensures Linked(Store(w, a, x), head, fl)
  {
    hide Store;
    forall k | 0 <= k < |fl|
      ensures Has(Store(w, a, x), fl[k], NodeNext(fl, k))
    {
      StoreKeeps(w, a, x, fl[k], NodeNext(fl, k));
    }
  }

  lemma PushLinked(w: Words, head: Addr, fl: seq<Addr>, a: Addr)
    requires Linked(w, head, fl) && AllApart(fl, a)
    ensures Linked(Store(w, a, head), a, [a] + fl)
  {
    hide Store;
    OtherLinked(w, head, fl, a, head);
    StoreHas(w, a, head);
    var fl' := [a] + fl;
    forall k | 0 <= k < |fl'|
      ensures Has(Store(w, a, head), fl'[k], NodeNext(fl', k))
    {
      if k > 0 {
        assert fl'[k] == fl[k - 1] && NodeNext(fl', k) == NodeNext(fl, k - 1);
      }
    }
  }

  lemma PopLinked(w: Words, head: Addr, fl: seq<Addr>)
    requires Linked(w, head, fl) && fl != []
    ensures Has(w, head, NodeNext(fl, 0)) && Linked(w, NodeNext(fl, 0), fl[1..])
  {
    var fl' := fl[1..];
    assert Has(w, fl[0], NodeNext(fl, 0));
    forall k | 0 <= k < |fl'|
      ensures Has(w, fl'[k], NodeNext(fl', k))
    {
      assert fl'[k] == fl[k + 1] && NodeNext(fl', k) == NodeNext(fl, k + 1);
    }
  }

  ghost predicate Distinct(fl: seq<Addr>) { forall i, j :: 0 <= i < j < |fl| ==> fl[i] != fl[j] }

  /** A slice is free or live, and not both. */
  ghost predicate Members(hhdm: nat, owned: map<nat, nat>, free: seq<seq<Addr>>, live: map<Addr, nat>) {
    && |free| == CLASSES
    && (forall c, a :: 0 <= c < CLASSES ==> (a in free[c] <==> IsSlice(hhdm, owned, a, c) && a !in live))
    && (forall a :: a in live ==> IsSlice(hhdm, owned, a, live[a]))
  }

  ghost function LiveOf(live: map<Addr, nat>, c: nat): set<Addr> { set a | a in live && live[a] == c }

  ghost predicate Chains(w: Words, heads: seq<Addr>, free: seq<seq<Addr>>) {
    && |heads| == |free| == CLASSES
    && forall c :: 0 <= c < CLASSES ==> Linked(w, heads[c], free[c]) && Distinct(free[c])
  }

  /** All free nodes are apart from `a`. */
  ghost predicate Clear(free: seq<seq<Addr>>, a: Addr) { forall c :: 0 <= c < |free| ==> AllApart(free[c], a) }

  lemma PushChains(w: Words, heads: seq<Addr>, free: seq<seq<Addr>>, c: nat, a: Addr)
    requires Chains(w, heads, free) && Clear(free, a) && c < CLASSES
    ensures Chains(Store(w, a, heads[c]), heads[c := a], free[c := [a] + free[c]])
  {
    hide Store;
    hide Linked;
    var w', heads', free' := Store(w, a, heads[c]), heads[c := a], free[c := [a] + free[c]];
    forall d | 0 <= d < CLASSES
      ensures Linked(w', heads'[d], free'[d]) && Distinct(free'[d])
    {
      if d == c {
        PushLinked(w, heads[c], free[c], a);
      } else {
        OtherLinked(w, heads[d], free[d], a, heads[c]);
      }
    }
  }

  lemma PopChains(w: Words, heads: seq<Addr>, free: seq<seq<Addr>>, c: nat)
    requires Chains(w, heads, free) && c < CLASSES && free[c] != []
    ensures Has(w, heads[c], NodeNext(free[c], 0))
    ensures Chains(w, heads[c := NodeNext(free[c], 0)], free[c := free[c][1..]])
  {
    hide Linked;
    PopLinked(w, heads[c], free[c]);
  }

  /** A slice that is not free is apart from every free node. */
  lemma LiveClear(hhdm: nat, owned: map<nat, nat>, free: seq<seq<Addr>>, live: map<Addr, nat>, a: Addr)
    requires Members(hhdm, owned, free, live) && a in live
    ensures Clear(free, a)
  {
    forall c, k | 0 <= c < CLASSES && 0 <= k < |free[c]|
      ensures Apart(a, free[c][k])
    {
      var b := free[c][k];
      assert b in free[c];
      SlicesDisjoint(hhdm, owned, a, live[a], b, c);
      SlicesDisjoint(hhdm, owned, b, c, a, live[a]);
    }
  }

  // ----- cutting a page -----

  ghost function Cut(base: Addr, c: nat, n: nat): seq<Addr> {
    if n == 0 then [] else [base + (n - 1) * Size(c)] + Cut(base, c, n - 1)
  }

  lemma {:induction false} CutMembers(base: Addr, c: nat, n: nat)
    ensures |Cut(base, c, n)| == n
    ensures forall a :: a in Cut(base, c, n) <==> base <= a < base + n * Size(c) && (a - base) % Size(c) == 0
    decreases n
  {
    if n > 0 {
      CutMembers(base, c, n - 1);
      var last := base + (n - 1) * Size(c);
      assert n * Size(c) == (n - 1) * Size(c) + Size(c) by { Distribute(n - 1, 1, Size(c)); }
      forall a: Addr
        ensures a in Cut(base, c, n) <==> base <= a < base + n * Size(c) && (a - base) % Size(c) == 0
      {
        LastMultiple(base, c, n, a);
        assert a in Cut(base, c, n) <==> a == last || a in Cut(base, c, n - 1);
      }
    }
  }

  lemma LastMultiple(base: Addr, c: nat, n: nat, a: Addr)
    requires 0 < n
    ensures (n - 1) * Size(c) % Size(c) == 0
    ensures base + (n - 1) * Size(c) <= a < base + n * Size(c) && (a - base) % Size(c) == 0 ==>
              a == base + (n - 1) * Size(c)
  {
    MultipleMod(n - 1, Size(c));
    Distribute(n - 1, 1, Size(c));
    if base + (n - 1) * Size(c) < a && (a - base) % Size(c) == 0 {
      StepsTo((n - 1) * Size(c), a - base, c);
    }
  }

  lemma StepsTo(x: nat, y: nat, c: nat)
    requires x % Size(c) == 0 && y % Size(c) == 0 && x < y
    ensures x + Size(c) <= y
  {
    Steps(x, y, if c < CLASSES then c else 7);
  }

  /** A fresh page holds none of the slices there are. */
  lemma FreshClear(hhdm: nat, owned: map<nat, nat>, free: seq<seq<Addr>>, live: map<Addr, nat>, page: nat, a: Addr)
    requires Members(hhdm, owned, free, live) && page !in owned
    requires hhdm + page * Pmm.PAGE_SIZE <= a && a + 8 <= hhdm + (page + 1) * Pmm.PAGE_SIZE
    ensures Clear(free, a)
  {
    forall c, k | 0 <= c < CLASSES && 0 <= k < |free[c]|
      ensures Apart(a, free[c][k])
    {
      var b := free[c][k];
      assert b in free[c];
      assert IsSlice(hhdm, owned, b, c);
      InOnePage(b - hhdm, c);
    }
  }

  lemma CutClear(hhdm: nat, owned: map<nat, nat>, free: seq<seq<Addr>>, live: map<Addr, nat>, page: nat, c: nat, n: nat)
    requires Members(hhdm, owned, free, live) && page !in owned && c < CLASSES && n < PerPage(c)
    ensures var base := hhdm + page * Pmm.PAGE_SIZE;
            Clear(free[c := Cut(base, c, n) + free[c]], base + n * Size(c))
  {
    var base := hhdm + page * Pmm.PAGE_SIZE;
    var a := base + n * Size(c);
    InPage(c, n);
    FreshClear(hhdm, owned, free, live, page, a);
    CutMembers(base, c, n);
    var fl := Cut(base, c, n) + free[c];
    forall k | 0 <= k < |fl|
      ensures Apart(a, fl[k])
    {
      if k < n {
        var b := fl[k];
        assert b in Cut(base, c, n);
        MultipleMod(n, Size(c));
        StepsTo(b - base, n * Size(c), c);
      } else {
        assert fl[k] == free[c][k - n];
      }
    }
  }

  lemma InPage(c: nat, n: nat)
    requires c < CLASSES && n < PerPage(c)
    ensures n * Size(c) + Size(c) <= Pmm.PAGE_SIZE
  {
    MulMono(n + 1, PerPage(c), Size(c));
    Distribute(n, 1, Size(c));
  }

  lemma WholePage(c: nat)
    requires c < CLASSES
    ensures PerPage(c) * Size(c) == Pmm.PAGE_SIZE
  {
  }

  lemma Offset(y: nat, page: nat, c: nat)
    requires c < CLASSES
    ensures (y + page * Pmm.PAGE_SIZE) % Size(c) == y % Size(c)
  {
    WholePage(c);
    MulAssoc(page, PerPage(c), Size(c));
    ModShift(y, page * PerPage(c), Size(c));
  }

  /** Once the page is cut its slices are exactly the new free nodes. */
  lemma CutDone(hhdm: nat, owned: map<nat, nat>, free: seq<seq<Addr>>, live: map<Addr, nat>, page: nat, c: nat)
    requires Members(hhdm, owned, free, live) && page !in owned && c < CLASSES
    ensures var base := hhdm + page * Pmm.PAGE_SIZE;
            Members(hhdm, owned[page := c], free[c := Cut(base, c, PerPage(c)) + free[c]], live)
  {
    hide Cut;
    hide PerPage;
    var base := hhdm + page * Pmm.PAGE_SIZE;
    var owned' := owned[page := c];
    var free' := free[c := Cut(base, c, PerPage(c)) + free[c]];
    forall d, a: Addr | 0 <= d < CLASSES
      ensures a in free'[d] <==> IsSlice(hhdm, owned', a, d) && a !in live
    {
      OneCut(hhdm, owned, page, c, a, d);
    }
    forall a | a in live
      ensures IsSlice(hhdm, owned', a, live[a])
    {
      OneCut(hhdm, owned, page, c, a, live[a]);
    }
  }

  lemma OneCut(hhdm: nat, owned: map<nat, nat>, page: nat, c: nat, a: Addr, d: nat)
    requires page !in owned && c < CLASSES && d < CLASSES
    ensures var cut := a in Cut(hhdm + page * Pmm.PAGE_SIZE, c, PerPage(c));
            && (IsSlice(hhdm, owned[page := c], a, d) <==> IsSlice(hhdm, owned, a, d) || (d == c && cut))
            && (forall e :: IsSlice(hhdm, owned, a, e) ==> !cut)
  {
    var base := hhdm + page * Pmm.PAGE_SIZE;
    CutMembers(base, c, PerPage(c));
    WholePage(c);
    if base <= a {
      Offset(a - base, page, c);
    }
  }

  // ----- counters -----

  /** Every slice of a class is free or live, and the counters say how many. */
  ghost predicate Counted(total: seq<nat>, frees: seq<nat>, backing: seq<nat>, free: seq<seq<Addr>>, live: map<Addr, nat>) {
    && |total| == |frees| == |backing| == |free| == CLASSES
    && forall c :: 0 <= c < CLASSES ==>
         && frees[c] == |free[c]| && total[c] == |free[c]| + |LiveOf(live, c)|
         && total[c] == backing[c] * PerPage(c)
  }

  lemma CountGrow(total: seq<nat>, frees: seq<nat>, backing: seq<nat>, free: seq<seq<Addr>>, live: map<Addr, nat>, c: nat,
                  cut: seq<Addr>)
    requires Counted(total, frees, backing, free, live) && c < CLASSES && |cut| == PerPage(c)
    ensures Counted(total[c := total[c] + PerPage(c)], frees[c := frees[c] + PerPage(c)], backing[c := backing[c] + 1],
                    free[c := cut + free[c]], live)
  {
    hide LiveOf;
    hide PerPage;
    Distribute(backing[c], 1, PerPage(c));
  }

  lemma CountPop(total: seq<nat>, frees: seq<nat>, backing: seq<nat>, free: seq<seq<Addr>>, live: map<Addr, nat>, c: nat, a: Addr)
    requires Counted(total, frees, backing, free, live) && c < CLASSES && free[c] != [] && a !in live
    ensures 0 < frees[c]
    ensures Counted(total, frees[c := frees[c] - 1], backing, free[c := free[c][1..]], live[a := c])
  {
    LiveMore(live, a, c);
    hide LiveOf;
    hide PerPage;
  }

  lemma CountPush(total: seq<nat>, frees: seq<nat>, backing: seq<nat>, free: seq<seq<Addr>>, live: map<Addr, nat>, c: nat, a: Addr)
    requires Counted(total, frees, backing, free, live) && c < CLASSES && a in live && live[a] == c
    ensures Counted(total, frees[c := frees[c] + 1], backing, free[c := [a] + free[c]], live - {a})
  {
    LiveLess(live, a);
    hide LiveOf;
    hide PerPage;
  }

  lemma CountLengths(total: seq<nat>, frees: seq<nat>, backing: seq<nat>, free: seq<seq<Addr>>, live: map<Addr, nat>)
    requires Counted(total, frees, backing, free, live)
    ensures |total| == |frees| == |backing| == |free| == CLASSES
  {
  }

  lemma LiveMore(live: map<Addr, nat>, a: Addr, c: nat)
    requires a !in live
    ensures forall d :: LiveOf(live[a := c], d) == if d == c then LiveOf(live, d) + {a} else LiveOf(live, d)
    ensures a !in LiveOf(live, c)
  {
  }

  lemma LiveLess(live: map<Addr, nat>, a: Addr)
    requires a in live
    ensures forall d :: LiveOf(live - {a}, d) == LiveOf(live, d) - {a}
    ensures a in LiveOf(live, live[a]) && forall d :: d != live[a] ==> a !in LiveOf(live, d)
  {
  }

  ghost function Adding(owned: map<nat, nat>, pages: set<nat>, c: nat): map<nat, nat> {
    owned + map q | q in pages :: c
  }

  lemma AddNone(owned: map<nat, nat>, c: nat)
    ensures Adding(owned, {}, c) == owned
  {
  }

  class SliceAllocator {
    const pmm: Pmm.Allocator
    const hhdm: nat
    var words: Words
    var heads: seq<Addr>
    var totalSlices: seq<nat>
    var freeSlices: seq<nat>
    var backingPages: seq<nat>
    var failed: nat
    ghost var free: seq<seq<Addr>>
    ghost var live: map<Addr, nat>
    ghost var owned: map<nat, nat>

    ghost predicate Valid()
      reads this
    {
      && Chains(words, heads, free) && Members(hhdm, owned, free, live)
      && Counted(totalSlices, freeSlices, backingPages, free, live)
      && 0 < hhdm && hhdm % Pmm.PAGE_SIZE == 0
    }

    ghost predicate Paged()
      reads this, pmm, pmm.bitmap, pmm.refcounts
    {
      pmm.Valid() && forall q :: q in owned ==> q < Pmm.MAX_PAGES && pmm.st.used[q]
    }

    constructor (pmm: Pmm.Allocator, hhdm: nat)
      requires pmm.Valid() && 0 < hhdm && hhdm % Pmm.PAGE_SIZE == 0
      ensures Valid() && Paged() && live == map[] && owned == map[] && this.pmm == pmm && this.hhdm == hhdm
    {
      this.pmm := pmm;
      this.hhdm := hhdm;
      words := map[];
      heads := [0, 0, 0, 0, 0, 0, 0, 0];
      totalSlices := [0, 0, 0, 0, 0, 0, 0, 0];
      freeSlices := [0, 0, 0, 0, 0, 0, 0, 0];
      backingPages := [0, 0, 0, 0, 0, 0, 0, 0];
      failed := 0;
      free := [[], [], [], [], [], [], [], []];
      live := map[];
      owned := map[];
    }

    method Push(c: nat, a: Addr)
      requires Chains(words, heads, free) && c < CLASSES && Clear(free, a)
      modifies `words, `heads, `free
      ensures Chains(words, heads, free) && free == old(free)[c := [a] + old(free)[c]]
    {
      PushChains(words, heads, free, c, a);
      words := Store(words, a, heads[c]);
      heads := heads[c := a];
      free := free[c := [a] + free[c]];
    }

    /** Puts the slices of a fresh page on the list of class `c`. */
    method CutPage(c: nat, base: Addr, ghost page: nat)
      requires Chains(words, heads, free) && Members(hhdm, owned, free, live) && c < CLASSES
      requires page !in owned && base == hhdm + page * Pmm.PAGE_SIZE
      modifies `words, `heads, `free
      ensures Chains(words, heads, free) && free == old(free)[c := Cut(base, c, PerPage(c)) + old(free)[c]]
    {
      hide Chains;
      hide Clear;
      hide Members;
      ghost var was := free;
      assert |was| == CLASSES by { WellSized(hhdm, owned, was, live); }
      assert Cut(base, c, 0) + was[c] == was[c];
      for index := 0 to Pmm.PAGE_SIZE / Size(c)
        invariant Chains(words, heads, free) && free == was[c := Cut(base, c, index) + was[c]]
      {
        CutClear(hhdm, owned, was, live, page, c, index);
        Push(c, base + index * Size(c));
        assert [base + index * Size(c)] + (Cut(base, c, index) + was[c]) == Cut(base, c, index + 1) + was[c];
      }
    }

    /** Takes a page and cuts it into slices of class `c`. */
    method GrowClass(c: nat) returns (ok: bool, ghost page: nat)
      requires Valid() && Paged() && c < CLASSES
      modifies this, pmm, pmm.bitmap, pmm.refcounts
      ensures Valid() && Paged() && live == old(live)
      ensures !ok ==> failed == old(failed) + 1 && free == old(free) && owned == old(owned) && pmm.st == old(pmm.st)
      ensures !ok ==> forall q :: 0 <= q < Pmm.MAX_PAGES ==> pmm.st.used[q]
      ensures ok ==> failed == old(failed) && page < Pmm.MAX_PAGES && !old(pmm.st).used[page] && owned == old(owned)[page := c]
      ensures ok ==> pmm.st.used == old(pmm.st).used[page := true] && pmm.st.refs == old(pmm.st).refs[page := 1]
      ensures ok ==> free[c] != []
    {
      hide Chains;
      hide Members;
      hide Cut;
      hide Counted;
      hide PerPage;
      hide Size;
      hide Pmm.CountUsed;
      var phys := pmm.AllocPage();
      page := 0;
      if phys == Pmm.INVALID {
        failed := failed + 1;
        return false, 0;
      }
      page := phys / Pmm.PAGE_SIZE;
      var base := phys + hhdm;
      assert base == hhdm + page * Pmm.PAGE_SIZE;
      CutDone(hhdm, owned, free, live, page, c);
      CutMembers(base, c, PerPage(c));
      CountLengths(totalSlices, freeSlices, backingPages, free, live);
      CountGrow(totalSlices, freeSlices, backingPages, free, live, c, Cut(base, c, PerPage(c)));
      CutPage(c, base, page);
      owned := owned[page := c];
      backingPages := backingPages[c := backingPages[c] + 1];
      totalSlices := totalSlices[c := totalSlices[c] + PerPage(c)];
      freeSlices := freeSlices[c := freeSlices[c] + PerPage(c)];
      WholePage(c);
      ok := true;
    }

    method Pop(c: nat) returns (a: Addr)
      requires Valid() && c < CLASSES && free[c] != []
      modifies `heads, `freeSlices, `free, `live
      ensures Valid() && a != 0 && a !in old(live) && live == old(live)[a := c]
    {
      hide Chains;
      hide Members;
      hide Counted;
      ListHead(hhdm, owned, live, words, heads, free, c);
      a := heads[c];
      PopChains(words, heads, free, c);
      PopMembers(hhdm, owned, free, live, c);
      CountLengths(totalSlices, freeSlices, backingPages, free, live);
      CountPop(totalSlices, freeSlices, backingPages, free, live, c, a);
      heads := heads[c := words[a]];
      freeSlices := freeSlices[c := freeSlices[c] - 1];
      free := free[c := free[c][1..]];
      live := live[a := c];
    }

    /** Hands out a slice of the smallest class that is large enough. */
    method Alloc(size: nat, al: nat) returns (a: Addr, ghost c: nat, ghost pages: set<nat>)
      requires Valid() && Paged()
      modifies this, pmm, pmm.bitmap, pmm.refcounts
      ensures Valid() && Paged() && IsClassFor(size, al, c)
      ensures a == 0 ==> live == old(live) && failed == old(failed) + 1
      ensures a == 0 && c < CLASSES ==> old(free)[c] == [] && forall q :: 0 <= q < Pmm.MAX_PAGES ==> pmm.st.used[q]
      ensures a != 0 ==> c < CLASSES && a !in old(live) && live == old(live)[a := c] && failed == old(failed)
      ensures PagesTaken(old(pmm.st), pmm.st, pages) && owned == Adding(old(owned), pages, c)
      ensures pages != {} ==> c < CLASSES && old(free)[c] == []
    {
      hide Chains;
      hide Members;
      hide Counted;
      hide IsClassFor;
      hide PagesTaken;
      hide Adding;
      TookNone(pmm.st);
      pages := {};
      var k := ClassFor(size, al);
      c := k;
      AddNone(owned, c);
      ClassRange(size, al, k);
      if k == CLASSES {
        failed := failed + 1;
        return 0, c, {};
      }
      ListHead(hhdm, owned, live, words, heads, free, k);
      if heads[k] == 0 {
        var ok;
        ghost var page;
        ok, page := GrowClass(k);
        if !ok {
          return 0, c, {};
        }
        pages := {page};
        TookOne(old(pmm.st), pmm.st, page, old(owned), k);
        ListHead(hhdm, owned, live, words, heads, free, k);
      }
      a := Pop(k);
    }

    /** Returns a slice to the list of the class its size belongs to. */
    method Free(a: Addr, size: nat, ghost c: nat)
      requires Valid() && (a == 0 || size == 0 || LARGEST < size || (IsClassFor(size, 8, c) && a in live && live[a] == c))
      modifies this
      ensures Valid() && owned == old(owned) && failed == old(failed)
      ensures if a == 0 || size == 0 || LARGEST < size then live == old(live) && free == old(free)
              else live == old(live) - {a} && c < CLASSES && free == old(free)[c := [a] + old(free)[c]]
    {
      hide Chains;
      hide Members;
      hide Counted;
      hide Clear;
      if a == 0 {
        return;
      }
      var k := ClassFor(size, 8);
      if k == CLASSES {
        return;
      }
      LiveClear(hhdm, owned, free, live, a);
      PushMembers(hhdm, owned, free, live, a);
      CountLengths(totalSlices, freeSlices, backingPages, free, live);
      CountPush(totalSlices, freeSlices, backingPages, free, live, k, a);
      live := live - {a};
      Push(k, a);
      freeSlices := freeSlices[k := freeSlices[k] + 1];
    }
  }

  /** Exactly `pages` have been taken from the page allocator. */
  ghost predicate PagesTaken(s: Pmm.State, s': Pmm.State, pages: set<nat>) {
    && |s.used| == |s.refs| == |s'.used| == |s'.refs| == Pmm.MAX_PAGES
    && (forall q :: q in pages ==> q < Pmm.MAX_PAGES)
    && forall q :: 0 <= q < Pmm.MAX_PAGES ==>
         if q in pages then !s.used[q] && s'.used[q] && s'.refs[q] == 1
         else s'.used[q] == s.used[q] && s'.refs[q] == s.refs[q]
  }

  lemma TookNone(s: Pmm.State)
    requires |s.used| == |s.refs| == Pmm.MAX_PAGES
    ensures PagesTaken(s, s, {})
  {
  }

  lemma TookOne(s: Pmm.State, s': Pmm.State, page: nat, owned: map<nat, nat>, c: nat)
    requires |s.used| == |s.refs| == Pmm.MAX_PAGES && page < Pmm.MAX_PAGES && !s.used[page]
    requires s'.used == s.used[page := true] && s'.refs == s.refs[page := 1]
    ensures PagesTaken(s, s', {page}) && Adding(owned, {page}, c) == owned[page := c]
  {
  }

  lemma WellSized(hhdm: nat, owned: map<nat, nat>, free: seq<seq<Addr>>, live: map<Addr, nat>)
    requires Members(hhdm, owned, free, live)
    ensures |free| == CLASSES
  {
  }

  lemma ClassRange(size: nat, al: nat, c: nat)
    requires IsClassFor(size, al, c)
    ensures c <= CLASSES
  {
  }

  lemma ListHead(hhdm: nat, owned: map<nat, nat>, live: map<Addr, nat>, w: Words, heads: seq<Addr>, free: seq<seq<Addr>>, c: nat)
    requires Chains(w, heads, free) && Members(hhdm, owned, free, live) && 0 < hhdm && c < CLASSES
    ensures |heads| == |free| == CLASSES && (heads[c] == 0 <==> free[c] == [])
    ensures free[c] != [] ==> heads[c] == free[c][0] && Distinct(free[c])
  {
    if free[c] != [] {
      assert free[c][0] in free[c];
      assert IsSlice(hhdm, owned, free[c][0], c);
    }
  }

  lemma PopMembers(hhdm: nat, owned: map<nat, nat>, free: seq<seq<Addr>>, live: map<Addr, nat>, c: nat)
    requires Members(hhdm, owned, free, live) && c < CLASSES && free[c] != [] && Distinct(free[c])
    ensures free[c][0] !in live
    ensures Members(hhdm, owned, free[c := free[c][1..]], live[free[c][0] := c])
  {
    hide IsSlice;
    hide Distinct;
    var a := free[c][0];
    assert a in free[c];
    var free', live' := free[c := free[c][1..]], live[a := c];
    forall d, b | 0 <= d < CLASSES
      ensures b in free'[d] <==> IsSlice(hhdm, owned, b, d) && b !in live'
    {
      TailMembers(free[c], b);
      if IsSlice(hhdm, owned, a, d) {
        OneClass(hhdm, owned, a, c, d);
      }
    }
  }

  lemma OneClass(hhdm: nat, owned: map<nat, nat>, a: Addr, c: nat, d: nat)
    requires IsSlice(hhdm, owned, a, c) && IsSlice(hhdm, owned, a, d)
    ensures c == d
  {
  }

  lemma TailMembers(fl: seq<Addr>, b: Addr)
    requires fl != [] && Distinct(fl)
    ensures b in fl[1..] <==> b in fl && b != fl[0]
  {
    if b in fl && b != fl[0] {
      var k :| 0 <= k < |fl| && fl[k] == b;
      assert fl[1..][k - 1] == b;
    }
  }

  lemma PushMembers(hhdm: nat, owned: map<nat, nat>, free: seq<seq<Addr>>, live: map<Addr, nat>, a: Addr)
    requires Members(hhdm, owned, free, live) && a in live
    ensures live[a] < CLASSES
    ensures Members(hhdm, owned, free[live[a] := [a] + free[live[a]]], live - {a})
  {
  }
}

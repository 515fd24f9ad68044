/** The kernel allocation facade: slices, the heap and whole pages over one page allocator. */
module Kalloc {
  import opened Arith
  import Pmm
  import opened HeapBlocks
  import opened HeapLaws
  import opened HeapSpec
  import opened KernelHeap
  import opened Slices

  const HEAP_MAX: nat := 1048576

  // ----- routing -----

  datatype Backend = Nowhere | FromSlices | FromHeap | FromPages

  /** Where an allocation is taken from. */
  function Producer(size: nat, al: nat): Backend {
    if size == 0 then Nowhere
    else if size <= LARGEST && al <= CLASS_ALIGN then FromSlices
    else if size <= HEAP_MAX then FromHeap
    else if al > Pmm.PAGE_SIZE then Nowhere
    else FromPages
  }

  /** Where a release goes, given whether the pointer lies in the heap. */
  function Consumer(size: nat, inHeap: bool): Backend {
    if size == 0 then Nowhere
    else if size <= LARGEST then FromSlices
    else if inHeap then FromHeap
    else FromPages
  }

  /** A block goes back where it came from exactly if it was not a small one with a large
      alignment. */
  lemma RoutesBackIff(size: nat, al: nat)
    requires Producer(size, al) != Nowhere
    ensures Consumer(size, Producer(size, al) == FromHeap) == Producer(size, al) <==> !(size <= LARGEST && al > CLASS_ALIGN)
  {
  }

  /** Eight bytes with an alignment of 32. */
  lemma RoutesAstray()
    ensures Producer(8, 32) == FromHeap && Consumer(8, true) == FromSlices && IsClassFor(8, 8, 0)
  {
    assert PowerOfTwo(8) by { assert PowerOfTwo(1) && PowerOfTwo(2) && PowerOfTwo(4); }
  }

  function PageCount(size: nat): nat { (size + Pmm.PAGE_SIZE - 1) % Pmm.U64 / Pmm.PAGE_SIZE }

  /** The pages are as few as hold the bytes; the sum wraps for the sizes of the last page. */
  lemma PageCountIs(size: nat)
    requires size < 0x1_0000_0000_0000_0000
    ensures var n := PageCount(size);
            if size <= 0xFFFF_FFFF_FFFF_F000 then n * 4096 >= size && size + 4096 > n * 4096 else n == 0
  {
  }

  /** The rounded-up alignment grants every power of two that was asked for, and at least 8. */
  lemma AlignedFor(p: Addr, al: nat)
    requires p % Alignment(al) == 0 && PowerOfTwo(al)
    ensures p % al == 0 && (al < 8 ==> p % 8 == 0)
  {
    if al < 8 {
      assert PowerOfTwo(8) by { assert PowerOfTwo(2) && PowerOfTwo(4); }
      PowersDivide(al, 8);
      MultipleOf(p, al, 8 / al);
    }
  }

  /** The start of a page is a multiple of every power of two up to the page size. */
  lemma PageAligned(p: Addr, al: nat)
    requires p % 4096 == 0 && PowerOfTwo(al) && al <= 4096
    ensures p % al == 0
  {
    assert PowerOfTwo(4096) by {
      assert PowerOfTwo(4) && PowerOfTwo(8) && PowerOfTwo(16) && PowerOfTwo(32) && PowerOfTwo(64);
      assert PowerOfTwo(128) && PowerOfTwo(256) && PowerOfTwo(512) && PowerOfTwo(1024) && PowerOfTwo(2048);
    }
    PowersDivide(al, 4096);
    MultipleOf(p, al, 4096 / al);
  }

  lemma MultipleOf(p: nat, al: nat, k: nat)
    requires 0 < al && 0 < k && p % (al * k) == 0
    ensures p % al == 0
  {
    var q := p / (al * k);
    assert p == q * (al * k);
    assert q * (al * k) == (q * k) * al;
    MultipleMod(q * k, al);
  }

  /** A power of two divides every larger one. */
  lemma {:induction false} PowersDivide(x: nat, y: nat)
    requires PowerOfTwo(x) && PowerOfTwo(y) && x <= y
    ensures 0 < x && y % x == 0 && y == x * (y / x)
  {
    if x > 1 {
      PowersDivide(x / 2, y / 2);
      assert y / 2 == x / 2 * (y / 2 / (x / 2));
      DivModUnique(y, x, y / 2 / (x / 2), 0);
    }
  }

  lemma SliceMultiple(hhdm: nat, owned: map<nat, nat>, p: Addr, c: nat)
    requires IsSlice(hhdm, owned, p, c) && hhdm % Pmm.PAGE_SIZE == 0
    ensures p % 16 == 0
  {
    var k := SizeTimes(c);
    hide Size;
    Offset16(hhdm, p - hhdm, k);
  }

  lemma SizeTimes(c: nat) returns (k: nat)
    ensures 0 < k && Size(c) == 16 * k
  {
    k := if c == 0 then 1 else if c == 1 then 2 else if c == 2 then 4 else if c == 3 then 8
         else if c == 4 then 16 else if c == 5 then 32 else if c == 6 then 64 else 128;
  }

  lemma Offset16(h: nat, d: nat, k: nat)
    requires 0 < k && d % (16 * k) == 0 && h % 4096 == 0
    ensures (h + d) % 16 == 0
  {
    MultipleOf(d, 16, k);
  }

  /** Slices lie at multiples of 16, so of every smaller power of two. */
  lemma SliceAligned(hhdm: nat, owned: map<nat, nat>, free: seq<seq<Addr>>, sl: map<Addr, nat>, p: Addr, al: nat)
    requires Members(hhdm, owned, free, sl) && p in sl && hhdm % Pmm.PAGE_SIZE == 0 && al <= 16 && PowerOfTwo(al)
    ensures p % al == 0
  {
    SliceMultiple(hhdm, owned, p, sl[p]);
    assert PowerOfTwo(16) by { assert PowerOfTwo(2) && PowerOfTwo(4) && PowerOfTwo(8); }
    PowersDivide(al, 16);
    MultipleOf(p, al, 16 / al);
  }

  // ----- who owns a page -----

  ghost predicate OnHeap(hhdm: nat, rs: seq<Region>, q: nat) {
    exists i :: 0 <= i < |rs| && hhdm <= rs[i].base && PageOf(hhdm, rs[i].base) <= q < PageOf(hhdm, rs[i].base) + GROW_PAGES
  }

  /** Page `q` belongs to the run of pages at `b`. */
  ghost predicate InRun(hhdm: nat, raw: map<Addr, nat>, b: Addr, q: nat) {
    b in raw && hhdm <= b && PageOf(hhdm, b) <= q < PageOf(hhdm, b) + raw[b]
  }

  /** Pages are used once: by the heap, by one size class or by one run. */
  ghost predicate Owners(st: Pmm.State, hhdm: nat, rs: seq<Region>, owned: map<nat, nat>, raw: map<Addr, nat>) {
    && |st.used| == |st.refs| == Pmm.MAX_PAGES && PagesUsed(st.used, hhdm, rs)
    && (forall q :: q in owned ==> q < Pmm.MAX_PAGES && st.used[q] && !OnHeap(hhdm, rs, q))
    && (forall b :: b in raw ==> 0 < raw[b] && RunAt(hhdm, b, raw[b]))
    && (forall b: Addr, q: nat {:trigger InRun(hhdm, raw, b, q)} :: InRun(hhdm, raw, b, q) ==>
          q < Pmm.MAX_PAGES && st.used[q] && st.refs[q] == 1 && !OnHeap(hhdm, rs, q) && q !in owned)
    && (forall b: Addr, c: Addr, q: nat {:trigger InRun(hhdm, raw, b, q), InRun(hhdm, raw, c, q)} ::
          InRun(hhdm, raw, b, q) && InRun(hhdm, raw, c, q) ==> b == c)
  }

  lemma GotOnHeap(hhdm: nat, rs: seq<Region>, got: seq<Addr>, q: nat)
    ensures OnHeap(hhdm, Plus(rs, got), q) <==> OnHeap(hhdm, rs, q) || InGot(hhdm, got, q)
  {
    var rs' := Plus(rs, got);
    if OnHeap(hhdm, rs, q) {
      var i :| 0 <= i < |rs| && hhdm <= rs[i].base && PageOf(hhdm, rs[i].base) <= q < PageOf(hhdm, rs[i].base) + GROW_PAGES;
      assert rs'[i] == rs[i];
    }
    if InGot(hhdm, got, q) {
      var i :| 0 <= i < |got| && hhdm <= got[i] && PageOf(hhdm, got[i]) <= q < PageOf(hhdm, got[i]) + GROW_PAGES;
      assert rs'[|rs| + i].base == got[i];
    }
  }

  lemma OwnersGrow(st: Pmm.State, st': Pmm.State, hhdm: nat, rs: seq<Region>, owned: map<nat, nat>, raw: map<Addr, nat>, got: seq<Addr>)
    requires Owners(st, hhdm, rs, owned, raw) && Handed(st, st', hhdm, got) && PagesUsed(st'.used, hhdm, Plus(rs, got))
    ensures Owners(st', hhdm, Plus(rs, got), owned, raw)
  {
    hide PagesUsed;
    hide OnHeap;
    hide InGot;
    hide Plus;
    forall q | 0 <= q < Pmm.MAX_PAGES
      ensures OnHeap(hhdm, Plus(rs, got), q) <==> OnHeap(hhdm, rs, q) || InGot(hhdm, got, q)
    {
      GotOnHeap(hhdm, rs, got, q);
    }
  }

  lemma OwnersCut(st: Pmm.State, st': Pmm.State, hhdm: nat, rs: seq<Region>, owned: map<nat, nat>, raw: map<Addr, nat>, pages: set<nat>, c: nat)
    requires Owners(st, hhdm, rs, owned, raw) && PagesTaken(st, st', pages)
    ensures Owners(st', hhdm, rs, Adding(owned, pages, c), raw)
  {
    HeapPagesUsed(st.used, hhdm, rs);
    hide OnHeap;
    forall q | q in Adding(owned, pages, c)
      ensures q < Pmm.MAX_PAGES && st'.used[q] && !OnHeap(hhdm, rs, q)
    {
      assert q in owned || q in pages;
    }
  }

  lemma HeapPagesUsed(used: seq<bool>, hhdm: nat, rs: seq<Region>)
    requires PagesUsed(used, hhdm, rs)
    ensures forall q: nat :: OnHeap(hhdm, rs, q) ==> q < |used| && used[q]
  {
    forall q: nat | OnHeap(hhdm, rs, q)
      ensures q < |used| && used[q]
    {
      var i :| 0 <= i < |rs| && hhdm <= rs[i].base && PageOf(hhdm, rs[i].base) <= q < PageOf(hhdm, rs[i].base) + GROW_PAGES;
      assert RunAt(hhdm, rs[i].base, GROW_PAGES);
    }
  }

  lemma OwnersRun(st: Pmm.State, st': Pmm.State, hhdm: nat, rs: seq<Region>, owned: map<nat, nat>, raw: map<Addr, nat>, page: nat, n: nat)
    requires Owners(st, hhdm, rs, owned, raw) && Pmm.AllocAt(st, page, n, st') && hhdm % Pmm.PAGE_SIZE == 0
    ensures var b := hhdm + page * Pmm.PAGE_SIZE;
            b !in raw && Owners(st', hhdm, rs, owned, raw[b := n])
  {
    HeapPagesUsed(st.used, hhdm, rs);
    hide OnHeap;
    var b := hhdm + page * Pmm.PAGE_SIZE;
    var raw' := raw[b := n];
    assert PageOf(hhdm, b) == page;
    assert b in raw ==> InRun(hhdm, raw, b, page);
    forall c: Addr, q: nat | InRun(hhdm, raw', c, q)
      ensures if c == b then q < Pmm.MAX_PAGES && !st.used[q] else InRun(hhdm, raw, c, q)
    {
    }
  }

  lemma OwnersFreed(st: Pmm.State, st': Pmm.State, hhdm: nat, rs: seq<Region>, owned: map<nat, nat>, raw: map<Addr, nat>, b: Addr)
    requires Owners(st, hhdm, rs, owned, raw) && b in raw && st.Wf()
    requires Pmm.ReleasedRange(st, PageOf(hhdm, b), PageOf(hhdm, b) + raw[b], st')
    ensures Owners(st', hhdm, rs, owned, raw - {b})
    ensures forall q :: 0 <= q < Pmm.MAX_PAGES ==> st'.used[q] == (st.used[q] && !InRun(hhdm, raw, b, q))
  {
    assert RunAt(hhdm, b, raw[b]);
    HeapPagesUsed(st.used, hhdm, rs);
    forall q | 0 <= q < Pmm.MAX_PAGES
      ensures st'.used[q] == (st.used[q] && !InRun(hhdm, raw, b, q))
      ensures !InRun(hhdm, raw, b, q) ==> st'.refs[q] == st.refs[q]
    {
    }
    FreedHeap(st, st', hhdm, rs, raw, b);
    hide OnHeap;
    forall c: Addr, q: nat | InRun(hhdm, raw - {b}, c, q)
      ensures InRun(hhdm, raw, c, q) && c != b
    {
    }
  }

  lemma FreedHeap(st: Pmm.State, st': Pmm.State, hhdm: nat, rs: seq<Region>, raw: map<Addr, nat>, b: Addr)
    requires PagesUsed(st.used, hhdm, rs) && |st'.used| == Pmm.MAX_PAGES
    requires forall q :: 0 <= q < Pmm.MAX_PAGES ==> st'.used[q] == (st.used[q] && !InRun(hhdm, raw, b, q))
    requires forall q: nat :: InRun(hhdm, raw, b, q) ==> !OnHeap(hhdm, rs, q)
    ensures PagesUsed(st'.used, hhdm, rs)
  {
    forall i, q | 0 <= i < |rs| && hhdm <= rs[i].base && PageOf(hhdm, rs[i].base) <= q < PageOf(hhdm, rs[i].base) + GROW_PAGES && q < |st'.used|
      ensures st'.used[q]
    {
      assert OnHeap(hhdm, rs, q);
    }
  }

  // ----- live blocks -----

  /** How the block at `p` of `size` bytes is held by its backend. */
  ghost predicate HeldBy(p: Addr, size: nat, at: map<Addr, Addr>, blk: map<Addr, Block>, sl: map<Addr, nat>, raw: map<Addr, nat>) {
    if size <= LARGEST then 0 < size && p in sl && IsClassFor(size, 8, sl[p])
    else if size <= HEAP_MAX then
      p in at && at[p] in blk && blk[at[p]].Used? && blk[at[p]].user == p && blk[at[p]].len == size
    else p in raw && raw[p] == PageCount(size) && size <= raw[p] * Pmm.PAGE_SIZE
  }

  /** The live blocks are exactly those the backends hold. */
  ghost predicate Held(live: map<Addr, nat>, at: map<Addr, Addr>, blk: map<Addr, Block>, sl: map<Addr, nat>, raw: map<Addr, nat>) {
    && (forall p :: p in live ==> HeldBy(p, live[p], at, blk, sl, raw))
    && (forall p :: p in sl ==> p in live && live[p] <= LARGEST)
    && (forall p :: p in raw ==> p in live && HEAP_MAX < live[p])
    && (forall a :: a in Live(blk) ==>
          var p := Live(blk)[a].user; p in live && LARGEST < live[p] <= HEAP_MAX && p in at && at[p] == a)
  }

  // ----- where a live block lies -----

  lemma RegionPage(hhdm: nat, rs: seq<Region>, used: seq<bool>, x: Addr)
    requires PagesUsed(used, hhdm, rs) && InSome(rs, x) && forall i :: 0 <= i < |rs| ==> rs[i].limit == rs[i].base + REGION_SIZE
    ensures hhdm <= x && OnHeap(hhdm, rs, PageOf(hhdm, x))
  {
    var i :| 0 <= i < |rs| && InRegion(rs[i], x);
    assert RunAt(hhdm, rs[i].base, GROW_PAGES);
    assert PageOf(hhdm, rs[i].base) <= PageOf(hhdm, x) < PageOf(hhdm, rs[i].base) + GROW_PAGES;
  }

  lemma SliceBytes(hhdm: nat, owned: map<nat, nat>, p: Addr, c: nat, x: Addr)
    requires IsSlice(hhdm, owned, p, c) && p <= x < p + Size(c)
    ensures hhdm <= x && PageOf(hhdm, x) in owned
  {
    SlicesDisjoint(hhdm, owned, p, c, p, c);
    assert PageOf(hhdm, p) <= PageOf(hhdm, x) <= PageOf(hhdm, p + Size(c) - 1);
  }

  lemma RunBytes(hhdm: nat, raw: map<Addr, nat>, p: Addr, x: Addr)
    requires p in raw && RunAt(hhdm, p, raw[p]) && p <= x < p + raw[p] * Pmm.PAGE_SIZE
    ensures InRun(hhdm, raw, p, PageOf(hhdm, x))
  {
    var o, n := p - hhdm, raw[p];
    assert o == o / Pmm.PAGE_SIZE * Pmm.PAGE_SIZE;
    assert x - hhdm < (o / Pmm.PAGE_SIZE + n) * Pmm.PAGE_SIZE;
  }

  /** Everything the facade's invariant says, as one value. */
  datatype View = View(st: Pmm.State, hhdm: nat, h: HeapBlocks.Heap, owned: map<nat, nat>, free: seq<seq<Addr>>,
                       sl: map<Addr, nat>, raw: map<Addr, nat>, live: map<Addr, nat>, at: map<Addr, Addr>)

  ghost predicate Sane(v: View) {
    && Inv(v.h) && (forall i :: 0 <= i < |v.h.regions| ==> v.h.regions[i].limit == v.h.regions[i].base + REGION_SIZE)
    && Owners(v.st, v.hhdm, v.h.regions, v.owned, v.raw) && Members(v.hhdm, v.owned, v.free, v.sl)
    && Held(v.live, v.at, v.h.blk, v.sl, v.raw)
  }

  /** Byte `x` of the live block at `p` lies in a page of the block's backend. */
  ghost predicate AtHome(v: View, p: Addr, x: Addr)
    requires p in v.live
  {
    && v.hhdm <= x
    && if v.live[p] <= LARGEST then PageOf(v.hhdm, x) in v.owned
       else if v.live[p] <= HEAP_MAX then OnHeap(v.hhdm, v.h.regions, PageOf(v.hhdm, x))
       else InRun(v.hhdm, v.raw, p, PageOf(v.hhdm, x))
  }

  lemma Home(v: View, p: Addr, x: Addr)
    requires Sane(v) && p in v.live && p <= x < p + v.live[p]
    ensures AtHome(v, p, x)
  {
    hide Inv;
    hide OnHeap;
    hide InSome;
    assert HeldBy(p, v.live[p], v.at, v.h.blk, v.sl, v.raw);
    if v.live[p] <= LARGEST {
      SliceBytes(v.hhdm, v.owned, p, v.sl[p], x);
    } else if v.live[p] <= HEAP_MAX {
      LiveRanges(v.h, v.at[p], v.at[p]);
      RegionPage(v.hhdm, v.h.regions, v.st.used, x);
    } else {
      RunBytes(v.hhdm, v.raw, p, x);
    }
  }

  /** Live blocks are pairwise disjoint, whatever backends they come from. */
  lemma LiveDisjoint(v: View, p: Addr, q: Addr)
    requires Sane(v) && p in v.live && q in v.live && p != q
    ensures Disjoint(p, p + v.live[p], q, q + v.live[q])
  {
    hide Sane;
    if q < p {
      NoSharedByte(v, p, q);
    } else {
      NoSharedByte(v, q, p);
    }
  }

  /** A lower block ends before a higher one starts. */
  lemma NoSharedByte(v: View, p: Addr, q: Addr)
    requires Sane(v) && p in v.live && q in v.live && q < p
    ensures q + v.live[q] <= p
  {
    hide Inv;
    hide OnHeap;
    assert HeldBy(p, v.live[p], v.at, v.h.blk, v.sl, v.raw) && HeldBy(q, v.live[q], v.at, v.h.blk, v.sl, v.raw);
    if v.live[p] <= LARGEST && v.live[q] <= LARGEST {
      SlicesDisjoint(v.hhdm, v.owned, q, v.sl[q], p, v.sl[p]);
    } else if LARGEST < v.live[p] <= HEAP_MAX && LARGEST < v.live[q] <= HEAP_MAX {
      LiveRanges(v.h, v.at[q], v.at[p]);
    } else if p < q + v.live[q] {
      hide Members;
      hide Held;
      hide HeldBy;
      Home(v, p, p);
      Home(v, q, p);
    }
  }

  // ----- what each operation does to the blocks held -----

  /** A pointer into a page of one backend is not a live block of another. */
  lemma NewSlice(v: View, st: Pmm.State, owned: map<nat, nat>, p: Addr)
    requires Sane(v) && p !in v.sl && v.hhdm <= p && PageOf(v.hhdm, p) in owned
    requires Owners(st, v.hhdm, v.h.regions, owned, v.raw)
    ensures p !in v.live
  {
    hide Inv;
    hide OnHeap;
    hide Members;
    if p in v.live {
      assert HeldBy(p, v.live[p], v.at, v.h.blk, v.sl, v.raw);
      Home(v, p, p);
    }
  }

  lemma HoldSlice(live: map<Addr, nat>, at: map<Addr, Addr>, blk: map<Addr, Block>, sl: map<Addr, nat>, raw: map<Addr, nat>,
                  p: Addr, size: nat, al: nat, c: nat)
    requires Held(live, at, blk, sl, raw) && 0 < size <= LARGEST && IsClassFor(size, al, c) && c < CLASSES && p !in live
    ensures Held(live[p := size], at, blk, sl[p := c], raw)
  {
    hide Live;
    assert PowerOfTwo(8);
    var live' := live[p := size];
    forall q | q in live'
      ensures HeldBy(q, live'[q], at, blk, sl[p := c], raw)
    {
      assert q != p ==> HeldBy(q, live[q], at, blk, sl, raw);
    }
  }

  lemma DropSlice(live: map<Addr, nat>, at: map<Addr, Addr>, blk: map<Addr, Block>, sl: map<Addr, nat>, raw: map<Addr, nat>, p: Addr)
    requires Held(live, at, blk, sl, raw) && p in live && live[p] <= LARGEST
    ensures Held(live - {p}, at, blk, sl - {p}, raw)
  {
    hide Live;
    forall q | q in live - {p}
      ensures HeldBy(q, live[q], at, blk, sl - {p}, raw)
    {
      assert HeldBy(q, live[q], at, blk, sl, raw);
    }
  }

  lemma NewHeap(v: View, st: Pmm.State, rs: seq<Region>, p: Addr)
    requires Sane(v) && v.hhdm <= p && OnHeap(v.hhdm, rs, PageOf(v.hhdm, p))
    requires Owners(st, v.hhdm, rs, v.owned, v.raw)
    requires forall a :: a in Live(v.h.blk) ==> Live(v.h.blk)[a].user != p
    ensures p !in v.live
  {
    hide Inv;
    hide OnHeap;
    hide Members;
    if p in v.live {
      assert HeldBy(p, v.live[p], v.at, v.h.blk, v.sl, v.raw);
      assert LARGEST < v.live[p] <= HEAP_MAX ==> v.at[p] in Live(v.h.blk);
      Home(v, p, p);
    }
  }

  lemma HoldHeap(live: map<Addr, nat>, at: map<Addr, Addr>, blk: map<Addr, Block>, sl: map<Addr, nat>, raw: map<Addr, nat>,
                 blk': map<Addr, Block>, p: Addr, size: nat, a: Addr, al: nat)
    requires Held(live, at, blk, sl, raw) && LARGEST < size <= HEAP_MAX && p !in live && Added(blk, blk', a, p, size, al)
    ensures Held(live[p := size], at[p := a], blk', sl, raw)
  {
    var live' := live[p := size];
    forall q | q in live'
      ensures HeldBy(q, live'[q], at[p := a], blk', sl, raw)
    {
      if q != p {
        assert HeldBy(q, live[q], at, blk, sl, raw);
        assert LARGEST < live[q] <= HEAP_MAX ==> at[q] in Live(blk) && at[q] in Live(blk');
      }
    }
  }

  /** A block the heap has just added is new, and the facade may hold it. */
  lemma HeapTaken(v: View, st: Pmm.State, h: HeapBlocks.Heap, p: Addr, size: nat, a: Addr, al: nat)
    requires Sane(v) && Inv(h) && Owners(st, v.hhdm, h.regions, v.owned, v.raw) && PagesUsed(st.used, v.hhdm, h.regions)
    requires forall i :: 0 <= i < |h.regions| ==> h.regions[i].limit == h.regions[i].base + REGION_SIZE
    requires Added(v.h.blk, h.blk, a, p, size, al) && LARGEST < size <= HEAP_MAX && 0 < al
    ensures p !in v.live && Held(v.live[p := size], v.at[p := a], h.blk, v.sl, v.raw) && p % al == 0
  {
    hide Inv;
    hide Owners;
    hide Members;
    hide PagesUsed;
    hide OnHeap;
    FreshUser(h, v.h.blk, a, p, size, al);
    RegionPage(v.hhdm, h.regions, st.used, p);
    NewHeap(v, st, h.regions, p);
    HoldHeap(v.live, v.at, v.h.blk, v.sl, v.raw, h.blk, p, size, a, al);
    LiveRanges(h, a, a);
  }

  lemma SameLive(live: map<Addr, nat>, at: map<Addr, Addr>, blk: map<Addr, Block>, sl: map<Addr, nat>, raw: map<Addr, nat>,
                 blk': map<Addr, Block>)
    requires Held(live, at, blk, sl, raw) && Live(blk') == Live(blk)
    ensures Held(live, at, blk', sl, raw)
  {
    forall q | q in live
      ensures HeldBy(q, live[q], at, blk', sl, raw)
    {
      assert HeldBy(q, live[q], at, blk, sl, raw);
      assert LARGEST < live[q] <= HEAP_MAX ==> at[q] in Live(blk) && at[q] in Live(blk');
    }
  }

  lemma DropHeap(live: map<Addr, nat>, at: map<Addr, Addr>, blk: map<Addr, Block>, sl: map<Addr, nat>, raw: map<Addr, nat>,
                 blk': map<Addr, Block>, p: Addr)
    requires Held(live, at, blk, sl, raw) && p in live && LARGEST < live[p] <= HEAP_MAX
    requires p in at && Live(blk') == Live(blk) - {at[p]}
    ensures Held(live - {p}, at, blk', sl, raw)
  {
    assert HeldBy(p, live[p], at, blk, sl, raw);
    forall q | q in live - {p}
      ensures HeldBy(q, live[q], at, blk', sl, raw)
    {
      assert HeldBy(q, live[q], at, blk, sl, raw);
      assert LARGEST < live[q] <= HEAP_MAX ==> at[q] in Live(blk) && at[q] != at[p] && at[q] in Live(blk');
    }
    forall a | a in Live(blk')
      ensures a in Live(blk) && Live(blk)[a] == Live(blk')[a] && Live(blk')[a].user != p
    {
    }
  }

  lemma NewRun(v: View, st: Pmm.State, raw: map<Addr, nat>, p: Addr)
    requires Sane(v) && p !in v.raw && InRun(v.hhdm, raw, p, if v.hhdm <= p then PageOf(v.hhdm, p) else 0)
    requires Owners(st, v.hhdm, v.h.regions, v.owned, raw)
    ensures p !in v.live
  {
    hide Inv;
    hide OnHeap;
    hide Members;
    if p in v.live {
      assert HeldBy(p, v.live[p], v.at, v.h.blk, v.sl, v.raw);
      Home(v, p, p);
    }
  }

  lemma HoldRun(live: map<Addr, nat>, at: map<Addr, Addr>, blk: map<Addr, Block>, sl: map<Addr, nat>, raw: map<Addr, nat>,
                p: Addr, size: nat)
    requires Held(live, at, blk, sl, raw) && HEAP_MAX < size && p !in live && size <= PageCount(size) * Pmm.PAGE_SIZE
    ensures Held(live[p := size], at, blk, sl, raw[p := PageCount(size)])
  {
    hide Live;
    var live' := live[p := size];
    forall q | q in live'
      ensures HeldBy(q, live'[q], at, blk, sl, raw[p := PageCount(size)])
    {
      assert q != p ==> HeldBy(q, live[q], at, blk, sl, raw);
    }
  }

  lemma DropRun(live: map<Addr, nat>, at: map<Addr, Addr>, blk: map<Addr, Block>, sl: map<Addr, nat>, raw: map<Addr, nat>, p: Addr)
    requires Held(live, at, blk, sl, raw) && p in live && HEAP_MAX < live[p]
    ensures Held(live - {p}, at, blk, sl, raw - {p})
  {
    hide Live;
    forall q | q in live - {p}
      ensures HeldBy(q, live[q], at, blk, sl, raw - {p})
    {
      assert HeldBy(q, live[q], at, blk, sl, raw);
    }
  }

  lemma UsersDistinct(h: HeapBlocks.Heap, a: Addr, c: Addr)
    requires Inv(h) && a in h.blk && c in h.blk && a != c && h.blk[a].Used? && h.blk[c].Used?
    ensures h.blk[a].user != h.blk[c].user
  {
    assert BlockOk(a, h.blk[a]) && BlockOk(c, h.blk[c]);
  }

  /** A new heap block has a user pointer of its own. */
  lemma FreshUser(h: HeapBlocks.Heap, blk: map<Addr, Block>, a: Addr, p: Addr, size: nat, al: nat)
    requires Inv(h) && Added(blk, h.blk, a, p, size, al) && 0 < size
    ensures forall c :: c in Live(blk) ==> Live(blk)[c].user != p
    ensures InSome(h.regions, p)
  {
    hide Inv;
    LiveRanges(h, a, a);
    forall c | c in Live(blk)
      ensures Live(blk)[c].user != p
    {
      assert c in Live(h.blk) && c != a;
      UsersDistinct(h, c, a);
    }
  }

  class Kmem {
    const pmm: Pmm.Allocator
    const heap: Arena
    const slices: SliceAllocator
    ghost var raw: map<Addr, nat>
    ghost var live: map<Addr, nat>
    ghost var at: map<Addr, Addr>

    ghost predicate Valid()
      reads this, heap, slices, pmm, pmm.bitmap, pmm.refcounts
    {
      && heap.pmm == pmm && slices.pmm == pmm && heap.hhdm == slices.hhdm
      && heap.Valid() && heap.Paged() && slices.Valid() && slices.Paged()
      && Owners(pmm.st, heap.hhdm, heap.regions, slices.owned, raw)
      && Held(live, at, heap.blk, slices.live, raw)
    }

    constructor (pmm: Pmm.Allocator, hhdm: nat)
      requires pmm.Valid() && 0 < hhdm && hhdm % Pmm.PAGE_SIZE == 0
      ensures Valid() && live == map[] && fresh(heap) && fresh(slices) && this.pmm == pmm
    {
      this.pmm := pmm;
      heap := new Arena(pmm, hhdm);
      slices := new SliceAllocator(pmm, hhdm);
      raw := map[];
      live := map[];
      at := map[];
    }

    ghost function Snap(): View
      reads this, heap, slices, pmm
    {
      View(pmm.st, heap.hhdm, heap.State(), slices.owned, slices.free, slices.live, raw, live, at)
    }

    /** Live blocks never overlap. */
    lemma LiveBlocksDisjoint(p: Addr, q: Addr)
      requires Valid() && p in live && q in live && p != q
      ensures Disjoint(p, p + live[p], q, q + live[q])
    {
      LiveDisjoint(Snap(), p, q);
    }

    method AllocSlice(size: nat, al: nat) returns (p: Addr)
      requires Valid() && 0 < size <= LARGEST && al <= CLASS_ALIGN
      modifies this, slices, pmm, pmm.bitmap, pmm.refcounts
      ensures Valid()
      ensures if p == 0 then live == old(live) else p !in old(live) && live == old(live)[p := size]
      ensures p == 0 && PowerOfTwo(al) ==> forall q :: 0 <= q < Pmm.MAX_PAGES ==> pmm.st.used[q]
      ensures p != 0 && PowerOfTwo(al) ==> p % al == 0
    {
      hide Inv;
      hide Owners;
      hide Held;
      hide PagesTaken;
      hide Adding;
      hide PagesUsed;
      hide Chains;
      hide Members;
      hide Counted;
      ghost var v := Snap();
      ghost var c, pages;
      p, c, pages := slices.Alloc(size, al);
      OwnersCut(v.st, pmm.st, v.hhdm, v.h.regions, v.owned, v.raw, pages, c);
      OwnersPaged(pmm.st, v.hhdm, v.h.regions, slices.owned, v.raw);
      if p != 0 {
        SlicePage(v.hhdm, slices.owned, slices.free, slices.live, p);
        NewSlice(v, pmm.st, slices.owned, p);
        HoldSlice(v.live, v.at, v.h.blk, v.sl, v.raw, p, size, al, c);
        if PowerOfTwo(al) {
          SliceAligned(v.hhdm, slices.owned, slices.free, slices.live, p, al) by { assert PagesUsed(pmm.st.used, v.hhdm, heap.regions); }
        }
        live := live[p := size];
      }
    }

    method AllocHeap(size: nat, al: nat) returns (p: Addr)
      requires Valid() && LARGEST < size <= HEAP_MAX && size % 2 == 0 && (al < MIN_ALIGN || PowerOfTwo(al))
      requires NoWrap(heap.hhdm + PHYS_LIMIT, size, Alignment(al))
      modifies this, heap, pmm, pmm.bitmap, pmm.refcounts
      ensures Valid()
      ensures if p == 0 then live == old(live) else p !in old(live) && live == old(live)[p := size]
      ensures p != 0 ==> p % Alignment(al) == 0 && (PowerOfTwo(al) ==> p % al == 0)
      ensures p == 0 ==> |heap.regions| == MAX_REGIONS || !exists q :: Pmm.FreeRun(pmm.st.used, q, GROW_PAGES)
    {
      hide Inv;
      hide Owners;
      hide Held;
      hide Handed;
      hide PagesUsed;
      hide Chains;
      hide Members;
      hide Counted;
      hide NoWrap;
      hide Plus;
      hide Placed;
      hide Fits;
      hide NoFit;
      hide UserFor;
      hide Live;
      hide Taken;
      hide Wanted;
      hide RegionsApart;
      hide PowerOfTwo;
      hide FirstFit;
      hide WithRegions;
      hide Kept;
      ghost var v := Snap();
      ghost var got, a;
      p, got, a := heap.Alloc(size, al);
      OwnersGrow(v.st, pmm.st, v.hhdm, v.h.regions, v.owned, v.raw, got);
      OwnersPaged(pmm.st, v.hhdm, heap.regions, slices.owned, v.raw);
      if p == 0 {
        SameLive(v.live, v.at, v.h.blk, v.sl, v.raw, heap.blk);
      } else {
        HeapTaken(v, pmm.st, heap.State(), p, size, a, Alignment(al));
        if PowerOfTwo(al) {
          AlignedFor(p, al);
        }
        live := live[p := size];
        at := at[p := a];
      }
    }

    method AllocRun(size: nat) returns (p: Addr)
      requires Valid() && HEAP_MAX < size < Pmm.U64
      modifies this, pmm, pmm.bitmap, pmm.refcounts
      ensures Valid()
      ensures if p == 0 then live == old(live) else p !in old(live) && live == old(live)[p := size]
      ensures p == 0 <==> !exists q :: Pmm.FreeRun(old(pmm.st).used, q, PageCount(size))
      ensures p == 0 ==> pmm.st == old(pmm.st)
      ensures p != 0 ==> p % Pmm.PAGE_SIZE == 0
    {
      hide Inv;
      hide Owners;
      hide Held;
      hide PagesUsed;
      hide Chains;
      hide Members;
      hide Counted;
      ghost var v := Snap();
      var count := PageCount(size);
      var phys := pmm.AllocPages(count);
      if phys == Pmm.INVALID {
        return 0;
      }
      p := phys + heap.hhdm;
      OwnersRun(v.st, pmm.st, v.hhdm, v.h.regions, v.owned, v.raw, phys / Pmm.PAGE_SIZE, count);
      OwnersPaged(pmm.st, v.hhdm, heap.regions, slices.owned, v.raw[p := count]);
      PageCountIs(size);
      NewRun(v, pmm.st, v.raw[p := count], p);
      HoldRun(v.live, v.at, v.h.blk, v.sl, v.raw, p, size);
      raw := raw[p := count];
      live := live[p := size];
    }

    /** A block of `size` bytes, from the backend that `Producer` names. */
    method Alloc(size: nat, al: nat) returns (p: Addr)
      requires Valid() && size < Pmm.U64 && (size <= LARGEST ==> al <= CLASS_ALIGN)
      requires LARGEST < size <= HEAP_MAX ==> size % 2 == 0 && (al < MIN_ALIGN || PowerOfTwo(al))
      requires NoWrap(heap.hhdm + PHYS_LIMIT, HEAP_MAX, Alignment(al))
      modifies this, heap, slices, pmm, pmm.bitmap, pmm.refcounts
      ensures Valid()
      ensures if p == 0 then live == old(live) else p !in old(live) && live == old(live)[p := size]
      ensures p != 0 && PowerOfTwo(al) ==> p % al == 0
      ensures Producer(size, al) == Nowhere ==> p == 0
      ensures Producer(size, al) == FromHeap && p == 0 ==>
                |heap.regions| == MAX_REGIONS || !exists q :: Pmm.FreeRun(pmm.st.used, q, GROW_PAGES)
      ensures Producer(size, al) == FromPages && p == 0 ==> !exists q :: Pmm.FreeRun(pmm.st.used, q, PageCount(size))
      ensures Producer(size, al) == FromSlices && p == 0 && PowerOfTwo(al) ==> forall q :: 0 <= q < Pmm.MAX_PAGES ==> pmm.st.used[q]
    {
      hide Inv;
      hide Owners;
      hide Held;
      hide PagesUsed;
      hide Chains;
      hide Members;
      hide Counted;
      if size == 0 {
        return 0;
      }
      if size <= LARGEST && al <= CLASS_ALIGN {
        p := AllocSlice(size, al);
        return;
      }
      if size <= HEAP_MAX {
        p := AllocHeap(size, al);
        return;
      }
      if al > Pmm.PAGE_SIZE {
        return 0;
      }
      p := AllocRun(size);
      if PowerOfTwo(al) && p != 0 {
        PageAligned(p, al);
      }
    }

    /** Releases a block of the size it was allocated with. It goes back to the size class,
        heap block or run of pages that it came from. */
    method Free(p: Addr, size: nat)
      requires Valid() && (p == 0 || size == 0 || (p in live && live[p] == size))
      modifies this, heap, slices, pmm, pmm.bitmap, pmm.refcounts
      ensures Valid()
      ensures if p == 0 || size == 0 then live == old(live) else live == old(live) - {p}
      ensures p != 0 && 0 < size <= LARGEST ==>
                && p in old(slices.live) && slices.live == old(slices.live) - {p} && heap.blk == old(heap.blk) && raw == old(raw)
                && slices.free == old(slices.free)[old(slices.live)[p] := [p] + old(slices.free)[old(slices.live)[p]]]
      ensures p != 0 && LARGEST < size <= HEAP_MAX ==>
                && p in at && Live(heap.blk) == Live(old(heap.blk)) - {at[p]} && slices.live == old(slices.live) && raw == old(raw)
      ensures p != 0 && HEAP_MAX < size ==>
                && p in old(raw) && raw == old(raw) - {p} && heap.blk == old(heap.blk) && slices.live == old(slices.live)
                && forall q :: 0 <= q < Pmm.MAX_PAGES ==>
                     pmm.st.used[q] == (old(pmm.st).used[q] && !InRun(heap.hhdm, old(raw), p, q))
    {
      hide Inv;
      hide Owners;
      hide Held;
      hide PagesUsed;
      hide Chains;
      hide Members;
      hide Counted;
      hide Live;
      hide Kept;
      hide InSome;
      hide OnHeap;
      if p == 0 || size == 0 {
        return;
      }
      ghost var v := Snap();
      HeldOne(v.live, v.at, v.h.blk, v.sl, v.raw, p);
      MembersSize(v.hhdm, v.owned, v.free, v.sl);
      if size <= LARGEST {
        DropSlice(v.live, v.at, v.h.blk, v.sl, v.raw, p);
        slices.Free(p, size, slices.live[p]);
        live := live - {p};
        return;
      }
      PointerHome(v, p);
      var inHeap := heap.Contains(p);
      if inHeap {
        FreeHeapBlock(p);
        return;
      }
      FreeRun(p, size);
    }

    method FreeHeapBlock(p: Addr)
      requires Valid() && p in live && LARGEST < live[p] <= HEAP_MAX && p != 0
      modifies this, heap
      ensures Valid() && live == old(live) - {p} && p in at && Live(heap.blk) == Live(old(heap.blk)) - {at[p]}
      ensures raw == old(raw)
    {
      hide Inv;
      hide Owners;
      hide Held;
      hide PagesUsed;
      hide Chains;
      hide Members;
      hide Counted;
      hide Live;
      hide Kept;
      ghost var v := Snap();
      HeldOne(v.live, v.at, v.h.blk, v.sl, v.raw, p);
      PointerHome(v, p);
      heap.Release(p, at[p]);
      DropHeap(v.live, v.at, v.h.blk, v.sl, v.raw, heap.blk, p);
      live := live - {p};
    }

    method FreeRun(p: Addr, size: nat)
      requires Valid() && p in live && live[p] == size && HEAP_MAX < size
      modifies this, pmm, pmm.bitmap, pmm.refcounts
      ensures Valid() && live == old(live) - {p} && p in old(raw) && raw == old(raw) - {p}
      ensures forall q :: 0 <= q < Pmm.MAX_PAGES ==>
                pmm.st.used[q] == (old(pmm.st).used[q] && !InRun(heap.hhdm, old(raw), p, q))
    {
      hide Inv;
      hide Owners;
      hide Held;
      hide PagesUsed;
      hide Chains;
      hide Members;
      hide Counted;
      ghost var v := Snap();
      HeldOne(v.live, v.at, v.h.blk, v.sl, v.raw, p);
      RunFacts(v.st, v.hhdm, v.h.regions, v.owned, v.raw, p);
      pmm.FreePages(p - heap.hhdm, PageCount(size));
      OwnersFreed(v.st, pmm.st, v.hhdm, v.h.regions, v.owned, v.raw, p);
      OwnersPaged(pmm.st, v.hhdm, v.h.regions, v.owned, v.raw - {p});
      DropRun(v.live, v.at, v.h.blk, v.sl, v.raw, p);
      raw := raw - {p};
      live := live - {p};
    }
  }

  /** What such a release leaves behind: the class hands the pointer out next, it is no slice,
      and the heap block it points into is still tagged live, with its range over the slice. */
  lemma AstrayRelease(st: Pmm.State, h: HeapBlocks.Heap, hhdm: nat, owned: map<nat, nat>, raw: map<Addr, nat>,
                      free: seq<seq<Addr>>, sl: map<Addr, nat>, a: Addr, c: nat)
    requires Inv(h) && forall i :: 0 <= i < |h.regions| ==> h.regions[i].limit == h.regions[i].base + REGION_SIZE
    requires Owners(st, hhdm, h.regions, owned, raw) && Members(hhdm, owned, free, sl)
    requires a in h.blk && h.blk[a].Used? && Producer(h.blk[a].len, h.blk[a].align) == FromHeap && h.blk[a].len <= LARGEST
    requires IsClassFor(h.blk[a].len, 8, c) && c < CLASSES
    ensures var p := h.blk[a].user; var free' := free[c := [p] + free[c]];
            && Consumer(h.blk[a].len, InSome(h.regions, p)) == FromSlices
            && free'[c][0] == p && !IsSlice(hhdm, owned, p, c) && !Members(hhdm, owned, free', sl)
            && a in Live(h.blk) && p < p + h.blk[a].len <= p + Size(c)
  {
    hide Inv;
    hide OnHeap;
    var p := h.blk[a].user;
    LiveRanges(h, a, a);
    RegionPage(hhdm, h.regions, st.used, p);
    assert !IsSlice(hhdm, owned, p, c);
    assert p in ([p] + free[c]);
  }

  lemma OwnersPaged(st: Pmm.State, hhdm: nat, rs: seq<Region>, owned: map<nat, nat>, raw: map<Addr, nat>)
    requires Owners(st, hhdm, rs, owned, raw)
    ensures PagesUsed(st.used, hhdm, rs) && |st.used| == Pmm.MAX_PAGES
    ensures forall q :: q in owned ==> q < Pmm.MAX_PAGES && st.used[q]
  {
  }

  lemma SlicePage(hhdm: nat, owned: map<nat, nat>, free: seq<seq<Addr>>, sl: map<Addr, nat>, p: Addr)
    requires Members(hhdm, owned, free, sl) && p in sl
    ensures hhdm <= p && PageOf(hhdm, p) in owned
  {
  }

  lemma MembersSize(hhdm: nat, owned: map<nat, nat>, free: seq<seq<Addr>>, sl: map<Addr, nat>)
    requires Members(hhdm, owned, free, sl)
    ensures |free| == CLASSES && forall p :: p in sl ==> sl[p] < CLASSES
  {
  }

  lemma HeldOne(live: map<Addr, nat>, at: map<Addr, Addr>, blk: map<Addr, Block>, sl: map<Addr, nat>, raw: map<Addr, nat>, p: Addr)
    requires Held(live, at, blk, sl, raw) && p in live
    ensures HeldBy(p, live[p], at, blk, sl, raw)
  {
  }

  lemma RunFacts(st: Pmm.State, hhdm: nat, rs: seq<Region>, owned: map<nat, nat>, raw: map<Addr, nat>, p: Addr)
    requires Owners(st, hhdm, rs, owned, raw) && p in raw
    ensures 0 < raw[p] && RunAt(hhdm, p, raw[p])
  {
  }

  /** A pointer lies in the heap's regions exactly if its block is a heap block. */
  lemma PointerHome(v: View, p: Addr)
    requires Sane(v) && p in v.live && LARGEST < v.live[p]
    ensures InSome(v.h.regions, p) <==> v.live[p] <= HEAP_MAX
  {
    hide Inv;
    hide Members;
    hide OnHeap;
    assert HeldBy(p, v.live[p], v.at, v.h.blk, v.sl, v.raw);
    if v.live[p] <= HEAP_MAX {
      LiveRanges(v.h, v.at[p], v.at[p]);
    } else {
      Home(v, p, p);
      if InSome(v.h.regions, p) {
        RegionPage(v.hhdm, v.h.regions, v.st.used, p);
      }
    }
  }
}

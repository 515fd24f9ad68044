/** What an allocation does to the blocks, and what no heap operation touches. */
module HeapSpec {
  import opened Arith
  import opened HeapBlocks
  import opened HeapSteps
  import opened HeapRelease
  import opened HeapLaws

  const WORD: nat := 0x1_0000_0000_0000_0000
  const MIN_ALIGN: nat := 8

  // ----- sizes -----

  predicate PowerOfTwo(n: nat) { n == 1 || (n > 1 && n % 2 == 0 && PowerOfTwo(n / 2)) }

  function AlignUp(v: nat, al: nat): nat
    requires 0 < al
  {
    (v + al - 1) / al * al
  }

  function AlignDown(v: nat, al: nat): nat
    requires 0 < al
  {
    v / al * al
  }

  /** Rounding up yields the least multiple that is not smaller. */
  lemma AlignUpLeast(v: nat, al: nat, m: nat)
    requires 0 < al
    ensures AlignUp(v, al) % al == 0 && v <= AlignUp(v, al) < v + al
    ensures m % al == 0 && v <= m ==> AlignUp(v, al) <= m
  {
    var q := (v + al - 1) / al;
    assert q * al + (v + al - 1) % al == v + al - 1;
    MultipleMod(q, al);
    if m % al == 0 && v <= m {
      LeastMultiple(v, al, q, m / al);
    }
  }

  lemma LeastMultiple(v: nat, al: nat, q: nat, t: nat)
    requires 0 < al && q * al < v + al && v <= t * al
    ensures q * al <= t * al
  {
    if t < q {
      MulMono(t + 1, q, al);
      Distribute(t, 1, al);
    } else {
      MulMono(q, t, al);
    }
  }

  /** Where the user's range would start in a block at `a`: behind the header and the shift word. */
  function UserFor(a: Addr, al: nat): nat
    requires 0 < al
  {
    AlignUp(a + 16, al)
  }

  function AtLeastMin(n: nat): nat { if n < MIN_BLOCK then MIN_BLOCK else n }

  /** The bytes of the block at `a` that the request takes. */
  function Wanted(a: Addr, size: nat, al: nat): nat
    requires 0 < al
  {
    AlignUpLeast(a + 16, al, 0);
    AtLeastMin(UserFor(a, al) - a + size + 8)
  }

  /** The same pointer as computed in 64 bits. */
  function CodeUser(a: Addr, al: nat): nat
    requires 0 < al
  {
    AlignDown((a + 16 + al - 1) % WORD, al)
  }

  /** The same number of bytes as computed in 64 bits. */
  function Computed(a: Addr, size: nat, al: nat): nat
    requires 0 < al
  {
    AtLeastMin(((CodeUser(a, al) + WORD - a % WORD) % WORD + size + 8) % WORD)
  }

  /** The 64-bit arithmetic on a block at `a` comes out right. */
  predicate Exact(a: Addr, size: nat, al: nat)
    requires 0 < al
  {
    CodeUser(a, al) == UserFor(a, al) && Computed(a, size, al) == Wanted(a, size, al)
  }

  /** It is right for one block exactly when neither the pointer's sum nor the size's reaches 2^64. */
  lemma ExactIff(a: Addr, size: nat, al: nat)
    requires 0 < al <= WORD && a < WORD
    ensures a + 16 <= UserFor(a, al)
    ensures Exact(a, size, al) <==> a + 15 + al < WORD && UserFor(a, al) - a + size + 8 < WORD
  {
    AlignUpLeast(a + 16, al, 0);
    if a + 15 + al < WORD {
      SmallMod(a + 16 + al - 1);
      WrapSum(UserFor(a, al), a, size);
    } else {
      CodeUserBelow(a, al);
    }
  }

  /** Rounding up a pointer past 2^64 yields one below the block. */
  lemma CodeUserBelow(a: Addr, al: nat)
    requires 0 < al <= WORD && a < WORD <= a + 15 + al
    ensures CodeUser(a, al) < a + 16
  {
    var m := (a + 16 + al - 1) % WORD;
    assert m == a + 15 + al - WORD || m == a + 15 + al - WORD - WORD;
    assert m / al * al + m % al == m;
  }

  /** The request is small enough, and the blocks low enough, for no sum to wrap. */
  predicate NoWrap(limit: Addr, size: nat, al: nat) { limit + al + 13 < WORD && size + al + 22 < WORD }

  /** Blocks start at even addresses below `limit`. */
  ghost predicate ExactBelow(limit: Addr, size: nat, al: nat)
    requires 0 < al
  {
    forall a: Addr {:trigger Exact(a, size, al)} :: a % 2 == 0 && a < limit ==> Exact(a, size, al)
  }

  lemma NoWrapExact(a: Addr, limit: Addr, size: nat, al: nat)
    requires 0 < al && al % 2 == 0 && a % 2 == 0 && a < limit && NoWrap(limit, size, al)
    ensures Exact(a, size, al) && a + 16 <= UserFor(a, al)
  {
    EvenShift(a, al);
    ExactIff(a, size, al);
  }

  /** At an even address the pointer is moved on by at most the alignment less two. */
  lemma EvenShift(a: Addr, al: nat)
    requires 0 < al && al % 2 == 0 && a % 2 == 0
    ensures a + 16 <= UserFor(a, al) <= a + 14 + al
  {
    AlignUpLeast(a + 16, al, 0);
    EvenMultiple(UserFor(a, al), al);
  }

  /** Which requests a caller can make: no block can make a sum wrap exactly when the request passes two comparisons. */
  lemma ExactBelowIff(limit: Addr, size: nat, al: nat)
    requires 8 <= al <= WORD && al % 2 == 0 && 0 < limit <= WORD && limit % 2 == 0
    requires 2 * al <= limit || WORD <= limit + al + 13
    ensures ExactBelow(limit, size, al) <==> NoWrap(limit, size, al)
  {
    hide Exact;
    if NoWrap(limit, size, al) {
      forall a: Addr | a % 2 == 0 && a < limit
        ensures Exact(a, size, al)
      {
        NoWrapExact(a, limit, size, al);
      }
    } else if WORD <= limit + al + 13 {
      TopWraps(limit - 2, size, al);
    } else {
      WorstWraps(size, al);
    }
  }

  lemma TopWraps(a: Addr, size: nat, al: nat)
    requires 0 < al <= WORD && a < WORD <= a + 15 + al
    ensures !Exact(a, size, al)
  {
    hide Exact;
    hide UserFor;
    ExactIff(a, size, al);
  }

  lemma WorstWraps(size: nat, al: nat)
    requires 8 <= al && 2 * al - 14 < WORD && WORD <= size + al + 22 && al <= WORD
    ensures !Exact(2 * al - 14, size, al)
  {
    hide Exact;
    hide UserFor;
    WorstShift(al);
    ExactIff(2 * al - 14, size, al);
  }

  lemma WorstShift(al: nat)
    requires 8 <= al
    ensures UserFor(2 * al - 14, al) == 3 * al
  {
    AlignUpLeast(2 * al + 2, al, 3 * al);
    MultipleMod(3, al);
    var q := (3 * al + 1) / al;
    assert q * al == UserFor(2 * al - 14, al);
    assert q == 3 by {
      if q <= 2 {
        MulMono(q, 2, al);
      }
    }
  }

  lemma SmallMod(n: nat)
    requires n < WORD
    ensures n % WORD == n
  {
  }

  lemma WrapSum(u: nat, a: nat, size: nat)
    requires a <= u < WORD
    ensures ((u + WORD - a % WORD) % WORD + size + 8) % WORD == (u - a + size + 8) % WORD
    ensures u - a + size + 8 < WORD ==> (u - a + size + 8) % WORD == u - a + size + 8
  {
  }

  /** A request near 2^64 wraps to a small one. */
  lemma HugeRequestWraps()
    ensures Computed(4096, WORD - 8, 8) == MIN_BLOCK && Wanted(4096, WORD - 8, 8) > WORD
  {
  }

  /** What the search compares: the 64-bit sum with the block's size. */
  predicate CodeFits(blk: map<Addr, Block>, a: Addr, size: nat, al: nat)
    requires 0 < al
  {
    a in blk && blk[a].Free? && Computed(a, size, al) <= blk[a].size
  }

  /**
   * A request within 24 bytes of 2^64 is not refused: the search stops at the first free block, takes
   * the smallest block's bytes of it, and hands out a range that leaves the block, while no block fits.
   */
  lemma HugeRequestHandsOut(h: Heap, size: nat, b: Block)
    requires Inv(h) && h.fl != [] && forall i :: 0 <= i < |h.regions| ==> h.regions[i].limit < WORD
    requires h.fl[0] + 23 < WORD && WORD - 24 <= size < WORD && size % 2 == 0
    requires b.Used? && b.user == CodeUser(h.fl[0], MIN_ALIGN) && b.len == size && b.size <= h.blk[h.fl[0]].size
    ensures CodeFits(h.blk, h.fl[0], size, MIN_ALIGN) && Computed(h.fl[0], size, MIN_ALIGN) == MIN_BLOCK
    ensures NoFit(h.blk, size, MIN_ALIGN) && !BlockOk(h.fl[0], b)
  {
    hide Stored;
    hide Chain;
    hide Merged;
    hide Computed;
    hide CodeUser;
    hide Wanted;
    var a := h.fl[0];
    assert BlockOk(a, h.blk[a]);
    HugeSum(a, size);
    EndsLow(h, a);
    forall c | c in h.blk
      ensures !Fits(h.blk, c, size, MIN_ALIGN)
    {
      EndsLow(h, c);
      HugeWanted(c, size);
    }
  }

  lemma HugeSum(a: Addr, size: nat)
    requires a % 2 == 0 && a + 23 < WORD && WORD - 24 <= size < WORD && size % 2 == 0
    ensures a + 16 <= CodeUser(a, MIN_ALIGN) && Computed(a, size, MIN_ALIGN) == MIN_BLOCK
  {
    EvenShift(a, MIN_ALIGN);
    SmallMod(a + 16 + MIN_ALIGN - 1);
    WrapSum(UserFor(a, MIN_ALIGN), a, size);
  }

  lemma HugeWanted(c: Addr, size: nat)
    requires WORD - 24 <= size
    ensures WORD <= Wanted(c, size, MIN_ALIGN)
  {
    AlignUpLeast(c + 16, MIN_ALIGN, 0);
  }

  lemma EndsLow(h: Heap, c: Addr)
    requires Inv(h) && c in h.blk && forall i :: 0 <= i < |h.regions| ==> h.regions[i].limit < WORD
    ensures End(c, h.blk[c]) < WORD
  {
    hide Stored;
    hide Chain;
    hide Merged;
    hide Listed;
    assert BlockOk(c, h.blk[c]);
    assert Holds(h.blk, c, End(c, h.blk[c]) - 1);
  }

  predicate Fits(blk: map<Addr, Block>, a: Addr, size: nat, al: nat)
    requires 0 < al
  {
    a in blk && blk[a].Free? && Wanted(a, size, al) <= blk[a].size
  }

  ghost predicate NoFit(blk: map<Addr, Block>, size: nat, al: nat)
    requires 0 < al
  {
    forall a :: a in blk ==> !Fits(blk, a, size, al)
  }

  /** The first fit in address order. */
  ghost predicate FirstFit(blk: map<Addr, Block>, a: Addr, size: nat, al: nat)
    requires 0 < al
  {
    Fits(blk, a, size, al) && forall c :: c in blk && c < a ==> !Fits(blk, c, size, al)
  }

  /** What is left over becomes a block of its own if it is large enough. */
  predicate Splits(bsize: nat, total: nat)
    requires total <= bsize
  {
    MIN_BLOCK <= bsize - total
  }

  ghost function Taken(blk: map<Addr, Block>, a: Addr, size: nat, al: nat): Block
    requires 0 < al && Fits(blk, a, size, al)
  {
    var total := Wanted(a, size, al);
    Used(if Splits(blk[a].size, total) then total else blk[a].size, UserFor(a, al), size, al)
  }

  ghost function Placed(blk: map<Addr, Block>, a: Addr, size: nat, al: nat): map<Addr, Block>
    requires 0 < al && Fits(blk, a, size, al)
  {
    var total, b := Wanted(a, size, al), Taken(blk, a, size, al);
    if Splits(blk[a].size, total) then blk[a := b][a + total := Free(blk[a].size - total)] else blk[a := b]
  }

  /** The taken bytes are the fewest that hold a header, a shift word, the aligned range and a footer. */
  lemma WantedLeast(a: Addr, size: nat, al: nat, n: nat, u: nat)
    requires 0 < al && 32 <= n && u % al == 0 && a + 16 <= u && u + size + 8 <= a + n
    ensures Wanted(a, size, al) <= n
    ensures 32 <= Wanted(a, size, al) && UserFor(a, al) % al == 0
    ensures a + 16 <= UserFor(a, al) && UserFor(a, al) + size + 8 <= a + Wanted(a, size, al)
  {
    AlignUpLeast(a + 16, al, u);
  }

  /** What a request does to the free block it is given: it takes the fewest bytes it needs and
      leaves the rest as a free block, unless the rest is less than 32 bytes. */
  ghost predicate TookFrom(full: map<Addr, Block>, blk: map<Addr, Block>, a: Addr, size: nat, al: nat)
    requires 0 < al
  {
    && a in full && full[a].Free? && Wanted(a, size, al) <= full[a].size && a in blk && blk[a].Used?
    && blk[a].user == UserFor(a, al) && blk[a].len == size && blk[a].align == al
    && var left := full[a].size - Wanted(a, size, al);
       if left < 32 then blk[a].size == full[a].size && blk == full[a := blk[a]]
       else blk[a].size == Wanted(a, size, al) && blk == full[a := blk[a]][a + Wanted(a, size, al) := Free(left)]
  }

  lemma PlacedTook(full: map<Addr, Block>, a: Addr, size: nat, al: nat)
    requires 0 < al && Fits(full, a, size, al)
    ensures TookFrom(full, Placed(full, a, size, al), a, size, al)
  {
    WantedLeast(a, size, al, Wanted(a, size, al), UserFor(a, al)) by {
      AlignUpLeast(a + 16, al, 0);
    }
    hide Wanted;
    hide UserFor;
    var b, total := Taken(full, a, size, al), Wanted(a, size, al);
    assert Splits(full[a].size, total) ==> full[a := b][a + total := Free(full[a].size - total)][a] == b;
  }

  /** The word that stores a size and the allocated flag in its lowest bit. */
  function TagWord(n: nat, used: bool): nat { if used && n % 2 == 0 then n + 1 else n }

  /** Size and flag can be read back exactly if the size is even: an odd free block reads as allocated. */
  lemma TagReadsBackIff(n: nat, used: bool)
    ensures var w := TagWord(n, used); w - w % 2 == n && (w % 2 == 1 <==> used) <==> n % 2 == 0
    ensures n % 2 == 1 ==> TagWord(n, false) % 2 == 1 && TagWord(n, false) - 1 < n
  {
  }

  /** Sizes for which no block address makes the taken bytes odd. */
  predicate Evenly(size: nat, al: nat) { size % 2 == 0 || size + al <= 10 }

  ghost predicate EvenEverywhere(size: nat, al: nat)
    requires 0 < al
  {
    forall a: Addr {:trigger Wanted(a, size, al)} :: a % 2 == 0 ==> Wanted(a, size, al) % 2 == 0
  }

  /** A request cuts every block it may be given at an even place exactly if its size is even or it is one byte. */
  lemma EvenlyIff(size: nat, al: nat)
    requires 8 <= al && al % 2 == 0
    ensures EvenEverywhere(size, al) <==> Evenly(size, al)
  {
    if Evenly(size, al) {
      forall a: Addr | a % 2 == 0
        ensures Wanted(a, size, al) % 2 == 0
      {
        EvenTotal(a, size, al);
      }
    } else {
      WorstShift(al);
      assert Wanted(2 * al - 14, size, al) % 2 == 1;
    }
  }

  lemma EvenTotal(a: nat, size: nat, al: nat)
    requires a % 2 == 0 && 0 < al && al % 2 == 0 && Evenly(size, al)
    ensures Wanted(a, size, al) % 2 == 0
  {
    hide AlignUp;
    UserEven(a, al);
    EvenShift(a, al);
  }

  lemma TakenOk(blk: map<Addr, Block>, a: Addr, size: nat, al: nat)
    requires 0 < al && al % 2 == 0 && Evenly(size, al) && a in blk && BlockOk(a, blk[a]) && Fits(blk, a, size, al)
    ensures BlockOk(a, Taken(blk, a, size, al))
    ensures var total := Wanted(a, size, al);
            Splits(blk[a].size, total) ==> BlockOk(a + total, Free(blk[a].size - total))
  {
    hide AlignUp;
    UserEven(a, al);
    EvenTotal(a, size, al);
    UsedOk(a, if Splits(blk[a].size, Wanted(a, size, al)) then Wanted(a, size, al) else blk[a].size, UserFor(a, al), size, al);
    RestOk(a, Wanted(a, size, al), blk[a].size);
    hide BlockOk;
  }

  lemma RestOk(a: Addr, total: nat, n: nat)
    requires a % 2 == 0 && total % 2 == 0 && n % 2 == 0 && total <= n
    ensures Splits(n, total) ==> BlockOk(a + total, Free(n - total))
  {
  }

  lemma UserEven(a: Addr, al: nat)
    requires 0 < al && al % 2 == 0
    ensures UserFor(a, al) % al == 0 && UserFor(a, al) % 2 == 0 && a + 16 <= UserFor(a, al)
  {
    AlignUpLeast(a + 16, al, 0);
    EvenMultiple(UserFor(a, al), al);
  }

  lemma UsedOk(a: Addr, n: nat, user: nat, size: nat, al: nat)
    requires a % 2 == 0 && n % 2 == 0 && MIN_BLOCK <= n && a + 16 <= user && user + size + 8 <= a + n
    requires 0 < al && user % al == 0
    ensures BlockOk(a, Used(n, user, size, al))
  {
  }

  /** Allocation adds one live block and keeps the others. */
  lemma PlacedLive(blk: map<Addr, Block>, a: Addr, size: nat, al: nat)
    requires 0 < al && Fits(blk, a, size, al) && Sound(blk)
    ensures Live(Placed(blk, a, size, al)) == Live(blk)[a := Taken(blk, a, size, al)]
    ensures Live(Placed(blk, a, size, al)) - {a} == Live(blk)
  {
    var m: Addr := a + Wanted(a, size, al);
    assert Splits(blk[a].size, Wanted(a, size, al)) ==> m !in blk;
  }

  // ----- regions added on the way -----

  ghost function Plus(rs: seq<Region>, supply: seq<Addr>): seq<Region> {
    rs + seq(|supply|, j requires 0 <= j < |supply| => Region(supply[j], supply[j] + REGION_SIZE))
  }

  ghost function WithRegions(blk: map<Addr, Block>, supply: seq<Addr>): map<Addr, Block> {
    if supply == [] then blk
    else WithRegions(blk, supply[..|supply| - 1])[supply[|supply| - 1] := Free(REGION_SIZE)]
  }

  /** While regions do not abut, a request of 64 KiB or more fits no block. */
  lemma LargeNeverFits(rs: seq<Region>, blk: map<Addr, Block>, size: nat, al: nat)
    requires 0 < al && REGION_SIZE <= size && Tiled(rs, blk) && RegionsOk(rs)
    requires forall i :: 0 <= i < |rs| ==> rs[i].limit == rs[i].base + REGION_SIZE
    ensures NoFit(blk, size, al)
  {
    EachTiled(rs, blk);
    forall a | a in blk
      ensures !Fits(blk, a, size, al)
    {
      AlignUpLeast(a + 16, al, 0);
      assert BlockOk(a, blk[a]);
      assert Holds(blk, a, a);
      var i :| 0 <= i < |rs| && InRegion(rs[i], a);
    }
  }

  // ----- memory that is left alone -----

  /** Words inside the user's range of `b` keep their value. */
  ghost predicate KeptBy(w: Words, w': Words, b: Block)
    requires b.Used?
  {
    forall q :: q in w && b.user <= q && q + 8 <= b.user + b.len ==> Has(w', q, w[q])
  }

  ghost predicate Kept(w: Words, w': Words, live: map<Addr, Block>) {
    forall a :: a in live && live[a].Used? ==> KeptBy(w, w', live[a])
  }

  lemma KeptTrans(w: Words, w': Words, w'': Words, live: map<Addr, Block>)
    requires Kept(w, w', live) && Kept(w', w'', live)
    ensures Kept(w, w'', live)
  {
    forall a | a in live && live[a].Used?
      ensures KeptBy(w, w'', live[a])
    {
      assert KeptBy(w, w', live[a]) && KeptBy(w', w'', live[a]);
    }
  }

  lemma StoreKept(w: Words, live: map<Addr, Block>, lo: Addr, hi: Addr, p: Addr, x: nat)
    requires Outside(live, lo, hi) && lo <= p && p + 8 <= hi
    ensures Kept(w, Store(w, p, x), live)
  {
    hide Store;
    forall a, q | a in live && live[a].Used? && q in w && live[a].user <= q && q + 8 <= live[a].user + live[a].len
      ensures Has(Store(w, p, x), q, w[q])
    {
      StoreKeeps(w, p, x, q, w[q]);
    }
  }

  lemma TagsKept(w: Words, live: map<Addr, Block>, lo: Addr, hi: Addr, a: Addr, b: Block)
    requires Outside(live, lo, hi) && 16 <= b.size && lo <= a && End(a, b) <= hi
    ensures Kept(w, SetTags(w, a, b), live)
  {
    var w1 := Store(w, a, Tag(b));
    StoreKept(w, live, lo, hi, a, Tag(b));
    StoreKept(w1, live, lo, hi, End(a, b) - 8, Tag(b));
    KeptTrans(w, w1, SetTags(w, a, b), live);
  }

  lemma FreeOutside(rs: seq<Region>, blk: map<Addr, Block>, c: Addr)
    requires Tiled(rs, blk) && c in blk && blk[c].Free?
    ensures Outside(Live(blk), c, End(c, blk[c])) && BlockOk(c, blk[c])
  {
  }

  /** A store to the link word of a free block. */
  lemma InsideKept(rs: seq<Region>, w: Words, blk: map<Addr, Block>, c: Addr, x: nat)
    requires Tiled(rs, blk) && c in blk && blk[c].Free?
    ensures Kept(w, Store(w, c + 8, x), Live(blk))
  {
    hide Tiled;
    FreeOutside(rs, blk, c);
    StoreKept(w, Live(blk), c, End(c, blk[c]), c + 8, x);
  }

  lemma UnlinkKept(h: Heap, k: nat)
    requires Tiled(h.regions, h.blk) && k < |h.fl| && forall j :: 0 <= j < |h.fl| ==> h.fl[j] in h.blk && h.blk[h.fl[j]].Free?
    ensures Kept(h.words, UnlinkWords(h.words, h.fl, k), Live(h.blk))
  {
    hide Tiled;
    hide Live;
    if k > 0 {
      InsideKept(h.regions, h.words, h.blk, h.fl[k - 1], NextLink(h.fl, k));
    }
  }

  lemma LinkKept(h: Heap, w: Words, k: nat)
    requires Tiled(h.regions, h.blk) && k <= |h.fl| && h.limbo in h.blk && h.blk[h.limbo].Free?
    requires forall j :: 0 <= j < |h.fl| ==> h.fl[j] in h.blk && h.blk[h.fl[j]].Free?
    ensures Kept(w, LinkWords(w, h.head, h.fl, k, h.limbo), Live(h.blk))
  {
    hide Tiled;
    hide Live;
    hide Store;
    var a := h.limbo;
    if k == 0 {
      InsideKept(h.regions, w, h.blk, a, h.head);
    } else {
      var c := h.fl[k - 1];
      var w1 := Store(w, a + 8, NextLink(h.fl, k - 1));
      InsideKept(h.regions, w, h.blk, a, NextLink(h.fl, k - 1));
      InsideKept(h.regions, w1, h.blk, c, a + 8);
      KeptTrans(w, w1, LinkWords(w, h.head, h.fl, k, a), Live(h.blk));
    }
  }

  // ----- stores that commute -----

  lemma StoreCommute(w: Words, p: Addr, x: nat, q: Addr, y: nat)
    requires Apart(p, q)
    ensures Store(Store(w, p, x), q, y) == Store(Store(w, q, y), p, x)
  {
  }

  lemma LinkCommute(w: Words, head: Addr, fl: seq<Addr>, k: nat, m: Addr, q: Addr, y: nat)
    requires k <= |fl| && Apart(m + 8, q) && (k > 0 ==> Apart(fl[k - 1] + 8, q))
    ensures Store(LinkWords(w, head, fl, k, m), q, y) == LinkWords(Store(w, q, y), head, fl, k, m)
  {
    hide Store;
    if k == 0 {
      StoreCommute(w, m + 8, head, q, y);
    } else {
      var w1 := Store(w, m + 8, NextLink(fl, k - 1));
      StoreCommute(w1, fl[k - 1] + 8, m + 8, q, y);
      StoreCommute(w, m + 8, NextLink(fl, k - 1), q, y);
    }
  }

  // ----- round trip -----

  /** Releasing a block that was just allocated restores every block. */
  lemma RoundTrip(rs: seq<Region>, blk: map<Addr, Block>, a: Addr, size: nat, al: nat, blk': map<Addr, Block>)
    requires RegionsApart(rs) && Tiled(rs, blk) && Coalesced(blk, NONE) && 0 < al && Fits(blk, a, size, al)
    requires Tiled(rs, blk') && Coalesced(blk', NONE) && Live(blk') == Live(Placed(blk, a, size, al)) - {a}
    ensures blk' == blk
  {
    PlacedLive(blk, a, size, al);
    TilingUnique(rs, blk, blk');
  }
}

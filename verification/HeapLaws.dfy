/** What the heap invariant gives its users. */
module HeapLaws {
  import opened HeapBlocks
  import opened HeapSteps
  import opened HeapRelease

  /** The blocks handed out and not yet released. */
  ghost function Live(blk: map<Addr, Block>): map<Addr, Block> {
    map a | a in blk && blk[a].Used? :: blk[a]
  }

  // ----- live ranges -----

  ghost predicate Disjoint(lo: Addr, hi: Addr, lo': Addr, hi': Addr) { hi <= lo' || hi' <= lo }

  /** Live ranges are aligned, lie in the regions and are disjoint from one another. */
  lemma LiveRanges(h: Heap, a: Addr, c: Addr)
    requires Inv(h) && a in h.blk && h.blk[a].Used?
    ensures h.blk[a].user % h.blk[a].align == 0
    ensures forall x :: h.blk[a].user <= x <= h.blk[a].user + h.blk[a].len ==> InSome(h.regions, x)
    ensures c in h.blk && h.blk[c].Used? && c != a ==>
              Disjoint(h.blk[a].user, h.blk[a].user + h.blk[a].len, h.blk[c].user, h.blk[c].user + h.blk[c].len)
  {
    hide Stored;
    hide Chain;
    hide Listed;
    hide Merged;
    assert BlockOk(a, h.blk[a]);
    forall x | h.blk[a].user <= x <= h.blk[a].user + h.blk[a].len
      ensures InSome(h.regions, x)
    {
      assert Holds(h.blk, a, x);
    }
    if c in h.blk && h.blk[c].Used? {
      assert BlockOk(c, h.blk[c]);
    }
  }

  /** No header, footer, shift word or list link lies in a live range. */
  lemma MetadataApart(h: Heap, a: Addr, c: Addr)
    requires Inv(h) && a in h.blk && h.blk[a].Used? && c in h.blk
    ensures var lo, hi, e := h.blk[a].user, h.blk[a].user + h.blk[a].len, End(c, h.blk[c]);
            && Disjoint(lo, hi, c, c + 8) && Disjoint(lo, hi, e - 8, e)
            && (h.blk[c].Used? ==> Disjoint(lo, hi, h.blk[c].user - 8, h.blk[c].user))
            && (h.blk[c].Free? ==> Disjoint(lo, hi, c + 8, c + 16))
  {
    assert BlockOk(a, h.blk[a]) && BlockOk(c, h.blk[c]);
  }

  /** The word before a live pointer leads back to its block. */
  lemma ShiftRecovers(h: Heap, a: Addr)
    requires Inv(h) && a in h.blk && h.blk[a].Used?
    ensures var p := h.blk[a].user;
            8 <= p && p - 8 in h.words && 8 <= p - h.words[p - 8] && p - h.words[p - 8] - 8 == a
    ensures a in h.words && h.words[a] % 2 == 1 && h.words[a] - 1 == h.blk[a].size
  {
    hide Stored;
    hide Chain;
    hide Listed;
    hide Merged;
    assert BlockOk(a, h.blk[a]);
    hide Tiled;
    WordsOf(h.words, h.blk, a);
  }

  lemma WordsOf(w: Words, blk: map<Addr, Block>, a: Addr)
    requires Stored(w, blk) && a in blk && blk[a].Used? && BlockOk(a, blk[a])
    ensures Has(w, a, blk[a].size + 1) && Has(w, blk[a].user - 8, blk[a].user - (a + 8))
  {
  }

  /** Whatever a user writes to a live range, the heap stays sound. */
  lemma UserWriteInv(h: Heap, a: Addr, lo: Addr, hi: Addr, data: Words)
    requires Inv(h) && a in h.blk && h.blk[a].Used?
    requires h.blk[a].user <= lo <= hi <= h.blk[a].user + h.blk[a].len
    requires forall q :: q in data ==> lo <= q && q + 8 <= hi
    ensures Inv(h.(words := Scribble(h.words, lo, hi) + data))
  {
    var w := Scribble(h.words, lo, hi) + data;
    forall q | q in h.words && (q + 8 <= lo || hi <= q)
      ensures Has(w, q, h.words[q])
    {
    }
    ScribbleStored(h, a, lo, hi, w);
    ScribbleChain(h, a, lo, hi, w);
  }

  lemma ScribbleStored(h: Heap, a: Addr, lo: Addr, hi: Addr, w: Words)
    requires Inv(h) && a in h.blk && h.blk[a].Used?
    requires h.blk[a].user <= lo <= hi <= h.blk[a].user + h.blk[a].len
    requires forall q :: q in h.words && (q + 8 <= lo || hi <= q) ==> Has(w, q, h.words[q])
    ensures Stored(w, h.blk)
  {
    hide Chain;
    hide Listed;
    hide Merged;
    forall c | c in h.blk
      ensures Has(w, c, Tag(h.blk[c]))
      ensures 8 <= End(c, h.blk[c]) ==> Has(w, End(c, h.blk[c]) - 8, Tag(h.blk[c]))
      ensures h.blk[c].Used? && c + 16 <= h.blk[c].user ==> Has(w, h.blk[c].user - 8, h.blk[c].user - (c + 8))
    {
      MetadataApart(h, a, c);
      assert BlockOk(c, h.blk[c]) && BlockOk(a, h.blk[a]);
      assert Has(h.words, c, Tag(h.blk[c]));
    }
  }

  lemma ScribbleChain(h: Heap, a: Addr, lo: Addr, hi: Addr, w: Words)
    requires Inv(h) && a in h.blk && h.blk[a].Used?
    requires h.blk[a].user <= lo <= hi <= h.blk[a].user + h.blk[a].len
    requires forall q :: q in h.words && (q + 8 <= lo || hi <= q) ==> Has(w, q, h.words[q])
    ensures Chain(w, h.head, h.fl)
  {
    forall k | 0 <= k < |h.fl|
      ensures Has(w, h.fl[k] + 8, NextLink(h.fl, k))
    {
      ScribbleNode(h, a, lo, hi, w, k);
    }
  }

  lemma ScribbleNode(h: Heap, a: Addr, lo: Addr, hi: Addr, w: Words, k: nat)
    requires Inv(h) && a in h.blk && h.blk[a].Used? && k < |h.fl|
    requires h.blk[a].user <= lo <= hi <= h.blk[a].user + h.blk[a].len
    requires forall q :: q in h.words && (q + 8 <= lo || hi <= q) ==> Has(w, q, h.words[q])
    ensures Has(w, h.fl[k] + 8, NextLink(h.fl, k))
  {
    hide Merged;
    hide Stored;
    MetadataApart(h, a, h.fl[k]);
    assert Has(h.words, h.fl[k] + 8, NextLink(h.fl, k));
    assert BlockOk(a, h.blk[a]) && BlockOk(h.fl[k], h.blk[h.fl[k]]);
  }

  // ----- the live blocks determine all others -----

  /** Two coalesced tilings with the same live blocks are the same tiling. */
  lemma TilingUnique(rs: seq<Region>, blk: map<Addr, Block>, blk': map<Addr, Block>)
    requires Tiled(rs, blk) && Tiled(rs, blk') && Coalesced(blk, NONE) && Coalesced(blk', NONE)
    requires RegionsApart(rs) && Live(blk) == Live(blk')
    ensures blk == blk'
  {
    hide Tiled;
    hide Coalesced;
    hide Live;
    forall a | a in blk
      ensures a in blk' && blk'[a] == blk[a]
    {
      TilingPart(rs, blk, blk', a);
    }
    forall a | a in blk'
      ensures a in blk && blk[a] == blk'[a]
    {
      TilingPart(rs, blk', blk, a);
    }
  }

  lemma {:induction false} TilingPart(rs: seq<Region>, blk: map<Addr, Block>, blk': map<Addr, Block>, a: Addr)
    requires Tiled(rs, blk) && Tiled(rs, blk') && Coalesced(blk, NONE) && Coalesced(blk', NONE)
    requires RegionsApart(rs) && Live(blk) == Live(blk') && a in blk
    ensures a in blk' && blk'[a] == blk[a]
    decreases a
  {
    hide Coalesced;
    hide Live;
    assert BlockOk(a, blk[a]);
    assert Holds(blk, a, a);
    if a > 0 && InSome(rs, a - 1) {
      var p := PrevExists(rs, blk, a);
      TilingPart(rs, blk, blk', p);
      EndOrNext(rs, blk', p);
    } else {
      FirstExists(rs, blk', a);
    }
    SameBlock(rs, blk, blk', a);
  }

  lemma SameBlock(rs: seq<Region>, blk: map<Addr, Block>, blk': map<Addr, Block>, a: Addr)
    requires Tiled(rs, blk) && Tiled(rs, blk') && Coalesced(blk, NONE) && Coalesced(blk', NONE)
    requires RegionsApart(rs) && Live(blk) == Live(blk') && a in blk && a in blk'
    ensures blk'[a] == blk[a]
  {
    hide Tiled;
    hide Coalesced;
    assert blk[a].Used? ==> a in Live(blk);
    assert blk'[a].Used? ==> a in Live(blk');
    if blk[a].Free? {
      NoShorter(rs, blk, blk', a);
      NoShorter(rs, blk', blk, a);
    }
  }

  lemma NoShorter(rs: seq<Region>, blk: map<Addr, Block>, blk': map<Addr, Block>, a: Addr)
    requires Tiled(rs, blk) && Tiled(rs, blk') && Coalesced(blk, NONE) && RegionsApart(rs) && Live(blk) == Live(blk')
    requires a in blk && a in blk' && blk[a].Free?
    ensures blk'[a].size <= blk[a].size
  {
    var n: Addr := End(a, blk[a]);
    assert BlockOk(a, blk[a]);
    EndOrNext(rs, blk, a);
    NotNone(rs, blk, a);
    if Follows(blk, a) {
      assert n in Live(blk);
      assert n in Live(blk');
    } else {
      assert !Holds(blk', a, n);
    }
  }

  lemma NotNone(rs: seq<Region>, blk: map<Addr, Block>, a: Addr)
    requires RegionsApart(rs) && Tiled(rs, blk) && a in blk
    ensures a != NONE
  {
    assert BlockOk(a, blk[a]);
    assert Holds(blk, a, a);
  }

  // ----- each region by itself -----

  /** Every region starts with a block and no block crosses the end of its region. */
  ghost predicate PerRegion(rs: seq<Region>, blk: map<Addr, Block>) {
    && (forall i :: 0 <= i < |rs| ==> rs[i].base in blk)
    && (forall a, i {:trigger InRegion(rs[i], a)} :: a in blk && 0 <= i < |rs| && InRegion(rs[i], a) ==>
          End(a, blk[a]) <= rs[i].limit)
  }

  /** Every region starts with a block. */
  ghost predicate Started(rs: seq<Region>, blk: map<Addr, Block>) {
    forall i :: 0 <= i < |rs| ==> rs[i].base in blk
  }

  /** Each region is tiled by itself exactly while each still starts with a block. */
  lemma PerRegionIff(rs: seq<Region>, blk: map<Addr, Block>)
    requires RegionsApart(rs) && Tiled(rs, blk)
    ensures PerRegion(rs, blk) <==> Started(rs, blk)
  {
    if Started(rs, blk) {
      forall a, i | a in blk && 0 <= i < |rs| && InRegion(rs[i], a)
        ensures End(a, blk[a]) <= rs[i].limit
      {
        if rs[i].limit < End(a, blk[a]) {
          assert Holds(blk, a, rs[i].limit);
          assert false;
        }
      }
    }
  }

  /** Regions that do not abut are each tiled by themselves. */
  lemma EachTiled(rs: seq<Region>, blk: map<Addr, Block>)
    requires RegionsOk(rs) && Tiled(rs, blk)
    ensures PerRegion(rs, blk)
  {
    forall i | 0 <= i < |rs|
      ensures rs[i].base in blk
    {
      Edges(rs, i);
      FirstExists(rs, blk, rs[i].base);
    }
    forall a, i | a in blk && 0 <= i < |rs| && InRegion(rs[i], a)
      ensures End(a, blk[a]) <= rs[i].limit
    {
      Edges(rs, i);
      assert !Holds(blk, a, rs[i].limit);
    }
  }

  lemma Edges(rs: seq<Region>, i: nat)
    requires RegionsOk(rs) && i < |rs|
    ensures InSome(rs, rs[i].base) && !InSome(rs, rs[i].base - 1) && !InSome(rs, rs[i].limit)
  {
    assert RegionOk(rs[i]);
    assert InRegion(rs[i], rs[i].base);
    forall j | 0 <= j < |rs|
      ensures !InRegion(rs[j], rs[i].base - 1) && !InRegion(rs[j], rs[i].limit)
    {
      assert RegionOk(rs[j]);
    }
  }

  /** No block ends where a region starts. */
  lemma NothingBefore(rs: seq<Region>, blk: map<Addr, Block>, q: Addr, i: nat)
    requires RegionsOk(rs) && Tiled(rs, blk) && q in blk && i < |rs|
    ensures End(q, blk[q]) != rs[i].base
  {
    assert BlockOk(q, blk[q]);
    assert Holds(blk, q, End(q, blk[q]) - 1);
    Edges(rs, i);
  }

  /** Once nothing is live, each region is one free block. */
  lemma AllFree(h: Heap)
    requires Inv(h) && h.limbo == NONE && RegionsOk(h.regions) && forall a :: a in h.blk ==> h.blk[a].Free?
    ensures forall i :: 0 <= i < |h.regions| ==>
              h.regions[i].base in h.blk && h.blk[h.regions[i].base] == Free(h.regions[i].limit - h.regions[i].base)
    ensures forall a :: a in h.blk ==> exists i :: 0 <= i < |h.regions| && h.regions[i].base == a
  {
    hide Stored;
    hide Chain;
    hide Listed;
    hide Tiled;
    EachTiled(h.regions, h.blk);
    forall i | 0 <= i < |h.regions|
      ensures h.regions[i].base in h.blk && h.blk[h.regions[i].base] == Free(h.regions[i].limit - h.regions[i].base)
    {
      OnlyBlock(h, i);
    }
    forall a | a in h.blk
      ensures exists i :: 0 <= i < |h.regions| && h.regions[i].base == a
    {
      InItsRegion(h, a);
    }
  }

  lemma OnlyBlock(h: Heap, i: nat)
    requires Inv(h) && h.limbo == NONE && RegionsOk(h.regions) && PerRegion(h.regions, h.blk) && i < |h.regions|
    requires forall a :: a in h.blk ==> h.blk[a].Free?
    ensures End(h.regions[i].base, h.blk[h.regions[i].base]) == h.regions[i].limit
  {
    hide Stored;
    hide Chain;
    hide Listed;
    var r := h.regions[i];
    assert RegionOk(r);
    assert InRegion(r, r.base);
    NoneIsNoBlock(h);
    EndOrNext(h.regions, h.blk, r.base);
    var e: Addr := End(r.base, h.blk[r.base]);
    assert e < r.limit ==> InRegion(r, e);
  }

  lemma InItsRegion(h: Heap, a: Addr)
    requires Inv(h) && a in h.blk && PerRegion(h.regions, h.blk)
    requires forall i :: 0 <= i < |h.regions| ==> End(h.regions[i].base, h.blk[h.regions[i].base]) == h.regions[i].limit
    ensures exists i :: 0 <= i < |h.regions| && h.regions[i].base == a
  {
    hide Stored;
    hide Chain;
    hide Listed;
    hide Merged;
    assert BlockOk(a, h.blk[a]);
    assert Holds(h.blk, a, a);
    var i :| 0 <= i < |h.regions| && InRegion(h.regions[i], a);
    assert h.regions[i].base == a;
  }

  // ----- regions that abut -----

  /** Forward merging looks only for some region that holds the next block. Each region
      stays tiled by itself exactly when that block does not start another region. */
  lemma MergeKeepsRegionsIff(rs: seq<Region>, blk: map<Addr, Block>, a: Addr)
    requires RegionsApart(rs) && Tiled(rs, blk) && PerRegion(rs, blk) && a in blk && Follows(blk, a)
    ensures var n: Addr := End(a, blk[a]);
            PerRegion(rs, (blk - {n})[a := Free(blk[a].size + blk[n].size)]) <==> NotBase(rs, n)
  {
    var n: Addr := End(a, blk[a]);
    var b := Free(blk[a].size + blk[n].size);
    var blk' := (blk - {n})[a := b];
    assert BlockOk(a, blk[a]) && BlockOk(n, blk[n]);
    if NotBase(rs, n) {
      forall c, i | c in blk' && 0 <= i < |rs| && InRegion(rs[i], c)
        ensures End(c, blk'[c]) <= rs[i].limit
      {
        if c == a {
          MergeInside(rs, blk, a, i);
        }
      }
    } else {
      var i :| 0 <= i < |rs| && rs[i].base == n;
      assert n !in blk';
    }
  }

  lemma MergeInside(rs: seq<Region>, blk: map<Addr, Block>, a: Addr, i: nat)
    requires RegionsApart(rs) && Tiled(rs, blk) && PerRegion(rs, blk) && a in blk && Follows(blk, a)
    requires NotBase(rs, End(a, blk[a])) && i < |rs| && InRegion(rs[i], a)
    ensures InRegion(rs[i], End(a, blk[a]))
  {
    var n: Addr := End(a, blk[a]);
    assert BlockOk(a, blk[a]) && BlockOk(n, blk[n]);
    assert Holds(blk, n, n);
    var j :| 0 <= j < |rs| && InRegion(rs[j], n);
    assert RegionOk(rs[i]) && RegionOk(rs[j]);
  }

  /** Two abutting regions, both free: releasing into the first swallows the second. */
  lemma AbuttingRegionsMerge()
    ensures var rs := [Region(4096, 4160), Region(4160, 4224)];
            var blk := map[4096 := Free(64), 4160 := Free(64)];
            && RegionsApart(rs) && Tiled(rs, blk) && PerRegion(rs, blk)
            && !PerRegion(rs, (blk - {4160})[4096 := Free(128)])
  {
    var rs := [Region(4096, 4160), Region(4160, 4224)];
    var blk: map<Addr, Block> := map[4096 := Free(64), 4160 := Free(64)];
    forall a, x
      ensures Holds(blk, a, x) ==> InSome(rs, x)
    {
      assert InRegion(rs[0], x) || InRegion(rs[1], x) || !Holds(blk, a, x);
    }
    forall x
      ensures InSome(rs, x) ==> Holds(blk, 4096, x) || Holds(blk, 4160, x)
    {
    }
    hide InSome;
    hide Holds;
  }
}

/** Releasing a block, merging it with free neighbours, and adding a region. */
module HeapRelease {
  import opened HeapBlocks
  import opened HeapSteps

  // ----- rewriting one block -----

  lemma LinksApart(blk: map<Addr, Block>, fl: seq<Addr>, gone: set<Addr>, lo: Addr, hi: Addr)
    requires forall k :: 0 <= k < |fl| ==> fl[k] in blk && fl[k] !in gone
    requires Outside(blk - gone, lo, hi)
    ensures LinksOutside(fl, lo, hi)
  {
    forall k | 0 <= k < |fl|
      ensures fl[k] + MIN_BLOCK <= lo || hi <= fl[k]
    {
      var c := fl[k];
      assert c in blk - gone;
    }
  }

  lemma StoredRewrite(w: Words, head: Addr, fl: seq<Addr>, blk: map<Addr, Block>, gone: set<Addr>, a: Addr, b: Block,
                      lo: Addr, hi: Addr)
    requires Stored(w, blk) && Chain(w, head, fl) && Outside(blk - gone, lo, hi) && LinksOutside(fl, lo, hi)
    requires b.Free? && 16 <= b.size && lo <= a && End(a, b) <= hi && a in gone
    ensures Stored(SetTags(w, a, b), (blk - gone)[a := b]) && Chain(SetTags(w, a, b), head, fl)
  {
    hide Store;
    var others := blk - gone;
    StoredWithout(w, blk, gone);
    SetTagsOutside(w, head, fl, others, a, b, lo, hi);
    SetTagsHas(w, a, b);
    var w' := SetTags(w, a, b);
    hide SetTags;
    hide Stored;
    hide Chain;
    assert others - {a} == others;
    StoredJoin(w', others, a, b);
  }

  lemma ListedIn(h: Heap)
    requires Inv(h)
    ensures forall k :: 0 <= k < |h.fl| ==> h.fl[k] in h.blk && h.blk[h.fl[k]].Free?
  {
  }

  // ----- a used block becomes free -----

  ghost function MarkFree(h: Heap, a: Addr): Heap
    requires a in h.blk && 16 <= h.blk[a].size
  {
    var b := Free(h.blk[a].size);
    h.(words := SetTags(h.words, a, b), blk := h.blk[a := b], limbo := a)
  }

  lemma MarkFreeInv(h: Heap, a: Addr)
    requires Inv(h) && h.limbo == NONE && a in h.blk && h.blk[a].Used?
    ensures BlockOk(a, h.blk[a]) && Inv(MarkFree(h, a))
  {
    assert BlockOk(a, h.blk[a]);
    var b := Free(h.blk[a].size);
    NoneIsNoBlock(h);
    ListedIn(h);
    MarkFreeWords(h, a);
    TiledUse(h.regions, h.blk, a, b);
    MarkFreeBlocks(h.regions, h.blk, h.fl, a);
    hide Tiled;
    hide Stored;
    hide Chain;
    hide Listed;
    hide Merged;
    hide SetTags;
  }

  lemma MarkFreeWords(h: Heap, a: Addr)
    requires Stored(h.words, h.blk) && Chain(h.words, h.head, h.fl) && Sound(h.blk)
    requires forall k :: 0 <= k < |h.fl| ==> h.fl[k] in h.blk && h.blk[h.fl[k]].Free?
    requires a in h.blk && h.blk[a].Used? && 16 <= h.blk[a].size
    ensures var h' := MarkFree(h, a); Stored(h'.words, h'.blk) && Chain(h'.words, h.head, h.fl)
  {
    var b := Free(h.blk[a].size);
    var hi := End(a, b);
    assert Outside(h.blk - {a}, a, hi);
    hide Stored;
    hide Chain;
    LinksApart(h.blk, h.fl, {a}, a, hi);
    StoredRewrite(h.words, h.head, h.fl, h.blk, {a}, a, b, a, hi);
    assert (h.blk - {a})[a := b] == h.blk[a := b];
  }

  lemma MarkFreeBlocks(rs: seq<Region>, blk: map<Addr, Block>, fl: seq<Addr>, a: Addr)
    requires Listed(blk, fl, NONE) && Merged(rs, blk, NONE) && NONE !in blk && a in blk && blk[a].Used?
    ensures var blk' := blk[a := Free(blk[a].size)]; Listed(blk', fl, a) && Merged(rs, blk', a)
  {
    var blk' := blk[a := Free(blk[a].size)];
    forall x | RegionsOk(rs) && x in blk' && blk'[x].Free? && Follows(blk', x) && x != a && End(x, blk'[x]) != a
      ensures blk'[End(x, blk'[x])].Used?
    {
      assert Follows(blk, x);
    }
  }

  // ----- merging -----

  lemma BlockSound(rs: seq<Region>, blk: map<Addr, Block>, a: Addr)
    requires Tiled(rs, blk) && a in blk
    ensures BlockOk(a, blk[a])
  {
  }

  /** The list after node `k` has gone stays off blocks `a` and `fl[k]`. */
  lemma RestApart(blk: map<Addr, Block>, fl: seq<Addr>, k: nat, a: Addr)
    requires Listed(blk, fl, a) && k < |fl|
    ensures var u := Without(fl, k); forall j :: 0 <= j < |u| ==> u[j] in blk && u[j] !in {a, fl[k]}
  {
    WithoutMembers(fl, k);
    var u := Without(fl, k);
    assert forall j :: 0 <= j < |u| ==> u[j] in u;
  }

  /** The block after `a`, if there is one, is used. */
  ghost predicate NextUsed(blk: map<Addr, Block>, a: Addr)
    requires a in blk
  {
    Follows(blk, a) ==> blk[End(a, blk[a])].Used?
  }

  /** Merging forward is complete. */
  ghost predicate NextOk(h: Heap) {
    RegionsOk(h.regions) && h.limbo in h.blk ==> NextUsed(h.blk, h.limbo)
  }

  ghost predicate PrevUsed(blk: map<Addr, Block>, a: Addr) {
    forall p {:trigger Follows(blk, p)} :: p in blk && End(p, blk[p]) == a ==> blk[p].Used?
  }

  /** With used neighbours on both sides there is nothing left to merge. */
  lemma Settled(h: Heap)
    requires Inv(h) && h.limbo != NONE && NextOk(h) && (RegionsOk(h.regions) ==> PrevUsed(h.blk, h.limbo))
    ensures Merged(h.regions, h.blk, NONE)
  {
    hide Tiled;
    hide Stored;
    hide Chain;
    hide Listed;
    if RegionsOk(h.regions) {
      forall x | x in h.blk && h.blk[x].Free? && Follows(h.blk, x)
        ensures h.blk[End(x, h.blk[x])].Used?
      {
      }
    }
  }

  ghost predicate CanMerge(h: Heap, k: nat) {
    && Inv(h) && h.limbo != NONE && k < |h.fl| && End(h.limbo, h.blk[h.limbo]) == h.fl[k]
    && h.fl[k] in h.blk && h.blk[h.fl[k]].Free? && 16 <= h.blk[h.limbo].size + h.blk[h.fl[k]].size
  }

  /** The limbo block swallows the free block after it, which leaves the list. */
  ghost function MergeNext(h: Heap, k: nat): Heap
    requires CanMerge(h, k)
  {
    var b := Free(h.blk[h.limbo].size + h.blk[h.fl[k]].size);
    var u := Unlisted(h, k);
    u.(words := SetTags(u.words, h.limbo, b), blk := (h.blk - {h.fl[k]})[h.limbo := b])
  }

  lemma MergeNextInv(h: Heap, k: nat)
    requires CanMerge(h, k)
    ensures Inv(MergeNext(h, k)) && NextOk(MergeNext(h, k))
  {
    hide Tiled;
    hide Stored;
    hide Chain;
    hide Listed;
    hide Coalesced;
    hide SetTags;
    hide UnlinkWords;
    var a, n := h.limbo, h.fl[k];
    var b := Free(h.blk[a].size + h.blk[n].size);
    BlockSound(h.regions, h.blk, a);
    BlockSound(h.regions, h.blk, n);
    MergeNextWords(h, k);
    TiledMerge(h.regions, h.blk, a, b);
    MergeNextListed(h.blk, h.fl, a, k, b);
    if RegionsOk(h.regions) {
      MergeNextCoalesced(h.regions, h.blk, a, b);
    }
  }

  /** Nothing but blocks `a` and `n` reaches into the range the two make up. */
  lemma PairAlone(rs: seq<Region>, blk: map<Addr, Block>, a: Addr, n: Addr)
    requires Tiled(rs, blk) && a in blk && n in blk && End(a, blk[a]) == n
    ensures Outside(blk - {a, n}, a, End(n, blk[n]))
  {
    forall c | c in blk - {a, n}
      ensures BlockOk(c, blk[c]) && (End(c, blk[c]) <= a || End(n, blk[n]) <= c)
    {
      assert c in blk && c != a && c != n;
    }
  }

  lemma MergeNextWords(h: Heap, k: nat)
    requires CanMerge(h, k)
    ensures var h' := MergeNext(h, k); Stored(h'.words, h'.blk) && Chain(h'.words, h'.head, h'.fl)
  {
    hide Tiled;
    hide Stored;
    hide Chain;
    hide Listed;
    hide Merged;
    hide SetTags;
    hide Without;
    hide UnlinkWords;
    var a, n := h.limbo, h.fl[k];
    var b := Free(h.blk[a].size + h.blk[n].size);
    BlockSound(h.regions, h.blk, a);
    UnlistedWords(h, k);
    RestApart(h.blk, h.fl, k, a);
    PairAlone(h.regions, h.blk, a, n);
    var u := Unlisted(h, k);
    LinksApart(h.blk, u.fl, {a, n}, a, End(n, h.blk[n]));
    StoredRewrite(u.words, u.head, u.fl, h.blk, {a, n}, a, b, a, End(n, h.blk[n]));
    assert (h.blk - {a, n})[a := b] == (h.blk - {n})[a := b];
  }

  lemma MergeNextListed(blk: map<Addr, Block>, fl: seq<Addr>, a: Addr, k: nat, b: Block)
    requires Listed(blk, fl, a) && k < |fl| && a in blk && b.Free?
    ensures Listed((blk - {fl[k]})[a := b], Without(fl, k), a)
  {
    WithoutMembers(fl, k);
    var fl' := Without(fl, k);
    assert forall j :: 0 <= j < |fl'| ==> fl'[j] in fl';
  }

  lemma MergeNextCoalesced(rs: seq<Region>, blk: map<Addr, Block>, a: Addr, b: Block)
    requires Tiled(rs, blk) && a in blk && blk[a].Free? && Coalesced(blk, a) && Follows(blk, a) && blk[End(a, blk[a])].Free?
    requires b == Free(blk[a].size + blk[End(a, blk[a])].size)
    ensures var blk' := (blk - {End(a, blk[a])})[a := b]; Coalesced(blk', a) && NextUsed(blk', a)
  {
    var n: Addr := End(a, blk[a]);
    var blk' := (blk - {n})[a := b];
    assert BlockOk(a, blk[a]) && BlockOk(n, blk[n]);
    assert Follows(blk', a) ==> Follows(blk, n);
    forall x | x in blk' && blk'[x].Free? && Follows(blk', x) && x != a && End(x, blk'[x]) != a
      ensures blk'[End(x, blk'[x])].Used?
    {
      assert Follows(blk, x);
    }
  }

  ghost predicate CanMergeBack(h: Heap, k: nat) {
    && Inv(h) && h.limbo != NONE && k < |h.fl| && h.fl[k] in h.blk && End(h.fl[k], h.blk[h.fl[k]]) == h.limbo
    && h.blk[h.fl[k]].Free? && 16 <= h.blk[h.limbo].size + h.blk[h.fl[k]].size
  }

  /** The free block before the limbo block leaves the list, swallows it and takes its place. */
  ghost function MergePrev(h: Heap, k: nat): Heap
    requires CanMergeBack(h, k)
  {
    var b := Free(h.blk[h.fl[k]].size + h.blk[h.limbo].size);
    var u := Unlisted(h, k);
    u.(words := SetTags(u.words, h.fl[k], b), blk := (h.blk - {h.limbo})[h.fl[k] := b], limbo := h.fl[k])
  }

  lemma MergePrevInv(h: Heap, k: nat)
    requires CanMergeBack(h, k) && NextOk(h)
    ensures Inv(MergePrev(h, k)) && Merged(h.regions, MergePrev(h, k).blk, NONE)
  {
    hide Tiled;
    hide Stored;
    hide Chain;
    hide Listed;
    hide Coalesced;
    hide SetTags;
    hide UnlinkWords;
    var a, p := h.limbo, h.fl[k];
    var b := Free(h.blk[p].size + h.blk[a].size);
    BlockSound(h.regions, h.blk, a);
    BlockSound(h.regions, h.blk, p);
    NoneIsNoBlock(h);
    MergePrevWords(h, k);
    TiledMerge(h.regions, h.blk, p, b);
    MergePrevListed(h.blk, h.fl, a, k, b);
    if RegionsOk(h.regions) {
      MergePrevCoalesced(h.regions, h.blk, a, p, b);
    }
  }

  lemma MergePrevWords(h: Heap, k: nat)
    requires CanMergeBack(h, k)
    ensures var h' := MergePrev(h, k); Stored(h'.words, h'.blk) && Chain(h'.words, h'.head, h'.fl)
  {
    hide Tiled;
    hide Stored;
    hide Chain;
    hide Listed;
    hide Merged;
    hide SetTags;
    hide Without;
    hide UnlinkWords;
    var a, p := h.limbo, h.fl[k];
    var b := Free(h.blk[p].size + h.blk[a].size);
    BlockSound(h.regions, h.blk, a);
    UnlistedWords(h, k);
    RestApart(h.blk, h.fl, k, a);
    PairAlone(h.regions, h.blk, p, a);
    var u := Unlisted(h, k);
    LinksApart(h.blk, u.fl, {p, a}, p, End(a, h.blk[a]));
    StoredRewrite(u.words, u.head, u.fl, h.blk, {p, a}, p, b, p, End(a, h.blk[a]));
    assert (h.blk - {p, a})[p := b] == (h.blk - {a})[p := b];
  }

  lemma MergePrevListed(blk: map<Addr, Block>, fl: seq<Addr>, a: Addr, k: nat, b: Block)
    requires Listed(blk, fl, a) && k < |fl| && a in blk && b.Free?
    ensures Listed((blk - {a})[fl[k] := b], Without(fl, k), fl[k])
  {
    WithoutMembers(fl, k);
    var fl' := Without(fl, k);
    assert forall j :: 0 <= j < |fl'| ==> fl'[j] in fl';
  }

  lemma MergePrevCoalesced(rs: seq<Region>, blk: map<Addr, Block>, a: Addr, p: Addr, b: Block)
    requires Tiled(rs, blk) && a in blk && p in blk && blk[p].Free? && Coalesced(blk, a) && NextUsed(blk, a)
    requires End(p, blk[p]) == a && b == Free(blk[p].size + blk[a].size) && NONE !in blk
    ensures var blk' := (blk - {a})[p := b]; Coalesced(blk', p) && Coalesced(blk', NONE)
  {
    var blk' := (blk - {a})[p := b];
    assert BlockOk(a, blk[a]) && BlockOk(p, blk[p]);
    forall x | x in blk' && blk'[x].Free? && Follows(blk', x)
      ensures blk'[End(x, blk'[x])].Used?
    {
      if x == p {
        assert Follows(blk, a);
      } else {
        assert Follows(blk, x);
      }
    }
  }

  // ----- growing -----

  ghost predicate CanGrow(h: Heap, r: Region) {
    && Inv(h) && h.limbo == NONE && RegionsApart(h.regions + [r])
  }

  /** A new region is one free block. */
  ghost function Grown(h: Heap, r: Region): Heap
    requires r.base + 16 <= r.limit
  {
    var b := Free(r.limit - r.base);
    h.(words := SetTags(h.words, r.base, b), regions := h.regions + [r], blk := h.blk[r.base := b], limbo := r.base)
  }

  lemma GrownInv(h: Heap, r: Region)
    requires CanGrow(h, r)
    ensures RegionOk(r) && Inv(Grown(h, r)) && Merged(h.regions + [r], Grown(h, r).blk, NONE)
  {
    hide Tiled;
    hide Stored;
    hide Chain;
    hide Listed;
    hide Merged;
    hide SetTags;
    LastRegionOk(h.regions, r);
    NoneIsNoBlock(h);
    RegionAlone(h.regions, h.blk, r);
    GrownTiled(h.regions, h.blk, r);
    ListedIn(h);
    GrownWords(h, r);
    GrownListed(h, r);
    GrownMerged(h, r);
  }

  lemma LastRegionOk(rs: seq<Region>, r: Region)
    requires RegionsApart(rs + [r])
    ensures RegionOk(r)
  {
    assert (rs + [r])[|rs|] == r;
  }

  /** An address of the new region is in no old one. */
  lemma RegionFresh(rs: seq<Region>, r: Region, x: Addr)
    requires RegionsApart(rs + [r])
    ensures InSome(rs + [r], x) <==> InSome(rs, x) || InRegion(r, x)
    ensures !(InSome(rs, x) && InRegion(r, x))
  {
    var rs' := rs + [r];
    assert rs'[|rs|] == r;
    if InSome(rs, x) {
      var i :| 0 <= i < |rs| && InRegion(rs[i], x);
      assert rs'[i] == rs[i];
    }
  }

  lemma RegionAlone(rs: seq<Region>, blk: map<Addr, Block>, r: Region)
    requires Tiled(rs, blk) && RegionsApart(rs + [r])
    ensures Outside(blk, r.base, r.limit) && r.base !in blk
  {
    LastRegionOk(rs, r);
    forall c | c in blk
      ensures End(c, blk[c]) <= r.base || r.limit <= c
    {
      assert BlockOk(c, blk[c]);
      RegionFresh(rs, r, r.base);
      RegionFresh(rs, r, c);
      assert Holds(blk, c, c);
      assert Holds(blk, c, r.base) ==> InSome(rs, r.base);
    }
  }

  lemma GrownWords(h: Heap, r: Region)
    requires Stored(h.words, h.blk) && Chain(h.words, h.head, h.fl) && forall k :: 0 <= k < |h.fl| ==> h.fl[k] in h.blk
    requires Outside(h.blk, r.base, r.limit) && RegionOk(r)
    ensures var h' := Grown(h, r); Stored(h'.words, h'.blk) && Chain(h'.words, h.head, h.fl)
  {
    var b := Free(r.limit - r.base);
    hide Stored;
    hide Chain;
    assert h.blk - {} == h.blk;
    LinksApart(h.blk, h.fl, {}, r.base, r.limit);
    assert Outside(h.blk - {r.base}, r.base, r.limit);
    StoredRewrite(h.words, h.head, h.fl, h.blk, {r.base}, r.base, b, r.base, r.limit);
    assert (h.blk - {r.base})[r.base := b] == h.blk[r.base := b];
  }

  lemma GrownTiled(rs: seq<Region>, blk: map<Addr, Block>, r: Region)
    requires Tiled(rs, blk) && RegionsApart(rs + [r]) && RegionOk(r) && Outside(blk, r.base, r.limit) && r.base !in blk
    ensures Tiled(rs + [r], blk[r.base := Free(r.limit - r.base)])
  {
    var rs' := rs + [r];
    var blk' := blk[r.base := Free(r.limit - r.base)];
    forall a, x | Holds(blk', a, x)
      ensures InSome(rs', x)
    {
      RegionFresh(rs, r, x);
      assert a != r.base ==> Holds(blk, a, x);
    }
    forall x | InSome(rs', x)
      ensures exists a :: Holds(blk', a, x)
    {
      RegionFresh(rs, r, x);
      if InRegion(r, x) {
        assert Holds(blk', r.base, x);
      } else {
        var c :| Holds(blk, c, x);
        assert Holds(blk', c, x);
      }
    }
    assert Sound(blk') by {
      hide Covered;
      hide Filled;
    }
  }

  lemma GrownListed(h: Heap, r: Region)
    requires Inv(h) && h.limbo == NONE && NONE !in h.blk && r.base !in h.blk && r.base + 16 <= r.limit
    ensures Listed(Grown(h, r).blk, h.fl, r.base)
  {
    hide Tiled;
    hide Stored;
    hide Chain;
    hide Merged;
  }

  /** A region that does not touch the others adds no neighbours. */
  lemma GrownMerged(h: Heap, r: Region)
    requires Inv(h) && h.limbo == NONE && RegionOk(r) && NONE !in h.blk && r.base !in h.blk && RegionsApart(h.regions + [r])
    ensures var blk' := Grown(h, r).blk;
            Merged(h.regions + [r], blk', NONE) && Merged(h.regions + [r], blk', r.base)
  {
    hide Stored;
    hide Chain;
    hide Listed;
    var rs' := h.regions + [r];
    var blk' := Grown(h, r).blk;
    if RegionsOk(rs') {
      OldOk(h.regions, r);
      forall x | x in blk' && blk'[x].Free? && Follows(blk', x)
        ensures blk'[End(x, blk'[x])].Used?
      {
        NoTouch(h.regions, h.blk, r, x);
        assert Follows(h.blk, x);
      }
    }
  }

  lemma OldOk(rs: seq<Region>, r: Region)
    requires RegionsOk(rs + [r])
    ensures RegionsOk(rs)
  {
    forall i | 0 <= i < |rs|
      ensures (rs + [r])[i] == rs[i]
    {
    }
  }

  lemma NoTouch(rs: seq<Region>, blk: map<Addr, Block>, r: Region, x: Addr)
    requires Tiled(rs, blk) && RegionsOk(rs + [r]) && RegionOk(r) && r.base !in blk
    requires var blk' := blk[r.base := Free(r.limit - r.base)]; x in blk' && Follows(blk', x)
    ensures x in blk && Follows(blk, x)
  {
    var blk' := blk[r.base := Free(r.limit - r.base)];
    var e: Addr := End(x, blk'[x]);
    if x == r.base {
      assert Holds(blk, e, e) by { assert BlockOk(e, blk[e]); }
      Touching(rs, r, e);
    } else if e == r.base {
      assert BlockOk(x, blk[x]);
      assert Holds(blk, x, e - 1);
      Touching(rs, r, e - 1);
    }
  }

  /** Neither the address before the region nor the one after it is in another region. */
  lemma Touching(rs: seq<Region>, r: Region, x: Addr)
    requires RegionsOk(rs + [r]) && InSome(rs, x)
    ensures x != r.limit && x + 1 != r.base
  {
    var i :| 0 <= i < |rs| && InRegion(rs[i], x);
    assert (rs + [r])[i] == rs[i] && (rs + [r])[|rs|] == r;
  }
}

/** The steps that allocation and release make, and the invariant each keeps. */
module HeapSteps {
  import opened HeapBlocks

  // ----- what a store inside one block's range can reach -----

  /** All blocks lie outside `lo..hi`. */
  ghost predicate Outside(blk: map<Addr, Block>, lo: Addr, hi: Addr) {
    forall c :: c in blk ==> BlockOk(c, blk[c]) && (End(c, blk[c]) <= lo || hi <= c)
  }

  ghost predicate OwnWords(w: Words, a: Addr, b: Block) {
    && 8 <= End(a, b) && Has(w, a, Tag(b)) && Has(w, End(a, b) - 8, Tag(b))
    && (b.Used? && a + 16 <= b.user ==> Has(w, b.user - 8, b.user - (a + 8)))
  }

  lemma StoredWithout(w: Words, blk: map<Addr, Block>, x: set<Addr>)
    requires Stored(w, blk)
    ensures Stored(w, blk - x)
  {
  }

  lemma StoredJoin(w: Words, blk: map<Addr, Block>, a: Addr, b: Block)
    requires Stored(w, blk - {a}) && OwnWords(w, a, b)
    ensures Stored(w, blk[a := b])
  {
    var blk' := blk[a := b];
    forall c | c in blk' && c != a
      ensures c in blk - {a} && (blk - {a})[c] == blk'[c]
    {
    }
  }

  lemma StoredOutside(w: Words, blk: map<Addr, Block>, lo: Addr, hi: Addr, p: Addr, x: nat)
    requires Stored(w, blk) && Outside(blk, lo, hi) && lo <= p && p + 8 <= hi
    ensures Stored(Store(w, p, x), blk)
  {
    hide Store;
    forall a | a in blk
      ensures Has(Store(w, p, x), a, Tag(blk[a]))
    {
      StoreKeeps(w, p, x, a, Tag(blk[a]));
    }
    forall a | a in blk && 8 <= End(a, blk[a])
      ensures Has(Store(w, p, x), End(a, blk[a]) - 8, Tag(blk[a]))
    {
      StoreKeeps(w, p, x, End(a, blk[a]) - 8, Tag(blk[a]));
    }
    forall a | a in blk && blk[a].Used? && a + 16 <= blk[a].user
      ensures Has(Store(w, p, x), blk[a].user - 8, blk[a].user - (a + 8))
    {
      StoreKeeps(w, p, x, blk[a].user - 8, blk[a].user - (a + 8));
    }
  }

  ghost predicate LinksOutside(fl: seq<Addr>, lo: Addr, hi: Addr) {
    forall k :: 0 <= k < |fl| ==> fl[k] + MIN_BLOCK <= lo || hi <= fl[k]
  }

  lemma ChainOutside(w: Words, head: Addr, fl: seq<Addr>, lo: Addr, hi: Addr, p: Addr, x: nat)
    requires Chain(w, head, fl) && LinksOutside(fl, lo, hi) && lo <= p && p + 8 <= hi
    ensures Chain(Store(w, p, x), head, fl)
  {
    hide Store;
    forall k | 0 <= k < |fl|
      ensures Has(Store(w, p, x), fl[k] + 8, NextLink(fl, k))
    {
      StoreKeeps(w, p, x, fl[k] + 8, NextLink(fl, k));
    }
  }

  /** Header and footer of block `a`. */
  ghost function SetTags(w: Words, a: Addr, b: Block): Words
    requires 16 <= b.size
  {
    Store(Store(w, a, Tag(b)), End(a, b) - 8, Tag(b))
  }

  lemma SetTagsHas(w: Words, a: Addr, b: Block)
    requires 16 <= b.size
    ensures Has(SetTags(w, a, b), a, Tag(b)) && Has(SetTags(w, a, b), End(a, b) - 8, Tag(b))
  {
    hide Store;
    StoreHas(w, a, Tag(b));
    var w1 := Store(w, a, Tag(b));
    StoreHas(w1, End(a, b) - 8, Tag(b));
    StoreKeeps(w1, End(a, b) - 8, Tag(b), a, Tag(b));
  }

  lemma SetTagsOutside(w: Words, head: Addr, fl: seq<Addr>, others: map<Addr, Block>, a: Addr, b: Block, lo: Addr, hi: Addr)
    requires 16 <= b.size && lo <= a && End(a, b) <= hi
    requires Stored(w, others) && Outside(others, lo, hi) && Chain(w, head, fl) && LinksOutside(fl, lo, hi)
    ensures Stored(SetTags(w, a, b), others) && Chain(SetTags(w, a, b), head, fl)
  {
    hide Store;
    var w1 := Store(w, a, Tag(b));
    StoredOutside(w, others, lo, hi, a, Tag(b));
    ChainOutside(w, head, fl, lo, hi, a, Tag(b));
    StoredOutside(w1, others, lo, hi, End(a, b) - 8, Tag(b));
    ChainOutside(w1, head, fl, lo, hi, End(a, b) - 8, Tag(b));
  }

  // ----- off the list -----

  ghost function UnlinkWords(w: Words, fl: seq<Addr>, k: nat): Words
    requires k < |fl|
  {
    if k == 0 then w else Store(w, fl[k - 1] + 8, NextLink(fl, k))
  }

  ghost function UnlinkHeadPtr(head: Addr, fl: seq<Addr>, k: nat): Addr {
    if k == 0 then NextLink(fl, 0) else head
  }

  ghost function Unlisted(h: Heap, k: nat): Heap
    requires k < |h.fl|
  {
    h.(words := UnlinkWords(h.words, h.fl, k), head := UnlinkHeadPtr(h.head, h.fl, k), fl := Without(h.fl, k))
  }

  lemma UnlistedWords(h: Heap, k: nat)
    requires Inv(h) && k < |h.fl|
    ensures Stored(Unlisted(h, k).words, h.blk) && Chain(Unlisted(h, k).words, Unlisted(h, k).head, Unlisted(h, k).fl)
  {
    hide Tiled;
    hide Stored;
    hide Chain;
    hide Listed;
    hide Store;
    ListSpaced(h.blk, h.fl, h.regions, h.limbo);
    if k == 0 {
      UnlinkHead(h.words, h.head, h.fl);
    } else {
      LinkInside(h, k - 1);
      UnlinkChain(h.words, h.head, h.fl, k);
      StoreInside(h.regions, h.words, h.blk, h.fl[k - 1], h.fl[k - 1] + 8, NextLink(h.fl, k));
    }
  }

  lemma LimboInside(h: Heap)
    requires Inv(h) && h.limbo != NONE
    ensures Inside(h.blk, h.limbo, h.limbo + 8)
  {
    assert BlockOk(h.limbo, h.blk[h.limbo]);
  }

  lemma LinkInside(h: Heap, k: nat)
    requires Inv(h) && k < |h.fl|
    ensures Inside(h.blk, h.fl[k], h.fl[k] + 8)
  {
    assert BlockOk(h.fl[k], h.blk[h.fl[k]]);
  }

  lemma WithoutMembers(fl: seq<Addr>, k: nat)
    requires Ascending(fl) && k < |fl|
    ensures Ascending(Without(fl, k))
    ensures forall a :: a in Without(fl, k) <==> a in fl && a != fl[k]
  {
    var fl' := Without(fl, k);
    forall a
      ensures a in fl' <==> a in fl && a != fl[k]
    {
      if a in fl && a != fl[k] {
        var i :| 0 <= i < |fl| && fl[i] == a;
        assert fl'[if i < k then i else i - 1] == a;
      }
      if a in fl' {
        var j :| 0 <= j < |fl'| && fl'[j] == a;
        assert fl[if j < k then j else j + 1] == a;
      }
    }
    forall i, j | 0 <= i < j < |fl'|
      ensures fl'[i] < fl'[j]
    {
      assert fl'[i] == fl[if i < k then i else i + 1] && fl'[j] == fl[if j < k then j else j + 1];
    }
  }

  lemma UnlistedListed(blk: map<Addr, Block>, fl: seq<Addr>, k: nat)
    requires Listed(blk, fl, NONE) && k < |fl| && NONE !in blk
    ensures Listed(blk, Without(fl, k), fl[k])
  {
    WithoutMembers(fl, k);
  }

  /** A free block leaves the list and is in limbo. */
  ghost function Take(h: Heap, k: nat): Heap
    requires k < |h.fl|
  {
    Unlisted(h, k).(limbo := h.fl[k])
  }

  lemma TakeInv(h: Heap, k: nat)
    requires Inv(h) && h.limbo == NONE && k < |h.fl|
    ensures Inv(Take(h, k))
  {
    NoneIsNoBlock(h);
    UnlistedWords(h, k);
    UnlistedListed(h.blk, h.fl, k);
  }

  // ----- onto the list -----

  /** Where `a` belongs in the ascending list. */
  ghost predicate PlaceFor(fl: seq<Addr>, k: nat, a: Addr) {
    && k <= |fl| && (forall i :: 0 <= i < k ==> fl[i] < a) && (forall i :: k <= i < |fl| ==> a < fl[i])
  }

  ghost function LinkWords(w: Words, head: Addr, fl: seq<Addr>, k: nat, a: Addr): Words
    requires k <= |fl|
  {
    if k == 0 then Store(w, a + 8, head)
    else Store(Store(w, a + 8, NextLink(fl, k - 1)), fl[k - 1] + 8, a + 8)
  }

  ghost function PutBack(h: Heap, k: nat): Heap
    requires k <= |h.fl|
  {
    h.(words := LinkWords(h.words, h.head, h.fl, k, h.limbo),
       head := if k == 0 then h.limbo + 8 else h.head,
       fl := With(h.fl, k, h.limbo), limbo := NONE)
  }

  lemma WithMembers(fl: seq<Addr>, k: nat, a: Addr)
    requires Ascending(fl) && PlaceFor(fl, k, a)
    ensures Ascending(With(fl, k, a))
    ensures forall x :: x in With(fl, k, a) <==> x in fl || x == a
  {
    var fl' := With(fl, k, a);
    forall x
      ensures x in fl' <==> x in fl || x == a
    {
      if x in fl {
        var i :| 0 <= i < |fl| && fl[i] == x;
        assert fl'[if i < k then i else i + 1] == x;
      }
      assert fl'[k] == a;
    }
  }

  lemma PutBackListed(blk: map<Addr, Block>, fl: seq<Addr>, limbo: Addr, k: nat)
    requires Listed(blk, fl, limbo) && PlaceFor(fl, k, limbo) && limbo in blk && blk[limbo].Free? && NONE !in blk
    ensures Listed(blk, With(fl, k, limbo), NONE)
  {
    WithMembers(fl, k, limbo);
    var fl' := With(fl, k, limbo);
    forall i | 0 <= i < |fl'|
      ensures fl'[i] in blk && blk[fl'[i]].Free? && fl'[i] != NONE
    {
      assert fl'[i] in fl';
    }
  }

  lemma NoneIsNoBlock(h: Heap)
    requires Inv(h)
    ensures NONE !in h.blk
  {
    if NONE in h.blk {
      assert BlockOk(NONE, h.blk[NONE]);
      assert Holds(h.blk, NONE, NONE);
    }
  }

  lemma PutBackInv(h: Heap, k: nat)
    requires Inv(h) && h.limbo != NONE && PlaceFor(h.fl, k, h.limbo) && Merged(h.regions, h.blk, NONE)
    ensures Inv(PutBack(h, k))
  {
    NoneIsNoBlock(h);
    PutBackListed(h.blk, h.fl, h.limbo, k);
    PutBackWords(h, k);
  }

  lemma PutBackWords(h: Heap, k: nat)
    requires Inv(h) && h.limbo != NONE && PlaceFor(h.fl, k, h.limbo) && Listed(h.blk, With(h.fl, k, h.limbo), NONE)
    ensures Stored(PutBack(h, k).words, h.blk) && Chain(PutBack(h, k).words, PutBack(h, k).head, PutBack(h, k).fl)
  {
    hide Tiled;
    hide Stored;
    hide Chain;
    hide Listed;
    hide Store;
    var a := h.limbo;
    ListSpaced(h.blk, With(h.fl, k, a), h.regions, NONE);
    LimboInside(h);
    if k > 0 {
      LinkInside(h, k - 1);
    }
    if k == 0 {
      LinkHead(h.words, h.head, h.fl, a);
      StoreInside(h.regions, h.words, h.blk, a, a + 8, h.head);
    } else {
      LinkChain(h.words, h.head, h.fl, k, a);
      var w1 := Store(h.words, a + 8, NextLink(h.fl, k - 1));
      StoreInside(h.regions, h.words, h.blk, a, a + 8, NextLink(h.fl, k - 1));
      StoreInside(h.regions, w1, h.blk, h.fl[k - 1], h.fl[k - 1] + 8, a + 8);
    }
  }

  // ----- tiling -----

  /** Two sets of blocks that hold the same addresses tile the same regions. */
  lemma SameHolds(rs: seq<Region>, blk: map<Addr, Block>, blk': map<Addr, Block>)
    requires Tiled(rs, blk) && Sound(blk')
    requires forall a, x {:trigger Holds(blk', a, x)} :: Holds(blk', a, x) ==> exists c :: Holds(blk, c, x)
    requires forall a, x {:trigger Holds(blk, a, x)} :: Holds(blk, a, x) ==> exists c :: Holds(blk', c, x)
    ensures Tiled(rs, blk')
  {
    forall a, x | Holds(blk', a, x)
      ensures InSome(rs, x)
    {
      var c :| Holds(blk, c, x);
    }
    forall x | InSome(rs, x)
      ensures exists a :: Holds(blk', a, x)
    {
      var c :| Holds(blk, c, x);
    }
  }

  lemma TiledUse(rs: seq<Region>, blk: map<Addr, Block>, a: Addr, b: Block)
    requires Tiled(rs, blk) && a in blk && b.size == blk[a].size && BlockOk(a, b)
    ensures Tiled(rs, blk[a := b])
  {
    var blk' := blk[a := b];
    forall c, x | Holds(blk', c, x)
      ensures exists d :: Holds(blk, d, x)
    {
      assert Holds(blk, c, x);
    }
    forall c, x | Holds(blk, c, x)
      ensures exists d :: Holds(blk', d, x)
    {
      assert Holds(blk', c, x);
    }
    SameHolds(rs, blk, blk');
  }

  lemma TiledSplit(rs: seq<Region>, blk: map<Addr, Block>, a: Addr, b: Block, c: Block)
    requires Tiled(rs, blk) && a in blk && b.size + c.size == blk[a].size && BlockOk(a, b) && BlockOk(End(a, b), c)
    ensures End(a, b) !in blk && Tiled(rs, blk[a := b][End(a, b) := c])
  {
    hide Covered;
    hide Filled;
    var m: Addr := End(a, b);
    var blk' := blk[a := b][m := c];
    SplitSound(blk, a, b, c);
    forall d, x | Holds(blk', d, x)
      ensures exists e :: Holds(blk, e, x)
    {
      assert Holds(blk, if d == m then a else d, x);
    }
    forall d, x | Holds(blk, d, x)
      ensures exists e :: Holds(blk', e, x)
    {
      assert Holds(blk', if d == a && m <= x then m else d, x);
    }
    SameHolds(rs, blk, blk');
  }

  lemma SplitSound(blk: map<Addr, Block>, a: Addr, b: Block, c: Block)
    requires Sound(blk) && a in blk && b.size + c.size == blk[a].size && BlockOk(a, b) && BlockOk(End(a, b), c)
    ensures End(a, b) !in blk && Sound(blk[a := b][End(a, b) := c])
  {
  }

  lemma TiledMerge(rs: seq<Region>, blk: map<Addr, Block>, a: Addr, b: Block)
    requires Tiled(rs, blk) && a in blk && Follows(blk, a)
    requires BlockOk(a, b) && b.size == blk[a].size + blk[End(a, blk[a])].size
    ensures Tiled(rs, (blk - {End(a, blk[a])})[a := b])
  {
    hide Covered;
    hide Filled;
    var n: Addr := End(a, blk[a]);
    var blk' := (blk - {n})[a := b];
    MergeSound(blk, a, b);
    assert BlockOk(a, blk[a]) && BlockOk(n, blk[n]);
    forall d, x | Holds(blk', d, x)
      ensures exists e :: Holds(blk, e, x)
    {
      assert Holds(blk, if d == a && n <= x then n else d, x);
    }
    forall d, x | Holds(blk, d, x)
      ensures exists e :: Holds(blk', e, x)
    {
      assert Holds(blk', if d == n then a else d, x);
    }
    SameHolds(rs, blk, blk');
  }

  lemma MergeSound(blk: map<Addr, Block>, a: Addr, b: Block)
    requires Sound(blk) && a in blk && Follows(blk, a) && BlockOk(a, b)
    requires b.size == blk[a].size + blk[End(a, blk[a])].size
    ensures Sound((blk - {End(a, blk[a])})[a := b])
  {
    var n: Addr := End(a, blk[a]);
    var blk' := (blk - {n})[a := b];
    assert BlockOk(a, blk[a]) && BlockOk(n, blk[n]);
    forall x, y | x in blk' && y in blk' && x < y
      ensures End(x, blk'[x]) <= y
    {
      assert x in blk && y in blk;
      if x == a {
        assert n <= y && y != n;
      }
    }
  }

  // ----- changing the block in limbo -----

  /** All other blocks, and all list nodes, lie outside the limbo block. */
  lemma LimboAlone(h: Heap)
    requires Inv(h) && h.limbo != NONE
    ensures var b := h.blk[h.limbo];
            && Outside(h.blk - {h.limbo}, h.limbo, End(h.limbo, b)) && LinksOutside(h.fl, h.limbo, End(h.limbo, b))
            && BlockOk(h.limbo, b)
  {
    var a, b := h.limbo, h.blk[h.limbo];
    assert BlockOk(a, b);
    forall k | 0 <= k < |h.fl|
      ensures h.fl[k] + MIN_BLOCK <= a || End(a, b) <= h.fl[k]
    {
      assert BlockOk(h.fl[k], h.blk[h.fl[k]]);
    }
  }

  ghost function UseWords(w: Words, a: Addr, b: Block): Words
    requires b.Used? && a + 16 <= b.user && 16 <= b.size
  {
    Store(SetTags(w, a, b), b.user - 8, b.user - (a + 8))
  }

  lemma UseWordsOk(w: Words, head: Addr, fl: seq<Addr>, others: map<Addr, Block>, a: Addr, b: Block, hi: Addr)
    requires b.Used? && BlockOk(a, b) && End(a, b) <= hi
    requires Stored(w, others) && Outside(others, a, hi) && Chain(w, head, fl) && LinksOutside(fl, a, hi)
    ensures var w' := UseWords(w, a, b); Stored(w', others) && Chain(w', head, fl) && OwnWords(w', a, b)
  {
    hide Store;
    var w1 := SetTags(w, a, b);
    SetTagsOutside(w, head, fl, others, a, b, a, hi);
    SetTagsHas(w, a, b);
    var x := b.user - (a + 8);
    StoredOutside(w1, others, a, hi, b.user - 8, x);
    ChainOutside(w1, head, fl, a, hi, b.user - 8, x);
    StoreHas(w1, b.user - 8, x);
    StoreKeeps(w1, b.user - 8, x, a, Tag(b));
    StoreKeeps(w1, b.user - 8, x, End(a, b) - 8, Tag(b));
  }

  /** The whole limbo block is handed out. */
  ghost function UseAll(h: Heap, b: Block): Heap
    requires b.Used? && h.limbo + 16 <= b.user && 16 <= b.size
  {
    h.(words := UseWords(h.words, h.limbo, b), blk := h.blk[h.limbo := b], limbo := NONE)
  }

  lemma UseAllInv(h: Heap, b: Block)
    requires Inv(h) && h.limbo != NONE && b.Used? && BlockOk(h.limbo, b) && b.size == h.blk[h.limbo].size
    ensures Inv(UseAll(h, b))
  {
    NoneIsNoBlock(h);
    LimboAlone(h);
    UseAllBlocks(h, b);
    var a := h.limbo;
    hide Store;
    hide Tiled;
    hide Chain;
    hide Listed;
    hide Merged;
    StoredWithout(h.words, h.blk, {a});
    UseWordsOk(h.words, h.head, h.fl, h.blk - {a}, a, b, End(a, b));
    hide Stored;
    StoredJoin(UseWords(h.words, a, b), h.blk, a, b);
  }

  lemma UseAllBlocks(h: Heap, b: Block)
    requires Inv(h) && h.limbo != NONE && b.Used? && BlockOk(h.limbo, b) && b.size == h.blk[h.limbo].size
    ensures Tiled(h.regions, h.blk[h.limbo := b]) && Listed(h.blk[h.limbo := b], h.fl, NONE)
    ensures Merged(h.regions, h.blk[h.limbo := b], NONE)
  {
    NoneIsNoBlock(h);
    TiledUse(h.regions, h.blk, h.limbo, b);
    var blk' := h.blk[h.limbo := b];
    forall x | RegionsOk(h.regions) && x in blk' && blk'[x].Free? && Follows(blk', x)
      ensures blk'[End(x, blk'[x])].Used?
    {
      assert Follows(h.blk, x);
    }
  }

  /** The front of the limbo block is handed out; the rest is in limbo. */
  ghost function SplitOff(h: Heap, b: Block, c: Block): Heap
    requires b.Used? && h.limbo + 16 <= b.user && 16 <= b.size && 16 <= c.size
  {
    h.(words := SplitWords(h.words, h.limbo, b, c),
       blk := h.blk[h.limbo := b][End(h.limbo, b) := c], limbo := End(h.limbo, b))
  }

  ghost function SplitWords(w: Words, a: Addr, b: Block, c: Block): Words
    requires b.Used? && a + 16 <= b.user && 16 <= b.size && 16 <= c.size
  {
    Store(SetTags(SetTags(w, a, b), End(a, b), c), b.user - 8, b.user - (a + 8))
  }

  ghost predicate CanSplit(h: Heap, b: Block, c: Block) {
    && Inv(h) && h.limbo != NONE && b.Used? && c.Free? && BlockOk(h.limbo, b) && BlockOk(End(h.limbo, b), c)
    && b.size + c.size == h.blk[h.limbo].size && Merged(h.regions, h.blk, NONE)
  }

  lemma SplitOffInv(h: Heap, b: Block, c: Block)
    requires CanSplit(h, b, c)
    ensures Inv(SplitOff(h, b, c)) && Merged(h.regions, SplitOff(h, b, c).blk, NONE)
  {
    LimboAlone(h);
    SplitBlocks(h, b, c);
    hide Store;
    hide Tiled;
    hide Listed;
    hide Merged;
    SplitStored(h, b, c);
    hide Stored;
    hide Chain;
  }

  lemma SplitStored(h: Heap, b: Block, c: Block)
    requires b.Used? && c.Free? && BlockOk(h.limbo, b) && BlockOk(End(h.limbo, b), c) && h.limbo in h.blk
    requires b.size + c.size == h.blk[h.limbo].size && Stored(h.words, h.blk) && Chain(h.words, h.head, h.fl)
    requires Outside(h.blk - {h.limbo}, h.limbo, End(h.limbo, h.blk[h.limbo]))
    requires LinksOutside(h.fl, h.limbo, End(h.limbo, h.blk[h.limbo]))
    ensures var h' := SplitOff(h, b, c); Stored(h'.words, h'.blk) && Chain(h'.words, h'.head, h'.fl)
  {
    hide Store;
    var a, m: Addr := h.limbo, End(h.limbo, b);
    var hi := End(a, h.blk[a]);
    var others := h.blk - {a};
    StoredWithout(h.words, h.blk, {a});
    var w1 := SetTags(h.words, a, b);
    SetTagsOutside(h.words, h.head, h.fl, others, a, b, a, hi);
    SetTagsHas(h.words, a, b);
    var w2 := SetTags(w1, m, c);
    SetTagsOutside(w1, h.head, h.fl, others, m, c, a, hi);
    SetTagsHas(w1, m, c);
    SetTagsApart(w1, m, c, a, Tag(b));
    SetTagsApart(w1, m, c, m - 8, Tag(b));
    var x := b.user - (a + 8);
    var w3 := Store(w2, b.user - 8, x);
    StoredOutside(w2, others, a, hi, b.user - 8, x);
    ChainOutside(w2, h.head, h.fl, a, hi, b.user - 8, x);
    StoreHas(w2, b.user - 8, x);
    StoreKeeps(w2, b.user - 8, x, a, Tag(b));
    StoreKeeps(w2, b.user - 8, x, m - 8, Tag(b));
    StoreKeeps(w2, b.user - 8, x, m, Tag(c));
    StoreKeeps(w2, b.user - 8, x, End(m, c) - 8, Tag(c));
    hide Chain;
    SplitJoin(w3, h.blk, a, b, m, c);
  }

  lemma SplitJoin(w: Words, blk: map<Addr, Block>, a: Addr, b: Block, m: Addr, c: Block)
    requires a in blk && Stored(w, blk - {a}) && a != m && OwnWords(w, a, b) && OwnWords(w, m, c)
    ensures Stored(w, blk[a := b][m := c])
  {
    StoredJoin(w, blk, a, b);
    StoredWithout(w, blk[a := b], {m});
    StoredJoin(w, blk[a := b], m, c);
  }

  lemma SetTagsApart(w: Words, m: Addr, c: Block, q: Addr, y: nat)
    requires 16 <= c.size && Has(w, q, y) && q + 8 <= m
    ensures Has(SetTags(w, m, c), q, y)
  {
    hide Store;
    StoreKeeps(w, m, Tag(c), q, y);
    StoreKeeps(Store(w, m, Tag(c)), End(m, c) - 8, Tag(c), q, y);
  }

  lemma SplitBlocks(h: Heap, b: Block, c: Block)
    requires CanSplit(h, b, c)
    ensures var blk' := h.blk[h.limbo := b][End(h.limbo, b) := c]; var m := End(h.limbo, b);
            && Tiled(h.regions, blk') && Listed(blk', h.fl, m) && Merged(h.regions, blk', NONE) && Merged(h.regions, blk', m)
            && m != NONE
  {
    NoneIsNoBlock(h);
    TiledSplit(h.regions, h.blk, h.limbo, b, c);
    SplitListed(h.blk, h.fl, h.limbo, b, c);
    if RegionsOk(h.regions) {
      SplitCoalesced(h.blk, h.limbo, b, c);
    }
    hide Tiled;
    hide Listed;
    hide Stored;
    hide Chain;
  }

  lemma SplitListed(blk: map<Addr, Block>, fl: seq<Addr>, a: Addr, b: Block, c: Block)
    requires Listed(blk, fl, a) && a in blk && End(a, b) !in blk && b.Used?
    ensures Listed(blk[a := b][End(a, b) := c], fl, End(a, b))
  {
    var blk' := blk[a := b][End(a, b) := c];
    forall x | x in blk' && blk'[x].Free? && x != End(a, b)
      ensures x in fl
    {
      assert x in blk && blk[x].Free? && x != a;
    }
  }

  lemma SplitCoalesced(blk: map<Addr, Block>, a: Addr, b: Block, c: Block)
    requires Sound(blk) && a in blk && b.size + c.size == blk[a].size && 0 < b.size && 0 < c.size
    requires Coalesced(blk, NONE) && NONE !in blk && b.Used? && blk[a].Free? && End(a, b) !in blk
    ensures var blk' := blk[a := b][End(a, b) := c]; Coalesced(blk', NONE) && Coalesced(blk', End(a, b))
  {
    var m: Addr := End(a, b);
    var blk' := blk[a := b][m := c];
    forall x | x in blk' && blk'[x].Free? && Follows(blk', x)
      ensures blk'[End(x, blk'[x])].Used?
    {
      if x == m {
        assert BlockOk(a, blk[a]);
        assert Follows(blk, a);
      } else {
        SplitFollow(blk, a, b, c, x);
      }
    }
  }

  lemma SplitFollow(blk: map<Addr, Block>, a: Addr, b: Block, c: Block, x: Addr)
    requires Sound(blk) && a in blk && b.size + c.size == blk[a].size && 0 < b.size && 0 < c.size
    requires Coalesced(blk, NONE) && NONE !in blk && b.Used? && blk[a].Free?
    requires x in blk && x != a && blk[x].Free?
    requires End(x, blk[x]) in blk[a := b][End(a, b) := c]
    ensures blk[a := b][End(a, b) := c][End(x, blk[x])].Used?
  {
    assert BlockOk(x, blk[x]) && BlockOk(a, blk[a]);
    assert End(x, blk[x]) != End(a, b);
    assert Follows(blk, x);
  }
}

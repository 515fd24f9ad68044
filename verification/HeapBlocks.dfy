/** Heap memory as words, blocks with boundary tags and the linked list of free blocks. */
module HeapBlocks {

  type Addr = nat

  const MIN_BLOCK: nat := 32
  const REGION_SIZE: nat := 65536
  const MAX_REGIONS: nat := 16

  // ----- memory -----

  /** 8-byte words stored whole, by address. A word that has been partly overwritten is
      no longer there. */
  type Words = map<Addr, nat>

  predicate Apart(p: Addr, q: Addr) { p + 8 <= q || q + 8 <= p }

  function Store(w: Words, p: Addr, x: nat): Words {
    (map q | q in w && Apart(p, q) :: w[q])[p := x]
  }

  ghost predicate Has(w: Words, p: Addr, x: nat) { p in w && w[p] == x }

  lemma StoreHas(w: Words, p: Addr, x: nat)
    ensures Has(Store(w, p, x), p, x)
  {
  }

  lemma StoreKeeps(w: Words, p: Addr, x: nat, q: Addr, y: nat)
    requires Has(w, q, y) && Apart(p, q)
    ensures Has(Store(w, p, x), q, y)
  {
  }

  /** What arbitrary bytes written to `lo..hi` leave intact. */
  function Scribble(w: Words, lo: Addr, hi: Addr): Words {
    map q | q in w && (q + 8 <= lo || hi <= q) :: w[q]
  }

  // ----- blocks -----

  datatype Region = Region(base: Addr, limit: Addr)

  /** `user` and `len` are the range handed out; `align` is what was asked for. */
  datatype Block =
    | Free(size: nat)
    | Used(size: nat, user: Addr, len: nat, align: nat)

  function Tag(b: Block): nat { b.size + if b.Used? then 1 else 0 }

  function End(a: Addr, b: Block): Addr { a + b.size }

  /** `limbo` is the one free block that is not on the list while a call is under way. */
  datatype Heap = Heap(words: Words, regions: seq<Region>, head: Addr,
                       blk: map<Addr, Block>, fl: seq<Addr>, limbo: Addr)

  const NONE: Addr := 0

  ghost predicate RegionOk(r: Region) {
    && 0 < r.base && r.base + MIN_BLOCK <= r.limit && r.base % 2 == 0 && r.limit % 2 == 0
  }

  /** Regions are disjoint and no region starts where another ends. */
  ghost predicate RegionsOk(rs: seq<Region>) {
    && (forall i :: 0 <= i < |rs| ==> RegionOk(rs[i]))
    && (forall i, j :: 0 <= i < j < |rs| ==> rs[i].limit < rs[j].base || rs[j].limit < rs[i].base)
  }

  /** Regions are disjoint, but one may start where another ends. */
  ghost predicate RegionsApart(rs: seq<Region>) {
    && (forall i :: 0 <= i < |rs| ==> RegionOk(rs[i]))
    && (forall i, j :: 0 <= i < j < |rs| ==> rs[i].limit <= rs[j].base || rs[j].limit <= rs[i].base)
  }

  ghost predicate NotBase(rs: seq<Region>, a: Addr) {
    forall i :: 0 <= i < |rs| ==> rs[i].base != a
  }

  predicate InRegion(r: Region, a: Addr) { r.base <= a < r.limit }

  ghost predicate InSome(rs: seq<Region>, a: Addr) {
    exists i :: 0 <= i < |rs| && InRegion(rs[i], a)
  }

  /** Another block starts where block `a` ends. */
  ghost predicate Follows(blk: map<Addr, Block>, a: Addr)
    requires a in blk
  {
    End(a, blk[a]) in blk
  }

  ghost predicate BlockOk(a: Addr, b: Block) {
    && a % 2 == 0 && b.size % 2 == 0 && MIN_BLOCK <= b.size
    && (b.Used? ==>
          && a + 16 <= b.user && b.user + b.len + 8 <= End(a, b)
          && 0 < b.align && b.user % b.align == 0)
  }

  ghost predicate Sound(blk: map<Addr, Block>) {
    && (forall a :: a in blk ==> BlockOk(a, blk[a]))
    && (forall a, b :: a in blk && b in blk && a < b ==> End(a, blk[a]) <= b)
  }

  /** Address `x` belongs to block `a`. */
  ghost predicate Holds(blk: map<Addr, Block>, a: Addr, x: Addr) { a in blk && a <= x < End(a, blk[a]) }

  ghost predicate Covered(rs: seq<Region>, blk: map<Addr, Block>) {
    forall a, x {:trigger Holds(blk, a, x)} :: Holds(blk, a, x) ==> InSome(rs, x)
  }

  ghost predicate Filled(rs: seq<Region>, blk: map<Addr, Block>) {
    forall x {:trigger InSome(rs, x)} :: InSome(rs, x) ==> exists a :: Holds(blk, a, x)
  }

  /** The blocks partition the regions. */
  ghost predicate Tiled(rs: seq<Region>, blk: map<Addr, Block>) {
    Covered(rs, blk) && Filled(rs, blk) && Sound(blk)
  }

  /** Header, footer and, before the user's pointer, the shift back to the payload. */
  ghost predicate Stored(w: Words, blk: map<Addr, Block>) {
    && (forall a :: a in blk ==> Has(w, a, Tag(blk[a])))
    && (forall a :: a in blk && 8 <= End(a, blk[a]) ==> Has(w, End(a, blk[a]) - 8, Tag(blk[a])))
    && (forall a :: a in blk && blk[a].Used? && a + 16 <= blk[a].user ==>
          Has(w, blk[a].user - 8, blk[a].user - (a + 8)))
  }

  ghost function NextLink(fl: seq<Addr>, k: nat): Addr {
    if k + 1 < |fl| then fl[k + 1] + 8 else 0
  }

  /** The list as linked in memory: each node sits behind the header of its block. */
  ghost predicate Chain(w: Words, head: Addr, fl: seq<Addr>) {
    && head == (if fl == [] then 0 else fl[0] + 8)
    && forall k {:trigger NextLink(fl, k)} :: 0 <= k < |fl| ==> Has(w, fl[k] + 8, NextLink(fl, k))
  }

  ghost predicate Ascending(fl: seq<Addr>) {
    forall i, j :: 0 <= i < j < |fl| ==> fl[i] < fl[j]
  }

  /** The list is exactly the free blocks, in address order. */
  ghost predicate Listed(blk: map<Addr, Block>, fl: seq<Addr>, limbo: Addr) {
    && Ascending(fl)
    && (forall k :: 0 <= k < |fl| ==> fl[k] in blk && blk[fl[k]].Free? && fl[k] != limbo)
    && (forall a :: a in blk && blk[a].Free? && a != limbo ==> a in fl)
  }

  /** No two neighbouring blocks are both free; `limbo` is still to be merged. */
  ghost predicate Coalesced(blk: map<Addr, Block>, limbo: Addr) {
    forall a {:trigger Follows(blk, a)} ::
      a in blk && blk[a].Free? && Follows(blk, a) && a != limbo && End(a, blk[a]) != limbo ==>
        blk[End(a, blk[a])].Used?
  }

  /** Merging is complete unless regions abut. */
  ghost predicate Merged(rs: seq<Region>, blk: map<Addr, Block>, limbo: Addr) {
    RegionsOk(rs) ==> Coalesced(blk, limbo)
  }

  ghost predicate Inv(h: Heap) {
    && RegionsApart(h.regions) && Tiled(h.regions, h.blk) && Stored(h.words, h.blk)
    && Chain(h.words, h.head, h.fl) && Listed(h.blk, h.fl, h.limbo) && Merged(h.regions, h.blk, h.limbo)
    && (h.limbo != NONE ==> h.limbo in h.blk && h.blk[h.limbo].Free?)
  }

  // ----- geometry -----

  /** A word strictly inside the free block `c`. */
  ghost predicate Inside(blk: map<Addr, Block>, c: Addr, p: Addr) {
    c in blk && blk[c].Free? && c + 8 <= p && p + 16 <= End(c, blk[c])
  }

  /** Storing inside a free block leaves every tag and shift alone. */
  lemma StoreInside(rs: seq<Region>, w: Words, blk: map<Addr, Block>, c: Addr, p: Addr, x: nat)
    requires Tiled(rs, blk) && Stored(w, blk) && Inside(blk, c, p)
    ensures Stored(Store(w, p, x), blk)
  {
    hide Store;
    forall a | a in blk
      ensures Has(Store(w, p, x), a, Tag(blk[a]))
    {
      InsideApart(rs, blk, c, p, a);
      StoreKeeps(w, p, x, a, Tag(blk[a]));
    }
    forall a | a in blk && 8 <= End(a, blk[a])
      ensures Has(Store(w, p, x), End(a, blk[a]) - 8, Tag(blk[a]))
    {
      InsideApart(rs, blk, c, p, a);
      StoreKeeps(w, p, x, End(a, blk[a]) - 8, Tag(blk[a]));
    }
    forall a | a in blk && blk[a].Used? && a + 16 <= blk[a].user
      ensures Has(Store(w, p, x), blk[a].user - 8, blk[a].user - (a + 8))
    {
      InsideApart(rs, blk, c, p, a);
      StoreKeeps(w, p, x, blk[a].user - 8, blk[a].user - (a + 8));
    }
  }

  lemma InsideApart(rs: seq<Region>, blk: map<Addr, Block>, c: Addr, p: Addr, a: Addr)
    requires Tiled(rs, blk) && Inside(blk, c, p) && a in blk
    ensures BlockOk(a, blk[a]) && Apart(p, a) && Apart(p, End(a, blk[a]) - 8)
    ensures blk[a].Used? ==> Apart(p, blk[a].user - 8)
  {
  }

  /** Where a block ends, another starts exactly if some region goes on. */
  lemma EndOrNext(rs: seq<Region>, blk: map<Addr, Block>, a: Addr)
    requires Tiled(rs, blk) && a in blk
    ensures InSome(rs, End(a, blk[a])) <==> Follows(blk, a)
  {
    var n: Addr := End(a, blk[a]);
    if InSome(rs, n) {
      var c: Addr :| Holds(blk, c, n);
    }
    if Follows(blk, a) {
      assert BlockOk(n, blk[n]);
      assert Holds(blk, n, n);
    }
  }

  /** The block that ends where block `a` starts. */
  lemma PrevExists(rs: seq<Region>, blk: map<Addr, Block>, a: Addr) returns (p: Addr)
    requires Tiled(rs, blk) && a in blk && 0 < a && InSome(rs, a - 1)
    ensures p in blk && p < a && End(p, blk[p]) == a
  {
    p :| Holds(blk, p, a - 1);
  }

  /** A block whose first address has no region before it. */
  lemma FirstExists(rs: seq<Region>, blk: map<Addr, Block>, a: Addr)
    requires Tiled(rs, blk) && InSome(rs, a) && (a == 0 || !InSome(rs, a - 1))
    ensures a in blk
  {
    var c: Addr :| Holds(blk, c, a);
    if c < a {
      assert Holds(blk, c, a - 1);
    }
  }

  // ----- the linked list -----

  lemma Spread(blk: map<Addr, Block>, fl: seq<Addr>, rs: seq<Region>, limbo: Addr, i: nat, j: nat)
    requires Tiled(rs, blk) && Listed(blk, fl, limbo) && i < |fl| && j < |fl| && i != j
    ensures fl[i] + MIN_BLOCK <= fl[j] || fl[j] + MIN_BLOCK <= fl[i]
  {
    assert BlockOk(fl[i], blk[fl[i]]) && BlockOk(fl[j], blk[fl[j]]);
  }

  ghost predicate Spaced(fl: seq<Addr>) {
    forall i, j :: 0 <= i < j < |fl| ==> fl[i] + MIN_BLOCK <= fl[j]
  }

  lemma ListSpaced(blk: map<Addr, Block>, fl: seq<Addr>, rs: seq<Region>, limbo: Addr)
    requires Tiled(rs, blk) && Listed(blk, fl, limbo)
    ensures Spaced(fl)
  {
    forall i, j | 0 <= i < j < |fl|
      ensures fl[i] + MIN_BLOCK <= fl[j]
    {
      Spread(blk, fl, rs, limbo, i, j);
    }
  }

  ghost function Without(fl: seq<Addr>, k: nat): seq<Addr>
    requires k < |fl|
  {
    fl[..k] + fl[k + 1..]
  }

  ghost function With(fl: seq<Addr>, k: nat, a: Addr): seq<Addr>
    requires k <= |fl|
  {
    fl[..k] + [a] + fl[k..]
  }

  /** Unlinking node `k`: its predecessor, or the head, takes over its link. */
  lemma UnlinkHead(w: Words, head: Addr, fl: seq<Addr>)
    requires Chain(w, head, fl) && fl != []
    ensures Chain(w, NextLink(fl, 0), Without(fl, 0))
  {
    var fl' := Without(fl, 0);
    forall j | 0 <= j < |fl'|
      ensures Has(w, fl'[j] + 8, NextLink(fl', j))
    {
      assert fl'[j] == fl[j + 1] && Has(w, fl[j + 1] + 8, NextLink(fl, j + 1));
    }
  }

  lemma UnlinkChain(w: Words, head: Addr, fl: seq<Addr>, k: nat)
    requires Chain(w, head, fl) && Spaced(fl) && 0 < k < |fl|
    ensures Chain(Store(w, fl[k - 1] + 8, NextLink(fl, k)), head, Without(fl, k))
  {
    hide Store;
    hide Spaced;
    var w', fl' := Store(w, fl[k - 1] + 8, NextLink(fl, k)), Without(fl, k);
    forall j | 0 <= j < |fl'|
      ensures Has(w', fl'[j] + 8, NextLink(fl', j))
    {
      UnlinkNode(w, fl, k, j);
    }
  }

  lemma UnlinkNode(w: Words, fl: seq<Addr>, k: nat, j: nat)
    requires forall i {:trigger NextLink(fl, i)} :: 0 <= i < |fl| ==> Has(w, fl[i] + 8, NextLink(fl, i))
    requires Spaced(fl) && 0 < k < |fl| && j < |fl| - 1
    ensures Has(Store(w, fl[k - 1] + 8, NextLink(fl, k)), Without(fl, k)[j] + 8, NextLink(Without(fl, k), j))
  {
    hide Store;
    var fl' := Without(fl, k);
    var o := if j < k then j else j + 1;
    assert fl'[j] == fl[o];
    if o == k - 1 {
      StoreHas(w, fl[k - 1] + 8, NextLink(fl, k));
      assert NextLink(fl', j) == NextLink(fl, k);
    } else {
      assert NextLink(fl', j) == NextLink(fl, o);
      assert Apart(fl[k - 1] + 8, fl[o] + 8);
      StoreKeeps(w, fl[k - 1] + 8, NextLink(fl, k), fl[o] + 8, NextLink(fl, o));
    }
  }

  /** Linking `a` in before node `k`. */
  lemma LinkHead(w: Words, head: Addr, fl: seq<Addr>, a: Addr)
    requires Chain(w, head, fl) && Spaced(With(fl, 0, a))
    ensures Chain(Store(w, a + 8, head), a + 8, With(fl, 0, a))
  {
    hide Store;
    forall j | 0 <= j < |With(fl, 0, a)|
      ensures Has(Store(w, a + 8, head), With(fl, 0, a)[j] + 8, NextLink(With(fl, 0, a), j))
    {
      LinkHeadNode(w, head, fl, a, j);
    }
  }

  lemma LinkHeadNode(w: Words, head: Addr, fl: seq<Addr>, a: Addr, j: nat)
    requires Chain(w, head, fl) && Spaced(With(fl, 0, a)) && j <= |fl|
    ensures Has(Store(w, a + 8, head), With(fl, 0, a)[j] + 8, NextLink(With(fl, 0, a), j))
  {
    hide Store;
    var fl' := With(fl, 0, a);
    assert fl'[0] == a;
    if j == 0 {
      StoreHas(w, a + 8, head);
    } else {
      assert fl'[j] == fl[j - 1] && NextLink(fl', j) == NextLink(fl, j - 1);
      assert Apart(a + 8, fl'[j] + 8);
      StoreKeeps(w, a + 8, head, fl[j - 1] + 8, NextLink(fl, j - 1));
    }
  }

  lemma LinkChain(w: Words, head: Addr, fl: seq<Addr>, k: nat, a: Addr)
    requires Chain(w, head, fl) && 0 < k <= |fl| && Spaced(With(fl, k, a))
    ensures Chain(Store(Store(w, a + 8, NextLink(fl, k - 1)), fl[k - 1] + 8, a + 8), head, With(fl, k, a))
  {
    hide Store;
    var fl' := With(fl, k, a);
    var w1 := Store(w, a + 8, NextLink(fl, k - 1));
    var w' := Store(w1, fl[k - 1] + 8, a + 8);
    forall j | 0 <= j < |fl'|
      ensures Has(w', fl'[j] + 8, NextLink(fl', j))
    {
      LinkNode(w, fl, k, a, j);
    }
  }

  lemma LinkNode(w: Words, fl: seq<Addr>, k: nat, a: Addr, j: nat)
    requires forall i {:trigger NextLink(fl, i)} :: 0 <= i < |fl| ==> Has(w, fl[i] + 8, NextLink(fl, i))
    requires 0 < k <= |fl| && Spaced(With(fl, k, a)) && j <= |fl|
    ensures Has(Store(Store(w, a + 8, NextLink(fl, k - 1)), fl[k - 1] + 8, a + 8),
                With(fl, k, a)[j] + 8, NextLink(With(fl, k, a), j))
  {
    hide Store;
    var fl' := With(fl, k, a);
    var w1 := Store(w, a + 8, NextLink(fl, k - 1));
    assert fl'[k] == a && fl'[k - 1] == fl[k - 1];
    assert fl'[k - 1] + MIN_BLOCK <= fl'[k];
    if j == k {
      StoreHas(w, a + 8, NextLink(fl, k - 1));
      StoreKeeps(w1, fl[k - 1] + 8, a + 8, a + 8, NextLink(fl, k - 1));
      assert NextLink(fl', k) == NextLink(fl, k - 1);
    } else if j == k - 1 {
      StoreHas(w1, fl[k - 1] + 8, a + 8);
    } else {
      var o := if j < k then j else j - 1;
      assert fl'[j] == fl[o] && NextLink(fl', j) == NextLink(fl, o);
      assert Apart(a + 8, fl[o] + 8) && Apart(fl[k - 1] + 8, fl[o] + 8);
      StoreKeeps(w, a + 8, NextLink(fl, k - 1), fl[o] + 8, NextLink(fl, o));
      StoreKeeps(w1, fl[k - 1] + 8, a + 8, fl[o] + 8, NextLink(fl, o));
    }
  }
}

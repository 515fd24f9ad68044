/** The early kernel heap: first fit over an address-ordered list of free blocks. */
module KernelHeap {
  import opened Arith
  import Pmm
  import opened HeapBlocks
  import opened HeapSteps
  import opened HeapRelease
  import opened HeapLaws
  import opened HeapSpec

  function Masked(tag: nat): nat { tag - tag % 2 }

  /** The link that leads to node `k`. */
  ghost function LinkAt(fl: seq<Addr>, k: nat): Addr {
    if k < |fl| then fl[k] + 8 else 0
  }

  // ----- facts about one block in memory -----

  lemma TagAt(h: Heap, a: Addr)
    requires Inv(h) && a in h.blk
    ensures a in h.words && h.words[a] == Tag(h.blk[a]) && Masked(h.words[a]) == h.blk[a].size
    ensures (h.words[a] % 2 == 1) <==> h.blk[a].Used?
    ensures BlockOk(a, h.blk[a])
  {
    hide Chain;
    hide Merged;
    hide Listed;
    assert BlockOk(a, h.blk[a]);
    assert Has(h.words, a, Tag(h.blk[a]));
  }

  lemma FootAt(h: Heap, a: Addr)
    requires Inv(h) && a in h.blk
    ensures BlockOk(a, h.blk[a])
    ensures var e := End(a, h.blk[a]); e - 8 in h.words && h.words[e - 8] == Tag(h.blk[a])
  {
    hide Chain;
    hide Merged;
    hide Listed;
    assert BlockOk(a, h.blk[a]);
    assert Has(h.words, End(a, h.blk[a]) - 8, Tag(h.blk[a]));
  }

  lemma LinkOf(h: Heap, k: nat)
    requires Inv(h) && k < |h.fl|
    ensures h.fl[k] in h.blk && h.blk[h.fl[k]].Free?
    ensures h.fl[k] + 8 in h.words && h.words[h.fl[k] + 8] == LinkAt(h.fl, k + 1)
  {
    hide Tiled;
    hide Stored;
    hide Merged;
    assert Has(h.words, h.fl[k] + 8, NextLink(h.fl, k));
  }

  lemma ListFacts(h: Heap)
    requires Inv(h)
    ensures Chain(h.words, h.head, h.fl) && Spaced(h.fl) && Ascending(h.fl) && Tiled(h.regions, h.blk)
    ensures h.limbo !in h.fl
    ensures forall j :: 0 <= j < |h.fl| ==> h.fl[j] in h.blk && h.blk[h.fl[j]].Free?
  {
    ListSpaced(h.blk, h.fl, h.regions, h.limbo);
  }

  lemma OnList(h: Heap, a: Addr) returns (k: nat)
    requires Inv(h) && a in h.blk && h.blk[a].Free? && a != h.limbo
    ensures k < |h.fl| && h.fl[k] == a
  {
    k :| 0 <= k < |h.fl| && h.fl[k] == a;
  }

  ghost predicate Part(small: map<Addr, Block>, big: map<Addr, Block>) {
    forall a :: a in small ==> a in big && big[a] == small[a]
  }

  /** One block more is live: the one at `a`, whose user range is as asked for. */
  ghost predicate Added(blk: map<Addr, Block>, blk': map<Addr, Block>, a: Addr, user: Addr, size: nat, al: nat) {
    && a !in Live(blk) && a in blk' && Live(blk') == Live(blk)[a := blk'[a]]
    && blk'[a].Used? && blk'[a].user == user && blk'[a].len == size && blk'[a].align == al
  }

  // ----- carving a request out of a free block -----

  ghost predicate CanCarve(h: Heap, k: nat, size: nat, al: nat) {
    && Inv(h) && h.limbo == NONE && k < |h.fl| && 0 < al && al % 2 == 0 && Evenly(size, al)
    && Fits(h.blk, h.fl[k], size, al)
  }

  lemma CarveWhole(h: Heap, k: nat, size: nat, al: nat)
    requires CanCarve(h, k, size, al) && !Splits(h.blk[h.fl[k]].size, Wanted(h.fl[k], size, al))
    ensures var b := Taken(h.blk, h.fl[k], size, al);
            && 16 <= b.size && h.fl[k] + 16 <= b.user && Inv(UseAll(Take(h, k), b))
            && UseAll(Take(h, k), b).blk == Placed(h.blk, h.fl[k], size, al)
            && Kept(h.words, UseAll(Take(h, k), b).words, Live(h.blk))
  {
    hide Tiled;
    hide Stored;
    hide Chain;
    hide Listed;
    hide Merged;
    hide UnlinkWords;
    hide Store;
    hide SetTags;
    hide Live;
    hide Wanted;
    hide UserFor;
    hide Kept;
    var a := h.fl[k];
    TakeInv(h, k);
    TagAt(h, a);
    TakenOk(h.blk, a, size, al);
    var b := Taken(h.blk, a, size, al);
    NoneIsNoBlock(h);
    UseAllInv(Take(h, k), b);
    ListFacts(h);
    UnlinkKept(h, k);
    UseKept(Take(h, k), b, Live(h.blk));
    KeptTrans(h.words, Take(h, k).words, UseAll(Take(h, k), b).words, Live(h.blk));
  }

  lemma UseKept(t: Heap, b: Block, live: map<Addr, Block>)
    requires Tiled(t.regions, t.blk) && t.limbo in t.blk && t.blk[t.limbo].Free? && live == Live(t.blk)
    requires b.Used? && BlockOk(t.limbo, b) && b.size == t.blk[t.limbo].size
    ensures Kept(t.words, UseAll(t, b).words, live)
  {
    hide Tiled;
    hide Store;
    var a := t.limbo;
    FreeOutside(t.regions, t.blk, a);
    hide Live;
    TagsKept(t.words, live, a, End(a, b), a, b);
    var w1 := SetTags(t.words, a, b);
    StoreKept(w1, live, a, End(a, b), b.user - 8, b.user - (a + 8));
    KeptTrans(t.words, w1, UseAll(t, b).words, live);
  }

  lemma CarveFront(h: Heap, k: nat, size: nat, al: nat)
    requires CanCarve(h, k, size, al) && Splits(h.blk[h.fl[k]].size, Wanted(h.fl[k], size, al))
    ensures var a := h.fl[k]; var b := Taken(h.blk, a, size, al); var c := Free(h.blk[a].size - b.size);
            && 16 <= b.size && 16 <= c.size && a + 16 <= b.user && BlockOk(a, b)
            && Inv(SplitOff(Take(h, k), b, c)) && Merged(h.regions, SplitOff(Take(h, k), b, c).blk, NONE)
            && SplitOff(Take(h, k), b, c).blk == Placed(h.blk, a, size, al)
            && Kept(h.words, SplitOff(Take(h, k), b, c).words, Live(h.blk))
            && CanSplit(Take(h, k), b, c) && Part(Live(h.blk), Live(SplitOff(Take(h, k), b, c).blk))
  {
    hide Tiled;
    hide Stored;
    hide Chain;
    hide Listed;
    hide Merged;
    hide UnlinkWords;
    hide Store;
    hide SetTags;
    hide SplitWords;
    hide Live;
    hide Wanted;
    hide UserFor;
    hide Kept;
    var a := h.fl[k];
    TakeInv(h, k);
    TagAt(h, a);
    TakenOk(h.blk, a, size, al);
    var b := Taken(h.blk, a, size, al);
    var c := Free(h.blk[a].size - b.size);
    NoneIsNoBlock(h);
    SplitOffInv(Take(h, k), b, c);
    PlacedPart(h, a, size, al);
    ListFacts(h);
    UnlinkKept(h, k);
    SplitKept(Take(h, k), b, c, Live(h.blk));
    KeptTrans(h.words, Take(h, k).words, SplitOff(Take(h, k), b, c).words, Live(h.blk));
  }

  lemma PlacedPart(h: Heap, a: Addr, size: nat, al: nat)
    requires Inv(h) && 0 < al && Fits(h.blk, a, size, al)
    ensures Part(Live(h.blk), Live(Placed(h.blk, a, size, al)))
    ensures Added(h.blk, Placed(h.blk, a, size, al), a, UserFor(a, al), size, al)
  {
    PlacedLive(h.blk, a, size, al);
  }

  lemma SplitKept(t: Heap, b: Block, c: Block, live: map<Addr, Block>)
    requires Tiled(t.regions, t.blk) && t.limbo in t.blk && t.blk[t.limbo].Free? && live == Live(t.blk)
    requires b.Used? && BlockOk(t.limbo, b) && 16 <= c.size && b.size + c.size == t.blk[t.limbo].size
    ensures Kept(t.words, SplitOff(t, b, c).words, live)
  {
    hide Tiled;
    hide Store;
    var a := t.limbo;
    var hi := End(a, t.blk[a]);
    FreeOutside(t.regions, t.blk, a);
    hide Live;
    hide Outside;
    TagsKept(t.words, live, a, hi, a, b);
    var w1 := SetTags(t.words, a, b);
    TagsKept(w1, live, a, hi, End(a, b), c);
    var w2 := SetTags(w1, End(a, b), c);
    hide SetTags;
    StoreKept(w2, live, a, hi, b.user - 8, b.user - (a + 8));
    hide Kept;
    KeptTrans(t.words, w1, w2, live);
    KeptTrans(t.words, w2, Store(w2, b.user - 8, b.user - (a + 8)), live);
  }

  // ----- pages under the heap -----

  const GROW_PAGES: nat := 16
  const PHYS_LIMIT: nat := Pmm.MAX_PAGES * Pmm.PAGE_SIZE

  /** The page at virtual address `a`, physical memory being mapped from `hhdm` on. */
  function PageOf(hhdm: nat, a: Addr): nat
    requires hhdm <= a
  {
    (a - hhdm) / Pmm.PAGE_SIZE
  }

  ghost predicate RunAt(hhdm: nat, a: Addr, count: nat) {
    hhdm <= a && (a - hhdm) % Pmm.PAGE_SIZE == 0 && PageOf(hhdm, a) + count <= Pmm.MAX_PAGES
  }

  /** The pages of the regions are in use. */
  ghost predicate PagesUsed(used: seq<bool>, hhdm: nat, rs: seq<Region>) {
    && |used| == Pmm.MAX_PAGES && 0 < hhdm && hhdm % Pmm.PAGE_SIZE == 0
    && (forall i :: 0 <= i < |rs| ==> RunAt(hhdm, rs[i].base, GROW_PAGES))
    && forall i, q :: 0 <= i < |rs| && hhdm <= rs[i].base && PageOf(hhdm, rs[i].base) <= q < PageOf(hhdm, rs[i].base) + GROW_PAGES && q < |used| ==> used[q]
  }

  ghost predicate InGot(hhdm: nat, got: seq<Addr>, q: nat) {
    exists i :: 0 <= i < |got| && hhdm <= got[i] && PageOf(hhdm, got[i]) <= q < PageOf(hhdm, got[i]) + GROW_PAGES
  }

  /** Exactly the pages of the regions in `got` have been taken from the allocator. */
  ghost predicate Handed(s: Pmm.State, s': Pmm.State, hhdm: nat, got: seq<Addr>) {
    && |s.used| == |s.refs| == |s'.used| == |s'.refs| == Pmm.MAX_PAGES
    && forall q :: 0 <= q < Pmm.MAX_PAGES ==>
         if InGot(hhdm, got, q) then !s.used[q] && s'.used[q] && s'.refs[q] == 1
         else s'.used[q] == s.used[q] && s'.refs[q] == s.refs[q]
  }

  /** A run in use and a free run share no address. */
  lemma RunsApart(used: seq<bool>, hhdm: nat, a: Addr, page: nat)
    requires RunAt(hhdm, a, GROW_PAGES) && |used| == Pmm.MAX_PAGES && Pmm.FreeRun(used, page, GROW_PAGES)
    requires forall q :: PageOf(hhdm, a) <= q < PageOf(hhdm, a) + GROW_PAGES ==> used[q]
    ensures var base := hhdm + page * Pmm.PAGE_SIZE; a + REGION_SIZE <= base || base + REGION_SIZE <= a
  {
    var p := PageOf(hhdm, a);
    assert used[p] && !used[page];
    assert p + GROW_PAGES <= page || page + GROW_PAGES <= p;
    assert a == hhdm + p * Pmm.PAGE_SIZE;
  }

  lemma PageBase(hhdm: nat, page: nat)
    ensures var base: Addr := hhdm + page * Pmm.PAGE_SIZE; (base - hhdm) % Pmm.PAGE_SIZE == 0 && PageOf(hhdm, base) == page
  {
  }

  /** A run of free pages lies apart from all regions. */
  lemma FreshApart(used: seq<bool>, hhdm: nat, rs: seq<Region>, page: nat)
    requires PagesUsed(used, hhdm, rs) && RegionsApart(rs) && Pmm.FreeRun(used, page, GROW_PAGES)
    requires forall i :: 0 <= i < |rs| ==> rs[i].limit == rs[i].base + REGION_SIZE
    ensures var base := hhdm + page * Pmm.PAGE_SIZE;
            RegionsApart(rs + [Region(base, base + REGION_SIZE)]) && RunAt(hhdm, base, GROW_PAGES) && PageOf(hhdm, base) == page
  {
    hide RegionsApart;
    hide PageOf;
    hide RegionOk;
    var base := hhdm + page * Pmm.PAGE_SIZE;
    PageBase(hhdm, page);
    RunRegion(hhdm, page);
    forall i | 0 <= i < |rs|
      ensures rs[i].limit <= base || base + REGION_SIZE <= rs[i].base
    {
      assert RunAt(hhdm, rs[i].base, GROW_PAGES);
      RunsApart(used, hhdm, rs[i].base, page);
    }
    OneMoreApart(rs, Region(base, base + REGION_SIZE));
  }

  lemma RunRegion(hhdm: nat, page: nat)
    requires 0 < hhdm && hhdm % Pmm.PAGE_SIZE == 0
    ensures var base := hhdm + page * Pmm.PAGE_SIZE; RegionOk(Region(base, base + REGION_SIZE))
  {
  }

  lemma OneMoreApart(rs: seq<Region>, r: Region)
    requires RegionsApart(rs) && RegionOk(r)
    requires forall i :: 0 <= i < |rs| ==> rs[i].limit <= r.base || r.limit <= rs[i].base
    ensures RegionsApart(rs + [r])
  {
  }

  /** Adding one more run. */
  lemma HandedNext(s: Pmm.State, t: Pmm.State, u: Pmm.State, hhdm: nat, got: seq<Addr>, base: Addr)
    requires Handed(s, t, hhdm, got) && RunAt(hhdm, base, GROW_PAGES) && Pmm.AllocAt(t, PageOf(hhdm, base), GROW_PAGES, u)
    ensures Handed(s, u, hhdm, got + [base])
  {
    forall q | 0 <= q < Pmm.MAX_PAGES
      ensures InGot(hhdm, got + [base], q) <==> InGot(hhdm, got, q) || PageOf(hhdm, base) <= q < PageOf(hhdm, base) + GROW_PAGES
    {
      GotOne(hhdm, got, base, q);
    }
  }

  lemma GotOne(hhdm: nat, got: seq<Addr>, base: Addr, q: nat)
    requires hhdm <= base
    ensures InGot(hhdm, got + [base], q) <==> InGot(hhdm, got, q) || PageOf(hhdm, base) <= q < PageOf(hhdm, base) + GROW_PAGES
  {
    var more := got + [base];
    assert more[|got|] == base;
    if InGot(hhdm, got, q) {
      var i :| 0 <= i < |got| && hhdm <= got[i] && PageOf(hhdm, got[i]) <= q < PageOf(hhdm, got[i]) + GROW_PAGES;
      assert more[i] == got[i];
    }
  }

  class Arena {
    const pmm: Pmm.Allocator
    const hhdm: nat
    var words: Words
    var regions: seq<Region>
    var freeList: Addr
    var backingPages: nat
    var failed: nat
    ghost var blk: map<Addr, Block>
    ghost var fl: seq<Addr>
    ghost var limbo: Addr

    ghost function State(): Heap
      reads this
    {
      Heap(words, regions, freeList, blk, fl, limbo)
    }

    /** Every region was added by growing. */
    ghost predicate Backed()
      reads this
    {
      && backingPages == 16 * |regions| && |regions| <= MAX_REGIONS
      && forall i :: 0 <= i < |regions| ==> regions[i].limit == regions[i].base + REGION_SIZE
    }

    ghost predicate Valid()
      reads this
    {
      Inv(State()) && limbo == NONE && Backed()
    }

    /** The page allocator is sound and counts every page of the heap as used. */
    ghost predicate Paged()
      reads this, pmm, pmm.bitmap, pmm.refcounts
    {
      pmm.Valid() && PagesUsed(pmm.st.used, hhdm, regions)
    }

    constructor (pmm: Pmm.Allocator, hhdm: nat)
      requires pmm.Valid() && 0 < hhdm && hhdm % Pmm.PAGE_SIZE == 0
      ensures Valid() && Paged() && regions == [] && blk == map[] && this.pmm == pmm && this.hhdm == hhdm
    {
      this.pmm := pmm;
      this.hhdm := hhdm;
      words := map[];
      regions := [];
      freeList := 0;
      backingPages := 0;
      failed := 0;
      blk := map[];
      fl := [];
      limbo := NONE;
    }

    method SetBlock(a: Addr, size: nat, inUse: bool, ghost b: Block)
      requires 16 <= size && size % 2 == 0 && b.size == size && b.Used? == inUse
      modifies `words
      ensures words == SetTags(old(words), a, b)
    {
      words := Store(words, a, size + if inUse then 1 else 0);
      var foot := a + Masked(words[a]) - 8;
      words := Store(words, foot, words[a]);
    }

    method RemoveFromFreeList(target: Addr) returns (ghost k: nat)
      requires Chain(words, freeList, fl) && Spaced(fl) && target != 0
      modifies `words, `freeList, `fl
      ensures k <= |old(fl)| && forall j :: 0 <= j < k ==> old(fl)[j] + 8 != target
      ensures k < |old(fl)| ==> old(fl)[k] + 8 == target && State() == Unlisted(old(State()), k)
      ensures k == |old(fl)| ==> State() == old(State())
    {
      hide Store;
      var prev, cur := 0, freeList;
      k := 0;
      while cur != 0 && cur != target
        invariant k <= |fl| && cur == LinkAt(fl, k) && prev == if k == 0 then 0 else fl[k - 1] + 8
        invariant forall j :: 0 <= j < k ==> fl[j] + 8 != target
        decreases |fl| - k
      {
        assert Has(words, fl[k] + 8, NextLink(fl, k));
        prev := cur;
        cur := words[cur];
        k := k + 1;
      }
      if cur != 0 {
        assert Has(words, fl[k] + 8, NextLink(fl, k));
        var next := words[target];
        if prev == 0 {
          freeList := next;
        } else {
          words := Store(words, prev, next);
        }
        fl := Without(fl, k);
      }
    }

    /** The link that comes before the first block past `node`. */
    method FindPlace(node: Addr) returns (prev: Addr, cur: Addr, ghost k: nat)
      requires Chain(words, freeList, fl) && Ascending(fl) && node == limbo + 8 && limbo !in fl
      ensures PlaceFor(fl, k, limbo) && cur == LinkAt(fl, k) && prev == if k == 0 then 0 else fl[k - 1] + 8
    {
      prev, cur, k := 0, freeList, 0;
      while cur != 0 && cur < node
        invariant k <= |fl| && cur == LinkAt(fl, k) && prev == if k == 0 then 0 else fl[k - 1] + 8
        invariant forall j :: 0 <= j < k ==> fl[j] < limbo
        decreases |fl| - k
      {
        assert Has(words, fl[k] + 8, NextLink(fl, k));
        prev := cur;
        cur := words[cur];
        k := k + 1;
      }
      assert forall j :: 0 <= j < |fl| ==> fl[j] in fl;
    }

    method AddToFreeList(node: Addr) returns (ghost k: nat)
      requires Chain(words, freeList, fl) && Ascending(fl) && node == limbo + 8 && limbo !in fl
      modifies `words, `freeList, `fl, `limbo
      ensures PlaceFor(old(fl), k, old(limbo)) && State() == PutBack(old(State()), k)
    {
      hide Store;
      var prev: Addr, cur: Addr;
      prev, cur, k := FindPlace(node);
      words := Store(words, node, cur);
      if prev == 0 {
        freeList := node;
      } else {
        words := Store(words, prev, node);
      }
      fl := With(fl, k, limbo);
      limbo := NONE;
    }

    /** Walks the list for the first block that is large enough. */
    method FindFit(size: nat, al: nat) returns (a: Addr, user: nat, total: nat, ghost k: nat)
      requires Inv(State()) && 0 < al
      ensures k <= |fl| && forall j :: 0 <= j < k ==> !CodeFits(blk, fl[j], size, al)
      ensures k == |fl| ==> a == 0
      ensures k < |fl| ==> a != 0 && a == fl[k] && CodeFits(blk, a, size, al)
      ensures k < |fl| ==> user == CodeUser(a, al) && total == Computed(a, size, al)
    {
      hide Tiled;
      hide Stored;
      hide Listed;
      hide Merged;
      hide CodeUser;
      hide Computed;
      k, a, user, total := 0, 0, 0, 0;
      var node := freeList;
      while node != 0
        invariant k <= |fl| && node == LinkAt(fl, k)
        invariant forall j :: 0 <= j < k ==> !CodeFits(blk, fl[j], size, al)
        decreases |fl| - k
      {
        LinkOf(State(), k);
        var hdr: Addr := node - 8;
        TagAt(State(), hdr);
        NoneIsNoBlock(State());
        var bsize := Masked(words[hdr]);
        user := CodeUser(hdr, al);
        total := Computed(hdr, size, al);
        if total <= bsize {
          a := hdr;
          return;
        }
        node := words[node];
        k := k + 1;
      }
    }

    /** The whole limbo block is handed out. */
    method PlaceWhole(a: Addr, user: nat, bsize: nat, ghost b: Block)
      requires limbo == a && b.Used? && b.size == bsize && b.user == user && 16 <= bsize && bsize % 2 == 0 && a + 16 <= user
      modifies `words, `blk, `limbo
      ensures State() == UseAll(old(State()), b)
    {
      hide Store;
      SetBlock(a, bsize, true, b);
      words := Store(words, user - 8, user - (a + 8));
      blk := blk[a := b];
      limbo := NONE;
    }

    /** The front of the limbo block is handed out and the rest goes back on the list. */
    method PlaceFront(a: Addr, user: nat, total: nat, rest: nat, ghost b: Block, ghost c: Block) returns (ghost k: nat)
      requires limbo == a && b.Used? && b.user == user && b.size == total && c.size == rest && CanSplit(State(), b, c)
      modifies `words, `freeList, `fl, `blk, `limbo
      ensures PlaceFor(old(fl), k, a + total) && State() == PutBack(SplitOff(old(State()), b, c), k)
    {
      hide Store;
      hide SetTags;
      hide Inv;
      hide Merged;
      hide Chain;
      hide Ascending;
      hide LinkWords;
      hide BlockOk;
      ghost var t := State();
      BlockRange(a, b);
      BlockRange(a + total, c);
      LinkLater(t, b, c);
      SplitOffInv(t, b, c);
      SetBlock(a, total, true, b);
      SetBlock(a + total, rest, false, c);
      blk := blk[a := b][a + total := c];
      limbo := a + total;
      k := AddToFreeList(a + total + 8);
      ShiftLast(t, b, c, k);
      words := Store(words, user - 8, user - (a + 8));
    }

    /** The block at `a`, off the list, is handed out or split. */
    method PlaceTaken(a: Addr, user: nat, bsize: nat, total: nat, size: nat, al: nat, ghost h: Heap, ghost k: nat)
      requires CanCarve(h, k, size, al) && a == h.fl[k] && State() == Take(h, k) && bsize == h.blk[a].size
      requires user == UserFor(a, al) && total == Wanted(a, size, al)
      modifies `words, `freeList, `fl, `blk, `limbo
      ensures Inv(State()) && limbo == NONE
      ensures blk == Placed(h.blk, a, size, al) && Kept(h.words, words, Live(h.blk))
    {
      hide Inv;
      hide Store;
      hide Kept;
      hide Live;
      hide Wanted;
      hide UserFor;
      hide SetTags;
      hide UnlinkWords;
      hide SplitWords;
      hide UseWords;
      hide Merged;
      hide Placed;
      hide Part;
      ghost var b := Taken(h.blk, a, size, al);
      TagAt(h, a);
      TakenOk(h.blk, a, size, al);
      if Splits(bsize, total) {
        CarveFront(h, k, size, al);
        ghost var c := Free(bsize - total);
        ghost var k' := PlaceFront(a, user, total, bsize - total, b, c);
        CarveEnd(h, SplitOff(Take(h, k), b, c), k');
      } else {
        CarveWhole(h, k, size, al);
        PlaceWhole(a, user, bsize, b);
      }
    }

    /** Hands out the front of block `k` of the list, or all of it. */
    method Carve(a: Addr, user: nat, total: nat, size: nat, al: nat, ghost k: nat)
      requires Valid() && CanCarve(State(), k, size, al) && a == fl[k]
      requires user == UserFor(a, al) && total == Wanted(a, size, al)
      modifies this
      ensures Valid() && regions == old(regions) && failed == old(failed)
      ensures blk == Placed(old(blk), a, size, al) && Kept(old(words), words, Live(old(blk)))
      ensures Added(old(blk), blk, a, user, size, al)
    {
      hide Inv;
      hide Store;
      hide Kept;
      hide Live;
      hide Wanted;
      hide UserFor;
      hide Chain;
      hide Spaced;
      hide Ascending;
      hide UnlinkWords;
      hide Placed;
      hide Part;
      hide Added;
      ghost var h := State();
      TagAt(h, a);
      ListFacts(h);
      var bsize := Masked(words[a]);
      PlacedPart(h, a, size, al);
      ghost var j := RemoveFromFreeList(a + 8);
      SameNode(h.fl, j, k, a);
      limbo := a;
      PlaceTaken(a, user, bsize, total, size, al, h, k);
    }

    /** Adds sixteen pages at `base` as one free block, unless the region table is full. */
    method Grow(base: Addr) returns (ok: bool)
      requires Valid() && RegionsApart(regions + [Region(base, base + REGION_SIZE)])
      modifies this
      ensures Valid() && ok == (|old(regions)| < MAX_REGIONS) && failed == old(failed)
      ensures !ok ==> State() == old(State())
      ensures ok ==> regions == old(regions) + [Region(base, base + REGION_SIZE)]
      ensures ok ==> blk == old(blk)[base := Free(REGION_SIZE)] && Kept(old(words), words, Live(old(blk)))
      ensures Live(blk) == Live(old(blk))
    {
      hide Inv;
      hide Store;
      hide Kept;
      hide Live;
      hide SetTags;
      hide Chain;
      hide Ascending;
      hide RegionsApart;
      hide Merged;
      if |regions| >= MAX_REGIONS {
        return false;
      }
      ghost var h := State();
      ghost var r := Region(base, base + REGION_SIZE);
      GrowReady(h, r);
      regions := regions + [Region(base, base + REGION_SIZE)];
      backingPages := backingPages + 16;
      SetBlock(base, REGION_SIZE, false, Free(REGION_SIZE));
      blk := blk[base := Free(REGION_SIZE)];
      limbo := base;
      assert State() == Grown(h, r);
      ghost var k := AddToFreeList(base + 8);
      CarveEnd(h, Grown(h, r), k);
      ok := true;
    }

    /** Takes sixteen pages for a new region; gives them back if the region table is full. */
    method GrowHeap() returns (ok: bool, ghost base: Addr)
      requires Valid() && Paged()
      modifies this, pmm, pmm.bitmap, pmm.refcounts
      ensures Valid() && Paged() && failed == old(failed)
      ensures ok ==> RunAt(hhdm, base, GROW_PAGES) && Pmm.AllocAt(old(pmm.st), PageOf(hhdm, base), GROW_PAGES, pmm.st)
      ensures ok ==> |old(regions)| < MAX_REGIONS && regions == old(regions) + [Region(base, base + REGION_SIZE)]
      ensures ok ==> blk == old(blk)[base := Free(REGION_SIZE)] && Kept(old(words), words, Live(old(blk)))
      ensures Live(blk) == Live(old(blk))
      ensures !ok ==> State() == old(State()) && pmm.st.used == old(pmm.st.used) && pmm.st.refs == old(pmm.st.refs)
      ensures !ok ==> |regions| == MAX_REGIONS || !exists q :: Pmm.FreeRun(pmm.st.used, q, GROW_PAGES)
    {
      hide Inv;
      hide Kept;
      hide Live;
      hide RegionsApart;
      ok, base := false, 0;
      ghost var was := pmm.st;
      var phys := pmm.AllocPages(GROW_PAGES);
      if phys == Pmm.INVALID {
        return;
      }
      var virt := phys + hhdm;
      base := virt;
      ApartNow(State());
      FreshApart(was.used, hhdm, regions, phys / Pmm.PAGE_SIZE);
      ok := Grow(virt);
      if !ok {
        pmm.FreePages(phys, GROW_PAGES);
        assert pmm.st.used == was.used;
        assert pmm.st.refs == was.refs;
      }
    }

    method Alloc(size: nat, alignment: nat) returns (p: Addr, ghost got: seq<Addr>, ghost a: Addr)
      requires Valid() && Paged() && Evenly(size, Alignment(alignment)) && (alignment < MIN_ALIGN || PowerOfTwo(alignment))
      requires NoWrap(hhdm + PHYS_LIMIT, size, Alignment(alignment))
      modifies this, pmm, pmm.bitmap, pmm.refcounts
      ensures Valid() && Paged() && Kept(old(words), words, Live(old(blk)))
      ensures size == 0 ==> p == 0 && got == [] && State() == old(State())
      ensures regions == Plus(old(regions), got) && Handed(old(pmm.st), pmm.st, hhdm, got)
      ensures forall i :: 0 <= i < |got| ==> NoFit(WithRegions(old(blk), got[..i]), size, Alignment(alignment))
      ensures var full := WithRegions(old(blk), got); var al := Alignment(alignment);
              if p == 0 then
                && blk == full
                && (size == 0 || (NoFit(full, size, al) &&
                     (|regions| == MAX_REGIONS || !exists q :: Pmm.FreeRun(pmm.st.used, q, GROW_PAGES))))
              else
                FirstFit(full, a, size, al) && p == UserFor(a, al) && blk == Placed(full, a, size, al)
      ensures var full := WithRegions(old(blk), got); var al := Alignment(alignment);
              p != 0 ==> TookFrom(full, blk, a, size, al) && FreeFell(full, blk, blk[a].size) && blk[a].size < Wanted(a, size, al) + 32
      ensures if p == 0 then Live(blk) == Live(old(blk)) else Added(old(blk), blk, a, p, size, Alignment(alignment))
      ensures failed == old(failed) + if p == 0 && size != 0 then 1 else 0
    {
      hide Inv;
      hide Kept;
      hide Live;
      hide Wanted;
      hide UserFor;
      hide Placed;
      hide RegionsApart;
      hide NoWrap;
      hide PagesUsed;
      hide Handed;
      hide Plus;
      hide TookFrom;
      hide FreeFell;
      got, a, p := [], 0, 0;
      NothingYet(regions, pmm.st, hhdm);
      KeptSame(words, Live(blk));
      if size == 0 {
        return;
      }
      var al := if alignment < MIN_ALIGN then MIN_ALIGN else alignment;
      while true
        invariant Valid() && Paged() && regions == Plus(old(regions), got) && Handed(old(pmm.st), pmm.st, hhdm, got)
        invariant blk == WithRegions(old(blk), got) && Kept(old(words), words, Live(old(blk)))
        invariant Live(blk) == Live(old(blk))
        invariant forall i :: 0 <= i < |got| ==> NoFit(WithRegions(old(blk), got[..i]), size, al)
        invariant failed == old(failed)
        decreases MAX_REGIONS - |regions|
      {
        ghost var h := State();
        LowRegions(pmm.st.used, hhdm, regions, size, al);
        var hdr, user, total;
        ghost var k;
        hdr, user, total, k := FindFit(size, al);
        EvenAlign(alignment);
        FitExact(h, k, size, al);
        FitFound(h, k, size, al);
        a := hdr;
        if hdr != 0 {
          p := user;
          TookNow(h, hdr, size, al);
          Carve(hdr, user, total, size, al, k);
          KeptTrans(old(words), h.words, words, Live(old(blk)));
          return;
        }
        ghost var s := pmm.st;
        ghost var base;
        var ok;
        ok, base := GrowHeap();
        if !ok {
          failed := failed + 1;
          HandedSame(old(pmm.st), s, pmm.st, hhdm, got);
          return;
        }
        KeptTrans(old(words), h.words, words, Live(old(blk)));
        HandedNext(old(pmm.st), s, pmm.st, hhdm, got, base);
        PlusNext(old(regions), got, base, old(blk));
        ghost var more := got + [base];
        assert forall i :: 0 <= i < |got| ==> more[..i] == got[..i];
        assert more[..|got|] == got;
        got := more;
      }
    }

    method FindRegion(a: Addr) returns (found: bool, start: Addr)
      ensures found <==> InSome(regions, a)
      ensures found ==> exists i :: 0 <= i < |regions| && InRegion(regions[i], a) && start == regions[i].base
    {
      found, start := false, 0;
      for i := 0 to |regions|
        invariant forall j :: 0 <= j < i ==> !InRegion(regions[j], a)
      {
        if regions[i].base <= a < regions[i].limit {
          found, start := true, regions[i].base;
          assert InRegion(regions[i], a);
          return;
        }
      }
    }

    method Contains(p: Addr) returns (r: bool)
      ensures r <==> p != 0 && InSome(regions, p)
    {
      if p == 0 {
        return false;
      }

      var start;
      r, start := FindRegion(p);
    }

    /** Joins the limbo block with the block after it, if that is free. */
    method MergeForward(a: Addr)
      requires Inv(State()) && limbo == a != NONE
      modifies `words, `freeList, `fl, `blk
      ensures Inv(State()) && NextOk(State()) && Live(blk) == Live(old(blk))
      ensures Kept(old(words), words, Live(old(blk)))
    {
      hide Inv;
      hide Store;
      hide Kept;
      hide Live;
      hide SetTags;
      hide Chain;
      hide Spaced;
      hide Ascending;
      hide UnlinkWords;
      hide Tiled;
      ghost var h := State();
      LimboFacts(h);
      TagAt(h, a);
      var bsize := Masked(words[a]);
      var next: Addr := a + bsize;
      var found, _ := FindRegion(next);
      ListFacts(h);
      EndOrNext(regions, blk, a);
      KeptSame(words, Live(blk));
      if found {
        TagAt(h, next);
        if words[next] % 2 == 0 {
          ghost var k := OnList(h, next);
          MergeNextInv(h, k);
          MergeNextKept(h, k);
          ghost var j := RemoveFromFreeList(next + 8);
          SameNode(h.fl, j, k, next);
          StillTagged(h, k, next);
          SetBlock(a, bsize + Masked(words[next]), false, Free(blk[a].size + blk[next].size));
          blk := (blk - {next})[a := Free(blk[a].size + blk[next].size)];
          assert State() == MergeNext(h, k);
        }
      }
    }

    /** Joins the limbo block with the block before it in its region, if that is free. */
    method MergeBackward(a: Addr, start: Addr) returns (hdr: Addr)
      requires Inv(State()) && limbo == a != NONE && NextOk(State())
      requires exists i :: 0 <= i < |regions| && InRegion(regions[i], a) && start == regions[i].base
      modifies `words, `freeList, `fl, `blk, `limbo
      ensures Inv(State()) && limbo == hdr != NONE && Merged(regions, blk, NONE) && Live(blk) == Live(old(blk))
      ensures Kept(old(words), words, Live(old(blk)))
    {
      hide Inv;
      hide Store;
      hide Kept;
      hide Live;
      hide SetTags;
      hide Chain;
      hide Spaced;
      hide Ascending;
      hide UnlinkWords;
      hide Tiled;
      hide Merged;
      hide NextOk;
      ghost var h := State();
      KeptSame(words, Live(blk));
      LimboFacts(h);
      hdr := a;
      ghost var p := Before(h, start);
      if a > start + 8 {
        FootAt(h, p);
        TagAt(h, p);
        TagAt(h, a);
        var prevSize := Masked(words[a - 8]);
        if prevSize > 0 {
          var prev: Addr := a - prevSize;
          if prev >= start && words[prev] % 2 == 0 {
            ListFacts(h);
            ghost var k := OnList(h, prev);
            MergePrevInv(h, k);
            MergePrevKept(h, k);
            NoneIsNoBlock(h);
            ghost var j := RemoveFromFreeList(prev + 8);
            SameNode(h.fl, j, k, prev);
            StillTagged(h, k, prev);
            StillTagged(h, k, a);
            SetBlock(prev, Masked(words[prev]) + Masked(words[a]), false, Free(blk[prev].size + blk[a].size));
            blk := (blk - {a})[prev := Free(blk[prev].size + blk[a].size)];
            limbo := prev;
            assert State() == MergePrev(h, k);
            hdr := prev;
            return;
          }
        }
      }
      NoMergeBack(h, start, p);
    }

    /** Releases a live block; a pointer outside every region is ignored. */
    method Release(p: Addr, ghost a: Addr)
      requires Valid() && (p == 0 || !InSome(regions, p) || (a in blk && blk[a].Used? && blk[a].user == p))
      modifies this
      ensures Valid() && regions == old(regions) && failed == old(failed)
      ensures if p == 0 || !InSome(regions, p) then State() == old(State()) else Live(blk) == Live(old(blk)) - {a}
      ensures Kept(old(words), words, Live(blk))
    {
      hide Inv;
      hide Store;
      hide Kept;
      hide Live;
      hide SetTags;
      hide Chain;
      hide Ascending;
      hide Merged;
      hide InSome;
      KeptSame(words, Live(blk));
      if p == 0 {
        return;
      }
      var inHeap := Contains(p);
      if !inHeap {
        return;
      }
      ghost var h := State();
      ShiftRecovers(h, a);
      TagAt(h, a);
      var hdr: Addr := p - words[p - 8] - 8;
      if words[hdr] % 2 == 0 {
        return;
      }
      var bsize := Masked(words[hdr]);
      MarkFreeInv(h, a);
      MarkFreeKept(h, a);
      NoneIsNoBlock(h);
      SetBlock(hdr, bsize, false, Free(bsize));
      blk := blk[hdr := Free(bsize)];
      limbo := hdr;
      assert State() == MarkFree(h, a);
      ghost var m := State();
      Reinsert(hdr);
      KeptTrans(h.words, m.words, words, Live(m.blk));
    }

    /** Merges the limbo block with its free neighbours and puts the result on the list. */
    method Reinsert(a: Addr)
      requires Inv(State()) && limbo == a != NONE
      modifies `words, `freeList, `fl, `blk, `limbo
      ensures Inv(State()) && limbo == NONE && Live(blk) == Live(old(blk))
      ensures Kept(old(words), words, Live(old(blk)))
    {
      hide Inv;
      hide Store;
      hide Kept;
      hide Live;
      hide Chain;
      hide Ascending;
      hide Merged;
      hide LinkWords;
      ghost var m := State();
      LimboFacts(m);
      hide Tiled;
      LocatedIn(m, a);
      var found, start := FindRegion(a);
      MergeForward(a);
      ghost var n := State();
      var hdr := MergeBackward(a, start);
      KeptTrans(m.words, n.words, words, Live(m.blk));
      ghost var s := State();
      ListFacts(s);
      LimboFacts(s);
      ghost var k := AddToFreeList(hdr + 8);
      PutBackInv(s, k);
      LinkKept(s, s.words, k);
      KeptTrans(m.words, s.words, words, Live(m.blk));
    }

    /** The owner of a live block writes anything anywhere in its range. */
    method UserWrite(lo: Addr, hi: Addr, data: Words, ghost a: Addr)
      requires Valid() && a in blk && blk[a].Used? && blk[a].user <= lo <= hi <= blk[a].user + blk[a].len
      requires forall q :: q in data ==> lo <= q && q + 8 <= hi
      modifies `words
      ensures Valid() && words == Scribble(old(words), lo, hi) + data
    {
      UserWriteInv(State(), a, lo, hi, data);
      words := Scribble(words, lo, hi) + data;
    }

    /** Walks every region from block to block. */
    method Stats() returns (used: nat, free: nat, freeBlocks: nat, total: nat)
      requires Valid() && Started(regions, blk)
      ensures used + free == total == |regions| * REGION_SIZE == backingPages * 4096
      ensures used == Over(regions, blk, UsedBytes) && free == Over(regions, blk, FreeBytes)
      ensures freeBlocks == Over(regions, blk, IsFree)
    {
      hide Inv;
      hide Started;
      used, free, freeBlocks, total := 0, 0, 0, 0;
      assert regions[..0] == [];
      for i := 0 to |regions|
        invariant used + free == total == i * REGION_SIZE
        invariant used == Over(regions[..i], blk, UsedBytes) && free == Over(regions[..i], blk, FreeBytes)
        invariant freeBlocks == Over(regions[..i], blk, IsFree)
      {
        var cur, end := regions[i].base, regions[i].limit;
        OverNext(regions, i, blk, UsedBytes);
        OverNext(regions, i, blk, FreeBytes);
        OverNext(regions, i, blk, IsFree);
        ghost var u, f, n := used, free, freeBlocks;
        RegionStart(State(), i);
        while cur < end
          invariant regions[i].base <= cur <= end && (cur < end ==> cur in blk)
          invariant used + free == total == i * REGION_SIZE + (cur - regions[i].base)
          invariant used == u + Between(blk, regions[i].base, cur, UsedBytes)
          invariant free == f + Between(blk, regions[i].base, cur, FreeBytes)
          invariant freeBlocks == n + Between(blk, regions[i].base, cur, IsFree)
          decreases end - cur
        {
          TagAt(State(), cur);
          WalkStep(State(), i, cur);
          var bsize := Masked(words[cur]);
          if bsize == 0 {
            break;
          }
          total := total + bsize;
          if words[cur] % 2 == 1 {
            used := used + bsize;
          } else {
            free := free + bsize;
            freeBlocks := freeBlocks + 1;
          }
          cur := cur + bsize;
        }
      }
      assert regions[..|regions|] == regions;
    }
  }

  function UsedBytes(b: Block): nat { if b.Used? then b.size else 0 }

  function FreeBytes(b: Block): nat { if b.Used? then 0 else b.size }

  function IsFree(b: Block): nat { if b.Used? then 0 else 1 }

  /** Sum over the blocks that start in `lo..hi`. */
  ghost function Between(blk: map<Addr, Block>, lo: Addr, hi: Addr, f: Block -> nat): nat {
    if hi <= lo then 0
    else Between(blk, lo, hi - 1, f) + if hi - 1 in blk then f(blk[hi - 1]) else 0
  }

  ghost function Over(rs: seq<Region>, blk: map<Addr, Block>, f: Block -> nat): nat {
    if rs == [] then 0
    else Over(rs[..|rs| - 1], blk, f) + Between(blk, rs[|rs| - 1].base, rs[|rs| - 1].limit, f)
  }

  lemma OverNext(rs: seq<Region>, i: nat, blk: map<Addr, Block>, f: Block -> nat)
    requires i < |rs|
    ensures Over(rs[..i + 1], blk, f) == Over(rs[..i], blk, f) + Between(blk, rs[i].base, rs[i].limit, f)
  {
    assert rs[..i + 1][..i] == rs[..i];
  }

  lemma {:induction false} BetweenSet(blk: map<Addr, Block>, lo: Addr, hi: Addr, f: Block -> nat, k: Addr, b: Block)
    requires lo <= k < hi
    ensures Between(blk[k := b], lo, hi, f) + (if k in blk then f(blk[k]) else 0) == Between(blk, lo, hi, f) + f(b)
    decreases hi
  {
    if k == hi - 1 {
      BetweenOut(blk, lo, hi - 1, f, k, b);
    } else {
      BetweenSet(blk, lo, hi - 1, f, k, b);
    }
  }

  lemma {:induction false} BetweenOut(blk: map<Addr, Block>, lo: Addr, hi: Addr, f: Block -> nat, k: Addr, b: Block)
    requires hi <= k
    ensures Between(blk[k := b], lo, hi, f) == Between(blk, lo, hi, f)
    decreases hi
  {
    if lo < hi {
      BetweenOut(blk, lo, hi - 1, f, k, b);
    }
  }

  /** The free bytes below any address above all blocks have become `n` fewer. */
  ghost predicate FreeFell(full: map<Addr, Block>, blk: map<Addr, Block>, n: nat) {
    forall hi: Addr {:trigger Between(full, 0, hi, FreeBytes)} :: (forall c :: c in full ==> End(c, full[c]) <= hi) ==>
      Between(full, 0, hi, FreeBytes) == Between(blk, 0, hi, FreeBytes) + n
  }

  /** A request uses up exactly the bytes of its block. */
  lemma TookFell(full: map<Addr, Block>, blk: map<Addr, Block>, a: Addr, size: nat, al: nat)
    requires 0 < al && TookFrom(full, blk, a, size, al) && Sound(full)
    ensures FreeFell(full, blk, blk[a].size) && blk[a].size < Wanted(a, size, al) + 32
  {
    hide Wanted;
    hide UserFor;
    var n, left := Wanted(a, size, al), full[a].size - Wanted(a, size, al);
    forall hi: Addr | forall c :: c in full ==> End(c, full[c]) <= hi
      ensures Between(full, 0, hi, FreeBytes) == Between(blk, 0, hi, FreeBytes) + blk[a].size
    {
      assert BlockOk(a, full[a]);
      BetweenSet(full, 0, hi, FreeBytes, a, blk[a]);
      if left >= 32 {
        NotInside(full, a, n);
        BetweenSet(full[a := blk[a]], 0, hi, FreeBytes, a + n, Free(left));
      }
    }
  }

  lemma NotInside(full: map<Addr, Block>, a: Addr, n: nat)
    requires Sound(full) && a in full && n < full[a].size
    ensures n > 0 ==> a + n !in full
  {
    var m: Addr := a + n;
    assert m in full && a < m ==> End(a, full[a]) <= m;
  }

  lemma TookNow(h: Heap, a: Addr, size: nat, al: nat)
    requires Inv(h) && 0 < al && Fits(h.blk, a, size, al)
    ensures var b := Placed(h.blk, a, size, al);
            TookFrom(h.blk, b, a, size, al) && FreeFell(h.blk, b, b[a].size) && b[a].size < Wanted(a, size, al) + 32
  {
    PlacedTook(h.blk, a, size, al);
    hide Wanted;
    hide Placed;
    TookFell(h.blk, Placed(h.blk, a, size, al), a, size, al);
  }

  lemma RegionStart(h: Heap, i: nat)
    requires Inv(h) && Started(h.regions, h.blk) && i < |h.regions|
    ensures h.regions[i].base in h.blk && h.regions[i].base < h.regions[i].limit
  {
    assert RegionOk(h.regions[i]);
  }

  lemma {:induction false} BetweenGap(blk: map<Addr, Block>, lo: Addr, mid: Addr, hi: Addr, f: Block -> nat)
    requires lo <= mid < hi && mid in blk && forall c :: mid < c < hi ==> c !in blk
    ensures Between(blk, lo, hi, f) == Between(blk, lo, mid, f) + f(blk[mid])
    decreases hi
  {
    if hi > mid + 1 {
      BetweenGap(blk, lo, mid, hi - 1, f);
    }
  }

  lemma WalkStep(h: Heap, i: nat, cur: Addr)
    requires Inv(h) && i < |h.regions| && InRegion(h.regions[i], cur) && cur in h.blk
    requires Started(h.regions, h.blk)
    ensures var e := End(cur, h.blk[cur]);
            && cur < e <= h.regions[i].limit && (e < h.regions[i].limit ==> e in h.blk)
            && (forall f: Block -> nat, lo: Addr {:trigger Between(h.blk, lo, e, f)} :: lo <= cur ==>
                  Between(h.blk, lo, e, f) == Between(h.blk, lo, cur, f) + f(h.blk[cur]))
  {
    hide Stored;
    hide Chain;
    hide Listed;
    hide Merged;
    assert BlockOk(cur, h.blk[cur]);
    var e := End(cur, h.blk[cur]);
    PerRegionIff(h.regions, h.blk);
    EndOrNext(h.regions, h.blk, cur);
    assert e < h.regions[i].limit ==> InRegion(h.regions[i], e);
    forall f: Block -> nat, lo: Addr | lo <= cur
      ensures Between(h.blk, lo, e, f) == Between(h.blk, lo, cur, f) + f(h.blk[cur])
    {
      BetweenGap(h.blk, lo, cur, e, f);
    }
  }

  function Alignment(alignment: nat): nat { if alignment < MIN_ALIGN then MIN_ALIGN else alignment }

  lemma BlockRange(a: Addr, b: Block)
    requires BlockOk(a, b)
    ensures 32 <= b.size && b.size % 2 == 0 && (b.Used? ==> a + 16 <= b.user && b.user <= End(a, b))
  {
  }

  lemma InLimit(h: Heap, a: Addr, size: nat, al: nat)
    requires Inv(h) && a in h.blk && 0 < al && al % 2 == 0
    requires forall i :: 0 <= i < |h.regions| ==> NoWrap(h.regions[i].limit, size, al)
    ensures Exact(a, size, al) && a + 16 <= UserFor(a, al)
  {
    hide Stored;
    hide Chain;
    hide Listed;
    hide Merged;
    assert BlockOk(a, h.blk[a]);
    assert Holds(h.blk, a, a);
    var i :| 0 <= i < |h.regions| && InRegion(h.regions[i], a);
    NoWrapExact(a, h.regions[i].limit, size, al);
  }

  lemma EvenAlign(alignment: nat)
    requires alignment < MIN_ALIGN || PowerOfTwo(alignment)
    ensures 0 < Alignment(alignment) && Alignment(alignment) % 2 == 0
  {
  }

  /** With no wrapping sum the search finds the first block that really fits. */
  lemma FitExact(h: Heap, k: nat, size: nat, al: nat)
    requires Inv(h) && h.limbo == NONE && k <= |h.fl| && 0 < al && al % 2 == 0
    requires forall i :: 0 <= i < |h.regions| ==> NoWrap(h.regions[i].limit, size, al)
    requires forall j :: 0 <= j < k ==> !CodeFits(h.blk, h.fl[j], size, al)
    ensures forall j :: 0 <= j < k ==> !Fits(h.blk, h.fl[j], size, al)
    ensures k < |h.fl| && CodeFits(h.blk, h.fl[k], size, al) ==>
              && Fits(h.blk, h.fl[k], size, al) && 0 < CodeUser(h.fl[k], al) == UserFor(h.fl[k], al)
              && Computed(h.fl[k], size, al) == Wanted(h.fl[k], size, al)
  {
    hide Tiled;
    hide Stored;
    hide Chain;
    hide Merged;
    hide Wanted;
    hide Computed;
    hide UserFor;
    hide CodeUser;
    hide NoWrap;
    forall j | 0 <= j < |h.fl|
      ensures Exact(h.fl[j], size, al) && h.fl[j] + 16 <= UserFor(h.fl[j], al)
    {
      InLimit(h, h.fl[j], size, al);
    }
  }

  lemma SameNode(fl: seq<Addr>, j: nat, k: nat, a: Addr)
    requires Spaced(fl) && k < |fl| && fl[k] == a && j <= |fl|
    requires forall i :: 0 <= i < j ==> fl[i] + 8 != a + 8
    requires j < |fl| ==> fl[j] == a
    ensures j == k
  {
  }

  /** The list is in order before the shift word is written. */
  lemma LinkLater(t: Heap, b: Block, c: Block)
    requires Inv(t) && t.limbo != NONE && b.Used? && c.Free? && BlockOk(t.limbo, b) && 16 <= c.size
    requires b.size + c.size == t.blk[t.limbo].size
    ensures Chain(SetTags(SetTags(t.words, t.limbo, b), End(t.limbo, b), c), t.head, t.fl)
    ensures Ascending(t.fl) && End(t.limbo, b) !in t.fl
  {
    LimboAlone(t);
    hide Merged;
    hide SetTags;
    hide Stored;
    hide Chain;
    hide Tiled;
    hide Outside;
    var a := t.limbo;
    var hi := End(a, t.blk[a]);
    StoredWithout(t.words, t.blk, {a});
    SetTagsOutside(t.words, t.head, t.fl, t.blk - {a}, a, b, a, hi);
    SetTagsOutside(SetTags(t.words, a, b), t.head, t.fl, t.blk - {a}, End(a, b), c, a, hi);
  }

  /** Writing the shift word after linking in the rest comes to the same. */
  lemma ShiftLast(t: Heap, b: Block, c: Block, k: nat)
    requires b.Used? && c.Free? && BlockOk(t.limbo, b) && 16 <= c.size && k <= |t.fl|
    requires Inv(SplitOff(t, b, c))
    ensures var w := SetTags(SetTags(t.words, t.limbo, b), End(t.limbo, b), c);
            Store(LinkWords(w, t.head, t.fl, k, End(t.limbo, b)), b.user - 8, b.user - (t.limbo + 8))
            == LinkWords(SplitOff(t, b, c).words, t.head, t.fl, k, End(t.limbo, b))
  {
    hide Inv;
    hide Store;
    hide SetTags;
    hide LinkWords;
    var s := SplitOff(t, b, c);
    assert s.blk[t.limbo] == b;
    var w := SetTags(SetTags(t.words, t.limbo, b), End(t.limbo, b), c);
    if k > 0 {
      NodeApart(s, t.limbo, k - 1);
    }
    LinkCommute(w, t.head, t.fl, k, End(t.limbo, b), b.user - 8, b.user - (t.limbo + 8));
  }

  lemma CarveEnd(h: Heap, s: Heap, k: nat)
    requires Inv(s) && Merged(s.regions, s.blk, NONE) && s.limbo != NONE && PlaceFor(s.fl, k, s.limbo)
    requires Kept(h.words, s.words, Live(h.blk)) && Part(Live(h.blk), Live(s.blk))
    ensures Inv(PutBack(s, k)) && Kept(h.words, PutBack(s, k).words, Live(h.blk))
  {
    hide Tiled;
    hide Stored;
    hide Chain;
    hide Listed;
    hide Merged;
    hide Store;
    hide Kept;
    hide Live;
    hide Part;
    hide LinkWords;
    PutBackInv(s, k);
    ListFacts(s);
    LinkKept(s, s.words, k);
    KeptSub(s.words, PutBack(s, k).words, Live(s.blk), Live(h.blk));
    KeptTrans(h.words, s.words, PutBack(s, k).words, Live(h.blk));
  }

  lemma NodeApart(s: Heap, a: Addr, k: nat)
    requires Inv(s) && k < |s.fl| && a in s.blk && s.blk[a].Used?
    ensures 8 <= s.blk[a].user && Apart(s.fl[k] + 8, s.blk[a].user - 8)
  {
    assert BlockOk(a, s.blk[a]) && BlockOk(s.fl[k], s.blk[s.fl[k]]);
  }

  lemma KeptSub(w: Words, w': Words, big: map<Addr, Block>, small: map<Addr, Block>)
    requires Kept(w, w', big) && Part(small, big)
    ensures Kept(w, w', small)
  {
  }

  lemma KeptSame(w: Words, live: map<Addr, Block>)
    ensures Kept(w, w, live)
  {
  }

  lemma GrowReady(h: Heap, r: Region)
    requires CanGrow(h, r)
    ensures RegionOk(r) && Inv(Grown(h, r)) && Merged(h.regions + [r], Grown(h, r).blk, NONE)
    ensures Chain(Grown(h, r).words, h.head, h.fl) && Ascending(h.fl) && r.base !in h.fl && r.base != NONE
    ensures Kept(h.words, Grown(h, r).words, Live(h.blk)) && Live(Grown(h, r).blk) == Live(h.blk)
    ensures Part(Live(h.blk), Live(Grown(h, r).blk))
  {
    hide Tiled;
    hide Stored;
    hide Chain;
    hide Merged;
    hide SetTags;
    hide Kept;
    GrownInv(h, r);
    ListFacts(Grown(h, r));
    RegionAlone(h.regions, h.blk, r);
    assert r.base !in h.blk;
    assert Outside(Live(h.blk), r.base, r.limit);
    TagsKept(h.words, Live(h.blk), r.base, r.limit, r.base, Free(r.limit - r.base));
  }

  /** A walk that passed over `k` nodes has passed over every lower block. */
  lemma FitFound(h: Heap, k: nat, size: nat, al: nat)
    requires Inv(h) && h.limbo == NONE && k <= |h.fl| && 0 < al && forall j :: 0 <= j < k ==> !Fits(h.blk, h.fl[j], size, al)
    ensures k == |h.fl| ==> NoFit(h.blk, size, al)
    ensures k < |h.fl| && Fits(h.blk, h.fl[k], size, al) ==> FirstFit(h.blk, h.fl[k], size, al)
  {
    hide Tiled;
    hide Stored;
    hide Chain;
    hide Merged;
    hide Wanted;
    forall c | Fits(h.blk, c, size, al)
      ensures k < |h.fl| && h.fl[k] <= c
    {
      assert c in h.blk && h.blk[c].Free? && c != NONE by { NoneIsNoBlock(h); }
      var j := OnList(h, c);
    }
  }

  lemma PlusNext(rs: seq<Region>, got: seq<Addr>, base: Addr, blk: map<Addr, Block>)
    ensures Plus(rs, got + [base]) == Plus(rs, got) + [Region(base, base + REGION_SIZE)]
    ensures WithRegions(blk, got + [base]) == WithRegions(blk, got)[base := Free(REGION_SIZE)]
  {
    assert (got + [base])[..|got|] == got;
  }

  lemma NothingYet(rs: seq<Region>, s: Pmm.State, hhdm: nat)
    requires |s.used| == |s.refs| == Pmm.MAX_PAGES
    ensures Plus(rs, []) == rs && Handed(s, s, hhdm, [])
  {
  }

  lemma HandedSame(s: Pmm.State, t: Pmm.State, u: Pmm.State, hhdm: nat, got: seq<Addr>)
    requires Handed(s, t, hhdm, got) && u.used == t.used && u.refs == t.refs
    ensures Handed(s, u, hhdm, got)
  {
  }

  lemma ApartNow(h: Heap)
    requires Inv(h)
    ensures RegionsApart(h.regions)
  {
  }

  /** Every region ends below the top of mapped physical memory. */
  lemma LowRegions(used: seq<bool>, hhdm: nat, rs: seq<Region>, size: nat, al: nat)
    requires PagesUsed(used, hhdm, rs) && NoWrap(hhdm + PHYS_LIMIT, size, al)
    requires forall i :: 0 <= i < |rs| ==> rs[i].limit == rs[i].base + REGION_SIZE
    ensures forall i :: 0 <= i < |rs| ==> NoWrap(rs[i].limit, size, al)
  {
    forall i | 0 <= i < |rs|
      ensures rs[i].limit <= hhdm + PHYS_LIMIT
    {
      assert RunAt(hhdm, rs[i].base, GROW_PAGES);
    }
  }

  lemma LimboFacts(h: Heap)
    requires Inv(h) && h.limbo != NONE
    ensures h.limbo in h.blk && h.blk[h.limbo].Free? && RegionsApart(h.regions) && Tiled(h.regions, h.blk)
  {
  }

  lemma LocatedIn(h: Heap, a: Addr)
    requires Inv(h) && a in h.blk
    ensures InSome(h.regions, a)
  {
    assert BlockOk(a, h.blk[a]);
    assert Holds(h.blk, a, a);
  }

  /** Taking node `k` off the list leaves the tags as they are. */
  lemma StillTagged(h: Heap, k: nat, a: Addr)
    requires Inv(h) && k < |h.fl| && a in h.blk
    ensures a in UnlinkWords(h.words, h.fl, k) && Masked(UnlinkWords(h.words, h.fl, k)[a]) == h.blk[a].size
    ensures BlockOk(a, h.blk[a])
  {
    hide Store;
    hide Chain;
    hide Listed;
    hide Merged;
    hide UnlinkWords;
    UnlistedWords(h, k);
    assert Has(UnlinkWords(h.words, h.fl, k), a, Tag(h.blk[a]));
    assert BlockOk(a, h.blk[a]);
  }

  /** Both blocks are free, so no live block reaches into their range. */
  lemma PairOutside(rs: seq<Region>, blk: map<Addr, Block>, a: Addr, n: Addr)
    requires Tiled(rs, blk) && a in blk && n in blk && blk[a].Free? && blk[n].Free? && End(a, blk[a]) == n
    ensures Outside(Live(blk), a, End(n, blk[n]))
  {
    hide Tiled;
    PairAlone(rs, blk, a, n);
    forall c | c in Live(blk)
      ensures c in blk - {a, n} && (blk - {a, n})[c] == Live(blk)[c]
    {
    }
  }

  lemma MergeLive(blk: map<Addr, Block>, a: Addr, n: Addr, b: Block)
    requires a in blk && n in blk && blk[a].Free? && blk[n].Free? && b.Free?
    ensures Live((blk - {n})[a := b]) == Live(blk)
  {
  }

  lemma MergeKept(h: Heap, k: nat, x: Addr, y: Addr)
    requires Inv(h) && k < |h.fl| && x in h.blk && y in h.blk && h.blk[x].Free? && h.blk[y].Free? && End(x, h.blk[x]) == y
    requires 16 <= h.blk[x].size + h.blk[y].size
    ensures Kept(h.words, SetTags(Unlisted(h, k).words, x, Free(h.blk[x].size + h.blk[y].size)), Live(h.blk))
  {
    hide Tiled;
    hide Stored;
    hide Chain;
    hide Listed;
    hide Merged;
    hide SetTags;
    hide UnlinkWords;
    hide Kept;
    hide Live;
    hide Outside;
    hide Without;
    var b := Free(h.blk[x].size + h.blk[y].size);
    ListFacts(h);
    UnlinkKept(h, k);
    PairOutside(h.regions, h.blk, x, y);
    var w := Unlisted(h, k).words;
    TagsKept(w, Live(h.blk), x, End(y, h.blk[y]), x, b);
    KeptTrans(h.words, w, SetTags(w, x, b), Live(h.blk));
  }

  lemma MergeNextKept(h: Heap, k: nat)
    requires CanMerge(h, k)
    ensures Kept(h.words, MergeNext(h, k).words, Live(h.blk)) && Live(MergeNext(h, k).blk) == Live(h.blk)
  {
    hide Inv;
    hide SetTags;
    hide Kept;
    hide Live;
    hide UnlinkWords;
    LimboFacts(h);
    hide Tiled;
    MergeKept(h, k, h.limbo, h.fl[k]);
    MergeLive(h.blk, h.limbo, h.fl[k], Free(h.blk[h.limbo].size + h.blk[h.fl[k]].size));
  }

  lemma MergePrevKept(h: Heap, k: nat)
    requires CanMergeBack(h, k)
    ensures Kept(h.words, MergePrev(h, k).words, Live(h.blk)) && Live(MergePrev(h, k).blk) == Live(h.blk)
  {
    hide Inv;
    hide SetTags;
    hide Kept;
    hide Live;
    hide UnlinkWords;
    LimboFacts(h);
    hide Tiled;
    MergeKept(h, k, h.fl[k], h.limbo);
    MergeLive(h.blk, h.fl[k], h.limbo, Free(h.blk[h.fl[k]].size + h.blk[h.limbo].size));
  }

  lemma MarkFreeKept(h: Heap, a: Addr)
    requires Inv(h) && a in h.blk && h.blk[a].Used? && 16 <= h.blk[a].size
    ensures Live(MarkFree(h, a).blk) == Live(h.blk) - {a}
    ensures Kept(h.words, MarkFree(h, a).words, Live(MarkFree(h, a).blk))
  {
    hide Inv;
    hide SetTags;
    hide Kept;
    var b := Free(h.blk[a].size);
    OthersOutside(h, a);
    TagsKept(h.words, Live(h.blk) - {a}, a, End(a, b), a, b);
  }

  lemma OthersOutside(h: Heap, a: Addr)
    requires Inv(h) && a in h.blk
    ensures Outside(Live(h.blk) - {a}, a, End(a, h.blk[a]))
  {
    hide Stored;
    hide Chain;
    hide Listed;
    hide Merged;
  }

  /** The block before the limbo block, or the limbo block itself if it starts its region. */
  lemma Before(h: Heap, start: Addr) returns (p: Addr)
    requires Inv(h) && h.limbo != NONE
    requires exists i :: 0 <= i < |h.regions| && InRegion(h.regions[i], h.limbo) && start == h.regions[i].base
    ensures p in h.blk && (start < h.limbo ==> p < h.limbo && End(p, h.blk[p]) == h.limbo)
    ensures RegionsOk(h.regions) && start < h.limbo ==> start <= p && start + MIN_BLOCK <= h.limbo
  {
    var i :| 0 <= i < |h.regions| && InRegion(h.regions[i], h.limbo) && start == h.regions[i].base;
    p := h.limbo;
    if h.limbo != start {
      assert InRegion(h.regions[i], h.limbo - 1);
      p := PrevExists(h.regions, h.blk, h.limbo);
      if RegionsOk(h.regions) {
        EachTiled(h.regions, h.blk);
        assert start in h.blk && BlockOk(start, h.blk[start]);
      }
    }
  }

  lemma NoMergeBack(h: Heap, start: Addr, p: Addr)
    requires Inv(h) && h.limbo != NONE && NextOk(h)
    requires exists i :: 0 <= i < |h.regions| && start == h.regions[i].base
    requires RegionsOk(h.regions) ==> h.limbo == start || (p in h.blk && End(p, h.blk[p]) == h.limbo && h.blk[p].Used?)
    ensures Merged(h.regions, h.blk, NONE)
  {
    hide Stored;
    hide Chain;
    hide Listed;
    if RegionsOk(h.regions) {
      forall q | q in h.blk && End(q, h.blk[q]) == h.limbo
        ensures h.blk[q].Used?
      {
        var i :| 0 <= i < |h.regions| && start == h.regions[i].base;
        NothingBefore(h.regions, h.blk, q, i);
        assert BlockOk(q, h.blk[q]) && BlockOk(p, h.blk[p]);
        assert q == p;
      }
      hide Tiled;
      Settled(h);
    }
  }
}

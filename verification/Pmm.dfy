/** The physical page allocator: a page bitmap, saturating 16-bit reference
    counts, running statistics and a next-fit search cursor. */
module Pmm {

  const PAGE_SIZE: nat := 4096
  const MAX_PAGES: nat := 1048576
  const REF_MAX: nat := 65535
  const U64: nat := 0x1_0000_0000_0000_0000
  const INVALID: nat := U64 - 1

  type Word = w: nat | w < U64 witness 0
  type Count = c: nat | c <= REF_MAX witness 0

  /** Abstract state: one flag and one count per page, and the cursor. */
  datatype State = State(used: seq<bool>, refs: seq<Count>, next: nat) {
    ghost predicate Wf() {
      && |used| == MAX_PAGES && |refs| == MAX_PAGES && next < MAX_PAGES
      && forall p :: 0 <= p < MAX_PAGES && !used[p] ==> refs[p] == 0
    }
  }

  // ----- counting -----

  function CountUsed(s: seq<bool>): (n: nat)
    ensures n <= |s|
  {
    if s == [] then 0 else CountUsed(s[..|s| - 1]) + if s[|s| - 1] then 1 else 0
  }

  lemma {:induction false} CountUpdate(s: seq<bool>, p: nat, b: bool)
    requires p < |s|
    ensures CountUsed(s[p := b]) == CountUsed(s) + (if b then 1 else 0) - (if s[p] then 1 else 0)
  {
    var n := |s| - 1;
    if p == n {
      assert s[p := b][..n] == s[..n];
    } else {
      assert s[p := b][..n] == s[..n][p := b];
      CountUpdate(s[..n], p, b);
    }
  }

  lemma {:induction false} CountAll(s: seq<bool>)
    requires forall i :: 0 <= i < |s| ==> s[i]
    ensures CountUsed(s) == |s|
  {
    if s != [] {
      CountAll(s[..|s| - 1]);
    }
  }

  // ----- specification of the operations -----

  ghost predicate FreeRun(used: seq<bool>, start: nat, count: nat) {
    && 0 < count && start + count <= |used|
    && forall q :: start <= q < start + count ==> !used[q]
  }

  /** Page `p` is marked used with count one; a page already used is left alone. */
  ghost function MarkUsed(s: State, p: nat): State
    requires |s.used| == |s.refs| == MAX_PAGES
  {
    if p >= MAX_PAGES || s.used[p] then s
    else s.(used := s.used[p := true], refs := s.refs[p := 1])
  }

  ghost function MarkFree(s: State, p: nat): State
    requires |s.used| == |s.refs| == MAX_PAGES
  {
    if p >= MAX_PAGES || !s.used[p] then s
    else s.(used := s.used[p := false], refs := s.refs[p := 0])
  }

  /** Dropping one reference to `p`: the page becomes free with the last one. */
  ghost function Release(s: State, p: nat): State
    requires |s.used| == |s.refs| == MAX_PAGES
  {
    if p >= MAX_PAGES || !s.used[p] then s
    else if s.refs[p] > 1 then s.(refs := s.refs[p := s.refs[p] - 1])
    else MarkFree(s, p)
  }

  ghost function Retain(s: State, p: nat): State
    requires |s.used| == |s.refs| == MAX_PAGES
  {
    if p >= MAX_PAGES || !s.used[p] || s.refs[p] == REF_MAX then s
    else s.(refs := s.refs[p := s.refs[p] + 1])
  }

  ghost predicate AllocAt(s: State, start: nat, count: nat, s': State) {
    && |s.used| == |s.refs| == |s'.used| == |s'.refs| == MAX_PAGES
    && FreeRun(s.used, start, count)
    && (forall q :: 0 <= q < MAX_PAGES ==> s'.used[q] == (s.used[q] || start <= q < start + count))
    && (forall q :: 0 <= q < MAX_PAGES ==>
          s'.refs[q] == if start <= q < start + count then 1 else s.refs[q])
    && s'.next == (start + count) % MAX_PAGES
  }

  ghost predicate ReleasedRange(s: State, lo: nat, hi: nat, s': State)
    requires |s.used| == |s.refs| == MAX_PAGES
  {
    && |s'.used| == |s'.refs| == MAX_PAGES
    && forall q :: 0 <= q < MAX_PAGES ==>
         && s'.used[q] == (if lo <= q < hi then Release(s, q).used[q] else s.used[q])
         && s'.refs[q] == (if lo <= q < hi then Release(s, q).refs[q] else s.refs[q])
  }

  /** The pages of [base, base+length) as the source computes them, wrap-around included. */
  function AlignUp(v: nat): nat { ((v + (PAGE_SIZE - 1)) % U64) / PAGE_SIZE * PAGE_SIZE }
  function AlignDown(v: nat): nat { v / PAGE_SIZE * PAGE_SIZE }

  function Min(a: nat, b: nat): nat { if a < b then a else b }

  datatype Region = Region(base: Word, length: Word, reclaimable: bool)

  /** Page `q` is among those that freeing the region touches. */
  predicate FreedBy(r: Region, q: nat) {
    && r.length != 0 && r.base + r.length < U64
    && AlignUp(r.base) / PAGE_SIZE <= q < Min(AlignDown(r.base + r.length) / PAGE_SIZE, MAX_PAGES)
  }

  predicate ReservedBy(base: Word, length: Word, q: nat) {
    && length != 0 && base + length < U64
    && AlignDown(base) / PAGE_SIZE <= q < Min(AlignUp(base + length) / PAGE_SIZE, MAX_PAGES)
  }

  /** What freeing a region is for: only pages that lie wholly inside it. */
  predicate Inside(r: Region, q: nat) {
    r.base <= q * PAGE_SIZE && (q + 1) * PAGE_SIZE <= r.base + r.length
  }

  lemma AlignUpExact(v: nat)
    requires v + (PAGE_SIZE - 1) < U64
    ensures AlignUp(v) / PAGE_SIZE == (v + PAGE_SIZE - 1) / PAGE_SIZE
  {
  }

  /** A region frees exactly the pages wholly inside it if and only if rounding its
      base up stays within 64 bits. */
  lemma FreedExactly(r: Region)
    requires r.length != 0 && r.base + r.length < U64
    ensures (forall q :: 0 <= q < MAX_PAGES ==> (FreedBy(r, q) <==> Inside(r, q)))
            <==> r.base + (PAGE_SIZE - 1) < U64
  {
    if r.base + (PAGE_SIZE - 1) < U64 {
      AlignUpExact(r.base);
      forall q | 0 <= q < MAX_PAGES
        ensures FreedBy(r, q) <==> Inside(r, q)
      {
      }
    } else {
      assert AlignUp(r.base) == 0;
      assert FreedBy(r, 0) && !Inside(r, 0);
    }
  }

  /** A region at the very top of the address space frees every page there is. */
  lemma TopRegionFreesAll(r: Region, q: nat)
    requires r.length != 0 && r.base + r.length < U64 <= r.base + (PAGE_SIZE - 1)
    requires q < MAX_PAGES
    ensures FreedBy(r, q)
  {
    assert AlignUp(r.base) == 0;
  }

  /** Some byte of the range lies in page `q`. */
  predicate Touches(base: nat, length: nat, q: nat) {
    q * PAGE_SIZE < base + length && base < (q + 1) * PAGE_SIZE
  }

  /** A range reserves exactly the pages that hold some byte of it, if and only if rounding its end
      up stays within 64 bits or it starts above all managed pages. */
  lemma ReservedExactly(base: Word, length: Word)
    requires length != 0 && base + length < U64
    ensures (forall q :: 0 <= q < MAX_PAGES ==> (ReservedBy(base, length, q) <==> Touches(base, length, q)))
            <==> base + length + (PAGE_SIZE - 1) < U64 || MAX_PAGES * PAGE_SIZE <= base
  {
    if base + length + (PAGE_SIZE - 1) < U64 {
      AlignUpExact(base + length);
      forall q | 0 <= q < MAX_PAGES
        ensures ReservedBy(base, length, q) <==> Touches(base, length, q)
      {
      }
    } else {
      assert AlignUp(base + length) == 0;
      var q := base / PAGE_SIZE;
      assert Touches(base, length, q) && !ReservedBy(base, length, q);
    }
  }

  /** A range that ends in the last page of the address space reserves nothing. */
  lemma TopRangeReservesNone(base: Word, length: Word, q: nat)
    requires length != 0 && base + length < U64 <= base + length + (PAGE_SIZE - 1)
    ensures !ReservedBy(base, length, q)
  {
    assert AlignUp(base + length) == 0;
  }

  // ----- the allocator -----

  class Allocator {
    const bitmap: array<bool>
    const refcounts: array<Count>
    var managedPages: nat
    var freePages: nat
    var usedPages: nat
    var reclaimedPages: nat
    var skippedPages: nat
    var nextSearch: nat
    ghost var st: State

    ghost predicate Valid()
      reads this, bitmap, refcounts
    {
      && bitmap.Length == MAX_PAGES && refcounts.Length == MAX_PAGES
      && st.Wf()
      && bitmap[..] == st.used && refcounts[..] == st.refs && nextSearch == st.next
      && managedPages == MAX_PAGES
      && usedPages == CountUsed(st.used)
      && freePages + usedPages == managedPages
    }

    /** Every page starts out reserved: used, with count zero. */
    constructor ()
      ensures Valid() && fresh(bitmap) && fresh(refcounts)
      ensures forall q :: 0 <= q < MAX_PAGES ==> st.used[q] && st.refs[q] == 0
      ensures st.next == 0 && reclaimedPages == 0 && skippedPages == 0
    {
      bitmap := new bool[MAX_PAGES](_ => true);
      refcounts := new Count[MAX_PAGES](_ => 0);
      managedPages, freePages, usedPages := MAX_PAGES, 0, MAX_PAGES;
      reclaimedPages, skippedPages, nextSearch := 0, 0, 0;
      new;
      st := State(bitmap[..], refcounts[..], 0);
      CountAll(st.used);
    }

    method PageRangeFree(start: nat, count: nat) returns (r: bool)
      requires Valid() && count <= MAX_PAGES
      ensures r <==> FreeRun(st.used, start, count)
    {
      if count == 0 || start >= MAX_PAGES || start + count > MAX_PAGES {
        return false;
      }
      for page := start to start + count
        invariant forall q :: start <= q < page ==> !st.used[q]
      {
        if bitmap[page] {
          assert st.used[page];
          return false;
        }
      }
      return true;
    }

    method MarkPageUsed(page: nat)
      requires Valid()
      modifies this`freePages, this`usedPages, this`st, bitmap, refcounts
      ensures Valid() && st == MarkUsed(old(st), page)
    {
      if page >= MAX_PAGES || bitmap[page] {
        return;
      }
      CountUpdate(st.used, page, true);
      CountBelow(st.used, page);
      bitmap[page] := true;
      refcounts[page] := 1;
      freePages := freePages - 1;
      usedPages := usedPages + 1;
      st := MarkUsed(st, page);
    }

    method MarkSpan(lo: nat, hi: nat)
      requires Valid() && lo <= hi <= MAX_PAGES
      modifies this`freePages, this`usedPages, this`st, bitmap, refcounts
      ensures Valid() && st.next == old(st).next
      ensures forall q :: 0 <= q < MAX_PAGES ==> st.used[q] == (old(st).used[q] || lo <= q < hi)
      ensures forall q :: 0 <= q < MAX_PAGES ==>
                st.refs[q] == if !old(st).used[q] && lo <= q < hi then 1 else old(st).refs[q]
    {
      for page := lo to hi
        invariant Valid() && st.next == old(st).next
        invariant forall q :: 0 <= q < MAX_PAGES ==> st.used[q] == (old(st).used[q] || lo <= q < page)
        invariant forall q :: 0 <= q < MAX_PAGES ==>
                    st.refs[q] == if !old(st).used[q] && lo <= q < page then 1 else old(st).refs[q]
      {
        MarkPageUsed(page);
      }
    }

    method MarkPageFree(page: nat)
      requires Valid()
      modifies this`freePages, this`usedPages, this`st, bitmap, refcounts
      ensures Valid() && st == MarkFree(old(st), page)
    {
      if page >= MAX_PAGES || !bitmap[page] {
        return;
      }
      CountUpdate(st.used, page, false);
      bitmap[page] := false;
      refcounts[page] := 0;
      freePages := freePages + 1;
      usedPages := usedPages - 1;
      st := MarkFree(st, page);
    }

    /** The cyclic search for a free run, starting at the cursor. */
    method FindRun(count: nat) returns (found: bool, page: nat)
      requires Valid() && 0 < count <= MAX_PAGES
      ensures found <==> exists p :: FreeRun(st.used, p, count)
      ensures found ==> exists offset :: FirstFit(st, offset, page, count)
    {
      for offset := 0 to MAX_PAGES
        invariant forall o :: 0 <= o < offset ==> !FreeRun(st.used, Cyclic(st.next, o), count)
      {
        page := (nextSearch + offset) % MAX_PAGES;
        found := PageRangeFree(page, count);
        if found {
          assert FirstFit(st, offset, page, count);
          return;
        }
      }
      NoRunAnywhere(st, count);
      return false, 0;
    }

    /** Next-fit: the first wholly free run in cyclic order from the cursor, and
        failure exactly when there is no such run anywhere. */
    method AllocPages(count: Word) returns (physical: Word)
      requires Valid()
      modifies this`freePages, this`usedPages, this`nextSearch, this`st, bitmap, refcounts
      ensures Valid()
      ensures physical == INVALID <==> !exists p :: FreeRun(old(st).used, p, count)
      ensures physical == INVALID ==> st == old(st)
      ensures physical != INVALID ==>
                && physical % PAGE_SIZE == 0
                && AllocAt(old(st), physical / PAGE_SIZE, count, st)
                && exists offset :: FirstFit(old(st), offset, physical / PAGE_SIZE, count)
    {
      if count == 0 || count > MAX_PAGES {
        assert !exists p :: FreeRun(st.used, p, count);
        return INVALID;
      }
      var found, page := FindRun(count);
      if !found {
        return INVALID;
      }
      MarkSpan(page, page + count);
      nextSearch := (page + count) % MAX_PAGES;
      st := st.(next := nextSearch);
      return page * PAGE_SIZE;
    }

    method AllocPage() returns (physical: Word)
      requires Valid()
      modifies this`freePages, this`usedPages, this`nextSearch, this`st, bitmap, refcounts
      ensures Valid()
      ensures physical == INVALID <==> forall p :: 0 <= p < MAX_PAGES ==> old(st).used[p]
      ensures physical == INVALID <==> old(freePages) == 0
      ensures freePages == if physical == INVALID then 0 else old(freePages) - 1
      ensures physical == INVALID ==> st == old(st)
      ensures physical != INVALID ==>
                && physical % PAGE_SIZE == 0 && physical / PAGE_SIZE < MAX_PAGES
                && !old(st).used[physical / PAGE_SIZE]
                && st.used == old(st).used[physical / PAGE_SIZE := true]
                && st.refs == old(st).refs[physical / PAGE_SIZE := 1]
    {
      physical := AllocPages(1);
      assert (exists p :: FreeRun(old(st).used, p, 1)) <==>
             exists p :: 0 <= p < MAX_PAGES && !old(st).used[p] by {
        forall p | 0 <= p < MAX_PAGES && !old(st).used[p]
          ensures FreeRun(old(st).used, p, 1)
        {
        }
      }
      if physical == INVALID {
        CountAll(old(st).used);
      } else {
        CountBelow(old(st).used, physical / PAGE_SIZE);
        assert st.used == old(st).used[physical / PAGE_SIZE := true];
        CountUpdate(old(st).used, physical / PAGE_SIZE, true);
      }
    }

    method RetainPage(physical: Word)
      requires Valid()
      modifies this`st, refcounts
      ensures Valid()
      ensures st == if physical % PAGE_SIZE == 0 then Retain(old(st), physical / PAGE_SIZE) else old(st)
    {
      if physical % PAGE_SIZE != 0 {
        return;
      }
      var page := physical / PAGE_SIZE;
      if page >= MAX_PAGES || !bitmap[page] {
        return;
      }
      if refcounts[page] != REF_MAX {
        refcounts[page] := refcounts[page] + 1;
        st := Retain(st, page);
      }
    }

    method PageRefCount(physical: Word) returns (n: nat)
      requires Valid()
      ensures n == if physical % PAGE_SIZE == 0 && physical / PAGE_SIZE < MAX_PAGES
                   then st.refs[physical / PAGE_SIZE] else 0
    {
      if physical % PAGE_SIZE != 0 {
        return 0;
      }
      var page := physical / PAGE_SIZE;
      if page >= MAX_PAGES || !bitmap[page] {
        return 0;
      }
      return refcounts[page];
    }

    method ReleaseSpan(lo: nat, hi: nat)
      requires Valid() && lo <= hi <= MAX_PAGES
      modifies this`freePages, this`usedPages, this`st, bitmap, refcounts
      ensures Valid() && st.next == old(st).next
      ensures ReleasedRange(old(st), lo, hi, st)
    {
      for index := lo to hi
        invariant Valid() && st.next == old(st).next
        invariant ReleasedRange(old(st), lo, index, st)
      {
        if bitmap[index] {
          if refcounts[index] > 1 {
            refcounts[index] := refcounts[index] - 1;
            st := Release(st, index);
          } else {
            MarkPageFree(index);
          }
        }
      }
    }

    /** Releases one reference to each page of the run; a wrapping run is ignored. */
    method FreePages(physical: Word, count: Word)
      requires Valid()
      modifies this`freePages, this`usedPages, this`nextSearch, this`st, bitmap, refcounts
      ensures Valid()
      ensures var p := physical / PAGE_SIZE;
              if physical % PAGE_SIZE != 0 || p >= MAX_PAGES || p + count >= U64 || count == 0
              then st == old(st)
              else ReleasedRange(old(st), p, Min(p + count, MAX_PAGES), st)
                   && st.next == Min(p, old(st).next)
    {
      if physical % PAGE_SIZE != 0 || count == 0 {
        return;
      }
      var page := physical / PAGE_SIZE;
      if page >= MAX_PAGES || page + count >= U64 {
        return;
      }
      var endPage := page + count;
      if endPage > MAX_PAGES {
        endPage := MAX_PAGES;
      }
      ReleaseSpan(page, endPage);
      if page < nextSearch {
        nextSearch := page;
        st := st.(next := page);
      }
    }

    method FreePage(physical: Word)
      requires Valid()
      modifies this`freePages, this`usedPages, this`nextSearch, this`st, bitmap, refcounts
      ensures Valid()
      ensures physical % PAGE_SIZE == 0 ==>
                && st.used == Release(old(st), physical / PAGE_SIZE).used
                && st.refs == Release(old(st), physical / PAGE_SIZE).refs
      ensures physical % PAGE_SIZE != 0 ==> st == old(st)
    {
      FreePages(physical, 1);
    }

    method FreeSpan(lo: nat, hi: nat, reclaimable: bool)
      requires Valid() && lo <= hi <= MAX_PAGES
      modifies this`freePages, this`usedPages, this`st, this`reclaimedPages, bitmap, refcounts
      ensures Valid() && st.next == old(st).next
      ensures forall q :: 0 <= q < MAX_PAGES ==> st.used[q] == (old(st).used[q] && !(lo <= q < hi))
      ensures forall q :: 0 <= q < MAX_PAGES ==> st.refs[q] == if lo <= q < hi then 0 else old(st).refs[q]
      ensures reclaimedPages == old(reclaimedPages) + if reclaimable then old(usedPages) - usedPages else 0
    {
      for page := lo to hi
        invariant Valid() && st.next == old(st).next
        invariant forall q :: 0 <= q < MAX_PAGES ==> st.used[q] == (old(st).used[q] && !(lo <= q < page))
        invariant forall q :: 0 <= q < MAX_PAGES ==> st.refs[q] == if lo <= q < page then 0 else old(st).refs[q]
        invariant reclaimedPages == old(reclaimedPages) + if reclaimable then old(usedPages) - usedPages else 0
      {
        if bitmap[page] {
          CountUpdate(st.used, page, false);
          MarkPageFree(page);
          if reclaimable {
            reclaimedPages := reclaimedPages + 1;
          }
        }
      }
    }

    method FreeRange(r: Region)
      requires Valid()
      modifies this`freePages, this`usedPages, this`st, this`reclaimedPages, this`skippedPages, bitmap, refcounts
      ensures Valid() && st.next == old(st).next
      ensures forall q :: 0 <= q < MAX_PAGES ==> st.used[q] == (old(st).used[q] && !FreedBy(r, q))
      ensures forall q :: 0 <= q < MAX_PAGES ==>
                st.refs[q] == if FreedBy(r, q) then 0 else old(st).refs[q]
      ensures reclaimedPages == old(reclaimedPages) + if r.reclaimable then old(usedPages) - usedPages else 0
    {
      if r.length == 0 || r.base + r.length >= U64 {
        return;
      }
      var start := AlignUp(r.base);
      var end := AlignDown(r.base + r.length);
      if end <= start {
        return;
      }
      var startPage := start / PAGE_SIZE;
      var endPage := end / PAGE_SIZE;
      if startPage >= MAX_PAGES {
        skippedPages := skippedPages + (endPage - startPage);
        return;
      }
      if endPage > MAX_PAGES {
        skippedPages := skippedPages + (endPage - MAX_PAGES);
        endPage := MAX_PAGES;
      }
      FreeSpan(startPage, endPage, r.reclaimable);
    }

    method ReserveRange(base: Word, length: Word)
      requires Valid()
      modifies this`freePages, this`usedPages, this`st, bitmap, refcounts
      ensures Valid() && st.next == old(st).next
      ensures forall q :: 0 <= q < MAX_PAGES ==>
                st.used[q] == (old(st).used[q] || ReservedBy(base, length, q))
      ensures forall q :: 0 <= q < MAX_PAGES ==>
                st.refs[q] == if !old(st).used[q] && ReservedBy(base, length, q) then 1 else old(st).refs[q]
    {
      if length == 0 || base + length >= U64 {
        return;
      }
      var startPage := AlignDown(base) / PAGE_SIZE;
      var endPage := AlignUp(base + length) / PAGE_SIZE;
      if startPage >= MAX_PAGES {
        return;
      }
      if endPage > MAX_PAGES {
        endPage := MAX_PAGES;
      }
      if startPage < endPage {
        MarkSpan(startPage, endPage);
      }
    }

    /** Boot: reserve everything, free the allocatable regions, reserve page zero and the kernel. */
    method Init(regions: seq<Region>, kernelBase: Word, kernelSize: Word)
      requires Valid() && forall q :: 0 <= q < MAX_PAGES ==> st.used[q] && st.refs[q] == 0
      modifies this, bitmap, refcounts
      ensures Valid()
      ensures forall q :: 0 <= q < MAX_PAGES ==>
                (!st.used[q] <==> (exists i :: 0 <= i < |regions| && FreedBy(regions[i], q))
                                  && q != 0 && !ReservedBy(kernelBase, kernelSize, q))
      ensures kernelSize != 0 && kernelBase + kernelSize + (PAGE_SIZE - 1) < U64 ==>
                forall q :: 0 <= q < MAX_PAGES && Touches(kernelBase, kernelSize, q) ==> st.used[q]
    {
      for i := 0 to |regions|
        invariant Valid()
        invariant forall q :: 0 <= q < MAX_PAGES ==>
                    (!st.used[q] <==> exists j :: 0 <= j < i && FreedBy(regions[j], q))
      {
        FreeRange(regions[i]);
      }
      ReserveRange(0, PAGE_SIZE);
      assert forall q :: 0 <= q < MAX_PAGES ==> (ReservedBy(0, PAGE_SIZE, q) <==> q == 0);
      ReserveRange(kernelBase, kernelSize);
      if kernelSize != 0 && kernelBase + kernelSize + (PAGE_SIZE - 1) < U64 {
        ReservedExactly(kernelBase, kernelSize);
      }
    }
  }

  // ----- search -----

  ghost function Cyclic(next: nat, offset: nat): nat { (next + offset) % MAX_PAGES }

  ghost predicate FirstFit(s: State, offset: nat, page: nat, count: nat) {
    && offset < MAX_PAGES && page == Cyclic(s.next, offset) && FreeRun(s.used, page, count)
    && forall o :: 0 <= o < offset ==> !FreeRun(s.used, Cyclic(s.next, o), count)
  }

  lemma NoRunAnywhere(s: State, count: nat)
    requires s.Wf() && forall o :: 0 <= o < MAX_PAGES ==> !FreeRun(s.used, Cyclic(s.next, o), count)
    ensures !exists p :: FreeRun(s.used, p, count)
  {
    forall p: nat
      ensures !FreeRun(s.used, p, count)
    {
      if p < MAX_PAGES {
        var o := (p + MAX_PAGES - s.next) % MAX_PAGES;
        assert Cyclic(s.next, o) == p;
      }
    }
  }

  lemma {:induction false} CountBelow(s: seq<bool>, p: nat)
    requires p < |s| && !s[p]
    ensures CountUsed(s) < |s|
  {
    if p < |s| - 1 {
      CountBelow(s[..|s| - 1], p);
    }
  }

  // ----- every run of allocations, retains and releases -----

  datatype Op =
    | AllocRun(start: nat, count: nat)
    | AllocFails
    | RetainOne(page: nat)
    | ReleaseRun(lo: nat, hi: nat)

  ghost predicate Step(s: State, op: Op, s': State)
    requires s.Wf()
  {
    match op
    case AllocRun(start, count) => AllocAt(s, start, count, s')
    case AllocFails => s' == s
    case RetainOne(p) => s' == Retain(s, p)
    case ReleaseRun(lo, hi) => ReleasedRange(s, lo, hi, s') && s'.next < MAX_PAGES
  }

  ghost predicate Run(trace: seq<State>, ops: seq<Op>) {
    && |trace| == |ops| + 1 && trace[0].Wf()
    && forall i :: 0 <= i < |ops| ==> trace[i].Wf() && Step(trace[i], ops[i], trace[i + 1])
  }

  /** References to `p` taken minus references given back by the first `n` operations. */
  function Balance(ops: seq<Op>, n: nat, p: nat): int
    requires n <= |ops|
  {
    if n == 0 then 0 else
      Balance(ops, n - 1, p) +
      match ops[n - 1]
      case RetainOne(q) => (if q == p then 1 else 0)
      case ReleaseRun(lo, hi) => (if lo <= p < hi then -1 else 0)
      case AllocRun(_, _) => 0
      case AllocFails => 0
  }

  lemma StepKeepsWf(s: State, op: Op, s': State)
    requires s.Wf() && Step(s, op, s')
    ensures s'.Wf()
  {
  }

  lemma StepBalance(s: State, op: Op, s': State, p: nat)
    requires s.Wf() && Step(s, op, s') && p < MAX_PAGES && s.used[p] && s.refs[p] >= 1
    requires op == RetainOne(p) ==> s.refs[p] < REF_MAX
    ensures var b := s.refs[p] + Balance([op], 1, p);
            b >= 1 ==> s'.used[p] && s'.refs[p] == b
    ensures s.refs[p] + Balance([op], 1, p) == 0 ==> !s'.used[p]
  {
    assert Balance([op], 0, p) == 0;
  }

  /** A page with `k` references outlives every run, whatever else is allocated or
      freed, in which fewer references are given back than it has been granted; its
      count is then exact. It is never handed out again meanwhile. */
  lemma {:induction false} RetainedPageStays(trace: seq<State>, ops: seq<Op>, n: nat, p: nat)
    requires Run(trace, ops) && n <= |ops| && p < MAX_PAGES
    requires trace[0].used[p] && trace[0].refs[p] >= 1
    requires forall i :: 0 <= i <= n ==> 1 <= trace[0].refs[p] + Balance(ops, i, p) <= REF_MAX
    ensures trace[n].Wf() && trace[n].used[p] && trace[n].refs[p] == trace[0].refs[p] + Balance(ops, n, p)
    ensures forall i :: 0 <= i < n && ops[i].AllocRun? ==> !(ops[i].start <= p < ops[i].start + ops[i].count)
  {
    if n > 0 {
      RetainedPageStays(trace, ops, n - 1, p);
      assert Step(trace[n - 1], ops[n - 1], trace[n]);
      StepKeepsWf(trace[n - 1], ops[n - 1], trace[n]);
      assert Balance([ops[n - 1]], 1, p) == Balance(ops, n, p) - Balance(ops, n - 1, p) by {
        assert Balance([ops[n - 1]], 0, p) == 0;
      }
      assert 1 <= trace[0].refs[p] + Balance(ops, n, p) <= REF_MAX;
      StepBalance(trace[n - 1], ops[n - 1], trace[n], p);
    }
  }

  /** Counts saturate: one more retain than the counter can hold is forgotten, so the
      page is freed while a holder remains. */
  lemma SaturatedRetainIsLost(s: State, p: nat)
    requires s.Wf() && p < MAX_PAGES && s.used[p] && s.refs[p] == REF_MAX
    ensures Retain(s, p) == s
    ensures !ReleaseTimes(s, p, REF_MAX).used[p]
  {
    ReleaseTimesExact(s, p, REF_MAX);
  }

  ghost function ReleaseTimes(s: State, p: nat, k: nat): (t: State)
    requires s.Wf()
    ensures t.Wf()
  {
    if k == 0 then s else Release(ReleaseTimes(s, p, k - 1), p)
  }

  lemma {:induction false} ReleaseTimesExact(s: State, p: nat, k: nat)
    requires s.Wf() && p < MAX_PAGES && s.used[p] && 1 <= s.refs[p] && k <= s.refs[p]
    ensures ReleaseTimes(s, p, k).refs[p] == s.refs[p] - k
    ensures ReleaseTimes(s, p, k).used[p] == (k < s.refs[p])
  {
    if k > 0 {
      ReleaseTimesExact(s, p, k - 1);
    }
  }

  /** Matching references: the counter forgets none exactly when it is not saturated. */
  lemma RetainCounts(s: State, p: nat)
    requires s.Wf() && p < MAX_PAGES && s.used[p]
    ensures Retain(s, p).refs[p] > s.refs[p] <==> s.refs[p] < REF_MAX
    ensures Release(Retain(s, p), p) == s <==> 1 <= s.refs[p] < REF_MAX
  {
    if 1 <= s.refs[p] < REF_MAX {
      assert s.refs[p := s.refs[p] + 1][p := s.refs[p]] == s.refs;
    }
  }
}

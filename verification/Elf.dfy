/** Loading the PT_LOAD segments of an executable into an address space. */
module Elf {

  type Byte = b: nat | b < 256 witness 0

  const PAGE: nat := 4096
  const PT_LOAD: nat := 1

  /** A program header; `write` and `execute` are its permission bits. */
  datatype Phdr = Phdr(ptype: nat, write: bool, execute: bool, offset: nat, vaddr: nat, filesz: nat, memsz: nat)

  /** A mapped page: present and user by construction. */
  datatype Page = Page(data: seq<Byte>, writable: bool, noExecute: bool)

  datatype Outcome = Loaded(pages: map<nat, Page>, brk: nat) | NoMemory

  // ----- the specified memory image -----

  function FirstPage(h: Phdr, bias: nat): nat { (h.vaddr + bias) / PAGE }

  function EndPage(h: Phdr, bias: nat): nat { (h.vaddr + bias + h.memsz + PAGE - 1) / PAGE }

  predicate Covers(h: Phdr, bias: nat, q: nat) { h.ptype == PT_LOAD && FirstPage(h, bias) <= q < EndPage(h, bias) }

  /** The pages of a segment are those that overlap its addresses; an empty segment that does not
      start at a page boundary has the page it starts in. */
  lemma CoversIff(h: Phdr, bias: nat, q: nat)
    requires h.ptype == 1
    ensures Covers(h, bias, q) <==> q * 4096 < h.vaddr + bias + h.memsz && h.vaddr + bias < (q + 1) * 4096
    ensures 0 < h.memsz ==> (Covers(h, bias, q) <==> exists a :: a / 4096 == q && h.vaddr + bias <= a < h.vaddr + bias + h.memsz)
  {
    var v := h.vaddr + bias;
    var a := if v < q * 4096 then q * 4096 else v;
    if Covers(h, bias, q) && 0 < h.memsz {
      assert a / 4096 == q && v <= a < v + h.memsz;
    }
  }

  /** What a segment puts at address `a`: the file's byte below `filesz`, zero elsewhere. */
  function SegByte(file: seq<Byte>, h: Phdr, bias: nat, a: nat): Byte {
    var v := h.vaddr + bias;
    if v <= a < v + h.filesz && h.offset + (a - v) < |file| then file[h.offset + (a - v)] else 0
  }

  /** The page is what the segment specifies, byte by byte, with its permissions. */
  ghost predicate IsSegPage(p: Page, file: seq<Byte>, h: Phdr, bias: nat, q: nat) {
    && |p.data| == PAGE && p.writable == h.write && p.noExecute == !h.execute
    && forall i :: 0 <= i < PAGE ==> p.data[i] == SegByte(file, h, bias, q * PAGE + i)
  }

  /** The last of the first `n` headers that covers page `q`, or `n` if none does. */
  function LastCover(hs: seq<Phdr>, bias: nat, n: nat, q: nat): (k: nat)
    requires n <= |hs|
    ensures k <= n && (k < n ==> Covers(hs[k], bias, q) && forall j :: k < j < n ==> !Covers(hs[j], bias, q))
    ensures k == n ==> forall j :: 0 <= j < n ==> !Covers(hs[j], bias, q)
  {
    if n == 0 then 0
    else if Covers(hs[n - 1], bias, q) then n - 1
    else var k := LastCover(hs, bias, n - 1, q); if k == n - 1 then n else k
  }

  /** Each page is that of the last segment covering it, or untouched. */
  ghost predicate IsImage(pages: map<nat, Page>, before: map<nat, Page>, file: seq<Byte>, hs: seq<Phdr>, bias: nat, n: nat)
    requires n <= |hs|
  {
    forall q: nat {:trigger LastCover(hs, bias, n, q)} ::
      var k := LastCover(hs, bias, n, q);
      if k < n then q in pages && IsSegPage(pages[q], file, hs[k], bias, q)
      else (q in pages <==> q in before) && (q in before ==> pages[q] == before[q])
  }

  /** The highest end of a segment that has a page at all. */
  function Break(hs: seq<Phdr>, bias: nat, n: nat): (b: nat)
    requires n <= |hs|
    ensures forall j :: 0 <= j < n && hs[j].ptype == PT_LOAD && FirstPage(hs[j], bias) < EndPage(hs[j], bias) ==> EndPage(hs[j], bias) * PAGE <= b
    ensures b == 0 || exists j :: 0 <= j < n && hs[j].ptype == PT_LOAD && FirstPage(hs[j], bias) < EndPage(hs[j], bias) && b == EndPage(hs[j], bias) * PAGE
  {
    if n == 0 then 0
    else
      var h, b := hs[n - 1], Break(hs, bias, n - 1);
      if h.ptype == PT_LOAD && FirstPage(h, bias) < EndPage(h, bias) && EndPage(h, bias) * PAGE > b
      then EndPage(h, bias) * PAGE
      else b
  }

  // ----- loading -----

  /** Reads up to `n` bytes at `offset`; a file that ends early gives fewer. */
  function FileRead(file: seq<Byte>, offset: nat, n: nat): seq<Byte> {
    if offset >= |file| then [] else if offset + n <= |file| then file[offset..offset + n] else file[offset..]
  }

  function Min(a: nat, b: nat): nat { if a < b then a else b }

  /** How much of the file has been copied when page `q` is reached. */
  function CopiedBefore(h: Phdr, bias: nat, q: nat): nat {
    if q <= FirstPage(h, bias) then 0 else Min(h.filesz, q * PAGE - (h.vaddr + bias))
  }

  /** The contents of one page of the segment. */
  method FillPage(file: seq<Byte>, h: Phdr, bias: nat, q: nat, fileOffset: nat, remaining: nat) returns (buf: seq<Byte>, copied: nat)
    requires FirstPage(h, bias) <= q && remaining == h.filesz - CopiedBefore(h, bias, q) && fileOffset == h.offset + CopiedBefore(h, bias, q)
    ensures |buf| == PAGE && forall i :: 0 <= i < PAGE ==> buf[i] == SegByte(file, h, bias, q * PAGE + i)
    ensures copied <= remaining && CopiedBefore(h, bias, q + 1) == CopiedBefore(h, bias, q) + copied
  {
    buf := seq(PAGE, _ => 0);
    copied := 0;
    var off := if q == FirstPage(h, bias) then (h.vaddr + bias) % PAGE else 0;
    if remaining > 0 {
      var space := PAGE - off;
      copied := if remaining < space then remaining else space;
      var got := FileRead(file, fileOffset, copied);
      buf := buf[..off] + got + buf[off + |got|..];
    }
    PageBytes(file, h, bias, q, off, copied, buf);
  }

  /** One segment: its pages are replaced, everything else stays. */
  method LoadSegment(file: seq<Byte>, h: Phdr, bias: nat, before: map<nat, Page>, budget: nat, brk: nat)
      returns (ok: bool, pages: map<nat, Page>, left: nat, top: nat)
    requires h.ptype == PT_LOAD
    ensures ok <==> EndPage(h, bias) - FirstPage(h, bias) <= budget
    ensures ok ==> left == budget - if FirstPage(h, bias) < EndPage(h, bias) then EndPage(h, bias) - FirstPage(h, bias) else 0
    ensures ok ==> forall q: nat {:trigger q in pages} ::
              if Covers(h, bias, q) then q in pages && IsSegPage(pages[q], file, h, bias, q)
              else (q in pages <==> q in before) && (q in before ==> pages[q] == before[q])
    ensures ok ==> top == if FirstPage(h, bias) < EndPage(h, bias) && EndPage(h, bias) * PAGE > brk then EndPage(h, bias) * PAGE else brk
  {
    hide FirstPage;
    hide EndPage;
    pages, left, top := before, budget, brk;
    var page := FirstPage(h, bias);
    var end := EndPage(h, bias);
    var fileOffset, remaining := h.offset, h.filesz;
    while page < end
      invariant FirstPage(h, bias) <= page && (page <= end || page == FirstPage(h, bias))
      invariant left == budget - (page - FirstPage(h, bias))
      invariant remaining == h.filesz - CopiedBefore(h, bias, page) && fileOffset == h.offset + CopiedBefore(h, bias, page)
      invariant forall q: nat {:trigger q in pages} ::
                  if FirstPage(h, bias) <= q < page then q in pages && IsSegPage(pages[q], file, h, bias, q)
                  else (q in pages <==> q in before) && (q in before ==> pages[q] == before[q])
      invariant top == if FirstPage(h, bias) < page && end * PAGE > brk then end * PAGE else brk
      decreases end - page
    {
      if left == 0 {
        return false, pages, left, top;
      }
      left := left - 1;
      var buf, copied := FillPage(file, h, bias, page, fileOffset, remaining);
      pages := pages[page := Page(buf, h.write, !h.execute)];
      if end * PAGE > top {
        top := end * PAGE;
      }
      fileOffset := fileOffset + copied;
      remaining := remaining - copied;
      page := page + 1;
    }
    assert forall q: nat :: Covers(h, bias, q) <==> FirstPage(h, bias) <= q < page;
    ok := true;
  }

  /** All segments in header order. */
  method Load(file: seq<Byte>, hs: seq<Phdr>, bias: nat, before: map<nat, Page>, budget: nat) returns (r: Outcome)
    ensures r.Loaded? ==> IsImage(r.pages, before, file, hs, bias, |hs|) && r.brk == Break(hs, bias, |hs|)
    ensures r.Loaded? <==> PagesNeeded(hs, bias, |hs|) <= budget
  {
    hide IsImage;
    hide IsSegPage;
    hide Covers;
    var pages := before;
    var left: nat, brk: nat := budget, 0;
    ImageNone(before, file, hs, bias);
    for i := 0 to |hs|
      invariant IsImage(pages, before, file, hs, bias, i) && brk == Break(hs, bias, i) && left + PagesNeeded(hs, bias, i) == budget
    {
      if hs[i].ptype == PT_LOAD {
        ghost var was := pages;
        var ok;
        ok, pages, left, brk := LoadSegment(file, hs[i], bias, pages, left, brk);
        if !ok {
          MoreNeeded(hs, bias, i + 1, |hs|);
          return NoMemory;
        }
        ImageMore(pages, was, before, file, hs, bias, i);
      } else {
        ImageSame(pages, before, file, hs, bias, i);
      }
    }
    r := Loaded(pages, brk);
  }

  function PagesNeeded(hs: seq<Phdr>, bias: nat, n: nat): nat
    requires n <= |hs|
  {
    if n == 0 then 0
    else PagesNeeded(hs, bias, n - 1)
         + if hs[n - 1].ptype == PT_LOAD && FirstPage(hs[n - 1], bias) < EndPage(hs[n - 1], bias)
           then EndPage(hs[n - 1], bias) - FirstPage(hs[n - 1], bias) else 0
  }

  lemma {:induction false} MoreNeeded(hs: seq<Phdr>, bias: nat, m: nat, n: nat)
    requires m <= n <= |hs|
    ensures PagesNeeded(hs, bias, m) <= PagesNeeded(hs, bias, n)
    decreases n
  {
    if m < n {
      MoreNeeded(hs, bias, m, n - 1);
    }
  }

  lemma PageBytes(file: seq<Byte>, h: Phdr, bias: nat, q: nat, off: nat, copied: nat, buf: seq<Byte>)
    requires FirstPage(h, bias) <= q && off == if q == FirstPage(h, bias) then (h.vaddr + bias) % PAGE else 0
    requires var rem := h.filesz - CopiedBefore(h, bias, q); copied == if rem == 0 then 0 else if rem < PAGE - off then rem else PAGE - off
    requires var got := if copied == 0 then [] else FileRead(file, h.offset + CopiedBefore(h, bias, q), copied);
             |buf| == PAGE && forall i :: 0 <= i < PAGE ==> buf[i] == if off <= i < off + |got| then got[i - off] else 0
    ensures forall i :: 0 <= i < PAGE ==> buf[i] == SegByte(file, h, bias, q * PAGE + i)
    ensures CopiedBefore(h, bias, q + 1) == CopiedBefore(h, bias, q) + copied
  {
    var v := h.vaddr + bias;
    assert v == FirstPage(h, bias) * PAGE + v % PAGE;
  }

  lemma ImageMore(pages: map<nat, Page>, was: map<nat, Page>, before: map<nat, Page>, file: seq<Byte>, hs: seq<Phdr>, bias: nat, i: nat)
    requires i < |hs| && IsImage(was, before, file, hs, bias, i)
    requires forall q: nat {:trigger q in pages} ::
               if Covers(hs[i], bias, q) then q in pages && IsSegPage(pages[q], file, hs[i], bias, q)
               else (q in pages <==> q in was) && (q in was ==> pages[q] == was[q])
    ensures IsImage(pages, before, file, hs, bias, i + 1)
  {
    hide IsSegPage;
    forall q: nat
      ensures var k := LastCover(hs, bias, i + 1, q);
              if k < i + 1 then q in pages && IsSegPage(pages[q], file, hs[k], bias, q)
              else (q in pages <==> q in before) && (q in before ==> pages[q] == before[q])
    {
      var k := LastCover(hs, bias, i, q);
      assert q in pages || q !in pages;
    }
  }

  lemma ImageSame(pages: map<nat, Page>, before: map<nat, Page>, file: seq<Byte>, hs: seq<Phdr>, bias: nat, i: nat)
    requires i < |hs| && IsImage(pages, before, file, hs, bias, i) && hs[i].ptype != PT_LOAD
    ensures IsImage(pages, before, file, hs, bias, i + 1)
  {
    hide IsSegPage;
    forall q: nat
      ensures var k := LastCover(hs, bias, i + 1, q);
              if k < i + 1 then q in pages && IsSegPage(pages[q], file, hs[k], bias, q)
              else (q in pages <==> q in before) && (q in before ==> pages[q] == before[q])
    {
      var k := LastCover(hs, bias, i, q);
    }
  }

  lemma ImageNone(before: map<nat, Page>, file: seq<Byte>, hs: seq<Phdr>, bias: nat)
    ensures IsImage(before, before, file, hs, bias, 0)
  {
  }

  /** Translating any address of a segment that shares no page with a later one yields the
      file's byte below `filesz` and zero from there to the end of the page. */
  lemma SegmentReadsBack(pages: map<nat, Page>, before: map<nat, Page>, file: seq<Byte>, hs: seq<Phdr>, bias: nat, k: nat, a: nat)
    requires IsImage(pages, before, file, hs, bias, |hs|) && k < |hs| && Covers(hs[k], bias, a / PAGE)
    requires forall j :: k < j < |hs| ==> !Covers(hs[j], bias, a / PAGE)
    ensures var v := hs[k].vaddr + bias; var p := a / PAGE;
            && p in pages && |pages[p].data| == PAGE && pages[p].writable == hs[k].write && pages[p].noExecute == !hs[k].execute
            && (v <= a < v + hs[k].filesz && hs[k].offset + (a - v) < |file| ==> pages[p].data[a % PAGE] == file[hs[k].offset + (a - v)])
            && (v + hs[k].filesz <= a ==> pages[p].data[a % PAGE] == 0)
  {
    var p := a / PAGE;
    var l := LastCover(hs, bias, |hs|, p);
    assert l == k;
    assert p * PAGE + a % PAGE == a;
  }

  /** Every address of a segment is loaded, if no later segment has an address in its page. */
  lemma AddressLoaded(pages: map<nat, Page>, before: map<nat, Page>, file: seq<Byte>, hs: seq<Phdr>, bias: nat, k: nat, a: nat)
    requires IsImage(pages, before, file, hs, bias, |hs|) && k < |hs| && hs[k].ptype == 1
    requires hs[k].vaddr + bias <= a < hs[k].vaddr + bias + hs[k].memsz
    requires forall j :: k < j < |hs| && hs[j].ptype == 1 ==>
               hs[j].vaddr + bias + hs[j].memsz <= a - a % 4096 || a - a % 4096 + 4096 <= hs[j].vaddr + bias
    ensures var q, i := a / 4096, a - (hs[k].vaddr + bias);
            && q in pages && |pages[q].data| == 4096 && pages[q].writable == hs[k].write && pages[q].noExecute == !hs[k].execute
            && (i < hs[k].filesz && hs[k].offset + i < |file| ==> pages[q].data[a % 4096] == file[hs[k].offset + i])
            && (hs[k].filesz <= i ==> pages[q].data[a % 4096] == 0)
  {
    var q: nat := a / 4096;
    CoversIff(hs[k], bias, q);
    forall j | k < j < |hs|
      ensures !Covers(hs[j], bias, q)
    {
      if hs[j].ptype == 1 {
        CoversIff(hs[j], bias, q);
      }
    }
    hide Covers;
    SegmentReadsBack(pages, before, file, hs, bias, k, a);
  }
}

/** Files held in pages of memory. */
module Ramfs {
  import Pmm

  type Byte = b: nat | b < 256 witness 0
  type Id = nat

  const PAGE: nat := 4096

  /** Page frames by number. Frame 0 is never handed out: in a file it stands for a page
      that was never written. */
  type Memory = map<nat, seq<Byte>>

  datatype File = File(pages: seq<nat>, size: nat)

  datatype Outcome = Written | NoSpace

  // ----- the abstract file: the last byte written at each offset -----

  type Bytes = map<nat, Byte>

  predicate InRange(i: nat, lo: nat, hi: nat) { lo <= i < hi }

  /** The bytes of `buf` written at `offset`, one after the other. */
  ghost function Overlaid(b: Bytes, offset: nat, buf: seq<Byte>): Bytes {
    if buf == [] then b
    else var n := |buf| - 1; Overlaid(b, offset, buf[..n])[offset + n := buf[n]]
  }

  lemma {:induction false} OverlaidIs(b: Bytes, offset: nat, buf: seq<Byte>, i: nat)
    ensures var b' := Overlaid(b, offset, buf);
            && (i in b' <==> i in b || InRange(i, offset, offset + |buf|))
            && (i in b' ==> b'[i] == if InRange(i, offset, offset + |buf|) then buf[i - offset] else b[i])
    decreases |buf|
  {
    if buf != [] {
      OverlaidIs(b, offset, buf[..|buf| - 1], i);
    }
  }

  /** Writing in pieces is writing at once. */
  lemma {:induction false} OverlaidMore(b: Bytes, offset: nat, buf: seq<Byte>, k: nat, n: nat)
    requires k + n <= |buf|
    ensures Overlaid(Overlaid(b, offset, buf[..k]), offset + k, buf[k..k + n]) == Overlaid(b, offset, buf[..k + n])
    decreases n
  {
    if n > 0 {
      OverlaidMore(b, offset, buf, k, n - 1);
      assert buf[k..k + n][..n - 1] == buf[k..k + n - 1];
      assert buf[..k + n][..k + n - 1] == buf[..k + n - 1];
    }
  }

  // ----- representation -----

  function PageAt(f: File, i: nat): nat { if i < |f.pages| then f.pages[i] else 0 }

  /** Memory holds every frame; the frames of files are in use. */
  ghost predicate Frames(m: Memory, used: seq<bool>, files: map<Id, File>) {
    && |used| == Pmm.MAX_PAGES && used[0]
    && (forall p: nat :: p < Pmm.MAX_PAGES ==> p in m && |m[p]| == PAGE)
    && forall f, i: nat {:trigger PageAt(files[f], i)} :: f in files ==> PageAt(files[f], i) < Pmm.MAX_PAGES && used[PageAt(files[f], i)]
  }

  /** No frame belongs to two pages. */
  ghost predicate Unshared(files: map<Id, File>) {
    forall f, g, i: nat, j: nat {:trigger PageAt(files[f], i), PageAt(files[g], j)} ::
      f in files && g in files && PageAt(files[f], i) != 0 && PageAt(files[f], i) == PageAt(files[g], j) ==> f == g && i == j
  }

  ghost predicate Stores(m: Memory, f: File, o: nat, b: Byte) {
    var p := PageAt(f, o / PAGE);
    p != 0 && p in m && |m[p]| == PAGE && m[p][o % PAGE] == b
  }

  /** Every byte ever written can be found. */
  ghost predicate Holds(m: Memory, f: File, bytes: Bytes) {
    forall o: nat {:trigger o in bytes} :: o in bytes ==> Stores(m, f, o, bytes[o])
  }

  ghost predicate AllHold(m: Memory, files: map<Id, File>, content: map<Id, Bytes>) {
    content.Keys == files.Keys && forall f :: f in files ==> Holds(m, files[f], content[f])
  }

  // ----- one chunk -----

  function Splice(page: seq<Byte>, off: nat, chunk: seq<Byte>): seq<Byte>
    requires off + |chunk| <= |page|
  {
    page[..off] + chunk + page[off + |chunk|..]
  }

  /** Storing into one page of one file changes that file's bytes there and nothing else. */
  lemma ChunkStored(m: Memory, files: map<Id, File>, content: map<Id, Bytes>, f: Id, pos: nat, chunk: seq<Byte>)
    requires AllHold(m, files, content) && Unshared(files) && f in files && pos % PAGE + |chunk| <= PAGE
    requires var p := PageAt(files[f], pos / PAGE); p != 0 && p in m && |m[p]| == PAGE
    ensures var p := PageAt(files[f], pos / PAGE);
            AllHold(m[p := Splice(m[p], pos % PAGE, chunk)], files, content[f := Overlaid(content[f], pos, chunk)])
  {
    var p := PageAt(files[f], pos / PAGE);
    var m' := m[p := Splice(m[p], pos % PAGE, chunk)];
    var content' := content[f := Overlaid(content[f], pos, chunk)];
    forall g, o: nat | g in files && o in content'[g]
      ensures Stores(m', files[g], o, content'[g][o])
    {
      OverlaidIs(content[f], pos, chunk, o);
      ByteStored(m, files, content, f, pos, chunk, g, o);
    }
  }

  lemma ByteStored(m: Memory, files: map<Id, File>, content: map<Id, Bytes>, f: Id, pos: nat, chunk: seq<Byte>, g: Id, o: nat)
    requires AllHold(m, files, content) && Unshared(files) && f in files && g in files && pos % PAGE + |chunk| <= PAGE
    requires var p := PageAt(files[f], pos / PAGE); p != 0 && p in m && |m[p]| == PAGE
    requires if g == f && InRange(o, pos, pos + |chunk|) then true else o in content[g]
    ensures var p := PageAt(files[f], pos / PAGE); var m' := m[p := Splice(m[p], pos % PAGE, chunk)];
            Stores(m', files[g], o, if g == f && InRange(o, pos, pos + |chunk|) then chunk[o - pos] else content[g][o])
  {
    var p := PageAt(files[f], pos / PAGE);
    if g == f && InRange(o, pos, pos + |chunk|) {
      SamePage(pos, o);
    } else {
      assert Holds(m, files[g], content[g]);
      assert Stores(m, files[g], o, content[g][o]);
      if PageAt(files[g], o / PAGE) == p {
        assert g == f && o / PAGE == pos / PAGE;
        OtherByte(pos, o, |chunk|);
      }
    }
  }

  lemma SamePage(pos: nat, o: nat)
    requires pos <= o && pos % PAGE + (o - pos) < PAGE
    ensures o / PAGE == pos / PAGE && o % PAGE == pos % PAGE + (o - pos)
  {
  }

  lemma OtherByte(pos: nat, o: nat, n: nat)
    requires o / PAGE == pos / PAGE && !InRange(o, pos, pos + n)
    ensures o % PAGE < pos % PAGE || pos % PAGE + n <= o % PAGE
  {
  }

  // ----- pages of a file -----

  function Grown(f: File, n: nat): File
  {
    if n <= |f.pages| then f else f.(pages := f.pages + seq(n - |f.pages|, _ => 0))
  }

  lemma GrownSame(f: File, n: nat)
    ensures forall i: nat :: PageAt(Grown(f, n), i) == PageAt(f, i)
    ensures n <= |Grown(f, n).pages| && Grown(f, n).size == f.size
  {
  }

  /** Files with the same pages and the same sizes or larger hold the same bytes. */
  lemma SamePages(m: Memory, used: seq<bool>, files: map<Id, File>, content: map<Id, Bytes>, f: Id, file: File)
    requires Frames(m, used, files) && Unshared(files) && AllHold(m, files, content) && f in files
    requires forall i: nat :: PageAt(file, i) == PageAt(files[f], i)
    ensures var files' := files[f := file]; Frames(m, used, files') && Unshared(files') && AllHold(m, files', content)
  {
    var files' := files[f := file];
    forall g, i: nat | g in files'
      ensures PageAt(files'[g], i) == PageAt(files[g], i)
    {
    }
    forall g | g in files'
      ensures Holds(m, files'[g], content[g])
    {
      assert Holds(m, files[g], content[g]);
      forall o: nat | o in content[g]
        ensures Stores(m, files'[g], o, content[g][o])
      {
        assert Stores(m, files[g], o, content[g][o]);
      }
    }
  }

  /** A fresh frame for a page that had none. */
  lemma FrameAdded(m: Memory, used: seq<bool>, files: map<Id, File>, content: map<Id, Bytes>, f: Id, k: nat, p: nat)
    requires Frames(m, used, files) && Unshared(files) && AllHold(m, files, content) && f in files
    requires k < |files[f].pages| && files[f].pages[k] == 0 && p < Pmm.MAX_PAGES && !used[p]
    ensures var files' := files[f := files[f].(pages := files[f].pages[k := p])];
            Frames(m, used[p := true], files') && Unshared(files') && AllHold(m, files', content) && p != 0
  {
    var files' := files[f := files[f].(pages := files[f].pages[k := p])];
    forall g, i: nat | g in files'
      ensures PageAt(files'[g], i) == if g == f && i == k then p else PageAt(files[g], i)
      ensures PageAt(files[g], i) != p
    {
    }
    forall g | g in files'
      ensures Holds(m, files'[g], content[g])
    {
      assert Holds(m, files[g], content[g]);
      forall o: nat | o in content[g]
        ensures Stores(m, files'[g], o, content[g][o])
      {
        assert Stores(m, files[g], o, content[g][o]);
      }
    }
  }

  class RamFs {
    const pmm: Pmm.Allocator
    var memory: Memory
    var files: map<Id, File>
    ghost var content: map<Id, Bytes>

    ghost predicate Valid()
      reads this, pmm, pmm.bitmap, pmm.refcounts
    {
      && pmm.Valid() && Frames(memory, pmm.st.used, files) && Unshared(files) && AllHold(memory, files, content)
    }

    constructor (pmm: Pmm.Allocator, memory: Memory)
      requires pmm.Valid() && pmm.st.used[0]
      requires forall p: nat :: p < Pmm.MAX_PAGES ==> p in memory && |memory[p]| == PAGE
      ensures Valid() && files == map[] && this.pmm == pmm
    {
      this.pmm := pmm;
      this.memory := memory;
      files := map[];
      content := map[];
    }

    method Create(f: Id)
      requires Valid() && f !in files
      modifies this
      ensures Valid() && files == old(files)[f := File([], 0)] && content == old(content)[f := map[]]
    {
      files := files[f := File([], 0)];
      content := content[f := map[]];
      forall g | g in files
        ensures Holds(memory, files[g], content[g])
      {
        assert g in old(files) ==> Holds(memory, old(files)[g], old(content)[g]);
      }
    }

    /** Copies into `buf` the bytes from `offset` on, cut at the file's size; what was never
        written may come out as anything. */
    method Read(f: Id, offset: nat, buf: seq<Byte>) returns (out: seq<Byte>)
      requires Valid() && f in files
      ensures |out| == if offset >= files[f].size then 0 else if |buf| > files[f].size - offset then files[f].size - offset else |buf|
      ensures forall i: nat :: i < |out| && offset + i in content[f] ==> out[i] == content[f][offset + i]
    {
      var file := files[f];
      out := [];
      if offset >= file.size {
        return;
      }
      var size := if |buf| > file.size - offset then file.size - offset else |buf|;
      while |out| < size
        invariant |out| <= size && ReadBack(content[f], offset, out)
        decreases size - |out|
      {
        var pos := offset + |out|;
        var chunk := PAGE - pos % PAGE;
        if chunk > size - |out| {
          chunk := size - |out|;
        }
        var page := PageAt(file, pos / PAGE);
        if page != 0 {
          PageThere(memory, pmm.st.used, files, f, pos / PAGE);
          MoreRead(memory, file, content[f], offset, out, chunk);
          out := out + memory[page][pos % PAGE..pos % PAGE + chunk];
        } else {
          HoleRead(memory, file, content[f], offset, out, buf[|out|..|out| + chunk]);
          out := out + buf[|out|..|out| + chunk];
        }
      }
    }

    /** Makes sure that page `k` of the file has a frame. */
    method NeedPage(f: Id, k: nat) returns (ok: bool)
      requires Valid() && f in files && k < |files[f].pages|
      modifies this, pmm, pmm.bitmap, pmm.refcounts
      ensures Valid() && content == old(content) && memory == old(memory) && files.Keys == old(files).Keys
      ensures forall g :: g in files && g != f ==> files[g] == old(files)[g]
      ensures files[f].size == old(files)[f].size && |files[f].pages| == |old(files)[f].pages|
      ensures ok ==> files[f].pages[k] != 0
      ensures !ok ==> files == old(files) && forall q :: 0 <= q < Pmm.MAX_PAGES ==> pmm.st.used[q]
    {
      if files[f].pages[k] == 0 {
        var phys := pmm.AllocPage();
        if phys == Pmm.INVALID {
          return false;
        }
        FrameAdded(memory, old(pmm.st.used), files, content, f, k, phys / Pmm.PAGE_SIZE);
        files := files[f := files[f].(pages := files[f].pages[k := phys / Pmm.PAGE_SIZE])];
      }
      ok := true;
    }

    /** What the files hold, apart from where it is kept. */
    ghost function View(): Flat
      reads this
    {
      FlatOf(content, files)
    }

    /** Nothing but file `f` differs. */
    twostate predicate OnlyFile(f: Id)
      reads this
    {
      && files.Keys == old(files).Keys && content.Keys == old(content).Keys
      && forall g :: g in files && g != f && g in old(files) && g in content && g in old(content) ==>
           files[g] == old(files)[g] && content[g] == old(content)[g]
    }

    /** Makes the file's table of pages long enough. */
    method NeedTable(f: Id, needed: nat)
      requires Valid() && f in files
      modifies `files
      ensures Valid() && OnlyFile(f) && files[f].size == old(files)[f].size && needed <= |files[f].pages|
    {
      hide Frames;
      hide Unshared;
      hide AllHold;
      SameKeys(memory, files, content);
      GrownSame(files[f], needed);
      SamePages(memory, pmm.st.used, files, content, f, Grown(files[f], needed));
      files := files[f := Grown(files[f], needed)];
    }

    method SetSize(f: Id, end: nat)
      requires Valid() && f in files
      modifies `files
      ensures Valid() && OnlyFile(f) && files[f].size == if end > old(files)[f].size then end else old(files)[f].size
    {
      hide Frames;
      hide Unshared;
      hide AllHold;
      if end > files[f].size {
        SamePages(memory, pmm.st.used, files, content, f, files[f].(size := end));
        files := files[f := files[f].(size := end)];
      }
    }

    /** Writes bytes that lie in one page. */
    method WriteChunk(f: Id, pos: nat, chunk: seq<Byte>) returns (ok: bool)
      requires Valid() && f in files && f in content && pos / PAGE < |files[f].pages| && pos % PAGE + |chunk| <= PAGE
      modifies this, pmm, pmm.bitmap, pmm.refcounts
      ensures Valid() && OnlyFile(f) && f in content && files[f].size == old(files)[f].size && |files[f].pages| == |old(files)[f].pages|
      ensures content[f] == if ok then Overlaid(old(content)[f], pos, chunk) else old(content)[f]
      ensures !ok ==> forall q :: 0 <= q < Pmm.MAX_PAGES ==> pmm.st.used[q]
    {
      hide Frames;
      hide Unshared;
      hide AllHold;
      hide Overlaid;
      ok := NeedPage(f, pos / PAGE);
      if ok {
        var page := files[f].pages[pos / PAGE];
        PageThere(memory, pmm.st.used, files, f, pos / PAGE);
        ChunkStored(memory, files, content, f, pos, chunk);
        FramesKept(memory, pmm.st.used, files, page, Splice(memory[page], pos % PAGE, chunk));
        memory := memory[page := Splice(memory[page], pos % PAGE, chunk)];
        content := content[f := Overlaid(content[f], pos, chunk)];
      }
    }

    /** Writes page by page; `n` bytes are written. */
    method WriteAll(f: Id, offset: nat, buf: seq<Byte>) returns (ok: bool, n: nat)
      requires Valid() && f in files && f in content && (offset + |buf| + PAGE - 1) / PAGE <= |files[f].pages|
      modifies this, pmm, pmm.bitmap, pmm.refcounts
      ensures Valid() && OnlyFile(f) && f in content && files[f].size == old(files)[f].size
      ensures n <= |buf| && content[f] == Overlaid(old(content)[f], offset, buf[..n])
      ensures if ok then n == |buf| else forall q :: 0 <= q < Pmm.MAX_PAGES ==> pmm.st.used[q]
    {
      hide Frames;
      hide Unshared;
      hide AllHold;
      hide Overlaid;
      OverlaidZero(content[f], offset, buf);
      var needed := (offset + |buf| + PAGE - 1) / PAGE;
      n := 0;
      while n < |buf|
        invariant n <= |buf| && Valid() && OnlyFile(f) && f in files && f in content
        invariant files[f].size == old(files)[f].size && needed <= |files[f].pages|
        invariant content[f] == Overlaid(old(content)[f], offset, buf[..n])
        decreases |buf| - n
      {
        var pos := offset + n;
        var chunk := PAGE - pos % PAGE;
        if chunk > |buf| - n {
          chunk := |buf| - n;
        }
        PageInside(pos, offset + |buf|, needed);
        ok := WriteChunk(f, pos, buf[n..n + chunk]);
        if !ok {
          return;
        }
        OverlaidMore(old(content)[f], offset, buf, n, chunk);
        n := n + chunk;
      }
      ok := true;
    }

    /** Writes `buf` at `offset`. If memory runs out, what had been written by then stays and
        the size is as before. `table` says whether a longer page table could be had. */
    method Write(f: Id, offset: nat, buf: seq<Byte>, table: bool) returns (r: Outcome)
      requires Valid() && f in files && offset + |buf| + PAGE <= Pmm.U64
      modifies this, pmm, pmm.bitmap, pmm.refcounts
      ensures Valid() && OnlyFile(f) && f in files && f in content && f in old(content)
      ensures r == Written ==>
                && content[f] == Overlaid(old(content)[f], offset, buf)
                && files[f].size == if offset + |buf| > old(files)[f].size then offset + |buf| else old(files)[f].size
      ensures r == Written ==> f in old(View()).size && View() == Applied(old(View()), Put(f, offset, buf))
      ensures r == NoSpace ==>
                && files[f].size == old(files)[f].size
                && exists n :: 0 <= n <= |buf| && content[f] == Overlaid(old(content)[f], offset, buf[..n])
      ensures r == NoSpace ==> !table || forall q :: 0 <= q < Pmm.MAX_PAGES ==> pmm.st.used[q]
    {
      hide Frames;
      hide Unshared;
      hide AllHold;
      hide Overlaid;
      hide FlatOf;
      hide Applied;
      SameKeys(memory, files, content);
      OverlaidZero(content[f], offset, buf);
      var needed := (offset + |buf| + PAGE - 1) / PAGE;
      if needed > |files[f].pages| {
        if !table {
          return NoSpace;
        }
        NeedTable(f, needed);
      }
      var ok, n := WriteAll(f, offset, buf);
      if !ok {
        return NoSpace;
      }
      assert buf[..n] == buf;
      SetSize(f, offset + |buf|);
      SameKeys(memory, files, content);
      FlatAfter(old(content), old(files), content, files, Put(f, offset, buf));
      r := Written;
    }
  }

  lemma OverlaidZero(b: Bytes, offset: nat, buf: seq<Byte>)
    ensures Overlaid(b, offset, buf[..0]) == b
  {
  }

  ghost predicate ReadBack(bytes: Bytes, offset: nat, out: seq<Byte>) {
    forall i: nat :: i < |out| && offset + i in bytes ==> out[i] == bytes[offset + i]
  }

  lemma PageThere(m: Memory, used: seq<bool>, files: map<Id, File>, f: Id, k: nat)
    requires Frames(m, used, files) && f in files
    ensures var p := PageAt(files[f], k); p in m && |m[p]| == PAGE
  {
  }

  lemma SameKeys(m: Memory, files: map<Id, File>, content: map<Id, Bytes>)
    requires AllHold(m, files, content)
    ensures content.Keys == files.Keys
  {
  }

  lemma PageInside(pos: nat, end: nat, needed: nat)
    requires pos < end && needed == (end + PAGE - 1) / PAGE
    ensures pos / PAGE < needed
  {
  }

  lemma FramesKept(m: Memory, used: seq<bool>, files: map<Id, File>, p: nat, page: seq<Byte>)
    requires Frames(m, used, files) && |page| == PAGE
    ensures Frames(m[p := page], used, files)
  {
  }

  lemma MoreRead(m: Memory, file: File, bytes: Bytes, offset: nat, out: seq<Byte>, chunk: nat)
    requires Holds(m, file, bytes) && ReadBack(bytes, offset, out) && (offset + |out|) % PAGE + chunk <= PAGE
    requires var p := PageAt(file, (offset + |out|) / PAGE); p in m && |m[p]| == PAGE
    ensures var pos := offset + |out|; var p := PageAt(file, pos / PAGE);
            ReadBack(bytes, offset, out + m[p][pos % PAGE..pos % PAGE + chunk])
  {
    var pos := offset + |out|;
    var p := PageAt(file, pos / PAGE);
    var more := out + m[p][pos % PAGE..pos % PAGE + chunk];
    forall i: nat | i < |more| && offset + i in bytes
      ensures more[i] == bytes[offset + i]
    {
      if i >= |out| {
        SamePage(pos, offset + i);
        assert Stores(m, file, offset + i, bytes[offset + i]);
      }
    }
  }

  /** Nothing was ever written to a page without a frame. */
  lemma HoleRead(m: Memory, file: File, bytes: Bytes, offset: nat, out: seq<Byte>, chunk: seq<Byte>)
    requires Holds(m, file, bytes) && ReadBack(bytes, offset, out) && (offset + |out|) % PAGE + |chunk| <= PAGE
    requires PageAt(file, (offset + |out|) / PAGE) == 0
    ensures ReadBack(bytes, offset, out + chunk)
  {
    var pos := offset + |out|;
    var more := out + chunk;
    forall i: nat | i < |more|
      ensures offset + i in bytes ==> more[i] == bytes[offset + i]
    {
      if i >= |out| {
        SamePage(pos, offset + i);
        HoleEmpty(m, file, bytes, offset + i);
      }
    }
  }

  lemma HoleEmpty(m: Memory, file: File, bytes: Bytes, o: nat)
    requires Holds(m, file, bytes) && PageAt(file, o / PAGE) == 0
    ensures o !in bytes
  {
    assert o in bytes ==> Stores(m, file, o, bytes[o]);
  }

  // ----- runs of writes -----

  datatype Flat = Flat(bytes: map<Id, Bytes>, size: map<Id, nat>)

  ghost function FlatOf(content: map<Id, Bytes>, files: map<Id, File>): Flat {
    Flat(content, map g | g in files :: files[g].size)
  }

  lemma FlatAfter(content: map<Id, Bytes>, files: map<Id, File>, content': map<Id, Bytes>, files': map<Id, File>, w: Put)
    requires content'.Keys == content.Keys && files'.Keys == files.Keys && w.file in files && w.file in content
    requires forall g :: g in files && g != w.file ==> files'[g] == files[g]
    requires forall g :: g in content && g != w.file ==> content'[g] == content[g]
    requires content'[w.file] == Overlaid(content[w.file], w.offset, w.buf)
    requires files'[w.file].size == if w.offset + |w.buf| > files[w.file].size then w.offset + |w.buf| else files[w.file].size
    ensures w.file in FlatOf(content, files).size && FlatOf(content', files') == Applied(FlatOf(content, files), w)
  {
    hide Overlaid;
  }

  datatype Put = Put(file: Id, offset: nat, buf: seq<Byte>)

  ghost function Applied(v: Flat, w: Put): Flat
    requires w.file in v.bytes && w.file in v.size
  {
    Flat(v.bytes[w.file := Overlaid(v.bytes[w.file], w.offset, w.buf)],
         v.size[w.file := if w.offset + |w.buf| > v.size[w.file] then w.offset + |w.buf| else v.size[w.file]])
  }

  /** Each state comes from the one before by one successful write. */
  ghost predicate Run(trace: seq<Flat>, ws: seq<Put>) {
    && |trace| == |ws| + 1
    && forall i :: 0 <= i < |ws| ==>
         ws[i].file in trace[i].bytes && ws[i].file in trace[i].size && trace[i + 1] == Applied(trace[i], ws[i])
  }

  predicate Hits(w: Put, f: Id, i: nat) { w.file == f && InRange(i, w.offset, w.offset + |w.buf|) }

  /** Writes that do not hit a byte leave it alone, whatever files they are to. */
  lemma {:induction false} UnhitKept(trace: seq<Flat>, ws: seq<Put>, m: nat, n: nat, f: Id, i: nat)
    requires Run(trace, ws) && m <= n <= |ws| && f in trace[m].bytes && forall j :: m <= j < n ==> !Hits(ws[j], f, i)
    ensures f in trace[n].bytes && (i in trace[n].bytes[f] <==> i in trace[m].bytes[f])
    ensures i in trace[m].bytes[f] ==> trace[n].bytes[f][i] == trace[m].bytes[f][i]
    decreases n - m
  {
    hide Overlaid;
    if m < n {
      UnhitKept(trace, ws, m, n - 1, f, i);
      assert trace[n] == Applied(trace[n - 1], ws[n - 1]);
      OverlaidIs(trace[n - 1].bytes[ws[n - 1].file], ws[n - 1].offset, ws[n - 1].buf, i);
    }
  }

  /** After any run, a byte is the one that the last write to hit it has put there. */
  lemma LastWriteWins(trace: seq<Flat>, ws: seq<Put>, k: nat, f: Id, i: nat)
    requires Run(trace, ws) && k < |ws| && Hits(ws[k], f, i) && forall j :: k < j < |ws| ==> !Hits(ws[j], f, i)
    ensures f in trace[|ws|].bytes && i in trace[|ws|].bytes[f] && trace[|ws|].bytes[f][i] == ws[k].buf[i - ws[k].offset]
  {
    hide Overlaid;
    assert trace[k + 1] == Applied(trace[k], ws[k]);
    OverlaidIs(trace[k].bytes[f], ws[k].offset, ws[k].buf, i);
    UnhitKept(trace, ws, k + 1, |ws|, f, i);
  }

  /** A file that started empty is as long as its furthest write reaches. */
  lemma {:induction false} SizeIsFurthest(trace: seq<Flat>, ws: seq<Put>, n: nat, f: Id)
    requires Run(trace, ws) && n <= |ws| && f in trace[0].size && trace[0].size[f] == 0
    ensures f in trace[n].size
    ensures forall j :: 0 <= j < n && ws[j].file == f ==> ws[j].offset + |ws[j].buf| <= trace[n].size[f]
    ensures trace[n].size[f] == 0 || exists j :: 0 <= j < n && ws[j].file == f && trace[n].size[f] == ws[j].offset + |ws[j].buf|
    decreases n
  {
    hide Overlaid;
    if n > 0 {
      SizeIsFurthest(trace, ws, n - 1, f);
      assert trace[n] == Applied(trace[n - 1], ws[n - 1]);
    }
  }
}

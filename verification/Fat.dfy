/** Reading file data along a FAT cluster chain, and the fixed FAT16 root directory. */
module Fat {
  import opened Arith

  type Byte = b: nat | b < 256 witness 0

  const SECTOR: nat := 512
  const WORD32: nat := 0x1_0000_0000
  const END_MARK: nat := 0x0FFF_FFFF

  /** A sector that is missing from `disk` cannot be read. */
  datatype Volume = Volume(disk: map<nat, seq<Byte>>, perCluster: nat, clusterSize: nat, firstData: nat, fat32: bool, fat: seq<nat>,
                           rootStart: nat, rootEntries: nat)

  ghost predicate Mounted(v: Volume) {
    && 0 < v.clusterSize && v.clusterSize == v.perCluster * SECTOR && (forall s :: s in v.disk ==> |v.disk[s]| == SECTOR)
    && forall i :: 0 <= i < |v.fat| ==> v.fat[i] < WORD32
  }

  // ----- the table -----

  function NextCluster(v: Volume, c: nat): nat {
    if c < |v.fat| then (if v.fat32 then v.fat[c] % 0x1000_0000 else v.fat[c]) else END_MARK
  }

  function IsEnd(v: Volume, c: nat): bool { c >= if v.fat32 then 0x0FFF_FFF8 else 0xFFF8 }

  /** Cluster numbers 0 and 1 are reserved; a number at the end mark or above ends a chain. */
  predicate HasData(v: Volume, c: nat) { 2 <= c && !IsEnd(v, c) }

  /** The chain goes on after a cluster exactly if the table has an entry for it that names a
      cluster; the top four bits of a FAT32 entry do not matter. */
  lemma GoesOnIff(v: Volume, c: nat)
    ensures HasData(v, NextCluster(v, c)) <==>
              c < |v.fat| && 2 <= (if v.fat32 then v.fat[c] % 0x1000_0000 else v.fat[c]) < if v.fat32 then 0x0FFF_FFF8 else 0xFFF8
    ensures |v.fat| <= c ==> IsEnd(v, NextCluster(v, c))
    ensures v.fat32 && c < |v.fat| ==> forall x: nat :: NextCluster(v.(fat := v.fat[c := v.fat[c] + 0x1000_0000 * x]), c) == NextCluster(v, c)
  {
    forall x: nat | v.fat32 && c < |v.fat|
      ensures NextCluster(v.(fat := v.fat[c := v.fat[c] + 0x1000_0000 * x]), c) == NextCluster(v, c)
    {
      ModShift(v.fat[c], x, 0x1000_0000);
    }
  }

  /** Cluster `k` of the chain that starts at `c`; 0 if the chain is shorter. */
  function ClusterAt(v: Volume, c: nat, k: nat): nat
    decreases k
  {
    if !HasData(v, c) then 0 else if k == 0 then c else ClusterAt(v, NextCluster(v, c), k - 1)
  }

  // ----- the data -----

  function SectorOf(v: Volume, c: nat, i: nat): nat
    requires 2 <= c
  {
    (v.firstData + (c - 2) * v.perCluster + i) % WORD32
  }

  /** Cluster 2 starts with the first data sector, and the clusters lie one behind the other:
      every data sector belongs to exactly one place of one cluster. */
  lemma ClustersTile(v: Volume, sector: nat, c: nat, i: nat)
    requires 0 < v.perCluster && v.firstData <= sector < 0x1_0000_0000 && 2 <= c && i < v.perCluster
    requires v.firstData + (c - 2) * v.perCluster + i < 0x1_0000_0000
    ensures SectorOf(v, c, i) == sector <==> c == 2 + (sector - v.firstData) / v.perCluster && i == (sector - v.firstData) % v.perCluster
    ensures SectorOf(v, 2, 0) == v.firstData && SectorOf(v, c, i) == SectorOf(v, c, 0) + i
  {
    SectorIs(v, c, i, (c - 2) * v.perCluster);
    SectorIs(v, c, 0, (c - 2) * v.perCluster);
    SectorIs(v, 2, 0, 0);
    PlaceIff(sector - v.firstData, v.perCluster, c - 2, i);
    hide *;
  }

  lemma SectorIs(v: Volume, c: nat, i: nat, k: nat)
    requires 2 <= c && k == (c - 2) * v.perCluster && v.firstData + k + i < WORD32
    ensures SectorOf(v, c, i) == v.firstData + k + i
  {
  }

  lemma PlaceIff(d: nat, n: nat, q: nat, r: nat)
    requires r < n
    ensures q * n + r == d <==> q == d / n && r == d % n
  {
    DivMod(d, n);
    if q * n + r == d {
      DivModUnique(d, n, q, r);
    }
  }

  predicate Readable(v: Volume, c: nat, o: nat) { 2 <= c && SectorOf(v, c, o / SECTOR) in v.disk }

  function ByteIn(v: Volume, c: nat, o: nat): Byte
    requires Readable(v, c, o) && |v.disk[SectorOf(v, c, o / SECTOR)]| == SECTOR
  {
    v.disk[SectorOf(v, c, o / SECTOR)][o % SECTOR]
  }

  /** Which cluster of the chain holds byte `pos`, and where in it. */
  function Whole(v: Volume, pos: nat): nat
    requires 0 < v.clusterSize
  {
    pos / v.clusterSize
  }

  function Rest(v: Volume, pos: nat): nat
    requires 0 < v.clusterSize
  {
    pos % v.clusterSize
  }

  lemma PartsAre(v: Volume, pos: nat, k: nat, r: nat)
    requires 0 < v.clusterSize && pos == k * v.clusterSize + r && r < v.clusterSize
    ensures Whole(v, pos) == k && Rest(v, pos) == r
  {
    DivModUnique(pos, v.clusterSize, k, r);
  }

  lemma Parts(v: Volume, pos: nat)
    requires 0 < v.clusterSize
    ensures pos == Whole(v, pos) * v.clusterSize + Rest(v, pos) && Rest(v, pos) < v.clusterSize
  {
  }

  /** Byte `pos` of the concatenated clusters is `b`. */
  ghost predicate ByteAt(v: Volume, start: nat, pos: nat, b: Byte)
    requires 0 < v.clusterSize
  {
    var c, o := ClusterAt(v, start, Whole(v, pos)), Rest(v, pos);
    Readable(v, c, o) && |v.disk[SectorOf(v, c, o / SECTOR)]| == SECTOR && b == ByteIn(v, c, o)
  }

  /** The chain has ended before byte `pos`. */
  ghost predicate PastEnd(v: Volume, start: nat, pos: nat)
    requires 0 < v.clusterSize
  {
    ClusterAt(v, start, Whole(v, pos)) == 0
  }

  /** `out` is the slice of the chain's data at `offset`: `size` bytes, or up to the chain's end. */
  ghost predicate IsSlice(v: Volume, start: nat, offset: nat, size: nat, out: seq<Byte>)
    requires 0 < v.clusterSize
  {
    && |out| <= size && (forall i :: 0 <= i < |out| ==> ByteAt(v, start, offset + i, out[i]))
    && (|out| < size ==> PastEnd(v, start, offset + |out|))
  }

  /** Byte `pos` of the chain exists but its sector cannot be read. */
  ghost predicate Unreadable(v: Volume, start: nat, pos: nat)
    requires 0 < v.clusterSize
  {
    !PastEnd(v, start, pos) && !Readable(v, ClusterAt(v, start, Whole(v, pos)), Rest(v, pos))
  }

  /** Every byte of the chain that the read asks for can be read. */
  ghost predicate DeviceOk(v: Volume, start: nat, offset: nat, size: nat)
    requires 0 < v.clusterSize
  {
    forall pos :: offset <= pos < offset + size ==> !Unreadable(v, start, pos)
  }

  /** Of the bytes asked for in the cluster that holds byte `pos`, one cannot be read. */
  ghost predicate Broken(v: Volume, start: nat, pos: nat, end: nat)
    requires 0 < v.clusterSize
  {
    exists p :: pos <= p < end && Whole(v, p) == Whole(v, pos) && Unreadable(v, start, p)
  }

  ghost predicate FromChain(v: Volume, start: nat, offset: nat, out: seq<Byte>)
    requires 0 < v.clusterSize
  {
    forall i :: 0 <= i < |out| ==> ByteAt(v, start, offset + i, out[i])
  }

  /** `out` is the slice, cut where the chain ends or where the first cluster begins of which a
      byte asked for cannot be read. */
  ghost predicate IsRead(v: Volume, start: nat, offset: nat, size: nat, out: seq<Byte>)
    requires 0 < v.clusterSize
  {
    && |out| <= size && FromChain(v, start, offset, out)
    && (|out| < size ==>
          || PastEnd(v, start, offset + |out|)
          || ((|out| == 0 || Rest(v, offset + |out|) == 0) && Broken(v, start, offset + |out|, offset + size)))
  }

  /** A read that went past byte `n` was not cut there. */
  lemma NotCutAt(v: Volume, start: nat, offset: nat, size: nat, b: seq<Byte>, n: nat)
    requires 0 < v.clusterSize && IsRead(v, start, offset, size, b) && n < |b|
    ensures !PastEnd(v, start, offset + n) && !Broken(v, start, offset + n, offset + size)
  {
    hide Whole;
    hide Rest;
    assert ByteAt(v, start, offset + n, b[n]);
    if |b| < size {
      WholeGrows(v, offset + n, offset + |b|);
    }
    forall p | offset + n <= p < offset + size && Whole(v, p) == Whole(v, offset + n)
      ensures !Unreadable(v, start, p)
    {
      WholeGrows(v, offset + |b|, if p < offset + |b| then offset + |b| else p);
      assert p < offset + |b|;
      assert ByteAt(v, start, offset + (p - offset), b[p - offset]);
    }
  }

  lemma WholeGrows(v: Volume, p: nat, q: nat)
    requires 0 < v.clusterSize && p <= q
    ensures Whole(v, p) <= Whole(v, q) && (p < q && Rest(v, q) == 0 ==> Whole(v, p) < Whole(v, q))
  {
    hide Whole;
    hide Rest;
    Parts(v, p);
    Parts(v, q);
    Distribute(Whole(v, q), 1, v.clusterSize);
    if Whole(v, q) < Whole(v, p) {
      MulMono(Whole(v, q) + 1, Whole(v, p), v.clusterSize);
      assert false;
    }
  }

  /** What a read returns is fully determined. */
  lemma ReadUnique(v: Volume, start: nat, offset: nat, size: nat, a: seq<Byte>, b: seq<Byte>)
    requires 0 < v.clusterSize && IsRead(v, start, offset, size, a) && IsRead(v, start, offset, size, b)
    ensures a == b
  {
    if |a| < |b| {
      NotCutAt(v, start, offset, size, b, |a|);
    }
    if |b| < |a| {
      NotCutAt(v, start, offset, size, a, |b|);
    }
    forall i | 0 <= i < |a|
      ensures a[i] == b[i]
    {
      assert ByteAt(v, start, offset + i, a[i]) && ByteAt(v, start, offset + i, b[i]);
    }
  }

  /** There is only one slice. */
  lemma SliceUnique(v: Volume, start: nat, offset: nat, size: nat, a: seq<Byte>, b: seq<Byte>)
    requires 0 < v.clusterSize && IsSlice(v, start, offset, size, a) && IsSlice(v, start, offset, size, b)
    ensures a == b
  {
    ReadUnique(v, start, offset, size, a, b);
  }

  /** If the device can read what is asked for, the whole slice is read and nothing else is. */
  lemma ReadIsSlice(v: Volume, start: nat, offset: nat, size: nat, out: seq<Byte>)
    requires 0 < v.clusterSize && DeviceOk(v, start, offset, size)
    ensures IsRead(v, start, offset, size, out) <==> IsSlice(v, start, offset, size, out)
  {
  }

  // ----- skipping -----

  /** The code's walk over `k` clusters; 0 if it gives up. It stops at 0 and at an end mark,
      but walks on from a reserved number. */
  function Skip(v: Volume, c: nat, k: nat): nat
    decreases k
  {
    if k == 0 then c
    else if IsEnd(v, c) || NextCluster(v, c) == 0 || IsEnd(v, NextCluster(v, c)) then 0
    else Skip(v, NextCluster(v, c), k - 1)
  }

  /** The walk passes over a reserved cluster number and arrives at a cluster with data. */
  predicate Strays(v: Volume, c: nat, k: nat) { ClusterAt(v, c, k) == 0 && HasData(v, Skip(v, c, k)) }

  /** A chain that runs into cluster number 1 ends there, yet the walk goes on to cluster 5. */
  lemma StrayExample(v: Volume)
    requires !v.fat32 && v.fat == [0xFFF8, 5, 1, 0, 0, 0xFFFF]
    ensures ClusterAt(v, 2, 2) == 0 && Skip(v, 2, 2) == 5 && Strays(v, 2, 2)
  {
    assert NextCluster(v, 2) == 1 && NextCluster(v, 1) == 5;
    assert ClusterAt(v, 1, 1) == 0;
    assert Skip(v, 1, 1) == Skip(v, 5, 0);
  }

  lemma {:induction false} SkipIs(v: Volume, c: nat, k: nat)
    ensures ClusterAt(v, c, k) != 0 ==> Skip(v, c, k) == ClusterAt(v, c, k) && HasData(v, Skip(v, c, k))
    ensures ClusterAt(v, c, k) == 0 && !Strays(v, c, k) ==> !HasData(v, Skip(v, c, k))
    decreases k
  {
    if k > 0 && HasData(v, c) {
      SkipIs(v, NextCluster(v, c), k - 1);
    }
  }

  lemma {:induction false} ChainOn(v: Volume, c: nat, k: nat, m: nat)
    requires ClusterAt(v, c, k) != 0
    ensures ClusterAt(v, ClusterAt(v, c, k), m) == ClusterAt(v, c, k + m)
    decreases k
  {
    if k > 0 {
      ChainOn(v, NextCluster(v, c), k - 1, m);
    }
  }

  /** From a cluster number that is not reserved, in a table without a link to cluster 1, the
      walk never strays. */
  lemma {:induction false} NoStray(v: Volume, start: nat, k: nat)
    requires 2 <= start && forall c: nat :: c < |v.fat| ==> NextCluster(v, c) != 1
    ensures !Strays(v, start, k)
    decreases k
  {
    if k > 0 && HasData(v, start) && NextCluster(v, start) != 0 && !IsEnd(v, NextCluster(v, start)) {
      NoStray(v, NextCluster(v, start), k - 1);
    }
  }

  // ----- reading -----

  ghost predicate BytesOf(v: Volume, c: nat, from: nat, out: seq<Byte>)
    requires Mounted(v)
  {
    forall i :: 0 <= i < |out| ==> IsByte(v, c, from + i, out[i])
  }

  ghost predicate IsByte(v: Volume, c: nat, o: nat, b: Byte)
    requires Mounted(v)
  {
    Readable(v, c, o) && b == ByteIn(v, c, o)
  }

  /** The bytes `from..from + n` of cluster `c`, sector by sector; nothing if a read fails. */
  method ReadChunk(v: Volume, c: nat, from: nat, n: nat) returns (ok: bool, out: seq<Byte>)
    requires Mounted(v) && 2 <= c && 0 < n
    ensures ok ==> |out| == n && BytesOf(v, c, from, out)
    ensures ok <==> forall o :: from <= o < from + n ==> Readable(v, c, o)
  {
    var first := from / SECTOR;
    var end := (from + n + SECTOR - 1) / SECTOR;
    out := [];
    for s := first to end
      invariant |out| == (if s == first then 0 else if s == end then n else s * SECTOR - from)
      invariant BytesOf(v, c, from, out)
    {
      if SectorOf(v, c, s) !in v.disk {
        ghost var o: nat := if s == first then from else s * SECTOR;
        assert o / SECTOR == s && from <= o < from + n && !Readable(v, c, o);
        return false, [];
      }
      var buf := v.disk[SectorOf(v, c, s)];
      var lo := if s == first then from % SECTOR else 0;
      var hi := if s == end - 1 then (from + n) % SECTOR else SECTOR;
      if hi == 0 {
        hi := SECTOR;
      }
      SectorBounds(from, n, first, end, s, lo, hi, |out|);
      MoreBytes(v, c, from, out, s, lo, hi);
      out := out + buf[lo..hi];
    }
    forall o | from <= o < from + n
      ensures Readable(v, c, o)
    {
      assert IsByte(v, c, from + (o - from), out[o - from]);
    }
    ok := true;
  }

  lemma MoreBytes(v: Volume, c: nat, from: nat, out: seq<Byte>, s: nat, lo: nat, hi: nat)
    requires Mounted(v) && 2 <= c && BytesOf(v, c, from, out) && SectorOf(v, c, s) in v.disk
    requires lo <= hi <= SECTOR && from + |out| == s * SECTOR + lo
    ensures BytesOf(v, c, from, out + v.disk[SectorOf(v, c, s)][lo..hi])
  {
    var more := out + v.disk[SectorOf(v, c, s)][lo..hi];
    forall i | 0 <= i < |more|
      ensures IsByte(v, c, from + i, more[i])
    {
      if i < |out| {
        assert IsByte(v, c, from + i, out[i]);
      } else {
        InSector(from + i, s, lo + (i - |out|));
      }
    }
  }

  lemma SectorBounds(from: nat, n: nat, first: nat, end: nat, s: nat, lo: nat, hi: nat, done: nat)
    requires 0 < n && first == from / SECTOR && end == (from + n + SECTOR - 1) / SECTOR && first <= s < end
    requires lo == if s == first then from % SECTOR else 0
    requires hi == (if s == end - 1 && (from + n) % SECTOR != 0 then (from + n) % SECTOR else SECTOR)
    requires done == if s == first then 0 else s * SECTOR - from
    ensures lo <= hi <= SECTOR && from + done == s * SECTOR + lo
    ensures done + (hi - lo) == if s + 1 == end then n else (s + 1) * SECTOR - from
  {
  }

  lemma InSector(pos: nat, s: nat, i: nat)
    requires pos == s * SECTOR + i && i < SECTOR
    ensures pos / SECTOR == s && pos % SECTOR == i
  {
  }

  /** Walks over whole clusters until `offset` lies in the current one. */
  method SkipClusters(v: Volume, start: nat, offset: nat) returns (current: nat, within: nat)
    requires Mounted(v)
    ensures current == Skip(v, start, Whole(v, offset)) || (current == 0 && !HasData(v, Skip(v, start, Whole(v, offset))))
    ensures within == Rest(v, offset)
  {
    var size := v.perCluster * SECTOR;
    current, within := start, offset;
    ghost var k := 0;
    while within >= size
      invariant within + k * size == offset && Skip(v, start, offset / size) == Skip(v, current, within / size)
      decreases within
    {
      DropOne(within, size);
      var next := NextCluster(v, current);
      if IsEnd(v, current) || next == 0 || IsEnd(v, next) {
        return 0, offset % size;
      }
      current := next;
      within := within - size;
      Distribute(k, 1, size);
      k := k + 1;
    }
    DivModUnique(offset, size, k, within);
    DivModUnique(within, size, 0, within);
  }

  lemma DropOne(x: nat, d: nat)
    requires 0 < d <= x
    ensures x / d == (x - d) / d + 1
  {
    var q, r := (x - d) / d, (x - d) % d;
    assert x - d == q * d + r;
    Distribute(q, 1, d);
    DivModUnique(x, d, q + 1, r);
  }

  /** Reads on from byte `within` of cluster `start`, following the chain. */
  method ReadOn(v: Volume, start: nat, within: nat, size: nat) returns (out: seq<Byte>)
    requires Mounted(v) && within < v.clusterSize
    ensures IsRead(v, start, within, size, out)
  {
    hide Whole;
    hide Rest;
    hide ByteAt;
    hide BytesOf;
    hide Broken;
    var clusterSize := v.perCluster * SECTOR;
    var current: nat, skip: nat := start, within;
    out := [];
    ghost var m := 0;
    while |out| < size
      invariant |out| <= size && FromChain(v, start, within, out)
      invariant ClusterAt(v, start, m) == if HasData(v, current) then current else 0
      invariant skip < clusterSize && (|out| < size ==> within + |out| == m * clusterSize + skip)
      invariant |out| == 0 || skip == 0
      decreases size - |out|
    {
      PartsAre(v, within + |out|, m, skip);
      if current < 2 || IsEnd(v, current) {
        return;
      }
      var chunk := clusterSize - skip;
      if chunk > size - |out| {
        chunk := size - |out|;
      }
      var ok, bytes := ReadChunk(v, current, skip, chunk);
      if !ok {
        ghost var o :| skip <= o < skip + chunk && !Readable(v, current, o);
        BrokenHere(v, start, m, current, within + |out|, skip, o, within + size);
        return;
      }
      ChainBytes(v, start, m, current, within, out, skip, bytes);
      out := out + bytes;
      ChainOn(v, start, m, 1);
      Distribute(m, 1, clusterSize);
      current := NextCluster(v, current);
      skip := 0;
      m := m + 1;
    }
  }

  lemma BrokenHere(v: Volume, start: nat, m: nat, c: nat, pos: nat, skip: nat, o: nat, end: nat)
    requires Mounted(v) && ClusterAt(v, start, m) == c != 0 && pos == m * v.clusterSize + skip
    requires skip <= o < v.clusterSize && pos + (o - skip) < end && !Readable(v, c, o)
    ensures Broken(v, start, pos, end)
  {
    hide Whole;
    hide Rest;
    PartsAre(v, pos, m, skip);
    PartsAre(v, pos + (o - skip), m, o);
    assert Unreadable(v, start, pos + (o - skip));
  }

  /** A chunk of cluster `m` continues the data of the chain. */
  lemma ChainBytes(v: Volume, start: nat, m: nat, c: nat, within: nat, out: seq<Byte>, skip: nat, bytes: seq<Byte>)
    requires Mounted(v) && HasData(v, c) && ClusterAt(v, start, m) == c && FromChain(v, start, within, out)
    requires within + |out| == m * v.clusterSize + skip && skip + |bytes| <= v.clusterSize && BytesOf(v, c, skip, bytes)
    ensures FromChain(v, start, within, out + bytes)
  {
    hide Whole;
    hide Rest;
    hide ByteAt;
    var more := out + bytes;
    forall i | 0 <= i < |more|
      ensures ByteAt(v, start, within + i, more[i])
    {
      if i < |out| {
        assert ByteAt(v, start, within + i, out[i]);
      } else {
        assert IsByte(v, c, skip + (i - |out|), bytes[i - |out|]);
        ChainByte(v, start, m, c, skip + (i - |out|), within + i, more[i]);
      }
    }
  }

  lemma ChainByte(v: Volume, start: nat, m: nat, c: nat, o: nat, pos: nat, b: Byte)
    requires Mounted(v) && ClusterAt(v, start, m) == c && o < v.clusterSize && pos == m * v.clusterSize + o && IsByte(v, c, o, b)
    ensures ByteAt(v, start, pos, b)
  {
    hide Whole;
    hide Rest;
    PartsAre(v, pos, m, o);
  }

  /** Byte `pos` counted from `offset` on is byte `pos` of the rest of the chain. */
  lemma Rebase(v: Volume, start: nat, offset: nat, i: nat)
    requires 0 < v.clusterSize && ClusterAt(v, start, Whole(v, offset)) != 0
    ensures var c := ClusterAt(v, start, Whole(v, offset)); var w := Rest(v, offset);
            && ClusterAt(v, start, Whole(v, offset + i)) == ClusterAt(v, c, Whole(v, w + i))
            && Rest(v, offset + i) == Rest(v, w + i) && Whole(v, offset + i) == Whole(v, offset) + Whole(v, w + i)
  {
    hide Whole;
    hide Rest;
    var k, w := Whole(v, offset), Rest(v, offset);
    Parts(v, offset);
    Parts(v, w + i);
    var q, r := Whole(v, w + i), Rest(v, w + i);
    Distribute(k, q, v.clusterSize);
    PartsAre(v, offset + i, k + q, r);
    ChainOn(v, start, k, q);
  }

  /** Reading on from the cluster that holds byte `offset` is reading the chain from there. */
  lemma RebaseRead(v: Volume, start: nat, offset: nat, size: nat, out: seq<Byte>)
    requires 0 < v.clusterSize && ClusterAt(v, start, Whole(v, offset)) != 0
    requires IsRead(v, ClusterAt(v, start, Whole(v, offset)), Rest(v, offset), size, out)
    ensures IsRead(v, start, offset, size, out)
  {
    hide Whole;
    hide Rest;
    var c, w := ClusterAt(v, start, Whole(v, offset)), Rest(v, offset);
    forall i | 0 <= i < |out|
      ensures ByteAt(v, start, offset + i, out[i])
    {
      Rebase(v, start, offset, i);
      assert ByteAt(v, c, w + i, out[i]);
    }
    Rebase(v, start, offset, |out|);
    if |out| < size && !PastEnd(v, c, w + |out|) {
      var p :| w + |out| <= p < w + size && Whole(v, p) == Whole(v, w + |out|) && Unreadable(v, c, p);
      Rebase(v, start, offset, p - w);
      assert Unreadable(v, start, offset + (p - w));
    }
  }

  /** Reads `size` bytes at `offset` of the chain that starts at `start`. The result is the slice
      of the concatenated clusters, cut at the chain's end or before the first cluster that
      cannot be read; but a walk that strays goes on to read the chain it has strayed to. */
  method ReadFromChain(v: Volume, start: nat, offset: nat, size: nat) returns (out: seq<Byte>)
    requires Mounted(v)
    ensures size == 0 || !Strays(v, start, Whole(v, offset)) ==> IsRead(v, start, offset, size, out)
    ensures size > 0 && Strays(v, start, Whole(v, offset)) ==>
              IsRead(v, Skip(v, start, Whole(v, offset)), Rest(v, offset), size, out)
    ensures DeviceOk(v, Skip(v, start, Whole(v, offset)), Rest(v, offset), size) ==>
              (IsRead(v, start, offset, size, out) <==> size == 0 || !Strays(v, start, Whole(v, offset)))
    ensures DeviceOk(v, start, offset, size) && !Strays(v, start, Whole(v, offset)) ==> IsSlice(v, start, offset, size, out)
  {
    hide Whole;
    hide Rest;
    hide ByteAt;
    hide Broken;
    hide Unreadable;
    if size == 0 {
      return [];
    }
    Parts(v, offset);
    var current, within := SkipClusters(v, start, offset);
    out := ReadOn(v, current, within, size);
    ghost var k := Whole(v, offset);
    SkipIs(v, start, k);
    if ClusterAt(v, start, k) != 0 {
      RebaseRead(v, start, offset, size, out);
    } else {
      Stranded(v, start, offset, size, current, within, out);
    }
    if DeviceOk(v, start, offset, size) {
      ReadIsSlice(v, start, offset, size, out);
    }
  }

  /** The chain has ended before `offset`: nothing is read, or the walk strayed. */
  lemma Stranded(v: Volume, start: nat, offset: nat, size: nat, current: nat, within: nat, out: seq<Byte>)
    requires Mounted(v) && 0 < size && ClusterAt(v, start, Whole(v, offset)) == 0 && within < v.clusterSize
    requires IsRead(v, current, within, size, out)
    ensures !HasData(v, current) ==> IsRead(v, start, offset, size, out)
    ensures HasData(v, current) && DeviceOk(v, current, within, size) ==> !IsRead(v, start, offset, size, out)
  {
    hide Whole;
    hide Rest;
    PartsAre(v, within, 0, within);
    assert PastEnd(v, start, offset + 0);
    if out != [] {
      assert ByteAt(v, current, within + 0, out[0]);
      assert !ByteAt(v, start, offset + 0, out[0]);
    }
  }

  // ----- the FAT16 root directory -----

  function RootByte(v: Volume, pos: nat): nat { (v.rootStart + pos / SECTOR) % WORD32 }

  ghost predicate IsRootByte(v: Volume, pos: nat, b: Byte)
    requires Mounted(v)
  {
    RootByte(v, pos) in v.disk && b == v.disk[RootByte(v, pos)][pos % SECTOR]
  }

  ghost predicate RootSlice(v: Volume, offset: nat, out: seq<Byte>)
    requires Mounted(v)
  {
    forall i :: 0 <= i < |out| ==> IsRootByte(v, offset + i, out[i])
  }

  /** Reads the fixed root directory, cut at its size; stops at a sector that cannot be read. */
  method ReadFat16Root(v: Volume, offset: nat, size: nat) returns (out: seq<Byte>)
    requires Mounted(v)
    ensures RootSlice(v, offset, out) && |out| <= size && (|out| > 0 ==> offset + |out| <= v.rootEntries * 32)
    ensures |out| == size || offset + |out| >= v.rootEntries * 32 || RootByte(v, offset + |out|) !in v.disk
  {
    out := [];
    var rootSize := v.rootEntries * 32;
    if offset >= rootSize {
      return;
    }
    var want := if offset + size > rootSize then rootSize - offset else size;
    var sector: nat, from: nat := offset / SECTOR, offset % SECTOR;
    while |out| < want
      invariant |out| <= want && RootSlice(v, offset, out)
      invariant from < SECTOR && (|out| < want ==> offset + |out| == sector * SECTOR + from)
      decreases want - |out|
    {
      InSector(offset + |out|, sector, from);
      if (v.rootStart + sector) % WORD32 !in v.disk {
        return;
      }
      var buf := v.disk[(v.rootStart + sector) % WORD32];
      var chunk := SECTOR - from;
      if chunk > want - |out| {
        chunk := want - |out|;
      }
      MoreRoot(v, offset, out, sector, from, chunk);
      out := out + buf[from..from + chunk];
      sector := sector + 1;
      from := 0;
    }
  }

  lemma MoreRoot(v: Volume, offset: nat, out: seq<Byte>, sector: nat, from: nat, chunk: nat)
    requires Mounted(v) && RootSlice(v, offset, out) && (v.rootStart + sector) % WORD32 in v.disk
    requires offset + |out| == sector * SECTOR + from && from + chunk <= SECTOR
    ensures RootSlice(v, offset, out + v.disk[(v.rootStart + sector) % WORD32][from..from + chunk])
  {
    var more := out + v.disk[(v.rootStart + sector) % WORD32][from..from + chunk];
    forall i | 0 <= i < |more|
      ensures IsRootByte(v, offset + i, more[i])
    {
      if i >= |out| {
        InSector(offset + i, sector, from + (i - |out|));
      } else {
        assert IsRootByte(v, offset + i, out[i]);
      }
    }
  }
}

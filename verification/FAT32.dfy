/**
 Reading files of the bootloader's FAT32 driver (FAT Data Structure in Microsoft's FAT32 File System
 Specification 1.03), over a disk whose reads succeed.
 */
module FAT32 {
  import opened Bits

  const U16: nat := 0x1_0000
  const ENTRIES: nat := 128                 // entries in a sector of 512 bytes
  const CLUSTER_MASK: nat := 0x1000_0000    // entries have 28 bits
  const CLUSTER_LAST: nat := 0x0FFF_FFF8
  const FAT32_CLUSTER_END: nat := 0xFFFF_FFFF
  const FAT_SEEK_BEGINNING: nat := 0
  const FAT_SEEK_CURRENT: nat := 1

  type Byte = bv8

  /** What is on the disk: the file allocation table from sector fsFat on, and the data of each cluster. */
  datatype Disk = Disk(fsFat: nat, fat: seq<nat>, data: seq<seq<Byte>>, bytesPerCluster: nat)

  /** A disk the driver can work on: whole sectors of entries behind a reserved one, clusters of one size. */
  ghost predicate Sane(d: Disk) {
    && d.fsFat > 0 && |d.fat| % ENTRIES == 0 && |d.fat| <= CLUSTER_MASK
    && 0 < d.bytesPerCluster < U16 && |d.data| == |d.fat|
    && forall c | 0 <= c < |d.data| :: |d.data[c]| == d.bytesPerCluster
  }

  /** The i-th sector of the table. */
  function Sector(d: Disk, i: nat): seq<nat>
    requires (i + 1) * ENTRIES <= |d.fat|
  {
    d.fat[i * ENTRIES..(i + 1) * ENTRIES]
  }

  /** The entry of cluster c is where its byte offset, four times c, says. */
  lemma EntryPlace(d: Disk, c: nat, index: nat, entry: nat)
    requires |d.fat| % ENTRIES == 0 && c < |d.fat| && index == c * 4 / 512 && entry == (c * 4 % 512) / 4
    ensures (index + 1) * ENTRIES <= |d.fat| && entry < ENTRIES && Sector(d, index)[entry] == d.fat[c]
  {
    assert index == c / ENTRIES && entry == c % ENTRIES;
  }

  /** The cluster after c, or the end mark. */
  function Next(d: Disk, c: nat): nat
    requires c < |d.fat|
  {
    var v := d.fat[c] % CLUSTER_MASK;
    if v >= CLUSTER_LAST then FAT32_CLUSTER_END else v
  }

  /** The lower 28 bits of an entry. */
  function Low28(d: Disk, c: nat): nat
    requires c < |d.fat|
  {
    d.fat[c] % 0x1000_0000
  }

  /** The table links a chain: the lower 28 bits of an entry hold the next cluster, those of the last one an end mark. */
  ghost predicate Links(d: Disk, chain: seq<nat>) {
    && chain != [] && (forall i | 0 <= i < |chain| :: chain[i] < |d.fat|)
    && (forall i | 0 < i < |chain| :: chain[i] < 0x0FFF_FFF8) && (forall i | 0 <= i < |chain| - 1 :: Low28(d, chain[i]) == chain[i + 1])
    && 0x0FFF_FFF8 <= Low28(d, chain[|chain| - 1])
  }

  /**
   Following the clusters from the first one visits the chain and then meets the end, 0xFFFFFFFF, if and only
   if the table links it so; the upper four bits of the entries do not matter.
   */
  lemma FollowsExactly(d: Disk, chain: seq<nat>)
    requires chain != [] && forall i | 0 <= i < |chain| :: chain[i] < |d.fat| <= 0x0FFF_FFF8
    ensures Links(d, chain) <==>
      && (forall i | 0 <= i < |chain| - 1 :: Next(d, chain[i]) == chain[i + 1])
      && Next(d, chain[|chain| - 1]) == 0xFFFF_FFFF
  {
    forall i | 0 <= i < |chain| - 1 ensures Next(d, chain[i]) == chain[i + 1] <==> Low28(d, chain[i]) == chain[i + 1] {
      assert chain[i + 1] < |d.fat|;
    }
  }

  /** The bytes of n clusters. */
  function Span(n: nat, b: nat): nat {
    if n == 0 then 0 else Span(n - 1, b) + b
  }

  /** The clusters of a file in order, and its size. */
  ghost predicate Chain(d: Disk, chain: seq<nat>, fileSize: nat) {
    && Sane(d) && fileSize < U32 && fileSize <= Span(|chain|, d.bytesPerCluster)
    && (forall i | 0 <= i < |chain| :: 2 <= chain[i] < |d.data|)
    && (forall i | 0 <= i < |chain| - 1 :: Next(d, chain[i]) == chain[i + 1])
  }

  /** The clusters of a chain put together. */
  function Bytes(d: Disk, chain: seq<nat>): (r: seq<Byte>)
    requires forall i | 0 <= i < |chain| :: chain[i] < |d.data|
  {
    if chain == [] then [] else Bytes(d, chain[..|chain| - 1]) + d.data[chain[|chain| - 1]]
  }

  lemma {:induction false} BytesLength(d: Disk, chain: seq<nat>)
    requires Sane(d) && forall i | 0 <= i < |chain| :: chain[i] < |d.data|
    ensures |Bytes(d, chain)| == Span(|chain|, d.bytesPerCluster)
  {
    if chain != [] { BytesLength(d, chain[..|chain| - 1]); }
  }

  /** Offset o of the i-th cluster is byte Span(i, b) + o of the file. */
  lemma {:induction false} Located(d: Disk, chain: seq<nat>, i: nat, o: nat)
    requires Sane(d) && (forall i | 0 <= i < |chain| :: chain[i] < |d.data|) && i < |chain| && o < d.bytesPerCluster
    ensures var p := Span(i, d.bytesPerCluster) + o;
      p < |Bytes(d, chain)| && Bytes(d, chain)[p] == d.data[chain[i]][o]
  {
    var rest := chain[..|chain| - 1];
    BytesLength(d, rest);
    if i < |rest| { Located(d, rest, i, o); }
  }

  lemma {:induction false} SpanIsProduct(n: nat, b: nat)
    ensures Span(n, b) == n * b
  {
    if n > 0 {
      SpanIsProduct(n - 1, b);
      assert n * b == (n - 1) * b + b;
    }
  }

  lemma ClusterOf(p: nat, n: nat, b: nat)
    requires b > 0 && p < Span(n, b)
    ensures p / b < n && p == Span(p / b, b) + p % b
  {
    SpanIsProduct(n, b);
    SpanIsProduct(p / b, b);
    var e := n - p / b;
    assert e * b == n * b - (p / b) * b;
    assert p == (p / b) * b + p % b;
    NonzeroMultiple(e - 1, b);
  }

  lemma {:induction false} SpanMono(i: nat, j: nat, b: nat)
    requires i <= j
    ensures Span(i, b) <= Span(j, b)
  {
    if i < j { SpanMono(i, j - 1, b); }
  }

  lemma {:induction false} SpanSum(i: nat, j: nat, b: nat)
    ensures Span(i + j, b) == Span(i, b) + Span(j, b)
  {
    if j > 0 { SpanSum(i, j - 1, b); }
  }

  /** The driver's FAT cache of one sector. */
  class FatCache {
    const disk: Disk
    const table: array<nat>
    var currentFATSector: nat

    constructor (disk: Disk)
      requires Sane(disk)
      ensures Valid() && fresh(table) && this.disk == disk
    {
      this.disk, currentFATSector := disk, 0;
      table := new nat[ENTRIES](_ => 0);
    }

    /** Sector number 0 means that nothing is loaded; else the table equals the disk sector it names. */
    ghost predicate Valid()
      reads this, table
    {
      && Sane(disk) && table.Length == ENTRIES
      && (currentFATSector != 0 ==>
            && disk.fsFat <= currentFATSector && (currentFATSector - disk.fsFat + 1) * ENTRIES <= |disk.fat|
            && table[..] == Sector(disk, currentFATSector - disk.fsFat))
    }

    /** getNextCluster */
    method GetNextCluster(c: nat) returns (next: nat)
      requires Valid() && c < |disk.fat|
      modifies this, table
      ensures Valid() && next == Next(disk, c)
    {
      var index, entry := c * 4 / 512, (c * 4 % 512) / 4;
      EntryPlace(disk, c, index, entry);
      var sector := disk.fsFat + index;
      if sector != currentFATSector {
        LoadSector(index);
        currentFATSector := sector;
      }
      assert table[entry] == table[..][entry];
      var value := table[entry] % CLUSTER_MASK;
      next := if value >= CLUSTER_LAST then FAT32_CLUSTER_END else value;
    }

    /** Read a sector of the table from the disk. */
    method LoadSector(i: nat)
      requires table.Length == ENTRIES && (i + 1) * ENTRIES <= |disk.fat|
      modifies table
      ensures table[..] == Sector(disk, i)
    {
      forall k | 0 <= k < ENTRIES { table[k] := disk.fat[i * ENTRIES + k]; }
    }
  }

  /** FILE, with the cluster buffer that belongs to it; `index` is the buffered cluster's place in the chain. */
  class File {
    const cache: FatCache
    const fileSize: nat
    const firstCluster: nat
    ghost const chain: seq<nat>
    var position: nat
    var clusterPosition: nat
    var currentCluster: nat
    var buffer: seq<Byte>
    var closed: bool
    ghost var index: nat

    /** The position fields of an opened file. */
    constructor (cache: FatCache, fileSize: nat, firstCluster: nat, ghost chain: seq<nat>)
      requires cache.Valid() && Chain(cache.disk, chain, fileSize) && chain != [] && chain[0] == firstCluster
      ensures Placed() && position == 0 && !closed
      ensures this.cache == cache && this.fileSize == fileSize && this.firstCluster == firstCluster && this.chain == chain
    {
      this.cache, this.fileSize, this.firstCluster, this.chain := cache, fileSize, firstCluster, chain;
      position, clusterPosition, currentCluster := 0, 0, firstCluster;
      buffer := cache.disk.data[firstCluster];
      closed, index := false, 0;
    }

    ghost predicate Known()
      reads cache, cache.table
    {
      cache.Valid() && Chain(cache.disk, chain, fileSize) && chain != [] && chain[0] == firstCluster
    }

    /** The buffer holds the current cluster, the one the chain has at `index`. */
    ghost predicate Loaded()
      reads this, cache, cache.table
    {
      && Known() && index < |chain| && currentCluster == chain[index] && buffer == cache.disk.data[currentCluster]
      && clusterPosition <= cache.disk.bytesPerCluster
    }

    /** The three position fields agree. */
    ghost predicate Placed()
      reads this, cache, cache.table
    {
      Loaded() && position == Span(index, cache.disk.bytesPerCluster) + clusterPosition
    }

    /** They agree, but the current cluster may have lost its upper bits: enough to read on within it. */
    ghost predicate Buffered()
      reads this, cache, cache.table
    {
      && Known() && index < |chain| && (currentCluster == chain[index] || currentCluster == chain[index] % U16)
      && buffer == cache.disk.data[chain[index]] && clusterPosition <= cache.disk.bytesPerCluster
      && position == Span(index, cache.disk.bytesPerCluster) + clusterPosition
    }

    /** Every cluster number fits the 16 bits FAT32_getc keeps of it. */
    ghost predicate Small() {
      forall i | 0 <= i < |chain| :: chain[i] < U16
    }

    /** So do the clusters after the first one that are left again before position `end`. */
    ghost predicate Passable(first: nat, end: nat)
      reads cache
    {
      forall i | first < i < |chain| && Span(i + 1, cache.disk.bytesPerCluster) < end :: chain[i] < U16
    }

    /** FAT32_isEOF */
    predicate IsEOF()
      reads this
    {
      position > fileSize
    }

    /** loadNextCluster: the buffer gets the data of the cluster after the current one. */
    method LoadNextCluster() returns (next: nat)
      requires Known() && index + 1 < |chain| && currentCluster == chain[index]
      modifies this`buffer, cache, cache.table
      ensures Known() && next == chain[index + 1] && buffer == cache.disk.data[next]
    {
      assert Next(cache.disk, chain[index]) == chain[index + 1];
      next := cache.GetNextCluster(currentCluster);
      if next == FAT32_CLUSTER_END { return; }
      buffer := cache.disk.data[next];
    }

    /** The file: as many bytes of its clusters as its size says. */
    ghost function Contents(): (r: seq<Byte>)
      requires Known()
      reads cache, cache.table
      ensures |r| == fileSize
    {
      BytesLength(cache.disk, chain);
      Bytes(cache.disk, chain)[..fileSize]
    }

    /** The buffered byte at offset o is the file's byte at that place. */
    lemma Here(o: nat, p: nat)
      requires Known() && index < |chain| && o < cache.disk.bytesPerCluster && p < fileSize
      requires p == Span(index, cache.disk.bytesPerCluster) + o
      ensures Contents()[p] == cache.disk.data[chain[index]][o]
    {
      Located(cache.disk, chain, index, o);
    }

    lemma NextInChain(i: nat, b: nat, n: nat, p: nat)
      requires b > 0 && p == Span(i, b) + b && p < Span(n, b)
      ensures i + 1 < n && p == Span(i + 1, b)
    {
      if n <= i + 1 { SpanMono(n, i + 1, b); }
    }

    /**
     FAT32_getc. Within the file it returns the next byte. The cluster it moves to is kept in 16 bits,
     so the fields stay in place exactly when that cluster's number fits; the end and error marks
     never fit and are not recognised. Only leaving a cluster needs its number.
     */
    method Getc() returns (c: Byte)
      requires Buffered() && position <= fileSize
      requires clusterPosition == cache.disk.bytesPerCluster && position < fileSize ==> currentCluster == chain[index]
      modifies this, cache, cache.table
      ensures Known() && closed == old(closed)
      ensures closed ==> c == 0 && Buffered() && position == old(position) && index == old(index) && currentCluster == old(currentCluster)
      ensures !closed ==> position == old(position) + 1
      ensures !closed && old(position) == fileSize ==> c == 0
      ensures !closed && old(position) < fileSize ==>
        && Buffered() && c == Contents()[old(position)]
        && (if old(clusterPosition) == cache.disk.bytesPerCluster
            then index == old(index) + 1 && (Placed() <==> chain[index] < U16)
            else index == old(index) && currentCluster == old(currentCluster))
    {
      if closed { return 0; }
      position, clusterPosition := position + 1, clusterPosition + 1;
      if position > fileSize { return 0; }
      if clusterPosition > cache.disk.bytesPerCluster {
        c := FirstOfNext();
      } else {
        Here(clusterPosition - 1, position - 1);
        c := buffer[clusterPosition - 1];
      }
    }

    /** The end of FAT32_getc past the end of a cluster. */
    method FirstOfNext() returns (c: Byte)
      requires Known() && index < |chain| && currentCluster == chain[index] && buffer == cache.disk.data[currentCluster]
      requires var b := cache.disk.bytesPerCluster; clusterPosition == b + 1 && 0 < position <= fileSize && position - 1 == Span(index, b) + b
      modifies this, cache, cache.table
      ensures Known() && closed == old(closed) && position == old(position) && index == old(index) + 1 < |chain|
      ensures Buffered() && c == Contents()[position - 1] && (Placed() <==> chain[index] < U16)
    {
      NextInChain(index, cache.disk.bytesPerCluster, |chain|, position - 1);
      var next := LoadNextCluster();
      clusterPosition, currentCluster := 1, next % U16;
      index := index + 1;
      Here(0, position - 1);
      c := buffer[clusterPosition - 1];
    }

    /** The number of bytes a read of `size` gets before the end of the file. */
    ghost function Readable(size: nat): nat
      requires position <= fileSize
      reads this
    {
      if position + size <= fileSize then size else fileSize - position
    }

    /**
     FAT32_read: the bytes of the file from the position on; a read that runs into the end of the file
     leaves a null after them and stops there. Clusters that are gone through and left must have 16-bit
     numbers; the first and the last one need not. Afterwards the fields are in place exactly if the last
     one is the first one or has a 16-bit number.
     */
    method Read(dst: array<Byte>, size: nat) returns (ok: bool)
      requires Placed() && position <= fileSize && Passable(index, position + Readable(size)) && size <= dst.Length && dst as object != cache.table as object
      modifies this, cache, cache.table, dst
      ensures Known() && ok == !old(closed) && closed == old(closed)
      ensures closed ==> Placed() && position == old(position) && dst[..] == old(dst[..])
      ensures !closed ==>
        var n := old(Readable(size));
        && dst[..n] == Contents()[old(position)..old(position) + n]
        && (n == size ==>
              && Buffered() && position == old(position) + n && (Placed() <==> index == old(index) || chain[index] < U16)
              && forall q | n <= q < dst.Length :: dst[q] == old(dst[q]))
        && (n < size ==> dst[n] == 0 && position == fileSize + 1 && forall q | n < q < dst.Length :: dst[q] == old(dst[q]))
    {
      ok := !closed;
      if ok { ReadBytes(dst, size); }
    }

    /** The loop of FAT32_read. */
    method ReadBytes(dst: array<Byte>, size: nat)
      requires Placed() && !closed && position <= fileSize && Passable(index, position + Readable(size))
      requires size <= dst.Length && dst as object != cache.table as object
      modifies this, cache, cache.table, dst
      ensures Known() && !closed
      ensures var n := old(Readable(size));
        && dst[..n] == Contents()[old(position)..old(position) + n]
        && (n == size ==> Buffered() && InStep(old(index)) && position == old(position) + n)
        && (n < size ==> dst[n] == 0 && position == fileSize + 1)
        && forall q | (if n < size then n < q else n <= q) && q < dst.Length :: dst[q] == old(dst[q])
    {
      ghost var p, first, end, file := position, index, position + Readable(size), Contents();
      for i := 0 to size
        invariant Buffered() && !closed && position == p + i <= fileSize && InStep(first)
        invariant Contents() == file && forall q | 0 <= q < i :: dst[q] == file[p + q]
        invariant forall q | i <= q < dst.Length :: dst[q] == old(dst[q])
      {
        var c := NextByte(first, end);
        dst[i] := c;
        if IsEOF() { return; }
      }
    }

    /** The current cluster is the first one, or its number is known exactly if it fits. */
    ghost predicate InStep(first: nat)
      requires Buffered()
      reads this, cache, cache.table
    {
      first <= index && (currentCluster == chain[index] <==> index == first || chain[index] < U16)
    }

    /** One byte of a read up to position `end`. */
    method NextByte(ghost first: nat, ghost end: nat) returns (c: Byte)
      requires Buffered() && position <= fileSize && !closed && InStep(first) && (position < fileSize ==> position < end)
      requires Passable(first, end)
      modifies this, cache, cache.table
      ensures Known() && !closed && position == old(position) + 1
      ensures old(position) == fileSize ==> c == 0
      ensures old(position) < fileSize ==> Buffered() && InStep(first) && c == Contents()[old(position)]
    {
      if clusterPosition == cache.disk.bytesPerCluster && position < fileSize {
        assert position == Span(index + 1, cache.disk.bytesPerCluster);
      }
      c := Getc();
    }

    /** FAT32_seek. */
    method Seek(value: nat, mode: nat) returns (ok: bool)
      requires Placed() && position + value < U32
      modifies this, cache, cache.table
      ensures Known() && closed == old(closed)
      ensures ok <==> (mode == FAT_SEEK_CURRENT && old(position) + value < fileSize) || (mode == FAT_SEEK_BEGINNING && value < fileSize)
      ensures !ok ==> Placed() && position == old(position) && index == old(index) && clusterPosition == old(clusterPosition)
      ensures ok ==> position == old(position) + value
      ensures ok && mode == FAT_SEEK_CURRENT ==> Placed()
      ensures ok && mode == FAT_SEEK_BEGINNING ==> At(value) && (Placed() <==> old(position) == 0)
    {
      if mode == FAT_SEEK_CURRENT {
        ok := SeekCurrent(value);
      } else if mode == FAT_SEEK_BEGINNING {
        ok := SeekBeginning(value);
      } else {
        ok := false;
      }
    }

    /** The cluster fields are those of position p, whatever `position` says. */
    ghost predicate At(p: nat)
      reads this, cache, cache.table
    {
      Loaded() && clusterPosition < cache.disk.bytesPerCluster && p == Span(index, cache.disk.bytesPerCluster) + clusterPosition
    }

    /** Walk n clusters on from the i-th one. */
    method Walk(start: nat, n: nat, ghost i: nat) returns (ok: bool, c: nat)
      requires Known() && i + n < |chain| && start == chain[i]
      modifies cache, cache.table
      ensures Known() && ok && c == chain[i + n]
    {
      c := start;
      for k := 0 to n
        invariant Known() && c == chain[i + k]
      {
        assert Next(cache.disk, chain[i + k]) == chain[i + k + 1];
        c := cache.GetNextCluster(c);
        if c == FAT32_CLUSTER_END { return false, c; }
      }
      ok := true;
    }

    /** Where a seek lands: offset `to` counted from the start of cluster i, within the chain. */
    lemma Landing(i: nat, to: nat, b: nat, n: nat)
      requires b > 0 && Span(i, b) + to < Span(n, b)
      ensures i + to / b < n && Span(i + to / b, b) + to % b == Span(i, b) + to
    {
      var q := to / b;
      SpanIsProduct(q, b);
      assert to == q * b + to % b;
      SpanSum(i, q, b);
      if n <= i + q { SpanMono(n, i + q, b); }
    }

    /** The seek relative to the position. */
    method SeekCurrent(value: nat) returns (ok: bool)
      requires Placed() && position + value < U32
      modifies this, cache, cache.table
      ensures Known() && closed == old(closed) && (ok <==> old(position) + value < fileSize)
      ensures Placed() && position == if ok then old(position) + value else old(position)
      ensures !ok ==> index == old(index) && clusterPosition == old(clusterPosition)
    {
      if position + value >= fileSize { return false; }
      var b, to := cache.disk.bytesPerCluster, clusterPosition + value;
      if to >= b {
        Landing(index, to, b, |chain|);
        var offset, rest := to / b, to % b;
        var c;
        ok, c := Walk(currentCluster, offset, index);
        if !ok { return; }
        buffer := cache.disk.data[c];
        currentCluster, clusterPosition, position := c, rest, position + value;
        index := index + offset;
        return true;
      }
      clusterPosition, position := to, position + value;
      ok := true;
    }

    /** The seek from the beginning: it adds to the position instead of setting it. */
    method SeekBeginning(value: nat) returns (ok: bool)
      requires Placed() && value < U32
      modifies this, cache, cache.table
      ensures Known() && closed == old(closed) && (ok <==> value < fileSize)
      ensures !ok ==> Placed() && position == old(position) && index == old(index) && clusterPosition == old(clusterPosition)
      ensures ok ==> At(value) && position == old(position) + value
    {
      if value >= fileSize { return false; }
      var b := cache.disk.bytesPerCluster;
      ClusterOf(value, |chain|, b);
      var offset, rest := value / b, value % b;
      var c;
      ok, c := Walk(firstCluster, offset, 0);
      if !ok { return; }
      if currentCluster != c { buffer := cache.disk.data[c]; }
      currentCluster, clusterPosition, position := c, rest, position + value;
      index := offset;
    }
  }

  // ---------- a cluster number that does not fit ----------

  /** A small disk with a file of 600 bytes in clusters 2 and 0x10000. */
  function LargeDisk(): (d: Disk)
    ensures d.fsFat == 32 && |d.fat| == 0x1_0080 && |d.data| == 0x1_0080 && d.bytesPerCluster == 512
    ensures forall i | 0 <= i < 0x1_0080 :: d.fat[i] == (if i == 2 then 0x1_0000 else 0x0FFF_FFFF) && |d.data[i]| == 512
  {
    Disk(32, seq(0x1_0080, i => if i == 2 then 0x1_0000 else 0x0FFF_FFFF), seq(0x1_0080, _ => seq(512, _ => 0)), 512)
  }

  lemma LargeChain()
    ensures Chain(LargeDisk(), [2, 0x1_0000], 600)
  {
    assert Span(2, 512) == 1024;
  }

  /** Reading that file goes astray at its second cluster: byte 512 still comes, but the fields are out of place. */
  method LargeClusterLost() returns (f: File, c: Byte)
    ensures fresh(f) && f.Known() && f.fileSize == 600 && f.position == 513 && c == f.Contents()[512]
    ensures !f.Placed() && f.currentCluster == 0
  {
    LargeChain();
    var cache := new FatCache(LargeDisk());
    f := new File(cache, 600, 2, [2, 0x1_0000]);
    var dst := new Byte[512];
    var _ := f.Read(dst, 512);
    assert Span(1, 512) == 512 && Span(2, 512) == 1024;
    c := f.Getc();
  }

  /**
   Skipping k bytes with a relative seek and reading n is the same as reading k + n and dropping k:
   the same bytes, and the same position.
   */
  method SeekThenRead(f: File, g: File, k: nat, n: nat, a: array<Byte>, b: array<Byte>)
    requires f.Placed() && g.Placed() && f.Small() && g.Small() && !f.closed && !g.closed
    requires f != g && f.cache != g.cache && f.cache.table != g.cache.table && a != b
    requires {a as object, b} !! {f.cache.table as object, g.cache.table}
    requires f.cache.disk == g.cache.disk && f.chain == g.chain && f.fileSize == g.fileSize && f.position == g.position
    requires f.position + k < f.fileSize && f.position + k + n <= f.fileSize && a.Length == n && b.Length == k + n
    modifies f, f.cache, f.cache.table, g, g.cache, g.cache.table, a, b
    ensures a[..] == b[k..] && f.position == g.position && f.Placed() && g.Placed()
  {
    ghost var p, file := f.position, f.Contents();
    var _ := f.Seek(k, FAT_SEEK_CURRENT);
    ReadFull(f, a);
    ReadFull(g, b);
    Dropped(file, p, k, n);
  }

  /** A read that ends within the file. */
  method ReadFull(f: File, dst: array<Byte>)
    requires f.Placed() && f.Small() && !f.closed && f.position + dst.Length <= f.fileSize && dst as object != f.cache.table as object
    modifies f, f.cache, f.cache.table, dst
    ensures f.Placed() && !f.closed && f.position == old(f.position) + dst.Length
    ensures dst[..] == old(f.Contents()[f.position..f.position + dst.Length])
  {
    var _ := f.Read(dst, dst.Length);
    assert dst[..] == dst[..dst.Length];
  }

  lemma Dropped(file: seq<Byte>, p: nat, k: nat, n: nat)
    requires p + k + n <= |file|
    ensures file[p + k..p + k + n] == file[p..p + (k + n)][k..]
  {
  }
}

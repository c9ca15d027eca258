/** Sector storage, and open files read and written through it at any offset. */
module OpenFiles {
  import opened Bytes
  import opened DiskGeometry
  import opened DiskLayout
  import opened FreeMaps
  import opened FileChunks

  /** The disk as the file system sees it: one request at a time, done when the call returns. */
  class SynchDisk {
    var sectors: Disk

    method ReadSector(sectorNumber: int, into: array<Byte>, at: nat)
      requires 0 <= sectorNumber < NUM_SECTORS && at + SECTOR_SIZE <= into.Length
      modifies into
      ensures into[..] == Splice(old(into[..]), at, sectors[sectorNumber])
    {
      forall k | 0 <= k < SECTOR_SIZE {
        into[at + k] := sectors[sectorNumber][k];
      }
    }

    method WriteSector(sectorNumber: int, from: array<Byte>, at: nat)
      requires 0 <= sectorNumber < NUM_SECTORS && at + SECTOR_SIZE <= from.Length
      modifies this
      ensures sectors == old(sectors)[sectorNumber := from[at..at + SECTOR_SIZE]]
    {
      sectors := sectors[sectorNumber := from[at..at + SECTOR_SIZE]];
    }
  }

  /** How many data blocks a file of this length has. */
  function BlockCount(h: Header): (n: nat)
    ensures forall i :: 0 <= i < n <==> 0 <= SECTOR_SIZE * i < h.numBytes
  {
    if h.numBytes <= 0 then 0 else (h.numBytes - 1) / SECTOR_SIZE + 1
  }

  /** Every data block the file needs is listed in the header and lies on the disk. */
  ghost predicate Readable(h: Header) {
    && BlockCount(h) <= NUM_DIRECT
    && forall i :: 0 <= i < BlockCount(h) ==> 0 <= h.dataSectors[i] < NUM_SECTORS
  }

  /** The sectors of the file's data blocks, in order. */
  function DataSectors(h: Header): (s: seq<Int32>)
    requires BlockCount(h) <= NUM_DIRECT
  {
    h.dataSectors[..BlockCount(h)]
  }

  /** The content of a file: its first `numBytes` bytes. */
  ghost function FileData(d: Disk, h: Header): (s: seq<Byte>)
    requires Readable(h)
    ensures |s| == if h.numBytes < 0 then 0 else h.numBytes
  {
    seq(if h.numBytes < 0 then 0 else h.numBytes,
        i requires 0 <= i < h.numBytes => d[h.dataSectors[i / SECTOR_SIZE]][i % SECTOR_SIZE])
  }

  /** Block `i` of a file is in the header's `i`-th sector, from the sector's start on; the last one may end early. */
  lemma DataOfBlock(d: Disk, h: Header, i: nat)
    requires Readable(h) && i < BlockCount(h)
    ensures var n := if 128 * i + 128 <= h.numBytes then 128 else h.numBytes - 128 * i;
      0 < n && FileData(d, h)[128 * i..128 * i + n] == d[h.dataSectors[i]][..n]
  {
    var n := if 128 * i + 128 <= h.numBytes then 128 else h.numBytes - 128 * i;
    var s, t := FileData(d, h)[128 * i..128 * i + n], d[h.dataSectors[i]][..n];
    forall k | 0 <= k < n ensures s[k] == t[k] {
      assert (128 * i + k) / SECTOR_SIZE == i && (128 * i + k) % SECTOR_SIZE == k;
    }
  }

  /** The contents of the blocks numbered from `first` up to `last`, one after the other. */
  ghost function Blocks(d: Disk, h: Header, first: nat, last: nat): (s: seq<Byte>)
    requires Readable(h) && first <= last <= BlockCount(h)
    ensures |s| == SECTOR_SIZE * (last - first)
  {
    seq(SECTOR_SIZE * (last - first),
        k requires 0 <= k < SECTOR_SIZE * (last - first) => d[h.dataSectors[first + k / SECTOR_SIZE]][k % SECTOR_SIZE])
  }

  lemma OneMoreBlock(d: Disk, h: Header, first: nat, last: nat)
    requires Readable(h) && first <= last && last < BlockCount(h)
    ensures Blocks(d, h, first, last + 1) == Blocks(d, h, first, last) + d[h.dataSectors[last]]
  {
    var s, t := Blocks(d, h, first, last + 1), Blocks(d, h, first, last) + d[h.dataSectors[last]];
    forall k | 0 <= k < SECTOR_SIZE * (last + 1 - first)
      ensures s[k] == t[k]
    {
      if k >= SECTOR_SIZE * (last - first) {
        assert k / SECTOR_SIZE == last - first;
      }
    }
  }

  /** The bytes a request asks for, found inside the whole blocks that hold them. */
  lemma SliceOfBlocks(d: Disk, h: Header, position: nat, n: nat)
    requires Readable(h) && n > 0 && position + n <= h.numBytes
    ensures FileData(d, h)[position..position + n]
         == Blocks(d, h, position / SECTOR_SIZE, (position + n - 1) / SECTOR_SIZE + 1)
            [position % SECTOR_SIZE..position % SECTOR_SIZE + n]
  {
    var first, last := position / SECTOR_SIZE, (position + n - 1) / SECTOR_SIZE;
    var s := FileData(d, h)[position..position + n];
    var t := Blocks(d, h, first, last + 1)[position % SECTOR_SIZE..position % SECTOR_SIZE + n];
    forall k | 0 <= k < n
      ensures s[k] == t[k]
    {
      var q := position % SECTOR_SIZE + k;
      assert (position + k) / SECTOR_SIZE == first + q / SECTOR_SIZE && (position + k) % SECTOR_SIZE == q % SECTOR_SIZE;
    }
  }

  /** Sectors other than the file's blocks numbered from `first` up to `last` are as they were. */
  predicate OnlyBlocksChanged(d: Disk, d': Disk, h: Header, first: nat, last: nat)
    requires first <= last <= |h.dataSectors|
  {
    forall s :: 0 <= s < NUM_SECTORS && s !in h.dataSectors[first..last] ==> d'[s] == d[s]
  }

  lemma OtherBlock(h: Header, first: nat, last: nat, i: nat)
    requires Readable(h) && Distinct(DataSectors(h)) && first <= last <= BlockCount(h)
    requires i < BlockCount(h) && !(first <= i < last)
    ensures h.dataSectors[i] !in h.dataSectors[first..last]
  {
    forall j | first <= j < last
      ensures h.dataSectors[j] != h.dataSectors[i]
    {
      assert DataSectors(h)[i] == h.dataSectors[i] && DataSectors(h)[j] == h.dataSectors[j];
    }
  }

  /** The file after some of its blocks were overwritten. */
  lemma DataAfterWrite(d: Disk, d': Disk, h: Header, first: nat, last: nat, t: seq<Byte>)
    requires Readable(h) && Distinct(DataSectors(h)) && first <= last <= BlockCount(h)
    requires OnlyBlocksChanged(d, d', h, first, last)
    requires |t| == |FileData(d, h)|
    requires forall o :: 0 <= o < |t| ==>
                           t[o] == if first <= o / SECTOR_SIZE < last
                                   then Blocks(d', h, first, last)[o - SECTOR_SIZE * first] else FileData(d, h)[o]
    ensures FileData(d', h) == t
  {
    forall o | 0 <= o < |t|
      ensures FileData(d', h)[o] == t[o]
    {
      ByteAfterWrite(d, d', h, first, last, o);
    }
  }

  lemma ByteAfterWrite(d: Disk, d': Disk, h: Header, first: nat, last: nat, o: nat)
    requires Readable(h) && Distinct(DataSectors(h)) && first <= last <= BlockCount(h)
    requires OnlyBlocksChanged(d, d', h, first, last) && o < |FileData(d, h)|
    ensures FileData(d', h)[o] ==
      if first <= o / SECTOR_SIZE < last then Blocks(d', h, first, last)[o - SECTOR_SIZE * first] else FileData(d, h)[o]
  {
    var i := o / SECTOR_SIZE;
    if first <= i < last {
      assert (o - SECTOR_SIZE * first) / SECTOR_SIZE == i - first && (o - SECTOR_SIZE * first) % SECTOR_SIZE == o % SECTOR_SIZE;
    } else {
      OtherBlock(h, first, last, i);
    }
  }

  lemma BlocksKept(d: Disk, d': Disk, h: Header, first: nat, last: nat)
    requires Readable(h) && Distinct(DataSectors(h)) && first <= last < BlockCount(h)
    requires forall s :: 0 <= s < NUM_SECTORS && s != h.dataSectors[last] ==> d'[s] == d[s]
    ensures Blocks(d', h, first, last) == Blocks(d, h, first, last)
  {
    forall k | 0 <= k < SECTOR_SIZE * (last - first)
      ensures Blocks(d', h, first, last)[k] == Blocks(d, h, first, last)[k]
    {
      assert DataSectors(h)[first + k / SECTOR_SIZE] != DataSectors(h)[last];
    }
  }

  lemma NothingChanged(d: Disk, h: Header, first: nat)
    requires Readable(h) && first <= BlockCount(h)
    ensures OnlyBlocksChanged(d, d, h, first, first) && Blocks(d, h, first, first) == []
  {
  }

  lemma OneMoreChanged(d0: Disk, d: Disk, d': Disk, h: Header, first: nat, i: nat, t: Sector)
    requires Readable(h) && Distinct(DataSectors(h)) && first <= i < BlockCount(h)
    requires OnlyBlocksChanged(d0, d, h, first, i) && d' == d[h.dataSectors[i] := t]
    ensures OnlyBlocksChanged(d0, d', h, first, i + 1)
    ensures Blocks(d', h, first, i + 1) == Blocks(d, h, first, i) + t
  {
    BlocksKept(d, d', h, first, i);
    OneMoreBlock(d', h, first, i);
    assert h.dataSectors[first..i + 1] == h.dataSectors[first..i] + [h.dataSectors[i]];
  }

  /** The blocks that a range of bytes touches reach from its first byte to its last. */
  lemma BlocksOfRange(position: nat, n: nat, first: nat, last: nat)
    requires n > 0 && first == position / SECTOR_SIZE && last == (position + n - 1) / SECTOR_SIZE
    ensures first <= last && SECTOR_SIZE * first <= position && position - first * SECTOR_SIZE == position % SECTOR_SIZE
    ensures SECTOR_SIZE * last < position + n <= SECTOR_SIZE * (last + 1)
  {
  }

  /** The part of the file that a read of the block numbered `i` fetches. */
  function BlockSlice(f: seq<Byte>, i: nat): seq<Byte>
    requires SECTOR_SIZE * i <= |f|
  {
    f[SECTOR_SIZE * i..SECTOR_SIZE * i + Clip(|f|, SECTOR_SIZE, SECTOR_SIZE * i)]
  }

  /** The write buffer holds the bytes of its blocks that the write must leave alone. */
  ghost predicate Prepared(buf: seq<Byte>, f: seq<Byte>, position: nat, n: nat) {
    forall o :: 0 <= o < |f| && 0 <= o - SECTOR_SIZE * (position / SECTOR_SIZE) < |buf| && !(position <= o < position + n) ==>
                  buf[o - SECTOR_SIZE * (position / SECTOR_SIZE)] == f[o]
  }

  /** Reading the first and the last block, where they are only partly overwritten, prepares the buffer. */
  lemma PrepareBuffer(b0: seq<Byte>, b1: seq<Byte>, b2: seq<Byte>, f: seq<Byte>, position: nat, n: nat, first: nat,
      last: nat)
    requires n > 0 && position + n <= |f| && first == position / SECTOR_SIZE && last == (position + n - 1) / SECTOR_SIZE
    requires |b0| == SECTOR_SIZE * (1 + last - first)
    requires b1 == if position == SECTOR_SIZE * first then b0 else Splice(b0, 0, BlockSlice(f, first))
    requires b2 == if position + n != SECTOR_SIZE * (last + 1) && (first != last || position == SECTOR_SIZE * first)
                   then Splice(b1, SECTOR_SIZE * (last - first), BlockSlice(f, last)) else b1
    ensures Prepared(b2, f, position, n)
  {
  }

  /** Copying the new bytes into a prepared buffer makes it the new contents of its blocks. */
  lemma MergeBuffer(b: seq<Byte>, f: seq<Byte>, position: nat, new': seq<Byte>)
    requires Prepared(b, f, position, |new'|) && position + |new'| <= |f| && position % SECTOR_SIZE + |new'| <= |b|
    ensures forall o :: 0 <= o < |f| && 0 <= o - SECTOR_SIZE * (position / SECTOR_SIZE) < |b| ==>
                          Splice(f, position, new')[o] ==
                          Splice(b, position % SECTOR_SIZE, new')[o - SECTOR_SIZE * (position / SECTOR_SIZE)]
  {
  }

  method BCopy(from: array<Byte>, fromAt: nat, into: array<Byte>, intoAt: nat, n: nat)
    requires fromAt + n <= from.Length && intoAt + n <= into.Length
    requires from != into
    modifies into
    ensures into[..] == Splice(old(into[..]), intoAt, from[fromAt..fromAt + n])
  {
    forall k | 0 <= k < n {
      into[intoAt + k] := from[fromAt + k];
    }
  }

  class OpenFile {
    const disk: SynchDisk
    const hdr: Header
    var seekPosition: Int32

    constructor (disk: SynchDisk, sector: int)
      requires 0 <= sector < NUM_SECTORS
      ensures this.disk == disk && hdr == DecodeHeader(disk.sectors[sector]) && seekPosition == 0
    {
      this.disk := disk;
      hdr := DecodeHeader(disk.sectors[sector]);
      seekPosition := 0;
    }

    function ByteToSector(offset: nat): int
      requires offset / SECTOR_SIZE < NUM_DIRECT
    {
      hdr.dataSectors[offset / SECTOR_SIZE]
    }

    /** Fetches whole blocks, one sector after the other. */
    method ReadBlocks(firstSector: nat, lastSector: nat) returns (buf: array<Byte>)
      requires Readable(hdr) && firstSector <= lastSector && lastSector < BlockCount(hdr)
      ensures fresh(buf) && buf[..] == Blocks(disk.sectors, hdr, firstSector, lastSector + 1)
    {
      hide Blocks;
      buf := new Byte[(1 + lastSector - firstSector) * SECTOR_SIZE];
      for i := firstSector to lastSector + 1
        invariant buf[..SECTOR_SIZE * (i - firstSector)] == Blocks(disk.sectors, hdr, firstSector, i)
      {
        OneMoreBlock(disk.sectors, hdr, firstSector, i);
        disk.ReadSector(ByteToSector(i * SECTOR_SIZE), buf, (i - firstSector) * SECTOR_SIZE);
      }
      assert buf[..SECTOR_SIZE * (lastSector + 1 - firstSector)] == buf[..];
    }

    method ReadAt(into: array<Byte>, at: nat, numBytes: Int32, position: Int32) returns (n: nat)
      requires position >= 0 && position + numBytes < 0x8000_0000
      requires Readable(hdr)
      requires at + Clip(hdr.numBytes, numBytes, position) <= into.Length
      modifies into
      ensures n == Clip(hdr.numBytes, numBytes, position)
      ensures into[..] == if n == 0 then old(into[..])
                          else Splice(old(into[..]), at, FileData(disk.sectors, hdr)[position..position + n])
    {
      hide FileData, Readable, Splice;
      var fileLength := hdr.numBytes;
      if numBytes <= 0 || position >= fileLength {
        return 0;
      }
      n := if position + numBytes > fileLength then fileLength - position else numBytes;
      var firstSector := position / SECTOR_SIZE;
      var lastSector := (position + n - 1) / SECTOR_SIZE;
      CopyBytes(into, at, n, position, firstSector, lastSector);
    }

    /** Fetches the blocks that hold the requested bytes and copies those bytes out. */
    method CopyBytes(into: array<Byte>, at: nat, n: nat, position: nat, firstSector: nat, lastSector: nat)
      requires Readable(hdr) && 0 < n && position + n <= hdr.numBytes && at + n <= into.Length
      requires firstSector == position / SECTOR_SIZE && lastSector == (position + n - 1) / SECTOR_SIZE
      modifies into
      ensures into[..] == Splice(old(into[..]), at, FileData(disk.sectors, hdr)[position..position + n])
    {
      hide FileData, Blocks, Readable, Splice;
      var buf := ReadBlocks(firstSector, lastSector);
      SliceOfBlocks(disk.sectors, hdr, position, n);
      BCopy(buf, position - firstSector * SECTOR_SIZE, into, at, n);
    }

    /** Writes whole blocks, one sector after the other. */
    method WriteBlocks(buf: array<Byte>, firstSector: nat, lastSector: nat)
      requires Readable(hdr) && Distinct(DataSectors(hdr)) && firstSector <= lastSector < BlockCount(hdr)
      requires buf.Length == SECTOR_SIZE * (1 + lastSector - firstSector)
      modifies disk
      ensures Blocks(disk.sectors, hdr, firstSector, lastSector + 1) == buf[..]
      ensures OnlyBlocksChanged(old(disk.sectors), disk.sectors, hdr, firstSector, lastSector + 1)
    {
      hide Blocks, Distinct, OnlyBlocksChanged;
      NothingChanged(disk.sectors, hdr, firstSector);
      for i := firstSector to lastSector + 1
        invariant Blocks(disk.sectors, hdr, firstSector, i) == buf[..SECTOR_SIZE * (i - firstSector)]
        invariant OnlyBlocksChanged(old(disk.sectors), disk.sectors, hdr, firstSector, i)
      {
        ghost var was, t := disk.sectors, buf[SECTOR_SIZE * (i - firstSector)..SECTOR_SIZE * (i - firstSector) + SECTOR_SIZE];
        disk.WriteSector(ByteToSector(i * SECTOR_SIZE), buf, (i - firstSector) * SECTOR_SIZE);
        OneMoreChanged(old(disk.sectors), was, disk.sectors, hdr, firstSector, i, t);
        assert buf[..SECTOR_SIZE * (i + 1 - firstSector)] == buf[..SECTOR_SIZE * (i - firstSector)] + t;
      }
      assert buf[..SECTOR_SIZE * (lastSector + 1 - firstSector)] == buf[..];
    }

    /** Reads one block of the file, as far as the file goes. */
    method ReadBlock(buf: array<Byte>, at: nat, i: nat)
      requires Readable(hdr) && SECTOR_SIZE * i < hdr.numBytes && at + SECTOR_SIZE <= buf.Length
      modifies buf
      ensures buf[..] == Splice(old(buf[..]), at, BlockSlice(FileData(disk.sectors, hdr), i))
    {
      hide FileData, Splice;
      var _ := ReadAt(buf, at, SECTOR_SIZE, SECTOR_SIZE * i);
    }

    /** A buffer for the blocks that a write of `n` bytes touches, with the ends of the range read back where the
        write covers its first and last block only in part. */
    method ReadEnds(n: nat, position: nat, firstSector: nat, lastSector: nat) returns (buf: array<Byte>)
      requires Readable(hdr) && 0 < n && position + n <= hdr.numBytes
      requires firstSector == position / SECTOR_SIZE && lastSector == (position + n - 1) / SECTOR_SIZE
      ensures fresh(buf) && buf.Length == SECTOR_SIZE * (1 + lastSector - firstSector)
      ensures Prepared(buf[..], FileData(disk.sectors, hdr), position, n)
    {
      hide FileData, Splice, Prepared, BlockSlice;
      BlocksOfRange(position, n, firstSector, lastSector);
      ghost var f := FileData(disk.sectors, hdr);
      var numSectors := 1 + lastSector - firstSector;
      buf := new Byte[numSectors * SECTOR_SIZE];
      ghost var b0 := buf[..];
      var firstAligned := position == firstSector * SECTOR_SIZE;
      var lastAligned := position + n == (lastSector + 1) * SECTOR_SIZE;
      if !firstAligned {
        ReadBlock(buf, 0, firstSector);
      }
      ghost var b1 := buf[..];
      if !lastAligned && (firstSector != lastSector || firstAligned) {
        ReadBlock(buf, (lastSector - firstSector) * SECTOR_SIZE, lastSector);
      }
      PrepareBuffer(b0, b1, buf[..], f, position, n, firstSector, lastSector);
    }

    /** The buffer that a write of `n` bytes sends to the disk. */
    method FillBuffer(from: array<Byte>, n: nat, position: nat, firstSector: nat, lastSector: nat)
        returns (buf: array<Byte>)
      requires Readable(hdr) && 0 < n <= from.Length && position + n <= hdr.numBytes
      requires firstSector == position / SECTOR_SIZE && lastSector == (position + n - 1) / SECTOR_SIZE
      ensures fresh(buf) && buf.Length == SECTOR_SIZE * (1 + lastSector - firstSector)
      ensures var f := FileData(disk.sectors, hdr);
              forall o :: 0 <= o < |f| && 0 <= o - SECTOR_SIZE * firstSector < buf.Length ==>
                            Splice(f, position, from[..n])[o] == buf[o - SECTOR_SIZE * firstSector]
    {
      hide FileData, Splice, Prepared;
      BlocksOfRange(position, n, firstSector, lastSector);
      buf := ReadEnds(n, position, firstSector, lastSector);
      ghost var b := buf[..];
      BCopy(from, 0, buf, position - firstSector * SECTOR_SIZE, n);
      MergeBuffer(b, FileData(disk.sectors, hdr), position, from[..n]);
    }

    method WriteAt(from: array<Byte>, numBytes: Int32, position: Int32) returns (n: nat)
      requires position >= 0 && position + numBytes < 0x8000_0000
      requires Readable(hdr) && Distinct(DataSectors(hdr))
      requires Clip(hdr.numBytes, numBytes, position) <= from.Length
      modifies disk
      ensures n == Clip(hdr.numBytes, numBytes, position)
      ensures n == 0 ==> disk.sectors == old(disk.sectors)
      ensures n > 0 ==> FileData(disk.sectors, hdr) == Splice(FileData(old(disk.sectors), hdr), position, from[..n])
      ensures OnlyBlocksChanged(old(disk.sectors), disk.sectors, hdr, 0, BlockCount(hdr))
    {
      var fileLength := hdr.numBytes;
      if numBytes <= 0 || position >= fileLength {
        return 0;
      }
      n := if position + numBytes > fileLength then fileLength - position else numBytes;
      var firstSector := position / SECTOR_SIZE;
      var lastSector := (position + n - 1) / SECTOR_SIZE;
      var buf := FillBuffer(from, n, position, firstSector, lastSector);
      ghost var was := disk.sectors;
      WriteBlocks(buf, firstSector, lastSector);
      DataAfterWrite(was, disk.sectors, hdr, firstSector, lastSector + 1, Splice(FileData(was, hdr), position, from[..n]));
    }

    /** The file's content and the place where the next `Read` or `Write` starts. */
    ghost function View(): Cursor
      requires Readable(hdr) && seekPosition >= 0
      reads this, disk
    {
      Cursor(FileData(disk.sectors, hdr), seekPosition)
    }

    method Seek(position: Int32)
      modifies this
      ensures seekPosition == position
    {
      seekPosition := position;
    }

    method Read(into: array<Byte>, numBytes: nat) returns (n: nat)
      requires Readable(hdr) && seekPosition >= 0 && seekPosition + numBytes < 0x8000_0000 && numBytes <= into.Length
      modifies this, into
      ensures seekPosition >= 0 && n == seekPosition - old(seekPosition) <= numBytes
      ensures (into[..n], View()) == ReadChunk(old(View()), numBytes) && into[n..] == old(into[..])[n..]
    {
      hide FileData;
      ghost var was := into[..];
      n := ReadAt(into, 0, numBytes, seekPosition);
      assert into[n..] == was[n..];
      assert n > 0 ==> into[..n] == View().data[seekPosition..seekPosition + n];
      seekPosition := seekPosition + n;
    }

    method Write(from: array<Byte>, numBytes: nat) returns (n: nat)
      requires Readable(hdr) && Distinct(DataSectors(hdr))
      requires seekPosition >= 0 && seekPosition + numBytes < 0x8000_0000 && numBytes <= from.Length
      modifies this, disk
      ensures seekPosition >= 0 && n == seekPosition - old(seekPosition) <= numBytes
      ensures View() == WriteChunk(old(View()), from[..numBytes])
      ensures OnlyBlocksChanged(old(disk.sectors), disk.sectors, hdr, 0, BlockCount(hdr))
    {
      hide FileData, Splice;
      n := WriteAt(from, numBytes, seekPosition);
      seekPosition := seekPosition + n;
      assert from[..numBytes][..n] == from[..n];
    }
  }
}

/** What makes a disk a consistent file system: who owns which sector, and a free map that says exactly that. */
module Volumes {
  import opened Bytes
  import opened FreeMaps
  import opened DiskGeometry
  import opened DiskLayout
  import opened OpenFiles

  /** The possible owners of a sector. */
  datatype Owner =
    | MapHeader
    | DirHeader
    | MapBlock(i: nat)
    | DirBlock(i: nat)
    | FileHead(e: nat)
    | FileBlock(e: nat, i: nat)

  /** The headers of the two fixed files, the directory, and the header of each file it lists. */
  datatype Layout = Layout(mapHdr: Header, dirHdr: Header, table: seq<DirEntry>, headers: seq<Header>)

  function BlankHeader(): Header {
    HeaderFields(0, 0, seq(NUM_DIRECT, _ => 0))
  }

  ghost predicate HeaderOk(h: Header) {
    0 <= h.numBytes && h.numSectors == BlockCount(h) && Readable(h)
  }

  ghost predicate Shape(l: Layout) {
    && |l.table| == NUM_DIR_ENTRIES && |l.headers| == NUM_DIR_ENTRIES
    && HeaderOk(l.mapHdr) && l.mapHdr.numBytes == FREE_MAP_FILE_SIZE
    && HeaderOk(l.dirHdr) && l.dirHdr.numBytes == DIRECTORY_FILE_SIZE
    && forall e :: 0 <= e < NUM_DIR_ENTRIES && l.table[e].inUse ==>
                     0 <= l.table[e].sector < NUM_SECTORS && HeaderOk(l.headers[e])
  }

  predicate IsOwner(l: Layout, o: Owner)
    requires |l.table| == |l.headers|
  {
    match o
    case MapHeader => true
    case DirHeader => true
    case MapBlock(i) => i < BlockCount(l.mapHdr)
    case DirBlock(i) => i < BlockCount(l.dirHdr)
    case FileHead(e) => e < |l.table| && l.table[e].inUse
    case FileBlock(e, i) => e < |l.table| && l.table[e].inUse && i < BlockCount(l.headers[e])
  }

  ghost function Where(l: Layout, o: Owner): (s: int)
    requires Shape(l) && IsOwner(l, o)
    ensures 0 <= s < NUM_SECTORS
  {
    match o
    case MapHeader => FREE_MAP_SECTOR
    case DirHeader => DIRECTORY_SECTOR
    case MapBlock(i) => l.mapHdr.dataSectors[i]
    case DirBlock(i) => l.dirHdr.dataSectors[i]
    case FileHead(e) => l.table[e].sector
    case FileBlock(e, i) => l.headers[e].dataSectors[i]
  }

  ghost predicate Owned(l: Layout, s: int)
    requires Shape(l)
  {
    exists o :: IsOwner(l, o) && Where(l, o) == s
  }

  /** No sector has two owners. */
  ghost predicate SingleOwners(l: Layout)
    requires Shape(l)
  {
    forall o, p :: IsOwner(l, o) && IsOwner(l, p) && Where(l, o) == Where(l, p) ==> o == p
  }

  /** The free map marks exactly the sectors that have an owner. */
  ghost predicate MarksOwned(l: Layout, bits: seq<bool>)
    requires Shape(l)
  {
    && |bits| == NUM_SECTORS
    && (forall o :: IsOwner(l, o) ==> bits[Where(l, o)])
    && (forall s :: 0 <= s < NUM_SECTORS && bits[s] ==> Owned(l, s))
  }

  /** No two entries in use have the same name, as far as names are compared. */
  predicate DistinctNames(table: seq<DirEntry>) {
    forall i, j :: 0 <= i < j < |table| && table[i].inUse && table[j].inUse ==>
                     !StrNEqual(table[i].name, table[j].name, FILE_NAME_MAX_LEN)
  }

  ghost predicate LayoutOk(l: Layout, bits: seq<bool>) {
    Shape(l) && SingleOwners(l) && MarksOwned(l, bits) && DistinctNames(l.table)
  }

  /** Sectors of the file in entry `e`: its header and its data blocks. */
  ghost function FileSectors(sector: Int32, h: Header): seq<int>
    requires HeaderOk(h)
  {
    [sector] + DataSectors(h)
  }

  function WithFile(l: Layout, e: nat, entry: DirEntry, h: Header): Layout
    requires e < |l.table| == |l.headers|
  {
    l.(table := l.table[e := entry], headers := l.headers[e := h])
  }

  function WithoutFile(l: Layout, e: nat): Layout
    requires e < |l.table| == |l.headers|
  {
    l.(table := l.table[e := l.table[e].(inUse := false)], headers := l.headers[e := BlankHeader()])
  }

  predicate OfFile(o: Owner, e: nat) {
    o == FileHead(e) || (o.FileBlock? && o.e == e)
  }

  /** The owner of the k-th sector of the file in entry `e`. */
  function FileOwner(e: nat, k: nat): Owner {
    if k == 0 then FileHead(e) else FileBlock(e, k - 1)
  }

  /** The owners that a file brings along are exactly its sectors. */
  lemma FileOwners(l: Layout, e: nat)
    requires Shape(l) && e < NUM_DIR_ENTRIES && l.table[e].inUse
    ensures var t := FileSectors(l.table[e].sector, l.headers[e]);
      && (forall o :: IsOwner(l, o) && OfFile(o, e) ==> Where(l, o) in t)
      && (forall k :: 0 <= k < |t| ==> IsOwner(l, FileOwner(e, k)) && Where(l, FileOwner(e, k)) == t[k])
  {
    var t := FileSectors(l.table[e].sector, l.headers[e]);
    forall o | IsOwner(l, o) && OfFile(o, e)
      ensures Where(l, o) in t
    {
      assert t[if o.FileHead? then 0 else 1 + o.i] == Where(l, o);
    }
  }

  /** Owners that are not of entry `e` stay where they are when that entry changes. */
  lemma OtherOwners(l: Layout, l': Layout, e: nat)
    requires Shape(l) && Shape(l') && e < NUM_DIR_ENTRIES
    requires l'.mapHdr == l.mapHdr && l'.dirHdr == l.dirHdr
    requires forall k :: 0 <= k < NUM_DIR_ENTRIES && k != e ==> l'.table[k] == l.table[k] && l'.headers[k] == l.headers[k]
    ensures forall o :: !OfFile(o, e) ==> IsOwner(l', o) == IsOwner(l, o)
    ensures forall o :: !OfFile(o, e) && IsOwner(l, o) ==> Where(l', o) == Where(l, o)
  {
  }

  lemma WithFileShape(l: Layout, e: nat, entry: DirEntry, h: Header)
    requires Shape(l) && DistinctNames(l.table) && e < NUM_DIR_ENTRIES && !l.table[e].inUse
    requires entry.inUse && 0 <= entry.sector < NUM_SECTORS && HeaderOk(h)
    requires forall k :: 0 <= k < NUM_DIR_ENTRIES && l.table[k].inUse ==>
                           !StrNEqual(l.table[k].name, entry.name, FILE_NAME_MAX_LEN)
    ensures Shape(WithFile(l, e, entry, h)) && DistinctNames(WithFile(l, e, entry, h).table)
  {
    hide HeaderOk, UpToNul;
  }

  /** A new file on free sectors keeps the layout in order. */
  lemma AddFile(l: Layout, bits: seq<bool>, e: nat, entry: DirEntry, h: Header)
    requires LayoutOk(l, bits) && e < NUM_DIR_ENTRIES && !l.table[e].inUse
    requires entry.inUse && 0 <= entry.sector < NUM_SECTORS && HeaderOk(h)
    requires forall k :: 0 <= k < NUM_DIR_ENTRIES && l.table[k].inUse ==>
                           !StrNEqual(l.table[k].name, entry.name, FILE_NAME_MAX_LEN)
    requires Distinct(FileSectors(entry.sector, h)) && AllAre(bits, FileSectors(entry.sector, h), false)
    ensures LayoutOk(WithFile(l, e, entry, h), SetAll(bits, FileSectors(entry.sector, h), true))
  {
    hide HeaderOk, DistinctNames, FileSectors, StrNEqual, Owned, SetAll;
    var l' := WithFile(l, e, entry, h);
    WithFileShape(l, e, entry, h);
    OtherOwners(l, l', e);
    forall o, p | IsOwner(l', o) && IsOwner(l', p) && Where(l', o) == Where(l', p)
      ensures o == p
    {
      OwnersApart(l, l', bits, e, o, p);
    }
    AddedMarks(l, l', bits, e);
  }

  /** With the new file's sectors set, the map marks what is owned. */
  lemma AddedMarks(l: Layout, l': Layout, bits: seq<bool>, e: nat)
    requires LayoutOk(l, bits) && Shape(l') && e < NUM_DIR_ENTRIES && !l.table[e].inUse && l'.table[e].inUse
    requires l' == WithFile(l, e, l'.table[e], l'.headers[e])
    requires AllAre(bits, FileSectors(l'.table[e].sector, l'.headers[e]), false)
    ensures MarksOwned(l', SetAll(bits, FileSectors(l'.table[e].sector, l'.headers[e]), true))
  {
    hide HeaderOk, DistinctNames, FileSectors, SetAll;
    var t := FileSectors(l'.table[e].sector, l'.headers[e]);
    var bits' := SetAll(bits, t, true);
    OtherOwners(l, l', e);
    FileOwners(l', e);
    forall s | 0 <= s < NUM_SECTORS && bits'[s]
      ensures Owned(l', s)
    {
      if s in t {
        var k :| 0 <= k < |t| && t[k] == s;
        assert Where(l', FileOwner(e, k)) == s;
      } else {
        var o :| IsOwner(l, o) && Where(l, o) == s;
        assert !OfFile(o, e);
        assert Where(l', o) == s;
      }
    }
    forall o | IsOwner(l', o)
      ensures bits'[Where(l', o)]
    {
      if !OfFile(o, e) {
        assert bits[Where(l, o)];
      }
    }
  }

  lemma FileOwnersApart(l: Layout, e: nat, o: Owner, p: Owner)
    requires Shape(l) && e < NUM_DIR_ENTRIES && l.table[e].inUse
    requires Distinct(FileSectors(l.table[e].sector, l.headers[e]))
    requires IsOwner(l, o) && IsOwner(l, p) && OfFile(o, e) && OfFile(p, e) && Where(l, o) == Where(l, p)
    ensures o == p
  {
    var t := FileSectors(l.table[e].sector, l.headers[e]);
    assert t[if o.FileHead? then 0 else 1 + o.i] == t[if p.FileHead? then 0 else 1 + p.i];
  }

  lemma OwnersApart(l: Layout, l': Layout, bits: seq<bool>, e: nat, o: Owner, p: Owner)
    requires LayoutOk(l, bits) && Shape(l') && e < NUM_DIR_ENTRIES && !l.table[e].inUse
    requires l'.table[e].inUse
    requires l' == WithFile(l, e, l'.table[e], l'.headers[e])
    requires var t := FileSectors(l'.table[e].sector, l'.headers[e]); Distinct(t) && AllAre(bits, t, false)
    requires IsOwner(l', o) && IsOwner(l', p) && Where(l', o) == Where(l', p)
    ensures o == p
  {
    OtherOwners(l, l', e);
    if OfFile(o, e) && OfFile(p, e) {
      FileOwnersApart(l', e, o, p);
    } else {
      hide HeaderOk, DistinctNames, FileSectors;
      FileOwners(l', e);
      assert OfFile(o, e) || bits[Where(l, o)];
      assert OfFile(p, e) || bits[Where(l, p)];
    }
  }

  /** The sectors of a listed file are distinct and marked. */
  lemma FileSectorsMarked(l: Layout, bits: seq<bool>, e: nat)
    requires LayoutOk(l, bits) && e < NUM_DIR_ENTRIES && l.table[e].inUse
    ensures Distinct(FileSectors(l.table[e].sector, l.headers[e]))
    ensures AllAre(bits, FileSectors(l.table[e].sector, l.headers[e]), true)
  {
    var t := FileSectors(l.table[e].sector, l.headers[e]);
    FileOwners(l, e);
    forall i, j | 0 <= i < j < |t|
      ensures t[i] != t[j]
    {
      assert FileOwner(e, i) != FileOwner(e, j);
    }
  }

  lemma WithoutFileShape(l: Layout, e: nat)
    requires Shape(l) && DistinctNames(l.table) && e < NUM_DIR_ENTRIES
    ensures Shape(WithoutFile(l, e)) && DistinctNames(WithoutFile(l, e).table)
  {
    hide HeaderOk, UpToNul;
  }

  /** No other owner's sector is one of the file's. */
  lemma OthersApart(l: Layout, e: nat, o: Owner)
    requires Shape(l) && SingleOwners(l) && e < NUM_DIR_ENTRIES && l.table[e].inUse && IsOwner(l, o) && !OfFile(o, e)
    ensures Where(l, o) !in FileSectors(l.table[e].sector, l.headers[e])
  {
    hide HeaderOk, FileSectors;
    var t := FileSectors(l.table[e].sector, l.headers[e]);
    FileOwners(l, e);
    forall k | 0 <= k < |t|
      ensures t[k] != Where(l, o)
    {
      assert FileOwner(e, k) != o;
    }
  }

  /** Dropping a file and clearing its sectors keeps the layout in order. */
  lemma DropFile(l: Layout, bits: seq<bool>, e: nat)
    requires LayoutOk(l, bits) && e < NUM_DIR_ENTRIES && l.table[e].inUse
    ensures LayoutOk(WithoutFile(l, e), SetAll(bits, FileSectors(l.table[e].sector, l.headers[e]), false))
  {
    hide HeaderOk, DistinctNames, FileSectors, SetAll;
    var l' := WithoutFile(l, e);
    var bits' := SetAll(bits, FileSectors(l.table[e].sector, l.headers[e]), false);
    WithoutFileShape(l, e);
    OtherOwners(l, l', e);
    FileOwners(l, e);
    forall o | IsOwner(l', o)
      ensures bits'[Where(l', o)]
    {
      assert !OfFile(o, e);
      OthersApart(l, e, o);
    }
    forall s | 0 <= s < NUM_SECTORS && bits'[s]
      ensures Owned(l', s)
    {
      var o :| IsOwner(l, o) && Where(l, o) == s;
      assert !OfFile(o, e);
      assert Where(l', o) == s;
    }
  }
}

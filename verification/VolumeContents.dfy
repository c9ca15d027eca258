/** The file system read back from the sectors of a disk, and how it changes when sectors are rewritten. */
module VolumeContents {
  import opened Bytes
  import opened BitWords
  import opened FreeMaps
  import opened DiskGeometry
  import opened DiskLayout
  import opened OpenFiles
  import opened Directories
  import opened Volumes

  ghost function Table(d: Disk): (t: seq<DirEntry>)
    ensures |t| == NUM_DIR_ENTRIES
  {
    var h := DecodeHeader(d[DIRECTORY_SECTOR]);
    DecodeTable(NUM_DIR_ENTRIES, if Readable(h) then FileData(d, h) else [])
  }

  ghost function FreeWords(d: Disk): (w: seq<bv32>)
    ensures |w| == 32
  {
    var h := DecodeHeader(d[FREE_MAP_SECTOR]);
    DecodeWords(32, if Readable(h) then FileData(d, h) else [])
  }

  /** The free map stored on the disk. */
  ghost function FreeMap(d: Disk): (bits: seq<bool>)
    ensures |bits| == NUM_SECTORS
  {
    Bits(FreeWords(d))
  }

  function HeaderOf(d: Disk, e: DirEntry): Header {
    if e.inUse && 0 <= e.sector < NUM_SECTORS then DecodeHeader(d[e.sector]) else BlankHeader()
  }

  ghost function LayoutOf(d: Disk): Layout {
    Layout(DecodeHeader(d[FREE_MAP_SECTOR]), DecodeHeader(d[DIRECTORY_SECTOR]), Table(d),
           seq(NUM_DIR_ENTRIES, e requires 0 <= e < NUM_DIR_ENTRIES => HeaderOf(d, Table(d)[e])))
  }

  /** The disk holds a file system in order: every sector has at most one owner, and the free map stored on
      the disk marks exactly the sectors that have one. */
  ghost predicate Consistent(d: Disk) {
    LayoutOk(LayoutOf(d), FreeMap(d))
  }

  /** The name of an entry, as far as names are stored and compared. */
  function Key(name: seq<Byte>): seq<Byte> {
    UpToNul(name, FILE_NAME_MAX_LEN)
  }

  /** The content of the file called `name`, if there is one. */
  ghost function Content(d: Disk, name: seq<Byte>): seq<Byte>
    requires Consistent(d)
  {
    var e := IndexOf(Table(d), name);
    if e == -1 then []
    else
      ListedFile(d, e);
      FileData(d, HeaderOf(d, Table(d)[e]))
  }

  ghost function Names(table: seq<DirEntry>): set<seq<Byte>> {
    set e | 0 <= e < |table| && table[e].inUse :: Key(table[e].name)
  }

  /** The files on the disk: names to contents. */
  ghost function Files(d: Disk): map<seq<Byte>, seq<Byte>>
    requires Consistent(d)
  {
    map k | k in Names(Table(d)) :: Content(d, k)
  }

  lemma KeyIsStable(name: seq<Byte>)
    ensures Key(Key(name)) == Key(name)
  {
    UpToNulIs(Key(name), FILE_NAME_MAX_LEN, Key(name));
  }

  /** With distinct names, an entry in use is the one found under its name. */
  lemma FoundByName(table: seq<DirEntry>, e: nat)
    requires DistinctNames(table) && e < |table| && table[e].inUse
    ensures IndexOf(table, Key(table[e].name)) == e
  {
    KeyIsStable(table[e].name);
    var r := IndexOf(table, Key(table[e].name));
    assert Matches(table[e], Key(table[e].name));
    assert r != -1 && Matches(table[r], Key(table[e].name));
  }

  lemma FindingByKey(table: seq<DirEntry>, name: seq<Byte>)
    ensures IndexOf(table, Key(name)) == IndexOf(table, name)
    ensures Key(name) in Names(table) <==> IndexOf(table, name) != -1
  {
    KeyIsStable(name);
    var r, q := IndexOf(table, name), IndexOf(table, Key(name));
    assert forall i :: 0 <= i < |table| ==> (Matches(table[i], name) <==> Matches(table[i], Key(name)));
    if r != -1 {
      assert Key(table[r].name) == Key(name);
    }
  }

  /** A disk whose sectors spell out a layout and a free map has that layout and that free map. */
  lemma LayoutFrom(d: Disk, l: Layout, words: seq<bv32>)
    requires Shape(l) && |words| == 32
    requires DecodeHeader(d[FREE_MAP_SECTOR]) == l.mapHdr && DecodeHeader(d[DIRECTORY_SECTOR]) == l.dirHdr
    requires FileData(d, l.dirHdr) == EncodeTable(l.table) && FileData(d, l.mapHdr) == EncodeWords(words)
    requires forall e :: 0 <= e < NUM_DIR_ENTRIES ==> l.headers[e] == HeaderOf(d, l.table[e])
    ensures LayoutOf(d) == l && FreeWords(d) == words
  {
    TableRoundTrip(l.table);
    WordsRoundTrip(words);
  }

  /** A file none of whose sectors changed has the same content. */
  lemma SameData(d: Disk, d': Disk, h: Header)
    requires Readable(h)
    requires forall i :: 0 <= i < BlockCount(h) ==> d'[h.dataSectors[i]] == d[h.dataSectors[i]]
    ensures FileData(d', h) == FileData(d, h)
  {
  }

  /** The free map file and the directory file share no sector with each other or with any other owner. */
  lemma MetadataApart(l: Layout, bits: seq<bool>, o: Owner)
    requires LayoutOk(l, bits) && IsOwner(l, o)
    ensures !o.MapBlock? ==> Where(l, o) !in DataSectors(l.mapHdr)
    ensures !o.DirBlock? ==> Where(l, o) !in DataSectors(l.dirHdr)
  {
    forall i | 0 <= i < BlockCount(l.mapHdr) && !o.MapBlock?
      ensures DataSectors(l.mapHdr)[i] != Where(l, o)
    {
      assert Where(l, MapBlock(i)) == DataSectors(l.mapHdr)[i];
    }
    forall i | 0 <= i < BlockCount(l.dirHdr) && !o.DirBlock?
      ensures DataSectors(l.dirHdr)[i] != Where(l, o)
    {
      assert Where(l, DirBlock(i)) == DataSectors(l.dirHdr)[i];
    }
  }

  /** The free map file and the directory file can be read and written, and have the lengths they should have. */
  lemma MetadataFiles(d: Disk)
    requires Consistent(d)
    ensures var m := LayoutOf(d).mapHdr; Readable(m) && Distinct(DataSectors(m)) && m.numBytes == FREE_MAP_FILE_SIZE
    ensures var h := LayoutOf(d).dirHdr; Readable(h) && Distinct(DataSectors(h)) && h.numBytes == DIRECTORY_FILE_SIZE
    ensures FreeWords(d) == DecodeWords(32, FileData(d, LayoutOf(d).mapHdr))
    ensures Table(d) == DecodeTable(NUM_DIR_ENTRIES, FileData(d, LayoutOf(d).dirHdr))
  {
    var l := LayoutOf(d);
    forall i, j | 0 <= i < j < BlockCount(l.dirHdr)
      ensures DataSectors(l.dirHdr)[i] != DataSectors(l.dirHdr)[j]
    {
      assert Where(l, DirBlock(i)) != Where(l, DirBlock(j));
    }
  }

  /** What a directory entry in use tells about its file. */
  lemma ListedFile(d: Disk, e: nat)
    requires Consistent(d) && e < NUM_DIR_ENTRIES && Table(d)[e].inUse
    ensures 0 <= Table(d)[e].sector < NUM_SECTORS
    ensures var h := LayoutOf(d).headers[e]; h == DecodeHeader(d[Table(d)[e].sector]) && HeaderOk(h)
  {
  }

  /** Sectors handed out for a new file are nobody's, in particular no metadata. */
  lemma FreeSectorApart(l: Layout, bits: seq<bool>, s: int)
    requires LayoutOk(l, bits) && 0 <= s < NUM_SECTORS && !bits[s]
    ensures s != FREE_MAP_SECTOR && s != DIRECTORY_SECTOR
    ensures s !in DataSectors(l.mapHdr) && s !in DataSectors(l.dirHdr)
  {
    assert bits[Where(l, MapHeader)] && bits[Where(l, DirHeader)];
    forall i | 0 <= i < BlockCount(l.mapHdr)
      ensures DataSectors(l.mapHdr)[i] != s
    {
      assert bits[Where(l, MapBlock(i))];
    }
    forall i | 0 <= i < BlockCount(l.dirHdr)
      ensures DataSectors(l.dirHdr)[i] != s
    {
      assert bits[Where(l, DirBlock(i))];
    }
  }
}

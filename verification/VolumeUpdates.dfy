/** What rewriting the metadata of a consistent disk does to it: a file more, a file less, or one file's bytes. */
module VolumeUpdates {
  import opened BitWords
  import opened FreeMaps
  import opened DiskGeometry
  import opened DiskLayout
  import opened OpenFiles
  import opened Directories
  import opened Volumes
  import opened VolumeContents

  /** The directory and the free map were rewritten, and at most one other sector, `head`. */
  ghost predicate Committed(d: Disk, d': Disk, head: int, table: seq<DirEntry>, words: seq<bv32>)
    requires Consistent(d)
  {
    var l := LayoutOf(d);
    && FileData(d', l.dirHdr) == EncodeTable(table)
    && FileData(d', l.mapHdr) == EncodeWords(words)
    && forall s :: 0 <= s < NUM_SECTORS && s != head && s !in DataSectors(l.mapHdr) && s !in DataSectors(l.dirHdr) ==>
                     d'[s] == d[s]
  }

  /** Rewriting one of the two metadata files does not touch the other. */
  lemma MetadataKept(d: Disk, d1: Disk, d2: Disk)
    requires Consistent(d)
    ensures var l := LayoutOf(d);
      && (OnlyBlocksChanged(d1, d2, l.mapHdr, 0, BlockCount(l.mapHdr)) ==> FileData(d2, l.dirHdr) == FileData(d1, l.dirHdr))
      && (OnlyBlocksChanged(d1, d2, l.dirHdr, 0, BlockCount(l.dirHdr)) ==> FileData(d2, l.mapHdr) == FileData(d1, l.mapHdr))
  {
    hide Table, DecodeHeader, FreeMap, FreeWords, SingleOwners, MarksOwned, DistinctNames;
    var l := LayoutOf(d);
    if OnlyBlocksChanged(d1, d2, l.mapHdr, 0, BlockCount(l.mapHdr)) {
      forall i | 0 <= i < BlockCount(l.dirHdr)
        ensures d2[l.dirHdr.dataSectors[i]] == d1[l.dirHdr.dataSectors[i]]
      {
        MetadataApart(l, FreeMap(d), DirBlock(i));
      }
      SameData(d1, d2, l.dirHdr);
    }
    if OnlyBlocksChanged(d1, d2, l.dirHdr, 0, BlockCount(l.dirHdr)) {
      forall i | 0 <= i < BlockCount(l.mapHdr)
        ensures d2[l.mapHdr.dataSectors[i]] == d1[l.mapHdr.dataSectors[i]]
      {
        MetadataApart(l, FreeMap(d), MapBlock(i));
      }
      SameData(d1, d2, l.mapHdr);
    }
  }

  /** The metadata headers, and the sectors of every listed file, are as they were after a commit. */
  lemma OwnersKept(d: Disk, d': Disk, head: int, table: seq<DirEntry>, words: seq<bv32>, o: Owner)
    requires Consistent(d) && Committed(d, d', head, table, words)
    requires IsOwner(LayoutOf(d), o) && !o.MapBlock? && !o.DirBlock? && head != Where(LayoutOf(d), o)
    ensures d'[Where(LayoutOf(d), o)] == d[Where(LayoutOf(d), o)]
  {
    MetadataApart(LayoutOf(d), FreeMap(d), o);
  }

  lemma FileKept(d: Disk, d': Disk, head: int, table: seq<DirEntry>, words: seq<bv32>, e: nat)
    requires Consistent(d) && Committed(d, d', head, table, words)
    requires e < NUM_DIR_ENTRIES && Table(d)[e].inUse && head !in FileSectors(Table(d)[e].sector, LayoutOf(d).headers[e])
    ensures HeaderOf(d', Table(d)[e]) == HeaderOf(d, Table(d)[e]) == LayoutOf(d).headers[e]
    ensures FileData(d', LayoutOf(d).headers[e]) == FileData(d, LayoutOf(d).headers[e])
  {
    hide FileData, DecodeHeader, EncodeHeader, FreeWords, FreeMap, Committed, SingleOwners, MarksOwned, DistinctNames,
      EncodeTable, EncodeWords;
    var l := LayoutOf(d);
    var h := l.headers[e];
    var t := FileSectors(Table(d)[e].sector, h);
    FileOwners(l, e);
    assert Where(l, FileHead(e)) == t[0];
    OwnersKept(d, d', head, table, words, FileHead(e));
    forall i | 0 <= i < BlockCount(h)
      ensures d'[h.dataSectors[i]] == d[h.dataSectors[i]]
    {
      assert Where(l, FileBlock(e, i)) == t[1 + i];
      OwnersKept(d, d', head, table, words, FileBlock(e, i));
    }
    SameData(d, d', h);
  }

  /** No listed file changes in a commit that writes no header, or one to a free sector. */
  lemma FilesKept(d: Disk, d': Disk, head: int, table: seq<DirEntry>, words: seq<bv32>)
    requires Consistent(d) && Committed(d, d', head, table, words)
    requires 0 <= head < NUM_SECTORS ==> !FreeMap(d)[head]
    ensures forall k :: 0 <= k < NUM_DIR_ENTRIES && Table(d)[k].inUse ==>
                          && HeaderOf(d', Table(d)[k]) == LayoutOf(d).headers[k]
                          && FileData(d', LayoutOf(d).headers[k]) == FileData(d, LayoutOf(d).headers[k])
    ensures head !in {FREE_MAP_SECTOR, DIRECTORY_SECTOR}
    ensures d'[FREE_MAP_SECTOR] == d[FREE_MAP_SECTOR] && d'[DIRECTORY_SECTOR] == d[DIRECTORY_SECTOR]
  {
    hide Table, EncodeTable, EncodeWords, FileData, EncodeHeader, DecodeHeader, FreeWords, HeaderOf, Committed;
    var l := LayoutOf(d);
    if 0 <= head < NUM_SECTORS {
      FreeSectorApart(l, FreeMap(d), head);
    }
    OwnersKept(d, d', head, table, words, MapHeader);
    OwnersKept(d, d', head, table, words, DirHeader);
    forall k | 0 <= k < NUM_DIR_ENTRIES && Table(d)[k].inUse
      ensures HeaderOf(d', Table(d)[k]) == l.headers[k]
      ensures FileData(d', l.headers[k]) == FileData(d, l.headers[k])
    {
      FileSectorsMarked(l, FreeMap(d), k);
      FileKept(d, d', head, table, words, k);
    }
  }

  /** A new file: its sectors were free, its entry had a free slot, its name was not in use. */
  ghost predicate Addable(d: Disk, e: nat, entry: DirEntry, h: Header)
    requires Consistent(d)
  {
    && e < NUM_DIR_ENTRIES && !Table(d)[e].inUse
    && entry.inUse && 0 <= entry.sector < NUM_SECTORS && HeaderOk(h)
    && IndexOf(Table(d), entry.name) == -1
    && Distinct(FileSectors(entry.sector, h)) && AllAre(FreeMap(d), FileSectors(entry.sector, h), false)
  }

  lemma CommitNewFile(d: Disk, d': Disk, e: nat, entry: DirEntry, h: Header, words: seq<bv32>)
    requires Consistent(d) && Addable(d, e, entry, h)
    requires Committed(d, d', entry.sector, Table(d)[e := entry], words) && d'[entry.sector] == EncodeHeader(h)
    requires |words| == 32 && Bits(words) == SetAll(FreeMap(d), FileSectors(entry.sector, h), true)
    ensures LayoutOf(d') == WithFile(LayoutOf(d), e, entry, h) && FreeWords(d') == words && Consistent(d')
    ensures forall k :: 0 <= k < NUM_DIR_ENTRIES && Table(d)[k].inUse ==>
                          FileData(d', LayoutOf(d).headers[k]) == FileData(d, LayoutOf(d).headers[k])
  {
    hide Table, EncodeTable, EncodeWords, FileData, EncodeHeader, DecodeHeader, FreeWords, SingleOwners, MarksOwned,
         DistinctNames, SetAll, Distinct, Bits;
    var l' := WithFile(LayoutOf(d), e, entry, h);
    assert FileSectors(entry.sector, h)[0] == entry.sector;
    HeaderRoundTrip(h);
    FilesKept(d, d', entry.sector, Table(d)[e := entry], words);
    AddFile(LayoutOf(d), FreeMap(d), e, entry, h);
    LayoutFrom(d', l', words);
  }

  lemma CommitDroppedFile(d: Disk, d': Disk, e: nat, words: seq<bv32>)
    requires Consistent(d) && e < NUM_DIR_ENTRIES && Table(d)[e].inUse
    requires Committed(d, d', -1, Table(d)[e := Table(d)[e].(inUse := false)], words)
    requires |words| == 32
    requires Bits(words) == SetAll(FreeMap(d), FileSectors(Table(d)[e].sector, LayoutOf(d).headers[e]), false)
    ensures LayoutOf(d') == WithoutFile(LayoutOf(d), e) && FreeWords(d') == words && Consistent(d')
    ensures forall k :: 0 <= k < NUM_DIR_ENTRIES && Table(d)[k].inUse ==>
                          FileData(d', LayoutOf(d).headers[k]) == FileData(d, LayoutOf(d).headers[k])
  {
    hide Table, EncodeTable, EncodeWords, FileData, EncodeHeader, DecodeHeader, FreeWords, SingleOwners, MarksOwned,
         DistinctNames, SetAll, Distinct, AllAre, Bits, IndexOf;
    FilesKept(d, d', -1, Table(d)[e := Table(d)[e].(inUse := false)], words);
    DropFile(LayoutOf(d), FreeMap(d), e);
    LayoutFrom(d', WithoutFile(LayoutOf(d), e), words);
  }

  /** Rewriting blocks of one listed file leaves the layout, the free map and every other file as they were. */
  lemma RewriteFile(d: Disk, d': Disk, e: nat)
    requires Consistent(d) && e < NUM_DIR_ENTRIES && Table(d)[e].inUse
    requires var h := LayoutOf(d).headers[e]; OnlyBlocksChanged(d, d', h, 0, BlockCount(h))
    ensures LayoutOf(d') == LayoutOf(d) && FreeWords(d') == FreeWords(d) && Consistent(d')
    ensures forall k :: 0 <= k < NUM_DIR_ENTRIES && k != e && Table(d)[k].inUse ==>
                          FileData(d', LayoutOf(d).headers[k]) == FileData(d, LayoutOf(d).headers[k])
  {
    hide Table, FileData, DecodeHeader, FreeWords;
    var l, bits := LayoutOf(d), FreeMap(d);
    OwnerOutsideFile(d, d', e);
    assert Where(l, MapHeader) == FREE_MAP_SECTOR && Where(l, DirHeader) == DIRECTORY_SECTOR;
    forall i | 0 <= i < BlockCount(l.mapHdr)
      ensures d'[l.mapHdr.dataSectors[i]] == d[l.mapHdr.dataSectors[i]]
    {
      assert Where(l, MapBlock(i)) == l.mapHdr.dataSectors[i];
    }
    SameData(d, d', l.mapHdr);
    forall i | 0 <= i < BlockCount(l.dirHdr)
      ensures d'[l.dirHdr.dataSectors[i]] == d[l.dirHdr.dataSectors[i]]
    {
      assert Where(l, DirBlock(i)) == l.dirHdr.dataSectors[i];
    }
    SameData(d, d', l.dirHdr);
    SameMetadata(d, d');
    forall k | 0 <= k < NUM_DIR_ENTRIES && Table(d)[k].inUse
      ensures HeaderOf(d', Table(d)[k]) == l.headers[k]
      ensures k != e ==> FileData(d', l.headers[k]) == FileData(d, l.headers[k])
    {
      assert Where(l, FileHead(k)) == Table(d)[k].sector;
      if k != e {
        forall i | 0 <= i < BlockCount(l.headers[k])
          ensures d'[l.headers[k].dataSectors[i]] == d[l.headers[k].dataSectors[i]]
        {
          assert Where(l, FileBlock(k, i)) == l.headers[k].dataSectors[i];
        }
        SameData(d, d', l.headers[k]);
      }
    }
    assert LayoutOf(d') == l;
  }

  lemma OwnerOutsideFile(d: Disk, d': Disk, e: nat)
    requires Consistent(d) && e < NUM_DIR_ENTRIES && Table(d)[e].inUse
    requires var h := LayoutOf(d).headers[e]; OnlyBlocksChanged(d, d', h, 0, BlockCount(h))
    ensures var l := LayoutOf(d); forall o :: IsOwner(l, o) && !(o.FileBlock? && o.e == e) ==> d'[Where(l, o)] == d[Where(l, o)]
  {
    hide Table, DecodeHeader, FileData, FreeMap, SingleOwners, MarksOwned, DistinctNames;
    forall o | IsOwner(LayoutOf(d), o) && !(o.FileBlock? && o.e == e)
      ensures Where(LayoutOf(d), o) !in DataSectors(LayoutOf(d).headers[e])
    {
      OutsideFile(LayoutOf(d), FreeMap(d), e, o);
    }
  }

  lemma OutsideFile(l: Layout, bits: seq<bool>, e: nat, o: Owner)
    requires LayoutOk(l, bits) && e < NUM_DIR_ENTRIES && l.table[e].inUse
    requires IsOwner(l, o) && !(o.FileBlock? && o.e == e)
    ensures Where(l, o) !in DataSectors(l.headers[e])
  {
    forall i | 0 <= i < BlockCount(l.headers[e])
      ensures DataSectors(l.headers[e])[i] != Where(l, o)
    {
      assert Where(l, FileBlock(e, i)) == l.headers[e].dataSectors[i];
    }
  }

  lemma SameMetadata(d: Disk, d': Disk)
    requires Shape(LayoutOf(d))
    requires d'[FREE_MAP_SECTOR] == d[FREE_MAP_SECTOR] && d'[DIRECTORY_SECTOR] == d[DIRECTORY_SECTOR]
    requires FileData(d', LayoutOf(d).mapHdr) == FileData(d, LayoutOf(d).mapHdr)
    requires FileData(d', LayoutOf(d).dirHdr) == FileData(d, LayoutOf(d).dirHdr)
    ensures Table(d') == Table(d) && FreeWords(d') == FreeWords(d)
  {
  }
}

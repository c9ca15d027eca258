/** The table of file names, and the directory and free map kept in files. */
module Directories {
  import opened Bytes
  import opened FreeMaps
  import opened Bitmaps
  import opened DiskLayout
  import opened OpenFiles
  import opened FileHeaders

  predicate Matches(e: DirEntry, name: seq<Byte>) {
    e.inUse && StrNEqual(e.name, name, FILE_NAME_MAX_LEN)
  }

  /** Index of the first entry in use for `name`, or -1. */
  function IndexOf(table: seq<DirEntry>, name: seq<Byte>): (r: int)
    ensures -1 <= r < |table|
    ensures r == -1 ==> forall i :: 0 <= i < |table| ==> !Matches(table[i], name)
    ensures r != -1 ==> Matches(table[r], name) && forall i :: 0 <= i < r ==> !Matches(table[i], name)
  {
    if table == [] then -1
    else
      var r := IndexOf(table[..|table| - 1], name);
      if r != -1 then r else if Matches(table[|table| - 1], name) then |table| - 1 else -1
  }

  /** Index of the first entry not in use, or -1. */
  function FreeSlot(table: seq<DirEntry>): (r: int)
    ensures -1 <= r < |table|
    ensures r == -1 ==> forall i :: 0 <= i < |table| ==> table[i].inUse
    ensures r != -1 ==> !table[r].inUse && forall i :: 0 <= i < r ==> table[i].inUse
  {
    if table == [] then -1
    else
      var r := FreeSlot(table[..|table| - 1]);
      if r != -1 then r else if !table[|table| - 1].inUse then |table| - 1 else -1
  }

  class Directory {
    const tableSize: nat
    const table: array<DirEntry>

    ghost predicate Valid() {
      table.Length == tableSize && DIR_ENTRY_SIZE * tableSize < 0x8000_0000
    }

    constructor (size: nat)
      requires DIR_ENTRY_SIZE * size < 0x8000_0000
      ensures Valid() && fresh(table) && tableSize == size
      ensures forall i :: 0 <= i < size ==> !table[i].inUse
    {
      tableSize := size;
      table := new DirEntry[size];
      new;
      for i := 0 to size
        invariant forall j :: 0 <= j < i ==> !table[j].inUse
      {
        table[i] := table[i].(inUse := false);
      }
    }

    /** Overwrites the table with the bytes of the file, as far as they go. */
    method FetchFrom(file: OpenFile)
      requires Valid() && Readable(file.hdr)
      modifies table
      ensures table[..] == DecodeTable(tableSize, Overlaid(EncodeTable(old(table[..])), FileData(file.disk.sectors, file.hdr)))
      ensures file.hdr.numBytes == DIR_ENTRY_SIZE * tableSize ==>
                table[..] == DecodeTable(tableSize, FileData(file.disk.sectors, file.hdr))
    {
      hide FileData, EncodeTable, DecodeTable;
      TableRoundTrip(table[..]);
      ghost var before := EncodeTable(table[..]);
      var raw := ToBuffer(EncodeTable(table[..]));
      var n := file.ReadAt(raw, 0, DIR_ENTRY_SIZE * tableSize, 0);
      WholeFile(before, FileData(file.disk.sectors, file.hdr));
      assert raw[..] == Overlaid(before, FileData(file.disk.sectors, file.hdr));
      var entries := DecodeTable(tableSize, raw[..]);
      forall i | 0 <= i < tableSize {
        table[i] := entries[i];
      }
      assert table[..] == entries;
    }

    /** Overwrites the file with the bytes of the table, as far as the file goes. */
    method WriteBack(file: OpenFile)
      requires Valid() && Readable(file.hdr) && Distinct(DataSectors(file.hdr))
      modifies file.disk
      ensures FileData(file.disk.sectors, file.hdr) ==
        Overlaid(FileData(old(file.disk.sectors), file.hdr), EncodeTable(table[..]))
      ensures file.hdr.numBytes == DIR_ENTRY_SIZE * tableSize ==> FileData(file.disk.sectors, file.hdr) == EncodeTable(table[..])
      ensures OnlyBlocksChanged(old(file.disk.sectors), file.disk.sectors, file.hdr, 0, BlockCount(file.hdr))
    {
      hide FileData, EncodeTable;
      TableRoundTrip(table[..]);
      var raw := ToBuffer(EncodeTable(table[..]));
      WholeFile(FileData(file.disk.sectors, file.hdr), raw[..]);
      var n := file.WriteAt(raw, DIR_ENTRY_SIZE * tableSize, 0);
    }

    method FindIndex(name: seq<Byte>) returns (r: int)
      requires Valid()
      ensures r == IndexOf(table[..], name)
    {
      for i := 0 to tableSize
        invariant forall j :: 0 <= j < i ==> !Matches(table[j], name)
      {
        if table[i].inUse && StrNEqual(table[i].name, name, FILE_NAME_MAX_LEN) {
          return i;
        }
      }
      return -1;
    }

    method Find(name: seq<Byte>) returns (sector: int)
      requires Valid()
      ensures sector == if IndexOf(table[..], name) == -1 then -1 else table[IndexOf(table[..], name)].sector
    {
      var i := FindIndex(name);
      if i != -1 {
        return table[i].sector;
      }
      return -1;
    }

    /** Adds an entry in the first free slot, unless the name is there already or there is no slot. */
    method Add(name: seq<Byte>, newSector: Int32) returns (ok: bool)
      requires Valid()
      modifies table
      ensures ok <==> IndexOf(old(table[..]), name) == -1 && FreeSlot(old(table[..])) != -1
      ensures !ok ==> table[..] == old(table[..])
      ensures ok ==> var slot := FreeSlot(old(table[..]));
                     table[..] == old(table[..])
                       [slot := DirEntry(true, newSector, StrNCpy(old(table[slot].name), name, FILE_NAME_MAX_LEN))]
    {
      var found := FindIndex(name);
      if found != -1 {
        return false;
      }
      for i := 0 to tableSize
        invariant forall j :: 0 <= j < i ==> table[j].inUse
      {
        if !table[i].inUse {
          table[i] := DirEntry(true, newSector, StrNCpy(table[i].name, name, FILE_NAME_MAX_LEN));
          return true;
        }
      }
      return false;
    }

    method Remove(name: seq<Byte>) returns (ok: bool)
      requires Valid()
      modifies table
      ensures ok <==> IndexOf(old(table[..]), name) != -1
      ensures table[..] == if ok then var i := IndexOf(old(table[..]), name);
                                      old(table[..])[i := old(table[i]).(inUse := false)]
                           else old(table[..])
    {
      var i := FindIndex(name);
      if i == -1 {
        return false;
      }
      table[i] := table[i].(inUse := false);
      return true;
    }
  }

  /** Overwrites a bitmap with the bytes of the file, as far as they go. */
  method FetchBitmap(map': Bitmap, file: OpenFile)
    requires map'.Valid() && 4 * map'.numWords < 0x8000_0000 && Readable(file.hdr)
    modifies map'.words
    ensures map'.words[..] ==
      DecodeWords(map'.numWords, Overlaid(EncodeWords(old(map'.words[..])), FileData(file.disk.sectors, file.hdr)))
    ensures file.hdr.numBytes == 4 * map'.numWords ==>
              map'.words[..] == DecodeWords(map'.numWords, FileData(file.disk.sectors, file.hdr))
  {
    hide FileData, EncodeWords, DecodeWords;
    WordsRoundTrip(map'.words[..]);
    ghost var before := EncodeWords(map'.words[..]);
    var raw := ToBuffer(EncodeWords(map'.words[..]));
    var n := file.ReadAt(raw, 0, 4 * map'.numWords, 0);
    WholeFile(before, FileData(file.disk.sectors, file.hdr));
    assert raw[..] == Overlaid(before, FileData(file.disk.sectors, file.hdr));
    var words := DecodeWords(map'.numWords, raw[..]);
    forall i | 0 <= i < map'.numWords {
      map'.words[i] := words[i];
    }
    assert map'.words[..] == words;
  }

  /** Overwrites the file with the words of a bitmap, as far as the file goes. */
  method WriteBitmap(map': Bitmap, file: OpenFile)
    requires map'.Valid() && 4 * map'.numWords < 0x8000_0000
    requires Readable(file.hdr) && Distinct(DataSectors(file.hdr))
    modifies file.disk
    ensures FileData(file.disk.sectors, file.hdr) ==
      Overlaid(FileData(old(file.disk.sectors), file.hdr), EncodeWords(map'.words[..]))
    ensures file.hdr.numBytes == 4 * map'.numWords ==> FileData(file.disk.sectors, file.hdr) == EncodeWords(map'.words[..])
    ensures OnlyBlocksChanged(old(file.disk.sectors), file.disk.sectors, file.hdr, 0, BlockCount(file.hdr))
  {
    hide FileData, EncodeWords;
    WordsRoundTrip(map'.words[..]);
    var raw := ToBuffer(EncodeWords(map'.words[..]));
    WholeFile(FileData(file.disk.sectors, file.hdr), raw[..]);
    var n := file.WriteAt(raw, 4 * map'.numWords, 0);
  }

  /** A block of memory, or a file, after as much of `s` as fits was copied over its start. */
  function Overlaid(into: seq<Byte>, s: seq<Byte>): (r: seq<Byte>)
    ensures |r| == |into|
  {
    var n := if |into| < |s| then |into| else |s|;
    Splice(into, 0, s[..n])
  }

  lemma WholeFile(into: seq<Byte>, s: seq<Byte>)
    ensures |into| == |s| ==> Overlaid(into, s) == s
    ensures s == [] || into == [] ==> Overlaid(into, s) == into
  {
  }
}

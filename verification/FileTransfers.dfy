/** The kernel's own users of files: Copy, which fills a new file chunk by chunk, and Print, which reads one chunk by
    chunk. */
module FileTransfers {
  import opened Bytes
  import opened FreeMaps
  import opened FileChunks
  import opened DiskLayout
  import opened OpenFiles
  import opened FileHeaders
  import opened Directories
  import opened Volumes
  import opened VolumeContents
  import opened FileSystems
  import opened FileSystemRuns

  const TRANSFER_SIZE := 128

  /** Writes chunks one after the other, from the file's place on. */
  method WriteInChunks(file: OpenFile, chunks: seq<seq<Byte>>)
    requires Readable(file.hdr) && Distinct(DataSectors(file.hdr))
    requires file.seekPosition >= 0 && file.seekPosition + |Concat(chunks)| < 0x8000_0000
    modifies file, file.disk
    ensures file.seekPosition >= 0 && file.View() == WriteChunks(old(file.View()), chunks)
    ensures OnlyBlocksChanged(old(file.disk.sectors), file.disk.sectors, file.hdr, 0, BlockCount(file.hdr))
  {
    hide FileData, WriteChunk, DataSectors, Distinct;
    ghost var start := file.View();
    assert chunks[0..] == chunks;
    for i := 0 to |chunks|
      invariant file.seekPosition >= 0 && file.seekPosition + |Concat(chunks[i..])| < 0x8000_0000
      invariant WriteChunks(file.View(), chunks[i..]) == WriteChunks(start, chunks)
      invariant OnlyBlocksChanged(old(file.disk.sectors), file.disk.sectors, file.hdr, 0, BlockCount(file.hdr))
    {
      assert chunks[i..][0] == chunks[i] && chunks[i..][1..] == chunks[i + 1..];
      var from := ToBuffer(chunks[i]);
      var n := file.Write(from, |chunks[i]|);
      assert from[..|chunks[i]|] == chunks[i];
    }
    assert chunks[|chunks|..] == [];
  }

  /** Reads chunks of the given sizes one after the other, from the file's place on. */
  method ReadInChunks(file: OpenFile, sizes: seq<nat>) returns (data: seq<Byte>)
    requires Readable(file.hdr) && file.seekPosition >= 0 && file.seekPosition + Sum(sizes) < 0x8000_0000
    modifies file
    ensures file.seekPosition >= 0 && (data, file.View()) == ReadChunks(old(file.View()), sizes)
  {
    hide FileData, ReadChunk, Readable;
    ghost var start := file.View();
    assert sizes[0..] == sizes;
    data := [];
    for i := 0 to |sizes|
      invariant file.seekPosition >= 0 && file.seekPosition + Sum(sizes[i..]) < 0x8000_0000
      invariant ReadChunks(start, sizes).0 == data + ReadChunks(file.View(), sizes[i..]).0
      invariant ReadChunks(start, sizes).1 == ReadChunks(file.View(), sizes[i..]).1
    {
      assert sizes[i..][0] == sizes[i] && sizes[i..][1..] == sizes[i + 1..];
      var into := new Byte[sizes[i]];
      var n := file.Read(into, sizes[i]);
      ghost var rest := ReadChunks(file.View(), sizes[i + 1..]).0;
      assert data + (into[..n] + rest) == (data + into[..n]) + rest;
      data := data + into[..n];
    }
    assert sizes[|sizes|..] == [] && data + [] == data;
  }

  /** Bytes written in chunks to an open file and, after going back, read in chunks of any other sizes, are the bytes
      that were written. */
  method WriteSeekRead(file: OpenFile, chunks: seq<seq<Byte>>, sizes: seq<nat>) returns (data: seq<Byte>)
    requires Readable(file.hdr) && Distinct(DataSectors(file.hdr))
    requires file.seekPosition >= 0 && file.seekPosition + |Concat(chunks)| < 0x8000_0000
    requires Sum(sizes) <= Clip(file.hdr.numBytes, |Concat(chunks)|, file.seekPosition)
    modifies file, file.disk
    ensures data == Concat(chunks)[..Sum(sizes)]
    ensures file.seekPosition == old(file.seekPosition) + Sum(sizes)
    ensures file.View().data == WriteChunk(old(file.View()), Concat(chunks)).data
  {
    hide FileData, ReadChunks, WriteChunks, DataSectors, Distinct, Concat, Sum;
    ghost var start := file.View();
    var position := file.seekPosition;
    WriteInChunks(file, chunks);
    file.Seek(position);
    data := ReadInChunks(file, sizes);
    ChunkedRoundTrip(start, chunks, sizes);
    WriteChunksIsOneWrite(start, chunks);
    ReadChunksIsOneRead(WriteChunks(start, chunks).(position := position), sizes);
  }

  /** Copy: `chunks` is what ReadPartial delivers, call by call. It succeeds exactly if the name is new, there is room and
      the host file is not over the limit; then the file system has one file more, and it holds all the bytes. A host
      file over the limit is refused, or overruns the header, exactly as in Create. */
  method Copy(fs: FileSystem, chunks: seq<seq<Byte>>, to: seq<Byte>) returns (copied: bool, overrun: bool)
    requires fs.Valid() && |Concat(chunks)| < 0x8000_0000
    modifies fs.disk
    ensures fs.Valid()
    ensures var d, size := old(fs.disk.sectors), |Concat(chunks)|;
      && (copied <==> Key(to) !in Files(d) && RoomFor(d, size) && size <= MAX_FILE_SIZE)
      && (overrun <==> Key(to) !in Files(d) && RoomFor(d, size) && size > MAX_FILE_SIZE)
    ensures !copied ==> fs.disk.sectors == old(fs.disk.sectors)
    ensures copied ==> Files(fs.disk.sectors) == Files(old(fs.disk.sectors))[Key(to) := Concat(chunks)]
  {
    hide Table, DecodeHeader, FileData, Files, Listing, FreeWords, FreeMap, LayoutOk, Splice, Names, Created, Concat,
         LayoutOf, CountClear, FreeSlot, OthersKept;
    ghost var d := fs.disk.sectors;
    HeaderByKey(d, to);
    copied, overrun := fs.Create(to, |Concat(chunks)|);
    if copied {
      ghost var d1 := fs.disk.sectors;
      ghost var entry, h :| Created(d, d1, to, |Concat(chunks)|, entry, h);
      CreateAddsFile(d, d1, to, |Concat(chunks)|, entry, h);
      Fill(fs, chunks, to);
    }
  }

  /** Copy's loop: opens the new file and writes to it. */
  method Fill(fs: FileSystem, chunks: seq<seq<Byte>>, to: seq<Byte>)
    requires fs.Valid() && Key(to) in Files(fs.disk.sectors)
    requires |Files(fs.disk.sectors)[Key(to)]| == |Concat(chunks)| <= MAX_FILE_SIZE
    modifies fs.disk
    ensures fs.Valid() && Files(fs.disk.sectors) == Files(old(fs.disk.sectors))[Key(to) := Concat(chunks)]
  {
    hide Table, DecodeHeader, FileData, Files, Listing, FreeWords, FreeMap, LayoutOk, Splice, Names, Created, Concat;
    ghost var d := fs.disk.sectors;
    HeaderByKey(d, to);
    var file := fs.Open(to);
    OpenedFileIsUsable(d, to);
    WriteInChunks(file, chunks);
    FilledFile(d, fs.disk.sectors, to, file.hdr, chunks);
  }

  /** A file as long as the chunks together, filled with them. */
  lemma FilledFile(d: Disk, d': Disk, name: seq<Byte>, h: Header, chunks: seq<seq<Byte>>)
    requires Consistent(d) && IndexOf(Table(d), name) != -1 && h == OpenedHeader(d, name) && Readable(h)
    requires |FileData(d, h)| == |Concat(chunks)|
    requires WriteChunks(Cursor(FileData(d, h), 0), chunks).data == FileData(d', h)
    requires OnlyBlocksChanged(d, d', h, 0, BlockCount(h))
    ensures Consistent(d') && LayoutOf(d') == LayoutOf(d) && FreeWords(d') == FreeWords(d)
    ensures Files(d') == Files(d)[Key(name) := Concat(chunks)]
  {
    hide Table, DecodeHeader, Files, Listing, FreeWords, FreeMap, Consistent, Names, Concat, WriteChunks, IndexOf;
    var f := FileData(d, h);
    OpenedFileIsUsable(d, name);
    WriteChunksIsOneWrite(Cursor(f, 0), chunks);
    OpenedLength(d, name);
    assert Concat(chunks)[..|f|] == Concat(chunks) && Splice(f, 0, Concat(chunks)) == Concat(chunks);
    assert Written(d, d', name, 0, Concat(chunks));
    WriteChangesFile(d, d', name, 0, Concat(chunks));
  }

  /** Print delivers exactly the bytes of the file. */
  method Print(fs: FileSystem, name: seq<Byte>) returns (found: bool, printed: seq<Byte>)
    requires fs.Valid()
    ensures found <==> Key(name) in Files(fs.disk.sectors)
    ensures found ==> printed == Files(fs.disk.sectors)[Key(name)]
  {
    hide Table, DecodeHeader, FileData, Files, Listing, FreeWords, FreeMap, LayoutOk, Names;
    ghost var d := fs.disk.sectors;
    HeaderByKey(d, name);
    var file := fs.Open(name);
    if file == null {
      return false, [];
    }
    OpenedFileIsUsable(d, name);
    printed := ReadAll(file);
    return true, printed;
  }

  /** What one more read adds to what was read from the start of the file. */
  lemma ReadGoesOn(c: Cursor, size: nat)
    requires c.position <= |c.data| && size > 0
    ensures var (s, c') := ReadChunk(c, size);
      && c'.data == c.data && c'.position <= |c.data| && c'.position == c.position + |s|
      && c.data[..c.position] + s == c.data[..c'.position] && (s == [] ==> c.position == |c.data|)
  {
  }

  /** The loop of Print: reads until a read delivers nothing. */
  method ReadAll(file: OpenFile) returns (printed: seq<Byte>)
    requires Readable(file.hdr) && file.seekPosition == 0
    modifies file
    ensures printed == FileData(file.disk.sectors, file.hdr)
  {
    FileLength(file.disk.sectors, file.hdr);
    hide FileData, ReadChunk, Readable;
    ghost var f := FileData(file.disk.sectors, file.hdr);
    var buffer := new Byte[TRANSFER_SIZE];
    ReadGoesOn(file.View(), TRANSFER_SIZE);
    var amountRead: nat := file.Read(buffer, TRANSFER_SIZE);
    printed := [];
    while amountRead > 0
      invariant amountRead <= TRANSFER_SIZE && 0 <= file.seekPosition <= |f|
      invariant printed + buffer[..amountRead] == f[..file.seekPosition]
      invariant amountRead == 0 ==> file.seekPosition == |f|
      decreases |f| - file.seekPosition, amountRead
    {
      printed := printed + buffer[..amountRead];
      ReadGoesOn(file.View(), TRANSFER_SIZE);
      amountRead := file.Read(buffer, TRANSFER_SIZE);
    }
    assert printed + buffer[..0] == printed && f[..|f|] == f;
  }

  lemma FileLength(d: Disk, h: Header)
    requires Readable(h)
    ensures |FileData(d, h)| <= MAX_FILE_SIZE
  {
  }
}

# A verified model of NachOS and of the pthread pipeline

The repository holds a teaching operating system, NachOS, with its simulated hardware, and a program that
moves items through a pipeline of threads. This project models the parts with the most state and proves what
they keep. `dafny verify dfyconfig.toml` checks everything.

## What is modelled

**The file system.** A disk is 1024 sectors of 128 bytes, and everything is read back from those bytes: the two
fixed headers, the free map and the directory, which are files on the disk that they describe, the header of
each listed file and its data. `Volumes` says what a consistent disk is: every sector has at most one owner, the
free map marks exactly the owned ones, no two entries have the same nine-character name. `Bitmaps`,
`FileHeaders`, `Directories`, `OpenFiles` and `FileSystems` are the classes of the source, with the free map in
32-bit words, the sector loops and the partial first and last blocks; each method is proved against a function of
the bytes. A file's content is its first `numBytes` bytes; what its last sector holds after them is arbitrary after a
write. `FileSystemRuns` states what the operations do to the disk seen as a map from names to bytes, over
runs of any length, and runs them on the class. `NamedFiles` says which names are different files. `FileTransfers` is
the copying of a host file into the file system and the printing of a file, chunk by chunk.

**Kernel threads.** A context switch falls only where interrupts are enabled or a thread sleeps, so each
operation is cut into atomic steps and the steps of any number of threads interleave freely. `Semaphores`,
`Locks`, `SynchLists` and `SynchDisks` are built on one another: the steps of a lock are steps of the list and of
the disk that use it. The sequential `SynchDisk` under the file system is what `SynchDisks.ReadsLatestWrite`
shows the concurrent one to be for its callers. `Scheduling` has the ready list, the wait queues, the sleeping
thread that is still current and the burial of a finished one. `Interrupts` has the clock and the queue of
pending interrupts, with handlers that may schedule more; each is tied to the moment at which it was asked for.

**Simulated hardware.** `DiskTiming` has the latency of a request with the track buffer, `Multiply` the
two-word multiplication, `WordLanes`, `VirtualMemory`, `AlignedAccess`, `UnalignedAccess`, `Instructions` and `Machines`
the loads and stores over page table or TLB, with the delayed-load slot; the unaligned ones for builds with SIM_FIX.

**Containers.** `Lists` are the linked lists with their pointers, `HashTables` the self-expanding table of such lists
and its iterator.

**The pipeline.** `TsQueues` is the bounded ring buffer with its mutex and two conditions, `Pipelines` the
threads around three of them, `Completion` when they can finish, `Transforms` the arithmetic on the items.

A class stands where the source updates fields in place. Its methods are tied to functions of the old state, and
the lemmas are about those functions. Where control leaves a method in the middle, in `P`, in `Wait`, in a
blocking `enqueue`, the parts between are the steps of a state machine, and a history variable records what the
property speaks of: completed P's and V's, who went to sleep and who was woken, what was appended, what was asked for,
what reached the disk.

## Where the obvious claim fails

- A file header never checks the number of its slots. A file over `MaxFileSize` for which there is room makes
  `FileHeader.Allocate` write behind the last one: `FileSystem.Create` succeeds or overruns exactly as
  `FileSystems.Creatable` and `FileSystems.Overruns` say, both of which a caller can check, and
  `FileSystems.CreateTooLong` overruns. The model ends such a call where the source leaves the header.
- A taken lock need not have a recorded holder: it is recorded only after `P` has returned, and cleared before `V`.
  `Locks.TakenIsRecorded` says exactly when it is recorded, `Locks.TakenUnrecorded` is a run in which it is not;
  `Locks.UnitOrOwner` counts threads between P and V instead.
- The base register of an unaligned pair must not only differ from the loaded one: the second address is right
  exactly if no load of another value was on its way to the base when the pair began
  (`UnalignedAccess.BaseStays`; `UnalignedAccess.BaseHazard` is a processor for which it is not). A store reads its
  register without looking at the delayed-load slot; `UnalignedAccess.StorePair` says exactly when the pair still
  stores the register, and in `UnalignedAccess.StoreHazard` it does not.
- A transform whose first product exceeds 64 bits is not the affine map modulo m: `Transforms.Transform` states
  what it is, and `Transforms.AffineExactlyIfNoWrap` exactly when it is that map; `Transforms.WrappingIsNotAffine`
  has an input for which it is not.
- A list refuses an item that it holds already. `SynchLists.AppendAsserts` says exactly when that assertion holds, in
  terms of what went in and came out, and `SynchLists.AppendTwiceAsserts` is a run in which it fails.
- The pipeline has no consumer until its worker queue first passes the high threshold. A run can write all lines
  exactly if there are none or `Completion.CanFinish` holds of the configuration (`Completion.FinishesExactly`), with
  the numbers of main exactly if there are more than 160 lines or none; where it fails nothing is ever written
  (`Completion.NothingWritten`, for a file of one line `Completion.OneLineIsNeverWritten`), and where it holds every
  run goes on to the end (`Completion.EveryRunCanEnd`).

## Model

| member | source | states |
|---|---|---|
| `Bytes.IntRoundTrip` | NachOS-4.0_MP1/code/filesys/filehdr.cc:79-92 | an int, negative or not, written to memory as four little-endian bytes and read back is the same int |
| `Bytes.PackRoundTrip` | NachOS-4.0_MP1/code/filesys/directory.cc:61-74 | an array of fixed-size records laid out in a file and read back is the same array |
| `Bytes.WordRoundTrip` | NachOS-4.0_MP1/code/filesys/pbitmap.cc:60-73 | a 32-bit map word survives being stored as bytes |
| `Bytes.IntLayout` | NachOS-4.0_MP1/code/filesys/filehdr.cc:79-92 | the four bytes of an int, the lowest first, are its value modulo 2^32 in base 256 |
| `Bytes.PackAt` | NachOS-4.0_MP1/code/filesys/directory.cc:61-74 | each record of an array lies at the multiple of the record size |
| `DiskLayout.HeaderRoundTrip` | NachOS-4.0_MP1/code/filesys/filehdr.cc:79-92 | a file header written to its sector and fetched again is the same header, all thirty block numbers included |
| `DiskLayout.EntryRoundTrip` | NachOS-4.0_MP1/code/filesys/directory.h:32-39 | a directory entry survives its 20-byte layout |
| `DiskLayout.TableRoundTrip` | NachOS-4.0_MP1/code/filesys/directory.cc:61-74 | the whole directory table survives being written to and fetched from its file |
| `DiskLayout.WordsRoundTrip` | NachOS-4.0_MP1/code/filesys/pbitmap.cc:60-73 | the words of the free map survive being written to and fetched from their file |
| `DiskLayout.HeaderLayout` | NachOS-4.0_MP1/code/filesys/filehdr.h:60-63 | the sector of a header holds the two lengths and then the sectors, four bytes each, in this order |
| `DiskLayout.TableLayout` | NachOS-4.0_MP1/code/filesys/directory.h:32-39 | entry i starts at byte 20 i of the directory file: the flag, the sector from byte 4 on, the name from byte 8 on |
| `DiskLayout.UpToNul` | NachOS-4.0_MP1/code/filesys/directory.cc:86 | the characters of a name that count: none is zero, and they end only at the terminator, at the end of the string, or after n |
| `DiskLayout.StrNCpy` | NachOS-4.0_MP1/code/filesys/directory.cc:126 | the first n characters of the buffer are those of the name, zeros from its end on, and what lies behind them stays |
| `DiskLayout.EqualIfSameChars` | NachOS-4.0_MP1/code/filesys/directory.cc:86 | two names match exactly if they have the same characters at the first n places |
| `DiskLayout.UnequalIfDiffer` | NachOS-4.0_MP1/code/filesys/directory.cc:86 | two names do not match exactly if they differ within n characters, before either has ended |
| `DiskLayout.UpToNulOfCopy` | NachOS-4.0_MP1/code/filesys/directory.cc:126 | what counts of a stored name is what counts of the given one |
| `DiskLayout.StoredNameMatches` | NachOS-4.0_MP1/code/filesys/directory.cc:84-126 | a stored name matches exactly the names that the given one matches |
| `BitWords.MarkWord` | NachOS-4.0_MP1/code/lib/bitmap.cc:54-60 | or-ing one shifted bit into one word sets that one bit of the whole map and no other |
| `BitWords.ClearWord` | NachOS-4.0_MP1/code/lib/bitmap.cc:69-75 | masking one word with a complemented bit clears that one bit of the map and no other |
| `BitWords.SameBitsSameWords` | NachOS-4.0_MP1/code/lib/bitmap.cc:84-92 | two maps that test alike everywhere are equal word for word |
| `FreeMaps.FirstClear` | NachOS-4.0_MP1/code/lib/bitmap.cc:103-111 | the bit handed out is the lowest clear one, and there is none exactly if all are set |
| `FreeMaps.CountSetAll` | NachOS-4.0_MP1/code/lib/bitmap.cc:119-128 | setting n distinct clear bits leaves exactly n fewer clear bits; clearing them, n more |
| `FreeMaps.ClearBitExists` | NachOS-4.0_MP1/code/filesys/filehdr.cc:46-53 | while the count of clear bits is positive the search finds one, so the assertion in Allocate holds |
| `FreeMaps.SetThenClear` | NachOS-4.0_MP1/code/lib/bitmap.cc:54-75 | marking clear bits and then clearing them, in any order, gives back the same map |
| `Bitmaps.Bitmap.constructor` | NachOS-4.0_MP1/code/lib/bitmap.cc:22-36 | a new map has every bit clear |
| `Bitmaps.Bitmap.Mark` | NachOS-4.0_MP1/code/lib/bitmap.cc:54-60 | exactly one bit of the map becomes set |
| `Bitmaps.Bitmap.Clear` | NachOS-4.0_MP1/code/lib/bitmap.cc:69-75 | exactly one bit of the map becomes clear |
| `Bitmaps.Bitmap.Test` | NachOS-4.0_MP1/code/lib/bitmap.cc:84-92 | the word test answers whether that bit of the map is set |
| `Bitmaps.Bitmap.FindAndSet` | NachOS-4.0_MP1/code/lib/bitmap.cc:103-111 | marks and returns the lowest clear bit, or returns -1 and leaves the map as it was |
| `Bitmaps.Bitmap.NumClear` | NachOS-4.0_MP1/code/lib/bitmap.cc:119-128 | counts exactly the clear bits |
| `FileChunks.Clip` | NachOS-4.0_MP1/code/filesys/openfile.cc:113-116 | how many bytes a request transfers: never past the end of the file, none for an empty or misplaced request |
| `FileChunks.WriteChunksIsOneWrite` | NachOS-4.0_MP1/code/filesys/openfile.cc:76-80 | any series of sequential writes amounts to one write of all the bytes |
| `FileChunks.ReadChunksIsOneRead` | NachOS-4.0_MP1/code/filesys/openfile.cc:70-74 | any series of sequential reads amounts to one read |
| `FileChunks.ChunkedRoundTrip` | NachOS-4.0_MP1/code/filesys/openfile.cc:70-80 | writing in chunks, seeking back and reading in chunks of any other sizes gives back what was written, as far as the file goes |
| `OpenFiles.SynchDisk.ReadSector` | NachOS-4.0_MP1/code/filesys/synchdisk.cc:55-60 | the buffer receives the sector and nothing outside its 128 bytes changes |
| `OpenFiles.SynchDisk.WriteSector` | NachOS-4.0_MP1/code/filesys/synchdisk.cc:71-76 | that sector and no other changes |
| `OpenFiles.FileData` | NachOS-4.0_MP1/code/filesys/filehdr.cc:104-115 | the content of a file is its first numBytes bytes, whatever its last sector holds after them |
| `OpenFiles.DataOfBlock` | NachOS-4.0_MP1/code/filesys/filehdr.cc:104-106 | bytes 128 i to 128 i + 127 of a file, as far as it goes, are those of the header's i-th sector |
| `OpenFiles.DataAfterWrite` | NachOS-4.0_MP1/code/filesys/openfile.cc:167-169 | a file whose blocks in a range were overwritten has the new bytes in that range and its old bytes elsewhere |
| `OpenFiles.PrepareBuffer` | NachOS-4.0_MP1/code/filesys/openfile.cc:156-161 | reading back the first and the last block, where the range does not cover them, is enough for every alignment of both ends |
| `OpenFiles.MergeBuffer` | NachOS-4.0_MP1/code/filesys/openfile.cc:163-169 | the buffer sent to the disk is the file with the new bytes spliced in, cut to whole blocks |
| `OpenFiles.OpenFile.constructor` | NachOS-4.0_MP1/code/filesys/openfile.cc:30-34 | an opened file has the header stored in its sector and stands at its beginning |
| `OpenFiles.OpenFile.ReadBlocks` | NachOS-4.0_MP1/code/filesys/openfile.cc:124-127 | whole blocks are fetched in order |
| `OpenFiles.OpenFile.ReadAt` | NachOS-4.0_MP1/code/filesys/openfile.cc:108-133 | returns the exact slice of the file, for every alignment of both ends, and writes nothing else into the caller's buffer |
| `OpenFiles.OpenFile.WriteBlocks` | NachOS-4.0_MP1/code/filesys/openfile.cc:167-169 | the blocks in the range receive the buffer, and no other sector changes |
| `OpenFiles.OpenFile.FillBuffer` | NachOS-4.0_MP1/code/filesys/openfile.cc:151-164 | the buffer holds the new bytes, and the old ones wherever the file goes on around them |
| `OpenFiles.OpenFile.WriteAt` | NachOS-4.0_MP1/code/filesys/openfile.cc:135-172 | the file becomes the old one with the new bytes spliced in, for every alignment; no sector outside the file changes; nothing happens if nothing is transferred |
| `OpenFiles.OpenFile.Seek` | NachOS-4.0_MP1/code/filesys/openfile.cc:53-55 | sets the place of the next transfer |
| `OpenFiles.OpenFile.Read` | NachOS-4.0_MP1/code/filesys/openfile.cc:70-74 | delivers the next bytes of the file and advances by as many |
| `OpenFiles.OpenFile.Write` | NachOS-4.0_MP1/code/filesys/openfile.cc:76-80 | splices the bytes in at the current place and advances by as many |
| `FileHeaders.TakeOneMore` | NachOS-4.0_MP1/code/filesys/filehdr.cc:49-54 | each block taken is the lowest free sector left, so the blocks come in increasing order and each was free |
| `FileHeaders.GiveBackOneMore` | NachOS-4.0_MP1/code/filesys/filehdr.cc:66-69 | while blocks are given back one by one, the next one is still marked |
| `FileHeaders.FileHeader.FetchFrom` | NachOS-4.0_MP1/code/filesys/filehdr.cc:79-81 | the header becomes the one stored in the sector |
| `FileHeaders.FileHeader.WriteBack` | NachOS-4.0_MP1/code/filesys/filehdr.cc:90-92 | the sector stores the header and no other sector changes |
| `FileHeaders.SlotsSuffice` | NachOS-4.0_MP1/code/filesys/filehdr.h:20-21 | the blocks of a file fit into the slots of its header exactly if the file is not over MaxFileSize |
| `Bitmaps.JustEnough` | NachOS-4.0_MP1/code/lib/utility.h:25 | the rounded-up quotient is the least number of sectors that holds so many bytes |
| `FileHeaders.FileHeader.Allocate` | NachOS-4.0_MP1/code/filesys/filehdr.cc:43-56 | refuses exactly if fewer than ceil(size/128) sectors are free, and leaves the map as it was; otherwise takes exactly that many, each once, each free before, and the inner assertion never fails, exactly if the size is not over MaxFileSize; above it the loop fills all slots and comes to one behind them |
| `FileHeaders.FileHeader.Deallocate` | NachOS-4.0_MP1/code/filesys/filehdr.cc:65-70 | clears exactly the file's blocks; the assertion that each is marked never fails |
| `Directories.IndexOf` | NachOS-4.0_MP1/code/filesys/directory.cc:84-89 | the first entry in use whose name agrees on nine characters, or none if there is no such entry |
| `Directories.FreeSlot` | NachOS-4.0_MP1/code/filesys/directory.cc:123-130 | the first entry not in use, or none if all are |
| `Directories.Directory.constructor` | NachOS-4.0_MP1/code/filesys/directory.cc:38-43 | a new table lists no file |
| `Directories.Directory.FetchFrom` | NachOS-4.0_MP1/code/filesys/directory.cc:61-63 | the table becomes the one stored in the file; of a shorter file, as much of it as there is |
| `Directories.Directory.WriteBack` | NachOS-4.0_MP1/code/filesys/directory.cc:72-74 | the file stores the table, cut if the file is shorter, and no sector outside the file changes |
| `Directories.Directory.FindIndex` | NachOS-4.0_MP1/code/filesys/directory.cc:84-89 | the scan finds the first matching entry in use |
| `Directories.Directory.Find` | NachOS-4.0_MP1/code/filesys/directory.cc:100-106 | answers the header sector of the named file, or -1 if it is not listed |
| `Directories.Directory.Add` | NachOS-4.0_MP1/code/filesys/directory.cc:119-131 | adds an entry exactly if the name is absent and a slot is free; otherwise the table is as it was |
| `Directories.Directory.Remove` | NachOS-4.0_MP1/code/filesys/directory.cc:141-148 | frees the entry of the name exactly if there is one, and touches no other |
| `Directories.FetchBitmap` | NachOS-4.0_MP1/code/filesys/pbitmap.cc:60-62 | the words of the map become those stored in the file; of a shorter file, as much of it as there is |
| `Directories.WriteBitmap` | NachOS-4.0_MP1/code/filesys/pbitmap.cc:71-73 | the file stores the words of the map, cut if the file is shorter, and no sector outside the file changes |
| `Volumes.AddFile` | NachOS-4.0_MP1/code/filesys/filesys.cc:189-204 | a file put on free sectors keeps the invariant: one owner for each sector, the map marks exactly the owned ones, names differ |
| `Volumes.DropFile` | NachOS-4.0_MP1/code/filesys/filesys.cc:266-275 | dropping a file and clearing its sectors keeps the invariant |
| `Volumes.FileSectorsMarked` | NachOS-4.0_MP1/code/filesys/filehdr.cc:65-70 | the header and data sectors of a listed file are pairwise distinct and all marked |
| `VolumeContents.MetadataApart` | NachOS-4.0_MP1/code/filesys/filesys.cc:82-127 | the files that store the free map and the directory share no sector with each other or with anything else |
| `VolumeContents.FoundByName` | NachOS-4.0_MP1/code/filesys/directory.cc:84-89 | with distinct names, each listed file is the one found under its name |
| `VolumeContents.FindingByKey` | NachOS-4.0_MP1/code/filesys/directory.cc:84-126 | looking a name up and looking up its first nine characters is the same |
| `VolumeContents.FreeSectorApart` | NachOS-4.0_MP1/code/filesys/filesys.cc:189-204 | a sector handed out for a new file belongs to no metadata |
| `VolumeUpdates.MetadataKept` | NachOS-4.0_MP1/code/filesys/filesys.cc:202-204 | rewriting the directory file does not disturb the free map file, nor the other way round |
| `VolumeUpdates.FilesKept` | NachOS-4.0_MP1/code/filesys/filesys.cc:200-204 | a commit of directory and free map changes no listed file's header or bytes |
| `VolumeUpdates.CommitNewFile` | NachOS-4.0_MP1/code/filesys/filesys.cc:200-204 | after a new header, the directory and the free map were written the disk holds the old files, the new one, and satisfies the invariant |
| `VolumeUpdates.CommitDroppedFile` | NachOS-4.0_MP1/code/filesys/filesys.cc:266-280 | after directory and free map were written the disk holds all files but the dropped one, and satisfies the invariant |
| `VolumeUpdates.RewriteFile` | NachOS-4.0_MP1/code/filesys/openfile.cc:135-172 | overwriting blocks of one file leaves the metadata and every other file as they were |
| `FileSystems.TakenIsNext` | NachOS-4.0_MP1/code/filesys/filesys.cc:94-101 | on an empty map the fixed files get the sectors right after the two headers |
| `FileSystems.FormattedLayout` | NachOS-4.0_MP1/code/filesys/filesys.cc:82-127 | a formatted disk satisfies the invariant |
| `FileSystems.FormatDone` | NachOS-4.0_MP1/code/filesys/filesys.cc:109-127 | the two headers, the empty directory and the free map, written in turn to a disk with any contents, make a consistent file system |
| `FileSystems.CreatedLayout` | NachOS-4.0_MP1/code/filesys/filesys.cc:200-204 | the sectors rewritten by a creation make a consistent disk, with the old files and the new one |
| `FileSystems.RemovedLayout` | NachOS-4.0_MP1/code/filesys/filesys.cc:271-280 | the sectors rewritten by a removal make a consistent disk, with every file but the one removed |
| `FileSystems.PlanFormat` | NachOS-4.0_MP1/code/filesys/filesys.cc:94-101 | neither of the two assertions on formatting fails; the map then marks exactly sectors 0 to 4 |
| `FileSystems.Format` | NachOS-4.0_MP1/code/filesys/filesys.cc:84-137 | any disk becomes a consistent one with no files, and exactly sectors 0 to 4 marked |
| `FileSystems.FileSystem.constructor` | NachOS-4.0_MP1/code/filesys/filesys.cc:82-143 | formats, or takes a consistent disk unchanged |
| `FileSystems.FileSystem.FetchDirectory` | NachOS-4.0_MP1/code/filesys/filesys.cc:183-184 | the directory in memory is the one on the disk |
| `FileSystems.FileSystem.FetchFreeMap` | NachOS-4.0_MP1/code/filesys/filesys.cc:189 | the free map in memory is the one on the disk, bit for bit |
| `FileSystems.TakeFile` | NachOS-4.0_MP1/code/filesys/filesys.cc:190-204 | the header sector and the data sectors are distinct and were free, and the new map marks exactly them in addition |
| `FileSystems.ReleaseFile` | NachOS-4.0_MP1/code/filesys/filesys.cc:271-273 | giving back the data sectors and the header sector clears exactly the file's sectors |
| `FileSystems.FileSystem.Create` | NachOS-4.0_MP1/code/filesys/filesys.cc:174-212 | succeeds exactly if the name is absent, a slot is free, 1 + ceil(size/128) sectors are free and the size is not over MaxFileSize; overruns the header exactly if all but the last hold; otherwise, and then, the disk is unchanged; the invariant is kept |
| `FileSystems.FreshDiskOverruns` | NachOS-4.0_MP1/code/filesys/filesys.cc:174-212 | on a newly formatted disk every size up to MaxFileSize can be created, and every one above it overruns the header as long as 1018 sectors hold it |
| `FileSystems.CreateTooLong` | NachOS-4.0_MP1/code/filesys/filesys.cc:84-212 | formatting any disk and creating a file of MaxFileSize + 1 bytes overruns the header |
| `FileSystems.FileSystem.CommitNew` | NachOS-4.0_MP1/code/filesys/filesys.cc:200-204 | flushing header, directory and free map makes the creation take effect as a whole |
| `FileSystems.FileSystem.Open` | NachOS-4.0_MP1/code/filesys/filesys.cc:225-236 | opens a file exactly if it is listed, with the header of its entry, standing at its beginning |
| `FileSystems.FileSystem.Remove` | NachOS-4.0_MP1/code/filesys/filesys.cc:253-281 | succeeds exactly if the file is listed; then it is gone and its sectors are free; otherwise the disk is unchanged; the invariant is kept |
| `FileSystems.FileSystem.CommitGone` | NachOS-4.0_MP1/code/filesys/filesys.cc:274-280 | flushing free map and directory makes the removal take effect as a whole |
| `FileSystemRuns.CreateAddsFile` | NachOS-4.0_MP1/code/filesys/filesys.cc:174-212 | as a map from names to bytes the disk gains one file of the asked length and nothing else changes; the free count drops by exactly 1 + ceil(size/128) |
| `FileSystemRuns.RemoveDropsFile` | NachOS-4.0_MP1/code/filesys/filesys.cc:253-281 | the map loses exactly that file, and the free count rises by exactly its sectors |
| `NamedFiles.DifferentKeys` | NachOS-4.0_MP1/code/filesys/directory.cc:84-126 | two names are of different files exactly if they differ, before either ends, within nine characters |
| `NamedFiles.NinthCharacterCounts` | NachOS-4.0_MP1/code/filesys/directory.h:22 | chapter01 and chapter02 are different files; chapter012 and chapter013 are not |
| `NamedFiles.CreatedLists` | NachOS-4.0_MP1/code/filesys/filesys.cc:174-212 | after a creation exactly the names listed before are listed, and those that do not differ from the new one within nine characters |
| `NamedFiles.RemovedUnlists` | NachOS-4.0_MP1/code/filesys/filesys.cc:253-281 | after a removal exactly the names listed before are listed that differ from the removed one within nine characters |
| `NamedFiles.CreatedLeavesCreatable` | NachOS-4.0_MP1/code/filesys/filesys.cc:174-212 | after a creation another file can be created exactly if it was not listed, the names differ within nine characters, a second entry was free, and the sectors sufficed for both |
| `NamedFiles.CreateTwo` | NachOS-4.0_MP1/code/filesys/filesys.cc:174-212 | on any newly formatted disk two files of allowed sizes can be created one after the other exactly if their names differ within nine characters; then exactly their names are listed |
| `FileSystemRuns.WriteChangesFile` | NachOS-4.0_MP1/code/filesys/openfile.cc:135-172 | a write changes exactly those bytes of exactly that file |
| `FileSystemRuns.OpenedFileIsUsable` | NachOS-4.0_MP1/code/filesys/filesys.cc:225-236 | an opened file meets what reading and writing need: its blocks are on the disk and distinct |
| `FileTransfers.WriteInChunks` | NachOS-4.0_MP1/code/threads/main.cc:106-109 | a loop of Writes, chunk by chunk, does what one write of all the bytes does, and changes no sector outside the file |
| `FileTransfers.ReadInChunks` | NachOS-4.0_MP1/code/filesys/openfile.cc:70-74 | a loop of Reads of any sizes delivers what one read of the whole does |
| `FileTransfers.WriteSeekRead` | NachOS-4.0_MP1/code/filesys/openfile.cc:53-80 | chunked Writes to an open file, Seek back, chunked Reads of any other sizes: what comes back is what was written |
| `FileTransfers.Copy` | NachOS-4.0_MP1/code/threads/main.cc:77-115 | for a host file of any length: succeeds exactly if the name is absent, there is room and the length is not over MaxFileSize; then the file system has one file more, which holds all the bytes delivered, and nothing else changed; overruns a header exactly if only the last fails |
| `FileTransfers.Print` | NachOS-4.0_MP1/code/threads/main.cc:124-142 | delivers exactly the bytes of the named file, and nothing exactly if there is no such file |
| `FileSystemRuns.WriteFile` | NachOS-4.0_MP1/code/filesys/openfile.cc:135-172 | opening by name and writing changes exactly those bytes of that file, cut at its end, and keeps the invariant |
| `FileSystemRuns.CreateThenRemove` | NachOS-4.0_MP1/code/filesys/filesys.cc:174-281 | a create followed by a remove restores the free map bit for bit, the directory as a map, and every file |
| `FileSystemRuns.CreateAndRemove` | NachOS-4.0_MP1/code/filesys/filesys.cc:174-281 | the same for the operations run one after the other, whether or not the file can be created |
| `FileSystemRuns.StepStaysConsistent` | NachOS-4.0_MP1/code/filesys/filesys.cc:174-281 | whatever a create, a remove or a write did to the sectors of a consistent disk, the disk is consistent again |
| `FileSystemRuns.RunsStayConsistent` | NachOS-4.0_MP1/code/filesys/filesys.cc:82-281 | through any run of creates, removes and writes the free map marks exactly the owned sectors, no sector has two owners, and no two files have the same nine-character name |
| `FileSystemRuns.Perform` | NachOS-4.0_MP1/code/filesys/filesys.cc:174-281 | a request does what it promises, exactly when it can: a file created, a file removed, or bytes of a file overwritten, cut at its end; and it is said exactly which request overruns a header |
| `FileSystemRuns.PerformAll` | NachOS-4.0_MP1/code/filesys/filesys.cc:82-281 | any list of requests, carried out on the file system object from any consistent disk, makes a run, each request with its own outcome, up to the first request that overruns a header |
| `FileSystemRuns.OpenFilesStayGood` | NachOS-4.0_MP1/code/filesys/openfile.cc:30-34 | the header cached by an open file stays the file's header for as long as the file is not removed, whatever else happens |
| `Semaphores.TryPKeepsOk` | NachOS-4.0_MP1/code/threads/synch.cc:82-86 | a test of the value by a woken thread, or by a third one that comes in between, loses no wakeup; exactly if there is no unit the caller is the next to go to sleep |
| `Semaphores.PostKeepsOk` | NachOS-4.0_MP1/code/threads/synch.cc:107-110 | V loses no wakeup |
| `Semaphores.PostMoves` | NachOS-4.0_MP1/code/threads/synch.cc:107-109 | V adds one unit and takes the thread that went to sleep first of those not woken yet, and nobody else |
| `Semaphores.SemaphoreRuns` | NachOS-4.0_MP1/code/threads/synch.cc:74-114 | in every interleaving the value is the initial one plus V's minus P's and never negative; while somebody sleeps it is at most the number of woken threads that have not tested again; and the threads that went to sleep, in order, are those woken, in order, followed by the queue |
| `Semaphores.FirstToSleepIsWokenFirst` | NachOS-4.0_MP1/code/threads/synch.cc:82-109 | of two threads that find no unit, the first V wakes the one that came first, the second V the other |
| `Semaphores.Semaphore.constructor` | NachOS-4.0_MP1/code/threads/synch.cc:48-52 | a new semaphore has its initial value and no waiter |
| `Semaphores.Semaphore.Test` | NachOS-4.0_MP1/code/threads/synch.cc:80-86 | one pass of P's loop takes a unit exactly if there is one; otherwise the value stays and the caller is at the end of the queue |
| `Semaphores.Semaphore.V` | NachOS-4.0_MP1/code/threads/synch.cc:100-114 | one unit more; the front of the queue, if there is one, leaves it and is made ready |
| `Locks.LockStepKeepsOk` | NachOS-4.0_MP1/code/threads/synch.cc:173-193 | every step of Acquire and Release, with switches between any two, keeps the lock in order |
| `Locks.LockMoves` | NachOS-4.0_MP1/code/threads/synch.cc:173-193 | where each step of Acquire and Release leads its thread, and what it does to the unit and the holder; it moves nobody else |
| `Locks.CanMove` | NachOS-4.0_MP1/code/threads/synch.cc:173-193 | each thread has exactly one next step, unless it sleeps on the semaphore: then none |
| `Locks.UnitOrOwner` | NachOS-4.0_MP1/code/threads/synch.cc:173-193 | the semaphore's value plus the number of threads between P and V is exactly 1 |
| `Locks.Alone` | NachOS-4.0_MP1/code/threads/synch.cc:173-193 | mutual exclusion: a thread past P and before V is the only one |
| `Locks.LockRuns` | NachOS-4.0_MP1/code/threads/synch.cc:173-193 | both in every interleaving; and the recorded holder is nobody or that one thread, though it is recorded only after P |
| `Locks.HolderIsCaller` | NachOS-4.0_MP1/code/threads/synch.cc:189-190 | the assertion in Release never fails |
| `Locks.FreeLockIsSeen` | NachOS-4.0_MP1/code/threads/synch.cc:173-193 | if the lock is free and somebody sleeps on it, a woken thread is about to test |
| `Locks.TakenIsRecorded` | NachOS-4.0_MP1/code/threads/synch.cc:173-193 | a taken lock has a recorded holder exactly while its thread is not between P and recording itself, nor between clearing the holder and V |
| `Locks.TakenUnrecorded` | NachOS-4.0_MP1/code/threads/synch.cc:173-176 | a run in which the lock is taken and nobody is recorded |
| `Locks.Lock.constructor` | NachOS-4.0_MP1/code/threads/synch.cc:152-156 | a new lock is free |
| `Locks.Lock.TryAcquire` | NachOS-4.0_MP1/code/threads/synch.cc:174 | one test of the lock's semaphore |
| `Locks.Lock.RecordHolder` | NachOS-4.0_MP1/code/threads/synch.cc:175 | the caller is recorded as holder |
| `Locks.Lock.IsHeldByCurrentThread` | NachOS-4.0_MP1/code/threads/synch.cc:189-190 | answers whether the caller holds the lock |
| `Locks.Lock.ClearHolder` | NachOS-4.0_MP1/code/threads/synch.cc:190-191 | the assertion holds and the holder is cleared |
| `Locks.Lock.Signal` | NachOS-4.0_MP1/code/threads/synch.cc:192 | the lock's unit goes back and the first waiter is made ready |
| `Conditions.Condition.JoinQueue` | NachOS-4.0_MP1/code/threads/synch.cc:232-238 | the assertion that the caller holds the lock is true; each waiter brings its own fresh semaphore of value 0, behind those already there |
| `Conditions.Condition.Signal` | NachOS-4.0_MP1/code/threads/synch.cc:257-269 | the assertion that the caller holds the lock is true; wakes the waiter that came first and leaves the others alone |
| `Conditions.Condition.Broadcast` | NachOS-4.0_MP1/code/threads/synch.cc:278-282 | wakes every waiter exactly once and leaves nobody waiting |
| `SynchLists.Exclusive` | NachOS-4.0_MP1/code/threads/synchlist.cc:51-76 | whoever touches the list or the condition's queue is alone |
| `SynchLists.StepKeepsFifo` | NachOS-4.0_MP1/code/threads/synchlist.cc:51-76 | no step loses, doubles or reorders an item, and no thread finds the list changed between its test and its next step |
| `SynchLists.StepKeepsWaiters` | NachOS-4.0_MP1/code/threads/synch.cc:232-269 | every waiter not yet signalled is in the queue, once, or in the hand of a thread about to signal it |
| `SynchLists.StepKeepsCovered` | NachOS-4.0_MP1/code/threads/synchlist.cc:51-76 | while somebody waits, every item is matched by a thread that will look at the list or signal |
| `SynchLists.ListRuns` | NachOS-4.0_MP1/code/threads/synchlist.cc:51-76 | all of this in every interleaving of any number of threads |
| `SynchLists.FirstInFirstOut` | NachOS-4.0_MP1/code/threads/synchlist.cc:51-76 | in every interleaving what came out is a prefix of what was appended, in the same order, and the rest is in the list |
| `SynchLists.StepKeepsTurns` | NachOS-4.0_MP1/code/threads/synch.cc:232-269 | a thread that starts to wait joins the queue, a signal takes the front one off, and nobody else comes or goes |
| `SynchLists.FirstWaiterSignalledFirst` | NachOS-4.0_MP1/code/threads/synch.cc:232-269 | in every interleaving the threads that joined the queue, in order, are those that signals took off it, in order, followed by the queue |
| `SynchLists.StepsFollow` | NachOS-4.0_MP1/code/threads/synchlist.cc:51-76 | each step leads its thread to the next place in the order of the source, the test and the waiting loop included, and moves nobody else |
| `SynchLists.CanMove` | NachOS-4.0_MP1/code/threads/synchlist.cc:51-76 | a thread inside an operation can take a step exactly unless it sleeps on the lock or on its own semaphore, or stands before the assertion in Append that would fail |
| `SynchLists.NobodyStranded` | NachOS-4.0_MP1/code/threads/synchlist.cc:51-76 | while the lock is free and a thread waits unsignalled, the items are at most the signalled waiters that have not looked again |
| `SynchLists.QueueIsUnsignalled` | NachOS-4.0_MP1/code/threads/synch.cc:232-269 | with the lock free, the condition's queue holds exactly the waiters nobody signalled |
| `SynchLists.BodiesAreSafe` | NachOS-4.0_MP1/code/threads/synchlist.cc:51-76 | RemoveFront never finds the list empty, a signal never reaches a semaphore that is gone, and both are done by the lock's one holder |
| `SynchLists.AppendAsserts` | NachOS-4.0_MP1/code/lib/list.cc:70-74 | the assertion in Append that the item is not in the list holds exactly if the item came out as often as it went in |
| `SynchLists.AppendTwiceAsserts` | NachOS-4.0_MP1/code/threads/synchlist.cc:51-57 | a run in which one thread appends the same item twice and comes to where the assertion fails |
| `SynchLists.SynchList.constructor` | NachOS-4.0_MP1/code/threads/synchlist.cc:24-28 | a new list is empty, its lock free, and nobody waits |
| `SynchLists.SynchList.AppendItem` | NachOS-4.0_MP1/code/threads/synchlist.cc:53 | the item goes to the end while the lock is held |
| `SynchLists.SynchList.TakeWaiter` | NachOS-4.0_MP1/code/threads/synch.cc:263-266 | the waiter that came first leaves the queue, if there is one |
| `SynchLists.SynchList.WakeWaiter` | NachOS-4.0_MP1/code/threads/synch.cc:267 | that waiter's own semaphore gets its one unit, and its thread, if it sleeps there, is made ready |
| `SynchLists.SynchList.TestEmpty` | NachOS-4.0_MP1/code/threads/synchlist.cc:71 | the caller goes on to wait exactly if the list is empty |
| `SynchLists.SynchList.JoinQueue` | NachOS-4.0_MP1/code/threads/synch.cc:237-238 | a fresh semaphore of value 0 joins the end of the queue |
| `SynchLists.SynchList.TryWait` | NachOS-4.0_MP1/code/threads/synch.cc:240 | one test of the waiter's own semaphore |
| `SynchLists.SynchList.TakeFront` | NachOS-4.0_MP1/code/threads/synchlist.cc:73 | the front item comes out; the list's assertion that there is one holds |
| `SynchDisks.SynchDisk.constructor` | NachOS-4.0_MP1/code/filesys/synchdisk.cc:28-32 | no request in progress, no completion left over, the lock free |
| `SynchDisks.SynchDisk.TryLock` | NachOS-4.0_MP1/code/filesys/synchdisk.cc:56 | one test of the lock's semaphore |
| `SynchDisks.SynchDisk.IssueRequest` | NachOS-4.0_MP1/code/filesys/synchdisk.cc:57 | the sector is read or written at once, the disk becomes active, and its assertion that it was not holds |
| `SynchDisks.SynchDisk.TryWait` | NachOS-4.0_MP1/code/filesys/synchdisk.cc:58 | one test of the completion semaphore |
| `SynchDisks.SynchDisk.StartUnlock` | NachOS-4.0_MP1/code/filesys/synchdisk.cc:59 | the assertion in Release holds |
| `SynchDisks.SynchDisk.CallBack` | NachOS-4.0_MP1/code/filesys/synchdisk.cc:84-86 | the disk becomes idle and one completion is signalled |
| `SynchDisks.RequestFindsDiskIdle` | NachOS-4.0_MP1/code/machine/disk.cc:110-144 | whoever is about to issue a request finds no request in progress and no completion left over |
| `SynchDisks.OwnCompletion` | NachOS-4.0_MP1/code/filesys/synchdisk.cc:55-86 | at most one completion is ever waiting, and a thread that consumes one consumes that of its own request |
| `SynchDisks.StepKeepsOk` | NachOS-4.0_MP1/code/filesys/synchdisk.cc:55-86 | every step of any thread keeps requests, completions and waits in step |
| `SynchDisks.CompleteKeepsOk` | NachOS-4.0_MP1/code/machine/disk.cc:151-154 | so does the disk's interrupt |
| `SynchDisks.DiskRuns` | NachOS-4.0_MP1/code/filesys/synchdisk.cc:55-86 | all of this in every run with any number of threads |
| `SynchDisks.CallMoves` | NachOS-4.0_MP1/code/filesys/synchdisk.cc:55-86 | a call notes how many requests came before it, issues its own while it holds the lock, waits until a test finds a completion, and ends with the lock free; it moves nobody else |
| `SynchDisks.CanMove` | NachOS-4.0_MP1/code/filesys/synchdisk.cc:55-86 | a thread inside a call can take a step exactly unless it sleeps, on the lock or until its request completes |
| `SynchDisks.OneRequestAtATime` | NachOS-4.0_MP1/code/filesys/synchdisk.cc:55-86 | in every run the device's assertion holds, the semaphore never exceeds 1, and each caller gets its own completion |
| `SynchDisks.SleeperWillWake` | NachOS-4.0_MP1/code/filesys/synchdisk.cc:55-86 | a thread asleep on the semaphore is the only one there and its request is still in progress |
| `SynchDisks.ReadsLatestWrite` | NachOS-4.0_MP1/code/filesys/synchdisk.cc:55-76 | a returning read delivers what the latest earlier write to that sector wrote; each call takes effect between its start and its return |
| `Lists.Place` | NachOS-4.0_MP1/code/lib/list.cc:215-240 | a new item goes before the first bigger one |
| `Interrupts.FiringReducesDue` | NachOS-4.0_MP1/code/machine/interrupt.cc:343-349 | each firing leaves one due interrupt less, whatever the handler schedules: the firing loop ends |
| `Interrupts.ScheduleKeepsOrderly` | NachOS-4.0_MP1/code/machine/interrupt.cc:289-297 | a new interrupt lies behind everything that has fired and behind all pending ones of the same time |
| `Interrupts.FireDueKeeps` | NachOS-4.0_MP1/code/machine/interrupt.cc:342-351 | firing keeps order and punctuality and leaves nothing due |
| `Interrupts.TickKeepsOk` | NachOS-4.0_MP1/code/machine/interrupt.cc:145-172 | so does a tick in either mode |
| `Interrupts.IdleKeepsOk` | NachOS-4.0_MP1/code/machine/interrupt.cc:201-222 | so does idling, which ends exactly at the first pending interrupt |
| `Interrupts.EachInterruptOnceInTime` | NachOS-4.0_MP1/code/machine/interrupt.cc:145-352 | over all runs and all handlers an interrupt asked for at some time with some delay has fired exactly if the clock has come to time plus delay, once, not before, less than 10 ticks after, in order of time and then of insertion |
| `Interrupts.FiresAfterDelay` | NachOS-4.0_MP1/code/machine/interrupt.cc:289-352 | an interrupt that a device asks for in any run has fired exactly if the clock has gone on by fromNow since then, and it fires by then or less than 10 ticks later |
| `Interrupts.FireFirstAsks` | NachOS-4.0_MP1/code/machine/interrupt.cc:343-349 | a firing is of the first pending interrupt, takes no time, and asks for exactly what its handler asks for |
| `Interrupts.FiringAsks` | NachOS-4.0_MP1/code/machine/interrupt.cc:342-351 | firing what is due takes no time and asks for what the handlers of exactly the fired interrupts ask for, at the current time |
| `Interrupts.TickEffect` | NachOS-4.0_MP1/code/machine/interrupt.cc:145-163 | a tick in system mode adds 10 to total and system time, one in user mode 1 to total and user time, and nothing to the others; what has become due fires at that time |
| `Interrupts.IdleEffect` | NachOS-4.0_MP1/code/machine/interrupt.cc:201-333 | idling adds to total and idle time what is missing to the first pending interrupt, and nothing to the others; it fires something exactly if something is pending |
| `Interrupts.AskedStays` | NachOS-4.0_MP1/code/machine/interrupt.cc:289-297 | what was asked for in a run stays asked for |
| `Interrupts.ClockAddsUp` | NachOS-4.0_MP1/code/machine/interrupt.cc:145-333 | total time is idle plus system plus user time; everything scheduled has fired or is pending; outside a tick nothing pending is due |
| `Interrupts.Interrupt.constructor` | NachOS-4.0_MP1/code/machine/interrupt.cc:75-81 | starts at time 0 with interrupts off and nothing pending |
| `Interrupts.Interrupt.Schedule` | NachOS-4.0_MP1/code/machine/interrupt.cc:289-297 | one more pending interrupt, for the current time plus fromNow, numbered after all that were asked for before |
| `Interrupts.Interrupt.YieldOnReturn` | NachOS-4.0_MP1/code/machine/interrupt.cc:185-188 | the request for a switch is remembered |
| `Interrupts.Interrupt.CheckIfDue` | NachOS-4.0_MP1/code/machine/interrupt.cc:311-352 | fires exactly what is due, or what becomes due by moving the clock to the first interrupt, and says whether anything fired |
| `Interrupts.Interrupt.OneTick` | NachOS-4.0_MP1/code/machine/interrupt.cc:145-172 | time advances by the mode's tick; a switch follows exactly if a handler asked for one |
| `Interrupts.Interrupt.SetLevel` | NachOS-4.0_MP1/code/machine/interrupt.cc:123-134 | time passes exactly when interrupts go from off to on, and a switch follows exactly if a handler asked for one in that tick |
| `Interrupts.Interrupt.Idle` | NachOS-4.0_MP1/code/machine/interrupt.cc:201-222 | halts exactly if nothing is pending |
| `Scheduling.StepKeepsReady` | NachOS-4.0_MP1/code/threads/scheduler.cc:55-80 | every step keeps the ready list exactly the READY threads, without repeats |
| `Scheduling.StepKeepsCpu` | NachOS-4.0_MP1/code/threads/thread.cc:236-252 | only the current thread runs; in Sleep it is BLOCKED, or READY again, and still current |
| `Scheduling.StepKeepsDestroy` | NachOS-4.0_MP1/code/threads/scheduler.cc:99-159 | a thread awaits destruction only between its last switch and the next thread's first action |
| `Scheduling.StepKeepsQueues` | NachOS-4.0_MP1/code/threads/synch.cc:74-114 | every step keeps each blocked thread that is not finishing on exactly one wait queue |
| `Scheduling.KernelRuns` | NachOS-4.0_MP1/code/threads/thread.cc:91-252 | all of this in every run |
| `Scheduling.EveryThreadInItsPlace` | NachOS-4.0_MP1/code/threads/scheduler.cc:55-80 | in every run: READY means on the ready list, once; blocked and not finishing means on exactly one wait queue, once; and nobody else is on either |
| `Scheduling.BurialIsSafe` | NachOS-4.0_MP1/code/threads/scheduler.cc:99-159 | toBeDestroyed is null whenever a finishing thread leaves the CPU; the thread deleted later is not current and on no list |
| `Scheduling.FirstReadyFirstRun` | NachOS-4.0_MP1/code/threads/scheduler.cc:55-80 | a thread queued behind k others runs on exactly the (k+1)-th dispatch, and not before |
| `Scheduling.FirstBlockedFirstWoken` | NachOS-4.0_MP1/code/threads/synch.cc:74-114 | in every run the threads that joined a wait queue, in order, are those woken there, in order, followed by those who wait |
| `Scheduling.StepKeepsTurns` | NachOS-4.0_MP1/code/threads/synch.cc:74-114 | only a thread that blocks joins a wait queue, and only the one that is woken leaves it |
| `Scheduling.StepExtendsLine` | NachOS-4.0_MP1/code/threads/scheduler.cc:55-80 | a thread that becomes ready joins the end of the line; a dispatch gives the CPU to the front of it, and nothing else does |
| `Scheduling.ThreadsComeAndGo` | NachOS-4.0_MP1/code/threads/thread.cc:91-252 | a thread appears exactly by its creation, stops being just created exactly by Fork, and disappears exactly by its burial |
| `Scheduling.StatusChanges` | NachOS-4.0_MP1/code/threads/thread.cc:91-252 | a thread becomes READY exactly by Fork, by being first on a queue that is woken, or by yielding to another; RUNNING exactly by a dispatch while first in line; BLOCKED exactly by blocking or finishing |
| `Scheduling.PhaseChanges` | NachOS-4.0_MP1/code/threads/thread.cc:167-252 | when the CPU sleeps, idles or arrives at another thread, and between which two steps a finished thread awaits destruction |
| `Scheduling.Choices` | NachOS-4.0_MP1/code/threads/thread.cc:236-252 | in Sleep the only step is to dispatch if somebody is ready, or else to idle; while idle any handler may wake somebody; after a dispatch the burial comes first; and a thread at its own work may do anything |
| `Scheduling.Scheduler.ReadyToRun` | NachOS-4.0_MP1/code/threads/scheduler.cc:55-61 | the thread is READY, at the end of the list |
| `Scheduling.Scheduler.FindNextToRun` | NachOS-4.0_MP1/code/threads/scheduler.cc:71-80 | takes the first ready thread, or answers that there is none |
| `Scheduling.Scheduler.Run` | NachOS-4.0_MP1/code/threads/scheduler.cc:99-127 | switches to the thread; the assertion holds exactly if nobody awaits destruction |
| `Scheduling.Scheduler.CheckToBeDestroyed` | NachOS-4.0_MP1/code/threads/scheduler.cc:154-159 | deletes the finished thread, if any |
| `Scheduling.Scheduler.Fork` | NachOS-4.0_MP1/code/threads/thread.cc:91-103 | the new thread is READY, at the end of the list, and nothing else changes |
| `Scheduling.Scheduler.Yield` | NachOS-4.0_MP1/code/threads/thread.cc:200-214 | switches to the first ready thread and queues the caller last, or does nothing |
| `Scheduling.Scheduler.Finish` | NachOS-4.0_MP1/code/threads/thread.cc:167-178 | the thread starts its last sleep |
| `Scheduling.Scheduler.Block` | NachOS-4.0_MP1/code/threads/synch.cc:82-85 | the caller joins the end of the wait queue and is BLOCKED |
| `Scheduling.Scheduler.Wake` | NachOS-4.0_MP1/code/threads/synch.cc:107-109 | the first thread of the wait queue, if there is one, leaves it and is READY, at the end of the list |
| `Scheduling.Scheduler.SleepStep` | NachOS-4.0_MP1/code/threads/thread.cc:247-251 | dispatches the first ready thread, or idles exactly if there is none; the assertions of Run hold |
| `DiskTiming.TimeToSeek` | NachOS-4.0_MP1/code/machine/disk.cc:167-180 | the seek takes one SEEK_TIME for each track crossed, in either direction; after seek and rotation the head is at a sector boundary, reached as early as possible |
| `DiskTiming.ModuloDiff` | NachOS-4.0_MP1/code/machine/disk.cc:188-193 | turning by that many sectors leads to the wanted one |
| `DiskTiming.DiffIsLeast` | NachOS-4.0_MP1/code/machine/disk.cc:188-193 | and by no fewer |
| `DiskTiming.CompletesAtFirstPass` | NachOS-4.0_MP1/code/machine/disk.cc:216-233 | without a hit, completion is the first moment at which the sector has passed as a whole since the head arrived, one SEEK_TIME for each track crossed after the request |
| `DiskTiming.SeekBack` | NachOS-4.0_MP1/code/machine/disk.cc:167-233 | from the last track to the first: 17000 ticks for sector 1 at time 32000; and the other way 16000 for sector 1023 |
| `DiskTiming.HitMeansPassed` | NachOS-4.0_MP1/code/machine/disk.cc:223-226 | a read hits exactly if its track is current and the sector has fully passed since the buffer started and before completion |
| `DiskTiming.LatencyBounds` | NachOS-4.0_MP1/code/machine/disk.cc:216-233 | latency lies in 500..31999 |
| `DiskTiming.LatencyBoundsReached` | NachOS-4.0_MP1/code/machine/disk.cc:216-233 | both bounds are reached |
| `DiskTiming.BufferNeverInFuture` | NachOS-4.0_MP1/code/machine/disk.cc:216-249 | over all runs bufferInit is a multiple of ROTATION_TIME and not in the future at a request |
| `DiskTiming.UpdatedBuffer` | NachOS-4.0_MP1/code/machine/disk.cc:241-249 | after a seek the buffer starts at the first sector boundary since the head arrived; on the same track it stays as it was |
| `DiskTiming.BufferIsOfCurrentTrack` | NachOS-4.0_MP1/code/machine/disk.cc:241-249 | over all runs every request since bufferInit was on the current track |
| `DiskTiming.Disk.StartRequest` | NachOS-4.0_MP1/code/machine/disk.cc:110-144 | the device becomes active on that sector; it answers one sector's time for a hit, and otherwise the time until the sector has first passed as a whole since the head arrived |
| `DiskTiming.Disk.CallBack` | NachOS-4.0_MP1/code/machine/disk.cc:151-154 | the device becomes idle |
| `Multiply.AddWords` | NachOS-4.0_MP1/code/machine/mipssim.cc:790-794 | the comparison of the low words detects the carry: two two-word numbers are added exactly |
| `Multiply.DoubleWords` | NachOS-4.0_MP1/code/machine/mipssim.cc:797-801 | the two words shift as one number |
| `Multiply.NegateWords` | NachOS-4.0_MP1/code/machine/mipssim.cc:807-813 | the two-word complement is the negative modulo 2^64 |
| `Multiply.NextBit` | NachOS-4.0_MP1/code/machine/mipssim.cc:789-803 | signed shifts deliver the unsigned bits of any operand in order, and the early break comes only after the last set bit |
| `Multiply.MultiplyWords` | NachOS-4.0_MP1/code/machine/mipssim.cc:783-803 | the loop computes the exact unsigned product of any two words |
| `Multiply.SignedProduct` | NachOS-4.0_MP1/code/machine/mipssim.cc:768-780 | the product of the magnitudes, with the sign found, is the signed product, for -2^31 too |
| `Multiply.Mult` | NachOS-4.0_MP1/code/machine/mipssim.cc:761-817 | hi:lo is the full 64-bit product of any two operands, signed or unsigned |
| `WordLanes.LoadLeftBytes` | NachOS-4.0_MP1/code/machine/mipssim.cc:342-359 | the masks and shifts of LWL move memory bytes up to the addressed one into the high end of the register and keep the rest |
| `WordLanes.LoadRightBytes` | NachOS-4.0_MP1/code/machine/mipssim.cc:395-414 | those of LWR move the bytes from the addressed one on into the low end |
| `WordLanes.StoreLeftBytes` | NachOS-4.0_MP1/code/machine/mipssim.cc:573-593 | those of SWL move the high bytes of the register into the word |
| `WordLanes.StoreRightBytes` | NachOS-4.0_MP1/code/machine/mipssim.cc:634-649 | those of SWR move its low bytes |
| `VirtualMemory.FirstMatch` | NachOS-4.0_MP1/code/machine/translate.cc:212-216 | the TLB search takes the first valid entry for the page |
| `VirtualMemory.TranslationOutcome` | NachOS-4.0_MP1/code/machine/translate.cc:188-243 | said of the table itself: an access translates exactly if it is aligned, its page has an entry, valid and at its index in a page table, the first valid match in a TLB, the entry is not read-only when writing, and its frame is below 128; the result is its offset in that frame; otherwise the first of these that fails says which exception is raised |
| `VirtualMemory.TouchedExactly` | NachOS-4.0_MP1/code/machine/translate.cc:237-239 | a translation marks that one entry used, and dirty when writing, and changes nothing else in the table; one that fails changes nothing |
| `VirtualMemory.InMemory` | NachOS-4.0_MP1/code/machine/translate.cc:238-241 | a translated address lies in main memory: the assertion never fails |
| `VirtualMemory.SameTranslationSame` | NachOS-4.0_MP1/code/machine/translate.cc:237-239 | use and dirty bits never change a translation |
| `VirtualMemory.ReadWordByte` | NachOS-4.0_MP1/code/machine/translate.cc:84-118 | a word read is the bytes of its four addresses, the lowest first |
| `VirtualMemory.ReadBytesAt` | NachOS-4.0_MP1/code/machine/translate.cc:84-118 | a byte, halfword or word read is the bytes of its addresses, the lowest first |
| `VirtualMemory.StoreBytes` | NachOS-4.0_MP1/code/machine/translate.cc:133-162 | a byte, halfword or word written changes the bytes of its addresses and, with injective translation, no other |
| `VirtualMemory.StoreSparesReadOnly` | NachOS-4.0_MP1/code/machine/translate.cc:225-228 | no store changes a byte of a frame whose valid entries are all read-only |
| `AlignedAccess.LoadedValue` | NachOS-4.0_MP1/code/machine/mipssim.cc:262-309 | each of LB, LBU, LH, LHU and LW delivers the bytes read, extended by their sign or by zeros, though a char read from memory is already extended by its sign |
| `AlignedAccess.StoreThenLoadAligned` | NachOS-4.0_MP1/code/machine/mipssim.cc:262-544 | a load of what a store of the same size left at an address goes through and delivers the low bytes of the register stored, extended by their sign or by zeros |
| `AlignedAccess.MisalignedFaults` | NachOS-4.0_MP1/code/machine/translate.cc:189-192 | halfwords at odd addresses and words at addresses not divisible by 4 fault, in whatever page |
| `Instructions.EveryEffect` | NachOS-4.0_MP1/code/machine/mipssim.cc:262-710 | every load and store completes exactly if its access translates; completed or not, the pending load reaches its register and no other register changes; a completed load is the one pending then; one that does not complete records the bad address and changes no byte of memory |
| `Instructions.LoadArrives` | NachOS-4.0_MP1/code/machine/mipssim.cc:262-710 | a loaded value is in its register after the next load or store, whatever that is, or after the next exception or interrupt, and not before |
| `Instructions.StoreChanges` | NachOS-4.0_MP1/code/machine/mipssim.cc:456-544 | a store that completes puts the low byte, the two low bytes or all four of its register at its address, and leaves the other bytes alone |
| `Instructions.SparesReadOnly` | NachOS-4.0_MP1/code/machine/translate.cc:225-228 | no load or store, of any kind, changes a byte of a frame that is mapped only read-only |
| `Instructions.ReadOnlyFramesStay` | NachOS-4.0_MP1/code/machine/translate.cc:225-228 | however long a program runs with the same table, the bytes of such a frame stay what they were |
| `UnalignedAccess.LoadPair` | NachOS-4.0_MP1/code/machine/mipssim.cc:311-416 | LWR at A, then LWL at A+3, load the little-endian word at any A, whether or not the delayed load is flushed in between; no other register and no memory changes |
| `UnalignedAccess.LoadPairRuns` | NachOS-4.0_MP1/code/machine/mipssim.cc:311-416 | the pair completes exactly if all four bytes can be read |
| `UnalignedAccess.StorePair` | NachOS-4.0_MP1/code/machine/mipssim.cc:546-661 | SWR at A, then SWL at A+3, store the register at any A, exactly if no load of other bytes was on its way to it, and, with injective translation, touch no other byte |
| `UnalignedAccess.StoreThenLoad` | NachOS-4.0_MP1/code/machine/mipssim.cc:311-661 | a word stored at any address and loaded from there is the same word, exactly if no load of other bytes was on its way to the register stored |
| `UnalignedAccess.StoreHazard` | NachOS-4.0_MP1/code/machine/mipssim.cc:546-710 | a processor with a load pending for the register: the pair of stores completes and has not stored the register |
| `UnalignedAccess.BaseStays` | NachOS-4.0_MP1/code/machine/mipssim.cc:705-710 | the second instruction of a pair addresses three bytes after the first exactly if no load of another value was on its way to the base register |
| `UnalignedAccess.BaseHazard` | NachOS-4.0_MP1/code/machine/mipssim.cc:363-710 | a processor with a load pending for the base: the second address is not three bytes after the first |
| `Machines.Machine.constructor` | NachOS-4.0_MP1/code/machine/machine.h:64-74 | registers and delayed-load slot start at zero |
| `Machines.Machine.FindInTlb` | NachOS-4.0_MP1/code/machine/translate.cc:212-216 | the loop finds the first matching entry |
| `Machines.Machine.TranslateAddress` | NachOS-4.0_MP1/code/machine/translate.cc:180-244 | same address or exception, and the same use and dirty bits, as the translation function, of which TranslationOutcome and TouchedExactly say what they are |
| `Machines.Machine.ReadMem` | NachOS-4.0_MP1/code/machine/translate.cc:84-118 | delivers the byte, halfword or word, or raises the exception, which flushes the delayed load |
| `Machines.Machine.WriteMem` | NachOS-4.0_MP1/code/machine/translate.cc:133-162 | stores the low byte, the low halfword or the word exactly if the access translates for writing, or raises the exception and changes no memory |
| `Machines.Machine.DelayLoad` | NachOS-4.0_MP1/code/machine/mipssim.cc:705-710 | the pending load reaches its register, register 0 stays zero, and the next load is pending |
| `Machines.Machine.RaiseException` | NachOS-4.0_MP1/code/machine/machine.cc:97-100 | the bad address is recorded and the pending load applied |
| `Machines.Machine.LoadAligned` | NachOS-4.0_MP1/code/machine/mipssim.cc:262-309 | the aligned loads, with their faults, do what the step function says |
| `Machines.Machine.StoreAligned` | NachOS-4.0_MP1/code/machine/mipssim.cc:456-544 | the aligned stores, with their faults, do what the step function says |
| `Machines.Machine.OneInstruction` | NachOS-4.0_MP1/code/machine/mipssim.cc:311-710 | the four unaligned instructions, with their faults, do what the step function says |
| `Lists.InsertKeepsSorted` | NachOS-4.0_MP1/code/lib/list.cc:215-240 | insertion keeps a sorted list sorted and puts the item behind all its equals |
| `Lists.InsertAdds` | NachOS-4.0_MP1/code/lib/list.cc:215-240 | it adds that item and nothing else, and keeps the others in order |
| `Lists.List.IsInList` | NachOS-4.0_MP1/code/lib/list.cc:174-183 | the walk answers whether the item is in the list |
| `Lists.List.Append` | NachOS-4.0_MP1/code/lib/list.cc:70-83 | the linked elements spell the old sequence and the item at its end |
| `Lists.List.Prepend` | NachOS-4.0_MP1/code/lib/list.cc:91-104 | or at its front |
| `Lists.List.RemoveFront` | NachOS-4.0_MP1/code/lib/list.cc:116-132 | the first item leaves, and the rest is as it was |
| `Lists.List.Remove` | NachOS-4.0_MP1/code/lib/list.cc:140-166 | the first occurrence leaves, wherever it is, and the rest is as it was |
| `Lists.List.Insert` | NachOS-4.0_MP1/code/lib/list.cc:215-240 | the pointer walk does the stable sorted insertion |
| `Lists.ListIterator.constructor` | NachOS-4.0_MP1/code/lib/list.h:123 | the walk starts at the first item |
| `Lists.ListIterator.Item` | NachOS-4.0_MP1/code/lib/list.h:129-132 | the first of the items left |
| `Lists.ListIterator.Next` | NachOS-4.0_MP1/code/lib/list.h:135 | drops the current item and nothing else |
| `HashTables.AddedRepresents` | NachOS-4.0_MP1/code/lib/hash.cc:110-111 | appending to the key's bucket adds the pair to the map |
| `HashTables.HashGoesRound` | NachOS-4.0_MP1/code/lib/hash.cc:82-86 | the bucket of a key is what remains of its hash value after going round the buckets |
| `HashTables.TakenRepresents` | NachOS-4.0_MP1/code/lib/hash.cc:200-201 | taking an item out of its bucket takes its pair out of the map |
| `HashTables.InBucketIfInMap` | NachOS-4.0_MP1/code/lib/hash.cc:178-182 | a key is in the map exactly if its bucket holds an item with it |
| `HashTables.FlattenIsContents` | NachOS-4.0_MP1/code/lib/hash.cc:248-262 | going through the buckets meets each pair of the map exactly once, and their number is the map's size |
| `HashTables.InitBuckets` | NachOS-4.0_MP1/code/lib/hash.cc:43-49 | a table of empty lists, no two of which share an object |
| `HashTables.HashTable.constructor` | NachOS-4.0_MP1/code/lib/hash.cc:29-34 | a new table represents the empty map |
| `HashTables.HashTable.ReHash` | NachOS-4.0_MP1/code/lib/hash.cc:125-141 | four times as many lists, the same map, and every item where its key now hashes to |
| `HashTables.HashTable.MoveItem` | NachOS-4.0_MP1/code/lib/hash.cc:134-137 | one item leaves the front of its old list and joins the list its key now hashes to; the two tables share nothing and together still hold the map |
| `HashTables.HashTable.Insert` | NachOS-4.0_MP1/code/lib/hash.cc:101-114 | the map gains the pair; the table has four times as many lists exactly if it held 3 * numBuckets items; numItems stays at most 3 * numBuckets |
| `HashTables.HashTable.FindInBucket` | NachOS-4.0_MP1/code/lib/hash.cc:155-167 | finds an item with the key in the bucket exactly if there is one |
| `HashTables.HashTable.Find` | NachOS-4.0_MP1/code/lib/hash.cc:178-182 | answers what the map holds for the key |
| `HashTables.HashTable.Remove` | NachOS-4.0_MP1/code/lib/hash.cc:193-205 | returns the key's item; the map loses the pair |
| `HashTables.HashIterator.constructor` | NachOS-4.0_MP1/code/lib/hash.cc:303-310 | the iterator starts with everything still to visit |
| `HashTables.HashIterator.FindNextFullBucket` | NachOS-4.0_MP1/code/lib/hash.cc:229-235 | the next bucket with items, if there is one |
| `HashTables.HashIterator.IsDone` | NachOS-4.0_MP1/code/lib/hash.h:115 | done exactly if nothing is left to visit |
| `HashTables.HashIterator.Item` | NachOS-4.0_MP1/code/lib/hash.h:117-120 | the first of what is left |
| `HashTables.HashIterator.Next` | NachOS-4.0_MP1/code/lib/hash.cc:318-328 | drops the current item and nothing else |
| `HashTables.VisitAll` | NachOS-4.0_MP1/code/lib/hash.h:97-103 | the loop over the iterator visits each item of the map exactly once |
| `TsQueues.StepKeepsCovered` | NTHU-OS-Pthreads/ts_queue.hpp:93-142 | while somebody waits on a condition, what it waits for is matched by threads that will test or signal |
| `TsQueues.FirstInFirstOut` | NTHU-OS-Pthreads/ts_queue.hpp:93-142 | in every interleaving the queue is first in, first out, and never over capacity |
| `TsQueues.NobodyStranded` | NTHU-OS-Pthreads/ts_queue.hpp:93-142 | with the mutex free and threads waiting on a condition, the items, or slots, are at most the woken threads that have not tested again; spurious wakeups included |
| `TsQueues.OperationsAreAtomic` | NTHU-OS-Pthreads/ts_queue.hpp:93-142 | of all the steps of all threads exactly one in each call touches the contents, and it is the whole operation: one item more at the end, while there is room, or the first item out, while there is one; otherwise the caller waits and gives the mutex back |
| `TsQueues.CallMoves` | NTHU-OS-Pthreads/ts_queue.hpp:93-142 | a call locks, tests, waits and tests again or does its work, signals one waiter of the other side and unlocks; nobody else is moved |
| `TsQueues.CanMove` | NTHU-OS-Pthreads/ts_queue.hpp:93-142 | a thread inside a call can take a step or be woken exactly unless somebody else has the mutex that it wants |
| `TsQueues.WrapIsModulo` | NTHU-OS-Pthreads/ts_queue.hpp:107 | going round by the remainder reaches the next place of the ring |
| `TsQueues.RingAppend` | NTHU-OS-Pthreads/ts_queue.hpp:107-109 | writing behind the last item appends to the ring's sequence |
| `TsQueues.RingDrop` | NTHU-OS-Pthreads/ts_queue.hpp:133-135 | advancing the head drops the first item of the ring's sequence |
| `TsQueues.TSQueue.constructor` | NTHU-OS-Pthreads/ts_queue.hpp:52-71 | a new ring is empty and consistent, for capacity 0 too, and its threads are idle |
| `TsQueues.TSQueue.TryEnqueue` | NTHU-OS-Pthreads/ts_queue.hpp:100-109 | one pass of the loop does one step of the state machine: waits exactly if the ring is full, otherwise the item is last |
| `TsQueues.TSQueue.TryDequeue` | NTHU-OS-Pthreads/ts_queue.hpp:126-135 | one pass of the loop does one step of the state machine: waits exactly if the ring is empty, otherwise takes the first item |
| `Pipelines.StepConserves` | NTHU-OS-Pthreads/consumer.hpp:60-87 | no step of any thread loses or doubles an item |
| `Pipelines.StepKeepsStaged` | NTHU-OS-Pthreads/producer.hpp:45-70 | every item is transformed as far as its place in the pipeline says |
| `Pipelines.StepKeepsPool` | NTHU-OS-Pthreads/consumer_controller.hpp:76-110 | the controller's vector is exactly the consumers not cancelled, and never shrinks to nothing |
| `Pipelines.Thresholds` | NTHU-OS-Pthreads/consumer_controller.hpp:84-104 | with main's numbers, a consumer is started exactly above 160 waiting items and cancelled exactly below 40, and never the last one |
| `Pipelines.PipelineRuns` | NTHU-OS-Pthreads/main.cpp:26-58 | all of this in every interleaving of reader, producers, consumers, controller and writer |
| `Pipelines.NothingLostOrDoubled` | NTHU-OS-Pthreads/consumer.hpp:60-87 | in every interleaving each line read has exactly one item, in a queue, in a hand or written, at the right stage |
| `Pipelines.HandedOver` | NTHU-OS-Pthreads/producer.hpp:45-70 | what each step takes from a queue into a hand or puts from a hand into a queue, with which transform; no other step hands anything over |
| `Pipelines.QueuesInOrder` | NTHU-OS-Pthreads/main.cpp:26-58 | in every interleaving the producers take the lines in the order of the file, the consumers take what the producers made in the order in which it was made, and the writer writes what the consumers made in theirs |
| `Pipelines.StepsFollow` | NTHU-OS-Pthreads/consumer.hpp:60-87 | each step leads its producer or consumer to the next place of its loop, cancellation only at the top, and moves nobody else |
| `Pipelines.ScalingEffect` | NTHU-OS-Pthreads/consumer_controller.hpp:84-104 | growing starts one consumer; shrinking cancels one: of those not cancelled, the one started last |
| `Pipelines.ScalingDropsNothing` | NTHU-OS-Pthreads/consumer_controller.hpp:97-104 | cancelling takes nothing from a consumer, which ends only with empty hands; one consumer always remains |
| `Pipelines.OutputIsPermutation` | NTHU-OS-Pthreads/writer.hpp:53-70 | when as many items are written as there are lines, the output is a permutation of the lines, each transformed by producer and consumer |
| `Completion.EveryRunCanEnd` | NTHU-OS-Pthreads/main.cpp:26-58 | if there are producers, room in each queue, and more lines than the high threshold of the worker queue, every run, wherever it has got to, goes on to one that has written all lines: scaling, full queues and order of steps never stop the pipeline for good |
| `Completion.NothingWritten` | NTHU-OS-Pthreads/consumer_controller.hpp:76-110 | if that fails no run ever writes a line |
| `Completion.FinishesExactly` | NTHU-OS-Pthreads/main.cpp:26-58 | a run that writes all lines exists exactly if there are none or that condition holds |
| `Completion.MainFinishesExactly` | NTHU-OS-Pthreads/main.cpp:11-16 | with the numbers of main exactly if there are more than 160 lines, or none |
| `Completion.OneLineIsNeverWritten` | NTHU-OS-Pthreads/main.cpp:11-48 | with the numbers of main no run writes the line of a file of one line |
| `Transforms.SpecsDoNotWrap` | NTHU-OS-Pthreads/transformer.cpp:6-74 | with the actual factors nothing wraps around once a value is below m |
| `Transforms.Transform` | NTHU-OS-Pthreads/transformer.cpp:76-81 | the loop's result in closed form, for every 64-bit value, including one whose first product wraps around |
| `Transforms.OneIterationMore` | NTHU-OS-Pthreads/transformer.cpp:76-81 | the closed form is the loop: no iteration leaves the value, and one iteration more is one pass more |
| `Transforms.AffineExactlyIfNoWrap` | NTHU-OS-Pthreads/transformer.cpp:6-81 | the ten million iterations of each actual transform are one affine map modulo m exactly if the first product does not wrap around |
| `Transforms.WrappingIsNotAffine` | NTHU-OS-Pthreads/transformer.cpp:6-81 | for opcode A and the largest 64-bit value the transform is not the affine map |
| `Transforms.ProducerTransform` | NTHU-OS-Pthreads/transformer.cpp:6-39 | the producer's work for each known opcode, and the failing assertion for any other |
| `Transforms.ConsumerTransform` | NTHU-OS-Pthreads/transformer.cpp:41-74 | the consumer's work likewise |
| `Transforms.ProducedValue` | NTHU-OS-Pthreads/transformer.cpp:6-39 | what a producer makes of an item of opcode A, B or C in that opcode's own numbers: ten million iterations of 11 x + 1111, 13 x + 1313 or 17 x + 1717 modulo 1000000007, unless the first product wraps around |
| `Transforms.ConsumedValue` | NTHU-OS-Pthreads/transformer.cpp:41-74 | likewise for a consumer and 19 x + 1919, 23 x + 2323 and 29 x + 2929, for every value below the modulus |
| `Transforms.OutputOfLines` | NTHU-OS-Pthreads/item.hpp:6-38 | every line comes out exactly once, with its key and opcode and the value of both transforms |
| `Transforms.WholeOutputFollows` | NTHU-OS-Pthreads/main.cpp:26-58 | with the numbers of main and more than 160 lines every run goes on to one whose output has every line exactly once, with the value of both transforms |

## Left out

- SynchLists.SynchList: `Append`, `RemoveFront` and `Wait` are cut into their atomic sections, as control leaves them in the middle; which section follows which is said by the step function, not by one method body. `Apply` is not modelled. An append of an item that is in the list, where list.cc:73 asserts, is no step.
- SynchDisks.SynchDisk: `ReadSector` and `WriteSector` are cut in the same way; the device's delay is any number of steps, and `DiskTiming` says how long it is.
- Completion.EveryRunCanEnd: that every run can go on to the end, not that a fair scheduler takes it there; no assumption on the scheduler is stated.
- Pipelines: the endless loops of producers, consumers, reader, writer and controller are steps; queue operations are atomic there, which `TsQueues.OperationsAreAtomic` justifies; sizes are compared as exact fractions, which for these sizes is what the floating-point comparison computes; cancelling a thread that has already deleted itself is not modelled.
- Semaphores.Semaphore.Test: one pass of the loop in `P`; sleeping in between is a step of `Scheduling`.
- Locks.Lock: the threads' places are a ghost record; blocking is as for the semaphore.
- Conditions.Condition.JoinQueue: `Wait` up to the release of the lock; the rest is in `SynchLists`.
- Scheduling.Scheduler: stacks, registers and address spaces of threads; a dispatch changes the current thread at once. Any queue may be woken in a handler, whether or not its semaphore's value would call for it.
- Interrupts.Interrupt.OneTick: the switch it asks for is answered to the caller, not performed, since other threads run inside it. Tick counters do not overflow.
- OpenFiles.OpenFile.ReadAt: positions are not negative and position + numBytes does not overflow an int; the same holds for `WriteAt`.
- FileHeaders.FileHeader.Allocate: sizes are not negative; what the source's memory holds after an overrun is not defined, and no call is followed beyond it. The same holds for `Create`.
- DiskLayout.EntryRoundTrip: the padding of a directory entry is written as zeros and ignored when read.
- FileTransfers.Copy: the host file is the sequence of chunks that reading it delivers, fewer than 2^31 bytes in all, as its length is an int.
- Directories.Directory.Add: `strncpy` and `strncmp` are functions on bytes.
- FileSystems.FileSystem.Remove: a file removed while it is open; the source promises nothing for the open file, and runs keep to files that exist.
- FileSystemRuns.OpenFilesStayGood: says nothing about a file after its removal, for the same reason.
- The base class `Bitmap` and its stored form are one class with two methods, `FetchBitmap` and `WriteBitmap`.
- HashTables.HashTable: the table's destructor, `Apply` and `SanityCheck`; freeing the old lists after growing.
- Lists.List: freeing elements. `IsInList` is a precondition of `Append` and `Prepend`, where the source asserts. The sorted list is the method `Insert` of the one list class.
- TsQueues.TSQueue: the mutex, the conditions and the threads' places are a ghost record; blocking is as for the semaphore.
- UnalignedAccess.Execute: program counters, the instructions that do not touch memory, and the kernel's exception handler after `RaiseException`.
- Multiply.Mult: negation of -2^31 and shifts of negative ints are taken as two's complement, which the language leaves to the implementation.
- Machines.Machine: a big-endian host. A plain `char` is signed, as on the hosts the simulator is built for; the loads mask it either way.
- Console, network, post office, timer device, debugger, address spaces, program loading, host files, command lines and printing: input and output without a property of their own.
- The stub file system over host files: it only passes calls on.
- The other copies of the kernel, under NachOS-4.0_MP2, NachOS-4.0_MP3 and NachOS-4.0_MP4, repeat the modelled code; what the last two change in the scheduler and in the file system is not part of this model.
- The examples of stacks and lists under `c++example`: the library lists cover more.

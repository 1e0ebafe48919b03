# A verified model of BS-EXTFS

BS-EXTFS is a small inode file system written in Go: an 8064-entry inode table, 16128 data blocks of 4096 bytes,
two bitmaps, per-inode block maps with twelve direct blocks and three flat indirect tables, slot-reusing
directories, and a kernel that walks paths and creates, writes and removes files on top of it. This project models
that file system, the kernel operations over it and the shell's line editor, and proves what they keep, what they
undo and what they leave alone.

`dafny verify dfyconfig.toml` checks everything.

## How the model is laid out

| file | module | what it holds |
|---|---|---|
| `Bytes.dfy`, `Bitmap.dfy` | `Bytes`, `Bitmap` | little-endian words, bits of integers, `setBit`, `clearBit`, the 64-bit-word scan of `findFreeBit` |
| `Layout.dfy`, `Inodes.dfy` | `Layout`, `Inodes` | the regions of the disk image, the 128-byte inode record |
| `Disk.dfy` | `Disk` | `MemDisk` over an in-place array, formatting, block and inode operations |
| `BlockMap.dfy` | `BlockMap` | virtual blocks to slots; which blocks an inode owns |
| `Falloc.dfy` | `Allocator` | the grow and shrink allocator |
| `Volume.dfy` | `Volume` | many inodes on one disk: the ownership invariant, contents, conservation, determinism |
| `Files.dfy` | `Files` | the inode cache, reading and writing through file descriptors |
| `Dir.dfy`, `Iterate.dfy` | `Dir`, `Iterate` | directory slots, adding, removing and listing entries, the block iterator with its callback |
| `Paths.dfy`, `Keeps.dfy` | `Paths`, `Keeps` | path resolution, the invariant between system calls and what keeps it |
| `Syscalls.dfy`, `Modes.dfy` | `Syscalls`, `Modes` | path walking, `readFile`, `writeFile`, `createFile`, `mkDir`, `chmod`, and what each of them caches |
| `Tree.dfy`, `Remove.dfy` | `TreeFree`, `Remove` | recursive freeing through a cache that may be behind, `removeAll`, what the path leads to afterwards and which blocks are lost, create-then-remove |
| `Names.dfy`, `Undo.dfy` | `Names`, `Undo` | uniqueness of names; creating, filling, reading and removing one path end to end |
| `Forest.dfy`, `Session.dfy` | `Forest`, `Session` | the directories form trees; what creating, writing and removing do to them; what the kernel sees of the inodes through its cache |
| `Calls.dfy` | `Calls` | each system call as a step of a state machine with its reply, and what holds over every session of calls |
| `Runs.dfy`, `Descriptors.dfy` | `Runs`, `Descriptors` | arbitrary runs of file operations, on the volume and through descriptors that keep their offsets |
| `Boot.dfy`, `Scenarios.dfy` | `Boot`, `Scenarios` | the state after formatting, runs of inode allocation; runs from a fresh disk, with the inputs on which the code falls short |
| `OnDisk.dfy` | `OnDisk` | what lies where in the image, byte by byte, as little-endian numbers at literal offsets; the blocks a fresh disk hands out |
| `Access.dfy` | `Access` | what every call answers whom, and runs in which others than root meet the modes |
| `Shell.dfy` | `Shell` | the line editor and its history |

The disk is one byte array that every operation writes in place. `Disk.FileSystem` carries four ghost views of it
(inode bitmap, inode table, data bitmap, data blocks) and `Valid()` ties each of them to the bytes (`Layout.Shows`),
so a method that says `data == old(data)[b := d]` and nothing about the other views also says that no byte of any
other region has changed. Every method that the Go code writes as a loop or an in-place update is a method here, proved
against a relation on those views (`Reallocated`, `Written`, `EntryAdded`, `MadeInode`, `Unlinked`, ...); the main
results are lemmas about those relations, over one step, over pairs of steps and over whole runs.

The relations are built from small functions: where a pointer lies in its table, which bit is the right to search, what a
path resolves to. `OnDisk`, `Access` and `Paths.PermissionsAre` say what these come to without using them, in bytes,
literal offsets, mode numbers and names written out, so that they hold the rest of the model to the disk format of
FILESYSTEM.md and to the kernel's rules. Methods that start from any disk image (`OnDisk.ThirteenBlocks`,
`Access.StrangerRefused`, `Access.PrivateFile`, `Access.GuardedDirectory`, and those of `Scenarios`) carry the same through
concrete runs.

Four definitions carry most of the meaning:

* `Allocator.Reallocated`: the block list has been cut or extended; slots live before and after keep their blocks, new
  blocks were free, the bitmap follows ownership and nothing else, only live tables of this inode are written.
* `Volume.Owned`: the live data blocks and tables of all inodes are in range and pairwise distinct, and are exactly the
  in-range bits that are set.
* `Paths.FsOk` with `Syscalls.CacheOk` (together `Syscalls.Ready`): what holds between system calls. Cached inodes agree
  with the disk in type and permissions, cached regular files entirely; a cached directory may know fewer blocks than
  the disk, because `addDentry` grows a private copy.
* `Calls.InOrder`: `Ready`, the directories form a forest (`Forest.IsForest`: every inode is listed by at most one
  directory, once, and "." and ".." lead where they should), and every cached inode is as on disk or as it was before it
  grew (`Session.Aged`). `Calls.StartSession` establishes it, and after every system call that does not panic it holds
  again if and only if the call was not a removal that leaks (`Calls.Perform`). So `removeAll` needs no assumption on the
  tree or on the cache in a session.

## Where the code does not do what one would expect

Each of these is a property that fails, with the exact condition under which it holds.

* Rounding up a size is 32-bit arithmetic. Above 2^32 - 4096 the block count is 0, so a resize gives every block back
  and leaves a 4 GB size behind (`BlockMap.NBlocksIsCeiling`, `Runs.WrappedResizeLosesContents`). Along a run the sizes
  stay real if and only if no resize wraps (`Runs.RunSizedIffNoWrap`).
* `Falloc` zeroes new tables only. The comment at computer/fs_dir.go:137-139 says that a fresh directory block is zeroed;
  it is whatever the block held before. First fit determines the block from the bitmap and the directory's block count
  (`Volume.GrowthTakesNextBlock`), and growing a directory adds exactly one entry to its listing if and only if that block
  shows no used slot beforehand (`Dir.GrowthAddsOneIffNextBlockClean`, and a clause of `Dir.AddDentry`). The operations
  that may grow a directory therefore need a free slot in it or that this one block is clean; `mkDir` needs it of the one
  or two blocks it takes, which are computed from the bitmap and the parent before the call (`Syscalls.CleanTarget`). What
  the other free blocks hold does not matter. All free blocks of a fresh disk are clean and creations keep them so
  (`Syscalls.CleanTargets` derives the condition from that); a removal keeps it if and only if no block it gives back shows
  an entry (`Remove.RemovalKeepsCleanIff`). It is lost on a fresh disk by writing and removing a file that does not start
  with four zero bytes (`Scenarios.FirstUndo`), and by making and removing any directory, whose two dot entries then
  appear in the next directory that is made (`Scenarios.RecycledDirectory`).
* `addDentry` grows a private copy of the directory inode, so the copy in the kernel's cache is one block behind from then
  on (`Remove.GrowthLeavesCacheBehind`, `Calls.StaleOnlyByGrowth`). On a fresh disk the very first creation makes the root
  directory's copy stale. That does no harm to removals, because the root lies below no path that can be removed
  (`Calls.RootStaleIsHarmless`, and a session that does it in `Scenarios.RemoveTreeSession`). Any other directory that has
  had to grow leaks when it is removed (`Calls.GrownThenRemovedLeaks`): `removeAll` leaves exactly the blocks
  marked that the kernel's copies did not list, and the volume stays in order if and only if all block counts were up to
  date (`Remove.RemovalKeepsFsOkIff`, `Remove.UnseenCount`). Written out by `chmod`, a stale copy keeps the listing if and
  only if the blocks it does not know hold no entry (`Modes.StaleCopyKeepsListingIff`), which after growth is never the
  case (`Modes.ChmodAfterGrowthLosesEntry`): on a fresh disk, one `createFile` and one `chmod` of the root directory lose
  the whole tree (`Scenarios.LostTree`).
* A descriptor's offset has 64 bits, block numbers and sizes have 32. A write that ends above 2^32 - 4096 resizes the file
  to the end cut to 32 bits before it finds no place for the bytes; it keeps the old bytes if and only if that neither
  shrinks the file nor wraps in the block count (`Files.StrayWriteKeepsIff`, for every offset up to 4 TiB by
  `Files.BeyondUpTo4TiB`). From 2^44 on, a write lands at the low 44 bits of its offset and cuts the file off behind itself
  (`Files.AliasedWrite`).
* `createFile` and `mkDir` go on after any error of the first path resolution, including EACCES, and then check write
  permission only. Names stay unique if and only if the caller may search the parent or the name was not there
  (`Names.CreateKeepsNamesUniqueIff`); a directory with two entries of one name results from a parent that others may
  write but not search (`Scenarios.DuplicateName`).
* `removeAll` takes away the first entry of a name. Afterwards the path fails with ENOENT if and only if the name was there
  once, and otherwise leads to the next entry of that name (`Remove.RemovedPath`, and a clause of `Remove.RemoveAll`).
* The owner field holds 13 bytes. A name comes back unchanged if and only if it is no longer and has no NUL
  (`Inodes.OwnerRoundTrip`), so users with longer names do not own what they create: `writeFile` to a new path creates the
  file, leaves it empty and returns EACCES (`Syscalls.CreatorMayWriteIff`, and a run from a fresh disk in
  `Scenarios.LongNameWrites`), and `chmod` is denied (`Modes.CreatorMayChmodIff`).
* An edited history line does not always survive moving away and back. k Ups and k Downs end on it if and only if there are
  k entries before it; with d steps to the unfinished line, k Downs and k Ups end on it if and only if k < d, or
  k = d + 1, or it is the oldest entry and k > d, because the first Up from the unfinished line files that line once more
  (`Shell.EditSurvivesUpAndDownIff`, `Shell.EditSurvivesDownAndUpIff`, with failing inputs in `Shell.UpDownLosesPlace` and
  `Shell.DownUpLosesPlace`).
* FILESYSTEM.md says that the unused trailing bits of a bitmap are left zero and never consulted. Formatting sets those
  of the data bitmap, and the scan relies on it (`Boot.FormattedDataBits`); the model follows the code.

## Model

| member | source | states |
|---|---|---|
| Bytes.OrBitSets | computer/fs_falloc.go:13-15 | or-ing in `1 << j` sets bit j and leaves every other bit of the byte alone |
| Bytes.AndNotBitClears | computer/fs_falloc.go:9-11 | and-not of `1 << j` clears bit j and leaves every other bit of the byte alone |
| Bitmap.SetBit | computer/fs_falloc.go:13-15 | in place, exactly one bit of the bitmap becomes set |
| Bitmap.ClearBit | computer/fs_falloc.go:9-11 | in place, exactly one bit of the bitmap becomes clear |
| Bitmap.SameBits | computer/fs_falloc.go:9-15 | bitmaps with the same bits are the same bytes, so set-level statements are byte-level ones |
| Bitmap.WordScan | computer/fs_falloc.go:40-48 | in a word that is not all ones, below which everything is set, the trailing zeros of the complement give the lowest clear bit of the whole bitmap |
| Bitmap.FindFreeBit | computer/fs_falloc.go:34-59 | for a bitmap of any length: the lowest clear bit, cut to 32 bits, and none if and only if every bit is set |
| BlockMap.PlacesAreABijection | computer/fs_falloc.go:17-32 | the place function and its inverse undo each other between [0, 3084) and 12 direct slots plus three tables of 1024 |
| BlockMap.NBlocksIsCeiling | computer/fs_falloc.go:69-73 | the 32-bit block count is the rounded-up quotient if and only if the size is at most 2^32 - 4096, and 0 above |
| BlockMap.OwnCount | computer/fs_falloc.go:121-129 | an inode of n blocks owns exactly n + [n>12] + [n>1036] + [n>2060] distinct blocks |
| BlockMap.OwnFrame | computer/fs_falloc.go:131-186 | an inode's block list depends on the contents of its own live tables only |
| Allocator.TakeFree | computer/fs_falloc.go:137-141 | hands out the lowest free block, below the data block count, and fails only when nothing is free |
| Allocator.GetDataBlock | computer/fs_falloc.go:107-119 | as before, and zeroes exactly the block handed out |
| Allocator.AllocTables | computer/fs_falloc.go:121-129 | crossing 2060, 1036 and 12 allocates third, second and first table in that order, lowest blocks first, and only those; fails exactly when the free blocks do not suffice |
| Allocator.PutBlock | computer/fs_falloc.go:134-184 | the working block map changes at one virtual block and nowhere else, wherever that block's pointer lives |
| Allocator.GrowBlocks | computer/fs_falloc.go:131-186 | the working map of blocks n0 to n1-1 holds the lowest free blocks in ascending order, every other entry is as before |
| Allocator.GrowAssembles | computer/fs_falloc.go:99-186 | tables, data blocks and the tables written back make up a growth: old slots keep their blocks, new ones were free, nothing else is written, first fit |
| Allocator.ShrinkBlocks | computer/fs_falloc.go:191-244 | clears exactly the bits of the virtual blocks given up |
| Allocator.ShrunkIsReallocated | computer/fs_falloc.go:188-259 | clearing those blocks and the tables no longer needed makes up a shrink: the bitmap loses exactly what the inode no longer owns |
| Allocator.WriteBack | computer/fs_falloc.go:261-270 | loaded tables that were not freed reach the disk, nothing else does |
| Allocator.Falloc | computer/fs_falloc.go:61-275 | refuses if and only if growing beyond 3084 blocks, panics if and only if the free blocks fall short of the difference in need, otherwise the inode is `Reallocated` by first fit, with zeros behind the last block in new tables and nothing changed there in old ones |
| Volume.RewriteKeepsOwned | computer/fs_falloc.go:61-275 | resizing or writing one inode keeps the ownership invariant of all inodes |
| Volume.OthersUntouched | computer/fs_falloc.go:121-186 | every other inode keeps its blocks and the contents of each of them |
| Volume.BitsConserved | computer/fs_falloc.go:107-259 | the number of set bits changes by exactly need(new) - need(old) |
| Volume.FallocZeroReturnsAll | computer/fs_falloc.go:188-259 | a resize to 0 frees exactly the blocks and tables the inode owned and writes no block |
| Volume.GrowThenShrinkBack | computer/fs_falloc.go:61-275 | growing and then shrinking back restores the data bitmap byte for byte and the block map, and writes only blocks that were owned in between |
| Volume.FallocIsDetermined | computer/fs_falloc.go:61-275 | the contract leaves no choice: two results of the same resize have the same bitmap and the same block map, so first fit is the whole policy |
| Volume.GrowthTakesNextBlock | computer/fs_falloc.go:121-186 | growing by one block puts it in the lowest free block, or the second-lowest at 12, 1036 and 2060 blocks, where a table comes first |
| Volume.GrowthThenNext | computer/fs_falloc.go:121-186 | the block that the next one-block growth after a growth takes is computed from the bitmap before the first |
| Volume.FreeConserved | computer/fs_falloc.go:107-259 | the number of free blocks changes by exactly need(old) - need(new) |
| Volume.ReallocatedContent | computer/fs_falloc.go:131-244 | the first min(old, new) bytes of the file are the same after a resize |
| Volume.ChunkWritten | computer/fs_fd.go:119-140 | overwriting part of one owned block changes exactly those bytes of the file and neither its block list nor any block it does not own |
| Inodes.DecodeEncode | computer/fs_inode.go:116-189 | decoding an encoded inode returns every persisted field |
| Inodes.OwnerRoundTrip | computer/fs_inode.go:83-98 | an owner name comes back cut at 13 bytes and at its first zero byte, so unchanged if and only if it is no longer and has none |
| Disk.MemDisk.ReadAt | computer/fs.go:31-43 | count, bytes and error for every offset, negative and past the end included |
| Disk.MemDisk.WriteAt | computer/fs.go:45-63 | the bytes that fit are written, the count and a short write are reported, a negative offset writes nothing |
| Disk.MemDisk.Truncate | computer/fs.go:65-76 | keeps the surviving prefix and extends with zeros |
| Disk.FileSystem.Format | computer/fs.go:186-302 | formatting any disk gives the superblock's bytes, the two initial bitmaps, zeroed data blocks, an empty inode table and the root inode, and the padding behind them |
| Disk.FileSystem.ReadBlock | computer/fs.go:318-331 | fails if and only if the block number is out of range, and then returns zeros |
| Disk.FileSystem.WriteBlock | computer/fs.go:333-348 | fails if and only if the number is out of range or the length is not 4096; otherwise exactly that block of the image changes |
| Disk.FileSystem.ReadDataBlock | computer/fs.go:353-359 | the data block with that index, zeros and an error beyond the data block count |
| Disk.FileSystem.WriteDataBlock | computer/fs.go:361-366 | exactly one data block changes and no other region of the disk |
| Disk.FileSystem.ReadInode | computer/fs_inode.go:100-147 | the fields stored in the record, or in the bytes behind the table that the index points at; fails if and only if those would lie past the end of the disk |
| Disk.FileSystem.WriteInode | computer/fs_inode.go:149-201 | for an index in the table exactly one record changes and no other region of the disk; for every index, exactly the 128 bytes of the image it points at; fails if and only if those would lie past the end |
| Disk.FileSystem.AllocInode | computer/fs_inode.go:257-282 | sets exactly the lowest clear inode bit and fails if and only if all 8064 are set |
| Disk.FileSystem.FreeInodeFromBitmap | computer/fs_inode.go:284-310 | clears exactly that bit; out of range and already free are told apart and change nothing |
| OnDisk.WordsRead | computer/fs_inode.go:115-144 | the 16-, 32- and 64-bit words that are read are the little-endian numbers in those bytes |
| OnDisk.WordsWritten | computer/fs_inode.go:155-184 | the words that are written are 2, 4 and 8 bytes long and are those numbers |
| OnDisk.RegionsAt | computer/fs.go:202-256 | byte 4096 starts the inode bitmap, byte 8192 the inode table with 128 bytes a record, byte 1040384 the data bitmap, byte 1044480 the data blocks of 4096 bytes |
| OnDisk.RecordsAt | computer/fs_inode.go:103-113 | records are loaded by number as long as the disk goes on, and where each one lies |
| OnDisk.BitsAt | computer/fs_falloc.go:9-15 | bit b of a bitmap is bit b mod 8, from the low end, of byte b / 8 |
| OnDisk.RecordRead | computer/fs_inode.go:116-144 | every field of a record that is read, by its bytes |
| OnDisk.RecordWrittenAt | computer/fs_inode.go:149-201 | every field of a record that is written is read back from the same bytes, the flag is 0 or 1, and the 28 bytes behind are zero |
| OnDisk.OwnerField | computer/fs_inode.go:91-98 | the owner field is the first 13 bytes of the name with zeros behind |
| OnDisk.SlotWritten | computer/fs_dir.go:8-32 | an entry that is written: number, length, three zero bytes, name, zeros up to 64 bytes |
| OnDisk.SlotRead | computer/fs_dir.go:34-59 | a slot is free if and only if its number is 0, and otherwise holds the number and as many bytes as its length says |
| OnDisk.SlotsAt | computer/fs_dir.go:37-38 | slot q of a directory is 64 bytes from 64 * (q mod 64) on in its block q / 64 |
| OnDisk.ClearedAt | computer/fs_dir.go:175-185 | clearing a slot zeroes its 64 bytes and no others of the directory |
| OnDisk.EnteredAt | computer/fs_dir.go:95-127 | an entry added in place takes the 64 bytes of the first slot whose number is 0, and no others |
| OnDisk.ScannedAt | computer/fs_dir.go:37-51 | when a slot's name is the one looked for, and exactly which slots make reading a listing or searching it panic, in bytes of the block |
| OnDisk.ListedAt | computer/fs_dir.go:37-56 | what each slot of any block adds to the listing, names that run on through later slots included |
| OnDisk.PointersAt | computer/fs_falloc.go:17-32 | the block in position v is the v-th of twelve pointers, or the little-endian number in bytes 4 * (v - 12), 4 * (v - 1036) or 4 * (v - 2060) on of a table |
| OnDisk.TablesAt | computer/fs_falloc.go:121-129 | from which size on a file has each block and each table |
| OnDisk.NewTablesBlank | computer/fs_falloc.go:107-129 | when a resize gives a file a table, the entries of it behind the last block are zero |
| OnDisk.LookedUpAt | computer/fs_fd.go:34-54 | what looking up any 32-bit position gives: the pointer, an error when the table is no data block, or a panic when the cut offset leaves the table |
| OnDisk.BytesAt | computer/fs_fd.go:77-97 | byte j of a file is byte j mod 4096 of the block in position j / 4096 |
| OnDisk.BlocksFromZero | computer/fs_falloc.go:121-186 | on a disk without owned blocks an empty file that grows gets blocks 0, 1, 2, ... in the order of allocation |
| OnDisk.TablesFirst | computer/fs_falloc.go:121-186 | for every size: its tables are blocks 0, 1 and 2, third before second before first, as far as it needs them, and its data blocks follow in order |
| OnDisk.ThirteenBlocks | computer/fs_falloc.go:61-275 | a first file of 53248 bytes on a fresh disk has its table in block 0, which starts with 13, 0, 0, 0 in the image, its pointers lead to blocks 1 to 12, and position 12 is found in block 13 |
| Boot.FormattedIsOk | computer/fs.go:217-258 | a formatted disk satisfies the invariant of all system calls: nothing owned, bits above the data block count set, inodes 0 to 2 taken, an empty root, clean blocks |
| Boot.Start | computer/fs.go:276-304 | formatting and then starting a kernel establishes `Ready`, with every data block free and every inode but 0 to 2 |
| Boot.AllocNeverReturnsLive | computer/fs_inode.go:257-310 | over every run that does not free inodes 0 to 2, an allocated inode lies in [3, 8064) and was not live, and allocation fails only when all are taken |
| Files.Kernel.GetInode | computer/kernel.go:154-174 | the cached object if there is one, otherwise a new one with the record the number points at, in the table or behind it, filed under that number; an error if and only if there is neither |
| Files.BlockNumForVirtual | computer/fs_fd.go:34-54 | the block in that virtual position; an error if and only if the table it needs is out of range; for positions no file has, a panic or a pointer from the wrong place, each with its condition |
| Files.FileFD.Read | computer/fs_fd.go:61-101 | of any inode: end of file if and only if at or past the size; otherwise what the block list leads to, up to the first block that cannot be had, with the error or panic of that block; the rest of the buffer untouched |
| Files.ReadInRange | computer/fs_fd.go:61-101 | of an inode with a sound block list that is no error and exactly the slice of the file's bytes at the offset |
| Files.FileFD.Write | computer/fs_fd.go:103-144 | at any 64-bit offset: refusal and panic of the resize have exact conditions on the end cut to 64 and 32 bits; otherwise the bytes go where the block numbers lead, up to the first block that cannot be had; the record on disk becomes the cached inode if and only if all were stored |
| Files.WriteInRange | computer/fs_fd.go:103-144 | up to 2^32 - 4096 bytes: too big, a full disk, or all bytes stored, each if and only if its condition holds; then the range is overwritten, every other old byte kept, the block list covers the new end and no block the inode does not own has changed |
| Files.StoredInRange | computer/fs_fd.go:117-140 | inside the file the loop of read-modify-writes is one splice of its bytes |
| Files.StrayWriteKeepsIff | computer/fs_fd.go:109-127 | a write that finds no place stores nothing, and keeps the old bytes if and only if the resize before it neither cuts them off nor wraps in the block count |
| Files.AliasedWrite | computer/fs_fd.go:109-140 | a write 2^44 bytes or more out lands at the low 44 bits of its offset in a file cut off right behind it |
| Files.WrittenTwice | computer/fs_fd.go:109-143 | writing a and then b leaves the same kind of state as writing a + b: size, content, ownership, untouched blocks |
| Files.OverwrittenTwice | computer/fs_fd.go:117-140 | on bytes, two adjacent overwrites are one |
| Files.ReadsConcatenate | computer/fs_fd.go:71-100 | reads with any list of buffer lengths deliver slices that concatenate to the content, cut at the total length or at the size |
| Runs.RunKeepsOwned | computer/fs_falloc.go:99-275 | in every state of every run of resizes, writes, creations and deletions on any inodes the ownership invariant holds |
| Runs.StepRefines | computer/fs_fd.go:61-144 | each operation on the disk is the operation on a map from inodes to byte sequences; other files keep every byte |
| Runs.RunRefinesContents | computer/fs_fd.go:61-144 | over every run without a wrapping resize the disk refines that map |
| Runs.RunSizedIffNoWrap | computer/fs_falloc.go:69-72 | along a run all sizes stay within 3084 blocks if and only if no resize wraps |
| Runs.WrappedResizeLosesContents | computer/fs_falloc.go:69-72 | a wrapping resize frees every block and leaves a size no file can have |
| Descriptors.WriteOnce | computer/fs_fd.go:103-144 | a write through a descriptor keeps the kernel ready and is a step of such a run; refusal and panic have exact conditions |
| Descriptors.RunActs | computer/fs_fd.go:61-160 | any run of SetOffset, Read and Write on any descriptors of any files is a run in that sense, every read delivers the bytes of its file at its descriptor's offset, offsets and sizes are what a ledger says, and it goes on to the end if and only if the free blocks cover what the calls take in all, otherwise up to exactly the first call they do not cover |
| Descriptors.ReadChunks | computer/fs_fd.go:61-101 | reading with any list of buffers keeps the kernel ready and delivers the slices that concatenate as above |
| Iterate.IterBlocks | computer/fs_inode.go:206-252 | the callback sees the blocks in virtual order with their original contents up to the first stop, although tables are cached and it may overwrite the block it is shown |
| Iterate.OverwriteAll | computer/fs_inode.go:206-252 | a callback that never stops and writes the same block everywhere leaves it in every block of the file |
| Iterate.OverwriteFirst | computer/fs_inode.go:246-249 | a callback that writes the block it is shown and stops at once changes the first block of the file and no other |
| Dir.EncodeDirEntry | computer/fs_dir.go:8-32 | the two refusals in their order; otherwise a slot that decodes to the entry |
| Dir.EntryRoundTrip | computer/fs_dir.go:8-59 | decoding an encoded entry returns it |
| Dir.DecodeDirEntries | computer/fs_dir.go:34-59 | for any block: a panic if and only if some used slot has a name that cannot be sliced, otherwise the entries of the used slots in order, names that run into later slots included; for a directory block, its listing |
| Dir.ReadEntries | computer/fs_dir.go:197-217 | what every block decodes to, in order, or a panic if and only if some block has a name that cannot be sliced; the entries of the used slots of all blocks when no name is longer than 55 bytes |
| Dir.TryInsert | computer/fs_dir.go:110-127 | fills exactly the first free slot, and reports none if and only if every slot is used |
| Dir.AddDentry | computer/fs_dir.go:75-155 | uses the first free slot and touches nothing else when there is one; otherwise grows by exactly the block that first fit hands out, and the listing gains exactly the entry if and only if that block was clean; every refusal has its exact condition |
| Dir.FillAddsOne | computer/fs_dir.go:113-121 | filling a free slot adds exactly one entry to the listing and keeps the order of the others |
| Dir.GrownSlots | computer/fs_dir.go:137-145 | after growth the slots are the old ones followed by those of the block handed out, with its old contents |
| Dir.GrowthAddsOneIffBlockClean | computer/fs_dir.go:137-154 | appending the slots of a block with the entry in the first free one adds exactly that entry if and only if none of them was used, full blocks included |
| Dir.GrowthAddsOneIffNextBlockClean | computer/fs_dir.go:137-154 | the listing after growth is the old one plus the entry if and only if the block that first fit hands out, computed from the bitmap and the block count before the call, showed no used slot |
| Dir.RemoveDentry | computer/fs_dir.go:157-195 | clears exactly the first slot whose bytes match the name; a panic if and only if a length byte that points out of its block comes first; not found if and only if neither occurs, and then nothing is written; without long names it is the first slot with the name |
| Dir.ClearRemovesOne | computer/fs_dir.go:176-183 | clearing a used slot removes exactly its entry from the listing and keeps the order of the others |
| Names.AddedEntries | computer/fs_dir.go:110-155 | in place or with growth into a clean block, the listing gains exactly one entry and keeps the order of the others |
| Paths.LookupIsFirstNamed | computer/kernel.go:236-245 | the entry found by name is the one in the first slot with that name, which is the slot removal clears |
| Paths.ResolveFoundIffChain | computer/kernel.go:208-256 | a path leads to inode n if and only if there is a chain from the root in which every walked inode is a directory the caller may execute and the first entry with each component leads on |
| Paths.ResolveFailsIffStopped | computer/kernel.go:222-245 | a path fails with an error if and only if a chain leads to a component that decides it, in the order ENOTDIR, EACCES, ENOENT |
| Syscalls.ResolvePath | computer/kernel.go:208-256 | the loop through the cache computes exactly that resolution on the disk and changes no inode |
| Syscalls.ResolveLast | computer/kernel.go:688-696 | resolving a path is resolving its directory and then one lookup |
| Keeps.ResolveSame | computer/kernel.go:208-256 | resolution depends on types, owners, permissions and directory slots only |
| Keeps.RewriteKeepsFsOk | computer/fs_fd.go:109-143 | rewriting one inode keeps the invariant of the whole volume |
| Keeps.NewInodeKeepsFsOk | computer/kernel.go:261-278 | allocating an inode and writing an empty record keeps it |
| Keeps.EntryAddedKeepsFsOk | computer/kernel.go:281-284 | adding an entry keeps it, with room or when the one block that first fit hands out is clean |
| Keeps.NextAfterLink | computer/kernel.go:281-294 | after the entry in the parent, the block that a new directory will start in shows what it showed before the call |
| Keeps.DropKeepsHeld | computer/kernel.go:322-329 | giving back a subtree nothing refers to keeps it, but for marked blocks without an owner |
| Syscalls.Load | computer/kernel.go:154-174 | loading an allocated inode keeps the kernel ready and yields the current inode |
| Syscalls.MakeInode | computer/kernel.go:260-297 | on success the lowest free inode holds the fresh record, the parent gains exactly its entry, a directory lists exactly "." and "..", nothing else changes; every failure has its exact condition, and leaves at most one leaked inode |
| Syscalls.Link | computer/kernel.go:281-284 | an entry is added, refused or runs into a full disk, each if and only if its condition on name, slots, block count and free blocks holds |
| Syscalls.LinkDots | computer/kernel.go:286-294 | an empty directory ends up listing exactly "." and ".." if and only if a block is free, and in the block that first fit hands out |
| Syscalls.CreateFile | computer/kernel.go:763-789 | no change when the path resolves; otherwise the error of the parent, or a new empty file in it, or a failure, each if and only if its condition holds |
| Syscalls.MkDir | computer/kernel.go:735-761 | EEXIST if and only if the path resolves; otherwise the error of the parent, or a new directory in it, or a failure, each if and only if its condition holds |
| Syscalls.CleanTargets | computer/fs_dir.go:137-145 | when all free blocks are clean, every creation meets the condition on the one or two blocks it takes |
| Syscalls.ReadFile | computer/kernel.go:594-629 | exactly the content of the file the path leads to, or the error decided first |
| Syscalls.WriteFile | computer/kernel.go:791-845 | on an existing file stores exactly the content; on ENOENT creates the file first; any other resolution error is returned; every outcome of either branch has its exact condition |
| Syscalls.SaveFile | computer/kernel.go:825-844 | directory, permission, size and full-disk outcomes, each if and only if its condition holds; on success exactly the content is stored and every other inode keeps its blocks |
| Syscalls.CreatorMayWriteIff | computer/kernel.go:564-572 | the creator may write a new file if and only if it is root or its name fits the owner field |
| Syscalls.TruncateThenWrite | computer/kernel.go:836-844 | whether the old file was shorter, longer or empty, resizing and then writing from offset 0 leaves exactly the content |
| Syscalls.WriteThenRead | computer/kernel.go:594-629 | after writeFile the path reads back exactly the content for every caller who may read it; every path resolves as before and every other path reads as before |
| TreeFree.KidsAre | computer/kernel.go:311-316 | the children of a directory are exactly what it lists under other names than "." and ".." |
| TreeFree.FreeInodeTree | computer/kernel.go:301-330 | clears exactly the inode bits of the subtree and the data bits that the kernel's copies of its inodes list, be they up to date or from before they grew, writes no data block, forgets exactly those cache entries, keeps everything that other inodes own |
| TreeFree.FreeEntries | computer/kernel.go:312-319 | the same for the children listed in a directory, skipping "." and ".." |
| Remove.CheckRemoval | computer/kernel.go:683-704 | EPERM for the root, then the errors of the path, then EACCES unless the caller may write the parent |
| Remove.UnlinkAndFree | computer/kernel.go:706-710 | the slot path resolution followed is cleared, the inode it led to is freed with its subtree as the kernel sees it, nothing refers to either; blocks it does not see stay marked without an owner |
| Remove.RemoveAll | computer/kernel.go:679-711 | the outcome is decided by the checks in order; on success exactly the entry and the subtree are gone and the path leads to nothing or to the next entry of the name; exactly the blocks the kernel's copies did not list are lost, and it is ready for the next call if and only if there are none; on an error the bitmaps and blocks are unchanged |
| Remove.RemovalKeepsFsOkIff | computer/kernel.go:322-329 | a removal keeps the invariant of the volume if and only if every block count in the subtree was up to date, and otherwise all of it but for exactly the blocks that were not listed |
| Remove.UnseenCount | computer/kernel.go:322-324 | the number of lost blocks is what the inodes need less what they needed as the kernel sees them |
| Remove.RemovedPath | computer/kernel.go:688-710 | after removal the path fails with ENOENT if the name was there once, whatever its other components; without dots in it, if and only if, and otherwise it leads to the inode of the next entry of that name |
| Remove.StaysInside | computer/kernel.go:222-255 | a path without dots from the root of a subtree never leaves it |
| Remove.RemovalKeepsCleanIff | computer/kernel.go:322-327 | free blocks stay clean if and only if no block that is given back shows an entry |
| Remove.NameGoneIffUnique | computer/kernel.go:706-708 | after removal the name is gone from the directory if and only if it was there once |
| Remove.CreateThenRemove | computer/kernel.go:260-330 | creating a file or directory, filling it, and removing it restores the inode bitmap byte for byte and the parent's listing; the data bitmap too when the parent had room, and otherwise up to the blocks the parent grew by |
| Remove.SavedIsFilledIn | computer/kernel.go:836-844 | a file that was created and then written is covered by the above |
| Remove.MadeDirIsFilledIn | computer/kernel.go:286-294 | a new directory with its dot entries is covered by the above, and has no children |
| Undo.ResolveKept | computer/kernel.go:208-256 | every path that led somewhere before a creation still leads there after it, whether the entry went in place or the parent grew |
| Undo.CreatedResolves | computer/kernel.go:281-284 | after creation the path leads to the new inode, through the very slot its entry was put in, in a parent that grew as well |
| Undo.CreatedIsReferredToOnce | computer/kernel.go:261-284 | that slot is the only entry in the whole tree that refers to the new inode |
| Undo.CreatedIsRemovable | computer/kernel.go:679-711 | everything `RemoveAll` asks for holds of a file just created, written or not, and of a directory just made |
| Undo.RestoredReadsSame | computer/kernel.go:208-256 | when the volume is restored, every path resolves and every file reads as before, for every user |
| Undo.CreateWriteRemove | computer/kernel.go:679-845 | createFile, writeFile and removeAll of one new path by root all succeed if and only if the name and the content fit, and then the volume is restored: the inode bitmap and, in a parent with room, the data bitmap byte for byte, every other record, all other inodes' blocks and contents, and the parent's listing; a parent that grew keeps its new blocks; a free block is dirty afterwards unless the content starts with four zero bytes |
| Undo.NewFileReadsBack | computer/kernel.go:594-845 | after writeFile to a new path, readFile of that path returns exactly the content |
| Undo.NewFileLeavesOthers | computer/kernel.go:594-845 | every other path that led to something still does, and every other file reads as before |
| Undo.WriteNewThenRead | computer/kernel.go:594-845 | the two calls one after the other, for any user: the outcome of the first has exact conditions, and when the content was stored it comes back |
| Undo.MkDirThenRemove | computer/kernel.go:679-761 | mkDir and removeAll of one new path by root succeed if and only if the name fits and an inode and a block are free, and then the volume is restored in the same sense; the next directory's block shows the dot entries |
| Forest.TreeFromIsTree | computer/kernel.go:301-330 | in a forest there is a subtree at every inode, with no inode twice, closed under listing |
| Forest.AddLeaf | computer/kernel.go:281-284 | an entry for a new inode keeps the forest |
| Forest.AddDots | computer/kernel.go:286-294 | the dot entries of a new directory keep it |
| Forest.DropSubtree | computer/kernel.go:706-710 | removing a subtree with its entry keeps it |
| Forest.OutsideRefersOnce | computer/kernel.go:299-300 | from outside, a subtree is referred to only by the one entry of its root |
| Session.ForestRemovable | computer/kernel.go:679-711 | in a forest, everything `RemoveAll` asks of the tree and of the cache holds of whatever a path without dots leads to |
| Session.PathLeadsToTree | computer/kernel.go:299-320 | whatever a path without dots leads to is the root of a subtree that hangs from exactly one entry, whose directory lies outside it |
| Session.MadeKeepsTree | computer/kernel.go:260-297 | creating a file under a name without dots keeps the forest |
| Session.MadeDirKeepsTree | computer/kernel.go:260-297 | and so does making a directory |
| Session.RemovalKeepsTree | computer/kernel.go:706-710 | and so does removing |
| Session.SavedKeepsTree | computer/kernel.go:836-844 | and so does writing a file |
| Session.LeakKeepsTree | computer/kernel.go:261-284 | and so does a creation that fails after the allocation |
| Calls.Perform | computer/kernel.go:594-845 | createFile, mkDir, writeFile, readFile or removeAll, in any state in order and under the one condition `Enabled` that a directory which has to grow gets a clean block: the reply and the new state are those of the call, it panics if and only if the free blocks do not suffice, and otherwise the kernel is in order again if and only if the call is not a removal that leaks |
| Calls.StartSession | computer/fs.go:217-302 | a fresh disk satisfies the invariant of sessions |
| Calls.StepKeepsOrder | computer/kernel.go:594-845 | on states: every enabled call that does not panic keeps the volume, the forest and the cache in order, unless it leaks; then exactly the blocks are left behind that the kernel's copies did not list |
| Calls.SessionStaysInOrder | computer/kernel.go:594-845 | over every sequence of such calls each state is in order |
| Calls.PanicsIffFull | computer/fs_falloc.go:107-186 | a call panics if and only if the free blocks fall short of what its entry and its content need, for each call |
| Calls.StaleOnlyByGrowth | computer/fs_dir.go:95-145 | over any call, a cached copy becomes stale only by the growth of its directory in that call |
| Calls.SessionStale | computer/fs_dir.go:95-145 | over any session, only directories that have had to grow in it are stale |
| Calls.StepKeepsAged | computer/kernel.go:154-174 | cached copies stay earlier states of what is on disk, block lists included |
| Calls.CurrentNeverLeaks | computer/kernel.go:301-330 | a removal leaks nothing where no cached copy is stale |
| Calls.RootStaleIsHarmless | computer/kernel.go:683-710 | nor where only the root directory's is |
| Calls.GrownThenRemovedLeaks | computer/kernel.go:301-330 | a directory that a createFile or mkDir has made grow leaks when it is removed next |
| Paths.PermissionsAre | computer/kernel.go:564-592 | for every user and inode: root may do everything; others may execute, write and read if and only if the mode that counts for them has 1, 2 and 4 in it, the owner's for whom the owner field names and the others' for all others |
| Paths.ModeTable | computer/kernel.go:564-592 | the eight modes and what each allows |
| Modes.ChangersAre | computer/kernel.go:881-883 | permissions are changed by root and by whom the owner field names, and by nobody else |
| Syscalls.NewInodeIs | computer/kernel.go:266-280 | a new inode is empty, has one reference, is not setuid and carries modes 7 and 5, so that only root and its owner write it |
| Boot.RootInodeIs | computer/fs.go:286-301 | the root directory of a fresh disk belongs to root with modes 7 and 5: everybody searches and reads it and only root writes it |
| Access.WalkRefused | computer/kernel.go:221-229 | a walk ends with ENOTDIR at what is no directory, whatever its permissions, and with EACCES at a directory that may not be searched |
| Access.WalkGoesOn | computer/kernel.go:231-251 | and otherwise goes on from the first entry of the name, or ends with ENOENT |
| Access.CreationReply | computer/kernel.go:744-757 | createFile and mkDir of a path that does not resolve answer the error of its directory path, ENOTDIR if and only if that leads to no directory, EACCES if and only if it leads to one the caller may not write, and go on otherwise |
| Access.WriteNewReply | computer/kernel.go:799-816 | and so does writeFile of a path that is not there, where the parent is always a directory |
| Access.ReadReplyIs | computer/kernel.go:594-629 | readFile answers the error of the path, EISDIR if and only if it leads to a directory, EACCES if and only if it leads to a file the caller may not read, and exactly the content otherwise |
| Syscalls.SaveReplyIs | computer/kernel.go:818-844 | writeFile of a path that is there answers EISDIR if and only if it leads to a directory, EACCES if and only if it leads to a file the caller may not write |
| Access.RemoveReplyIs | computer/kernel.go:679-711 | removeAll answers EPERM if and only if the path is the root, then the error of the path, then EACCES if and only if the caller may not write the directory of the last component, and removes otherwise |
| Access.StrangerRefused | computer/kernel.go:735-890 | on a fresh disk createFile, mkDir, writeFile and chmod in and of the root directory are refused for every user but root, and nothing changes |
| Access.StrangerInNewDir | computer/kernel.go:735-789 | in a directory that root has just made, others look for names and are told ENOENT, and create nothing |
| Access.PrivateFile | computer/kernel.go:594-890 | a file that root writes and sets to 7, m is read by others if and only if m has 4 in it, and by root in any case |
| Access.GuardedDirectory | computer/kernel.go:208-256 | a directory that root sets to 7, m is searched by others if and only if m has 1 in it, and by root in any case |
| Access.CreatedBefore | computer/kernel.go:735-789 | there, createFile of a path that is there does nothing, mkDir of it is EEXIST, and creating below a file is ENOTDIR |
| Access.DirIsNoFile | computer/kernel.go:594-845 | there, a directory is neither read nor written |
| Access.StrangerReplies | computer/kernel.go:594-845 | there, others read the new file and are refused to write it if they may search its directory, and are refused both by the resolution otherwise |
| Access.StrangerMkDir | computer/kernel.go:735-761 | there, mkDir by others is EEXIST if they may search the directory, and EACCES if they may neither search nor write it |
| Scenarios.FirstFile | computer/kernel.go:763-789 | on a fresh disk the first createFile succeeds if and only if the name is short enough, and the root lists exactly that file |
| Scenarios.FirstUndo | computer/kernel.go:679-845 | on a fresh disk, where the root has to grow for it, a file can be created, written and removed if and only if name and content fit, and leaves a dirty free block unless the content starts with four zero bytes |
| Scenarios.RecycledDirectory | computer/fs_dir.go:137-154 | a directory made and removed there leaves its dot entries for the next directory |
| Scenarios.DuplicateName | computer/kernel.go:763-789 | in a directory that others may write but not search, any other user's createFile of an existing name fails to resolve it with EACCES and adds a second entry of that name |
| Scenarios.LongNameWrites | computer/kernel.go:791-834 | in a directory opened with chmod, a user with a name of more than 13 bytes writes a new path: the reply is EACCES and the file is there, empty |
| Scenarios.LongNameLeaks | computer/kernel.go:260-284 | on a fresh disk a name of 56 bytes or more is refused after the inode has been taken: it stays marked and in no directory, and nothing else changes |
| Scenarios.TwoWritesOneRead | computer/fs_fd.go:61-160 | two writes through one descriptor to a new file, a change of its offset and a read: the read delivers the bytes of both, in order, from the offset on |
| Scenarios.LostTree | computer/kernel.go:871-890 | on a fresh disk, createFile and then chmod of the root directory leave a root without blocks: the file can no longer be found |
| Scenarios.RemoveTreeSession | computer/kernel.go:679-845 | mkDir, createFile in it and removeAll of it as a session from a fresh disk: the root's copy is stale and the removal succeeds all the same, with everything in order afterwards |
| Remove.GrowthLeavesCacheBehind | computer/fs_dir.go:99-145 | growing a directory leaves a copy cached before exactly one block behind |
| Remove.StaleCopyLeaks | computer/kernel.go:322-324 | freeing one inode through an earlier copy frees all its blocks if and only if the block counts agree, and otherwise leaks exactly the difference in need |
| Names.CreationProceedsIff | computer/kernel.go:740-757 | given a writable parent, creation goes past the first resolution if and only if the caller may not search the parent or the name is not there |
| Names.CreateKeepsNamesUniqueIff | computer/kernel.go:763-789 | creation keeps names unique if and only if the caller may search the parent or the name was not there |
| Names.RemoveKeepsNamesUnique | computer/fs_dir.go:157-195 | removal keeps unique names unique, and the removed name is no longer found |
| Modes.Chmod | computer/kernel.go:871-890 | the errors in order; otherwise the record on disk becomes the kernel's copy with the new permissions |
| Modes.CreatorMayChmodIff | computer/kernel.go:881-883 | the creator of an inode may change its permissions if and only if it is root or its name fits the owner field |
| Modes.ModesKeepFsOk | computer/kernel.go:884-888 | new permissions keep the invariant of the volume |
| Modes.StaleCopyKeepsListingIff | computer/kernel.go:884-888 | writing out an earlier copy of a directory keeps its listing if and only if the blocks it does not know hold no entry |
| Modes.ChmodAfterGrowthLosesEntry | computer/kernel.go:884-888 | right after a growth, a copy cached before it always loses the new entry |
| Shell.Shell.CanonicalLogic | programs/shell/buffer_logic.go:11-191 | every key has the effect of the editor's state machine, and the result is the line exactly on Enter |
| Shell.Shell.MoveUp | programs/shell/buffer_logic.go:85-124 | files the buffer where it came from and recalls the entry before |
| Shell.Shell.MoveDown | programs/shell/buffer_logic.go:127-162 | files the buffer where it came from and recalls the entry after, or the unfinished line |
| Shell.Press | programs/shell/buffer_logic.go:46-188 | no key takes the cursor out of the buffer or the history position out of range |
| Shell.Run | programs/shell/buffer_logic.go:11-191 | nor does any run of keys |
| Shell.UpsThenDownsRestore | programs/shell/buffer_logic.go:85-162 | from the unfinished line, k Ups and then k Downs restore it, for every k and every history |
| Shell.EditSurvivesUpAndDownIff | programs/shell/buffer_logic.go:96-162 | where k Ups and then k Downs from an edited recalled line end, and that it is that line, edit included, if and only if there are k entries before it |
| Shell.EditSurvivesDownAndUpIff | programs/shell/buffer_logic.go:96-162 | k Downs and then k Ups end on the edited line if and only if k < d or k = d + 1 or it is the oldest and k > d, where d is its distance from the unfinished line |
| Shell.DownsThenUps | programs/shell/buffer_logic.go:96-162 | where k Downs and then k Ups from an edited recalled line end |
| Shell.DownUpLosesPlace | programs/shell/buffer_logic.go:91-94 | from the newest command, one Down and one Up end on the unfinished line instead |
| Shell.UpDownLosesPlace | programs/shell/buffer_logic.go:113-116 | from the oldest command, one Up and one Down end on the next |
| Shell.TypeThenDelete | programs/shell/buffer_logic.go:61-74 | typing text and deleting as many characters restores the state, wherever the cursor is |
| Shell.LeftArrows | programs/shell/buffer_logic.go:81-84 | k presses of ESC [ D take the cursor k to the left, or to the start, and change nothing else |
| Shell.RightArrows | programs/shell/buffer_logic.go:76-79 | k presses of ESC [ C take it k to the right, or to the end |
| Shell.ArrowsRestoreIff | programs/shell/buffer_logic.go:76-84 | k Lefts and then k Rights restore the state if and only if the cursor has k places to its left or is at the end, and the other way round |
| Shell.TypedOneByOne | programs/shell/buffer_logic.go:166-181 | text typed character by character ends up at the cursor, in order, with the cursor behind it |
| Shell.TabTypesSpaces | programs/shell/buffer_logic.go:166-181 | Tab types four spaces |
| Shell.DeleteTakesOne | programs/shell/buffer_logic.go:61-74 | Delete takes away the character before the cursor and no other |
| Shell.KeysWithoutEffect | programs/shell/buffer_logic.go:12-18 | the keys that are left alone |
| Shell.SomeKeys | programs/shell/buffer_logic.go:85-162 | a run of Up, an edit, Up, Down and Down over a history of two commands |
| Shell.EnterFilesOnce | programs/shell/buffer_logic.go:48-59 | Enter clears the editor, and appends the line to the history if and only if it is neither empty nor the newest entry already |

## Left out

- Files.WriteInRange: bytes between the old end and the start of the write are not determined, because the source does not zero them.
- Files.FileFD.Write: of an inode whose block list is not sound nothing is said, because `Falloc` then clears bits of other inodes.
- Files.StrayWriteKeepsIff: writes from 4 TiB on whose block numbers wrap back into the third table, and writes of more than 4 GB at small offsets, are covered by the contract of `Files.FileFD.Write` only.
- Syscalls.SaveFile: contents of more than 2^32 - 4096 bytes are excluded, and so they are for `Syscalls.WriteFile`.
- Descriptors.RunActs: writes that end above 2^32 - 4096 are excluded from runs.
- Files.WrittenTwice: the two ways of writing agree in size, content and ownership, not in the physical blocks, whose order of allocation differs when a table is crossed.
- Disk.FileSystem.Format: the superblock's bytes are a parameter; only the layout constants it stands for are modelled, so opening an existing image is not.
- Allocator.Falloc: a full bitmap is a panic in the source and the result `Panicked` here; the inode and the blocks are not described after it, only the bitmap on disk, which is unchanged.
- Allocator.PutBlock: the three table buffers are local values, not arrays; nothing else in the source refers to them.
- Dir.AddDentry: after growth into a block without a free slot the source returns an error but keeps the block; the contract says so (`NoFreeSlot`).
- Syscalls.MakeInode: a full disk is a panic in the source, after which nothing is said of the volume.
- Syscalls.CreateFile: needs a free slot in the parent or that the block it grows by is clean, see above; so do `Syscalls.WriteFile` when it creates, `Syscalls.MkDir` for its one or two blocks, and `Undo.CreateWriteRemove`.
- Remove.RemoveAll: assumes of the subtree that it is a tree referred to once and of cached copies in it that they are earlier states of the inodes; both hold in every session (`Session.ForestRemovable`). The tree, the slot and the table of what the kernel sees are ghost parameters.
- Remove.UnlinkAndFree: the same.
- Remove.CreateThenRemove: the growth of a parent is not undone by removal. That the removal succeeds is `Undo.CreateWriteRemove` and `Undo.MkDirThenRemove`.
- Calls.Perform: after a removal that leaks, and after a panic, the session is not followed further; `chmod` is not one of its calls, because through a stale copy it breaks the tree.
- Calls.StartSession: an inode that a failed creation leaks is in no directory, so not every allocated inode is listed.
- Modes.Chmod: with a copy cached before its directory grew, the invariant is not claimed afterwards.
- Shell.Shell.CanonicalLogic: what is printed on the terminal is left out, and so are non-ASCII characters, for which the source mixes byte and rune positions.
- Iterate.IterBlocks: the callback is a function that may write the block it is shown; a callback that writes other blocks is left out.
- Paths are lists of clean components; `normalizePath` is library string work.
- Times are parameters; `dirty` is set as in the source and otherwise unused.
- Mutexes: every file operation holds one kernel lock and is one atomic step here.
- Host files, network persistence and disk errors other than those of bounds.
- `readDir`, `stat` and `changeDirectory`, which would only add easy members over `ResolvePath` and `ReadEntries`; processes, terminals, sockets, consoles and the other programs.

/** Runs from a freshly formatted disk, none of which assumes anything of the state: that the operations get off the
    ground, and inputs on which the code falls short of what one would expect. */
module Scenarios {
  import opened Bytes
  import opened Bitmap
  import opened Layout
  import opened Inodes
  import opened BlockMap
  import opened Disk
  import opened Allocator
  import opened Volume
  import opened Files
  import opened Dir
  import opened Paths
  import opened TreeFree
  import opened Keeps
  import opened Syscalls
  import opened Remove
  import opened Names
  import opened Boot
  import opened Undo
  import opened Modes
  import opened Session
  import opened Forest
  import opened Calls
  import opened Runs
  import opened Descriptors

  /** Directory i lists es, in slots without gaps. */
  ghost predicate Lists(itab: InodeTable, data: Blocks, i: u32, es: seq<DirEntry>)
  {
    && i < INODES && IsDir(Decode(itab[i])) && NBlocks(Decode(itab[i]).size) <= MAXBLOCKS
    && Compact(Slots(Decode(itab[i]), data), |es|) && Entries(Slots(Decode(itab[i]), data)) == es
  }

  lemma ListsHasRoom(itab: InodeTable, data: Blocks, i: u32, es: seq<DirEntry>)
    requires Lists(itab, data, i, es) && |es| % PERBLOCK != 0
    ensures Room(Decode(itab[i]), data)
  {
    hide Decode, Slots, Entries;
    var slots := Slots(Decode(itab[i]), data);
    assert |slots| == PERBLOCK * NBlocks(Decode(itab[i]).size) by { SlotCount(Decode(itab[i]), data); }
    assert IsFree(slots[|es|]);
  }

  lemma SlotCount(ino: Ino, data: Blocks)
    requires NBlocks(ino.size) <= MAXBLOCKS
    ensures |Slots(ino, data)| == PERBLOCK * NBlocks(ino.size)
  {
  }

  /** A new entry goes to the end of such a listing. */
  lemma ListsOneMore(ibm: InodeBitmap, itab: InodeTable, dbm: DataBitmap, data: Blocks, p: u32, name: Name, i: u32,
                     v: Ino, q: nat, ibm': InodeBitmap, itab': InodeTable, dbm': DataBitmap, data': Blocks,
                     es: seq<DirEntry>)
    requires FsOk(ibm, itab, dbm, data) && Taken(ibm, p) && Lists(itab, data, p, es)
    requires GrowsClean(Decode(itab[p]), data, dbm)
    requires MadeEntry(ibm, itab, dbm, data, p, name, i, v, q, ibm', itab', dbm', data')
    ensures Lists(itab', data', p, es + [DirEntry(i, name)]) && SameMeta(Decode(itab[p]), Decode(itab'[p]))
  {
    hide FsOk, Decode, Slots, Entries, NBlocks, GrowsClean, EntryAdded, Compact, Sound, OthersKept, LowestFree;
    FsOkInode(ibm, itab, dbm, data, p);
    AddedToCompact(Decode(itab[p]), data, dbm, DirEntry(i, name), Decode(itab'[p]), data', dbm', q, |es|);
    EntryAddedRewrites(Decode(itab[p]), data, dbm, DirEntry(i, name), Decode(itab'[p]), data', dbm', q);
  }

  /** An inode that a creation does not touch. */
  lemma ListsStill(ibm: InodeBitmap, itab: InodeTable, dbm: DataBitmap, data: Blocks, p: nat, name: Name, i: u32,
                   v: Ino, q: nat, ibm': InodeBitmap, itab': InodeTable, dbm': DataBitmap, data': Blocks, j: u32,
                   es: seq<DirEntry>)
    requires FsOk(ibm, itab, dbm, data) && Taken(ibm, j) && j as nat != p && Lists(itab, data, j, es)
    requires MadeEntry(ibm, itab, dbm, data, p, name, i, v, q, ibm', itab', dbm', data')
    ensures Lists(itab', data', j, es) && Decode(itab'[j]) == Decode(itab[j])
  {
    hide FsOk, Decode, Slots, Entries, NBlocks, EntryAdded, Compact, OthersKept, LowestFree;
    MadeFacts(ibm, itab, dbm, data, p, name, i, v, q, ibm', itab', dbm', data');
    FsOkInode(ibm, itab, dbm, data, j);
    OthersKeptAt(ibm, itab, data, data', p, j);
    UntouchedSlots(Decode(itab[j]), data, data');
  }

  /** A name in the root directory. */
  lemma TopLevel(itab: InodeTable, data: Blocks, euid: Name, name: Name, es: seq<DirEntry>)
    requires Lists(itab, data, ROOTINUM, es) && CanExecute(euid, Decode(itab[ROOTINUM]))
    ensures Resolve(itab, data, euid, ROOTINUM, [name]) ==
      if Lookup(es, name) == None then PathResult.Failed(ENOENT) else Found(Lookup(es, name).value)
    ensures CanWrite(euid, Decode(itab[ROOTINUM])) ==> ParentFor(itab, data, euid, [name]) == Found(ROOTINUM)
  {
    hide Decode, Slots, Entries, NBlocks, Compact, CanExecute, CanWrite;
    ResolveName(itab, data, euid, ROOTINUM, name);
    ResolveNothing(itab, data, euid, ROOTINUM);
    assert DirOf([name]) == [];
  }

  /** Inode number i is the highest in use. */
  ghost predicate UsedUpTo(ibm: InodeBitmap, i: nat)
  {
    forall j: nat :: Taken(ibm, j) <==> j <= i
  }

  lemma NextInode(ibm: InodeBitmap, i: nat)
    requires UsedUpTo(ibm, i) && i + 1 < INODES
    ensures !FullBelow(ibm, INODES)
    ensures forall j :: LowestFree(ibm, j) ==> j == i + 1
  {
    hide Bit, Taken;
    assert !Taken(ibm, i + 1);
  }

  /** The root directory is empty after formatting. */
  lemma EmptyRoot(k: Kernel, now: u64)
    requires Decode(k.fs.itab[ROOTINUM]) == RootInode(now)
    ensures Lists(k.fs.itab, k.fs.data, ROOTINUM, []) && (forall euid :: CanExecute(euid, Decode(k.fs.itab[ROOTINUM])))
  {
    hide OwnerString;
    EmptyInode(Decode(k.fs.itab[ROOTINUM]), k.fs.data);
    assert Bit(7, 0) && Bit(5, 0);
  }

  /** root creates a file on a fresh disk: it works iff the name is short enough. */
  method FirstFile(disk: MemDisk, superBuf: Block, name: Name, now: u64) returns (k: Kernel, r: CreateResult)
    requires disk.buf.Length == DISKSIZE
    modifies disk.buf
    ensures fresh(k) && fresh(k.fs) && fresh(k.inodeCache.Values) && k.fs.disk == disk
    ensures r.Created? <==> |name| <= 55
    ensures r.Created? ==>
      Ready(k) && FreeBlocksClean(k.fs.dbm, k.fs.data) && UsedUpTo(k.fs.ibm, 3) && |Free(k.fs.dbm)| == BLOCKS - 1
    ensures r.Created? ==> Lists(k.fs.itab, k.fs.data, ROOTINUM, [DirEntry(3, name)])
    ensures r.Created? ==> Decode(k.fs.itab[3]) == FreshIno(S_IFREG, ROOTUSER, false, 7, 5, now)
    ensures r.Created? ==> ROOTINUM in Cached(k) && Cached(k)[ROOTINUM] == RootInode(now)
  {
    hide FsOk, Shows, Decode, Slots, Entries, NBlocks, FreeBlocksClean, MadeEntry, OwnerString, OwnerBytes, Free,
      FullBelow, Resolve, Lists, UsedUpTo, Room, MayGrow, BlocksToLink, Bit, Cached, OnlyLoaded;
    k := Start(disk, superBuf, now);
    ghost var ibm, itab, dbm, data, c := k.fs.ibm, k.fs.itab, k.fs.dbm, k.fs.data, Cached(k);
    CachedAre(k);
    EmptyRoot(k, now);
    TopLevel(itab, data, ROOTUSER, name, []);
    StartUsed(ibm);
    NextInode(ibm, 2);
    RootIsEmpty(k, now);
    ghost var q;
    CleanTargets(k, ROOTUSER, [name], false);
    AnyGrowsClean(ibm, itab, dbm, data);
    r, q := CreateFile(k, ROOTUSER, [name], now);
    if r.Created? {
      ghost var v := FreshIno(S_IFREG, ROOTUSER, false, 7, 5, now);
      CreatedNext(ibm, itab, dbm, data, ROOTINUM, name, r.inum, v, q, k.fs.ibm, k.fs.itab, k.fs.dbm, k.fs.data, [], 2);
      assert [] + [DirEntry(3, name)] == [DirEntry(3, name)];
      MadeFacts(ibm, itab, dbm, data, ROOTINUM, name, r.inum, v, q, k.fs.ibm, k.fs.itab, k.fs.dbm, k.fs.data);
      LoadedFromDisk(ibm, itab, c, k.fs.ibm, Cached(k), ROOTINUM);
    }
  }

  /** A name of 56 bytes or more comes back as too long, but by then the inode has been taken: it is marked and in no
      directory, and nothing else has changed. */
  method LongNameLeaks(disk: MemDisk, superBuf: Block, name: Name, now: u64) returns (k: Kernel, r: CreateResult)
    requires disk.buf.Length == DISKSIZE && |name| > 55
    modifies disk.buf
    ensures fresh(k) && fresh(k.fs) && k.fs.disk == disk && Ready(k)
    ensures r == MakeError(LinkFailed(BadEntry(NameTooLong)))
    ensures UsedUpTo(k.fs.ibm, 3) && Lists(k.fs.itab, k.fs.data, ROOTINUM, []) && |Free(k.fs.dbm)| == 16128
  {
    hide FsOk, Shows, Decode, Slots, Entries, NBlocks, FreeBlocksClean, MadeEntry, OwnerString, OwnerBytes, Free,
      FullBelow, Resolve, Lists, UsedUpTo, Room, MayGrow, BlocksToLink, Bit, Cached, OnlyLoaded, Leaked;
    k := Start(disk, superBuf, now);
    ghost var ibm, itab, dbm, data := k.fs.ibm, k.fs.itab, k.fs.dbm, k.fs.data;
    EmptyRoot(k, now);
    TopLevel(itab, data, ROOTUSER, name, []);
    StartUsed(ibm);
    NextInode(ibm, 2);
    ghost var q;
    CleanTargets(k, ROOTUSER, [name], false);
    r, q := CreateFile(k, ROOTUSER, [name], now);
    LeakTakesNext(ibm, itab, dbm, data, FreshIno(S_IFREG, ROOTUSER, false, 7, 5, now), k.fs.ibm, k.fs.itab, k.fs.dbm,
                  k.fs.data);
  }

  lemma LeakTakesNext(ibm: InodeBitmap, itab: InodeTable, dbm: DataBitmap, data: Blocks, v: Ino, ibm': InodeBitmap,
                      itab': InodeTable, dbm': DataBitmap, data': Blocks)
    requires Leaked(ibm, itab, dbm, data, v, ibm', itab', dbm', data') && UsedUpTo(ibm, 2)
    requires Lists(itab, data, ROOTINUM, [])
    ensures dbm' == dbm && UsedUpTo(ibm', 3) && Lists(itab', data', ROOTINUM, [])
  {
    hide Decode, FullBelow, LowestFree;
    NextInode(ibm, 2);
  }

  lemma AnyGrowsClean(ibm: InodeBitmap, itab: InodeTable, dbm: DataBitmap, data: Blocks)
    requires FsOk(ibm, itab, dbm, data) && FreeBlocksClean(dbm, data)
    ensures forall ino: Ino :: GrowsClean(ino, data, dbm)
  {
    hide FreeBlocksClean, GrowsClean, Decode, DirSound, WF, Own, HighBitsSet, DotsClean;
    forall ino: Ino ensures GrowsClean(ino, data, dbm) {
      AllCleanGrowsClean(ino, data, dbm);
    }
  }

  /** What was not cached before is cached as the disk had it. */
  lemma LoadedFromDisk(ibm: InodeBitmap, itab: InodeTable, c: map<u32, Ino>, ibm': InodeBitmap, c': map<u32, Ino>,
                       i: u32)
    requires OnlyLoaded(ibm, itab, c, ibm', c') && Taken(ibm, i) && i !in c && i in c'
    ensures i < INODES && c'[i] == Decode(itab[i])
  {
    hide Decode;
  }

  lemma StartUsed(ibm: InodeBitmap)
    requires forall i: nat :: Taken(ibm, i) <==> i <= ROOTINUM
    ensures UsedUpTo(ibm, 2)
  {
  }

  lemma RootIsEmpty(k: Kernel, now: u64)
    requires Decode(k.fs.itab[ROOTINUM]) == RootInode(now)
    ensures MayGrow(Decode(k.fs.itab[ROOTINUM]), k.fs.data) && BlocksToLink(Decode(k.fs.itab[ROOTINUM]), k.fs.data) == 1
  {
    EmptyDirTakesOne(Decode(k.fs.itab[ROOTINUM]), k.fs.data);
  }

  /** After a creation: the next inode number, the listing, the free blocks. */
  lemma CreatedNext(ibm: InodeBitmap, itab: InodeTable, dbm: DataBitmap, data: Blocks, p: u32, name: Name, i: u32,
                    v: Ino, q: nat, ibm': InodeBitmap, itab': InodeTable, dbm': DataBitmap, data': Blocks,
                    es: seq<DirEntry>, n: nat)
    requires FsOk(ibm, itab, dbm, data) && Taken(ibm, p) && Lists(itab, data, p, es)
    requires GrowsClean(Decode(itab[p]), data, dbm)
    requires MadeEntry(ibm, itab, dbm, data, p, name, i, v, q, ibm', itab', dbm', data') && UsedUpTo(ibm, n)
    requires n + 1 < INODES
    ensures i as nat == n + 1 && UsedUpTo(ibm', n + 1)
    ensures Lists(itab', data', p, es + [DirEntry(i, name)]) && SameMeta(Decode(itab[p]), Decode(itab'[p]))
    ensures |Free(dbm')| + BlocksToLink(Decode(itab[p]), data) == |Free(dbm)|
  {
    hide FsOk, Decode, GrowsClean, Lists, Free, BlocksToLink, EntryAdded, OthersKept, Sound, LowestFree, FullBelow;
    FsOkInode(ibm, itab, dbm, data, p);
    ListsOneMore(ibm, itab, dbm, data, p, name, i, v, q, ibm', itab', dbm', data', es);
    MadeTakes(ibm, itab, dbm, data, p, name, i, v, q, ibm', itab', dbm', data');
    NextInode(ibm, n);
  }

  /** The root directory with its first file takes more. */
  lemma SecondInRoot(k: Kernel, name: Name, other: Name)
    requires Lists(k.fs.itab, k.fs.data, ROOTINUM, [DirEntry(3, name)]) && other != name
    ensures Resolve(k.fs.itab, k.fs.data, ROOTUSER, ROOTINUM, [other]).Failed?
    ensures ParentFor(k.fs.itab, k.fs.data, ROOTUSER, [other]) == Found(ROOTINUM)
    ensures ParentHasRoom(k.fs.itab, k.fs.data, ROOTUSER, [other]) && Room(Decode(k.fs.itab[ROOTINUM]), k.fs.data)
  {
    hide Decode, Slots, Entries, NBlocks, Lists, Room, Resolve;
    var es := [DirEntry(3, name)];
    assert es[1..] == [];
    TopLevel(k.fs.itab, k.fs.data, ROOTUSER, other, es);
    ListsHasRoom(k.fs.itab, k.fs.data, ROOTINUM, es);
  }

  lemma AnyContentFits(content: seq<byte>)
    requires |content| <= MAXSIZE
    ensures Need(NBlocks(|content|)) <= BLOCKS - 1
  {
  }

  /** On a fresh disk, creating, writing and removing the first file works iff its name and its content are not too
      long. The root directory keeps the block it has grown by, and a free block is left dirty unless the content starts
      with four zero bytes. */
  method FirstUndo(disk: MemDisk, superBuf: Block, name: Name, content: seq<byte>, now: u64)
    returns (k: Kernel, done: bool)
    requires disk.buf.Length == DISKSIZE && |content| <= U32 - BLOCKSIZE
    modifies disk.buf
    ensures fresh(k) && fresh(k.fs) && k.fs.disk == disk
    ensures done <==> |name| <= 55 && |content| <= 12632064
    ensures done ==> Ready(k) && UsedUpTo(k.fs.ibm, 2) && |Free(k.fs.dbm)| == BLOCKS - 1
    ensures done && |content| >= 4 && Get32(content, 0) != 0 ==> !FreeBlocksClean(k.fs.dbm, k.fs.data)
  {
    hide Shows, Decode, Slots, Entries, NBlocks, FreeBlocksClean, Free, FullBelow, Resolve, Lists, UsedUpTo, Room,
      Need, Ready, ParentFor, ParentHasRoom, OthersKept, CleanTarget, MayGrow, BlocksToLink, CanExecute;
    k := Start(disk, superBuf, now);
    EmptyRoot(k, now);
    TopLevel(k.fs.itab, k.fs.data, ROOTUSER, name, []);
    StartUsed(k.fs.ibm);
    NextInode(k.fs.ibm, 2);
    RootIsEmpty(k, now);
    CleanTargets(k, ROOTUSER, [name], false);
    if |content| <= MAXSIZE {
      AnyContentFits(content);
    }
    done := CreateWriteRemove(k, [name], content, now);
  }

  /** On a fresh disk with one file, a directory that is made and removed haunts the next one: the block that the next
      directory will get shows entries already, so its first entry will not be its only one. */
  method RecycledDirectory(disk: MemDisk, superBuf: Block, name: Name, other: Name, now: u64)
    returns (k: Kernel, done: bool)
    requires disk.buf.Length == DISKSIZE && |name| <= MAXNAME && other != name
    modifies disk.buf
    ensures fresh(k) && fresh(k.fs) && k.fs.disk == disk
    ensures done <==> |other| <= 55
    ensures done ==> Ready(k) && NextEntries(k.fs.data, k.fs.dbm, 0) != [] && !FreeBlocksClean(k.fs.dbm, k.fs.data)
  {
    hide Shows, Decode, Slots, Entries, NBlocks, Lookup, FreeBlocksClean, Free, FullBelow, Resolve, Lists, UsedUpTo,
      Room, Need, Ready, ParentFor, ParentHasRoom, OthersKept, NextEntries, CleanTarget, MayGrow, BlocksToLink;
    var r;
    k, r := FirstFile(disk, superBuf, name, now);
    SecondInRoot(k, name, other);
    NextInode(k.fs.ibm, 3);
    CleanTargets(k, ROOTUSER, [other], true);
    RoomTakesNothing(Decode(k.fs.itab[ROOTINUM]), k.fs.data);
    done := MkDirThenRemove(k, [other], now);
  }

  // ---------- a descriptor ----------

  /** On a fresh disk a is written to the first file and then b through the same descriptor, which is then set to `at`
      and read from: the file is a followed by b, and the read delivers its bytes from there on, as many as the buffer
      holds. */
  method TwoWritesOneRead(disk: MemDisk, superBuf: Block, name: Name, a: seq<byte>, b: seq<byte>, at: u64, len: nat,
                          now: u64)
    returns (k: Kernel, out: seq<byte>, r: IoResult)
    requires disk.buf.Length == DISKSIZE && |name| <= 55 && |a| + |b| <= 12632064
    modifies disk.buf
    ensures fresh(k) && fresh(k.fs) && k.fs.disk == disk && Ready(k)
    ensures at >= |a| + |b| ==> out == [] && r == IoEof
    ensures at < |a| + |b| ==>
      r == IoDone && out == (a + b)[at..if at + len < |a| + |b| then at + len else |a| + |b|]
  {
    hide Shows, Decode, FreeBlocksClean, Free, Lists, UsedUpTo, Ready, Cached, OnlyLoaded, Content, Need, NBlocks,
      OwnerBytes, IsFile;
    var c;
    k, c := FirstFile(disk, superBuf, name, now);
    FirstIsFile(k, now);
    AnyContentFits(a + b);
    var fd := new FileFD(k, 3);
    assert forall j :: j in k.inodeCache ==> k.inodeCache[j] in k.inodeCache.Values;
    WriteBoth(fd, a, b);
    fd.SetOffset(at);
    var buf := new byte[len](_ => 0);
    var n;
    n, r := ReadOnce(fd, buf);
    out := if r == IoDone then buf[..n] else [];
  }

  /** Two writes in a row to an empty file. */
  method WriteBoth(fd: FileFD, a: seq<byte>, b: seq<byte>)
    requires Ready(fd.kernel) && IsFile(fd.kernel, fd.inodeNum) && Decode(fd.kernel.fs.itab[fd.inodeNum]).size == 0
    requires fd.offset == 0 && |a| + |b| <= MAXSIZE && Need(NBlocks(|a + b|)) <= |Free(fd.kernel.fs.dbm)|
    modifies fd`offset, fd.kernel`inodeCache, fd.kernel.inodeCache.Values
    modifies fd.kernel.fs`data, fd.kernel.fs`dbm, fd.kernel.fs`itab, fd.kernel.fs.disk.buf
    ensures Ready(fd.kernel) && IsFile(fd.kernel, fd.inodeNum)
    ensures var ino := Decode(fd.kernel.fs.itab[fd.inodeNum]);
      ino.size <= MAXSIZE && Content(ino, fd.kernel.fs.data) == a + b
    ensures forall j :: j in fd.kernel.inodeCache ==>
      (j in old(fd.kernel.inodeCache) && fd.kernel.inodeCache[j] == old(fd.kernel.inodeCache)[j]) ||
        fresh(fd.kernel.inodeCache[j])
  {
    hide Shows, Decode, Free, Ready, Content, Need, NBlocks, Does, StateOf, OwnedState, Sized, IsFile;
    ghost var k: Kernel, i := fd.kernel, fd.inodeNum;
    StateHas(k, i);
    ReadyIsState(k);
    FirstFits(a, b);
    ghost var s0 := StateOf(k);
    var w := WriteOnce(fd, a);
    ghost var s1 := StateOf(k);
    assert IsFile(k, i);
    StateHas(k, i);
    WriteTakes(s0, i, 0, a, s1);
    w := WriteOnce(fd, b);
    assert IsFile(k, i);
    StateHas(k, i);
    BothWritten(s0, i, a, s1, b, StateOf(k));
  }

  lemma FirstFits(a: seq<byte>, b: seq<byte>)
    requires |a| + |b| <= MAXSIZE
    ensures Need(NBlocks(0)) == 0 && Need(NBlocks(|a|)) <= Need(NBlocks(|a + b|))
    ensures Need(NBlocks(|a + b|)) == Need(NBlocks(|a| + |b|))
  {
  }

  lemma FirstIsFile(k: Kernel, now: u64)
    requires Ready(k) && UsedUpTo(k.fs.ibm, 3) && Decode(k.fs.itab[3]) == FreshIno(S_IFREG, ROOTUSER, false, 7, 5, now)
    ensures IsFile(k, 3) && Decode(k.fs.itab[3]).size == 0
  {
    hide Decode, OwnerBytes, Ready;
    UsedHas(k.fs.ibm, 3);
  }

  lemma StateHas(k: Kernel, i: u32)
    requires IsFile(k, i)
    ensures i as nat in StateOf(k).inos && StateOf(k).inos[i as nat] == Decode(k.fs.itab[i])
    ensures StateOf(k).data == k.fs.data && StateOf(k).dbm == k.fs.dbm
  {
    hide Decode;
  }

  lemma BothWritten(s0: State, i: nat, a: seq<byte>, s1: State, b: seq<byte>, s2: State)
    requires i in s0.inos && s0.inos[i].size == 0
    requires Does(WriteAt(i, 0, a), s0, s1) && Does(WriteAt(i, |a|, b), s1, s2)
    ensures i in s2.inos && s2.inos[i].size <= MAXSIZE && Content(s2.inos[i], s2.data) == a + b
  {
    hide Rewritten, Content;
    var c0, c1, c2 := Content(s0.inos[i], s0.data), Content(s1.inos[i], s1.data), Content(s2.inos[i], s2.data);
    OverwrittenTwice(c0, 0, a, c1, b, c2);
    assert c0 == [];
    assert forall j :: 0 <= j < |a + b| ==> c2[j] == (a + b)[j];
  }

  // ---------- a session with a removal ----------

  /** The tree at a directory that lists just one regular file. */
  lemma OneFileTree(itab: InodeTable, data: Blocks, d: u32, p: u32, i: u32, f: Name, t: Tree)
    requires Lists(itab, data, d, [DirEntry(d, DOT), DirEntry(p, DOTDOT), DirEntry(i, f)]) && f != DOT && f != DOTDOT
    requires i < INODES && !IsDir(Decode(itab[i])) && TreeAt(itab, data, t) && t.inum == d
    ensures Inums(t) == {d as nat, i as nat}
  {
    hide Decode, Slots, Entries, NBlocks, Compact, DirOk;
    var es := [DirEntry(d, DOT), DirEntry(p, DOTDOT), DirEntry(i, f)];
    assert es[..2] == [es[0], es[1]] && es[..2][..1] == [es[0]] && es[..1][..0] == [];
    assert Kids(es[..1]) == [] && Kids(es[..2]) == [] && Kids(es) == [i];
    assert t.kids == [t.kids[0]] && t.kids[0].inum == i && t.kids[..0] == [];
    assert TreeAt(itab, data, t.kids[0]) && t.kids[0].kids == [];
    assert Inums(t.kids[0]) == {i as nat};
  }

  /** In a listing of one name, the name occurs once. */
  lemma ListedOnce(itab: InodeTable, data: Blocks, e: DirEntry, q: nat)
    requires Lists(itab, data, ROOTINUM, [e])
    requires FirstNamed(Slots(Decode(itab[ROOTINUM]), data), e.name, q) && q < |Slots(Decode(itab[ROOTINUM]), data)|
    ensures NamedOnce(Slots(Decode(itab[ROOTINUM]), data), e.name, q)
  {
    hide Decode, Slots, Entries, NBlocks;
  }

  /** The calls of the session below. */
  function MakeDirCall(d: Name, now: u64): Call { MkDirCall(ROOTUSER, [d], now) }

  function MakeFileCall(d: Name, f: Name, now: u64): Call { CreateCall(ROOTUSER, [d, f], now) }

  /** mkDir on a fresh disk: everything the next calls need. */
  lemma DirCreated(v: SysState, d: Name, now: u64, o: Reply, v': SysState)
    requires FsOk(v.ibm, v.itab, v.dbm, v.data) && FreeBlocksClean(v.dbm, v.data) && Lists(v.itab, v.data, ROOTINUM, [])
    requires UsedUpTo(v.ibm, 2)
    requires |d| <= MAXNAME && |Free(v.dbm)| == BLOCKS && Decode(v.itab[ROOTINUM]).size == 0 && v.cache == map[]
    requires Steps(v, MakeDirCall(d, now), o, v')
    ensures !Panics(o) && UsedUpTo(v'.ibm, 3) && Lists(v'.itab, v'.data, ROOTINUM, [DirEntry(3, d)])
    ensures Lists(v'.itab, v'.data, 3, [DirEntry(3, DOT), DirEntry(ROOTINUM, DOTDOT)])
    ensures ROOTINUM in v'.cache && v'.cache[ROOTINUM].size == 0
    ensures forall i: u32 :: StaleAt(v', i) ==> i == ROOTINUM
  {
    hide Decode, Slots, Entries, NBlocks, FreeBlocksClean, FsOk, Lists, Free, Resolve, CanExecute, CanWrite,
      OwnerBytes, OnlyLoaded, StaleAt, UsedUpTo, FullBelow, MayGrow, BlocksToLink, MadeInode, Room;
    var c := MakeDirCall(d, now);
    RootMay(Decode(v.itab[ROOTINUM]));
    ListsDir(v.itab, v.data, ROOTINUM, []);
    TopLevel(v.itab, v.data, ROOTUSER, d, []);
    LookupInNothing(d);
    EmptyDirTakesOne(Decode(v.itab[ROOTINUM]), v.data);
    NextInode(v.ibm, 2);
    assert BaseOf([d]) == d;
    var q: nat :| MadeInode(v.ibm, v.itab, v.dbm, v.data, ROOTINUM, d, o.c.inum, NewRecordOf(c), q, v'.ibm, v'.itab,
                            v'.dbm, v'.data);
    AfterMkDir(v.ibm, v.itab, v.dbm, v.data, d, o.c.inum, NewRecordOf(c), q, v'.ibm, v'.itab, v'.dbm, v'.data);
    FsOkHasFirst(v.ibm, v.itab, v.dbm, v.data);
    LoadedFromDisk(v.ibm, v.itab, v.cache, v'.ibm, v'.cache, ROOTINUM);
    forall i: u32 | StaleAt(v', i) ensures i == ROOTINUM {
      StaleOnlyByGrowth(v, c, o, v', i);
      NotStaleUncached(v, i);
    }
  }

  lemma NotStaleUncached(v: SysState, i: u32)
    requires v.cache == map[]
    ensures !StaleAt(v, i)
  {
  }

  lemma ListsDir(itab: InodeTable, data: Blocks, i: u32, es: seq<DirEntry>)
    requires Lists(itab, data, i, es)
    ensures i < INODES && IsDir(Decode(itab[i])) && (es != [] ==> Decode(itab[i]).size != 0)
  {
    hide Decode;
    NoEntries([]);
    if Decode(itab[i]).size == 0 {
      EmptyInode(Decode(itab[i]), data);
    }
  }

  /** createFile in that directory. */
  lemma FileCreated(v: SysState, d: Name, f: Name, now: u64, o: Reply, v': SysState)
    requires FsOk(v.ibm, v.itab, v.dbm, v.data) && UsedUpTo(v.ibm, 3)
    requires Lists(v.itab, v.data, ROOTINUM, [DirEntry(3, d)])
    requires Lists(v.itab, v.data, 3, [DirEntry(3, DOT), DirEntry(ROOTINUM, DOTDOT)])
    requires |f| <= MAXNAME && f != DOT && f != DOTDOT && Steps(v, MakeFileCall(d, f, now), o, v')
    requires ROOTINUM in v.cache && v.cache[ROOTINUM].size == 0 && forall i: u32 :: StaleAt(v, i) ==> i == ROOTINUM
    ensures !Panics(o) && UsedUpTo(v'.ibm, 4) && Lists(v'.itab, v'.data, ROOTINUM, [DirEntry(3, d)])
    ensures Lists(v'.itab, v'.data, 3, [DirEntry(3, DOT), DirEntry(ROOTINUM, DOTDOT), DirEntry(4, f)])
    ensures !IsDir(Decode(v'.itab[4]))
    ensures StaleAt(v', ROOTINUM) && forall i: u32 :: StaleAt(v', i) ==> i == ROOTINUM
  {
    hide Decode, Slots, Entries, NBlocks, FsOk, Lists, Free, Resolve, CanExecute, CanWrite, OwnerBytes, OnlyLoaded,
      UsedUpTo, StaleAt, FullBelow, MadeEntry, Room, GrowsClean;
    var c, es := MakeFileCall(d, f, now), [DirEntry(3, DOT), DirEntry(ROOTINUM, DOTDOT)];
    RootMay(Decode(v.itab[ROOTINUM]));
    RootMay(Decode(v.itab[3]));
    DotsLookup(3, ROOTINUM, f);
    OneLevelDown(v.itab, v.data, ROOTUSER, d, 3, f, es);
    ListsDir(v.itab, v.data, 3, es);
    ListsHasRoom(v.itab, v.data, 3, es);
    RoomTakesNothing(Decode(v.itab[3]), v.data);
    RoomGrowsClean(Decode(v.itab[3]), v.data, v.dbm);
    NextInode(v.ibm, 3);
    UsedHas(v.ibm, 3);
    assert BaseOf([d, f]) == f;
    var q: nat :| MadeEntry(v.ibm, v.itab, v.dbm, v.data, 3, f, o.c.inum, NewRecordOf(c), q, v'.ibm, v'.itab, v'.dbm,
                            v'.data);
    CreatedNext(v.ibm, v.itab, v.dbm, v.data, 3, f, o.c.inum, NewRecordOf(c), q, v'.ibm, v'.itab, v'.dbm, v'.data, es,
                3);
    assert es + [DirEntry(4, f)] == [DirEntry(3, DOT), DirEntry(ROOTINUM, DOTDOT), DirEntry(4, f)];
    ListsStill(v.ibm, v.itab, v.dbm, v.data, 3, f, o.c.inum, NewRecordOf(c), q, v'.ibm, v'.itab, v'.dbm, v'.data,
               ROOTINUM, [DirEntry(3, d)]);
    MadeFacts(v.ibm, v.itab, v.dbm, v.data, 3, f, o.c.inum, NewRecordOf(c), q, v'.ibm, v'.itab, v'.dbm, v'.data);
    forall i: u32 | StaleAt(v', i) ensures i == ROOTINUM {
      StaleOnlyByGrowth(v, c, o, v', i);
    }
    ListsDir(v'.itab, v'.data, ROOTINUM, [DirEntry(3, d)]);
    UsedHas(v'.ibm, 4);
    StaysCached(v.ibm, v.itab, v.cache, v'.ibm, v'.cache, ROOTINUM);
    OldCopyIsStale(v', ROOTINUM);
  }

  lemma OldCopyIsStale(v: SysState, i: u32)
    requires i in v.cache && i < INODES && Taken(v.ibm, i) && v.cache[i].size == 0 && Decode(v.itab[i]).size != 0
    ensures StaleAt(v, i)
  {
    hide Decode;
  }

  lemma DotsLookup(i: u32, p: u32, f: Name)
    requires f != DOT && f != DOTDOT
    ensures Lookup([DirEntry(i, DOT), DirEntry(p, DOTDOT)], f) == None
  {
    LookupNoneIffAbsent([DirEntry(i, DOT), DirEntry(p, DOTDOT)], f);
  }

  lemma RoomGrowsClean(ino: Ino, data: Blocks, dbm: DataBitmap)
    requires Room(ino, data)
    ensures GrowsClean(ino, data, dbm)
  {
  }

  /** removeAll of the directory. */
  lemma DirRemoved(v: SysState, d: Name, f: Name, o: Reply, v': SysState)
    requires FsOk(v.ibm, v.itab, v.dbm, v.data) && UsedUpTo(v.ibm, 4)
    requires Lists(v.itab, v.data, ROOTINUM, [DirEntry(3, d)])
    requires Lists(v.itab, v.data, 3, [DirEntry(3, DOT), DirEntry(ROOTINUM, DOTDOT), DirEntry(4, f)])
    requires !IsDir(Decode(v.itab[4]))
    requires f != DOT && f != DOTDOT && Steps(v, RemoveCall(ROOTUSER, [d]), o, v')
    ensures o == RemoveReply(Removed) && UsedUpTo(v'.ibm, 2)
    ensures Resolve(v'.itab, v'.data, ROOTUSER, ROOTINUM, [d]) == PathResult.Failed(ENOENT)
  {
    hide Decode, Slots, Entries, NBlocks, FsOk, Lists, Resolve, CanExecute, CanWrite, OnlyLoaded, LoadedValues,
      TreeAt, SlotCleared, BlocksFreed, OthersKept, FirstNamed, NamedOnce, Inums, Bit;
    RootMay(Decode(v.itab[ROOTINUM]));
    ListsDir(v.itab, v.data, ROOTINUM, [DirEntry(3, d)]);
    TopLevel(v.itab, v.data, ROOTUSER, d, [DirEntry(3, d)]);
    FoundFirst(3, d);
    assert DirOf([d]) == [] && BaseOf([d]) == d;
    ResolveNothing(v.itab, v.data, ROOTUSER, ROOTINUM);
    var t, q :| RemovedTree(v, RemoveCall(ROOTUSER, [d]), t, ROOTINUM, q, v');
    OneFileTree(v.itab, v.data, 3, ROOTINUM, 4, f, t);
    ListedOnce(v.itab, v.data, DirEntry(3, d), q);
  }

  /** On a fresh disk root makes a directory d. */
  method MakeDirSession(disk: MemDisk, superBuf: Block, d: Name, now: u64) returns (k: Kernel, ghost s: Shape)
    requires disk.buf.Length == DISKSIZE && |d| <= MAXNAME && CleanPath([d])
    modifies disk.buf
    ensures fresh(k) && fresh(k.fs) && fresh(k.inodeCache.Values) && k.fs.disk == disk && InOrder(k, s)
    ensures UsedUpTo(k.fs.ibm, 3) && Lists(k.fs.itab, k.fs.data, ROOTINUM, [DirEntry(3, d)])
    ensures Lists(k.fs.itab, k.fs.data, 3, [DirEntry(3, DOT), DirEntry(ROOTINUM, DOTDOT)])
    ensures ROOTINUM in Observe(k).cache && Observe(k).cache[ROOTINUM].size == 0
    ensures forall i: u32 :: StaleAt(Observe(k), i) ==> i == ROOTINUM
  {
    hide Shows, Decode, Slots, Entries, NBlocks, FreeBlocksClean, Free, Resolve, Lists, UsedUpTo, Ready, TreeOk,
      Steps, DiskFull, StaleAt, CanExecute, CleanTarget, Order, Leaks, LeftBehind, Aged, ParentHasRoom, FsOk;
    k, s := StartSession(disk, superBuf, now);
    EmptyRoot(k, now);
    StartUsed(k.fs.ibm);
    InOrderParts(k, s);
    ReadyIsOk(k);
    CleanTargets(k, ROOTUSER, [d], true);
    ghost var v := Observe(k);
    var o;
    OnlyRemovalsLeak(v, MakeDirCall(d, now));
    o, s := Perform(k, MakeDirCall(d, now), s);
    DirCreated(v, d, now, o, Observe(k));
  }

  /** ... and a file f in it. The kernel's copy of the root directory is stale then, as it always is once the root
      directory has grown, and it is the only one. */
  method MakeTreeSession(disk: MemDisk, superBuf: Block, d: Name, f: Name, now: u64) returns (k: Kernel, ghost s: Shape)
    requires disk.buf.Length == DISKSIZE && |d| <= MAXNAME && |f| <= MAXNAME && CleanPath([d, f])
    modifies disk.buf
    ensures fresh(k) && fresh(k.fs) && fresh(k.inodeCache.Values) && k.fs.disk == disk && InOrder(k, s)
    ensures UsedUpTo(k.fs.ibm, 4) && Lists(k.fs.itab, k.fs.data, ROOTINUM, [DirEntry(3, d)])
    ensures !IsDir(Decode(k.fs.itab[4]))
    ensures Lists(k.fs.itab, k.fs.data, 3, [DirEntry(3, DOT), DirEntry(ROOTINUM, DOTDOT), DirEntry(4, f)])
    ensures StaleAt(Observe(k), ROOTINUM) && forall i: u32 :: StaleAt(Observe(k), i) ==> i == ROOTINUM
  {
    hide Shows, Decode, Slots, Entries, NBlocks, FreeBlocksClean, Free, Resolve, Lists, UsedUpTo, Ready, TreeOk,
      Steps, DiskFull, StaleAt, CanExecute, CleanTarget, Order, Leaks, LeftBehind, Aged, ParentHasRoom, FsOk;
    assert [d, f][0] == d && [d, f][1] == f;
    k, s := MakeDirSession(disk, superBuf, d, now);
    InOrderParts(k, s);
    ReadyIsOk(k);
    RoomInDir(k, d, f);
    CleanTargets(k, ROOTUSER, [d, f], false);
    ghost var v := Observe(k);
    var o;
    OnlyRemovalsLeak(v, MakeFileCall(d, f, now));
    o, s := Perform(k, MakeFileCall(d, f, now), s);
    FileCreated(v, d, f, now, o, Observe(k));
  }

  /** ... and removes it again: that works all the same. */
  method RemoveTreeSession(disk: MemDisk, superBuf: Block, d: Name, f: Name, now: u64)
    returns (k: Kernel, o: Reply, ghost v: SysState, ghost s: Shape)
    requires disk.buf.Length == DISKSIZE && |d| <= MAXNAME && |f| <= MAXNAME && CleanPath([d, f])
    modifies disk.buf
    ensures fresh(k) && fresh(k.fs) && k.fs.disk == disk
    ensures InOrder(k, s) && StaleAt(v, ROOTINUM) && Steps(v, RemoveCall(ROOTUSER, [d]), o, Observe(k))
    ensures o == RemoveReply(Removed) && UsedUpTo(k.fs.ibm, 2)
    ensures Resolve(k.fs.itab, k.fs.data, ROOTUSER, ROOTINUM, [d]) == PathResult.Failed(ENOENT)
  {
    hide Shows, Decode, Slots, Entries, NBlocks, FreeBlocksClean, Free, Resolve, Lists, UsedUpTo, Ready, TreeOk,
      Steps, DiskFull, StaleAt, CanExecute, CleanTarget, Order, Leaks, LeftBehind, Aged, ParentHasRoom, FsOk;
    k, s := MakeTreeSession(disk, superBuf, d, f, now);
    assert [d, f][0] == d && [d, f][1] == f;
    InOrderParts(k, s);
    ReadyIsOk(k);
    v := Observe(k);
    RootStaleIsHarmless(v, s, RemoveCall(ROOTUSER, [d]));
    o, s := Perform(k, RemoveCall(ROOTUSER, [d]), s);
    DirRemoved(v, d, f, o, Observe(k));
  }

  lemma RoomInDir(k: Kernel, d: Name, f: Name)
    requires Lists(k.fs.itab, k.fs.data, ROOTINUM, [DirEntry(3, d)])
    requires Lists(k.fs.itab, k.fs.data, 3, [DirEntry(3, DOT), DirEntry(ROOTINUM, DOTDOT)])
    ensures ParentHasRoom(k.fs.itab, k.fs.data, ROOTUSER, [d, f])
  {
    hide Decode, Slots, Entries, NBlocks, Lists, Room, Resolve, CanExecute, CanWrite, Lookup;
    var es := [DirEntry(3, DOT), DirEntry(ROOTINUM, DOTDOT)];
    ListsDir(k.fs.itab, k.fs.data, ROOTINUM, [DirEntry(3, d)]);
    RootMay(Decode(k.fs.itab[ROOTINUM]));
    ListsDir(k.fs.itab, k.fs.data, 3, es);
    RootMay(Decode(k.fs.itab[3]));
    OneLevelDown(k.fs.itab, k.fs.data, ROOTUSER, d, 3, f, es);
    ListsHasRoom(k.fs.itab, k.fs.data, 3, es);
  }

  // ---------- a stale directory written out ----------

  /** root creates a file on a fresh disk, where it can be read, and then changes the permissions of the root directory:
      the kernel's copy of that was loaded before the directory grew, so the record written out has no blocks and the
      file is gone from the tree, while its inode and the directory's block stay marked. */
  method LostTree(disk: MemDisk, superBuf: Block, name: Name, ownerMode: byte, otherMode: byte, now: u64)
    returns (k: Kernel, found: ReadResult, r: ChmodResult)
    requires disk.buf.Length == DISKSIZE && |name| <= MAXNAME
    modifies disk.buf
    ensures fresh(k) && fresh(k.fs) && k.fs.disk == disk && k.Valid()
    ensures found == ReadOk([]) && r == Changed
    ensures Decode(k.fs.itab[ROOTINUM]).size == 0 && Listing(k.fs.itab, k.fs.data, ROOTINUM) == []
    ensures Resolve(k.fs.itab, k.fs.data, ROOTUSER, ROOTINUM, [name]) == PathResult.Failed(ENOENT)
    ensures UsedUpTo(k.fs.ibm, 3) && |Free(k.fs.dbm)| == BLOCKS - 1
  {
    hide Shows, Decode, Encode, Slots, Entries, NBlocks, FreeBlocksClean, Free, Resolve, Lists, UsedUpTo, Ready,
      CanExecute, OwnerBytes, Cached, OnlyLoaded, Content, Lookup, Listing;
    var c;
    k, c := FirstFile(disk, superBuf, name, now);
    ghost var itab, c1 := k.fs.itab, Cached(k);
    RootMay(Decode(itab[ROOTINUM]));
    TopLevel(itab, k.fs.data, ROOTUSER, name, [DirEntry(3, name)]);
    FoundFirst(3, name);
    NewFileIsReadable(ROOTUSER, now, Decode(itab[3]), ROOTUSER);
    assert forall j :: j in k.inodeCache ==> k.inodeCache[j] in k.inodeCache.Values;
    found := ReadFile(k, ROOTUSER, [name]);
    ReadyHasRoot(k);
    StaysCached(k.fs.ibm, itab, c1, k.fs.ibm, Cached(k), ROOTINUM);
    CachedRoot(k, RootInode(now));
    ResolveNothing(itab, k.fs.data, ROOTUSER, ROOTINUM);
    ghost var i;
    r, i := Chmod(k, ROOTUSER, [], ownerMode, otherMode);
    DecodeEncode(WithModes(RootInode(now), ownerMode, otherMode));
    EmptyListing(k.fs.itab, k.fs.data, ROOTINUM);
    RootMay(Decode(k.fs.itab[ROOTINUM]));
    EmptyDirFindsNothing(k.fs.itab, k.fs.data, ROOTUSER, name);
  }

  lemma CachedRoot(k: Kernel, ino: Ino)
    requires ROOTINUM in Cached(k) && Cached(k)[ROOTINUM] == ino
    ensures k.Current(ROOTINUM) == ino
  {
  }

  lemma RootMay(ino: Ino)
    ensures CanExecute(ROOTUSER, ino) && CanWrite(ROOTUSER, ino)
  {
  }

  lemma FoundFirst(i: u32, name: Name)
    ensures Lookup([DirEntry(i, name)], name) == Some(i)
  {
  }

  lemma EmptyDirFindsNothing(itab: InodeTable, data: Blocks, euid: Name, name: Name)
    requires IsDir(Decode(itab[ROOTINUM])) && Decode(itab[ROOTINUM]).size == 0
    requires CanExecute(euid, Decode(itab[ROOTINUM]))
    ensures Resolve(itab, data, euid, ROOTINUM, [name]) == PathResult.Failed(ENOENT)
  {
    hide Decode, CanExecute;
    EmptyInode(Decode(itab[ROOTINUM]), data);
    ResolveName(itab, data, euid, ROOTINUM, name);
  }

  // ---------- a name that the owner field cuts ----------

  lemma SevenAllows(euid: Name, ino: Ino)
    requires ino.ownerMode == 7 && ino.otherMode == 7
    ensures CanExecute(euid, ino) && CanWrite(euid, ino)
  {
    hide OwnerString;
    assert Bit(7, 0) && Bit(7, 1);
  }

  /** root opens the root directory of a fresh disk for everybody. A user whose name does not fit the owner field then
      writes a new file: the answer is EACCES, and the file is there, empty. */
  method LongNameWrites(disk: MemDisk, superBuf: Block, euid: Name, name: Name, content: seq<byte>, now: u64)
    returns (k: Kernel, w: WriteResult, r: ReadResult)
    requires disk.buf.Length == DISKSIZE && |name| <= MAXNAME && |content| <= U32 - BLOCKSIZE
    requires |euid| > 13 || 0 in euid
    modifies disk.buf
    ensures fresh(k) && fresh(k.fs) && k.fs.disk == disk && Ready(k)
    ensures w == Wrote(FileError(EACCES)) && r == ReadOk([])
    ensures Lists(k.fs.itab, k.fs.data, ROOTINUM, [DirEntry(3, name)])
  {
    hide FsOk, Shows, Decode, Encode, Slots, Entries, NBlocks, FreeBlocksClean, MadeEntry, OwnerString, OwnerBytes,
      Free, FullBelow, Resolve, Lists, UsedUpTo, Room, MayGrow, BlocksToLink, Bit, Ready, Cached, OnlyLoaded,
      CreatedAndSaved, Need, Content, CleanTarget, CanExecute, CanWrite, Lookup;
    k := OpenRoot(disk, superBuf, now);
    ghost var ibm, itab, dbm, data := k.fs.ibm, k.fs.itab, k.fs.dbm, k.fs.data;
    SevenAllows(euid, Decode(itab[ROOTINUM]));
    TopLevel(itab, data, euid, name, []);
    LookupInNothing(name);
    NextInode(ibm, 2);
    CleanTargets(k, euid, [name], false);
    ReadyIsOk(k);
    AnyGrowsClean(ibm, itab, dbm, data);
    EmptyDirTakesOne(Decode(itab[ROOTINUM]), data);
    w := WriteFile(k, euid, [name], content, now);
    LongNameIsDenied(ibm, itab, data, dbm, euid, [name], content, w);
    ghost var v := FreshIno(S_IFREG, euid, false, 7, 5, now);
    ghost var i: u32, q: nat :| MadeEntry(ibm, itab, dbm, data, ROOTINUM, name, i, v, q, k.fs.ibm, k.fs.itab, k.fs.dbm,
                                          k.fs.data);
    CreatedNext(ibm, itab, dbm, data, ROOTINUM, name, i, v, q, k.fs.ibm, k.fs.itab, k.fs.dbm, k.fs.data, [], 2);
    assert [] + [DirEntry(i, name)] == [DirEntry(3, name)];
    MadeFacts(ibm, itab, dbm, data, ROOTINUM, name, i, v, q, k.fs.ibm, k.fs.itab, k.fs.dbm, k.fs.data);
    SevenAllows(euid, Decode(k.fs.itab[ROOTINUM]));
    TopLevel(k.fs.itab, k.fs.data, euid, name, [DirEntry(3, name)]);
    FoundFirst(3, name);
    NewFileIsReadable(euid, now, Decode(k.fs.itab[3]), euid);
    r := ReadFile(k, euid, [name]);
  }

  lemma LongNameIsDenied(ibm: InodeBitmap, itab: InodeTable, data: Blocks, dbm: DataBitmap, euid: Name,
                         comps: seq<Name>, content: seq<byte>, r: WriteResult)
    requires comps != [] && WriteNewOutcome(ibm, itab, data, dbm, euid, comps, content, r) && (|euid| > 13 || 0 in euid)
    requires ParentFor(itab, data, euid, comps) == Found(ROOTINUM) && !FullBelow(ibm, INODES)
    requires |BaseOf(comps)| <= MAXNAME
    requires MayGrow(Decode(itab[ROOTINUM]), data) && BlocksToLink(Decode(itab[ROOTINUM]), data) <= |Free(dbm)|
    ensures r == Wrote(FileError(EACCES))
  {
    hide Decode, FullBelow, MayGrow, BlocksToLink, Free, ParentFor;
  }

  lemma LookupInNothing(name: Name)
    ensures Lookup([], name) == None
  {
  }

  method OpenRoot(disk: MemDisk, superBuf: Block, now: u64) returns (k: Kernel)
    requires disk.buf.Length == DISKSIZE
    modifies disk.buf
    ensures fresh(k) && fresh(k.fs) && fresh(k.inodeCache.Values) && k.fs.disk == disk
    ensures Ready(k) && FreeBlocksClean(k.fs.dbm, k.fs.data) && UsedUpTo(k.fs.ibm, 2) && |Free(k.fs.dbm)| == BLOCKS
    ensures Lists(k.fs.itab, k.fs.data, ROOTINUM, []) && Decode(k.fs.itab[ROOTINUM]) == WithModes(RootInode(now), 7, 7)
  {
    hide Shows, Decode, Encode, Slots, Entries, NBlocks, FreeBlocksClean, Free, Resolve, Ready, OwnerBytes, Cached,
      OnlyLoaded;
    k := Start(disk, superBuf, now);
    StartUsed(k.fs.ibm);
    ResolveNothing(k.fs.itab, k.fs.data, ROOTUSER, ROOTINUM);
    var r, i := Chmod(k, ROOTUSER, [], 7, 7);
    DecodeEncode(WithModes(RootInode(now), 7, 7));
    EmptyDirLists(k.fs.itab, k.fs.data, ROOTINUM);
  }

  lemma EmptyDirLists(itab: InodeTable, data: Blocks, i: u32)
    requires i < INODES && IsDir(Decode(itab[i])) && Decode(itab[i]).size == 0
    ensures Lists(itab, data, i, [])
  {
    hide Decode;
    EmptyInode(Decode(itab[i]), data);
  }

  // ---------- two entries of one name ----------

  /** A name in a directory d of the root. */
  lemma OneLevelDown(itab: InodeTable, data: Blocks, euid: Name, d: Name, i: u32, x: Name, es: seq<DirEntry>)
    requires Lists(itab, data, ROOTINUM, [DirEntry(i, d)]) && Lists(itab, data, i, es)
    requires CanExecute(euid, Decode(itab[ROOTINUM]))
    ensures Resolve(itab, data, euid, ROOTINUM, [d, x]) ==
      if !CanExecute(euid, Decode(itab[i])) then PathResult.Failed(EACCES)
      else if Lookup(es, x) == None then PathResult.Failed(ENOENT) else Found(Lookup(es, x).value)
    ensures CanWrite(euid, Decode(itab[i])) ==> ParentFor(itab, data, euid, [d, x]) == Found(i)
  {
    hide Decode, Slots, Entries, NBlocks, Compact, CanExecute, CanWrite;
    var path := [d, x];
    assert DirOf(path) == [d] && BaseOf(path) == x;
    TopLevel(itab, data, euid, d, [DirEntry(i, d)]);
    ResolveLast(itab, data, euid, ROOTINUM, path);
    if CanExecute(euid, Decode(itab[i])) {
      ResolveName(itab, data, euid, i, x);
    }
  }

  /** After mkDir of d in an empty root directory. */
  lemma AfterMkDir(ibm: InodeBitmap, itab: InodeTable, dbm: DataBitmap, data: Blocks, d: Name, i: u32, v: Ino, q: nat,
                   ibm': InodeBitmap, itab': InodeTable, dbm': DataBitmap, data': Blocks)
    requires FsOk(ibm, itab, dbm, data) && FreeBlocksClean(dbm, data) && Lists(itab, data, ROOTINUM, [])
    requires UsedUpTo(ibm, 2)
    requires IsDir(v) && MadeInode(ibm, itab, dbm, data, ROOTINUM, d, i, v, q, ibm', itab', dbm', data')
    ensures i == 3 && UsedUpTo(ibm', 3) && Lists(itab', data', ROOTINUM, [DirEntry(3, d)])
    ensures Lists(itab', data', 3, [DirEntry(3, DOT), DirEntry(ROOTINUM, DOTDOT)])
    ensures SameMeta(v, Decode(itab'[3])) && SameMeta(Decode(itab[ROOTINUM]), Decode(itab'[ROOTINUM]))
  {
    hide FsOk, Decode, FreeBlocksClean, Slots, Entries, NBlocks, Compact, OthersKept, Rewritten, MadeEntry, SlotBlock,
      NextBlock;
    FsOkHasFirst(ibm, itab, dbm, data);
    AnyGrowsClean(ibm, itab, dbm, data);
    var itab1, dbm1, data1 :|
      && MadeEntry(ibm, itab, dbm, data, ROOTINUM, d, i, v, q, ibm', itab1, dbm1, data1)
      && RecordSet(itab1, itab', i, Decode(itab'[i]))
      && FreshDir(v, dbm1, data1, i, ROOTINUM, Decode(itab'[i]), dbm', data')
      && OthersKept(ibm', itab1, data1, data', i);
    CreatedNext(ibm, itab, dbm, data, ROOTINUM, d, i, v, q, ibm', itab1, dbm1, data1, [], 2);
    assert [] + [DirEntry(i, d)] == [DirEntry(3, d)];
    ParentIsWF(ibm, itab, dbm, data, ROOTINUM, d, i, v, q, ibm', itab1, dbm1, data1);
    MadeFacts(ibm, itab, dbm, data, ROOTINUM, d, i, v, q, ibm', itab1, dbm1, data1);
    OthersKeptAt(ibm', itab1, data1, data', i, ROOTINUM);
    UntouchedSlots(Decode(itab1[ROOTINUM]), data1, data');
    RewrittenKeepsMeta(v, data1, dbm1, Decode(itab'[i]).size, Decode(itab'[i]), data', dbm');
  }

  /** After chmod of directory 3. */
  lemma DirChmodded(ibm: InodeBitmap, itab: InodeTable, dbm: DataBitmap, data: Blocks, d: Name, es: seq<DirEntry>,
                    a: byte, b: byte, itab': InodeTable)
    requires FsOk(ibm, itab, dbm, data) && UsedUpTo(ibm, 3)
    requires Lists(itab, data, ROOTINUM, [DirEntry(3, d)]) && Lists(itab, data, 3, es)
    requires itab' == itab[3 := Encode(WithModes(Decode(itab[3]), a, b))]
    ensures Lists(itab', data, ROOTINUM, [DirEntry(3, d)]) && Lists(itab', data, 3, es)
    ensures Decode(itab'[3]) == WithModes(Decode(itab[3]), a, b) && itab'[ROOTINUM] == itab[ROOTINUM]
  {
    hide FsOk, Decode, Encode, Slots, Entries, NBlocks, Compact;
    FsOkInode(ibm, itab, dbm, data, 3);
    RecordWritten(itab, 3, WithModes(Decode(itab[3]), a, b));
    ModesDoNotMatter(Decode(itab[3]), data, a, b);
  }

  /** Permission bits 2 let others write and not search. */
  lemma WriteOnly(ino: Ino, euid: Name)
    requires ino.otherMode == 2 && ino.owner == OwnerBytes(ROOTUSER) && euid != ROOTUSER
    ensures CanWrite(euid, ino) && !CanExecute(euid, ino)
  {
    hide OwnerString, OwnerBytes;
    OwnerRoundTrip(ROOTUSER);
    assert Bit(2, 1) && !Bit(2, 0);
  }

  /** root makes directory d, lets others write in it but not search it, and creates x there. When anybody else then
      creates d/x, the first resolution fails with EACCES, the parent is writable, and d ends up with two entries x. */
  method DuplicateName(disk: MemDisk, superBuf: Block, d: Name, x: Name, other: Name, now: u64)
    returns (k: Kernel, r: CreateResult)
    requires disk.buf.Length == DISKSIZE && |d| <= MAXNAME && |x| <= MAXNAME && x != DOT && x != DOTDOT
    requires other != ROOTUSER
    modifies disk.buf
    ensures fresh(k) && fresh(k.fs) && k.fs.disk == disk && Ready(k) && r == Created(5)
    ensures Resolve(k.fs.itab, k.fs.data, other, ROOTINUM, [d, x]) == PathResult.Failed(EACCES)
    ensures ParentFor(k.fs.itab, k.fs.data, other, [d, x]) == Found(3)
    ensures Lists(k.fs.itab, k.fs.data, 3, [DirEntry(3, DOT), DirEntry(ROOTINUM, DOTDOT), DirEntry(4, x),
                                            DirEntry(5, x)])
    ensures !Unique(Entries(Slots(Decode(k.fs.itab[3]), k.fs.data)))
  {
    hide FsOk, Shows, Decode, Slots, Entries, NBlocks, FreeBlocksClean, Resolve, UsedUpTo, Bit, Ready, Unique,
      Compact, OwnerBytes, CanExecute;
    k := MakeModeDir(disk, superBuf, d, 2, now);
    ghost var es := [DirEntry(3, DOT), DirEntry(ROOTINUM, DOTDOT)];
    LookupNoneIffAbsent(es, x);
    r := CreateInDir(k, ROOTUSER, d, 2, x, es, 3, now);
    r := CreateInDir(k, other, d, 2, x, es + [DirEntry(4, x)], 4, now);
    ghost var all := es + [DirEntry(4, x)] + [DirEntry(5, x)];
    assert all == [DirEntry(3, DOT), DirEntry(ROOTINUM, DOTDOT), DirEntry(4, x), DirEntry(5, x)];
    TwiceIsNotUnique(all, 2, 3);
  }

  lemma TwiceIsNotUnique(es: seq<DirEntry>, a: nat, b: nat)
    requires a < b < |es| && es[a].name == es[b].name
    ensures !Unique(es)
  {
  }

  /** The root directory holds just d, which is directory 3, owned by root, with permissions 7 and m, listing es. */
  ghost predicate ModeDir(k: Kernel, d: Name, m: byte, es: seq<DirEntry>)
    reads k, k.fs, k.fs.disk, k.fs.disk.buf, k.inodeCache.Values
  {
    && Ready(k) && FreeBlocksClean(k.fs.dbm, k.fs.data)
    && Lists(k.fs.itab, k.fs.data, ROOTINUM, [DirEntry(3, d)]) &&
         (forall euid :: CanExecute(euid, Decode(k.fs.itab[ROOTINUM])))
    && Lists(k.fs.itab, k.fs.data, 3, es)
    && Decode(k.fs.itab[3]).otherMode == m && Decode(k.fs.itab[3]).owner == OwnerBytes(ROOTUSER)
  }

  /** root makes a directory on a fresh disk. */
  method MakeDir(disk: MemDisk, superBuf: Block, d: Name, now: u64) returns (k: Kernel)
    requires disk.buf.Length == DISKSIZE && |d| <= MAXNAME
    modifies disk.buf
    ensures fresh(k) && fresh(k.fs) && fresh(k.inodeCache.Values) && k.fs.disk == disk
    ensures Ready(k) && FreeBlocksClean(k.fs.dbm, k.fs.data) && UsedUpTo(k.fs.ibm, 3) && 3 !in k.inodeCache
    ensures Lists(k.fs.itab, k.fs.data, ROOTINUM, [DirEntry(3, d)])
    ensures Lists(k.fs.itab, k.fs.data, 3, [DirEntry(3, DOT), DirEntry(ROOTINUM, DOTDOT)])
    ensures forall euid :: CanExecute(euid, Decode(k.fs.itab[ROOTINUM]))
    ensures SameMeta(FreshIno(S_IFDIR, ROOTUSER, false, 7, 5, now), Decode(k.fs.itab[3]))
  {
    hide FsOk, Shows, Decode, Encode, Slots, Entries, NBlocks, FreeBlocksClean, MadeInode, OwnerString, OwnerBytes,
      Free, FullBelow, Resolve, Lists, UsedUpTo, Room, MayGrow, BlocksToLink, Bit, Ready, CanExecute, Cached,
      OnlyLoaded;
    k := Start(disk, superBuf, now);
    ghost var ibm, itab, dbm, data := k.fs.ibm, k.fs.itab, k.fs.dbm, k.fs.data;
    EmptyRoot(k, now);
    TopLevel(itab, data, ROOTUSER, d, []);
    StartUsed(ibm);
    NextInode(ibm, 2);
    RootIsEmpty(k, now);
    RootMay(Decode(itab[ROOTINUM]));
    ReadyIsOk(k);
    CleanTargets(k, ROOTUSER, [d], true);
    var c, q := MkDir(k, ROOTUSER, [d], now);
    ghost var v := FreshIno(S_IFDIR, ROOTUSER, false, 7, 5, now);
    AfterMkDir(ibm, itab, dbm, data, d, c.inum, v, q, k.fs.ibm, k.fs.itab, k.fs.dbm, k.fs.data);
    SameMetaSearch(Decode(itab[ROOTINUM]), Decode(k.fs.itab[ROOTINUM]));
  }

  method MakeModeDir(disk: MemDisk, superBuf: Block, d: Name, m: byte, now: u64) returns (k: Kernel)
    requires disk.buf.Length == DISKSIZE && |d| <= MAXNAME
    modifies disk.buf
    ensures fresh(k) && fresh(k.fs) && k.fs.disk == disk
    ensures ModeDir(k, d, m, [DirEntry(3, DOT), DirEntry(ROOTINUM, DOTDOT)]) && UsedUpTo(k.fs.ibm, 3)
  {
    hide FsOk, Shows, Decode, Encode, Slots, Entries, NBlocks, FreeBlocksClean, OwnerString, OwnerBytes, Resolve, Lists,
      UsedUpTo, Ready, CanExecute, Lookup;
    k := MakeDir(disk, superBuf, d, now);
    TopLevel(k.fs.itab, k.fs.data, ROOTUSER, d, [DirEntry(3, d)]);
    FoundFirst(3, d);
    ReadyIsOk(k);
    ghost var itab1 := k.fs.itab;
    var r, i := Chmod(k, ROOTUSER, [d], 7, m);
    DirChmodded(k.fs.ibm, itab1, k.fs.dbm, k.fs.data, d, [DirEntry(3, DOT), DirEntry(ROOTINUM, DOTDOT)], 7, m,
                k.fs.itab);
  }

  lemma SameMetaSearch(a: Ino, b: Ino)
    requires SameMeta(a, b)
    ensures forall euid :: CanExecute(euid, a) == CanExecute(euid, b)
  {
  }

  /** Anybody's creation of x in d: root's if x is not there, any other user's with permissions 2 in any case. */
  method CreateInDir(k: Kernel, euid: Name, d: Name, ghost m: byte, x: Name, ghost es: seq<DirEntry>, ghost n: nat,
                     now: u64)
    returns (r: CreateResult)
    requires ModeDir(k, d, m, es) && UsedUpTo(k.fs.ibm, n) && n + 1 < INODES && n >= 3 && |x| <= MAXNAME
    requires 0 < |es| < PERBLOCK && if euid == ROOTUSER then Lookup(es, x) == None else m == 2
    modifies k`inodeCache, k.fs`data, k.fs`dbm, k.fs`itab, k.fs`ibm, k.fs.disk.buf
    ensures r == Created(n + 1) && UsedUpTo(k.fs.ibm, n + 1) && ModeDir(k, d, m, es + [DirEntry(n + 1, x)])
    ensures Decode(k.fs.itab[n + 1]) == FreshIno(S_IFREG, euid, false, 7, 5, now)
    ensures euid != ROOTUSER ==>
      && Resolve(k.fs.itab, k.fs.data, euid, ROOTINUM, [d, x]) == PathResult.Failed(EACCES)
      && ParentFor(k.fs.itab, k.fs.data, euid, [d, x]) == Found(3)
  {
    hide FsOk, Shows, Decode, Slots, Entries, NBlocks, FreeBlocksClean, MadeEntry, OwnerString, OwnerBytes, Free,
      FullBelow, Resolve, Lists, UsedUpTo, Room, Bit, Ready, Lookup;
    ghost var ibm, itab, dbm, data := k.fs.ibm, k.fs.itab, k.fs.dbm, k.fs.data;
    ReadyIsOk(k);
    UsedHas(ibm, n);
    if euid != ROOTUSER {
      WriteOnly(Decode(itab[3]), euid);
    }
    OneLevelDown(itab, data, euid, d, 3, x, es);
    ListsHasRoom(itab, data, 3, es);
    RoomTakesNothing(Decode(itab[3]), data);
    NextInode(ibm, n);
    assert BaseOf([d, x]) == x;
    ghost var q;
    CleanTargets(k, euid, [d, x], false);
    AnyGrowsClean(ibm, itab, dbm, data);
    r, q := CreateFile(k, euid, [d, x], now);
    ghost var v := FreshIno(S_IFREG, euid, false, 7, 5, now);
    CreatedNext(ibm, itab, dbm, data, 3, x, r.inum, v, q, k.fs.ibm, k.fs.itab, k.fs.dbm, k.fs.data, es, n);
    ListsStill(ibm, itab, dbm, data, 3, x, r.inum, v, q, k.fs.ibm, k.fs.itab, k.fs.dbm, k.fs.data, ROOTINUM,
               [DirEntry(3, d)]);
    MadeFacts(ibm, itab, dbm, data, 3, x, r.inum, v, q, k.fs.ibm, k.fs.itab, k.fs.dbm, k.fs.data);
    if euid != ROOTUSER {
      WriteOnly(Decode(k.fs.itab[3]), euid);
      OneLevelDown(k.fs.itab, k.fs.data, euid, d, 3, x, es + [DirEntry(n + 1, x)]);
    }
  }

  lemma UsedHas(ibm: InodeBitmap, n: nat)
    requires UsedUpTo(ibm, n) && n >= 3
    ensures Taken(ibm, 3) && Taken(ibm, ROOTINUM)
  {
  }
}

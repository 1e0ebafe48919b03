/** The kernel's file operations: path walking, reading, writing, creating and removing
    (computer/kernel.go:152-330, 594-845). */
module Syscalls {
  import opened Bytes
  import opened Bitmap
  import opened Layout
  import opened Inodes
  import opened BlockMap
  import opened Disk
  import opened Allocator
  import opened Volume
  import opened Files
  import opened Dir
  import opened Paths
  import opened TreeFree
  import opened Keeps

  // ---------- between system calls ----------

  /** A cached inode has the type and permissions of the disk inode; a cached regular file is the disk inode.
      A cached directory may have an outdated block list: addDentry grows a copy of its own. */
  ghost predicate CacheOk(k: Kernel)
    reads k, k.fs, k.inodeCache.Values
  {
    forall i: u32 :: i in k.inodeCache && Taken(k.fs.ibm, i) ==>
      && SameMeta(k.inodeCache[i].Val(), Decode(k.fs.itab[i]))
      && (!IsDir(Decode(k.fs.itab[i])) ==> k.inodeCache[i].Val() == Decode(k.fs.itab[i]))
  }

  ghost predicate Ready(k: Kernel)
    reads k, k.fs, k.fs.disk, k.fs.disk.buf, k.inodeCache.Values
  {
    k.Valid() && FsOk(k.fs.ibm, k.fs.itab, k.fs.dbm, k.fs.data) && CacheOk(k)
  }

  /** What the cache holds. */
  ghost function Cached(k: Kernel): map<u32, Ino>
    reads k, k.inodeCache.Values
  {
    map i: u32 | i in k.inodeCache && i < INODES :: k.inodeCache[i].Val()
  }

  /** From cache c to c', entries of allocated inodes keep their value and new ones are loaded from disk. */
  ghost predicate LoadedValues(ibm: InodeBitmap, itab: InodeTable, c: map<u32, Ino>, c': map<u32, Ino>)
  {
    forall i :: i in c' && Taken(ibm, i) ==> i < INODES && c'[i] == if i in c then c[i] else Decode(itab[i])
  }

  /** ... and they stay, and inode numbers that have just been allocated are not cached. */
  ghost predicate OnlyLoaded(ibm: InodeBitmap, itab: InodeTable, c: map<u32, Ino>, ibm': InodeBitmap, c': map<u32, Ino>)
  {
    && LoadedValues(ibm, itab, c, c')
    && (forall i :: i in c && Taken(ibm, i) ==> i in c')
    && (forall i :: i in c' && Taken(ibm', i) ==> Taken(ibm, i))
  }

  lemma CachedHas(k: Kernel, i: u32)
    requires i in k.inodeCache && i < INODES
    ensures i in Cached(k) && Cached(k)[i] == k.inodeCache[i].Val()
  {
  }

  lemma LoadedIsLoaded(ibm: InodeBitmap, itab: InodeTable, c: map<u32, Ino>, ibm': InodeBitmap, c': map<u32, Ino>)
    requires OnlyLoaded(ibm, itab, c, ibm', c')
    ensures LoadedValues(ibm, itab, c, c')
  {
  }

  /** What CacheOk says of the cached values. */
  ghost predicate CacheFits(ibm: InodeBitmap, itab: InodeTable, c: map<u32, Ino>)
  {
    forall i :: i in c && i < INODES && Taken(ibm, i) ==>
      SameMeta(c[i], Decode(itab[i])) && (!IsDir(Decode(itab[i])) ==> c[i] == Decode(itab[i]))
  }

  lemma CacheOkIff(k: Kernel)
    ensures CacheOk(k) <==> CacheFits(k.fs.ibm, k.fs.itab, Cached(k))
  {
    hide Decode, SameMeta, Bit;
  }

  /** Loading keeps the cache in order, and so does a new record that is not cached. */
  lemma LoadedFits(ibm: InodeBitmap, itab: InodeTable, c: map<u32, Ino>, ibm': InodeBitmap, itab': InodeTable,
                   c': map<u32, Ino>)
    requires CacheFits(ibm, itab, c) && OnlyLoaded(ibm, itab, c, ibm', c')
    requires forall i: nat :: i < INODES && Taken(ibm, i) ==> Decode(itab'[i]) == Decode(itab[i])
    ensures CacheFits(ibm', itab', c')
  {
    hide Decode, Bit;
  }

  /** So does writing out one cached inode. */
  lemma WrittenOutFits(ibm: InodeBitmap, itab: InodeTable, c: map<u32, Ino>, itab': InodeTable, c': map<u32, Ino>,
                       i: u32)
    requires CacheFits(ibm, itab, c) && c' - {i} == c - {i} && i < INODES
    requires forall j: nat :: j < INODES && j != i as nat ==> itab'[j] == itab[j]
    requires i in c' ==> c'[i] == Decode(itab'[i])
    ensures CacheFits(ibm, itab', c')
  {
    hide Decode, Bit;
    forall j | j in c' && j != i ensures j in c && c[j] == c'[j] {
      assert j in c' - {i} && (c' - {i})[j] == (c - {i})[j];
    }
  }

  lemma StaysCached(ibm: InodeBitmap, itab: InodeTable, c: map<u32, Ino>, ibm': InodeBitmap, c': map<u32, Ino>, i: u32)
    requires OnlyLoaded(ibm, itab, c, ibm', c') && i in c && Taken(ibm, i)
    ensures i in c' && c'[i] == c[i]
  {
    hide Decode;
  }

  lemma CachedAre(k: Kernel)
    ensures forall i: u32 :: i in Cached(k) <==> i in k.inodeCache && i < INODES
    ensures forall i: u32 :: i in Cached(k) ==> Cached(k)[i] == k.inodeCache[i].Val()
  {
  }

  /** Changing one cached inode leaves the other entries alone. */
  lemma OtherEntriesKept(k: Kernel, c: map<u32, Ino>, inum: u32)
    requires forall i: u32 :: i in c <==> i in k.inodeCache && i < INODES
    requires forall i: u32 :: i in c && i != inum ==> c[i] == k.inodeCache[i].Val()
    ensures Cached(k) - {inum} == c - {inum}
  {
  }

  /** ... all but one inode of a cache that was only loaded. */
  lemma LoadedButOne(ibm: InodeBitmap, itab: InodeTable, c: map<u32, Ino>, c1: map<u32, Ino>, c2: map<u32, Ino>, i: u32)
    requires OnlyLoaded(ibm, itab, c, ibm, c1) && c2 - {i} == c1 - {i}
    ensures OnlyLoaded(ibm, itab, c - {i}, ibm, c2 - {i})
  {
    hide Decode;
    assert forall j :: j in c2 - {i} ==> j in c1 && c1[j] == (c1 - {i})[j];
  }

  lemma LoadedBut(ibm: InodeBitmap, itab: InodeTable, c: map<u32, Ino>, c1: map<u32, Ino>, ibm': InodeBitmap,
                  c2: map<u32, Ino>, i: u32)
    requires OnlyLoaded(ibm, itab, c, ibm', c1) && c2 - {i} == c1 - {i} && !Taken(ibm, i)
    ensures OnlyLoaded(ibm, itab, c, ibm', c2 - {i})
  {
    hide Decode;
    assert forall j :: j in c2 - {i} ==> j in c1 && c1[j] == (c1 - {i})[j];
    assert forall j :: j in c1 && j != i ==> j in c1 - {i};
  }

  lemma NothingLoaded(ibm: InodeBitmap, itab: InodeTable, c: map<u32, Ino>)
    ensures OnlyLoaded(ibm, itab, c, ibm, c)
  {
    hide Decode;
  }

  /** The number just allocated is not cached. */
  lemma ForgotNew(k: Kernel, ibm: InodeBitmap, itab: InodeTable, c: map<u32, Ino>, inum: u32)
    requires InodeAdded(ibm, k.fs.ibm, inum) && !Taken(ibm, inum) && inum !in k.inodeCache
    requires forall i: u32 :: i in c && i != inum ==> i in k.inodeCache && i < INODES
    requires forall i: u32 :: i in k.inodeCache && i < INODES ==> i in c && c[i] == k.inodeCache[i].Val()
    ensures OnlyLoaded(ibm, itab, c, k.fs.ibm, Cached(k))
  {
    hide Decode;
  }

  /** One more inode has been loaded, if it was not cached. */
  lemma LoadedOne(k: Kernel, c: map<u32, Ino>, inum: u32)
    requires forall i: u32 :: i in c ==> i in k.inodeCache && i < INODES && c[i] == k.inodeCache[i].Val()
    requires forall i: u32 :: i in k.inodeCache && i < INODES && i != inum ==> i in c
    requires inum in c || (inum in k.inodeCache && inum < INODES && k.inodeCache[inum].Val() == Decode(k.fs.itab[inum]))
    ensures OnlyLoaded(k.fs.ibm, k.fs.itab, c, k.fs.ibm, Cached(k)) && Cached(k) - {inum} == c - {inum}
  {
    hide Decode;
  }

  lemma LoadedThenLoaded(ibm: InodeBitmap, itab: InodeTable, c: map<u32, Ino>, c1: map<u32, Ino>, ibm': InodeBitmap,
                         c2: map<u32, Ino>)
    requires OnlyLoaded(ibm, itab, c, ibm, c1) && OnlyLoaded(ibm, itab, c1, ibm', c2)
    ensures OnlyLoaded(ibm, itab, c, ibm', c2)
  {
    hide Decode;
  }

  // ---------- path walking ----------

  /** The inode number of the first entry with the name, 0 if there is none (computer/kernel.go:236-242). */
  method FindEntry(entries: seq<DirEntry>, name: Name) returns (nextInum: u32)
    ensures Lookup(entries, name) == None ==> nextInum == 0
    ensures Lookup(entries, name).Some? ==> nextInum == Lookup(entries, name).value
  {
    nextInum := 0;
    for i := 0 to |entries|
      invariant nextInum == 0
      invariant Lookup(entries, name) == Lookup(entries[i..], name)
    {
      if entries[i].name == name {
        nextInum := entries[i].inum;
        break;
      }
      assert entries[i..][1..] == entries[i + 1..];
    }
  }

  /** One turn of ResolvePath's loop (computer/kernel.go:222-253): the next inode number or an error. */
  method WalkOne(k: Kernel, euid: Name, inode: Inode, name: Name, ghost rest: seq<Name>) returns (r: PathResult)
    requires Ready(k) && Taken(k.fs.ibm, inode.num) && inode.num in k.inodeCache && k.inodeCache[inode.num] == inode
    ensures r.Failed? ==> Resolve(k.fs.itab, k.fs.data, euid, inode.num, [name] + rest) == r
    ensures r.Found? ==> Taken(k.fs.ibm, r.inum)
    ensures r.Found? ==>
      Resolve(k.fs.itab, k.fs.data, euid, inode.num, [name] + rest) == Resolve(k.fs.itab, k.fs.data, euid, r.inum, rest)
  {
    hide FsOk, Shows, Sound, WF, DirSound, DirOk, Slots, Entries, Decode, NBlocks, Lookup, OwnerString;
    FsOkInode(k.fs.ibm, k.fs.itab, k.fs.dbm, k.fs.data, inode.num);
    assert ([name] + rest)[1..] == rest;
    if inode.fType != S_IFDIR {
      return PathResult.Failed(ENOTDIR);
    }
    if !CanExecute(euid, inode.Val()) {
      return PathResult.Failed(EACCES);
    }
    var entries, _ := ReadEntries(k.fs, inode.num);
    var nextInum := FindEntry(entries, name);
    FoundIsTaken(Decode(k.fs.itab[inode.num]), k.fs.data, k.fs.ibm, name);
    if nextInum == 0 {
      return PathResult.Failed(ENOENT);
    }
    return Found(nextInum);
  }

  method ResolvePath(k: Kernel, euid: Name, comps: seq<Name>) returns (r: PathResult)
    requires Ready(k)
    modifies k`inodeCache
    ensures Ready(k)
    ensures r == Resolve(k.fs.itab, k.fs.data, euid, ROOTINUM, comps)
    ensures r.Found? ==> Taken(k.fs.ibm, r.inum)
    ensures ROOTINUM in Cached(k) && OnlyLoaded(k.fs.ibm, k.fs.itab, old(Cached(k)), k.fs.ibm, Cached(k))
    ensures forall i: u32 :: i < INODES ==> k.Current(i) == old(k.Current(i))
    ensures forall i :: i in old(k.inodeCache) ==> i in k.inodeCache && k.inodeCache[i] == old(k.inodeCache)[i]
    ensures forall i :: i in k.inodeCache && i !in old(k.inodeCache) ==> fresh(k.inodeCache[i])
  {
    hide Ready, Shows, Decode, Resolve, OnlyLoaded, Cached;
    var dirs := comps;
    ReadyHasRoot(k);
    var mostRecentInode := Load(k, ROOTINUM);
    CachedHas(k, ROOTINUM);
    while |dirs| > 0
      invariant Ready(k) && Taken(k.fs.ibm, mostRecentInode.num) && ROOTINUM in Cached(k)
      invariant mostRecentInode.num in k.inodeCache && k.inodeCache[mostRecentInode.num] == mostRecentInode
      invariant Resolve(k.fs.itab, k.fs.data, euid, ROOTINUM, comps) ==
        Resolve(k.fs.itab, k.fs.data, euid, mostRecentInode.num, dirs)
      invariant OnlyLoaded(k.fs.ibm, k.fs.itab, old(Cached(k)), k.fs.ibm, Cached(k))
      invariant forall i: u32 :: i < INODES ==> k.Current(i) == old(k.Current(i))
      invariant forall i :: i in old(k.inodeCache) ==> i in k.inodeCache && k.inodeCache[i] == old(k.inodeCache)[i]
      invariant forall i :: i in k.inodeCache && i !in old(k.inodeCache) ==> fresh(k.inodeCache[i])
      modifies k`inodeCache
    {
      assert [dirs[0]] + dirs[1..] == dirs;
      var next := WalkOne(k, euid, mostRecentInode, dirs[0], dirs[1..]);
      if next.Failed? {
        return next;
      }
      ghost var c1 := Cached(k);
      mostRecentInode := Load(k, next.inum);
      ReadyHasRoot(k);
      StaysCached(k.fs.ibm, k.fs.itab, c1, k.fs.ibm, Cached(k), ROOTINUM);
      LoadedThenLoaded(k.fs.ibm, k.fs.itab, old(Cached(k)), c1, k.fs.ibm, Cached(k));
      dirs := dirs[1..];
    }
    ResolveNothing(k.fs.itab, k.fs.data, euid, mostRecentInode.num);
    return Found(mostRecentInode.num);
  }

  lemma ReadyHasRoot(k: Kernel)
    requires Ready(k)
    ensures k.Valid() && Taken(k.fs.ibm, ROOTINUM)
  {
  }

  /** getInode of an allocated inode keeps the kernel ready. */
  method Load(k: Kernel, inum: u32) returns (inode: Inode)
    requires Ready(k) && Taken(k.fs.ibm, inum)
    modifies k`inodeCache
    ensures Ready(k) && inum in k.inodeCache && k.inodeCache[inum] == inode && inode.num == inum
    ensures inum in old(k.inodeCache) ==> k.inodeCache == old(k.inodeCache)
    ensures inum !in old(k.inodeCache) ==> fresh(inode) && k.inodeCache == old(k.inodeCache)[inum := inode]
    ensures forall i: u32 :: i < INODES ==> k.Current(i) == old(k.Current(i))
    ensures Cached(k) - {inum} == old(Cached(k)) - {inum}
    ensures OnlyLoaded(k.fs.ibm, k.fs.itab, old(Cached(k)), k.fs.ibm, Cached(k))
    ensures SameMeta(inode.Val(), Decode(k.fs.itab[inum]))
    ensures !IsDir(Decode(k.fs.itab[inum])) ==> inode.Val() == Decode(k.fs.itab[inum])
  {
    hide FsOk, Shows, Decode, OnlyLoaded, Cached, CacheOk, CacheFits;
    ghost var c := Cached(k);
    CacheOkIff(k);
    CachedAre(k);
    var ok;
    inode, ok := k.GetInode(inum);
    LoadedOne(k, c, inum);
    LoadedFits(k.fs.ibm, k.fs.itab, c, k.fs.ibm, k.fs.itab, Cached(k));
    CacheOkIff(k);
    CachedFits(k, inum);
  }

  lemma CachedFits(k: Kernel, i: u32)
    requires CacheOk(k) && i in k.inodeCache && Taken(k.fs.ibm, i)
    ensures i < INODES && SameMeta(k.inodeCache[i].Val(), Decode(k.fs.itab[i]))
    ensures !IsDir(Decode(k.fs.itab[i])) ==> k.inodeCache[i].Val() == Decode(k.fs.itab[i])
  {
    hide Decode;
  }

  // ---------- making inodes ----------

  /** The record makeInode writes (computer/kernel.go:266-275). */
  function FreshIno(fType: byte, owner: Name, setuid: bool, ownerMode: byte, otherMode: byte, now: u64): Ino
  {
    Ino(0, fType, 1, OwnerBytes(owner), setuid, ownerMode, otherMode, Fill(NDIRECT, 0), 0, 0, 0, now, now)
  }

  /** A new inode is empty, counts one reference, is not setuid, and carries modes 7 and 5: everything for its owner,
      and everything but writing for others. */
  lemma NewInodeIs(fType: byte, owner: Name, now: u64, euid: Name)
    ensures var v := FreshIno(fType, owner, false, 7, 5, now);
      && v.size == 0 && v.fType == fType && v.refs == 1 && !v.setuid && v.ownerMode == 7 && v.otherMode == 5
      && v.owner == OwnerBytes(owner) && v.createdAt == v.modifiedAt == now
      && v.find == v.sind == v.tind == 0 && (forall i :: 0 <= i < 12 ==> v.direct[i] == 0)
      && CanExecute(euid, v) && CanRead(euid, v)
      && (CanWrite(euid, v) <==> euid == [0x72, 0x6f, 0x6f, 0x74] || OwnerString(OwnerBytes(owner)) == euid)
  {
    hide OwnerString, OwnerBytes, CanExecute, CanWrite, CanRead;
    PermissionsAre(euid, FreshIno(fType, owner, false, 7, 5, now));
  }

  datatype MakeResult = Made(inum: u32) | NoInodes | LinkFailed(why: AddResult)

  /** A fresh inode number with an empty record on disk (computer/kernel.go:261-278). */
  method NewRecord(fs: FileSystem, v: Ino) returns (inum: u32, ok: bool)
    requires fs.Valid() && FsOk(fs.ibm, fs.itab, fs.dbm, fs.data) && v.size == 0 && HasOps(v)
    modifies fs`ibm, fs`itab, fs.disk.buf
    ensures fs.Valid() && FsOk(fs.ibm, fs.itab, fs.dbm, fs.data)
    ensures !ok <==> FullBelow(old(fs.ibm), INODES)
    ensures !ok ==> fs.ibm == old(fs.ibm) && fs.itab == old(fs.itab)
    ensures ok ==>
      && LowestFree(old(fs.ibm), inum) && InodeAdded(old(fs.ibm), fs.ibm, inum) && ROOTINUM < inum
      && RecordSet(old(fs.itab), fs.itab, inum, v)
  {
    hide FsOk, Shows, Decode, Encode;
    ghost var ibm, itab := fs.ibm, fs.itab;
    FsOkHasFirst(ibm, itab, fs.dbm, fs.data);
    inum, ok := fs.AllocInode();
    if !ok {
      return;
    }
    var inode := new Inode.Of(v);
    var _ := fs.WriteInode(inode, inum);
    RecordWritten(itab, inum, v);
    NewInodeKeepsFsOk(ibm, itab, fs.dbm, fs.data, inum, fs.ibm, fs.itab, v);
  }

  /** ... and no stale cache entry under it (computer/kernel.go:279). */
  method NewInode(k: Kernel, v: Ino) returns (inum: u32, ok: bool)
    requires Ready(k) && v.size == 0 && HasOps(v)
    modifies k`inodeCache, k.fs`ibm, k.fs`itab, k.fs.disk.buf
    ensures Ready(k)
    ensures !ok <==> FullBelow(old(k.fs.ibm), INODES)
    ensures !ok ==> k.fs.ibm == old(k.fs.ibm) && k.fs.itab == old(k.fs.itab) && k.inodeCache == old(k.inodeCache)
    ensures ok ==>
      && LowestFree(old(k.fs.ibm), inum) && InodeAdded(old(k.fs.ibm), k.fs.ibm, inum) && ROOTINUM < inum
      && RecordSet(old(k.fs.itab), k.fs.itab, inum, v)
      && k.inodeCache == old(k.inodeCache) - {inum}
    ensures OnlyLoaded(old(k.fs.ibm), old(k.fs.itab), old(Cached(k)), k.fs.ibm, Cached(k))
  {
    hide FsOk, Shows, Decode, FullBelow, OnlyLoaded, Cached, LowestFree, CacheOk, CacheFits;
    ghost var ibm, itab, c := k.fs.ibm, k.fs.itab, Cached(k);
    CacheOkIff(k);
    CachedAre(k);
    inum, ok := NewRecord(k.fs, v);
    if ok {
      k.inodeCache := k.inodeCache - {inum};
      LowestIsFree(ibm, inum);
      ForgotNew(k, ibm, itab, c, inum);
    } else {
      NothingLoaded(ibm, itab, c);
    }
    LoadedFits(ibm, itab, c, k.fs.ibm, k.fs.itab, Cached(k));
    CacheOkIff(k);
  }

  lemma LowestIsFree(ibm: InodeBitmap, i: nat)
    requires LowestFree(ibm, i)
    ensures !Taken(ibm, i)
  {
  }

  lemma FsOkHasFirst(ibm: InodeBitmap, itab: InodeTable, dbm: DataBitmap, data: Blocks)
    requires FsOk(ibm, itab, dbm, data)
    ensures forall i: nat :: i <= ROOTINUM ==> Taken(ibm, i)
  {
  }

  /** Which outcome adding an entry has, given room or a clean next block: each if and only if its condition holds. */
  ghost predicate LinkOutcome(ino: Ino, data: Blocks, dbm: DataBitmap, name: Name, r: AddResult)
  {
    var fits := BlocksToLink(ino, data) <= |Free(dbm)|;
    && (r == Added <==> |name| <= MAXNAME && MayGrow(ino, data) && fits)
    && (r.BadEntry? <==> |name| > MAXNAME)
    && (r.BadEntry? ==> r.why == NameTooLong)
    && (r == DirTooBig <==> |name| <= MAXNAME && !MayGrow(ino, data))
    && (r == DirPanicked <==> |name| <= MAXNAME && MayGrow(ino, data) && !fits)
  }

  /** addDentry on an allocated directory keeps the kernel ready when the block that first fit hands it, if any, is
      clean. */
  method Link(k: Kernel, dir: u32, e: DirEntry) returns (r: AddResult, ghost q: nat)
    requires Ready(k) && Taken(k.fs.ibm, dir) && IsDir(Decode(k.fs.itab[dir])) && Taken(k.fs.ibm, e.inum) && e.inum != 0
    requires GrowsClean(Decode(k.fs.itab[dir]), k.fs.data, k.fs.dbm)
    modifies k.fs`data, k.fs`dbm, k.fs`itab, k.fs.disk.buf
    ensures k.Valid()
    ensures LinkOutcome(Decode(old(k.fs.itab)[dir]), old(k.fs.data), old(k.fs.dbm), e.name, r)
    ensures r != Added && r != DirPanicked ==>
      k.fs.data == old(k.fs.data) && k.fs.dbm == old(k.fs.dbm) && k.fs.itab == old(k.fs.itab)
    ensures r != DirPanicked ==> Ready(k)
    ensures r == Added ==> LinkedBy(k, dir, e, q, old(k.fs.itab), old(k.fs.dbm), old(k.fs.data))
  {
    hide FsOk, Shows, Decode, GrewAndAdded, Sound, WF, Entries, Slots, NBlocks, FreeBlocksClean, GrowsClean,
      OthersKept, AddedInPlace, Free, HasFree;
    ghost var itab, dbm, data, ino := k.fs.itab, k.fs.dbm, k.fs.data, Decode(k.fs.itab[dir]);
    FsOkInode(k.fs.ibm, itab, dbm, data, dir);
    r, q := AddDentry(k.fs, dir, e);
    if r == Added || r == NoFreeSlot {
      AddOutcome(ino, data, dbm, e, Decode(k.fs.itab[dir]), k.fs.data, k.fs.dbm, q);
      EntryAddedKeepsFsOk(k.fs.ibm, itab, dbm, data, dir, e, k.fs.itab, Decode(k.fs.itab[dir]), k.fs.dbm, k.fs.data, q);
    }
  }

  /** The entry e is now in directory dir, everything else is as it was. */
  ghost predicate LinkedBy(k: Kernel, dir: u32, e: DirEntry, q: nat, itab: InodeTable, dbm: DataBitmap, data: Blocks)
    requires dir < INODES
    reads k, k.fs
  {
    && RecordSet(itab, k.fs.itab, dir, Decode(k.fs.itab[dir]))
    && EntryAdded(Decode(itab[dir]), data, dbm, e, Decode(k.fs.itab[dir]), k.fs.data, k.fs.dbm, q)
    && OthersKept(k.fs.ibm, itab, data, k.fs.data, dir)
    && (FreeBlocksClean(dbm, data) ==> FreeBlocksClean(k.fs.dbm, k.fs.data))
  }

  // ---------- reading and writing whole files ----------

  datatype FileResult = FileOk | FileError(error: Errno) | FileTooBig | FilePanicked

  /** The file holds exactly the content; its old blocks beyond are given back, no foreign block has changed. */
  ghost predicate StoredAs(ino: Ino, data: Blocks, dbm: DataBitmap, content: seq<byte>, ino': Ino, data': Blocks,
                           dbm': DataBitmap)
  {
    && |content| <= MAXSIZE && ino'.size == |content|
    && Rewritten(ino, data, dbm, ino'.size, ino', data', dbm')
    && Content(ino', data') == content
  }

  lemma ReallocatedIsSound(ino: Ino, data: Blocks, dbm: DataBitmap, newSize: u32, ino': Ino, data': Blocks,
                           dbm': DataBitmap)
    requires Sound(ino, data, dbm) && Reallocated(ino, data, dbm, newSize, ino', data', dbm')
    ensures Sound(ino', data', dbm') && ino'.size == newSize
  {
    ReallocatedIsRewritten(ino, data, dbm, newSize, ino', data', dbm');
    HighBitsKept(ino, data, dbm, newSize, ino', data', dbm');
  }

  /** Cutting or extending a file and then writing it from the start leaves exactly what was written. */
  lemma TruncateThenWrite(ino: Ino, data: Blocks, dbm: DataBitmap, content: seq<byte>, ino1: Ino, data1: Blocks,
                          dbm1: DataBitmap, ino2: Ino, data2: Blocks, dbm2: DataBitmap)
    requires Sound(ino, data, dbm) && |content| <= MAXSIZE
    requires Reallocated(ino, data, dbm, |content|, ino1, data1, dbm1)
    requires Written(ino1, data1, dbm1, 0, content, ino2, data2, dbm2)
    ensures StoredAs(ino, data, dbm, content, ino2, data2, dbm2)
  {
    assert Content(ino2, data2) == content;
    ReallocatedIsRewritten(ino, data, dbm, |content|, ino1, data1, dbm1);
    RewrittenTwice(ino, data, dbm, ino1, data1, dbm1, ino2, data2, dbm2);
  }

  /** Two rewrites in a row without change of size in the second. */
  lemma RewrittenTwice(ino: Ino, data: Blocks, dbm: DataBitmap, ino1: Ino, data1: Blocks, dbm1: DataBitmap, ino2: Ino,
                       data2: Blocks, dbm2: DataBitmap)
    requires Rewritten(ino, data, dbm, ino1.size, ino1, data1, dbm1)
    requires Rewritten(ino1, data1, dbm1, ino2.size, ino2, data2, dbm2) && ino2.size == ino1.size
    ensures Rewritten(ino, data, dbm, ino2.size, ino2, data2, dbm2)
  {
    assert forall s: nat :: LiveSlot(ino2, s) == LiveSlot(ino1, s);
    assert Own(ino2, data2) == Own(ino1, data1);
  }

  lemma TruncatedToNothing(ino: Ino, data: Blocks, dbm: DataBitmap, ino1: Ino, data1: Blocks, dbm1: DataBitmap)
    requires Sound(ino, data, dbm) && Reallocated(ino, data, dbm, 0, ino1, data1, dbm1)
    ensures StoredAs(ino, data, dbm, [], ino1, data1, dbm1)
  {
    ReallocatedIsRewritten(ino, data, dbm, 0, ino1, data1, dbm1);
  }

  /** fd.Write at offset 0 of a file that already has the size of the content (computer/kernel.go:837-844). */
  method WriteWhole(k: Kernel, inode: Inode, inum: u32, content: seq<byte>)
    requires k.Valid() && inum in k.inodeCache && k.inodeCache[inum] == inode && inum < INODES
    requires Sound(inode.Val(), k.fs.data, k.fs.dbm) && inode.size == |content| <= MAXSIZE
    modifies k`inodeCache, inode, k.fs`data, k.fs`dbm, k.fs`itab, k.fs.disk.buf
    ensures k.Valid() && k.inodeCache == old(k.inodeCache)
    ensures k.fs.itab == old(k.fs.itab)[inum := Encode(inode.Val())]
    ensures Written(old(inode.Val()), old(k.fs.data), old(k.fs.dbm), 0, content, inode.Val(), k.fs.data, k.fs.dbm)
  {
    hide Shows, Sound, Free, Written, Encode, Decode, NBlocks, Need, WriteSteps;
    ghost var ino, data, dbm := inode.Val(), k.fs.data, k.fs.dbm;
    var fd := new FileFD(k, inum);
    var n, r := fd.Write(content);
    WriteInRange(ino, data, dbm, 0, content, n, r, inode.Val(), k.fs.data, k.fs.dbm);
  }

  /** Truncate, write from offset 0, persist (computer/kernel.go:829-844). */
  method StoreContent(k: Kernel, inode: Inode, inum: u32, content: seq<byte>) returns (r: FileResult)
    requires k.Valid() && inum in k.inodeCache && k.inodeCache[inum] == inode && inum < INODES
    requires Sound(inode.Val(), k.fs.data, k.fs.dbm) && inode.size <= MAXSIZE
    requires |content| <= U32 - BLOCKSIZE
    modifies k`inodeCache, inode, k.fs`data, k.fs`dbm, k.fs`itab, k.fs.disk.buf
    ensures k.Valid() && k.inodeCache == old(k.inodeCache)
    ensures r == FileTooBig <==> |content| > MAXSIZE
    ensures r == FileTooBig ==>
      inode.Val() == old(inode.Val()) && k.fs.data == old(k.fs.data) && k.fs.dbm == old(k.fs.dbm) &&
        k.fs.itab == old(k.fs.itab)
    ensures r == FilePanicked <==>
      r != FileTooBig && |Free(old(k.fs.dbm))| + Need(NBlocks(old(inode.size))) < Need(NBlocks(|content|))
    ensures !r.FileError?
    ensures r == FileOk ==> k.fs.itab == old(k.fs.itab)[inum := Encode(inode.Val())]
    ensures r == FileOk ==>
      StoredAs(old(inode.Val()), old(k.fs.data), old(k.fs.dbm), content, inode.Val(), k.fs.data, k.fs.dbm)
  {
    hide Shows, Sound, Reallocated, FirstFit, Free, Written, StoredAs, Encode, Decode;
    ghost var ino, data, dbm := inode.Val(), k.fs.data, k.fs.dbm;
    var fr := Falloc(k.fs, inode, |content|);
    if fr == TooBig {
      return FileTooBig;
    }
    if fr == Panicked {
      return FilePanicked;
    }
    ghost var ino1, data1, dbm1 := inode.Val(), k.fs.data, k.fs.dbm;
    ReallocatedIsSound(ino, data, dbm, |content|, ino1, data1, dbm1);
    if |content| == 0 {
      TruncatedToNothing(ino, data, dbm, ino1, data1, dbm1);
      var _ := k.fs.WriteInode(inode, inum);
      return FileOk;
    }
    WriteWhole(k, inode, inum, content);
    TruncateThenWrite(ino, data, dbm, content, ino1, data1, dbm1, inode.Val(), k.fs.data, k.fs.dbm);
    return FileOk;
  }

  /** Inode i now holds the content; every other allocated inode and every path is as before. */
  ghost predicate FileSaved(ibm: InodeBitmap, itab: InodeTable, dbm: DataBitmap, data: Blocks, i: nat,
                            content: seq<byte>, itab': InodeTable, dbm': DataBitmap, data': Blocks)
  {
    && i < INODES && RecordSet(itab, itab', i, Decode(itab'[i]))
    && StoredAs(Decode(itab[i]), data, dbm, content, Decode(itab'[i]), data', dbm')
    && OthersKept(ibm, itab, data, data', i)
    && SameTree(ibm, itab, data, itab', data')
  }

  lemma SavedHolds(ibm: InodeBitmap, itab: InodeTable, dbm: DataBitmap, data: Blocks, i: nat, content: seq<byte>,
                   itab': InodeTable, dbm': DataBitmap, data': Blocks)
    requires FileSaved(ibm, itab, dbm, data, i, content, itab', dbm', data') && Taken(ibm, i)
    ensures i < INODES && SameMeta(Decode(itab[i]), Decode(itab'[i]))
    ensures Decode(itab'[i]).size <= MAXSIZE && Content(Decode(itab'[i]), data') == content
  {
    hide Decode, Slots, Content, Rewritten;
  }

  lemma StoringKeepsFsOk(ibm: InodeBitmap, itab: InodeTable, dbm: DataBitmap, data: Blocks, i: nat, content: seq<byte>,
                         itab': InodeTable, ino': Ino, dbm': DataBitmap, data': Blocks)
    requires FsOk(ibm, itab, dbm, data) && Taken(ibm, i) && !IsDir(Decode(itab[i]))
    requires StoredAs(Decode(itab[i]), data, dbm, content, ino', data', dbm') && itab' == itab[i := Encode(ino')]
    ensures FsOk(ibm, itab', dbm', data') && FileSaved(ibm, itab, dbm, data, i, content, itab', dbm', data')
    ensures Decode(itab'[i]) == ino' && SameMeta(ino', Decode(itab[i]))
  {
    hide Decode, DirSound, Untouched, WF, Own, SlotBlock, Content;
    RecordWritten(itab, i, ino');
    RewriteKeepsFsOk(ibm, itab, dbm, data, i, itab', ino', dbm', data');
    forall j: nat | Taken(ibm, j)
      ensures SameMeta(Decode(itab[j]), Decode(itab'[j]))
      ensures NBlocks(Decode(itab[j]).size) <= MAXBLOCKS && NBlocks(Decode(itab'[j]).size) <= MAXBLOCKS
      ensures IsDir(Decode(itab[j])) ==>
        Entries(Slots(Decode(itab'[j]), data')) == Entries(Slots(Decode(itab[j]), data))
    {
      FsOkInode(ibm, itab, dbm, data, j);
      if j != i {
        UntouchedSlots(Decode(itab[j]), data, data');
      } else {
        FsOkInode(ibm, itab', dbm', data', i);
      }
    }
  }

  /** StoreContent on the loaded inode of a regular file keeps the kernel ready. */
  method StoreLoaded(k: Kernel, inode: Inode, inum: u32, content: seq<byte>) returns (r: FileResult)
    requires Ready(k) && Taken(k.fs.ibm, inum) && inum in k.inodeCache && k.inodeCache[inum] == inode
    requires !IsDir(Decode(k.fs.itab[inum])) && inode.Val() == Decode(k.fs.itab[inum]) && |content| <= U32 - BLOCKSIZE
    modifies k`inodeCache, inode, k.fs`data, k.fs`dbm, k.fs`itab, k.fs.disk.buf
    ensures k.inodeCache == old(k.inodeCache) && !r.FileError?
    ensures Cached(k) - {inum} == old(Cached(k)) - {inum}
    ensures r == FileTooBig <==> |content| > MAXSIZE
    ensures r == FilePanicked <==> (r != FileTooBig &&
      |Free(old(k.fs.dbm))| + Need(NBlocks(Decode(old(k.fs.itab)[inum]).size)) < Need(NBlocks(|content|)))
    ensures r == FileTooBig ==> k.fs.data == old(k.fs.data) && k.fs.dbm == old(k.fs.dbm) && k.fs.itab == old(k.fs.itab)
    ensures r != FilePanicked ==> Ready(k)
    ensures r == FileOk ==>
      FileSaved(k.fs.ibm, old(k.fs.itab), old(k.fs.dbm), old(k.fs.data), inum, content, k.fs.itab, k.fs.dbm, k.fs.data)
  {
    hide Cached, FsOk, Shows, Decode, Encode, Sound, WF, Free, Need, NBlocks, StoredAs, FileSaved, OwnerString, Bit,
      CacheOk, CacheFits;
    ghost var itab, dbm, data := k.fs.itab, k.fs.dbm, k.fs.data;
    FsOkInode(k.fs.ibm, itab, dbm, data, inum);
    ghost var c0 := Cached(k);
    CacheOkIff(k);
    CachedAre(k);
    r := StoreContent(k, inode, inum, content);
    OtherEntriesKept(k, c0, inum);
    CachedAre(k);
    CacheOkIff(k);
    if r == FileOk {
      StoringKeepsFsOk(k.fs.ibm, itab, dbm, data, inum, content, k.fs.itab, inode.Val(), k.fs.dbm, k.fs.data);
    }
    if r != FilePanicked {
      WrittenOutFits(k.fs.ibm, itab, c0, k.fs.itab, Cached(k), inum);
    }
  }

  /** Which outcome saving has: each if and only if its condition holds. */
  ghost predicate SaveOutcome(itab: InodeTable, dbm: DataBitmap, euid: Name, i: nat, content: seq<byte>, r: FileResult)
    requires i < INODES
  {
    && (r == FileError(EISDIR) <==> IsDir(Decode(itab[i])))
    && (r == FileError(EACCES) <==> !IsDir(Decode(itab[i])) && !CanWrite(euid, Decode(itab[i])))
    && (r.FileError? ==> r.error == EISDIR || r.error == EACCES)
    && (r == FileTooBig <==> !r.FileError? && |content| > MAXSIZE)
    && (r == FilePanicked <==> (!r.FileError? && r != FileTooBig &&
         |Free(dbm)| + Need(NBlocks(Decode(itab[i]).size)) < Need(NBlocks(|content|))))
  }

  /** What writeFile answers for a path that leads to inode i: EISDIR if and only if that is a directory, EACCES if and
      only if it is a file that the caller may not write, and otherwise neither. */
  lemma SaveReplyIs(itab: InodeTable, dbm: DataBitmap, euid: Name, i: nat, content: seq<byte>, r: FileResult)
    requires i < 8064 && SaveOutcome(itab, dbm, euid, i, content, r)
    ensures r == FileError(EISDIR) <==> Decode(itab[i]).fType == 1
    ensures r == FileError(EACCES) <==> Decode(itab[i]).fType != 1 && !MayWrite(euid, Decode(itab[i]))
    ensures r.FileError? ==> r.error == EISDIR || r.error == EACCES
    ensures r == FileTooBig <==> !r.FileError? && |content| > 12632064
  {
    hide Decode, CanWrite, OwnerString, Free, Need, NBlocks;
    PermissionsAre(euid, Decode(itab[i]));
  }

  /** The end of writeFile: checks, then the new content (computer/kernel.go:818-844). */
  method SaveFile(k: Kernel, euid: Name, inum: u32, content: seq<byte>) returns (r: FileResult)
    requires Ready(k) && Taken(k.fs.ibm, inum) && |content| <= U32 - BLOCKSIZE
    modifies k`inodeCache, k.fs`data, k.fs`dbm, k.fs`itab, k.fs.disk.buf
    modifies set i | i in k.inodeCache && i == inum :: k.inodeCache[i]
    ensures SaveOutcome(old(k.fs.itab), old(k.fs.dbm), euid, inum, content, r)
    ensures forall i :: i in k.inodeCache ==>
      (i in old(k.inodeCache) && k.inodeCache[i] == old(k.inodeCache)[i]) || fresh(k.inodeCache[i])
    ensures r.FileError? ==> OnlyLoaded(k.fs.ibm, k.fs.itab, old(Cached(k)), k.fs.ibm, Cached(k))
    ensures Cached(k) - {inum} == old(Cached(k)) - {inum}
    ensures r.FileError? || r == FileTooBig ==>
      k.fs.data == old(k.fs.data) && k.fs.dbm == old(k.fs.dbm) && k.fs.itab == old(k.fs.itab)
    ensures r != FilePanicked ==> Ready(k)
    ensures r == FileOk ==>
      FileSaved(k.fs.ibm, old(k.fs.itab), old(k.fs.dbm), old(k.fs.data), inum, content, k.fs.itab, k.fs.dbm, k.fs.data)
  {
    hide Ready, Shows, Decode, Free, Need, NBlocks, FileSaved, OwnerString, Bit, OnlyLoaded, Cached;
    var inode := Load(k, inum);
    if inode.fType == S_IFDIR {
      return FileError(EISDIR);
    }
    if !CanWrite(euid, inode.Val()) {
      return FileError(EACCES);
    }
    r := StoreLoaded(k, inode, inum, content);
  }

  datatype ReadResult = ReadOk(content: seq<byte>) | ReadError(error: Errno)

  /** What reading a path gives. */
  ghost function ReadOf(itab: InodeTable, data: Blocks, euid: Name, comps: seq<Name>): ReadResult
  {
    match Resolve(itab, data, euid, ROOTINUM, comps)
    case Failed(e) => ReadError(e)
    case Found(i) =>
      if i >= INODES || Decode(itab[i]).size > MAXSIZE then ReadError(EIO)
      else if IsDir(Decode(itab[i])) then ReadError(EISDIR)
      else if !CanRead(euid, Decode(itab[i])) then ReadError(EACCES)
      else ReadOk(Content(Decode(itab[i]), data))
  }

  /** fd.Read into a buffer of the file's size (computer/kernel.go:614-628). */
  method ReadWhole(k: Kernel, inode: Inode, inum: u32) returns (buf: array<byte>)
    requires k.Valid() && inum in k.inodeCache && k.inodeCache[inum] == inode && inum < INODES
    requires WF(inode.Val(), k.fs.data) && inode.size <= MAXSIZE
    modifies k`inodeCache
    ensures k.Valid() && k.inodeCache == old(k.inodeCache)
    ensures buf[..] == Content(inode.Val(), k.fs.data)
  {
    hide Shows, WF, Content, Decode, Fetched;
    buf := new byte[inode.size](_ => 0);
    if inode.size == 0 {
      return;
    }
    var fd := new FileFD(k, inum);
    var n, r := fd.Read(buf);
    ghost var how :| r == AsIo(how) &&
      Fetched(inode.Val(), k.fs.data, 0, ReadCount(inode.size, 0, buf.Length)) == Fetch(buf[..n], how);
    ReadInRange(inode.Val(), k.fs.data, 0, buf.Length, buf[..n], how);
    assert buf[..n] == buf[..];
  }

  /** readFile (computer/kernel.go:594-629) */
  method ReadFile(k: Kernel, euid: Name, comps: seq<Name>) returns (r: ReadResult)
    requires Ready(k)
    modifies k`inodeCache
    ensures Ready(k) && r == ReadOf(k.fs.itab, k.fs.data, euid, comps)
    ensures forall i :: i in k.inodeCache ==>
      (i in old(k.inodeCache) && k.inodeCache[i] == old(k.inodeCache)[i]) || fresh(k.inodeCache[i])
    ensures OnlyLoaded(k.fs.ibm, k.fs.itab, old(Cached(k)), k.fs.ibm, Cached(k))
  {
    hide FsOk, Shows, Decode, Sound, WF, Content, Resolve, OwnerString, Bit, OnlyLoaded, Cached;
    ghost var c0 := Cached(k);
    var p := ResolvePath(k, euid, comps);
    if p.Failed? {
      return ReadError(p.error);
    }
    FsOkInode(k.fs.ibm, k.fs.itab, k.fs.dbm, k.fs.data, p.inum);
    ghost var c1 := Cached(k);
    var inode := Load(k, p.inum);
    LoadedThenLoaded(k.fs.ibm, k.fs.itab, c0, c1, k.fs.ibm, Cached(k));
    if inode.fType == S_IFDIR {
      return ReadError(EISDIR);
    }
    if !CanRead(euid, inode.Val()) {
      return ReadError(EACCES);
    }
    var buf := ReadWhole(k, inode, p.inum);
    return ReadOk(buf[..]);
  }

  /** After writeFile the path reads back exactly what was written, by anyone who may read it,
      and every path to another file reads as before. */
  lemma WriteThenRead(ibm: InodeBitmap, itab: InodeTable, dbm: DataBitmap, data: Blocks, i: u32, content: seq<byte>,
                      itab': InodeTable, dbm': DataBitmap, data': Blocks, euid: Name, comps: seq<Name>)
    requires FsOk(ibm, itab, dbm, data) && Taken(ibm, i) && !IsDir(Decode(itab[i]))
    requires FileSaved(ibm, itab, dbm, data, i, content, itab', dbm', data')
    ensures Resolve(itab', data', euid, ROOTINUM, comps) == Resolve(itab, data, euid, ROOTINUM, comps)
    ensures Resolve(itab, data, euid, ROOTINUM, comps) == Found(i) && CanRead(euid, Decode(itab[i])) ==>
      ReadOf(itab', data', euid, comps) == ReadOk(content)
    ensures Resolve(itab, data, euid, ROOTINUM, comps) != Found(i) ==>
      ReadOf(itab', data', euid, comps) == ReadOf(itab, data, euid, comps)
  {
    hide Decode, Resolve, Content, WF, OwnerString, Bit, Rewritten;
    FsOkHasFirst(ibm, itab, dbm, data);
    ResolveSame(ibm, itab, dbm, data, itab', data', euid, ROOTINUM, comps);
    var p := Resolve(itab, data, euid, ROOTINUM, comps);
    if p.Found? && p.inum != i {
      ResolveIsTaken(ibm, itab, dbm, data, euid, ROOTINUM, comps);
      FsOkInode(ibm, itab, dbm, data, p.inum);
      UntouchedContent(Decode(itab[p.inum]), data, data');
    }
  }

  lemma {:induction false} ResolveIsTaken(ibm: InodeBitmap, itab: InodeTable, dbm: DataBitmap, data: Blocks, euid: Name,
                                          i: u32, comps: seq<Name>)
    requires FsOk(ibm, itab, dbm, data) && Taken(ibm, i)
    ensures var r := Resolve(itab, data, euid, i, comps); r.Found? ==> Taken(ibm, r.inum)
    decreases comps
  {
    hide FsOk, DirSound, Slots, Entries, Decode, NBlocks, Lookup, OwnerString;
    FsOkInode(ibm, itab, dbm, data, i);
    if comps != [] && IsDir(Decode(itab[i])) {
      FoundIsTaken(Decode(itab[i]), data, ibm, comps[0]);
      var r := Lookup(Entries(Slots(Decode(itab[i]), data)), comps[0]);
      if r.Some? {
        ResolveIsTaken(ibm, itab, dbm, data, euid, r.value, comps[1..]);
      }
    }
  }

  // ---------- creating ----------

  /** The lowest free inode i now holds the record v and is entered under `name` in slot q of directory p. */
  ghost predicate MadeEntry(ibm: InodeBitmap, itab: InodeTable, dbm: DataBitmap, data: Blocks, p: nat, name: Name,
                            i: u32, v: Ino, q: nat, ibm': InodeBitmap, itab': InodeTable, dbm': DataBitmap,
                            data': Blocks)
  {
    && p < INODES && i < INODES && p != i
    && LowestFree(ibm, i) && ROOTINUM < i && InodeAdded(ibm, ibm', i)
    && Decode(itab'[i]) == v
    && (forall j :: 0 <= j < INODES && j != i && j != p ==> itab'[j] == itab[j])
    && EntryAdded(Decode(itab[p]), data, dbm, DirEntry(i, name), Decode(itab'[p]), data', dbm', q)
    && OthersKept(ibm, itab, data, data', p)
  }

  lemma MadeAssembles(ibm: InodeBitmap, itab: InodeTable, dbm: DataBitmap, data: Blocks, p: nat, name: Name, i: u32,
                      v: Ino, q: nat, ibm': InodeBitmap, itab1: InodeTable, itab': InodeTable, dbm': DataBitmap,
                      data': Blocks)
    requires LowestFree(ibm, i) && ROOTINUM < i && InodeAdded(ibm, ibm', i) && Taken(ibm, p)
    requires RecordSet(itab, itab1, i, v) && RecordSet(itab1, itab', p, Decode(itab'[p]))
    requires EntryAdded(Decode(itab1[p]), data, dbm, DirEntry(i, name), Decode(itab'[p]), data', dbm', q)
    requires OthersKept(ibm', itab1, data, data', p)
    ensures MadeEntry(ibm, itab, dbm, data, p, name, i, v, q, ibm', itab', dbm', data')
  {
    hide Decode, EntryAdded, Untouched;
  }

  /** Which outcome making an inode has, given room in the parent par or a clean next block; `extra` blocks are for what
      the new inode itself is given. Each if and only if its condition holds. */
  ghost predicate MakeOutcome(ibm: InodeBitmap, par: Ino, data: Blocks, dbm: DataBitmap, name: Name, extra: nat,
                              r: MakeResult)
  {
    var full := FullBelow(ibm, INODES);
    var fits := BlocksToLink(par, data) + extra <= |Free(dbm)|;
    && (r.Made? <==> !full && |name| <= MAXNAME && MayGrow(par, data) && fits)
    && (r.NoInodes? <==> full)
    && (r.LinkFailed? && r.why.BadEntry? <==> !full && |name| > MAXNAME)
    && (r.LinkFailed? && r.why.BadEntry? ==> r.why.why == NameTooLong)
    && (r == LinkFailed(DirTooBig) <==> !full && |name| <= MAXNAME && !MayGrow(par, data))
    && (r == LinkFailed(DirPanicked) <==> !full && |name| <= MAXNAME && MayGrow(par, data) && !fits)
  }

  /** What a failure after the allocation leaves: an inode that is taken and in no directory, and nothing else
      changed. */
  ghost predicate Leaked(ibm: InodeBitmap, itab: InodeTable, dbm: DataBitmap, data: Blocks, v: Ino,
                         ibm': InodeBitmap, itab': InodeTable, dbm': DataBitmap, data': Blocks)
  {
    dbm' == dbm && data' == data &&
    exists i: nat :: LowestFree(ibm, i) && ROOTINUM as nat < i && InodeAdded(ibm, ibm', i) &&
      RecordSet(itab, itab', i, v)
  }

  /** The state after a failed creation of v: as before, or with one inode leaked. A full disk is a panic in the source
      and leaves nothing to be said. */
  ghost predicate Failure(ibm: InodeBitmap, itab: InodeTable, dbm: DataBitmap, data: Blocks, v: Ino, r: MakeResult,
                          ibm': InodeBitmap, itab': InodeTable, dbm': DataBitmap, data': Blocks)
  {
    && (r.NoInodes? ==> ibm' == ibm && itab' == itab && dbm' == dbm && data' == data)
    && (r.LinkFailed? && r.why != DirPanicked ==> Leaked(ibm, itab, dbm, data, v, ibm', itab', dbm', data'))
  }

  /** makeInode up to the entry in the parent (computer/kernel.go:261-284). */
  method MakeNode(k: Kernel, parent: u32, name: Name, v: Ino) returns (r: MakeResult, ghost q: nat)
    requires Ready(k) && Taken(k.fs.ibm, parent) && IsDir(Decode(k.fs.itab[parent])) && v.size == 0 && HasOps(v)
    requires GrowsClean(Decode(k.fs.itab[parent]), k.fs.data, k.fs.dbm)
    modifies k`inodeCache, k.fs`data, k.fs`dbm, k.fs`itab, k.fs`ibm, k.fs.disk.buf
    ensures MakeOutcome(old(k.fs.ibm), Decode(old(k.fs.itab)[parent]), old(k.fs.data), old(k.fs.dbm), name, 0, r)
    ensures Failure(old(k.fs.ibm), old(k.fs.itab), old(k.fs.dbm), old(k.fs.data), v, r, k.fs.ibm, k.fs.itab, k.fs.dbm,
                    k.fs.data)
    ensures r == LinkFailed(DirPanicked) || Ready(k)
    ensures forall i :: i in k.inodeCache ==> i in old(k.inodeCache) && k.inodeCache[i] == old(k.inodeCache)[i]
    ensures OnlyLoaded(old(k.fs.ibm), old(k.fs.itab), old(Cached(k)), k.fs.ibm, Cached(k))
    ensures r.Made? ==> Taken(k.fs.ibm, r.inum) && k.inodeCache == old(k.inodeCache) - {r.inum}
    ensures r.Made? ==> MadeEntry(old(k.fs.ibm), old(k.fs.itab), old(k.fs.dbm), old(k.fs.data), parent, name, r.inum, v,
                                  q,
                                  k.fs.ibm, k.fs.itab, k.fs.dbm, k.fs.data)
    ensures r.Made? && old(FreeBlocksClean(k.fs.dbm, k.fs.data)) ==> FreeBlocksClean(k.fs.dbm, k.fs.data)
  {
    hide FsOk, Shows, Decode, FullBelow, EntryAdded, FreeBlocksClean, GrowsClean, OthersKept, MadeEntry, CacheOk,
      OnlyLoaded, Cached;
    ghost var ibm, itab, dbm, data := k.fs.ibm, k.fs.itab, k.fs.dbm, k.fs.data;
    var inum, ok := NewInode(k, v);
    q := 0;
    if !ok {
      return NoInodes, 0;
    }
    ghost var itab1 := k.fs.itab;
    var a;
    a, q := Link(k, parent, DirEntry(inum, name));
    if a != Added {
      return LinkFailed(a), 0;
    }
    MadeAssembles(ibm, itab, dbm, data, parent, name, inum, v, q, k.fs.ibm, itab1, k.fs.itab, k.fs.dbm, k.fs.data);
    return Made(inum), q;
  }

  /** The record and the listing of a new directory with its two dot entries, in the one block that first fit hands
      out. */
  ghost predicate FreshDir(v: Ino, dbm: DataBitmap, data: Blocks, i: u32, parent: u32, ino': Ino, dbm': DataBitmap,
                           data': Blocks)
  {
    && NBlocks(ino'.size) == 1 && SlotBlock(ino', data', 0) == NextBlock(dbm, 0)
    && Rewritten(v, data, dbm, ino'.size, ino', data', dbm')
    && Compact(Slots(ino', data'), 2) && DirOk(Slots(ino', data'))
    && Entries(Slots(ino', data')) == [DirEntry(i, DOT), DirEntry(parent, DOTDOT)]
  }

  lemma DotsAssemble(v: Ino, dbm: DataBitmap, data: Blocks, i: u32, parent: u32, ino1: Ino, dbm1: DataBitmap,
                     data1: Blocks, q1: nat, ino2: Ino, dbm2: DataBitmap, data2: Blocks, q2: nat)
    requires v.size == 0 && Sound(v, data, dbm) && Sound(ino1, data1, dbm1) && i != 0 && parent != 0
    requires NextEntries(data, dbm, 0) == []
    requires EntryAdded(v, data, dbm, DirEntry(i, DOT), ino1, data1, dbm1, q1)
    requires EntryAdded(ino1, data1, dbm1, DirEntry(parent, DOTDOT), ino2, data2, dbm2, q2)
    requires NBlocks(ino2.size) <= MAXBLOCKS && DirOk(Slots(ino2, data2))
    ensures FreshDir(v, dbm, data, i, parent, ino2, dbm2, data2)
  {
    hide NextEntries, Sound, Rewritten, AddedInPlace, GrewAndAdded, Slots;
    EmptyInode(v, data);
    assert Compact(Slots(v, data), 0) && Entries(Slots(v, data)) == [];
    AddedToCompact(v, data, dbm, DirEntry(i, DOT), ino1, data1, dbm1, q1, 0);
    OneSlotLeavesRoom(v, data, dbm, DirEntry(i, DOT), ino1, data1, dbm1, q1);
    AddedToCompact(ino1, data1, dbm1, DirEntry(parent, DOTDOT), ino2, data2, dbm2, q2, 1);
    EntryAddedRewrites(v, data, dbm, DirEntry(i, DOT), ino1, data1, dbm1, q1);
    EntryAddedRewrites(ino1, data1, dbm1, DirEntry(parent, DOTDOT), ino2, data2, dbm2, q2);
    FirstBlock(v, data, dbm, DirEntry(i, DOT), ino1, data1, dbm1, q1);
    SecondInPlace(ino1, data1, dbm1, DirEntry(parent, DOTDOT), ino2, data2, dbm2, q2);
    RewrittenTwice(v, data, dbm, ino1, data1, dbm1, ino2, data2, dbm2);
  }

  /** The first entry of an empty directory is in the block that first fit hands out. */
  lemma FirstBlock(v: Ino, data: Blocks, dbm: DataBitmap, e: DirEntry, ino1: Ino, data1: Blocks, dbm1: DataBitmap,
                   q: nat)
    requires v.size == 0 && EntryAdded(v, data, dbm, e, ino1, data1, dbm1, q)
    ensures NBlocks(ino1.size) == 1 && SlotBlock(ino1, data1, 0) == NextBlock(dbm, 0)
  {
    hide Slots, NextBlock, Rewritten, SlotBlock, NBlocks;
    EmptyInode(v, data);
  }

  lemma SecondInPlace(ino: Ino, data: Blocks, dbm: DataBitmap, e: DirEntry, ino': Ino, data': Blocks, dbm': DataBitmap,
                      q: nat)
    requires EntryAdded(ino, data, dbm, e, ino', data', dbm', q) && Room(ino, data) && NBlocks(ino.size) == 1
    ensures ino' == ino && SlotBlock(ino', data', 0) == SlotBlock(ino, data, 0)
  {
    hide Slots, SlotBlock, NBlocks;
    assert LiveSlot(ino, 0);
  }

  /** The first entry of an empty directory leaves 63 free slots. */
  lemma OneSlotLeavesRoom(v: Ino, data: Blocks, dbm: DataBitmap, e: DirEntry, ino1: Ino, data1: Blocks,
                          dbm1: DataBitmap, q: nat)
    requires v.size == 0 && Sound(v, data, dbm) && NextEntries(data, dbm, 0) == [] && e.inum != 0
    requires EntryAdded(v, data, dbm, e, ino1, data1, dbm1, q)
    ensures Room(ino1, data1)
  {
    hide NextEntries, Sound, Rewritten, AddedInPlace, GrewAndAdded, Slots;
    EmptyInode(v, data);
    assert Compact(Slots(v, data), 0);
    AddedToCompact(v, data, dbm, e, ino1, data1, dbm1, q, 0);
    EntryAddedRewrites(v, data, dbm, e, ino1, data1, dbm1, q);
    WFBound(ino1, data1);
    assert IsFree(Slots(ino1, data1)[1]);
  }

  /** "." and ".." of a fresh directory (computer/kernel.go:286-294). */
  method LinkDots(k: Kernel, inum: u32, parent: u32) returns (r: AddResult)
    requires Ready(k) && Taken(k.fs.ibm, inum) && Taken(k.fs.ibm, parent) && inum != 0 && parent != 0
    requires IsDir(Decode(k.fs.itab[inum])) && Decode(k.fs.itab[inum]).size == 0
    requires NextEntries(k.fs.data, k.fs.dbm, 0) == []
    modifies k.fs`data, k.fs`dbm, k.fs`itab, k.fs.disk.buf
    ensures r == (if |Free(old(k.fs.dbm))| >= 1 then Added else DirPanicked)
    ensures r == Added ==>
      Ready(k) && (old(FreeBlocksClean(k.fs.dbm, k.fs.data)) ==> FreeBlocksClean(k.fs.dbm, k.fs.data))
    ensures r == Added ==> RecordSet(old(k.fs.itab), k.fs.itab, inum, Decode(k.fs.itab[inum]))
    ensures r == Added ==> FreshDir(Decode(old(k.fs.itab)[inum]), old(k.fs.dbm), old(k.fs.data), inum, parent,
                                    Decode(k.fs.itab[inum]), k.fs.dbm, k.fs.data)
    ensures r == Added ==> OthersKept(k.fs.ibm, old(k.fs.itab), old(k.fs.data), k.fs.data, inum)
  {
    hide Ready, Shows, Decode, FreeBlocksClean, NextEntries, Room, EntryAdded, Sound, WF, OthersKept, FreshDir, Free;
    ghost var ibm, itab, dbm, data := k.fs.ibm, k.fs.itab, k.fs.dbm, k.fs.data;
    ghost var q1, q2;
    ReadyInode(k, inum);
    EmptyInode(Decode(itab[inum]), data);
    EmptyDirTakesOne(Decode(itab[inum]), data);
    r, q1 := Link(k, inum, DirEntry(inum, DOT));
    if r != Added {
      return;
    }
    ghost var itab1, dbm1, data1 := k.fs.itab, k.fs.dbm, k.fs.data;
    ReadyInode(k, inum);
    SameDir(Decode(itab[inum]), data, dbm, DirEntry(inum, DOT), Decode(itab1[inum]), data1, dbm1, q1);
    OneSlotLeavesRoom(Decode(itab[inum]), data, dbm, DirEntry(inum, DOT), Decode(itab1[inum]), data1, dbm1, q1);
    r, q2 := Link(k, inum, DirEntry(parent, DOTDOT));
    if r != Added {
      return;
    }
    SameDir(Decode(itab1[inum]), data1, dbm1, DirEntry(parent, DOTDOT), Decode(k.fs.itab[inum]), k.fs.data, k.fs.dbm,
            q2);
    ReadyDir(k, inum);
    DotsAssemble(Decode(itab[inum]), dbm, data, inum, parent, Decode(itab1[inum]), dbm1, data1, q1,
                 Decode(k.fs.itab[inum]), k.fs.dbm, k.fs.data, q2);
    OthersKeptTwice(ibm, itab, itab1, data, data1, k.fs.data, inum);
  }

  lemma ReadyInode(k: Kernel, i: nat)
    requires Ready(k) && Taken(k.fs.ibm, i)
    ensures i < INODES && Sound(Decode(k.fs.itab[i]), k.fs.data, k.fs.dbm) && k.Valid()
  {
    FsOkInode(k.fs.ibm, k.fs.itab, k.fs.dbm, k.fs.data, i);
  }

  lemma ReadyDir(k: Kernel, i: nat)
    requires Ready(k) && Taken(k.fs.ibm, i)
    ensures i < INODES && NBlocks(Decode(k.fs.itab[i]).size) <= MAXBLOCKS
    ensures IsDir(Decode(k.fs.itab[i])) ==> DirOk(Slots(Decode(k.fs.itab[i]), k.fs.data))
  {
    FsOkInode(k.fs.ibm, k.fs.itab, k.fs.dbm, k.fs.data, i);
  }

  lemma SameDir(ino: Ino, data: Blocks, dbm: DataBitmap, e: DirEntry, ino': Ino, data': Blocks, dbm': DataBitmap,
                q: nat)
    requires Sound(ino, data, dbm) && EntryAdded(ino, data, dbm, e, ino', data', dbm', q)
    ensures IsDir(ino') == IsDir(ino)
  {
    EntryAddedRewrites(ino, data, dbm, e, ino', data', dbm', q);
  }

  lemma OthersKeptTwice(ibm: InodeBitmap, itab: InodeTable, itab1: InodeTable, data: Blocks, data1: Blocks,
                        data2: Blocks, i: nat)
    requires OthersKept(ibm, itab, data, data1, i) && OthersKept(ibm, itab1, data1, data2, i)
    requires forall j :: 0 <= j < INODES && j != i ==> itab1[j] == itab[j]
    ensures OthersKept(ibm, itab, data, data2, i)
  {
    forall j: nat | Taken(ibm, j) && j != i ensures Untouched(Decode(itab[j]), data, data2) {
      assert Untouched(Decode(itab[j]), data, data1) && Untouched(Decode(itab1[j]), data1, data2);
    }
  }

  /** The outcome of makeInode. For a directory the dot entries follow the entry in the parent. */
  ghost predicate MadeInode(ibm: InodeBitmap, itab: InodeTable, dbm: DataBitmap, data: Blocks, p: nat, name: Name,
                            i: u32, v: Ino, q: nat, ibm': InodeBitmap, itab': InodeTable, dbm': DataBitmap,
                            data': Blocks)
  {
    if !IsDir(v) then MadeEntry(ibm, itab, dbm, data, p, name, i, v, q, ibm', itab', dbm', data')
    else p < U32 && exists itab1, dbm1, data1 ::
      && MadeEntry(ibm, itab, dbm, data, p, name, i, v, q, ibm', itab1, dbm1, data1)
      && RecordSet(itab1, itab', i, Decode(itab'[i]))
      && FreshDir(v, dbm1, data1, i, p, Decode(itab'[i]), dbm', data')
      && OthersKept(ibm', itab1, data1, data', i)
  }

  /** makeInode (computer/kernel.go:258-297) */
  method MakeInode(k: Kernel, parent: u32, name: Name, v: Ino) returns (r: MakeResult, ghost q: nat)
    requires Ready(k) && Taken(k.fs.ibm, parent) && IsDir(Decode(k.fs.itab[parent])) && v.size == 0 && HasOps(v)
    requires parent != 0
    requires GrowsClean(Decode(k.fs.itab[parent]), k.fs.data, k.fs.dbm)
    requires IsDir(v) ==> DotsClean(Decode(k.fs.itab[parent]), k.fs.data, k.fs.dbm)
    modifies k`inodeCache, k.fs`data, k.fs`dbm, k.fs`itab, k.fs`ibm, k.fs.disk.buf
    ensures MakeOutcome(old(k.fs.ibm), Decode(old(k.fs.itab)[parent]), old(k.fs.data), old(k.fs.dbm), name,
                        B2N(IsDir(v)), r)
    ensures Failure(old(k.fs.ibm), old(k.fs.itab), old(k.fs.dbm), old(k.fs.data), v, r, k.fs.ibm, k.fs.itab, k.fs.dbm,
                    k.fs.data)
    ensures r == LinkFailed(DirPanicked) || Ready(k)
    ensures forall i :: i in k.inodeCache ==> i in old(k.inodeCache) && k.inodeCache[i] == old(k.inodeCache)[i]
    ensures OnlyLoaded(old(k.fs.ibm), old(k.fs.itab), old(Cached(k)), k.fs.ibm, Cached(k))
    ensures r.Made? ==> Taken(k.fs.ibm, r.inum) && k.inodeCache == old(k.inodeCache) - {r.inum}
    ensures r.Made? ==> MadeInode(old(k.fs.ibm), old(k.fs.itab), old(k.fs.dbm), old(k.fs.data), parent, name, r.inum, v,
                                  q,
                                  k.fs.ibm, k.fs.itab, k.fs.dbm, k.fs.data)
    ensures r.Made? && old(FreeBlocksClean(k.fs.dbm, k.fs.data)) ==> FreeBlocksClean(k.fs.dbm, k.fs.data)
  {
    hide Ready, Shows, Decode, FullBelow, FreeBlocksClean, GrowsClean, DotsClean, NextEntries, Room, OthersKept,
      MadeEntry, FreshDir, RecordSet, Sound, Free, MayGrow, BlocksToLink, OnlyLoaded, Cached;
    ghost var ibm, itab, dbm, data := k.fs.ibm, k.fs.itab, k.fs.dbm, k.fs.data;
    ReadyInode(k, parent);
    r, q := MakeNode(k, parent, name, v);
    if r.Made? && v.fType == S_IFDIR {
      ghost var itab1, dbm1, data1 := k.fs.itab, k.fs.dbm, k.fs.data;
      MadeFacts(ibm, itab, dbm, data, parent, name, r.inum, v, q, k.fs.ibm, itab1, dbm1, data1);
      MadeTakes(ibm, itab, dbm, data, parent, name, r.inum, v, q, k.fs.ibm, itab1, dbm1, data1);
      MadeThenNext(ibm, itab, dbm, data, parent, name, r.inum, v, q, k.fs.ibm, itab1, dbm1, data1);
      var a := LinkDots(k, r.inum, parent);
      if a != Added {
        return LinkFailed(a), q;
      }
    }
  }

  lemma ParentIsWF(ibm: InodeBitmap, itab: InodeTable, dbm: DataBitmap, data: Blocks, p: nat, name: Name, i: u32,
                   v: Ino, q: nat, ibm': InodeBitmap, itab': InodeTable, dbm': DataBitmap, data': Blocks)
    requires FsOk(ibm, itab, dbm, data) && Taken(ibm, p)
    requires MadeEntry(ibm, itab, dbm, data, p, name, i, v, q, ibm', itab', dbm', data')
    ensures WF(Decode(itab'[p]), data')
  {
    hide FsOk, Decode, EntryAdded, OthersKept, LowestFree;
    FsOkInode(ibm, itab, dbm, data, p);
    EntryAddedRewrites(Decode(itab[p]), data, dbm, DirEntry(i, name), Decode(itab'[p]), data', dbm', q);
  }

  lemma StaysWF(ino: Ino, data: Blocks, data': Blocks)
    requires WF(ino, data) && Untouched(ino, data, data')
    ensures WF(ino, data')
  {
  }

  lemma MadeTakes(ibm: InodeBitmap, itab: InodeTable, dbm: DataBitmap, data: Blocks, p: nat, name: Name, i: u32, v: Ino,
                  q: nat, ibm': InodeBitmap, itab': InodeTable, dbm': DataBitmap, data': Blocks)
    requires MadeEntry(ibm, itab, dbm, data, p, name, i, v, q, ibm', itab', dbm', data')
    requires Sound(Decode(itab[p]), data, dbm)
    ensures |Free(dbm')| + BlocksToLink(Decode(itab[p]), data) == |Free(dbm)|
  {
    hide Decode, EntryAdded, Free, Sound;
    FreeAfterLink(Decode(itab[p]), data, dbm, DirEntry(i, name), Decode(itab'[p]), data', dbm', q);
  }

  lemma MadeThenNext(ibm: InodeBitmap, itab: InodeTable, dbm: DataBitmap, data: Blocks, p: nat, name: Name, i: u32,
                     v: Ino, q: nat, ibm': InodeBitmap, itab': InodeTable, dbm': DataBitmap, data': Blocks)
    requires MadeEntry(ibm, itab, dbm, data, p, name, i, v, q, ibm', itab', dbm', data')
    requires Sound(Decode(itab[p]), data, dbm)
    requires DotsClean(Decode(itab[p]), data, dbm)
    ensures NextEntries(data', dbm', 0) == []
  {
    hide Decode, EntryAdded, Sound, DotsClean, NextEntries, OthersKept, LowestFree;
    NextAfterLink(Decode(itab[p]), data, dbm, DirEntry(i, name), Decode(itab'[p]), data', dbm', q);
  }

  lemma MadeFacts(ibm: InodeBitmap, itab: InodeTable, dbm: DataBitmap, data: Blocks, p: nat, name: Name, i: u32, v: Ino,
                  q: nat, ibm': InodeBitmap, itab': InodeTable, dbm': DataBitmap, data': Blocks)
    requires MadeEntry(ibm, itab, dbm, data, p, name, i, v, q, ibm', itab', dbm', data')
    ensures i < INODES && i != p && ROOTINUM < i && Decode(itab'[i]) == v && Taken(ibm', i)
    ensures !Taken(ibm, i) && (Taken(ibm, p) ==> Taken(ibm', p))
  {
  }

  datatype CreateResult = Existed | Created(inum: u32) | CreateError(error: Errno) | MakeError(why: MakeResult)

  /** path.Dir and path.Base of a clean path other than the root. */
  function DirOf(comps: seq<Name>): seq<Name>
    requires comps != []
  {
    comps[..|comps| - 1]
  }

  function BaseOf(comps: seq<Name>): Name
    requires comps != []
  {
    comps[|comps| - 1]
  }

  /** Where the new entry goes: the parent's inode if the path may be created there, the error otherwise. */
  ghost function ParentFor(itab: InodeTable, data: Blocks, euid: Name, comps: seq<Name>): PathResult
    requires comps != []
  {
    match Resolve(itab, data, euid, ROOTINUM, DirOf(comps))
    case Failed(e) => PathResult.Failed(e)
    case Found(p) =>
      if p >= INODES then PathResult.Failed(EIO)
      else if !IsDir(Decode(itab[p])) then PathResult.Failed(ENOTDIR)
      else if !CanWrite(euid, Decode(itab[p])) then PathResult.Failed(EACCES)
      else Found(p)
  }

  /** The parent has a free slot. */
  ghost predicate ParentHasRoom(itab: InodeTable, data: Blocks, euid: Name, comps: seq<Name>)
  {
    comps != [] ==>
      var r := ParentFor(itab, data, euid, comps);
      r.Found? ==> r.inum < INODES && Room(Decode(itab[r.inum]), data)
  }

  /** The parent, if it has to grow, grows into a block without entries; and so does a new directory after it. */
  ghost predicate CleanTarget(itab: InodeTable, data: Blocks, dbm: DataBitmap, euid: Name, comps: seq<Name>, dir: bool)
  {
    comps != [] ==>
      var r := ParentFor(itab, data, euid, comps);
      r.Found? ==>
        && r.inum < INODES && GrowsClean(Decode(itab[r.inum]), data, dbm)
        && (dir ==> DotsClean(Decode(itab[r.inum]), data, dbm))
  }

  /** That is so when all free blocks are clean, and for a parent with a free slot when the next block is. */
  lemma CleanTargets(k: Kernel, euid: Name, comps: seq<Name>, dir: bool)
    requires Ready(k)
    ensures FreeBlocksClean(k.fs.dbm, k.fs.data) ==> CleanTarget(k.fs.itab, k.fs.data, k.fs.dbm, euid, comps, dir)
    ensures ParentHasRoom(k.fs.itab, k.fs.data, euid, comps) && (dir ==> NextEntries(k.fs.data, k.fs.dbm, 0) == []) ==>
      CleanTarget(k.fs.itab, k.fs.data, k.fs.dbm, euid, comps, dir)
  {
    hide FreeBlocksClean, DotsClean, NextEntries, Room, Resolve, Decode, OwnerString, HighBitsSet, Shows, CacheOk,
      DirSound;
    if comps != [] && ParentFor(k.fs.itab, k.fs.data, euid, comps).Found? {
      var p := ParentFor(k.fs.itab, k.fs.data, euid, comps).inum;
      if FreeBlocksClean(k.fs.dbm, k.fs.data) {
        AllCleanGrowsClean(Decode(k.fs.itab[p]), k.fs.data, k.fs.dbm);
      }
      if Room(Decode(k.fs.itab[p]), k.fs.data) && NextEntries(k.fs.data, k.fs.dbm, 0) == [] {
        RoomDotsClean(Decode(k.fs.itab[p]), k.fs.data, k.fs.dbm);
      }
    }
  }

  /** Which outcome creating a path that does not resolve has. */
  ghost predicate CreateOutcome(ibm: InodeBitmap, itab: InodeTable, data: Blocks, dbm: DataBitmap, euid: Name,
                                comps: seq<Name>, extra: nat, r: CreateResult)
    requires comps != []
  {
    match ParentFor(itab, data, euid, comps)
    case Failed(e) => r == CreateError(e)
    case Found(p) =>
      p < INODES &&
      exists m :: MakeOutcome(ibm, Decode(itab[p]), data, dbm, BaseOf(comps), extra, m) &&
        r == if m.Made? then Created(m.inum) else MakeError(m)
  }

  /** The parent's inode, and the checks on it (computer/kernel.go:744-757, 772-785). */
  method CheckParent(k: Kernel, euid: Name, comps: seq<Name>) returns (r: PathResult)
    requires Ready(k) && comps != []
    modifies k`inodeCache
    ensures Ready(k) && r == ParentFor(k.fs.itab, k.fs.data, euid, comps)
    ensures r.Found? ==> Taken(k.fs.ibm, r.inum) && r.inum != 0 && IsDir(Decode(k.fs.itab[r.inum]))
    ensures r.Found? ==> r.inum in Cached(k)
    ensures ROOTINUM in Cached(k) && OnlyLoaded(k.fs.ibm, k.fs.itab, old(Cached(k)), k.fs.ibm, Cached(k))
    ensures forall i :: i in old(k.inodeCache) ==> i in k.inodeCache && k.inodeCache[i] == old(k.inodeCache)[i]
    ensures forall i :: i in k.inodeCache && i !in old(k.inodeCache) ==> fresh(k.inodeCache[i])
  {
    hide Ready, Shows, Decode, Resolve, OwnerString, Bit, OnlyLoaded, Cached;
    ghost var c0 := Cached(k);
    var pr := ResolvePath(k, euid, DirOf(comps));
    if pr.Failed? {
      return PathResult.Failed(pr.error);
    }
    ReadyHasRoot(k);
    NotZero(k, euid, DirOf(comps));
    ghost var c1 := Cached(k);
    var parentIn := Load(k, pr.inum);
    StaysCached(k.fs.ibm, k.fs.itab, c1, k.fs.ibm, Cached(k), ROOTINUM);
    ReadyHasInode(k, pr.inum);
    CachedHas(k, pr.inum);
    LoadedThenLoaded(k.fs.ibm, k.fs.itab, c0, c1, k.fs.ibm, Cached(k));
    if parentIn.fType != S_IFDIR {
      return PathResult.Failed(ENOTDIR);
    }
    if !CanWrite(euid, parentIn.Val()) {
      return PathResult.Failed(EACCES);
    }
    return Found(pr.inum);
  }

  lemma ReadyHasInode(k: Kernel, i: u32)
    requires Ready(k) && Taken(k.fs.ibm, i)
    ensures i < INODES
  {
    hide Shows;
    FsOkInode(k.fs.ibm, k.fs.itab, k.fs.dbm, k.fs.data, i);
  }

  /** From resolving the parent to makeInode (computer/kernel.go:744-760, 772-788). */
  method CreateAt(k: Kernel, euid: Name, comps: seq<Name>, v: Ino) returns (r: CreateResult, ghost q: nat)
    requires Ready(k) && comps != [] && v.size == 0 && HasOps(v)
    requires CleanTarget(k.fs.itab, k.fs.data, k.fs.dbm, euid, comps, IsDir(v))
    modifies k`inodeCache, k.fs`data, k.fs`dbm, k.fs`itab, k.fs`ibm, k.fs.disk.buf
    ensures r != Existed
    ensures var p := ParentFor(old(k.fs.itab), old(k.fs.data), euid, comps);
      r.Created? ==> (p.Found? && MadeInode(old(k.fs.ibm), old(k.fs.itab), old(k.fs.dbm), old(k.fs.data), p.inum,
                                            BaseOf(comps), r.inum, v, q,
                                            k.fs.ibm, k.fs.itab, k.fs.dbm, k.fs.data))
    ensures CreateOutcome(old(k.fs.ibm), old(k.fs.itab), old(k.fs.data), old(k.fs.dbm), euid, comps, B2N(IsDir(v)), r)
    ensures r.MakeError? ==>
      Failure(old(k.fs.ibm), old(k.fs.itab), old(k.fs.dbm), old(k.fs.data), v, r.why, k.fs.ibm, k.fs.itab, k.fs.dbm,
              k.fs.data)
    ensures r.Created? ==> Taken(k.fs.ibm, r.inum) && r.inum !in k.inodeCache
    ensures forall i :: i in k.inodeCache ==>
      (i in old(k.inodeCache) && k.inodeCache[i] == old(k.inodeCache)[i]) || fresh(k.inodeCache[i])
    ensures OnlyLoaded(old(k.fs.ibm), old(k.fs.itab), old(Cached(k)), k.fs.ibm, Cached(k))
    ensures ROOTINUM in Cached(k)
    ensures r.Created? ==> ParentFor(old(k.fs.itab), old(k.fs.data), euid, comps).inum in Cached(k)
    ensures r.CreateError? ==>
      k.fs.ibm == old(k.fs.ibm) && k.fs.itab == old(k.fs.itab) && k.fs.dbm == old(k.fs.dbm) &&
        k.fs.data == old(k.fs.data)
    ensures r == MakeError(LinkFailed(DirPanicked)) || Ready(k)
    ensures r.Created? && old(FreeBlocksClean(k.fs.dbm, k.fs.data)) ==> FreeBlocksClean(k.fs.dbm, k.fs.data)
  {
    hide FsOk, Shows, Decode, Resolve, FreeBlocksClean, GrowsClean, DotsClean, MadeInode, OwnerString, Bit, FullBelow,
      OnlyLoaded, Cached, Ready, ParentFor, MakeOutcome;
    q := 0;
    ghost var ibm, itab, c0 := k.fs.ibm, k.fs.itab, Cached(k);
    var p := CheckParent(k, euid, comps);
    if p.Failed? {
      return CreateError(p.error), 0;
    }
    ghost var c1 := Cached(k);
    ReadyHasRoot(k);
    var m;
    m, q := MakeInode(k, p.inum, BaseOf(comps), v);
    StaysCached(ibm, itab, c1, k.fs.ibm, Cached(k), ROOTINUM);
    StaysCached(ibm, itab, c1, k.fs.ibm, Cached(k), p.inum);
    LoadedThenLoaded(ibm, itab, c0, c1, k.fs.ibm, Cached(k));
    r := if m.Made? then Created(m.inum) else MakeError(m);
  }

  /** No path leads to inode 0. */
  lemma NotZero(k: Kernel, euid: Name, comps: seq<Name>)
    requires Ready(k)
    ensures var r := Resolve(k.fs.itab, k.fs.data, euid, ROOTINUM, comps); r.Found? ==> r.inum != 0
  {
    hide Shows, Decode;
    FsOkHasFirst(k.fs.ibm, k.fs.itab, k.fs.dbm, k.fs.data);
    ResolveNotZero(k.fs.ibm, k.fs.itab, k.fs.dbm, k.fs.data, euid, ROOTINUM, comps);
  }

  lemma {:induction false} ResolveNotZero(ibm: InodeBitmap, itab: InodeTable, dbm: DataBitmap, data: Blocks, euid: Name,
                                          i: u32, comps: seq<Name>)
    requires FsOk(ibm, itab, dbm, data) && Taken(ibm, i) && i != 0
    ensures var r := Resolve(itab, data, euid, i, comps); r.Found? ==> r.inum != 0
    decreases comps
  {
    hide FsOk, DirSound, Slots, Entries, Decode, NBlocks, Lookup, OwnerString;
    FsOkInode(ibm, itab, dbm, data, i);
    if comps != [] && IsDir(Decode(itab[i])) {
      FoundIsTaken(Decode(itab[i]), data, ibm, comps[0]);
      var r := Lookup(Entries(Slots(Decode(itab[i]), data)), comps[0]);
      if r.Some? {
        ResolveNotZero(ibm, itab, dbm, data, euid, r.value, comps[1..]);
      }
    }
  }

  /** createFile: a no-op when the path resolves (computer/kernel.go:763-789). */
  method CreateFile(k: Kernel, euid: Name, comps: seq<Name>, now: u64) returns (r: CreateResult, ghost q: nat)
    requires Ready(k)
    requires Resolve(k.fs.itab, k.fs.data, euid, ROOTINUM, comps).Found?
      || CleanTarget(k.fs.itab, k.fs.data, k.fs.dbm, euid, comps, false)
    modifies k`inodeCache, k.fs`data, k.fs`dbm, k.fs`itab, k.fs`ibm, k.fs.disk.buf
    ensures r == Existed <==> Resolve(old(k.fs.itab), old(k.fs.data), euid, ROOTINUM, comps).Found?
    ensures r == Existed || r.CreateError? ==>
      k.fs.ibm == old(k.fs.ibm) && k.fs.itab == old(k.fs.itab) && k.fs.dbm == old(k.fs.dbm) &&
        k.fs.data == old(k.fs.data)
    ensures r != Existed ==> (comps != [] &&
      var p := ParentFor(old(k.fs.itab), old(k.fs.data), euid, comps);
      && CreateOutcome(old(k.fs.ibm), old(k.fs.itab), old(k.fs.data), old(k.fs.dbm), euid, comps, 0, r)
      && (r.Created? ==>
            p.Found? && MadeEntry(old(k.fs.ibm), old(k.fs.itab), old(k.fs.dbm), old(k.fs.data), p.inum, BaseOf(comps),
                                  r.inum, FreshIno(S_IFREG, euid, false, 7, 5, now), q,
                                  k.fs.ibm, k.fs.itab, k.fs.dbm, k.fs.data)))
    ensures r.Created? ==>
      r.inum !in k.inodeCache && (old(FreeBlocksClean(k.fs.dbm, k.fs.data)) ==> FreeBlocksClean(k.fs.dbm, k.fs.data))
    ensures r.MakeError? ==>
      Failure(old(k.fs.ibm), old(k.fs.itab), old(k.fs.dbm), old(k.fs.data), FreshIno(S_IFREG, euid, false, 7, 5, now),
              r.why, k.fs.ibm, k.fs.itab, k.fs.dbm, k.fs.data)
    ensures r == MakeError(LinkFailed(DirPanicked)) || Ready(k)
    ensures forall i :: i in k.inodeCache ==>
      (i in old(k.inodeCache) && k.inodeCache[i] == old(k.inodeCache)[i]) || fresh(k.inodeCache[i])
    ensures OnlyLoaded(old(k.fs.ibm), old(k.fs.itab), old(Cached(k)), k.fs.ibm, Cached(k))
    ensures ROOTINUM in Cached(k)
    ensures r.Created? ==> ParentFor(old(k.fs.itab), old(k.fs.data), euid, comps).inum in Cached(k)
  {
    hide FsOk, Shows, Decode, FreeBlocksClean, CleanTarget, ParentFor, MadeEntry, Ready, OwnerBytes, OnlyLoaded, Cached;
    q := 0;
    ghost var ibm, itab, c0 := k.fs.ibm, k.fs.itab, Cached(k);
    var pr := ResolvePath(k, euid, comps);
    if pr.Found? {
      return Existed, 0;
    }
    ghost var c1 := Cached(k);
    r, q := CreateAt(k, euid, comps, FreshIno(S_IFREG, euid, false, 7, 5, now));
    LoadedThenLoaded(ibm, itab, c0, c1, k.fs.ibm, Cached(k));
  }

  lemma {:induction false} ResolveErrors(itab: InodeTable, data: Blocks, euid: Name, i: u32, comps: seq<Name>)
    ensures var r := Resolve(itab, data, euid, i, comps);
      r.Failed? ==> r.error == EIO || r.error == ENOTDIR || r.error == EACCES || r.error == ENOENT
    decreases comps
  {
    hide Slots, Decode, Lookup, OwnerString;
    if comps != [] && Walkable(itab, i) {
      var r := Lookup(Entries(Slots(Decode(itab[i]), data)), comps[0]);
      if r.Some? {
        ResolveErrors(itab, data, euid, r.value, comps[1..]);
      }
    }
  }

  lemma ParentErrors(itab: InodeTable, data: Blocks, euid: Name, comps: seq<Name>)
    ensures comps != [] ==> ParentFor(itab, data, euid, comps) != PathResult.Failed(EEXIST)
  {
    if comps != [] {
      hide Resolve, Decode;
      ResolveErrors(itab, data, euid, ROOTINUM, DirOf(comps));
    }
  }

  /** mkDir (computer/kernel.go:735-761) */
  method MkDir(k: Kernel, euid: Name, comps: seq<Name>, now: u64) returns (r: CreateResult, ghost q: nat)
    requires Ready(k)
    requires Resolve(k.fs.itab, k.fs.data, euid, ROOTINUM, comps).Found?
      || CleanTarget(k.fs.itab, k.fs.data, k.fs.dbm, euid, comps, true)
    modifies k`inodeCache, k.fs`data, k.fs`dbm, k.fs`itab, k.fs`ibm, k.fs.disk.buf
    ensures r == CreateError(EEXIST) <==> Resolve(old(k.fs.itab), old(k.fs.data), euid, ROOTINUM, comps).Found?
    ensures r.CreateError? ==>
      k.fs.ibm == old(k.fs.ibm) && k.fs.itab == old(k.fs.itab) && k.fs.dbm == old(k.fs.dbm) &&
        k.fs.data == old(k.fs.data)
    ensures r != CreateError(EEXIST) ==> (comps != [] &&
      var p := ParentFor(old(k.fs.itab), old(k.fs.data), euid, comps);
      && CreateOutcome(old(k.fs.ibm), old(k.fs.itab), old(k.fs.data), old(k.fs.dbm), euid, comps, 1, r)
      && (r.Created? ==>
            p.Found? && MadeInode(old(k.fs.ibm), old(k.fs.itab), old(k.fs.dbm), old(k.fs.data), p.inum, BaseOf(comps),
                                  r.inum, FreshIno(S_IFDIR, euid, false, 7, 5, now), q,
                                  k.fs.ibm, k.fs.itab, k.fs.dbm, k.fs.data)))
    ensures r.MakeError? ==>
      Failure(old(k.fs.ibm), old(k.fs.itab), old(k.fs.dbm), old(k.fs.data), FreshIno(S_IFDIR, euid, false, 7, 5, now),
              r.why, k.fs.ibm, k.fs.itab, k.fs.dbm, k.fs.data)
    ensures r == MakeError(LinkFailed(DirPanicked)) || Ready(k)
    ensures r.Created? ==>
      r.inum !in k.inodeCache && (old(FreeBlocksClean(k.fs.dbm, k.fs.data)) ==> FreeBlocksClean(k.fs.dbm, k.fs.data))
    ensures forall i :: i in k.inodeCache ==>
      (i in old(k.inodeCache) && k.inodeCache[i] == old(k.inodeCache)[i]) || fresh(k.inodeCache[i])
    ensures OnlyLoaded(old(k.fs.ibm), old(k.fs.itab), old(Cached(k)), k.fs.ibm, Cached(k))
    ensures ROOTINUM in Cached(k)
    ensures r.Created? ==> ParentFor(old(k.fs.itab), old(k.fs.data), euid, comps).inum in Cached(k)
  {
    hide FsOk, Shows, Decode, FreeBlocksClean, CleanTarget, MadeInode, Ready, OwnerBytes, MakeOutcome, OnlyLoaded,
      Cached;
    q := 0;
    ghost var ibm, itab, c0 := k.fs.ibm, k.fs.itab, Cached(k);
    var pr := ResolvePath(k, euid, comps);
    if pr.Found? {
      return CreateError(EEXIST), 0;
    }
    ParentErrors(k.fs.itab, k.fs.data, euid, comps);
    ghost var c1 := Cached(k);
    r, q := CreateAt(k, euid, comps, FreshIno(S_IFDIR, euid, false, 7, 5, now));
    LoadedThenLoaded(ibm, itab, c0, c1, k.fs.ibm, Cached(k));
  }

  /** Resolution of a path is resolution of its directory followed by one lookup. */
  lemma {:induction false} ResolveLast(itab: InodeTable, data: Blocks, euid: Name, i: u32, comps: seq<Name>)
    requires comps != []
    ensures Resolve(itab, data, euid, i, comps) ==
      match Resolve(itab, data, euid, i, DirOf(comps))
      case Failed(e) => PathResult.Failed(e)
      case Found(p) => Resolve(itab, data, euid, p, [BaseOf(comps)])
    decreases comps
  {
    hide Slots, Decode, Lookup, Entries, OwnerString;
    if |comps| > 1 {
      assert DirOf(comps)[0] == comps[0] && DirOf(comps)[1..] == DirOf(comps[1..]) &&
        BaseOf(comps) == BaseOf(comps[1..]);
      if Walkable(itab, i) {
        var r := Lookup(Entries(Slots(Decode(itab[i]), data)), comps[0]);
        if r.Some? {
          ResolveLast(itab, data, euid, r.value, comps[1..]);
        }
      }
    } else {
      assert DirOf(comps) == [] && comps == [BaseOf(comps)];
    }
  }

  /** A path that fails with ENOENT although its directory resolves fails in a directory. */
  lemma NoEntryIsInDir(itab: InodeTable, data: Blocks, euid: Name, comps: seq<Name>)
    requires Resolve(itab, data, euid, ROOTINUM, comps) == PathResult.Failed(ENOENT)
    ensures comps != []
    ensures var r := Resolve(itab, data, euid, ROOTINUM, DirOf(comps));
      r.Found? ==> r.inum < INODES && IsDir(Decode(itab[r.inum])) && CanExecute(euid, Decode(itab[r.inum]))
  {
    hide Slots, Decode, Lookup, Entries, OwnerString;
    ResolveLast(itab, data, euid, ROOTINUM, comps);
  }

  datatype WriteResult = Wrote(f: FileResult) | NotCreated(c: CreateResult) | NotResolved(error: Errno)

  /** First a new file, then its content. */
  ghost predicate CreatedAndSaved(ibm: InodeBitmap, itab: InodeTable, dbm: DataBitmap, data: Blocks, p: nat, name: Name,
                                  v: Ino, content: seq<byte>, ibm': InodeBitmap, itab': InodeTable, dbm': DataBitmap,
                                  data': Blocks)
  {
    exists i: u32, q: nat, itab1, dbm1, data1 ::
      && MadeEntry(ibm, itab, dbm, data, p, name, i, v, q, ibm', itab1, dbm1, data1)
      && FileSaved(ibm', itab1, dbm1, data1, i, content, itab', dbm', data')
  }

  /** The creator may write a new file iff the owner field holds the whole user name; others have otherMode 5. */
  lemma CreatorMayWriteIff(fType: byte, euid: Name, now: u64)
    ensures CanWrite(euid, FreshIno(fType, euid, false, 7, 5, now)) <==>
      euid == ROOTUSER || (|euid| <= 13 && 0 !in euid)
  {
    hide OwnerString, OwnerBytes;
    OwnerRoundTrip(euid);
    assert Bit(7, 1) && !Bit(5, 1);
  }

  /** How writing goes on after the creation: the creator must own the new file, the content must fit a file, and the
      disk must have the blocks for both the entry and the content. */
  ghost predicate AfterCreate(itab: InodeTable, data: Blocks, dbm: DataBitmap, euid: Name, comps: seq<Name>,
                              content: seq<byte>, c: CreateResult, r: WriteResult)
    requires comps != []
  {
    if !c.Created? then r == NotCreated(c)
    else
      var p := ParentFor(itab, data, euid, comps);
      var mayWrite := euid == ROOTUSER || (|euid| <= 13 && 0 !in euid);
      && r.Wrote? && p.Found? && p.inum < INODES
      && (r.f == FileError(EACCES) <==> !mayWrite)
      && (r.f.FileError? ==> r.f.error == EACCES)
      && (r.f == FileTooBig <==> mayWrite && |content| > MAXSIZE)
      && (r.f == FilePanicked <==>
           mayWrite && |content| <= MAXSIZE &&
             |Free(dbm)| < BlocksToLink(Decode(itab[p.inum]), data) + Need(NBlocks(|content|)))
  }

  /** Which outcome writing to a path that does not exist has: that of the creation, and then as above. */
  ghost predicate WriteNewOutcome(ibm: InodeBitmap, itab: InodeTable, data: Blocks, dbm: DataBitmap, euid: Name,
                                  comps: seq<Name>, content: seq<byte>, r: WriteResult)
    requires comps != []
  {
    exists c :: CreateOutcome(ibm, itab, data, dbm, euid, comps, 0, c) &&
      AfterCreate(itab, data, dbm, euid, comps, content, c, r)
  }

  lemma FreshSaveOutcome(ibm: InodeBitmap, itab: InodeTable, dbm: DataBitmap, data: Blocks, euid: Name,
                         comps: seq<Name>, content: seq<byte>, now: u64, p: u32, i: u32, q: nat, ibm1: InodeBitmap,
                         itab1: InodeTable, dbm1: DataBitmap, data1: Blocks, f: FileResult)
    requires comps != [] && ParentFor(itab, data, euid, comps) == Found(p) && p < INODES
    requires Sound(Decode(itab[p]), data, dbm)
    requires CreateOutcome(ibm, itab, data, dbm, euid, comps, 0, Created(i)) && i < INODES
    requires |content| <= U32 - BLOCKSIZE
    requires MadeEntry(ibm, itab, dbm, data, p, BaseOf(comps), i, FreshIno(S_IFREG, euid, false, 7, 5, now), q, ibm1,
                       itab1, dbm1, data1)
    requires SaveOutcome(itab1, dbm1, euid, i, content, f)
    ensures WriteNewOutcome(ibm, itab, data, dbm, euid, comps, content, Wrote(f))
  {
    hide Decode, Sound, Free, CreateOutcome, MadeEntry, Need, BlocksToLink, ParentFor, CanWrite, OwnerBytes;
    var v := FreshIno(S_IFREG, euid, false, 7, 5, now);
    CreatorMayWriteIff(S_IFREG, euid, now);
    MadeFacts(ibm, itab, dbm, data, p, BaseOf(comps), i, v, q, ibm1, itab1, dbm1, data1);
    MadeTakes(ibm, itab, dbm, data, p, BaseOf(comps), i, v, q, ibm1, itab1, dbm1, data1);
    EmptyInode(v, data1);
    assert Need(0) == 0 by { NeedNothing(); }
  }

  lemma NeedNothing()
    ensures Need(0) == 0
  {
  }

  /** writeFile (computer/kernel.go:791-845) */
  method WriteFile(k: Kernel, euid: Name, comps: seq<Name>, content: seq<byte>, now: u64) returns (r: WriteResult)
    requires Ready(k) && |content| <= U32 - BLOCKSIZE
    requires Resolve(k.fs.itab, k.fs.data, euid, ROOTINUM, comps) == PathResult.Failed(ENOENT) ==>
      CleanTarget(k.fs.itab, k.fs.data, k.fs.dbm, euid, comps, false)
    modifies k`inodeCache, k.inodeCache.Values, k.fs`data, k.fs`dbm, k.fs`itab, k.fs`ibm, k.fs.disk.buf
    ensures var p := Resolve(old(k.fs.itab), old(k.fs.data), euid, ROOTINUM, comps);
      && (r.NotResolved? <==> p.Failed? && p.error != ENOENT)
      && (r.NotResolved? ==> r.error == p.error)
      && (p.Found? ==> r.Wrote? && k.fs.ibm == old(k.fs.ibm) && Taken(k.fs.ibm, p.inum))
      && (p.Found? ==> SaveOutcome(old(k.fs.itab), old(k.fs.dbm), euid, p.inum, content, r.f))
      && (p.Found? && r == Wrote(FileOk) ==>
           FileSaved(k.fs.ibm, old(k.fs.itab), old(k.fs.dbm), old(k.fs.data), p.inum, content, k.fs.itab, k.fs.dbm,
                     k.fs.data))
      && (p.Found? && r.Wrote? && (r.f.FileError? || r.f == FileTooBig) ==>
           k.fs.itab == old(k.fs.itab) && k.fs.dbm == old(k.fs.dbm) && k.fs.data == old(k.fs.data))
    ensures Resolve(old(k.fs.itab), old(k.fs.data), euid, ROOTINUM, comps) == PathResult.Failed(ENOENT) ==>
      (comps != [] &&
      var p := ParentFor(old(k.fs.itab), old(k.fs.data), euid, comps);
      && WriteNewOutcome(old(k.fs.ibm), old(k.fs.itab), old(k.fs.data), old(k.fs.dbm), euid, comps, content, r)
      && (r.Wrote? && (r.f.FileError? || r.f == FileTooBig) ==> p.Found? && exists i: u32, q: nat ::
           MadeEntry(old(k.fs.ibm), old(k.fs.itab), old(k.fs.dbm), old(k.fs.data), p.inum, BaseOf(comps), i,
                     FreshIno(S_IFREG, euid, false, 7, 5, now), q, k.fs.ibm, k.fs.itab, k.fs.dbm, k.fs.data))
      && (r == Wrote(FileOk) ==> (p.Found? &&
           CreatedAndSaved(old(k.fs.ibm), old(k.fs.itab), old(k.fs.dbm), old(k.fs.data), p.inum, BaseOf(comps),
                           FreshIno(S_IFREG, euid, false, 7, 5, now), content, k.fs.ibm, k.fs.itab, k.fs.dbm,
                           k.fs.data))))
    ensures r.NotCreated? && r.c.MakeError? ==>
      Failure(old(k.fs.ibm), old(k.fs.itab), old(k.fs.dbm), old(k.fs.data), FreshIno(S_IFREG, euid, false, 7, 5, now),
              r.c.why,
              k.fs.ibm, k.fs.itab, k.fs.dbm, k.fs.data)
    ensures r.NotResolved? || (r.NotCreated? && r.c.CreateError?) ==>
      k.fs.ibm == old(k.fs.ibm) && k.fs.itab == old(k.fs.itab) && k.fs.dbm == old(k.fs.dbm) &&
        k.fs.data == old(k.fs.data)
    ensures r == Wrote(FilePanicked) || r == NotCreated(MakeError(LinkFailed(DirPanicked))) || Ready(k)
    ensures var p := Resolve(old(k.fs.itab), old(k.fs.data), euid, ROOTINUM, comps);
      && (p.Found? ==> OnlyLoaded(k.fs.ibm, old(k.fs.itab), old(Cached(k)) - {p.inum}, k.fs.ibm, Cached(k) - {p.inum}))
      && (p.Found? && r.Wrote? && r.f.FileError? ==> OnlyLoaded(k.fs.ibm, old(k.fs.itab), old(Cached(k)), k.fs.ibm,
                                                                Cached(k)))
      && (p.Failed? ==> exists i: u32 ::
           !Taken(old(k.fs.ibm), i) &&
             OnlyLoaded(old(k.fs.ibm), old(k.fs.itab), old(Cached(k)), k.fs.ibm, Cached(k) - {i}))
    ensures forall i :: i in k.inodeCache ==>
      (i in old(k.inodeCache) && k.inodeCache[i] == old(k.inodeCache)[i]) || fresh(k.inodeCache[i])
  {
    hide SaveOutcome, FsOk, Shows, Decode, FreeBlocksClean, CleanTarget, ParentFor, FileSaved, MadeEntry, Ready,
      OwnerBytes, Resolve, Free, Need, NBlocks, OwnerString, Bit, OnlyLoaded, Cached;
    ghost var ibm, itab, dbm, data := k.fs.ibm, k.fs.itab, k.fs.dbm, k.fs.data;
    ghost var c0 := Cached(k);
    var pr := ResolvePath(k, euid, comps);
    ghost var c1 := Cached(k);
    if pr.Found? {
      var f := SaveFile(k, euid, pr.inum, content);
      LoadedButOne(ibm, itab, c0, c1, Cached(k), pr.inum);
      if f.FileError? {
        LoadedThenLoaded(ibm, itab, c0, c1, ibm, Cached(k));
      }
      return Wrote(f);
    }
    if pr.error != ENOENT {
      LoadedBut(ibm, itab, c0, c1, ibm, c1, INODES);
      return NotResolved(pr.error);
    }
    // ENOENT with a resolving parent means the parent is a directory, so CreateAt's type check never fires here.
    NoEntryIsInDir(itab, data, euid, comps);
    ParentIsSound(k, euid, comps);
    var c, q := CreateAt(k, euid, comps, FreshIno(S_IFREG, euid, false, 7, 5, now));
    LoadedThenLoaded(ibm, itab, c0, c1, k.fs.ibm, Cached(k));
    ghost var c2 := Cached(k);
    if !c.Created? {
      LoadedBut(ibm, itab, c0, c2, k.fs.ibm, c2, INODES);
      return NotCreated(c);
    }
    ghost var itab1, dbm1, data1 := k.fs.itab, k.fs.dbm, k.fs.data;
    var f := SaveFile(k, euid, c.inum, content);
    MadeFacts(ibm, itab, dbm, data, ParentFor(itab, data, euid, comps).inum, BaseOf(comps), c.inum,
              FreshIno(S_IFREG, euid, false, 7, 5, now), q, k.fs.ibm, itab1, dbm1, data1);
    LoadedBut(ibm, itab, c0, c2, k.fs.ibm, Cached(k), c.inum);
    FreshSaveOutcome(ibm, itab, dbm, data, euid, comps, content, now, ParentFor(itab, data, euid, comps).inum, c.inum,
                     q,
                     k.fs.ibm, itab1, dbm1, data1, f);
    r := Wrote(f);
  }

  lemma ParentIsSound(k: Kernel, euid: Name, comps: seq<Name>)
    requires Ready(k) && comps != []
    ensures var p := ParentFor(k.fs.itab, k.fs.data, euid, comps);
      p.Found? ==> Taken(k.fs.ibm, p.inum) && p.inum < INODES && Sound(Decode(k.fs.itab[p.inum]), k.fs.data, k.fs.dbm)
  {
    hide FsOk, Decode, Resolve;
    FsOkHasFirst(k.fs.ibm, k.fs.itab, k.fs.dbm, k.fs.data);
    ResolveIsTaken(k.fs.ibm, k.fs.itab, k.fs.dbm, k.fs.data, euid, ROOTINUM, DirOf(comps));
    var p := ParentFor(k.fs.itab, k.fs.data, euid, comps);
    if p.Found? {
      ReadyInode(k, p.inum);
    }
  }
}

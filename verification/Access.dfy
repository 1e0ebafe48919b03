/** Who may do what (computer/kernel.go:208-256, 564-629, 679-845, 871-890): what every system call answers whom, and
    runs from a fresh disk in which others than root meet the modes. The numbers, the user "root" and the file types are
    written out, and no result goes through the functions that name the outcome of a call. */
module Access {
  import opened Bytes
  import opened Bitmap
  import opened Layout
  import opened Inodes
  import opened BlockMap
  import opened Disk
  import opened Allocator
  import opened Volume
  import opened Files
  import opened Dir
  import opened Paths
  import opened Keeps
  import opened Syscalls
  import opened Remove
  import opened Undo
  import opened Names
  import opened Modes
  import opened Session
  import opened Calls
  import opened Boot
  import opened Scenarios

  // ---------- what the calls answer ----------

  /** One step of a walk from inode i: ENOTDIR if that is no directory, whatever its permissions; and else EACCES if the
      user may not search it. */
  lemma WalkRefused(ibm: InodeBitmap, itab: InodeTable, dbm: DataBitmap, data: Blocks, euid: Name, i: u32,
                    comps: seq<Name>)
    requires FsOk(ibm, itab, dbm, data) && Taken(ibm, i)
    ensures i < 8064
    ensures var ino, r := Decode(itab[i]), Resolve(itab, data, euid, i, comps);
      && (comps == [] ==> r == Found(i))
      && (comps != [] && ino.fType != 1 ==> r == PathResult.Failed(ENOTDIR))
      && (comps != [] && ino.fType == 1 && euid != [0x72, 0x6f, 0x6f, 0x74] && ModeFor(euid, ino) % 2 == 0 ==>
            r == PathResult.Failed(EACCES))
  {
    hide FsOk, Decode, Slots, Entries, CanExecute, OwnerString;
    FsOkInode(ibm, itab, dbm, data, i);
    PermissionsAre(euid, Decode(itab[i]));
  }

  /** Else it goes on from the first entry that has the name, number q here, or ends with ENOENT if q is behind the last
      entry. */
  lemma WalkGoesOn(ibm: InodeBitmap, itab: InodeTable, dbm: DataBitmap, data: Blocks, euid: Name, i: u32,
                   comps: seq<Name>, es: seq<DirEntry>, q: nat)
    requires FsOk(ibm, itab, dbm, data) && Taken(ibm, i) && i < 8064 && Decode(itab[i]).fType == 1 && comps != []
    requires euid == [0x72, 0x6f, 0x6f, 0x74] || ModeFor(euid, Decode(itab[i])) % 2 == 1
    requires es == Listing(itab, data, i) && q <= |es| && forall j :: 0 <= j < q ==> es[j].name != comps[0]
    requires q < |es| ==> es[q].name == comps[0]
    ensures Resolve(itab, data, euid, i, comps) ==
      if q == |es| then PathResult.Failed(ENOENT) else Resolve(itab, data, euid, es[q].inum, comps[1..])
  {
    hide FsOk, Decode, Slots, Entries, CanExecute, OwnerString;
    FsOkInode(ibm, itab, dbm, data, i);
    PermissionsAre(euid, Decode(itab[i]));
    if q == |es| {
      LookupNoneIffAbsent(es, comps[0]);
    } else {
      FirstIsFound(es, comps[0], q);
    }
  }

  /** What createFile and mkDir answer for a path that does not resolve: the error of its directory path; ENOTDIR if and
      only if that leads to something else than a directory; EACCES if and only if it leads to a directory that the
      caller may not write; and otherwise none of these: the inode is made, or what makeInode says. */
  lemma CreationReply(ibm: InodeBitmap, itab: InodeTable, data: Blocks, dbm: DataBitmap, euid: Name, comps: seq<Name>,
                      extra: nat, r: CreateResult)
    requires FsOk(ibm, itab, dbm, data) && comps != []
    requires CreateOutcome(ibm, itab, data, dbm, euid, comps, extra, r)
    ensures r != Existed
    ensures match Resolve(itab, data, euid, 2, comps[..|comps| - 1])
      case Failed(e) => r == CreateError(e)
      case Found(p) =>
        && p < 8064 && Taken(ibm, p)
        && (r == CreateError(ENOTDIR) <==> Decode(itab[p]).fType != 1)
        && (r == CreateError(EACCES) <==> Decode(itab[p]).fType == 1 && !MayWrite(euid, Decode(itab[p])))
        && (r.CreateError? ==> r.error == ENOTDIR || r.error == EACCES)
  {
    hide FsOk, Resolve, Decode, CanWrite, OwnerString, FullBelow, MayGrow, BlocksToLink, Free;
    FsOkHasFirst(ibm, itab, dbm, data);
    ResolveIsTaken(ibm, itab, dbm, data, euid, ROOTINUM, DirOf(comps));
    if Resolve(itab, data, euid, ROOTINUM, DirOf(comps)).Found? {
      var p := Resolve(itab, data, euid, ROOTINUM, DirOf(comps)).inum;
      FsOkInode(ibm, itab, dbm, data, p);
      PermissionsAre(euid, Decode(itab[p]));
    }
  }

  /** What writeFile answers for a path that fails with ENOENT: as before without the ENOTDIR, because the last
      component was looked up in a directory. */
  lemma WriteNewReply(ibm: InodeBitmap, itab: InodeTable, data: Blocks, dbm: DataBitmap, euid: Name, comps: seq<Name>,
                      content: seq<byte>, r: WriteResult)
    requires FsOk(ibm, itab, dbm, data) && comps != []
    requires Resolve(itab, data, euid, 2, comps) == PathResult.Failed(ENOENT)
    requires WriteNewOutcome(ibm, itab, data, dbm, euid, comps, content, r)
    ensures !r.NotResolved?
    ensures match Resolve(itab, data, euid, 2, comps[..|comps| - 1])
      case Failed(e) => r == NotCreated(CreateError(e))
      case Found(p) =>
        && p < 8064 && Taken(ibm, p) && Decode(itab[p]).fType == 1
        && (r == NotCreated(CreateError(EACCES)) <==> !MayWrite(euid, Decode(itab[p])))
        && (r.NotCreated? && r.c.CreateError? ==> r.c.error == EACCES)
        && (r.Wrote? ==> MayWrite(euid, Decode(itab[p])))
  {
    hide FsOk, Resolve, Decode, CanWrite, OwnerString, Free, CreateOutcome, Need, NBlocks, BlocksToLink, ParentFor;
    var c :| CreateOutcome(ibm, itab, data, dbm, euid, comps, 0, c) &&
      AfterCreate(itab, data, dbm, euid, comps, content, c, r);
    CreationReply(ibm, itab, data, dbm, euid, comps, 0, c);
    MissingInDirectory(itab, data, euid, comps);
    if !c.CreateError? {
      CreatedMayWrite(ibm, itab, data, dbm, euid, comps, c);
    }
  }

  /** A last component that is not there was looked for in a directory. */
  lemma MissingInDirectory(itab: InodeTable, data: Blocks, euid: Name, comps: seq<Name>)
    requires comps != [] && Resolve(itab, data, euid, 2, comps) == PathResult.Failed(ENOENT)
    ensures var r := Resolve(itab, data, euid, 2, comps[..|comps| - 1]);
      r.Found? && r.inum < 8064 ==> Decode(itab[r.inum]).fType == 1
  {
    hide Decode, Lookup, Slots, OwnerString;
    ResolveLast(itab, data, euid, ROOTINUM, comps);
  }

  lemma CreatedMayWrite(ibm: InodeBitmap, itab: InodeTable, data: Blocks, dbm: DataBitmap, euid: Name,
                        comps: seq<Name>, c: CreateResult)
    requires comps != [] && CreateOutcome(ibm, itab, data, dbm, euid, comps, 0, c) && !c.CreateError?
    ensures var p := Resolve(itab, data, euid, 2, comps[..|comps| - 1]);
      p.Found? && p.inum < 8064 && MayWrite(euid, Decode(itab[p.inum]))
  {
    hide Resolve, Decode, CanWrite, OwnerString, FullBelow, MayGrow, BlocksToLink, Free;
    var p := Resolve(itab, data, euid, ROOTINUM, DirOf(comps));
    if p.Found? && p.inum < INODES {
      PermissionsAre(euid, Decode(itab[p.inum]));
    }
  }

  /** What readFile answers: the error of the path; EISDIR if and only if it leads to a directory; EACCES if and only if
      it leads to a file that the caller may not read; and otherwise exactly the content. */
  lemma ReadReplyIs(ibm: InodeBitmap, itab: InodeTable, dbm: DataBitmap, data: Blocks, euid: Name, comps: seq<Name>)
    requires FsOk(ibm, itab, dbm, data)
    ensures var r := ReadOf(itab, data, euid, comps);
      match Resolve(itab, data, euid, 2, comps)
      case Failed(e) => r == ReadError(e)
      case Found(i) =>
        && i < 8064 && Taken(ibm, i) && Decode(itab[i]).size <= 12632064
        && (r == ReadError(EISDIR) <==> Decode(itab[i]).fType == 1)
        && (r == ReadError(EACCES) <==> Decode(itab[i]).fType != 1 && !MayRead(euid, Decode(itab[i])))
        && (Decode(itab[i]).fType != 1 && MayRead(euid, Decode(itab[i])) ==>
            r == ReadOk(Content(Decode(itab[i]), data)))
  {
    hide FsOk, Resolve, Decode, CanRead, OwnerString, Content;
    FsOkHasFirst(ibm, itab, dbm, data);
    ResolveIsTaken(ibm, itab, dbm, data, euid, ROOTINUM, comps);
    if Resolve(itab, data, euid, ROOTINUM, comps).Found? {
      var i := Resolve(itab, data, euid, ROOTINUM, comps).inum;
      FsOkInode(ibm, itab, dbm, data, i);
      PermissionsAre(euid, Decode(itab[i]));
    }
  }

  /** What removeAll answers, as a step of a session: EPERM for the root, then the error of the path, then EACCES if and
      only if the caller may not write the directory that its last component is in. */
  lemma RemoveReplyIs(v: SysState, euid: Name, comps: seq<Name>, r: RemoveResult, v': SysState)
    requires FsOk(v.ibm, v.itab, v.dbm, v.data) && RemoveStep(v, RemoveCall(euid, comps), r, v')
    ensures r == RemoveError(EPERM) <==> comps == []
    ensures comps != [] ==>
      match Resolve(v.itab, v.data, euid, 2, comps)
      case Failed(e) => r == RemoveError(e)
      case Found(_) =>
        var p := Resolve(v.itab, v.data, euid, 2, comps[..|comps| - 1]);
        && p.Found? && p.inum < 8064
        && (r == RemoveError(EACCES) <==> !MayWrite(euid, Decode(v.itab[p.inum])))
        && (r == Removed <==> MayWrite(euid, Decode(v.itab[p.inum])))
  {
    hide FsOk, Resolve, Decode, CanWrite, OwnerString, RemovedTree, LoadedValues;
    if comps != [] && Resolve(v.itab, v.data, euid, ROOTINUM, comps).Found? {
      var p := Resolve(v.itab, v.data, euid, ROOTINUM, DirOf(comps));
      PermissionsAre(euid, Decode(v.itab[p.inum]));
    }
  }
  // ---------- runs from a fresh disk ----------

  /** On a fresh disk nobody but root creates a file or a directory in the root directory, writes a new file there or
      changes its permissions: every reply says so, and nothing changes. */
  method StrangerRefused(disk: MemDisk, superBuf: Block, euid: Name, name: Name, content: seq<byte>, now: u64)
    returns (k: Kernel, c: CreateResult, d: CreateResult, w: WriteResult, m: ChmodResult)
    requires disk.buf.Length == DISKSIZE && |content| <= U32 - BLOCKSIZE && euid != [0x72, 0x6f, 0x6f, 0x74]
    modifies disk.buf
    ensures fresh(k) && fresh(k.fs) && k.fs.disk == disk && Ready(k)
    ensures c == CreateError(EACCES) && d == CreateError(EACCES)
    ensures w == NotCreated(CreateError(EACCES)) && m == PermissionDenied
    ensures Lists(k.fs.itab, k.fs.data, 2, []) && UsedUpTo(k.fs.ibm, 2) && |Free(k.fs.dbm)| == 16128
  {
    hide FsOk, Shows, Decode, Slots, Entries, NBlocks, FreeBlocksClean, Free, Resolve, Lists, UsedUpTo, Ready, Cached,
      OnlyLoaded, CleanTarget, CreateOutcome, WriteNewOutcome, MadeInode, MadeEntry, CreatedAndSaved, OwnerString;
    k := Start(disk, superBuf, now);
    ghost var ibm, itab, dbm, data := k.fs.ibm, k.fs.itab, k.fs.dbm, k.fs.data;
    ReadyIsOk(k);
    StartUsed(ibm);
    EmptyRoot(k, now);
    RootRefuses(itab, data, euid, name, now);
    CleanTargets(k, euid, [name], false);
    CleanTargets(k, euid, [name], true);
    ghost var q;
    c, q := CreateFile(k, euid, [name], now);
    CreationReply(ibm, itab, data, dbm, euid, [name], 0, c);
    d, q := MkDir(k, euid, [name], now);
    CreationReply(ibm, itab, data, dbm, euid, [name], 1, d);
    w := WriteFile(k, euid, [name], content, now);
    WriteNewReply(ibm, itab, data, dbm, euid, [name], content, w);
    m, q := Chmod(k, euid, [], 7, 7);
  }

  /** The root directory of a fresh disk, for somebody else than root. */
  lemma RootRefuses(itab: InodeTable, data: Blocks, euid: Name, name: Name, now: u64)
    requires Decode(itab[2]) == RootInode(now) && Lists(itab, data, 2, []) && euid != [0x72, 0x6f, 0x6f, 0x74]
    ensures Resolve(itab, data, euid, 2, [name]) == PathResult.Failed(ENOENT)
    ensures Resolve(itab, data, euid, 2, [name][..0]) == Resolve(itab, data, euid, 2, []) == Found(2)
    ensures Decode(itab[2]).fType == 1 && !MayWrite(euid, Decode(itab[2])) && !MayChmod(euid, Decode(itab[2]))
  {
    hide Decode, Lists, OwnerString, CanWrite, CanExecute;
    RootInodeIs(now, euid);
    PermissionsAre(euid, RootInode(now));
    var root: seq<byte> := [0x72, 0x6f, 0x6f, 0x74];
    assert RootInode(now).owner == OwnerBytes(root);
    OwnerRoundTrip(root);
    TopLevel(itab, data, euid, name, []);
    LookupInNothing(name);
    ResolveNothing(itab, data, euid, ROOTINUM);
    assert [name][..0] == [];
  }

  /** In a directory that root has just made on a fresh disk, others look for names, find none and create nothing. */
  method StrangerInNewDir(disk: MemDisk, superBuf: Block, euid: Name, d: Name, x: Name, now: u64)
    returns (k: Kernel, dir: PathResult, p: PathResult, c: CreateResult)
    requires disk.buf.Length == DISKSIZE && |d| <= 55 && x != [0x2e] && x != [0x2e, 0x2e]
    requires euid != [0x72, 0x6f, 0x6f, 0x74]
    modifies disk.buf
    ensures fresh(k) && fresh(k.fs) && k.fs.disk == disk && Ready(k) && UsedUpTo(k.fs.ibm, 3)
    ensures dir == Found(3) && p == PathResult.Failed(ENOENT) && c == CreateError(EACCES)
    ensures Lists(k.fs.itab, k.fs.data, 3, [DirEntry(3, [0x2e]), DirEntry(2, [0x2e, 0x2e])])
  {
    hide FsOk, Shows, Decode, Slots, Entries, NBlocks, FreeBlocksClean, Resolve, Lists, UsedUpTo, Ready, Lookup,
      CanExecute, OwnerString, OwnerBytes, CleanTarget, CreateOutcome, MadeEntry, Cached, OnlyLoaded;
    k := MakeDir(disk, superBuf, d, now);
    ghost var ibm, itab, data, dbm, q := k.fs.ibm, k.fs.itab, k.fs.data, k.fs.dbm, 0;
    ReadyIsOk(k);
    NewDirRefuses(itab, data, euid, d, x, now);
    dir := ResolvePath(k, euid, [d]);
    p := ResolvePath(k, euid, [d, x]);
    CleanTargets(k, euid, [d, x], false);
    c, q := CreateFile(k, euid, [d, x], now);
    CreationReply(ibm, itab, data, dbm, euid, [d, x], 0, c);
  }

  lemma NewDirRefuses(itab: InodeTable, data: Blocks, euid: Name, d: Name, x: Name, now: u64)
    requires Lists(itab, data, 2, [DirEntry(3, d)]) && CanExecute(euid, Decode(itab[2]))
    requires Lists(itab, data, 3, [DirEntry(3, [0x2e]), DirEntry(2, [0x2e, 0x2e])])
    requires SameMeta(FreshIno(1, ROOTUSER, false, 7, 5, now), Decode(itab[3]))
    requires x != [0x2e] && x != [0x2e, 0x2e] && euid != [0x72, 0x6f, 0x6f, 0x74]
    ensures Resolve(itab, data, euid, 2, [d]) == Resolve(itab, data, euid, 2, [d, x][..1]) == Found(3)
    ensures Resolve(itab, data, euid, 2, [d, x]) == PathResult.Failed(ENOENT)
    ensures Decode(itab[3]).fType == 1 && !MayWrite(euid, Decode(itab[3]))
  {
    hide Decode, Lists, OwnerString, OwnerBytes, CanExecute, CanWrite, Lookup, Resolve, ParentFor;
    OwnerRoundTrip([0x72, 0x6f, 0x6f, 0x74]);
    PermissionsAre(euid, Decode(itab[3]));
    TopLevel(itab, data, euid, d, [DirEntry(3, d)]);
    FoundFirst(3, d);
    DotsLookup(3, 2, x);
    OneLevelDown(itab, data, euid, d, 3, x, [DirEntry(3, [0x2e]), DirEntry(2, [0x2e, 0x2e])]);
    assert [d, x][..1] == [d];
  }

  /** root writes a file on a fresh disk and sets its permissions to 7 and m. Others read it iff m has the bit 4, and
      are refused otherwise; root reads it in any case. */
  method PrivateFile(disk: MemDisk, superBuf: Block, euid: Name, name: Name, content: seq<byte>, m: byte, now: u64)
    returns (k: Kernel, w: WriteResult, own: ReadResult, r: ReadResult)
    requires disk.buf.Length == DISKSIZE && |name| <= 55 && |content| <= 12632064 && euid != [0x72, 0x6f, 0x6f, 0x74]
    modifies disk.buf
    ensures fresh(k) && fresh(k.fs) && k.fs.disk == disk && Ready(k)
    ensures w == Wrote(FileOk) && own == ReadOk(content)
    ensures r == if m / 4 % 2 == 1 then ReadOk(content) else ReadError(EACCES)
  {
    hide FsOk, Shows, Decode, Encode, Slots, Entries, NBlocks, FreeBlocksClean, Free, Resolve, Lists, UsedUpTo, Ready,
      Cached, OnlyLoaded, CleanTarget, Need, FileSaved, OwnerString, OwnerBytes, Content, Lookup, CanRead, CanExecute;
    var c;
    k, c := FirstFile(disk, superBuf, name, now);
    ghost var ibm, itab, dbm, data := k.fs.ibm, k.fs.itab, k.fs.dbm, k.fs.data;
    ReadyIsOk(k);
    FirstInRoot(k, euid, name, now);
    FirstSave(itab, dbm, content, now);
    assert forall j :: j in k.inodeCache ==> k.inodeCache[j] in k.inodeCache.Values;
    w := WriteFile(k, ROOTUSER, [name], content, now);
    ghost var itab1, dbm1, data1 := k.fs.itab, k.fs.dbm, k.fs.data;
    WriteThenRead(ibm, itab, dbm, data, 3, content, itab1, dbm1, data1, ROOTUSER, [name]);
    WriteThenRead(ibm, itab, dbm, data, 3, content, itab1, dbm1, data1, euid, [name]);
    SavedHolds(ibm, itab, dbm, data, 3, content, itab1, dbm1, data1);
    ReadyIsOk(k);
    FileIsCurrent(k, 3);
    ghost var i;
    var x;
    x, i := Chmod(k, ROOTUSER, [name], 7, m);
    ChmoddedFile(itab1, data1, euid, name, m, content, k.fs.itab);
    ChmoddedFile(itab1, data1, ROOTUSER, name, m, content, k.fs.itab);
    own := ReadFile(k, ROOTUSER, [name]);
    r := ReadFile(k, euid, [name]);
  }

  /** The first file, as anybody finds it. */
  lemma FirstInRoot(k: Kernel, euid: Name, name: Name, now: u64)
    requires Ready(k) && UsedUpTo(k.fs.ibm, 3) && Lists(k.fs.itab, k.fs.data, 2, [DirEntry(3, name)])
    requires 2 in Cached(k) && Cached(k)[2] == RootInode(now)
    ensures Taken(k.fs.ibm, 3)
    ensures Resolve(k.fs.itab, k.fs.data, euid, 2, [name]) == Found(3)
    ensures Resolve(k.fs.itab, k.fs.data, ROOTUSER, 2, [name]) == Found(3)
  {
    hide Decode, Lists, OwnerString, CanExecute, CanRead, CanWrite, Lookup, Bit, Cached;
    CachedAre(k);
    CacheOkIff(k);
    UsedHas(k.fs.ibm, 3);
    RootInodeIs(now, euid);
    RootInodeIs(now, ROOTUSER);
    SameMetaSearch(RootInode(now), Decode(k.fs.itab[2]));
    TopLevel(k.fs.itab, k.fs.data, euid, name, [DirEntry(3, name)]);
    TopLevel(k.fs.itab, k.fs.data, ROOTUSER, name, [DirEntry(3, name)]);
    FoundFirst(3, name);
  }

  /** Saving any content of a file's size in the first file works. */
  lemma FirstSave(itab: InodeTable, dbm: DataBitmap, content: seq<byte>, now: u64)
    requires Decode(itab[3]) == FreshIno(S_IFREG, ROOTUSER, false, 7, 5, now) && |content| <= MAXSIZE
    requires |Free(dbm)| == BLOCKS - 1
    ensures forall f :: SaveOutcome(itab, dbm, ROOTUSER, 3, content, f) ==> f == FileOk
  {
    hide Decode, Free, Need, NBlocks, OwnerBytes;
    AnyContentFits(content);
    RootMay(Decode(itab[3]));
  }

  lemma FileIsCurrent(k: Kernel, i: u32)
    requires Ready(k) && Taken(k.fs.ibm, i) && i < INODES && !IsDir(Decode(k.fs.itab[i]))
    ensures k.Current(i) == Decode(k.fs.itab[i])
  {
    hide Decode, FsOk, Shows;
  }

  /** A file in the root directory after chmod 7, m. */
  lemma ChmoddedFile(itab: InodeTable, data: Blocks, euid: Name, name: Name, m: byte, content: seq<byte>,
                     itab': InodeTable)
    requires Resolve(itab, data, euid, 2, [name]) == Found(3) && !IsDir(Decode(itab[3]))
    requires Decode(itab[3]).size <= 12632064 && Content(Decode(itab[3]), data) == content
    requires Decode(itab[3]).owner == OwnerBytes([0x72, 0x6f, 0x6f, 0x74])
    requires itab' == itab[3 := Encode(WithModes(Decode(itab[3]), 7, m))]
    ensures ReadOf(itab', data, euid, [name]) ==
      if euid == [0x72, 0x6f, 0x6f, 0x74] || m / 4 % 2 == 1 then ReadOk(content) else ReadError(EACCES)
  {
    hide Decode, Encode, OwnerString, OwnerBytes, CanRead, CanExecute, Content, Slots, Entries, Lookup;
    var v := WithModes(Decode(itab[3]), 7, m);
    RecordWritten(itab, 3, v);
    OwnerRoundTrip([0x72, 0x6f, 0x6f, 0x74]);
    PermissionsAre(euid, v);
    ModesKeepContent(Decode(itab[3]), data, 7, m);
    ResolveName(itab, data, euid, ROOTINUM, name);
    ResolveName(itab', data, euid, ROOTINUM, name);
  }

  lemma ModesKeepContent(ino: Ino, data: Blocks, a: byte, b: byte)
    requires ino.size <= MAXSIZE
    ensures Content(WithModes(ino, a, b), data) == Content(ino, data)
  {
    forall j: nat | j < ino.size ensures ByteAt(WithModes(ino, a, b), data, j) == ByteAt(ino, data, j) {
      assert SlotBlock(WithModes(ino, a, b), data, j / BLOCKSIZE) == SlotBlock(ino, data, j / BLOCKSIZE);
    }
  }

  /** root makes a directory d on a fresh disk, sets its permissions to 7 and m and creates f in it. Others find d/f iff
      m has the bit 1, and are refused otherwise. */
  method GuardedDirectory(disk: MemDisk, superBuf: Block, euid: Name, d: Name, f: Name, m: byte, now: u64)
    returns (k: Kernel, c: CreateResult, own: PathResult, r: PathResult)
    requires disk.buf.Length == DISKSIZE && |d| <= 55 && |f| <= 55 && f != [0x2e] && f != [0x2e, 0x2e]
    requires euid != [0x72, 0x6f, 0x6f, 0x74]
    modifies disk.buf
    ensures fresh(k) && fresh(k.fs) && k.fs.disk == disk && GuardedFile(k, d, f, m, now)
    ensures c == Created(4) && own == Found(4)
    ensures r == if m % 2 == 1 then Found(4) else PathResult.Failed(EACCES)
  {
    hide FsOk, Shows, Decode, Slots, Entries, NBlocks, FreeBlocksClean, Resolve, Lists, UsedUpTo, Ready, Lookup,
      CanExecute, OwnerString, OwnerBytes;
    k := MakeModeDir(disk, superBuf, d, m, now);
    ghost var es: seq<DirEntry> := [DirEntry(3, [0x2e]), DirEntry(2, [0x2e, 0x2e])];
    LookupNoneIffAbsent(es, f);
    c := CreateInDir(k, ROOTUSER, d, m, f, es, 3, now);
    FoundThird(es, f);
    GuardedPath(k, euid, d, f, m, es + [DirEntry(4, f)]);
    GuardedPath(k, ROOTUSER, d, f, m, es + [DirEntry(4, f)]);
    own := ResolvePath(k, ROOTUSER, [d, f]);
    r := ResolvePath(k, euid, [d, f]);
  }

  /** Directory 3, owned by root, with permissions 7 and m, and in it the new file 4. */
  ghost predicate GuardedFile(k: Kernel, d: Name, f: Name, m: byte, now: u64)
    reads k, k.fs, k.fs.disk, k.fs.disk.buf, k.inodeCache.Values
  {
    && ModeDir(k, d, m, [DirEntry(3, [0x2e]), DirEntry(2, [0x2e, 0x2e])] + [DirEntry(4, f)])
    && UsedUpTo(k.fs.ibm, 4) && f != [0x2e] && f != [0x2e, 0x2e]
    && Decode(k.fs.itab[4]) == FreshIno(0, ROOTUSER, false, 7, 5, now)
  }

  /** A file in that directory. */
  lemma GuardedPath(k: Kernel, euid: Name, d: Name, f: Name, m: byte, es: seq<DirEntry>)
    requires ModeDir(k, d, m, es) && Lookup(es, f) == Some(4)
    ensures Resolve(k.fs.itab, k.fs.data, euid, 2, [d, f]) ==
      if euid == [0x72, 0x6f, 0x6f, 0x74] || m % 2 == 1 then Found(4) else PathResult.Failed(EACCES)
  {
    hide Ready, FreeBlocksClean, Decode, Lists, Lookup, Resolve, CanExecute, OwnerString, OwnerBytes;
    OneLevelDown(k.fs.itab, k.fs.data, euid, d, 3, f, es);
    OwnerRoundTrip([0x72, 0x6f, 0x6f, 0x74]);
    PermissionsAre(euid, Decode(k.fs.itab[3]));
  }

  lemma FoundThird(es: seq<DirEntry>, f: Name)
    requires |es| == 2 && es[0].name != f && es[1].name != f
    ensures Lookup(es + [DirEntry(4, f)], f) == Some(4)
  {
    var all := es + [DirEntry(4, f)];
    assert all[0] == es[0] && all[1..][0] == es[1] && all[1..][1..] == [DirEntry(4, f)];
    assert Lookup(all[1..][1..], f) == Some(4);
    assert Lookup(all[1..], f) == Some(4);
  }

  lemma GuardedKinds(k: Kernel, euid: Name, d: Name, f: Name, x: Name, m: byte, now: u64)
    requires GuardedFile(k, d, f, m, now)
    ensures Ready(k) && FreeBlocksClean(k.fs.dbm, k.fs.data)
    ensures Taken(k.fs.ibm, 3) && Taken(k.fs.ibm, 4) && FsOk(k.fs.ibm, k.fs.itab, k.fs.dbm, k.fs.data)
    ensures Decode(k.fs.itab[3]).fType == 1 && Decode(k.fs.itab[4]).fType == 0 && Decode(k.fs.itab[4]).size == 0
    ensures Resolve(k.fs.itab, k.fs.data, euid, 2, [d]) == Found(3)
    ensures Resolve(k.fs.itab, k.fs.data, euid, 2, [d, f]) ==
      if euid == [0x72, 0x6f, 0x6f, 0x74] || m % 2 == 1 then Found(4) else PathResult.Failed(EACCES)
    ensures Resolve(k.fs.itab, k.fs.data, ROOTUSER, 2, [d, f, x][..2]) == Found(4)
    ensures Resolve(k.fs.itab, k.fs.data, ROOTUSER, 2, [d, f, x]) == PathResult.Failed(ENOTDIR)
  {
    hide Ready, FreeBlocksClean, Decode, Slots, Entries, NBlocks, Compact, Lookup, Resolve, CanExecute, OwnerString,
      OwnerBytes;
    UsedHas(k.fs.ibm, 4);
    ReadyIsOk(k);
    var es: seq<DirEntry> := [DirEntry(3, [0x2e]), DirEntry(2, [0x2e, 0x2e])];
    FoundThird(es, f);
    GuardedPath(k, euid, d, f, m, es + [DirEntry(4, f)]);
    GuardedPath(k, ROOTUSER, d, f, m, es + [DirEntry(4, f)]);
    TopLevel(k.fs.itab, k.fs.data, euid, d, [DirEntry(3, d)]);
    FoundFirst(3, d);
    assert DirOf([d, f, x]) == [d, f] && BaseOf([d, f, x]) == x && [d, f, x][..2] == [d, f];
    ResolveLast(k.fs.itab, k.fs.data, ROOTUSER, ROOTINUM, [d, f, x]);
    FileIsNoDir(k.fs.itab, k.fs.data, ROOTUSER, 4, x);
  }

  lemma FileIsNoDir(itab: InodeTable, data: Blocks, euid: Name, i: u32, x: Name)
    requires i < 8064 && Decode(itab[i]).fType == 0 && Decode(itab[i]).size == 0
    ensures Resolve(itab, data, euid, i, [x]) == PathResult.Failed(ENOTDIR)
  {
    hide Decode, CanExecute;
  }

  /** Creating what is there already, or below a file, changes nothing. */
  method CreatedBefore(k: Kernel, d: Name, f: Name, x: Name, ghost m: byte, now: u64)
    returns (file: CreateResult, dir: CreateResult, below: CreateResult, path: PathResult)
    requires GuardedFile(k, d, f, m, now)
    modifies k`inodeCache, k.fs`data, k.fs`dbm, k.fs`itab, k.fs`ibm, k.fs.disk.buf
    ensures Ready(k) && k.fs.ibm == old(k.fs.ibm) && k.fs.itab == old(k.fs.itab)
    ensures k.fs.dbm == old(k.fs.dbm) && k.fs.data == old(k.fs.data)
    ensures file == Existed && dir == CreateError(EEXIST)
    ensures below == CreateError(ENOTDIR) && path == PathResult.Failed(ENOTDIR)
  {
    hide FsOk, Shows, Decode, Slots, Entries, NBlocks, FreeBlocksClean, Resolve, Lists, UsedUpTo, Ready, Lookup,
      CanExecute, OwnerString, OwnerBytes, CleanTarget, CreateOutcome, MadeInode, Cached, OnlyLoaded, GuardedFile;
    ghost var ibm, itab, data, dbm, q := k.fs.ibm, k.fs.itab, k.fs.data, k.fs.dbm, 0;
    GuardedKinds(k, ROOTUSER, d, f, x, m, now);
    file, q := CreateFile(k, ROOTUSER, [d, f], now);
    dir, q := MkDir(k, ROOTUSER, [d, f], now);
    CleanTargets(k, ROOTUSER, [d, f, x], false);
    below, q := CreateFile(k, ROOTUSER, [d, f, x], now);
    CreationReply(ibm, itab, data, dbm, ROOTUSER, [d, f, x], 0, below);
    path := ResolvePath(k, ROOTUSER, [d, f, x]);
  }

  /** A directory is neither read nor written as a file. */
  method DirIsNoFile(k: Kernel, d: Name, f: Name, content: seq<byte>, ghost m: byte, now: u64)
    returns (r: ReadResult, w: WriteResult)
    requires GuardedFile(k, d, f, m, now) && |content| <= U32 - BLOCKSIZE
    modifies k`inodeCache, k.inodeCache.Values, k.fs`data, k.fs`dbm, k.fs`itab, k.fs`ibm, k.fs.disk.buf
    ensures Ready(k) && k.fs.ibm == old(k.fs.ibm) && k.fs.itab == old(k.fs.itab)
    ensures k.fs.dbm == old(k.fs.dbm) && k.fs.data == old(k.fs.data)
    ensures r == ReadError(EISDIR) && w == Wrote(FileError(EISDIR))
  {
    hide FsOk, Shows, Decode, Slots, Entries, NBlocks, FreeBlocksClean, Resolve, Lists, UsedUpTo, Ready, Lookup,
      CanExecute, CanRead, OwnerString, OwnerBytes, SaveOutcome, WriteNewOutcome, Content, Cached, OnlyLoaded,
      GuardedFile, ReadOf;
    ghost var ibm, itab, data, dbm := k.fs.ibm, k.fs.itab, k.fs.data, k.fs.dbm;
    GuardedKinds(k, ROOTUSER, d, f, [], m, now);
    r := ReadFile(k, ROOTUSER, [d]);
    ReadReplyIs(ibm, itab, dbm, data, ROOTUSER, [d]);
    w := WriteFile(k, ROOTUSER, [d], content, now);
    SaveReplyIs(itab, dbm, ROOTUSER, 3, content, w.f);
  }

  /** What others are told about d/f, while nothing changes: the file is there and empty for those who may search d, but
      not theirs to write; and for those who may not, writing fails like reading. */
  method StrangerReplies(k: Kernel, euid: Name, d: Name, f: Name, content: seq<byte>, ghost m: byte, now: u64)
    returns (r: ReadResult, w: WriteResult)
    requires GuardedFile(k, d, f, m, now) && |content| <= U32 - BLOCKSIZE && euid != [0x72, 0x6f, 0x6f, 0x74]
    modifies k`inodeCache, k.inodeCache.Values, k.fs`data, k.fs`dbm, k.fs`itab, k.fs`ibm, k.fs.disk.buf
    ensures Ready(k) && k.fs.ibm == old(k.fs.ibm) && k.fs.itab == old(k.fs.itab)
    ensures k.fs.dbm == old(k.fs.dbm) && k.fs.data == old(k.fs.data)
    ensures m % 2 == 1 ==> r == ReadOk([]) && w == Wrote(FileError(EACCES))
    ensures m % 2 == 0 ==> r == ReadError(EACCES) && w == NotResolved(EACCES)
  {
    hide FsOk, Shows, Decode, Slots, Entries, NBlocks, FreeBlocksClean, Resolve, Lists, UsedUpTo, Ready, Lookup,
      CanExecute, CanRead, OwnerString, OwnerBytes, SaveOutcome, WriteNewOutcome, Content, Cached, OnlyLoaded,
      GuardedFile, ReadOf;
    ghost var ibm, itab, data, dbm := k.fs.ibm, k.fs.itab, k.fs.data, k.fs.dbm;
    GuardedKinds(k, euid, d, f, [], m, now);
    GuardedModes(k, euid, d, f, m, now);
    r := ReadFile(k, euid, [d, f]);
    ReadReplyIs(ibm, itab, dbm, data, euid, [d, f]);
    w := WriteFile(k, euid, [d, f], content, now);
    if m % 2 == 1 {
      SaveReplyIs(itab, dbm, euid, 4, content, w.f);
    }
  }

  /** mkDir of d/f does not see the file without the bit 1, and is refused without the bit 2 then. */
  method StrangerMkDir(k: Kernel, euid: Name, d: Name, f: Name, ghost m: byte, now: u64) returns (r: CreateResult)
    requires GuardedFile(k, d, f, m, now) && euid != [0x72, 0x6f, 0x6f, 0x74] && (m % 2 == 1 || m / 2 % 2 == 0)
    modifies k`inodeCache, k.fs`data, k.fs`dbm, k.fs`itab, k.fs`ibm, k.fs.disk.buf
    ensures Ready(k) && k.fs.ibm == old(k.fs.ibm) && k.fs.itab == old(k.fs.itab)
    ensures k.fs.dbm == old(k.fs.dbm) && k.fs.data == old(k.fs.data)
    ensures r == CreateError(if m % 2 == 1 then EEXIST else EACCES)
  {
    hide FsOk, Shows, Decode, Slots, Entries, NBlocks, FreeBlocksClean, Resolve, Lists, UsedUpTo, Ready, Lookup,
      CanExecute, OwnerString, OwnerBytes, CleanTarget, CreateOutcome, MadeInode, Cached, OnlyLoaded, GuardedFile;
    ghost var ibm, itab, data, dbm, q := k.fs.ibm, k.fs.itab, k.fs.data, k.fs.dbm, 0;
    GuardedKinds(k, euid, d, f, [], m, now);
    GuardedModes(k, euid, d, f, m, now);
    GuardedClean(k, euid, d, f, m, now);
    r, q := MkDir(k, euid, [d, f], now);
    if m % 2 == 0 {
      CreationReply(ibm, itab, data, dbm, euid, [d, f], 1, r);
    }
  }

  lemma GuardedClean(k: Kernel, euid: Name, d: Name, f: Name, m: byte, now: u64)
    requires GuardedFile(k, d, f, m, now)
    ensures CleanTarget(k.fs.itab, k.fs.data, k.fs.dbm, euid, [d, f], true)
  {
    hide Ready, FreeBlocksClean, Lists, Decode, UsedUpTo, CleanTarget, OwnerBytes;
    CleanTargets(k, euid, [d, f], true);
  }

  lemma GuardedModes(k: Kernel, euid: Name, d: Name, f: Name, m: byte, now: u64)
    requires GuardedFile(k, d, f, m, now) && euid != [0x72, 0x6f, 0x6f, 0x74]
    ensures MayWrite(euid, Decode(k.fs.itab[3])) <==> m / 2 % 2 == 1
    ensures !MayWrite(euid, Decode(k.fs.itab[4])) && MayRead(euid, Decode(k.fs.itab[4])) && [d, f][..1] == [d]
    ensures Decode(k.fs.itab[4]).size == 0 && Content(Decode(k.fs.itab[4]), k.fs.data) == []
  {
    hide Ready, FreeBlocksClean, Decode, Lists, OwnerString, OwnerBytes, UsedUpTo, CanExecute, CanRead;
    OwnerRoundTrip([0x72, 0x6f, 0x6f, 0x74]);
  }
}

/** Sessions: what each system call does to the volume and the cache, and what holds over every sequence of calls
    (computer/kernel.go:594-845). */
module Calls {
  import opened Bytes
  import opened Bitmap
  import opened Layout
  import opened Inodes
  import opened BlockMap
  import opened Disk
  import opened Allocator
  import opened Volume
  import opened Files
  import opened Dir
  import opened Paths
  import opened TreeFree
  import opened Keeps
  import opened Syscalls
  import opened Remove
  import opened Forest
  import opened Session
  import opened Boot

  datatype Call =
    | CreateCall(euid: Name, comps: seq<Name>, now: u64)
    | MkDirCall(euid: Name, comps: seq<Name>, now: u64)
    | WriteCall(euid: Name, comps: seq<Name>, content: seq<byte>, now: u64)
    | ReadCall(euid: Name, comps: seq<Name>)
    | RemoveCall(euid: Name, comps: seq<Name>)

  datatype Reply =
    | CreateReply(c: CreateResult)
    | WriteReply(w: WriteResult)
    | ReadReply(r: ReadResult)
    | RemoveReply(d: RemoveResult)

  // ---------- what the calls do ----------

  ghost function Target(v: SysState, c: Call): PathResult
  {
    Resolve(v.itab, v.data, c.euid, ROOTINUM, c.comps)
  }

  ghost function ParentOf(v: SysState, c: Call): PathResult
    requires c.comps != []
  {
    ParentFor(v.itab, v.data, c.euid, c.comps)
  }

  ghost predicate SameVolume(v: SysState, v': SysState)
  {
    v'.ibm == v.ibm && v'.itab == v.itab && v'.dbm == v.dbm && v'.data == v.data
  }

  function NewRecordOf(c: Call): Ino
    requires c.CreateCall? || c.MkDirCall? || c.WriteCall?
  {
    FreshIno(if c.MkDirCall? then S_IFDIR else S_IFREG, c.euid, false, 7, 5, c.now)
  }

  ghost predicate Fails(v: SysState, c: Call, r: CreateResult, v': SysState)
    requires c.CreateCall? || c.MkDirCall? || c.WriteCall?
  {
    && (r.CreateError? ==> SameVolume(v, v'))
    && (r.MakeError? ==> Failure(v.ibm, v.itab, v.dbm, v.data, NewRecordOf(c), r.why, v'.ibm, v'.itab, v'.dbm, v'.data))
  }

  /** An inode i with an empty record has been entered in some slot of the parent. */
  ghost predicate EntryMade(v: SysState, c: Call, i: u32, v': SysState)
    requires c.comps != [] && (c.CreateCall? || c.MkDirCall? || c.WriteCall?)
  {
    ParentOf(v, c).Found? && exists q: nat ::
      MadeEntry(v.ibm, v.itab, v.dbm, v.data, ParentOf(v, c).inum, BaseOf(c.comps), i, NewRecordOf(c), q, v'.ibm,
                v'.itab, v'.dbm, v'.data)
  }

  /** ... and then given its dot entries. */
  ghost predicate DirMade(v: SysState, c: Call, i: u32, v': SysState)
    requires c.comps != [] && c.MkDirCall?
  {
    ParentOf(v, c).Found? && exists q: nat ::
      MadeInode(v.ibm, v.itab, v.dbm, v.data, ParentOf(v, c).inum, BaseOf(c.comps), i, NewRecordOf(c), q, v'.ibm,
                v'.itab, v'.dbm, v'.data)
  }

  /** ... or the content. */
  ghost predicate EntryMadeAndSaved(v: SysState, c: Call, v': SysState)
    requires c.comps != [] && c.WriteCall?
  {
    ParentOf(v, c).Found? &&
    CreatedAndSaved(v.ibm, v.itab, v.dbm, v.data, ParentOf(v, c).inum, BaseOf(c.comps), NewRecordOf(c), c.content,
                    v'.ibm, v'.itab, v'.dbm, v'.data)
  }

  ghost predicate CreateStep(v: SysState, c: Call, r: CreateResult, v': SysState)
    requires c.CreateCall?
  {
    && OnlyLoaded(v.ibm, v.itab, v.cache, v'.ibm, v'.cache) && ROOTINUM in v'.cache
    && (r == Existed <==> Target(v, c).Found?)
    && (r == Existed ==> SameVolume(v, v'))
    && (r != Existed ==> (
         && c.comps != [] && CreateOutcome(v.ibm, v.itab, v.data, v.dbm, c.euid, c.comps, 0, r) && Fails(v, c, r, v')
         && (r.Created? ==> EntryMade(v, c, r.inum, v') && ParentOf(v, c).inum in v'.cache)))
  }

  ghost predicate MkDirStep(v: SysState, c: Call, r: CreateResult, v': SysState)
    requires c.MkDirCall?
  {
    && OnlyLoaded(v.ibm, v.itab, v.cache, v'.ibm, v'.cache) && ROOTINUM in v'.cache
    && (r == CreateError(EEXIST) <==> Target(v, c).Found?)
    && Fails(v, c, r, v')
    && (r != CreateError(EEXIST) ==>
         && c.comps != [] && CreateOutcome(v.ibm, v.itab, v.data, v.dbm, c.euid, c.comps, 1, r)
         && (r.Created? ==> DirMade(v, c, r.inum, v') && ParentOf(v, c).inum in v'.cache))
  }

  /** Cached regular files are what is on disk. */
  ghost predicate FilesCurrent(v: SysState)
  {
    forall i :: i in v.cache && i < INODES && Taken(v.ibm, i) && !IsDir(Decode(v.itab[i])) ==>
      v.cache[i] == Decode(v.itab[i])
  }

  /** The caches of a writeFile that does not panic. */
  ghost predicate WriteCaches(v: SysState, c: Call, r: WriteResult, v': SysState)
  {
    && (Target(v, c).Found? ==> OnlyLoaded(v.ibm, v.itab, v.cache - {Target(v, c).inum}, v.ibm,
                                           v'.cache - {Target(v, c).inum}))
    && (Target(v, c).Found? && r.Wrote? && r.f.FileError? ==> OnlyLoaded(v.ibm, v.itab, v.cache, v.ibm, v'.cache))
    && (Target(v, c).Failed? ==> exists i: u32 ::
         !Taken(v.ibm, i) && OnlyLoaded(v.ibm, v.itab, v.cache, v'.ibm, v'.cache - {i}))
  }

  /** writeFile to a path that exists. */
  ghost predicate SaveStep(v: SysState, c: Call, r: WriteResult, v': SysState)
    requires c.WriteCall? && Target(v, c).Found?
  {
    var i := Target(v, c).inum;
    && r.Wrote? && v'.ibm == v.ibm && Taken(v.ibm, i) && i < INODES
    && SaveOutcome(v.itab, v.dbm, c.euid, i, c.content, r.f)
    && (r.f == FileOk ==> FileSaved(v.ibm, v.itab, v.dbm, v.data, i, c.content, v'.itab, v'.dbm, v'.data))
    && (r.f.FileError? || r.f == FileTooBig ==> SameVolume(v, v'))
  }

  /** writeFile to a path that ends in ENOENT. */
  ghost predicate WriteNewStep(v: SysState, c: Call, r: WriteResult, v': SysState)
    requires c.WriteCall?
  {
    && c.comps != [] && WriteNewOutcome(v.ibm, v.itab, v.data, v.dbm, c.euid, c.comps, c.content, r)
    && (r.NotCreated? ==> Fails(v, c, r.c, v'))
    && (r.Wrote? && (r.f.FileError? || r.f == FileTooBig) ==> exists i :: EntryMade(v, c, i, v'))
    && (r == Wrote(FileOk) ==> EntryMadeAndSaved(v, c, v'))
  }

  ghost predicate WriteStep(v: SysState, c: Call, r: WriteResult, v': SysState)
    requires c.WriteCall?
  {
    && WriteCaches(v, c, r, v') && (!Panics(WriteReply(r)) ==> FilesCurrent(v'))
    && match Target(v, c)
       case Found(_) => SaveStep(v, c, r, v')
       case Failed(e) => if e == ENOENT then WriteNewStep(v, c, r, v') else r == NotResolved(e) && SameVolume(v, v')
  }

  ghost predicate ReadStep(v: SysState, c: Call, r: ReadResult, v': SysState)
    requires c.ReadCall?
  {
    SameVolume(v, v') && OnlyLoaded(v.ibm, v.itab, v.cache, v'.ibm, v'.cache) &&
      r == ReadOf(v.itab, v.data, c.euid, c.comps)
  }

  /** A successful removal of the subtree t, which slot q of directory p leads to, with the blocks that the kernel knows
      of. */
  ghost predicate RemovedTree(v: SysState, c: Call, t: Tree, p: u32, q: nat, v': SysState)
    requires c.comps != []
  {
    && LastStep(v.itab, v.data, c.euid, c.comps, p, t.inum, q) && TreeAt(v.itab, v.data, t) &&
         q < |Slots(Decode(v.itab[p]), v.data)|
    && UnlinkedAs(Seen(v), v.ibm, v.itab, v.dbm, v.data, p, BaseOf(c.comps), t.inum, t, q, v'.ibm, v'.dbm, v'.data)
    && PathAfterRemoval(v.itab, v.data, v'.data, c.euid, c.comps, p, q)
  }

  ghost predicate RemoveStep(v: SysState, c: Call, r: RemoveResult, v': SysState)
    requires c.RemoveCall?
  {
    && v'.itab == v.itab && LoadedValues(v.ibm, v.itab, v.cache, v'.cache)
    && (r.RemoveError? ==> SameVolume(v, v'))
    && (r == RemoveError(EPERM) <==> c.comps == [])
    && (c.comps != [] ==>
         match Target(v, c)
         case Failed(e) => r == RemoveError(e)
         case Found(_) =>
           var p := Resolve(v.itab, v.data, c.euid, ROOTINUM, DirOf(c.comps));
           && p.Found? && p.inum < INODES
           && (if CanWrite(c.euid, Decode(v.itab[p.inum])) then r == Removed &&
               exists t, q :: RemovedTree(v, c, t, p.inum, q, v')
               else r == RemoveError(EACCES)))
  }

  /** What a call does: its reply and the new state. */
  ghost predicate Steps(v: SysState, c: Call, o: Reply, v': SysState)
  {
    match c
    case CreateCall(_, _, _) => o.CreateReply? && CreateStep(v, c, o.c, v')
    case MkDirCall(_, _, _) => o.CreateReply? && MkDirStep(v, c, o.c, v')
    case WriteCall(_, _, _, _) => o.WriteReply? && WriteStep(v, c, o.w, v')
    case ReadCall(_, _) => o.ReadReply? && ReadStep(v, c, o.r, v')
    case RemoveCall(_, _) => o.RemoveReply? && RemoveStep(v, c, o.d, v')
  }

  // ---------- a disk that runs full ----------

  /** The replies that stand for a panic. */
  predicate Panics(o: Reply)
  {
    || o == CreateReply(MakeError(LinkFailed(DirPanicked)))
    || o == WriteReply(Wrote(FilePanicked)) || o == WriteReply(NotCreated(MakeError(LinkFailed(DirPanicked))))
  }

  /** The free blocks do not suffice for a new inode of `extra` blocks and its entry, and nothing else is in the way. */
  ghost predicate FullForNew(v: SysState, c: Call, extra: nat)
  {
    && c.comps != [] && ParentOf(v, c).Found? && ParentOf(v, c).inum < INODES
    && var par := Decode(v.itab[ParentOf(v, c).inum]);
    && !FullBelow(v.ibm, INODES) && |BaseOf(c.comps)| <= MAXNAME && MayGrow(par, v.data)
    && |Free(v.dbm)| < BlocksToLink(par, v.data) + extra
  }

  /** ... for the content of an existing file. */
  ghost predicate FullForSaving(v: SysState, c: Call)
    requires c.WriteCall? && Target(v, c).Found?
  {
    var i := Target(v, c).inum;
    && i < INODES && !IsDir(Decode(v.itab[i])) && CanWrite(c.euid, Decode(v.itab[i])) && |c.content| <= MAXSIZE
    && |Free(v.dbm)| + Need(NBlocks(Decode(v.itab[i]).size)) < Need(NBlocks(|c.content|))
  }

  /** The free blocks do not suffice for what the call has to store. */
  ghost predicate DiskFull(v: SysState, c: Call)
  {
    match c
    case CreateCall(_, _, _) => Target(v, c).Failed? && FullForNew(v, c, 0)
    case MkDirCall(_, _, _) => Target(v, c).Failed? && FullForNew(v, c, 1)
    case WriteCall(_, _, _, _) =>
      if Target(v, c).Found? then FullForSaving(v, c)
      else
        var mayWrite := c.euid == ROOTUSER || (|c.euid| <= 13 && 0 !in c.euid);
        && Target(v, c).error == ENOENT
        && (FullForNew(v, c, 0) || (mayWrite && |c.content| <= MAXSIZE && FullForNew(v, c, Need(NBlocks(|c.content|)))))
    case ReadCall(_, _) => false
    case RemoveCall(_, _) => false
  }

  lemma CreationPanicsIff(v: SysState, c: Call, extra: nat, r: CreateResult)
    requires c.comps != [] && CreateOutcome(v.ibm, v.itab, v.data, v.dbm, c.euid, c.comps, extra, r)
    ensures r == MakeError(LinkFailed(DirPanicked)) <==> FullForNew(v, c, extra)
    ensures r.Created? ==> ParentOf(v, c).Found? && ParentOf(v, c).inum < INODES
    ensures r.Created? ==> !FullBelow(v.ibm, INODES) && |BaseOf(c.comps)| <= MAXNAME
    ensures r.Created? ==> MayGrow(Decode(v.itab[ParentOf(v, c).inum]), v.data)
  {
    hide ParentFor, FullBelow, MayGrow, BlocksToLink, Free, Decode;
  }

  /** A call panics if and only if the free blocks do not suffice. */
  lemma PanicsIffFull(v: SysState, c: Call, o: Reply, v': SysState)
    requires Steps(v, c, o, v') && (c.WriteCall? ==> |c.content| <= U32 - BLOCKSIZE)
    ensures Panics(o) <==> DiskFull(v, c)
  {
    hide Resolve, ParentFor, FullBelow, MayGrow, BlocksToLink, Free, Decode, Need, NBlocks, CreateOutcome, FullForNew,
      OnlyLoaded, LoadedValues, WriteCaches, FilesCurrent, Fails, EntryMade, DirMade, EntryMadeAndSaved, FileSaved,
      RemovedTree;
    match c
    case CreateCall(_, _, _) =>
      if o.c != Existed {
        CreationPanicsIff(v, c, 0, o.c);
      }
    case MkDirCall(_, _, _) =>
      if o.c != CreateError(EEXIST) {
        CreationPanicsIff(v, c, 1, o.c);
      }
    case WriteCall(euid, comps, content, _) =>
      if Target(v, c) == PathResult.Failed(ENOENT) {
        var m :| CreateOutcome(v.ibm, v.itab, v.data, v.dbm, euid, comps, 0, m)
                 && AfterCreate(v.itab, v.data, v.dbm, euid, comps, content, m, o.w);
        CreationPanicsIff(v, c, 0, m);
        WritePanics(v, c, m);
      }
    case ReadCall(_, _) =>
    case RemoveCall(_, _) =>
  }

  /** After a creation the content decides; without one, so does the entry alone. */
  lemma WritePanics(v: SysState, c: Call, m: CreateResult)
    requires c.comps != [] && c.WriteCall? && |c.content| < U32
    requires CreateOutcome(v.ibm, v.itab, v.data, v.dbm, c.euid, c.comps, 0, m)
    ensures m.Created? ==>
      (FullForNew(v, c, Need(NBlocks(|c.content|))) <==>
        |Free(v.dbm)| < BlocksToLink(Decode(v.itab[ParentOf(v, c).inum]), v.data) + Need(NBlocks(|c.content|)))
    ensures m != MakeError(LinkFailed(DirPanicked)) && !m.Created? ==> !FullForNew(v, c, Need(NBlocks(|c.content|)))
  {
    hide ParentFor, FullBelow, MayGrow, BlocksToLink, Free, Decode, Need, NBlocks;
  }

  // ---------- what the calls keep ----------

  /** What a call needs of the state it finds: a directory that has to grow gets a block without entries. Nothing is
      needed of the tree or of the cache. */
  ghost predicate Enabled(v: SysState, c: Call)
  {
    var r := Target(v, c);
    CleanPath(c.comps) &&
    match c
    case CreateCall(euid, comps, _) => r.Found? || CleanTarget(v.itab, v.data, v.dbm, euid, comps, false)
    case MkDirCall(euid, comps, _) => r.Found? || CleanTarget(v.itab, v.data, v.dbm, euid, comps, true)
    case WriteCall(euid, comps, content, _) =>
      |content| <= U32 - BLOCKSIZE &&
        (r == PathResult.Failed(ENOENT) ==> CleanTarget(v.itab, v.data, v.dbm, euid, comps, false))
    case ReadCall(_, _) => true
    case RemoveCall(_, _) => true
  }

  /** The call removes a subtree in which the kernel's copy of some directory has fewer blocks than the directory. */
  ghost predicate Leaks(v: SysState, c: Call)
  {
    && c.RemoveCall? && c.comps != [] && Target(v, c).Found?
    && var p := Resolve(v.itab, v.data, c.euid, ROOTINUM, DirOf(c.comps));
    && p.Found? && p.inum < INODES && CanWrite(c.euid, Decode(v.itab[p.inum]))
    && exists t: Tree :: t.inum == Target(v, c).inum && TreeAt(v.itab, v.data, t) &&
         !CountsAgree(v.itab, Seen(v), Inums(t))
  }

  /** What holds between the calls of a session: the volume is in order, its directories form a forest, and what is
      cached is as on disk or as it was before it grew. */
  ghost predicate Order(v: SysState, s: Shape)
  {
    VolumeOrder(v, s) && Aged(v)
  }

  ghost predicate VolumeOrder(v: SysState, s: Shape)
  {
    FsOk(v.ibm, v.itab, v.dbm, v.data) && TreeOk(v.ibm, v.itab, v.data, s)
  }

  /** The parent of a creation, and the names it may get. */
  lemma ParentInOrder(v: SysState, s: Shape, c: Call, dir: bool)
    requires VolumeOrder(v, s) && c.comps != [] && CleanPath(c.comps) && ParentOf(v, c).Found?
    requires CleanTarget(v.itab, v.data, v.dbm, c.euid, c.comps, dir)
    ensures var p := ParentOf(v, c).inum;
      && Taken(v.ibm, p) && p < INODES && IsDir(Decode(v.itab[p])) && GrowsClean(Decode(v.itab[p]), v.data, v.dbm)
      && (p == ROOTINUM || (p as nat in s.up && ListsKid(ListingsOf(v.ibm, v.itab, v.data), s.up[p as nat], p)))
    ensures BaseOf(c.comps) != DOT && BaseOf(c.comps) != DOTDOT
  {
    hide FsOk, TreeOk, Decode, ParentFor, GrowsClean, DotsClean, ListsKid;
    ParentIsKid(v.ibm, v.itab, v.dbm, v.data, s, c.euid, c.comps);
  }

  lemma EntryKeepsOrder(v: SysState, s: Shape, c: Call, i: u32, v': SysState) returns (s': Shape)
    requires VolumeOrder(v, s) && c.comps != [] && CleanPath(c.comps) && (c.CreateCall? || c.WriteCall?)
    requires CleanTarget(v.itab, v.data, v.dbm, c.euid, c.comps, false) && EntryMade(v, c, i, v')
    ensures VolumeOrder(v', s')
  {
    hide FsOk, TreeOk, Decode, ParentFor, GrowsClean, CleanTarget, ListsKid, MadeEntry, OwnerBytes;
    ParentInOrder(v, s, c, false);
    var p, rec := ParentOf(v, c).inum, NewRecordOf(c);
    var q: nat :| MadeEntry(v.ibm, v.itab, v.dbm, v.data, p, BaseOf(c.comps), i, rec, q, v'.ibm, v'.itab, v'.dbm,
                            v'.data);
    MadeKeepsFsOk(v.ibm, v.itab, v.dbm, v.data, p, BaseOf(c.comps), i, rec, q, v'.ibm, v'.itab, v'.dbm, v'.data);
    s' := MadeKeepsTree(v.ibm, v.itab, v.dbm, v.data, s, p, BaseOf(c.comps), i, rec, q, v'.ibm, v'.itab, v'.dbm,
                        v'.data);
  }

  lemma DirKeepsOrder(v: SysState, s: Shape, c: Call, i: u32, v': SysState) returns (s': Shape)
    requires VolumeOrder(v, s) && c.comps != [] && CleanPath(c.comps) && c.MkDirCall?
    requires CleanTarget(v.itab, v.data, v.dbm, c.euid, c.comps, true) && DirMade(v, c, i, v')
    ensures VolumeOrder(v', s')
  {
    hide FsOk, TreeOk, Decode, ParentFor, GrowsClean, CleanTarget, ListsKid, MadeInode, OwnerBytes;
    ParentInOrder(v, s, c, true);
    var p, rec := ParentOf(v, c).inum, NewRecordOf(c);
    var q: nat :| MadeInode(v.ibm, v.itab, v.dbm, v.data, p, BaseOf(c.comps), i, rec, q, v'.ibm, v'.itab, v'.dbm,
                            v'.data);
    MadeDirKeepsFsOk(v.ibm, v.itab, v.dbm, v.data, p, BaseOf(c.comps), i, rec, q, v'.ibm, v'.itab, v'.dbm, v'.data);
    s' := MadeDirKeepsTree(v.ibm, v.itab, v.dbm, v.data, s, p, BaseOf(c.comps), i, rec, q, v'.ibm, v'.itab, v'.dbm,
                           v'.data);
  }

  lemma FailureKeepsOrder(v: SysState, s: Shape, c: Call, extra: nat, r: CreateResult, v': SysState) returns (s': Shape)
    requires VolumeOrder(v, s) && c.comps != [] && (c.CreateCall? || c.MkDirCall? || c.WriteCall?)
    requires CreateOutcome(v.ibm, v.itab, v.data, v.dbm, c.euid, c.comps, extra, r) && !r.Created?
    requires Fails(v, c, r, v') && r != MakeError(LinkFailed(DirPanicked))
    ensures VolumeOrder(v', s')
  {
    hide FsOk, TreeOk, Decode, ParentFor, OwnerBytes, Leaked, FullBelow, MayGrow, BlocksToLink, Free;
    s' := s;
    if r.MakeError? {
      s' := FailureKeepsTree(v.ibm, v.itab, v.dbm, v.data, s, NewRecordOf(c), r.why, v'.ibm, v'.itab, v'.dbm, v'.data);
      if r.why.LinkFailed? {
        LeakKeepsFsOk(v.ibm, v.itab, v.dbm, v.data, NewRecordOf(c), v'.ibm, v'.itab, v'.dbm, v'.data);
      }
    }
  }

  lemma SaveKeepsOrder(v: SysState, s: Shape, c: Call, r: WriteResult, v': SysState)
    requires VolumeOrder(v, s) && c.WriteCall? && Target(v, c).Found? && SaveStep(v, c, r, v')
    requires r != Wrote(FilePanicked)
    ensures VolumeOrder(v', s)
  {
    hide FsOk, TreeOk, Decode, Resolve, FileSaved, Free, Need, NBlocks, CanWrite;
    var i := Target(v, c).inum;
    if r.f == FileOk {
      SavedKeepsFsOk(v.ibm, v.itab, v.dbm, v.data, i, c.content, v'.itab, v'.dbm, v'.data);
      SavedKeepsTree(v.ibm, v.itab, v.dbm, v.data, s, i, c.content, v'.itab, v'.dbm, v'.data);
    }
  }

  lemma NewFileKeepsOrder(v: SysState, s: Shape, c: Call, v': SysState) returns (s': Shape)
    requires VolumeOrder(v, s) && c.comps != [] && CleanPath(c.comps) && c.WriteCall?
    requires CleanTarget(v.itab, v.data, v.dbm, c.euid, c.comps, false) && EntryMadeAndSaved(v, c, v')
    ensures VolumeOrder(v', s')
  {
    hide FsOk, TreeOk, Decode, ParentFor, GrowsClean, CleanTarget, ListsKid, MadeEntry, FileSaved, OwnerBytes;
    var i: u32, q: nat, itab1, dbm1, data1 :|
      && MadeEntry(v.ibm, v.itab, v.dbm, v.data, ParentOf(v, c).inum, BaseOf(c.comps), i, NewRecordOf(c), q, v'.ibm,
                   itab1, dbm1, data1)
      && FileSaved(v'.ibm, itab1, dbm1, data1, i, c.content, v'.itab, v'.dbm, v'.data);
    var v1 := SysState(v'.ibm, itab1, dbm1, data1, map[]);
    s' := EntryKeepsOrder(v, s, c, i, v1);
    MadeFacts(v.ibm, v.itab, v.dbm, v.data, ParentOf(v, c).inum, BaseOf(c.comps), i, NewRecordOf(c), q, v'.ibm, itab1,
              dbm1, data1);
    SavedKeepsFsOk(v'.ibm, itab1, dbm1, data1, i, c.content, v'.itab, v'.dbm, v'.data);
    SavedKeepsTree(v'.ibm, itab1, dbm1, data1, s', i, c.content, v'.itab, v'.dbm, v'.data);
  }

  lemma WriteKeepsOrder(v: SysState, s: Shape, c: Call, r: WriteResult, v': SysState) returns (s': Shape)
    requires VolumeOrder(v, s) && c.WriteCall? && Enabled(v, c) && WriteStep(v, c, r, v') && !Panics(WriteReply(r))
    ensures VolumeOrder(v', s')
  {
    hide VolumeOrder, Resolve, CleanTarget, EntryMade, EntryMadeAndSaved, SaveOutcome, Fails, WriteCaches,
      FilesCurrent, CreateOutcome, FileSaved;
    s' := s;
    if Target(v, c).Found? {
      SaveKeepsOrder(v, s, c, r, v');
    } else if Target(v, c).error == ENOENT {
      if r == Wrote(FileOk) {
        s' := NewFileKeepsOrder(v, s, c, v');
      } else if r.Wrote? {
        var i :| EntryMade(v, c, i, v');
        s' := EntryKeepsOrder(v, s, c, i, v');
      } else {
        var m :| CreateOutcome(v.ibm, v.itab, v.data, v.dbm, c.euid, c.comps, 0, m)
                 && AfterCreate(v.itab, v.data, v.dbm, c.euid, c.comps, c.content, m, r);
        s' := FailureKeepsOrder(v, s, c, 0, m, v');
      }
    } else {
      SameKeepsOrder(v, s, v');
    }
  }

  lemma SameKeepsOrder(v: SysState, s: Shape, v': SysState)
    requires VolumeOrder(v, s) && SameVolume(v, v')
    ensures VolumeOrder(v', s)
  {
  }

  /** A removal keeps the forest, and the volume in order but for the blocks the kernel did not know of. */
  lemma RemovalLeaves(v: SysState, s: Shape, c: Call, t: Tree, p: u32, q: nat, v': SysState)
    requires Order(v, s) && c.comps != [] && CleanPath(c.comps) && v'.itab == v.itab && RemovedTree(v, c, t, p, q, v')
    ensures TreeOk(v'.ibm, v'.itab, v'.data, s) && FsHeld(v'.ibm, v'.itab, v'.dbm, v'.data)
    ensures Target(v, c) == Found(t.inum)
    ensures Lost(v'.ibm, v'.itab, v'.dbm, v'.data) == Unseen(v.itab, Seen(v), v.data, Inums(t))
    ensures |Lost(v'.ibm, v'.itab, v'.dbm, v'.data)| ==
      NeedBelow(v.itab, Inums(t), INODES) - NeedBelow(Seen(v), Inums(t), INODES)
    ensures FsOk(v'.ibm, v'.itab, v'.dbm, v'.data) <==> CountsAgree(v.itab, Seen(v), Inums(t))
  {
    hide FsOk, TreeOk, Decode, TreeAt, UnlinkedAs, PathAfterRemoval, Distinct, OnlyReference, Below, Inums, Slots,
      Aged, Seen, AllOlder, CountsAgree, Unseen, Lost, FsHeld, Resolve, FirstNamed, NeedBelow;
    RemovedHangs(v.ibm, v.itab, v.dbm, v.data, s, c.euid, c.comps, t, p, q);
    AgedAll(v, Inums(t));
    UnseenCount(v.ibm, v.itab, Seen(v), v.dbm, v.data, Inums(t));
    RemovalKeepsFsOkIff(Seen(v), v.ibm, v.itab, v.dbm, v.data, p, BaseOf(c.comps), t, q, v'.ibm, v'.dbm, v'.data);
    RemovalKeepsTree(Seen(v), v.ibm, v.itab, v.dbm, v.data, s, p, BaseOf(c.comps), t.inum, t, q, v'.ibm, v'.dbm,
                     v'.data);
  }

  /** What is left when blocks have been lost: still a forest, and everything in order but for exactly the blocks of the
      subtree that the kernel's copies did not list. */
  ghost predicate LeftBehind(v: SysState, s: Shape, c: Call, v': SysState)
  {
    && TreeOk(v'.ibm, v'.itab, v'.data, s) && FsHeld(v'.ibm, v'.itab, v'.dbm, v'.data) &&
         !FsOk(v'.ibm, v'.itab, v'.dbm, v'.data)
    && Target(v, c).Found?
    && exists t: Tree :: t.inum == Target(v, c).inum && TreeAt(v.itab, v.data, t) &&
         !CountsAgree(v.itab, Seen(v), Inums(t)) &&
         Lost(v'.ibm, v'.itab, v'.dbm, v'.data) == Unseen(v.itab, Seen(v), v.data, Inums(t)) &&
         |Lost(v'.ibm, v'.itab, v'.dbm, v'.data)| ==
         NeedBelow(v.itab, Inums(t), INODES) - NeedBelow(Seen(v), Inums(t), INODES)
  }

  lemma RemovalKeepsOrderUnlessLeaking(v: SysState, s: Shape, c: Call, r: RemoveResult, v': SysState)
    requires Order(v, s) && c.RemoveCall? && CleanPath(c.comps) && RemoveStep(v, c, r, v')
    ensures !Leaks(v, c) ==> VolumeOrder(v', s)
    ensures Leaks(v, c) ==> r == Removed && LeftBehind(v, s, c, v')
  {
    hide FsOk, TreeOk, Decode, TreeAt, Inums, RemovedTree, CountsAgree, Seen, Unseen, Lost, FsHeld, Resolve, Aged,
      OwnerString, LoadedValues, NeedBelow;
    if r == Removed {
      var p := Resolve(v.itab, v.data, c.euid, ROOTINUM, DirOf(c.comps)).inum;
      var t, q :| RemovedTree(v, c, t, p, q, v');
      RemovalLeaves(v, s, c, t, p, q, v');
      RemovedIsTree(v, c, t, p, q, v');
      forall t': Tree | t'.inum == t.inum && TreeAt(v.itab, v.data, t') ensures t' == t {
        TreeAtUnique(v.itab, v.data, t, t');
      }
    }
  }

  lemma RemovedIsTree(v: SysState, c: Call, t: Tree, p: u32, q: nat, v': SysState)
    requires c.comps != [] && RemovedTree(v, c, t, p, q, v')
    ensures TreeAt(v.itab, v.data, t)
  {
  }

  lemma StepKeepsVolume(v: SysState, s: Shape, c: Call, o: Reply, v': SysState) returns (s': Shape)
    requires Order(v, s) && Enabled(v, c) && Steps(v, c, o, v') && !DiskFull(v, c)
    ensures if Leaks(v, c) then s' == s && LeftBehind(v, s, c, v') else VolumeOrder(v', s')
  {
    hide VolumeOrder, CleanTarget, EntryMade, DirMade, RemoveStep, OnlyLoaded, LoadedValues, CreateOutcome, Fails,
      WriteStep, Resolve, Leaks, LeftBehind, CanWrite, DiskFull, Aged;
    s' := s;
    OnlyRemovalsLeak(v, c);
    PanicsIffFull(v, c, o, v');
    match c
    case CreateCall(_, _, _) =>
      if o.c == Existed {
        SameKeepsOrder(v, s, v');
      } else if o.c.Created? {
        s' := EntryKeepsOrder(v, s, c, o.c.inum, v');
      } else {
        s' := FailureKeepsOrder(v, s, c, 0, o.c, v');
      }
    case MkDirCall(_, _, _) =>
      if o.c == CreateError(EEXIST) {
        SameStep(v, c, o.c, v');
        SameKeepsOrder(v, s, v');
      } else if o.c.Created? {
        s' := DirKeepsOrder(v, s, c, o.c.inum, v');
      } else {
        s' := FailureKeepsOrder(v, s, c, 1, o.c, v');
      }
    case WriteCall(_, _, _, _) =>
      s' := WriteKeepsOrder(v, s, c, o.w, v');
    case ReadCall(_, _) =>
      SameKeepsOrder(v, s, v');
    case RemoveCall(_, comps) =>
      RemovalKeepsOrderUnlessLeaking(v, s, c, o.d, v');
  }

  lemma OnlyRemovalsLeak(v: SysState, c: Call)
    ensures Leaks(v, c) ==> c.RemoveCall?
  {
  }

  /** Every call that does not find the disk full and does not leak keeps the session in order; a removal that leaks
      leaves exactly the blocks behind that the kernel's copies did not list. */
  lemma StepKeepsOrder(v: SysState, s: Shape, c: Call, o: Reply, v': SysState) returns (s': Shape)
    requires Order(v, s) && Enabled(v, c) && Steps(v, c, o, v') && !DiskFull(v, c)
    ensures if Leaks(v, c) then s' == s && LeftBehind(v, s, c, v') else Order(v', s')
  {
    hide VolumeOrder, Enabled, Steps, DiskFull, Leaks, LeftBehind, Aged;
    s' := StepKeepsVolume(v, s, c, o, v');
    if !Leaks(v, c) {
      PanicsUnlessRoom(v, c, o, v');
      StepKeepsAged(v, c, o, v', s');
    }
  }

  lemma PanicsUnlessRoom(v: SysState, c: Call, o: Reply, v': SysState)
    requires Enabled(v, c) && Steps(v, c, o, v') && !DiskFull(v, c)
    ensures !Panics(o)
  {
    hide Steps, DiskFull, CleanTarget, Resolve;
    PanicsIffFull(v, c, o, v');
  }

  lemma SameStep(v: SysState, c: Call, r: CreateResult, v': SysState)
    requires (c.CreateCall? || c.MkDirCall? || c.WriteCall?) && Fails(v, c, r, v') && r.CreateError?
    ensures SameVolume(v, v')
  {
  }

  /** The calls of a session with their replies and the states between them. */
  ghost predicate IsSession(calls: seq<Call>, replies: seq<Reply>, vs: seq<SysState>)
  {
    && |replies| == |calls| && |vs| == |calls| + 1
    && forall m :: 0 <= m < |calls| ==> Steps(vs[m], calls[m], replies[m], vs[m + 1])
  }

  /** Over every session whose calls are enabled, never find the disk full and do not leak, each state is in order:
      whatever was created, written and removed before, no block has two owners or is lost, and every directory tree is
      one. */
  lemma SessionStaysInOrder(calls: seq<Call>, replies: seq<Reply>, vs: seq<SysState>, s: Shape)
    returns (shapes: seq<Shape>)
    requires IsSession(calls, replies, vs) && Order(vs[0], s)
    requires forall m :: 0 <= m < |calls| ==>
      Enabled(vs[m], calls[m]) && !DiskFull(vs[m], calls[m]) && !Leaks(vs[m], calls[m])
    ensures |shapes| == |vs| && forall m :: 0 <= m < |vs| ==> Order(vs[m], shapes[m])
  {
    hide Steps, Order, Enabled, DiskFull, Leaks;
    shapes := [s];
    for m := 0 to |calls|
      invariant |shapes| == m + 1 && forall j :: 0 <= j <= m ==> Order(vs[j], shapes[j])
    {
      var s' := StepKeepsOrder(vs[m], shapes[m], calls[m], replies[m], vs[m + 1]);
      shapes := shapes + [s'];
    }
  }

  // ---------- staleness ----------

  /** The call enters a new name in directory i, which has to grow for it. */
  ghost predicate Grows(v: SysState, c: Call, i: u32)
  {
    && (c.CreateCall? || c.MkDirCall? || c.WriteCall?) && c.comps != []
    && ParentOf(v, c) == Found(i) && i < INODES && !Room(Decode(v.itab[i]), v.data)
  }

  /** Inode i was there before, its cached copy is the one from before or was loaded from the record of before, and that
      record is as it was unless the call has made the directory grow. */
  ghost predicate Carried(v: SysState, c: Call, v': SysState, i: u32)
  {
    && i in v'.cache && i < INODES && Taken(v.ibm, i)
    && v'.cache[i] == (if i in v.cache then v.cache[i] else Decode(v.itab[i]))
    && (Decode(v'.itab[i]) == Decode(v.itab[i]) || (Grows(v, c, i) && Older(Decode(v.itab[i]), Decode(v'.itab[i]))))
  }

  lemma CarriedOver(v: SysState, c: Call, v': SysState, i: u32)
    requires LoadedValues(v.ibm, v.itab, v.cache, v'.cache) && StaleAt(v', i) && Taken(v.ibm, i)
    requires Decode(v'.itab[i]) == Decode(v.itab[i]) || (Grows(v, c, i) && Older(Decode(v.itab[i]), Decode(v'.itab[i])))
    ensures Carried(v, c, v', i)
  {
    hide Decode, Grows, Older;
  }

  lemma LoadedWasTaken(v: SysState, v': SysState, i: u32)
    requires OnlyLoaded(v.ibm, v.itab, v.cache, v'.ibm, v'.cache) && StaleAt(v', i)
    ensures Taken(v.ibm, i) && LoadedValues(v.ibm, v.itab, v.cache, v'.cache) && i < INODES
  {
    hide Decode;
  }

  lemma EntryMakesStale(v: SysState, c: Call, j: u32, v': SysState, i: u32)
    requires c.comps != [] && (c.CreateCall? || c.MkDirCall? || c.WriteCall?) && EntryMade(v, c, j, v')
    requires Taken(v.ibm, i)
    requires LoadedValues(v.ibm, v.itab, v.cache, v'.cache) && StaleAt(v', i)
    ensures Carried(v, c, v', i)
  {
    hide Decode, ParentFor, Room, Older;
    var p, rec := ParentOf(v, c).inum, NewRecordOf(c);
    var q: nat :| MadeEntry(v.ibm, v.itab, v.dbm, v.data, p, BaseOf(c.comps), j, rec, q, v'.ibm, v'.itab, v'.dbm,
                            v'.data);
    UnlessGrown(v.ibm, v.itab, v.dbm, v.data, p, BaseOf(c.comps), j, rec, q, v'.ibm, v'.itab, v'.dbm, v'.data, i);
  }

  /** A creation leaves the records of allocated inodes alone, except that of a parent that grows. */
  lemma UnlessGrown(ibm: InodeBitmap, itab: InodeTable, dbm: DataBitmap, data: Blocks, p: u32, name: Name, j: u32,
                    rec: Ino, q: nat, ibm': InodeBitmap, itab': InodeTable, dbm': DataBitmap, data': Blocks, i: u32)
    requires MadeEntry(ibm, itab, dbm, data, p, name, j, rec, q, ibm', itab', dbm', data') && Taken(ibm, i)
    requires i < INODES
    ensures p < INODES && (i != p || Room(Decode(itab[p]), data) ==> Decode(itab'[i]) == Decode(itab[i]))
    ensures i == p && !Room(Decode(itab[p]), data) ==>
      Older(Decode(itab[i]), Decode(itab'[i])) && NBlocks(Decode(itab'[i]).size) == NBlocks(Decode(itab[i]).size) + 1
  {
    hide Decode, EntryAdded, OthersKept, Room, Older;
    MadeFacts(ibm, itab, dbm, data, p, name, j, rec, q, ibm', itab', dbm', data');
    if i == p && Room(Decode(itab[p]), data) {
      MadeInPlace(ibm, itab, dbm, data, p, name, j, rec, q, ibm', itab', dbm', data');
    } else if i == p {
      GrownIsOlder(Decode(itab[p]), data, dbm, DirEntry(j, name), Decode(itab'[p]), data', dbm', q);
    }
  }

  lemma GrownIsOlder(ino: Ino, data: Blocks, dbm: DataBitmap, e: DirEntry, ino': Ino, data': Blocks, dbm': DataBitmap,
                     q: nat)
    requires EntryAdded(ino, data, dbm, e, ino', data', dbm', q) && !Room(ino, data)
    ensures Older(ino, ino') && NBlocks(ino'.size) == NBlocks(ino.size) + 1
  {
    hide GrewAndAdded, Slots, Older;
    GrowthLeavesCacheBehind(ino, data, dbm, EntrySlot(e), ino', data', dbm', q);
  }

  lemma DirMakesStale(v: SysState, c: Call, j: u32, v': SysState, i: u32)
    requires c.comps != [] && c.MkDirCall? && DirMade(v, c, j, v') && Taken(v.ibm, i)
    requires LoadedValues(v.ibm, v.itab, v.cache, v'.cache) && StaleAt(v', i)
    ensures Carried(v, c, v', i)
  {
    hide Decode, ParentFor, Room, OwnerBytes, Older;
    var p, rec := ParentOf(v, c).inum, NewRecordOf(c);
    var q: nat :| MadeInode(v.ibm, v.itab, v.dbm, v.data, p, BaseOf(c.comps), j, rec, q, v'.ibm, v'.itab, v'.dbm,
                            v'.data);
    UnlessDirGrown(v.ibm, v.itab, v.dbm, v.data, p, BaseOf(c.comps), j, rec, q, v'.ibm, v'.itab, v'.dbm, v'.data, i);
  }

  lemma UnlessDirGrown(ibm: InodeBitmap, itab: InodeTable, dbm: DataBitmap, data: Blocks, p: u32, name: Name, j: u32,
                       rec: Ino, q: nat, ibm': InodeBitmap, itab': InodeTable, dbm': DataBitmap, data': Blocks, i: u32)
    requires IsDir(rec) && MadeInode(ibm, itab, dbm, data, p, name, j, rec, q, ibm', itab', dbm', data')
    requires Taken(ibm, i) && i < INODES
    ensures p < INODES && (i != p || Room(Decode(itab[p]), data) ==> Decode(itab'[i]) == Decode(itab[i]))
    ensures i == p && !Room(Decode(itab[p]), data) ==>
      Older(Decode(itab[i]), Decode(itab'[i])) && NBlocks(Decode(itab'[i]).size) == NBlocks(Decode(itab[i]).size) + 1
  {
    hide Decode, MadeEntry, OthersKept, Room, FreshDir, Older;
    var itab1, dbm1, data1 :|
      && MadeEntry(ibm, itab, dbm, data, p, name, j, rec, q, ibm', itab1, dbm1, data1)
      && RecordSet(itab1, itab', j, Decode(itab'[j]))
      && FreshDir(rec, dbm1, data1, j, p, Decode(itab'[j]), dbm', data')
      && OthersKept(ibm', itab1, data1, data', j);
    MadeFacts(ibm, itab, dbm, data, p, name, j, rec, q, ibm', itab1, dbm1, data1);
    UnlessGrown(ibm, itab, dbm, data, p, name, j, rec, q, ibm', itab1, dbm1, data1, i);
  }

  lemma FailureMakesStale(v: SysState, c: Call, r: CreateResult, v': SysState, i: u32)
    requires (c.CreateCall? || c.MkDirCall? || c.WriteCall?) && Fails(v, c, r, v') && !r.Created? && r != Existed
    requires Taken(v.ibm, i)
    requires r.MakeError? ==> !r.why.Made? && r.why != LinkFailed(DirPanicked)
    requires LoadedValues(v.ibm, v.itab, v.cache, v'.cache) && StaleAt(v', i)
    ensures Carried(v, c, v', i)
  {
    hide Decode, LoadedValues, FullBelow, OwnerBytes;
    CarriedOver(v, c, v', i);
  }

  lemma CreationFails(v: SysState, c: Call, extra: nat, r: CreateResult)
    requires c.comps != [] && CreateOutcome(v.ibm, v.itab, v.data, v.dbm, c.euid, c.comps, extra, r)
    ensures r != Existed && (r.MakeError? ==> !r.why.Made?)
  {
    hide ParentFor, FullBelow, MayGrow, BlocksToLink, Free, Decode;
  }

  lemma SaveMakesStale(v: SysState, c: Call, r: WriteResult, v': SysState, i: u32)
    requires c.WriteCall? && Target(v, c).Found? && WriteStep(v, c, r, v') && !Panics(WriteReply(r)) && StaleAt(v', i)
    ensures Carried(v, c, v', i)
  {
    hide Decode, Resolve, LoadedValues, SaveOutcome, Free, Need, NBlocks, CanWrite, Entries, Slots;
    var n := Target(v, c).inum;
    var was, now := v.(cache := v.cache - {n}), v'.(cache := v'.cache - {n});
    if r.f.FileError? {
      LoadedWasTaken(v, v', i);
      CarriedOver(v, c, v', i);
    } else {
      SavedIsFile(v, c, r, v');
      assert StaleAt(now, i);
      LoadedWasTaken(was, now, i);
      CarriedOver(was, c, now, i);
    }
  }

  /** The file written is not stale, and is the only one whose record has changed. */
  lemma SavedIsFile(v: SysState, c: Call, r: WriteResult, v': SysState)
    requires c.WriteCall? && Target(v, c).Found? && SaveStep(v, c, r, v') && FilesCurrent(v') && !Panics(WriteReply(r))
    requires !r.f.FileError?
    ensures var n := Target(v, c).inum; !StaleAt(v', n) && forall i: nat :: i < INODES && i != n as nat ==>
      v'.itab[i] == v.itab[i]
  {
    hide Decode, Resolve, Free, Need, NBlocks, Bit, OwnerString, Entries, Slots, StoredAs, OthersKept;
    if r.f == FileOk {
      SavedHolds(v.ibm, v.itab, v.dbm, v.data, Target(v, c).inum, c.content, v'.itab, v'.dbm, v'.data);
    }
  }

  lemma SavedEntry(v: SysState, c: Call, v': SysState, i: u32)
    requires c.WriteCall? && c.comps != [] && EntryMadeAndSaved(v, c, v') && Taken(v'.ibm, i) && i < INODES
    ensures !Taken(v.ibm, i) ==> !IsDir(Decode(v'.itab[i]))
    ensures Taken(v.ibm, i) ==>
      Decode(v'.itab[i]) == Decode(v.itab[i]) || (Grows(v, c, i) && Older(Decode(v.itab[i]), Decode(v'.itab[i])))
  {
    hide Decode, ParentFor, Room, OwnerBytes, EntryAdded, OthersKept, StoredAs, SameTree, FullBelow;
    var p, rec := ParentOf(v, c).inum, NewRecordOf(c);
    var n: u32, q: nat, itab1, dbm1, data1 :|
      && MadeEntry(v.ibm, v.itab, v.dbm, v.data, p, BaseOf(c.comps), n, rec, q, v'.ibm, itab1, dbm1, data1)
      && FileSaved(v'.ibm, itab1, dbm1, data1, n, c.content, v'.itab, v'.dbm, v'.data);
    MadeFacts(v.ibm, v.itab, v.dbm, v.data, p, BaseOf(c.comps), n, rec, q, v'.ibm, itab1, dbm1, data1);
    SavedHolds(v'.ibm, itab1, dbm1, data1, n, c.content, v'.itab, v'.dbm, v'.data);
    if Taken(v.ibm, i) {
      UnlessGrown(v.ibm, v.itab, v.dbm, v.data, p, BaseOf(c.comps), n, rec, q, v'.ibm, itab1, dbm1, data1, i);
    }
  }

  lemma PlainEntry(v: SysState, c: Call, n: u32, v': SysState, i: u32)
    requires c.WriteCall? && c.comps != [] && EntryMade(v, c, n, v') && Taken(v'.ibm, i) && !Taken(v.ibm, i)
    ensures i < INODES && !IsDir(Decode(v'.itab[i]))
  {
    hide Decode, ParentFor, OwnerBytes, EntryAdded, OthersKept, FullBelow;
  }

  lemma LeakedEntry(v: SysState, c: Call, m: CreateResult, v': SysState, i: u32)
    requires c.WriteCall? && Fails(v, c, m, v') && !m.Created? && m != Existed && Taken(v'.ibm, i) && !Taken(v.ibm, i)
    requires m.MakeError? ==> !m.why.Made? && m.why != LinkFailed(DirPanicked)
    ensures i < INODES && !IsDir(Decode(v'.itab[i]))
  {
    hide Decode, OwnerBytes, FullBelow;
  }

  /** What the write of a new path allocates is a regular file, and apart from it only the parent's record may have
      changed. */
  lemma WriteNewMakesStale(v: SysState, c: Call, r: WriteResult, v': SysState, i: u32)
    requires c.WriteCall? && Target(v, c) == PathResult.Failed(ENOENT) && WriteStep(v, c, r, v')
    requires !Panics(WriteReply(r)) && StaleAt(v', i)
    ensures Carried(v, c, v', i)
  {
    hide Decode, Resolve, LoadedValues, EntryMade, EntryMadeAndSaved, Fails, CreateOutcome, Grows, ParentFor, Free,
      Need, NBlocks, BlocksToLink, OnlyLoaded;
    var w: u32 :| !Taken(v.ibm, w) && OnlyLoaded(v.ibm, v.itab, v.cache, v'.ibm, v'.cache - {w});
    var now := v'.(cache := v'.cache - {w});
    if r == Wrote(FileOk) {
      SavedEntry(v, c, v', i);
      assert StaleAt(now, i);
      LoadedWasTaken(v, now, i);
      CarriedOver(v, c, now, i);
    } else if r.Wrote? {
      var n :| EntryMade(v, c, n, v');
      if !Taken(v.ibm, i) {
        PlainEntry(v, c, n, v', i);
      }
      assert StaleAt(now, i);
      LoadedWasTaken(v, now, i);
      assert EntryMade(v, c, n, now) by { SameEntry(v, c, n, v', now); }
      EntryMakesStale(v, c, n, now, i);
    } else {
      var m :| CreateOutcome(v.ibm, v.itab, v.data, v.dbm, c.euid, c.comps, 0, m)
               && AfterCreate(v.itab, v.data, v.dbm, c.euid, c.comps, c.content, m, r);
      CreationFails(v, c, 0, m);
      if !Taken(v.ibm, i) {
        LeakedEntry(v, c, m, v', i);
      }
      assert StaleAt(now, i);
      LoadedWasTaken(v, now, i);
      assert Fails(v, c, m, now) by { SameFailure(v, c, m, v', now); }
      FailureMakesStale(v, c, m, now, i);
    }
  }

  lemma SameEntry(v: SysState, c: Call, n: u32, v': SysState, now: SysState)
    requires c.comps != [] && c.WriteCall? && EntryMade(v, c, n, v') && SameVolume(v', now)
    ensures EntryMade(v, c, n, now)
  {
    hide Decode, ParentFor, OwnerBytes, MadeEntry;
  }

  lemma SameFailure(v: SysState, c: Call, m: CreateResult, v': SysState, now: SysState)
    requires c.WriteCall? && Fails(v, c, m, v') && SameVolume(v', now)
    ensures Fails(v, c, m, now)
  {
  }

  /** What is stale after a call that does not panic has been carried over. */
  lemma StaleIsCarried(v: SysState, c: Call, o: Reply, v': SysState, i: u32)
    requires Steps(v, c, o, v') && !Panics(o) && StaleAt(v', i)
    ensures Carried(v, c, v', i)
  {
    hide Decode, Resolve, LoadedValues, OnlyLoaded, EntryMade, DirMade, Fails, CreateOutcome, Grows, StaleAt,
      WriteStep, RemovedTree, CanWrite;
    match c
    case CreateCall(_, _, _) =>
      LoadedWasTaken(v, v', i);
      CreateMakesStale(v, c, o.c, v', i);
    case MkDirCall(_, _, _) =>
      LoadedWasTaken(v, v', i);
      MkDirMakesStale(v, c, o.c, v', i);
    case WriteCall(_, _, _, _) =>
      if Target(v, c).Found? {
        SaveMakesStale(v, c, o.w, v', i);
      } else if Target(v, c).error == ENOENT {
        WriteNewMakesStale(v, c, o.w, v', i);
      } else {
        UnresolvedWriteStale(v, c, o.w, v', i);
      }
    case ReadCall(_, _) =>
      LoadedWasTaken(v, v', i);
      CarriedOver(v, c, v', i);
    case RemoveCall(_, _) =>
      RemovalMakesStale(v, c, o.d, v', i);
  }

  /** A directory becomes stale only by growing: over any call that does not panic, what is stale afterwards was stale
      before or is the directory that the call has made grow. */
  lemma StaleOnlyByGrowth(v: SysState, c: Call, o: Reply, v': SysState, i: u32)
    requires Steps(v, c, o, v') && !Panics(o) && StaleAt(v', i)
    ensures StaleAt(v, i) || Grows(v, c, i)
  {
    hide Decode, Steps, Grows, Older;
    StaleIsCarried(v, c, o, v', i);
  }

  /** ... so that cached copies stay earlier states of what is on disk. */
  lemma StepKeepsAged(v: SysState, c: Call, o: Reply, v': SysState, s': Shape)
    requires Aged(v) && Steps(v, c, o, v') && !Panics(o) && VolumeOrder(v', s')
    ensures Aged(v')
  {
    hide Decode, Steps, Grows, Older, FsOk, TreeOk;
    forall i | i in v'.cache && i < INODES && Taken(v'.ibm, i) ensures Older(v'.cache[i], Decode(v'.itab[i])) {
      if StaleAt(v', i) {
        StaleIsCarried(v, c, o, v', i);
        if i in v.cache && Decode(v'.itab[i]) != Decode(v.itab[i]) {
          OlderTransitive(v.cache[i], Decode(v.itab[i]), Decode(v'.itab[i]));
        }
      } else {
        FsOkInode(v'.ibm, v'.itab, v'.dbm, v'.data, i);
        OlderSelf(Decode(v'.itab[i]));
      }
    }
  }

  lemma CreateMakesStale(v: SysState, c: Call, r: CreateResult, v': SysState, i: u32)
    requires c.CreateCall? && CreateStep(v, c, r, v') && !Panics(CreateReply(r)) && StaleAt(v', i)
    requires Taken(v.ibm, i) && LoadedValues(v.ibm, v.itab, v.cache, v'.cache)
    ensures Carried(v, c, v', i)
  {
    hide Decode, Resolve, LoadedValues, OnlyLoaded, EntryMade, Fails, CreateOutcome, Grows, StaleAt;
    if r == Existed {
      AtInodes(v', i);
      CarriedOver(v, c, v', i);
    } else if r.Created? {
      EntryMakesStale(v, c, r.inum, v', i);
    } else {
      CreationFails(v, c, 0, r);
      FailureMakesStale(v, c, r, v', i);
    }
  }

  lemma MkDirMakesStale(v: SysState, c: Call, r: CreateResult, v': SysState, i: u32)
    requires c.MkDirCall? && MkDirStep(v, c, r, v') && !Panics(CreateReply(r)) && StaleAt(v', i)
    requires Taken(v.ibm, i) && LoadedValues(v.ibm, v.itab, v.cache, v'.cache)
    ensures Carried(v, c, v', i)
  {
    hide Decode, Resolve, LoadedValues, OnlyLoaded, DirMade, Fails, CreateOutcome, Grows, StaleAt;
    if r == CreateError(EEXIST) {
      FailureMakesStale(v, c, r, v', i);
    } else if r.Created? {
      DirMakesStale(v, c, r.inum, v', i);
    } else {
      CreationFails(v, c, 1, r);
      FailureMakesStale(v, c, r, v', i);
    }
  }

  lemma AtInodes(v: SysState, i: u32)
    requires StaleAt(v, i)
    ensures i < INODES
  {
  }

  lemma UnresolvedWriteStale(v: SysState, c: Call, r: WriteResult, v': SysState, i: u32)
    requires c.WriteCall? && Target(v, c).Failed? && Target(v, c).error != ENOENT && WriteStep(v, c, r, v')
    requires StaleAt(v', i)
    ensures Carried(v, c, v', i)
  {
    hide Decode, Resolve, LoadedValues, OnlyLoaded;
    var w: u32 :| !Taken(v.ibm, w) && OnlyLoaded(v.ibm, v.itab, v.cache, v'.ibm, v'.cache - {w});
    var now := v'.(cache := v'.cache - {w});
    assert StaleAt(now, i);
    LoadedWasTaken(v, now, i);
    CarriedOver(v, c, now, i);
  }

  lemma RemovalMakesStale(v: SysState, c: Call, r: RemoveResult, v': SysState, i: u32)
    requires c.RemoveCall? && RemoveStep(v, c, r, v') && StaleAt(v', i)
    ensures Carried(v, c, v', i)
  {
    hide Decode, Resolve, LoadedValues, LastStep, TreeAt, SlotCleared, BlocksFreed, PathAfterRemoval, OthersKept,
      Slots, NBlocks, FirstNamed, OwnerString, Bit;
    assert Taken(v.ibm, i);
    CarriedOver(v, c, v', i);
  }

  /** Over a session, only directories that have had to grow in it become stale. */
  lemma {:induction false} SessionStale(calls: seq<Call>, replies: seq<Reply>, vs: seq<SysState>, i: u32)
    requires IsSession(calls, replies, vs) && (forall m :: 0 <= m < |calls| ==> !Panics(replies[m]))
    ensures StaleAt(vs[|calls|], i) ==> StaleAt(vs[0], i) || exists m :: 0 <= m < |calls| && Grows(vs[m], calls[m], i)
    decreases |calls|
  {
    hide Steps, StaleAt, Grows, Panics;
    if calls != [] {
      var n := |calls| - 1;
      assert vs[..n + 1][n] == vs[n];
      SessionStale(calls[..n], replies[..n], vs[..n + 1], i);
      if StaleAt(vs[n + 1], i) {
        StaleOnlyByGrowth(vs[n], calls[n], replies[n], vs[n + 1], i);
        if !StaleAt(vs[0], i) && !Grows(vs[n], calls[n], i) {
          var m :| 0 <= m < n && Grows(vs[..n + 1][m], calls[..n][m], i);
          assert Grows(vs[m], calls[m], i);
        }
      }
    }
  }

  /** Nothing is lost where nothing is stale. */
  lemma CurrentNeverLeaks(v: SysState, s: Shape, c: Call)
    requires Order(v, s) && c.RemoveCall? && CleanPath(c.comps)
    requires Target(v, c).Found? ==> CurrentBelow(v, Target(v, c).inum)
    ensures !Leaks(v, c)
  {
    hide FsOk, TreeOk, Resolve, StaleAt, TreeAt, Inums, Hangs, Decode, CountsAgree, NoneStale, Aged, Seen, OwnerString;
    if c.comps != [] && Target(v, c).Found? {
      var t, p, q := PathLeadsToTree(v.ibm, v.itab, v.dbm, v.data, s, c.euid, c.comps);
      HangsAt(v.ibm, v.itab, v.data, s, t, p, q);
      LastStepLeads(v.itab, v.data, c.euid, c.comps, p, t.inum, q);
      forall t': Tree | t'.inum == Target(v, c).inum && TreeAt(v.itab, v.data, t')
        ensures CountsAgree(v.itab, Seen(v), Inums(t'))
      {
        TreeAtUnique(v.itab, v.data, t, t');
        CurrentCountsAgree(v, Inums(t));
      }
    }
  }

  /** The root directory lies below no path that can be removed, so it does no harm if it is the only one that is
      stale. */
  lemma RootStaleIsHarmless(v: SysState, s: Shape, c: Call)
    requires Order(v, s) && c.RemoveCall? && CleanPath(c.comps) && forall i: u32 :: StaleAt(v, i) ==> i <= ROOTINUM
    ensures !Leaks(v, c)
  {
    hide FsOk, TreeOk, Resolve, StaleAt, TreeAt, Inums, Hangs, Leaks, Aged;
    if c.comps != [] && Target(v, c).Found? {
      var t, p, q := PathLeadsToTree(v.ibm, v.itab, v.dbm, v.data, s, c.euid, c.comps);
      HangsAbove(v.ibm, v.itab, v.data, s, t, p, q);
      LastStepLeads(v.itab, v.data, c.euid, c.comps, p, t.inum, q);
      forall t': Tree | t'.inum == Target(v, c).inum && TreeAt(v.itab, v.data, t') ensures NoneStale(v, Inums(t')) {
        TreeAtUnique(v.itab, v.data, t, t');
      }
      CurrentNeverLeaks(v, s, c);
    } else {
      NothingLeaks(v, c);
    }
  }

  /** A directory that a creation has made grow leaks when it is removed: the kernel has loaded it for the creation, and
      what it has loaded is one block behind. */
  lemma GrownThenRemovedLeaks(v: SysState, s: Shape, c: Call, j: u32, v': SysState, s': Shape, i: u32, rm: Call)
    requires Order(v, s) && (c.CreateCall? || c.MkDirCall?) && Steps(v, c, CreateReply(Created(j)), v')
    requires Grows(v, c, i) && Taken(v.ibm, i) && Order(v', s') && rm.RemoveCall? && rm.comps != []
    requires CleanPath(rm.comps) && Target(v', rm) == Found(i)
    requires var p := Resolve(v'.itab, v'.data, rm.euid, ROOTINUM, DirOf(rm.comps));
      p.Found? && p.inum < INODES && CanWrite(rm.euid, Decode(v'.itab[p.inum]))
    ensures Leaks(v', rm)
  {
    hide FsOk, TreeOk, Resolve, TreeAt, Inums, Hangs, Decode, Seen, OwnerString, Steps, Grows, Aged, NBlocks, LastStep;
    if c.CreateCall? {
      CopyIsSmaller(v, c, j, v', i);
    } else {
      CopyOfParentIsSmaller(v, c, j, v', i);
    }
    var t, p', q' := PathLeadsToTree(v'.ibm, v'.itab, v'.dbm, v'.data, s', rm.euid, rm.comps);
    HangsAt(v'.ibm, v'.itab, v'.data, s', t, p', q');
    LastStepLeads(v'.itab, v'.data, rm.euid, rm.comps, p', t.inum, q');
    SeenAt(v', i);
    RootIsIn(t);
    assert !CountsAgree(v'.itab, Seen(v'), Inums(t));
  }

  lemma CopyIsSmaller(v: SysState, c: Call, j: u32, v': SysState, i: u32)
    requires Aged(v) && c.CreateCall? && Steps(v, c, CreateReply(Created(j)), v') && Grows(v, c, i) && Taken(v.ibm, i)
    ensures i < INODES && i in v'.cache && NBlocks(v'.cache[i].size) < NBlocks(Decode(v'.itab[i]).size)
  {
    hide Decode, Resolve, ParentFor, Room, CreateOutcome, NBlocks, MadeEntry, OwnerBytes;
    var par, q: nat :| par == ParentOf(v, c).inum &&
      MadeEntry(v.ibm, v.itab, v.dbm, v.data, par, BaseOf(c.comps), j, NewRecordOf(c), q,
                v'.ibm, v'.itab, v'.dbm, v'.data);
    UnlessGrown(v.ibm, v.itab, v.dbm, v.data, par, BaseOf(c.comps), j, NewRecordOf(c), q,
                v'.ibm, v'.itab, v'.dbm, v'.data, i);
  }

  lemma CopyOfParentIsSmaller(v: SysState, c: Call, j: u32, v': SysState, i: u32)
    requires Aged(v) && c.MkDirCall? && Steps(v, c, CreateReply(Created(j)), v') && Grows(v, c, i) && Taken(v.ibm, i)
    ensures i < INODES && i in v'.cache && NBlocks(v'.cache[i].size) < NBlocks(Decode(v'.itab[i]).size)
  {
    hide Decode, Resolve, ParentFor, Room, CreateOutcome, NBlocks, MadeInode, OwnerBytes;
    var par, q: nat :| par == ParentOf(v, c).inum &&
      MadeInode(v.ibm, v.itab, v.dbm, v.data, par, BaseOf(c.comps), j, NewRecordOf(c), q,
                v'.ibm, v'.itab, v'.dbm, v'.data);
    UnlessDirGrown(v.ibm, v.itab, v.dbm, v.data, par, BaseOf(c.comps), j, NewRecordOf(c), q,
                   v'.ibm, v'.itab, v'.dbm, v'.data, i);
  }

  lemma RootIsIn(t: Tree)
    ensures t.inum as nat in Inums(t)
  {
  }

  lemma NothingLeaks(v: SysState, c: Call)
    requires c.comps == [] || Target(v, c).Failed?
    ensures !Leaks(v, c)
  {
  }

  lemma HangsAbove(ibm: InodeBitmap, itab: InodeTable, data: Blocks, s: Shape, t: Tree, p: u32, q: nat)
    requires Hangs(ibm, itab, data, s, t, p, q)
    ensures TreeAt(itab, data, t) && forall i: nat :: i <= ROOTINUM as nat ==> i !in Inums(t)
  {
  }

  lemma LastStepLeads(itab: InodeTable, data: Blocks, euid: Name, comps: seq<Name>, p: u32, n: u32, q: nat)
    requires LastStep(itab, data, euid, comps, p, n, q)
    ensures Resolve(itab, data, euid, ROOTINUM, comps) == Found(n)
  {
  }

  // ---------- the system calls as steps ----------

  /** The kernel between two calls. */
  ghost predicate InOrder(k: Kernel, s: Shape)
    reads k, k.fs, k.fs.disk, k.fs.disk.buf, k.inodeCache.Values
  {
    Ready(k) && TreeOk(k.fs.ibm, k.fs.itab, k.fs.data, s) && Aged(Observe(k))
  }

  lemma InOrderParts(k: Kernel, s: Shape)
    requires InOrder(k, s)
    ensures Ready(k) && k.Valid() && Order(Observe(k), s)
  {
    hide FsOk, TreeOk;
  }

  lemma StillInOrder(k: Kernel, s: Shape)
    requires Ready(k) && Order(Observe(k), s)
    ensures InOrder(k, s)
  {
    hide FsOk, TreeOk;
  }

  lemma ReadyIffOk(k: Kernel, o: Reply)
    requires Panics(o) || Ready(k)
    ensures Panics(o) || (k.Valid() && (Ready(k) <==> FsOk(k.fs.ibm, k.fs.itab, k.fs.dbm, k.fs.data)))
  {
    hide FsOk, Shows;
  }

  lemma OrderIsOk(v: SysState, s: Shape)
    requires Order(v, s)
    ensures FsOk(v.ibm, v.itab, v.dbm, v.data)
  {
    hide FsOk;
  }

  lemma NotInOrder(k: Kernel, v: SysState, s: Shape, c: Call)
    requires LeftBehind(v, s, c, Observe(k))
    ensures !Ready(k)
  {
    hide FsOk, FsHeld, TreeOk, Lost, Unseen, CountsAgree, Decode;
  }

  method PerformCreate(k: Kernel, c: Call) returns (r: CreateResult)
    requires Ready(k) && c.CreateCall? && Enabled(Observe(k), c)
    modifies k`inodeCache, k.fs`data, k.fs`dbm, k.fs`itab, k.fs`ibm, k.fs.disk.buf
    ensures CreateStep(old(Observe(k)), c, r, Observe(k))
    ensures forall i :: i in k.inodeCache ==>
      (i in old(k.inodeCache) && k.inodeCache[i] == old(k.inodeCache)[i]) || fresh(k.inodeCache[i])
    ensures Panics(CreateReply(r)) || Ready(k)
  {
    hide Ready, FsOk, Shows, Decode, Resolve, MadeEntry, Failure, CleanTarget, ParentFor, CreateOutcome, OwnerBytes,
      OnlyLoaded, Cached, FreeBlocksClean;
    ghost var v, q := Observe(k), 0;
    r, q := CreateFile(k, c.euid, c.comps, c.now);
    assert r.Created? ==>
      MadeEntry(v.ibm, v.itab, v.dbm, v.data, ParentOf(v, c).inum, BaseOf(c.comps), r.inum, NewRecordOf(c), q,
                k.fs.ibm, k.fs.itab, k.fs.dbm, k.fs.data);
  }

  method PerformMkDir(k: Kernel, c: Call) returns (r: CreateResult)
    requires Ready(k) && c.MkDirCall? && Enabled(Observe(k), c)
    modifies k`inodeCache, k.fs`data, k.fs`dbm, k.fs`itab, k.fs`ibm, k.fs.disk.buf
    ensures MkDirStep(old(Observe(k)), c, r, Observe(k))
    ensures forall i :: i in k.inodeCache ==>
      (i in old(k.inodeCache) && k.inodeCache[i] == old(k.inodeCache)[i]) || fresh(k.inodeCache[i])
    ensures Panics(CreateReply(r)) || Ready(k)
  {
    hide Ready, FsOk, Shows, Decode, Resolve, MadeInode, Failure, CleanTarget, ParentFor, CreateOutcome, OwnerBytes,
      OnlyLoaded, Cached, FreeBlocksClean;
    ghost var v, q := Observe(k), 0;
    r, q := MkDir(k, c.euid, c.comps, c.now);
    assert r.Created? ==>
      MadeInode(v.ibm, v.itab, v.dbm, v.data, ParentOf(v, c).inum, BaseOf(c.comps), r.inum, NewRecordOf(c), q,
                k.fs.ibm, k.fs.itab, k.fs.dbm, k.fs.data);
  }

  lemma ReadyFilesCurrent(k: Kernel)
    requires Ready(k)
    ensures FilesCurrent(Observe(k))
  {
    hide FsOk, Shows, Decode;
  }

  method PerformWrite(k: Kernel, c: Call) returns (r: WriteResult)
    requires Ready(k) && c.WriteCall? && Enabled(Observe(k), c)
    modifies k`inodeCache, k.inodeCache.Values, k.fs`data, k.fs`dbm, k.fs`itab, k.fs`ibm, k.fs.disk.buf
    ensures WriteStep(old(Observe(k)), c, r, Observe(k))
    ensures forall i :: i in k.inodeCache ==>
      (i in old(k.inodeCache) && k.inodeCache[i] == old(k.inodeCache)[i]) || fresh(k.inodeCache[i])
    ensures Panics(WriteReply(r)) || Ready(k)
  {
    hide Ready, FsOk, Shows, Decode, Resolve, MadeEntry, Failure, CleanTarget, ParentFor, WriteNewOutcome,
      SaveOutcome, OwnerBytes, OnlyLoaded, Cached, CreatedAndSaved, FileSaved, FilesCurrent;
    ghost var v := Observe(k);
    r := WriteFile(k, c.euid, c.comps, c.content, c.now);
    if Target(v, c) == PathResult.Failed(ENOENT) && r.Wrote? && (r.f.FileError? || r.f == FileTooBig) {
      ghost var i: u32, q: nat :|
        MadeEntry(v.ibm, v.itab, v.dbm, v.data, ParentOf(v, c).inum, BaseOf(c.comps), i, NewRecordOf(c), q,
                  k.fs.ibm, k.fs.itab, k.fs.dbm, k.fs.data);
      assert EntryMade(v, c, i, Observe(k));
    }
    if !Panics(WriteReply(r)) {
      ReadyFilesCurrent(k);
    }
  }

  method PerformRead(k: Kernel, c: Call) returns (r: ReadResult)
    requires Ready(k) && c.ReadCall?
    modifies k`inodeCache
    ensures Ready(k) && ReadStep(old(Observe(k)), c, r, Observe(k))
    ensures forall i :: i in k.inodeCache ==>
      (i in old(k.inodeCache) && k.inodeCache[i] == old(k.inodeCache)[i]) || fresh(k.inodeCache[i])
  {
    hide Ready, FsOk, Shows, Decode, ReadOf, OnlyLoaded, Cached;
    r := ReadFile(k, c.euid, c.comps);
  }

  method PerformRemove(k: Kernel, c: Call, ghost s: Shape) returns (r: RemoveResult)
    requires InOrder(k, s) && c.RemoveCall? && Enabled(Observe(k), c)
    modifies k`inodeCache, k.inodeCache.Values, k.fs`ibm, k.fs`dbm, k.fs`data, k.fs.disk.buf
    ensures RemoveStep(old(Observe(k)), c, r, Observe(k))
    ensures k.Valid() && (Ready(k) <==> FsOk(k.fs.ibm, k.fs.itab, k.fs.dbm, k.fs.data))
    ensures forall i :: i in k.inodeCache ==>
      (i in old(k.inodeCache) && k.inodeCache[i] == old(k.inodeCache)[i]) || fresh(k.inodeCache[i])
  {
    hide Ready, FsOk, Shows, Decode, Resolve, TreeOk, CleanPath, OwnerString, Inums, TreeAt, UnlinkedAs,
      PathAfterRemoval, NBlocks, Bit, LoadedValues, Cached, Slots, FirstNamed, Removable, LastStep, Aged, Seen, Lost,
      Unseen, FsHeld, CountsAgree;
    InOrderParts(k, s);
    ghost var t, p, q := Node(0, []), 0, 0;
    ghost var v := Observe(k);
    if c.comps != [] && Target(v, c).Found? {
      t, p, q := ForestRemovable(k, s, c.euid, c.comps);
      RemovableFacts(k, t, p, q, c.euid, c.comps);
    }
    r := RemoveAll(k, c.euid, c.comps, Seen(v), t, p, t.inum, q);
    if r == Removed {
      UnlinkedSlot(v, c, t, p, q, Observe(k));
      assert RemovedTree(v, c, t, p, q, Observe(k));
    }
  }

  lemma RemovableFacts(k: Kernel, t: Tree, p: u32, q: nat, euid: Name, comps: seq<Name>)
    requires Removable(k, Seen(Observe(k)), t, p, t.inum, q)
    requires LastStep(k.fs.itab, k.fs.data, euid, comps, p, t.inum, q)
    ensures TreeAt(k.fs.itab, k.fs.data, t) && p < INODES
    ensures comps != [] && Resolve(k.fs.itab, k.fs.data, euid, ROOTINUM, DirOf(comps)) == Found(p)
  {
  }

  lemma UnlinkedSlot(v: SysState, c: Call, t: Tree, p: u32, q: nat, v': SysState)
    requires c.comps != []
    requires UnlinkedAs(Seen(v), v.ibm, v.itab, v.dbm, v.data, p, BaseOf(c.comps), t.inum, t, q, v'.ibm, v'.dbm,
                        v'.data)
    ensures p < INODES && NBlocks(Decode(v.itab[p]).size) <= MAXBLOCKS && q < |Slots(Decode(v.itab[p]), v.data)|
  {
  }

  /** Any enabled call is a step, panics if and only if the disk is too full for it, and otherwise leaves the kernel in
      order if and only if it does not leak. */
  method Perform(k: Kernel, c: Call, ghost s: Shape) returns (o: Reply, ghost s': Shape)
    requires InOrder(k, s) && Enabled(Observe(k), c)
    modifies k`inodeCache, k.inodeCache.Values, k.fs`data, k.fs`dbm, k.fs`itab, k.fs`ibm, k.fs.disk.buf
    ensures Steps(old(Observe(k)), c, o, Observe(k))
    ensures Panics(o) <==> DiskFull(old(Observe(k)), c)
    ensures !Panics(o) ==> (InOrder(k, s') <==> !Leaks(old(Observe(k)), c))
    ensures Leaks(old(Observe(k)), c) ==> k.Valid() && LeftBehind(old(Observe(k)), s, c, Observe(k))
    ensures forall i :: i in k.inodeCache ==>
      (i in old(k.inodeCache) && k.inodeCache[i] == old(k.inodeCache)[i]) || fresh(k.inodeCache[i])
  {
    hide Ready, FsOk, Order, Enabled, DiskFull, CreateStep, MkDirStep, WriteStep, ReadStep, RemoveStep, TreeOk, Leaks,
      LeftBehind, Aged;
    ghost var v := Observe(k);
    InOrderParts(k, s);
    s' := s;
    match c {
      case CreateCall(_, _, _) =>
        var r := PerformCreate(k, c);
        o := CreateReply(r);
        ReadyIffOk(k, o);
      case MkDirCall(_, _, _) =>
        var r := PerformMkDir(k, c);
        o := CreateReply(r);
        ReadyIffOk(k, o);
      case WriteCall(_, _, _, _) =>
        var r := PerformWrite(k, c);
        o := WriteReply(r);
        ReadyIffOk(k, o);
      case ReadCall(_, _) =>
        var r := PerformRead(k, c);
        o := ReadReply(r);
        ReadyIffOk(k, o);
      case RemoveCall(_, _) =>
        var r := PerformRemove(k, c, s);
        o := RemoveReply(r);
    }
    EnabledSize(v, c);
    OnlyRemovalsLeak(v, c);
    PanicsIffFull(v, c, o, Observe(k));
    if !Panics(o) {
      s' := StepKeepsOrder(v, s, c, o, Observe(k));
      if Leaks(v, c) {
        NotInOrder(k, v, s, c);
      } else {
        OrderIsOk(Observe(k), s');
        StillInOrder(k, s');
      }
    }
  }

  lemma EnabledSize(v: SysState, c: Call)
    requires Enabled(v, c)
    ensures c.WriteCall? ==> |c.content| <= U32 - BLOCKSIZE
  {
  }

  /** A fresh disk is in order, its free blocks are clean and nothing is cached. */
  method StartSession(disk: MemDisk, superBuf: Block, now: u64) returns (k: Kernel, ghost s: Shape)
    requires disk.buf.Length == DISKSIZE
    modifies disk.buf
    ensures fresh(k) && fresh(k.fs) && k.fs.disk == disk && k.inodeCache == map[]
    ensures InOrder(k, s) && FreeBlocksClean(k.fs.dbm, k.fs.data) && Decode(k.fs.itab[ROOTINUM]) == RootInode(now)
    ensures |Free(k.fs.dbm)| == BLOCKS && (forall i: nat :: Taken(k.fs.ibm, i) <==> i <= ROOTINUM as nat)
  {
    hide Ready, FsOk, Shows, Decode, Listing, FreeBlocksClean, Free;
    k := Start(disk, superBuf, now);
    s := Shape(map[0 := 0, 1 := 0, 2 := 0], map[0 := 0, 1 := 0, 2 := 0], 0);
    FlatForest(k, s);
  }
}

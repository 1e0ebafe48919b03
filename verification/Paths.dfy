/** The whole volume as the kernel needs it, permissions, and path resolution
    (computer/kernel.go:208-256, 564-592). */
module Paths {
  import opened Bytes
  import opened Bitmap
  import opened Layout
  import opened Inodes
  import opened BlockMap
  import opened Volume
  import opened Dir

  // ---------- permissions ----------

  const ROOTUSER: Name := [0x72, 0x6f, 0x6f, 0x74]

  /** The three permission bits are x = bit 0, w = bit 1, r = bit 2. */
  predicate Allowed(euid: Name, ino: Ino, bit: nat)
  {
    if euid == ROOTUSER then true
    else if OwnerString(ino.owner) == euid then Bit(ino.ownerMode, bit)
    else Bit(ino.otherMode, bit)
  }

  predicate CanExecute(euid: Name, ino: Ino) { Allowed(euid, ino, 0) }
  predicate CanWrite(euid: Name, ino: Ino) { Allowed(euid, ino, 1) }
  predicate CanRead(euid: Name, ino: Ino) { Allowed(euid, ino, 2) }

  /** The mode that counts for a user: that of the owner if the owner field holds the name, and that of the others. */
  function ModeFor(euid: Name, ino: Ino): nat
  {
    if OwnerString(ino.owner) == euid then ino.ownerMode else ino.otherMode
  }

  /** What the mode numbers mean: 1 is execute, 2 is write, 4 is read; root may do everything. */
  lemma PermissionsAre(euid: Name, ino: Ino)
    ensures euid == [0x72, 0x6f, 0x6f, 0x74] ==> CanExecute(euid, ino) && CanWrite(euid, ino) && CanRead(euid, ino)
    ensures euid != [0x72, 0x6f, 0x6f, 0x74] ==>
      && (CanExecute(euid, ino) <==> ModeFor(euid, ino) % 2 == 1)
      && (CanWrite(euid, ino) <==> ModeFor(euid, ino) / 2 % 2 == 1)
      && (CanRead(euid, ino) <==> ModeFor(euid, ino) / 4 % 2 == 1)
  {
    hide OwnerString;
    var m := ModeFor(euid, ino);
    assert Bit(m, 0) == (m % 2 == 1) && Bit(m, 1) == Bit(m / 2, 0) && Bit(m, 2) == Bit(m / 2, 1) == Bit(m / 4, 0);
  }

  /** The eight modes, for the owner with m and for others with m. */
  lemma ModeTable(euid: Name, ino: Ino, m: byte)
    requires euid != [0x72, 0x6f, 0x6f, 0x74] && ModeFor(euid, ino) == m < 8
    ensures CanExecute(euid, ino) <==> m in {1, 3, 5, 7}
    ensures CanWrite(euid, ino) <==> m in {2, 3, 6, 7}
    ensures CanRead(euid, ino) <==> m in {4, 5, 6, 7}
  {
    hide OwnerString, CanExecute, CanWrite, CanRead;
    PermissionsAre(euid, ino);
  }

  /** May the user write, and read, this inode: in numbers. */
  predicate MayWrite(euid: Name, ino: Ino)
  {
    euid == [0x72, 0x6f, 0x6f, 0x74] || ModeFor(euid, ino) / 2 % 2 == 1
  }

  predicate MayRead(euid: Name, ino: Ino)
  {
    euid == [0x72, 0x6f, 0x6f, 0x74] || ModeFor(euid, ino) / 4 % 2 == 1
  }

  // ---------- the volume ----------

  const ROOTINUM: u32 := 2

  /** The inodes whose bit is set. */
  ghost function Inos(ibm: InodeBitmap, itab: InodeTable): InodeMap
  {
    map i: nat | i < INODES && Taken(ibm, i) :: Decode(itab[i])
  }

  predicate IsDir(ino: Ino)
  {
    ino.fType == S_IFDIR
  }

  /** One of the two types that getInode attaches operations to (computer/kernel.go:164-170). */
  predicate HasOps(ino: Ino)
  {
    ino.fType == S_IFREG || ino.fType == S_IFDIR
  }

  /** A directory whose entries are well formed and lead to allocated inodes. */
  ghost predicate DirSound(ino: Ino, data: Blocks, ibm: InodeBitmap)
    requires NBlocks(ino.size) <= MAXBLOCKS
  {
    && DirOk(Slots(ino, data))
    && forall q :: 0 <= q < |Slots(ino, data)| && !IsFree(Slots(ino, data)[q]) ==>
         Taken(ibm, Get32(Slots(ino, data)[q], 0))
  }

  /** What holds of a volume between system calls. */
  ghost predicate FsOk(ibm: InodeBitmap, itab: InodeTable, dbm: DataBitmap, data: Blocks)
  {
    && Owned(Inos(ibm, itab), data, dbm)
    && (forall i: nat :: i <= ROOTINUM ==> Taken(ibm, i))
    && (forall i: nat :: Taken(ibm, i) ==> Decode(itab[i]).size <= MAXSIZE && HasOps(Decode(itab[i])))
    && (forall i: nat :: Taken(ibm, i) && IsDir(Decode(itab[i])) ==> DirSound(Decode(itab[i]), data, ibm))
  }

  // ---------- path resolution ----------

  datatype Errno = EPERM | ENOENT | EACCES | EEXIST | ENOTDIR | EISDIR | ENOSPC | EIO

  datatype PathResult = Found(inum: u32) | Failed(error: Errno)

  /** The first entry with the name. */
  function Lookup(es: seq<DirEntry>, name: Name): Option<u32>
  {
    if es == [] then None
    else if es[0].name == name then Some(es[0].inum)
    else Lookup(es[1..], name)
  }

  ghost predicate Walkable(itab: InodeTable, i: u32)
  {
    i < INODES && NBlocks(Decode(itab[i]).size) <= MAXBLOCKS
  }

  /** Where comps leads from inode i: checks in the order ENOTDIR, EACCES, ENOENT at each component. */
  ghost function Resolve(itab: InodeTable, data: Blocks, euid: Name, i: u32, comps: seq<Name>): PathResult
    decreases comps
  {
    if comps == [] then Found(i)
    else if !Walkable(itab, i) then Failed(EIO)
    else
      var ino := Decode(itab[i]);
      if !IsDir(ino) then Failed(ENOTDIR)
      else if !CanExecute(euid, ino) then Failed(EACCES)
      else
        match Lookup(Entries(Slots(ino, data)), comps[0])
        case None => Failed(ENOENT)
        case Some(j) => Resolve(itab, data, euid, j, comps[1..])
  }

  lemma {:induction false} LookupConcat(a: seq<DirEntry>, b: seq<DirEntry>, name: Name)
    ensures Lookup(a + b, name) == if Lookup(a, name) == None then Lookup(b, name) else Lookup(a, name)
  {
    if a == [] {
      assert a + b == b;
    } else {
      assert (a + b)[1..] == a[1..] + b;
      LookupConcat(a[1..], b, name);
    }
  }

  /** Looking a name up in the listing finds the first slot with that name. */
  lemma {:induction false} LookupIsFirstNamed(slots: seq<Slot>, name: Name, k: nat)
    requires FirstNamed(slots, name, k)
    ensures Lookup(Entries(slots), name) == if k < |slots| then Some(Get32(slots[k], 0)) else None
  {
    if slots != [] {
      hide SlotName, Entries, Lookup;
      var n := |slots| - 1;
      assert forall q :: 0 <= q < n ==> slots[..n][q] == slots[q];
      LookupIsFirstNamed(slots[..n], name, if k < n then k else n);
      EntriesAround(slots, n);
      LookupConcat(Entries(slots[..n]), Entries([slots[n]]), name);
      LookupInOne(slots[n], name);
      var before, one := Entries(slots[..n]), Entries([slots[n]]);
      assert Entries(slots) == before + one by {
        NoEntries(slots[n + 1..]);
        assert before + one + [] == before + one;
      }
    } else {
      NoEntries(slots);
    }
  }

  lemma LookupInOne(s: Slot, name: Name)
    ensures Lookup(Entries([s]), name) == if Named(s, name) then Some(Get32(s, 0)) else None
  {
    EntriesOne(s);
    hide Entries;
    if !IsFree(s) {
      var e := EntryOf(s).value;
      assert [e][1..] == [];
    }
  }

  lemma {:induction false} FirstNamedExists(slots: seq<Slot>, name: Name) returns (k: nat)
    ensures FirstNamed(slots, name, k)
  {
    k := 0;
    while k < |slots| && !Named(slots[k], name)
      invariant k <= |slots| && forall q :: 0 <= q < k ==> !Named(slots[q], name)
    {
      k := k + 1;
    }
  }

  // ---------- an independent account of resolution ----------

  /** Inode i is a directory open to euid and the first entry called name leads to j. */
  ghost predicate Step(itab: InodeTable, data: Blocks, euid: Name, i: u32, name: Name, j: u32)
  {
    && Walkable(itab, i)
    && IsDir(Decode(itab[i]))
    && CanExecute(euid, Decode(itab[i]))
    && exists k: nat :: FirstNamed(Slots(Decode(itab[i]), data), name, k)
         && k < |Slots(Decode(itab[i]), data)| && Get32(Slots(Decode(itab[i]), data)[k], 0) == j
  }

  /** c is the list of inodes visited from `start` along comps. */
  ghost predicate Chain(itab: InodeTable, data: Blocks, euid: Name, start: u32, comps: seq<Name>, c: seq<u32>)
  {
    && |c| == |comps| + 1
    && c[0] == start
    && forall m :: 0 <= m < |comps| ==> Step(itab, data, euid, c[m], comps[m], c[m + 1])
  }

  /** At inode i the component decides the error e. */
  ghost predicate Stops(itab: InodeTable, data: Blocks, euid: Name, i: u32, name: Name, e: Errno)
  {
    if !Walkable(itab, i) then e == EIO
    else if !IsDir(Decode(itab[i])) then e == ENOTDIR
    else if !CanExecute(euid, Decode(itab[i])) then e == EACCES
    else e == ENOENT && forall q :: 0 <= q < |Slots(Decode(itab[i]), data)| ==>
      !Named(Slots(Decode(itab[i]), data)[q], name)
  }

  /** One component: either a step or a stop, and Lookup agrees. */
  lemma StepOrStop(itab: InodeTable, data: Blocks, euid: Name, i: u32, comps: seq<Name>)
    requires comps != []
    ensures (exists j :: Step(itab, data, euid, i, comps[0], j)
               && Resolve(itab, data, euid, i, comps) == Resolve(itab, data, euid, j, comps[1..]))
         || (exists e :: Stops(itab, data, euid, i, comps[0], e) && Resolve(itab, data, euid, i, comps) == Failed(e))
  {
    if Walkable(itab, i) && IsDir(Decode(itab[i])) && CanExecute(euid, Decode(itab[i])) {
      var slots := Slots(Decode(itab[i]), data);
      var k := FirstNamedExists(slots, comps[0]);
      LookupIsFirstNamed(slots, comps[0], k);
      if k < |slots| {
        assert Step(itab, data, euid, i, comps[0], Get32(slots[k], 0));
      } else {
        assert Stops(itab, data, euid, i, comps[0], ENOENT);
      }
    } else {
      var e := if !Walkable(itab, i) then EIO else if !IsDir(Decode(itab[i])) then ENOTDIR else EACCES;
      assert Stops(itab, data, euid, i, comps[0], e);
    }
  }

  lemma StepUnique(itab: InodeTable, data: Blocks, euid: Name, i: u32, name: Name, j: u32, j': u32)
    requires Step(itab, data, euid, i, name, j) && Step(itab, data, euid, i, name, j')
    ensures j == j'
  {
    hide Slots, Decode, NBlocks, Named, CanExecute;
    var slots := Slots(Decode(itab[i]), data);
    var k: nat :| FirstNamed(slots, name, k) && k < |slots| && Get32(slots[k], 0) == j;
    var k': nat :| FirstNamed(slots, name, k') && k' < |slots| && Get32(slots[k'], 0) == j';
    assert k == k';
  }

  lemma StepsDoNotStop(itab: InodeTable, data: Blocks, euid: Name, i: u32, name: Name, j: u32, e: Errno)
    requires Step(itab, data, euid, i, name, j)
    ensures !Stops(itab, data, euid, i, name, e)
  {
    hide Slots, Decode, NBlocks, CanExecute;
    var slots := Slots(Decode(itab[i]), data);
    var k: nat :| FirstNamed(slots, name, k) && k < |slots| && Get32(slots[k], 0) == j;
    assert Named(slots[k], name);
  }

  /** A chain decides the result. */
  lemma {:induction false} ChainResolves(itab: InodeTable, data: Blocks, euid: Name, start: u32, comps: seq<Name>,
                                         m: nat, c: seq<u32>)
    requires m <= |comps| && Chain(itab, data, euid, start, comps[..m], c)
    ensures Resolve(itab, data, euid, start, comps) == Resolve(itab, data, euid, c[m], comps[m..])
    decreases m
  {
    hide Step, Stops, Resolve;
    if m > 0 {
      StepOrStop(itab, data, euid, start, comps);
      assert Step(itab, data, euid, c[0], comps[..m][0], c[1]);
      if e :| Stops(itab, data, euid, start, comps[0], e) {
        StepsDoNotStop(itab, data, euid, start, comps[0], c[1], e);
      }
      var j :| Step(itab, data, euid, start, comps[0], j)
               && Resolve(itab, data, euid, start, comps) == Resolve(itab, data, euid, j, comps[1..]);
      StepUnique(itab, data, euid, start, comps[0], j, c[1]);
      forall q | 0 <= q < m - 1 ensures Step(itab, data, euid, c[1..][q], comps[1..][..m - 1][q], c[1..][q + 1]) {
        assert Step(itab, data, euid, c[q + 1], comps[..m][q + 1], c[q + 2]);
      }
      ChainResolves(itab, data, euid, c[1], comps[1..], m - 1, c[1..]);
      assert comps[1..][m - 1..] == comps[m..];
    } else {
      assert comps[0..] == comps;
    }
  }

  lemma ResolveNothing(itab: InodeTable, data: Blocks, euid: Name, i: u32)
    ensures Resolve(itab, data, euid, i, []) == Found(i)
  {
  }

  /** Every resolution follows a chain to its end or to the component that decides the error. */
  lemma {:induction false} ResolveFollowsChain(itab: InodeTable, data: Blocks, euid: Name, start: u32, comps: seq<Name>)
    returns (m: nat, c: seq<u32>)
    ensures m <= |comps| && Chain(itab, data, euid, start, comps[..m], c)
    ensures match Resolve(itab, data, euid, start, comps)
      case Found(n) => m == |comps| && c[m] == n
      case Failed(e) => m < |comps| && Stops(itab, data, euid, c[m], comps[m], e)
    decreases comps
  {
    hide Step, Stops, Resolve;
    if comps == [] {
      ResolveNothing(itab, data, euid, start);
      return 0, [start];
    }
    StepOrStop(itab, data, euid, start, comps);
    if e :| Stops(itab, data, euid, start, comps[0], e) && Resolve(itab, data, euid, start, comps) == Failed(e) {
      return 0, [start];
    }
    var j :| Step(itab, data, euid, start, comps[0], j)
             && Resolve(itab, data, euid, start, comps) == Resolve(itab, data, euid, j, comps[1..]);
    var m', c' := ResolveFollowsChain(itab, data, euid, j, comps[1..]);
    m, c := m' + 1, [start] + c';
    forall q | 0 <= q < m ensures Step(itab, data, euid, c[q], comps[..m][q], c[q + 1]) {
      if q > 0 {
        assert Step(itab, data, euid, c'[q - 1], comps[1..][..m'][q - 1], c'[q]);
      }
    }
  }

  /** A path leads to n iff there is a chain of executable directories in which each first entry
      with the component's name leads to the next inode. */
  lemma ResolveFoundIffChain(itab: InodeTable, data: Blocks, euid: Name, comps: seq<Name>, n: u32)
    ensures Resolve(itab, data, euid, ROOTINUM, comps) == Found(n) <==>
      exists c :: Chain(itab, data, euid, ROOTINUM, comps, c) && c[|comps|] == n
  {
    assert comps[..|comps|] == comps;
    if Resolve(itab, data, euid, ROOTINUM, comps) == Found(n) {
      var m, c := ResolveFollowsChain(itab, data, euid, ROOTINUM, comps);
      assert Chain(itab, data, euid, ROOTINUM, comps, c) && c[|comps|] == n;
    }
    if c :| Chain(itab, data, euid, ROOTINUM, comps, c) && c[|comps|] == n {
      ChainResolves(itab, data, euid, ROOTINUM, comps, |comps|, c);
    }
  }

  /** The walk reaches a first component that decides e. */
  ghost predicate StopsAt(itab: InodeTable, data: Blocks, euid: Name, comps: seq<Name>, m: nat, c: seq<u32>, e: Errno)
  {
    m < |comps| && Chain(itab, data, euid, ROOTINUM, comps[..m], c) && Stops(itab, data, euid, c[m], comps[m], e)
  }

  lemma StoppedFails(itab: InodeTable, data: Blocks, euid: Name, comps: seq<Name>, m: nat, c: seq<u32>, e: Errno)
    requires StopsAt(itab, data, euid, comps, m, c, e)
    ensures Resolve(itab, data, euid, ROOTINUM, comps) == Failed(e)
  {
    hide Step, Stops, Resolve;
    ChainResolves(itab, data, euid, ROOTINUM, comps, m, c);
    StepOrStop(itab, data, euid, c[m], comps[m..]);
    if j :| Step(itab, data, euid, c[m], comps[m..][0], j) {
      StepsDoNotStop(itab, data, euid, c[m], comps[m], j, e);
    }
    var e' :| Stops(itab, data, euid, c[m], comps[m..][0], e') &&
      Resolve(itab, data, euid, c[m], comps[m..]) == Failed(e');
    StopUnique(itab, data, euid, c[m], comps[m], e, e');
  }

  lemma StopUnique(itab: InodeTable, data: Blocks, euid: Name, i: u32, name: Name, e: Errno, e': Errno)
    requires Stops(itab, data, euid, i, name, e) && Stops(itab, data, euid, i, name, e')
    ensures e == e'
  {
    hide Slots, Decode, NBlocks, CanExecute;
  }

  /** A path fails with e iff the walk reaches a first component that decides e. */
  lemma ResolveFailsIffStopped(itab: InodeTable, data: Blocks, euid: Name, comps: seq<Name>, e: Errno)
    ensures Resolve(itab, data, euid, ROOTINUM, comps) == Failed(e) <==>
      exists m, c :: StopsAt(itab, data, euid, comps, m, c, e)
  {
    hide Step, Stops, Resolve, Chain;
    if Resolve(itab, data, euid, ROOTINUM, comps) == Failed(e) {
      var m, c := ResolveFollowsChain(itab, data, euid, ROOTINUM, comps);
      assert StopsAt(itab, data, euid, comps, m, c, e);
    }
    if m, c :| StopsAt(itab, data, euid, comps, m, c, e) {
      StoppedFails(itab, data, euid, comps, m, c, e);
    }
  }
}

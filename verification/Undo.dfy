/** createFile, writeFile and removeAll of the same path, one after the other (computer/kernel.go:679-845). */
module Undo {
  import opened Bytes
  import opened Bitmap
  import opened Layout
  import opened Inodes
  import opened BlockMap
  import opened Allocator
  import opened Volume
  import opened Files
  import opened Dir
  import opened Paths
  import opened TreeFree
  import opened Keeps
  import opened Syscalls
  import opened Remove
  import opened Names

  // ---------- what a creation leaves behind ----------

  /** The entry e is in slot q, the first free one; the slots that a growth has appended are free otherwise. */
  ghost predicate SlotEntered(slots: seq<Slot>, slots': seq<Slot>, e: DirEntry, q: nat)
  {
    && |slots| <= |slots'| && q < |slots'| && |e.name| <= MAXNAME && slots'[q] == EntrySlot(e)
    && (forall r :: 0 <= r < q && r < |slots| ==> !IsFree(slots[r]))
    && (q < |slots| ==> IsFree(slots[q]))
    && (forall r :: 0 <= r < |slots| && r != q ==> slots'[r] == slots[r])
    && (forall r :: |slots| <= r < |slots'| && r != q ==> IsFree(slots'[r]))
  }

  /** Allocated inodes keep type, owner and permissions; all but p keep their slots; in p the name has been entered for
      i, in place or after growth. */
  ghost predicate Entered(ibm: InodeBitmap, itab: InodeTable, data: Blocks, p: nat, name: Name, i: u32, q: nat,
                          itab': InodeTable, data': Blocks)
  {
    && p < INODES && Taken(ibm, p) && !Taken(ibm, i) && ROOTINUM < i < INODES
    && (forall j: nat :: Taken(ibm, j) ==>
         && j < INODES && SameMeta(Decode(itab[j]), Decode(itab'[j]))
         && NBlocks(Decode(itab[j]).size) <= MAXBLOCKS && NBlocks(Decode(itab'[j]).size) <= MAXBLOCKS)
    && (forall j: nat :: Taken(ibm, j) && j != p ==> Slots(Decode(itab'[j]), data') == Slots(Decode(itab[j]), data))
    && SlotEntered(Slots(Decode(itab[p]), data), Slots(Decode(itab'[p]), data'), DirEntry(i, name), q)
  }

  lemma EnteredAt(ibm: InodeBitmap, itab: InodeTable, data: Blocks, p: nat, name: Name, i: u32, q: nat,
                  itab': InodeTable, data': Blocks, j: nat)
    requires Entered(ibm, itab, data, p, name, i, q, itab', data') && Taken(ibm, j)
    ensures j < INODES && p < INODES && SameMeta(Decode(itab[j]), Decode(itab'[j])) && ROOTINUM < i < INODES
    ensures NBlocks(Decode(itab[j]).size) <= MAXBLOCKS && NBlocks(Decode(itab'[j]).size) <= MAXBLOCKS
    ensures j != p ==> Slots(Decode(itab'[j]), data') == Slots(Decode(itab[j]), data)
    ensures j == p ==> SlotEntered(Slots(Decode(itab[p]), data), Slots(Decode(itab'[p]), data'), DirEntry(i, name), q)
  {
    hide Decode, Slots, NBlocks, SlotEntered;
  }

  /** After makeInode: the entry in the parent. */
  lemma AddedIsEntered(ino: Ino, data: Blocks, dbm: DataBitmap, e: DirEntry, ino': Ino, data': Blocks, dbm': DataBitmap,
                       q: nat)
    requires e.inum != 0 && Sound(ino, data, dbm) && EntryAdded(ino, data, dbm, e, ino', data', dbm', q)
    requires GrowsClean(ino, data, dbm)
    ensures SameMeta(ino, ino') && NBlocks(ino.size) <= MAXBLOCKS && NBlocks(ino'.size) <= MAXBLOCKS && WF(ino', data')
    ensures SlotEntered(Slots(ino, data), Slots(ino', data'), e, q)
  {
    hide EntryAdded, GrowsClean, Sound, Slots, NBlocks, WF;
    EntryAddedRewrites(ino, data, dbm, e, ino', data', dbm', q);
    var all := AddedSlots(ino, data, dbm, e, ino', data', dbm', q);
    var slots := Slots(ino, data);
    assert forall r :: 0 <= r < |slots| ==> all[r] == slots[r];
  }

  /** A new inode, filled in or not. */
  lemma CreationEnters(ibm: InodeBitmap, itab: InodeTable, dbm: DataBitmap, data: Blocks, p: nat, name: Name, i: u32,
                       v: Ino, q: nat, ibm1: InodeBitmap, itab1: InodeTable, dbm1: DataBitmap, data1: Blocks,
                       itab2: InodeTable, dbm2: DataBitmap, data2: Blocks)
    requires FsOk(ibm, itab, dbm, data) && Taken(ibm, p)
    requires MadeEntry(ibm, itab, dbm, data, p, name, i, v, q, ibm1, itab1, dbm1, data1)
    requires GrowsClean(Decode(itab[p]), data, dbm)
    requires FilledIn(ibm1, itab1, dbm1, data1, i, itab2, dbm2, data2)
    ensures Entered(ibm, itab, data, p, name, i, q, itab2, data2)
  {
    hide FsOk, Decode, WF, Rewritten, Slots, NBlocks, OthersKept, EntryAdded, GrowsClean, Untouched, Sound,
      SlotEntered, LowestFree;
    MadeFacts(ibm, itab, dbm, data, p, name, i, v, q, ibm1, itab1, dbm1, data1);
    FsOkInode(ibm, itab, dbm, data, p);
    AddedIsEntered(Decode(itab[p]), data, dbm, DirEntry(i, name), Decode(itab1[p]), data1, dbm1, q);
    forall j: nat | Taken(ibm, j)
      ensures j < INODES && SameMeta(Decode(itab[j]), Decode(itab2[j]))
      ensures NBlocks(Decode(itab[j]).size) <= MAXBLOCKS && NBlocks(Decode(itab2[j]).size) <= MAXBLOCKS
      ensures Slots(Decode(itab2[j]), data2) == Slots(Decode(itab1[j]), data1)
      ensures j != p ==> Slots(Decode(itab1[j]), data1) == Slots(Decode(itab[j]), data)
    {
      FsOkInode(ibm, itab, dbm, data, j);
      if j != p {
        OthersKeptAt(ibm, itab, data, data1, p, j);
        UntouchedSlots(Decode(itab[j]), data, data1);
        StaysWF(Decode(itab[j]), data, data1);
      }
      OthersKeptAt(ibm1, itab1, data1, data2, i, j);
      UntouchedSlots(Decode(itab1[j]), data1, data2);
    }
  }

  /** Lookups that succeeded still give the same, and a new name leads to the new inode. */
  lemma EnteredLookup(slots: seq<Slot>, slots': seq<Slot>, e: DirEntry, q: nat, other: Name)
    requires SlotEntered(slots, slots', e, q) && e.inum != 0 && Lookup(Entries(slots), e.name) == None
    ensures FirstNamed(slots', e.name, q) && Get32(slots'[q], 0) == e.inum
    ensures Lookup(Entries(slots'), e.name) == Some(e.inum)
    ensures Lookup(Entries(slots), other).Some? ==> Lookup(Entries(slots'), other) == Lookup(Entries(slots), other)
  {
    hide Lookup, Entries, EntrySlot, SlotName;
    EntryRoundTrip(e);
    NameAbsent(slots, e.name);
    EntryIsNamed(e);
    LookupIsFirstNamed(slots', e.name, q);
    var k := FirstNamedExists(slots, other);
    LookupIsFirstNamed(slots, other, k);
    if k < |slots| {
      LookupIsFirstNamed(slots', other, k);
    }
  }

  lemma EntryIsNamed(e: DirEntry)
    requires |e.name| <= MAXNAME && e.inum != 0
    ensures Named(EntrySlot(e), e.name) && Get32(EntrySlot(e), 0) == e.inum
    ensures forall other :: Named(EntrySlot(e), other) ==> other == e.name
  {
    EntryRoundTrip(e);
  }

  /** Paths that led somewhere still lead there. */
  lemma {:induction false} ResolveKept(ibm: InodeBitmap, itab: InodeTable, dbm: DataBitmap, data: Blocks, p: nat,
                                       name: Name, i: u32, q: nat, itab': InodeTable, data': Blocks, euid: Name,
                                       start: u32, comps: seq<Name>)
    requires FsOk(ibm, itab, dbm, data) && Entered(ibm, itab, data, p, name, i, q, itab', data')
    requires NBlocks(Decode(itab[p]).size) <= MAXBLOCKS && Lookup(Entries(Slots(Decode(itab[p]), data)), name) == None
    requires Taken(ibm, start) && Resolve(itab, data, euid, start, comps).Found?
    ensures Resolve(itab', data', euid, start, comps) == Resolve(itab, data, euid, start, comps)
    decreases comps
  {
    hide FsOk, Slots, Entries, Decode, NBlocks, Lookup, OwnerString, DirSound, Entered, SlotEntered, FirstNamed;
    if comps != [] {
      FsOkInode(ibm, itab, dbm, data, start);
      FoundIsTaken(Decode(itab[start]), data, ibm, comps[0]);
      EnteredAt(ibm, itab, data, p, name, i, q, itab', data', start);
      if start as nat == p {
        EnteredLookup(Slots(Decode(itab[p]), data), Slots(Decode(itab'[p]), data'), DirEntry(i, name), q, comps[0]);
      }
      var next := Lookup(Entries(Slots(Decode(itab[start]), data)), comps[0]).value;
      ResolveKept(ibm, itab, dbm, data, p, name, i, q, itab', data', euid, next, comps[1..]);
    }
  }

  /** The new path leads to the new inode, through the slot it was entered in. */
  lemma CreatedResolves(ibm: InodeBitmap, itab: InodeTable, dbm: DataBitmap, data: Blocks, p: u32, comps: seq<Name>,
                        i: u32, q: nat, itab': InodeTable, data': Blocks, euid: Name)
    requires FsOk(ibm, itab, dbm, data) && comps != [] && Entered(ibm, itab, data, p, BaseOf(comps), i, q, itab', data')
    requires IsDir(Decode(itab[p])) && CanExecute(euid, Decode(itab[p])) && NBlocks(Decode(itab[p]).size) <= MAXBLOCKS
    requires Resolve(itab, data, euid, ROOTINUM, DirOf(comps)) == Found(p)
    requires Lookup(Entries(Slots(Decode(itab[p]), data)), BaseOf(comps)) == None
    ensures LastStep(itab', data', euid, comps, p, i, q)
  {
    hide FsOk, Slots, Entries, Decode, NBlocks, Lookup, OwnerString, Entered, SlotEntered, FirstNamed;
    FsOkHasFirst(ibm, itab, dbm, data);
    var name := BaseOf(comps);
    ResolveKept(ibm, itab, dbm, data, p, name, i, q, itab', data', euid, ROOTINUM, DirOf(comps));
    EnteredIsTaken(ibm, itab, data, p, name, i, q, itab', data');
    EnteredAt(ibm, itab, data, p, name, i, q, itab', data', p);
    EnteredLookup(Slots(Decode(itab[p]), data), Slots(Decode(itab'[p]), data'), DirEntry(i, name), q, name);
    ResolveLast(itab', data', euid, ROOTINUM, comps);
    ResolveName(itab', data', euid, p, name);
  }

  lemma EnteredIsTaken(ibm: InodeBitmap, itab: InodeTable, data: Blocks, p: nat, name: Name, i: u32, q: nat,
                       itab': InodeTable, data': Blocks)
    requires Entered(ibm, itab, data, p, name, i, q, itab', data')
    ensures p < INODES && Taken(ibm, p) && ROOTINUM < i < INODES && i as nat != p && !Taken(ibm, i)
  {
  }

  /** No other entry refers to the new inode: it was free before, and entries refer to allocated inodes. */
  lemma CreatedIsReferredToOnce(ibm: InodeBitmap, itab: InodeTable, dbm: DataBitmap, data: Blocks, p: nat, name: Name,
                                i: u32, q: nat, ibm': InodeBitmap, itab': InodeTable, data': Blocks)
    requires FsOk(ibm, itab, dbm, data) && Entered(ibm, itab, data, p, name, i, q, itab', data')
    requires InodeAdded(ibm, ibm', i)
    ensures OnlyReference(ibm', itab', data', {i as nat}, p, q)
  {
    hide FsOk, Slots, Decode, NBlocks, Entered, DirSound, EntrySlot;
    EnteredIsTaken(ibm, itab, data, p, name, i, q, itab', data');
    forall j: nat, r: nat |
      && Taken(ibm', j) && j != i as nat && IsDir(Decode(itab'[j])) && NBlocks(Decode(itab'[j]).size) <= MAXBLOCKS
      && r < |Slots(Decode(itab'[j]), data')| && !IsFree(Slots(Decode(itab'[j]), data')[r])
      && Get32(Slots(Decode(itab'[j]), data')[r], 0) == i
      ensures j == p && r == q
    {
      FsOkInode(ibm, itab, dbm, data, j);
      EnteredAt(ibm, itab, data, p, name, i, q, itab', data', j);
      EntriesAreTaken(Decode(itab[j]), data, ibm, i);
    }
  }

  lemma EntriesAreTaken(ino: Ino, data: Blocks, ibm: InodeBitmap, i: u32)
    requires NBlocks(ino.size) <= MAXBLOCKS && DirSound(ino, data, ibm) && !Taken(ibm, i)
    ensures forall r :: 0 <= r < |Slots(ino, data)| && !IsFree(Slots(ino, data)[r]) ==>
      Get32(Slots(ino, data)[r], 0) != i
  {
  }

  /** A regular file, or a directory with nothing but dot entries that is not cached. */
  ghost predicate Childless(k: Kernel, i: u32)
    requires i < INODES
    reads k, k.fs
  {
    IsDir(Decode(k.fs.itab[i])) ==>
      && i !in k.inodeCache
      && NBlocks(Decode(k.fs.itab[i]).size) <= MAXBLOCKS && Kids(Entries(Slots(Decode(k.fs.itab[i]), k.fs.data))) == []
  }

  /** In the state after creation and filling, removal of the new file or directory has everything it needs. */
  lemma CreatedIsRemovable(k: Kernel, ibm: InodeBitmap, itab: InodeTable, dbm: DataBitmap, data: Blocks, p: u32,
                           name: Name, i: u32, q: nat)
    requires FsOk(ibm, itab, dbm, data) && Entered(ibm, itab, data, p, name, i, q, k.fs.itab, k.fs.data)
    requires Ready(k) && InodeAdded(ibm, k.fs.ibm, i) && i < INODES && Childless(k, i)
    ensures Removable(k, k.fs.itab, Node(i, []), p, i, q)
  {
    hide FsOk, Shows, Slots, Decode, NBlocks, Entered, Entries, Kids, DirOk;
    FsOkHasFirst(ibm, itab, dbm, data);
    EnteredIsTaken(ibm, itab, data, p, name, i, q, k.fs.itab, k.fs.data);
    FsOkInode(k.fs.ibm, k.fs.itab, k.fs.dbm, k.fs.data, i);
    CreatedIsReferredToOnce(ibm, itab, dbm, data, p, name, i, q, k.fs.ibm, k.fs.itab, k.fs.data);
    assert Inums(Node(i, [])) == {i as nat};
    assert TreeAt(k.fs.itab, k.fs.data, Node(i, [])) && Distinct(Node(i, []));
  }

  /** The state after creating an inode under a new name, filled in or not, for the user who created it. */
  lemma AfterCreation(ibm: InodeBitmap, itab: InodeTable, dbm: DataBitmap, data: Blocks, euid: Name, comps: seq<Name>,
                      p: u32, i: u32, v: Ino, q: nat,
                      ibm1: InodeBitmap, itab1: InodeTable, dbm1: DataBitmap, data1: Blocks,
                      itab2: InodeTable, dbm2: DataBitmap, data2: Blocks)
    requires FsOk(ibm, itab, dbm, data) && comps != [] && Resolve(itab, data, euid, ROOTINUM, comps).Failed?
    requires ParentFor(itab, data, euid, comps) == Found(p) && p < INODES && CanExecute(euid, Decode(itab[p]))
    requires GrowsClean(Decode(itab[p]), data, dbm)
    requires MadeEntry(ibm, itab, dbm, data, p, BaseOf(comps), i, v, q, ibm1, itab1, dbm1, data1)
    requires FilledIn(ibm1, itab1, dbm1, data1, i, itab2, dbm2, data2)
    ensures Entered(ibm, itab, data, p, BaseOf(comps), i, q, itab2, data2)
    ensures LastStep(itab2, data2, euid, comps, p, i, q)
    ensures Taken(ibm, p) && NBlocks(Decode(itab[p]).size) <= MAXBLOCKS && IsDir(Decode(itab[p]))
    ensures Lookup(Entries(Slots(Decode(itab[p]), data)), BaseOf(comps)) == None
  {
    hide FsOk, Slots, Entries, Decode, NBlocks, Lookup, OwnerString, MadeEntry, FilledIn, Entered, Resolve, LastStep,
      GrowsClean;
    FsOkHasFirst(ibm, itab, dbm, data);
    ResolveIsTaken(ibm, itab, dbm, data, euid, ROOTINUM, DirOf(comps));
    FsOkInode(ibm, itab, dbm, data, p);
    CreationProceedsIff(itab, data, euid, comps);
    CreationEnters(ibm, itab, dbm, data, p, BaseOf(comps), i, v, q, ibm1, itab1, dbm1, data1, itab2, dbm2, data2);
    CreatedResolves(ibm, itab, dbm, data, p, comps, i, q, itab2, data2, euid);
  }

  // ---------- reading a new file back ----------

  /** A new file can be read by everyone. */
  lemma NewFileIsReadable(euid: Name, now: u64, ino: Ino, other: Name)
    requires SameMeta(FreshIno(S_IFREG, euid, false, 7, 5, now), ino)
    ensures !IsDir(ino) && CanRead(other, ino)
  {
    hide OwnerString, OwnerBytes;
    assert Bit(7, 2) && Bit(5, 2);
  }

  /** After writeFile to a path that did not exist, every user who may search its directory reads the content back,
      whether or not the directory had to grow. */
  lemma NewFileReadsBack(ibm: InodeBitmap, itab: InodeTable, dbm: DataBitmap, data: Blocks, euid: Name,
                         comps: seq<Name>, now: u64, p: u32, content: seq<byte>, ibm': InodeBitmap, itab': InodeTable,
                         dbm': DataBitmap, data': Blocks, other: Name)
    requires FsOk(ibm, itab, dbm, data) && Resolve(itab, data, euid, ROOTINUM, comps) == PathResult.Failed(ENOENT)
    requires comps != [] && ParentFor(itab, data, euid, comps) == Found(p) && p < INODES
    requires GrowsClean(Decode(itab[p]), data, dbm)
    requires CreatedAndSaved(ibm, itab, dbm, data, p, BaseOf(comps), FreshIno(S_IFREG, euid, false, 7, 5, now), content,
                             ibm', itab', dbm', data')
    requires Resolve(itab, data, other, ROOTINUM, DirOf(comps)) == Found(p) && CanExecute(other, Decode(itab[p]))
    ensures ReadOf(itab', data', other, comps) == ReadOk(content)
  {
    hide FsOk, Decode, Resolve, MadeEntry, FileSaved, FilledIn, GrowsClean, Content, OwnerString, OwnerBytes, Bit,
      Entered, Slots, Entries, Lookup, NBlocks;
    var v, name := FreshIno(S_IFREG, euid, false, 7, 5, now), BaseOf(comps);
    var i: u32, q: nat, itab1, dbm1, data1 :|
      && MadeEntry(ibm, itab, dbm, data, p, name, i, v, q, ibm', itab1, dbm1, data1)
      && FileSaved(ibm', itab1, dbm1, data1, i, content, itab', dbm', data');
    NoEntryIsInDir(itab, data, euid, comps);
    SavedIsFilledIn(ibm', itab1, dbm1, data1, i, content, itab', dbm', data');
    AfterCreation(ibm, itab, dbm, data, euid, comps, p, i, v, q, ibm', itab1, dbm1, data1, itab', dbm', data');
    CreatedResolves(ibm, itab, dbm, data, p, comps, i, q, itab', data', other);
    MadeFacts(ibm, itab, dbm, data, p, name, i, v, q, ibm', itab1, dbm1, data1);
    SavedHolds(ibm', itab1, dbm1, data1, i, content, itab', dbm', data');
    NewFileIsReadable(euid, now, Decode(itab'[i]), other);
  }

  /** ... and every path that led somewhere still leads there and reads as before. */
  lemma NewFileLeavesOthers(ibm: InodeBitmap, itab: InodeTable, dbm: DataBitmap, data: Blocks, euid: Name,
                            comps: seq<Name>, v: Ino, p: u32, content: seq<byte>, ibm': InodeBitmap, itab': InodeTable,
                            dbm': DataBitmap, data': Blocks, other: Name, path: seq<Name>)
    requires FsOk(ibm, itab, dbm, data) && Resolve(itab, data, euid, ROOTINUM, comps) == PathResult.Failed(ENOENT)
    requires comps != [] && ParentFor(itab, data, euid, comps) == Found(p) && p < INODES
    requires GrowsClean(Decode(itab[p]), data, dbm)
    requires CreatedAndSaved(ibm, itab, dbm, data, p, BaseOf(comps), v, content, ibm', itab', dbm', data')
    requires Resolve(itab, data, other, ROOTINUM, path).Found?
    ensures Resolve(itab', data', other, ROOTINUM, path) == Resolve(itab, data, other, ROOTINUM, path)
    ensures ReadOf(itab', data', other, path) == ReadOf(itab, data, other, path)
  {
    hide FsOk, Decode, Resolve, MadeEntry, FileSaved, FilledIn, GrowsClean, Content, OwnerString, Bit, Entered, Slots,
      Entries, Lookup, NBlocks;
    var name := BaseOf(comps);
    var i: u32, q: nat, itab1, dbm1, data1 :|
      && MadeEntry(ibm, itab, dbm, data, p, name, i, v, q, ibm', itab1, dbm1, data1)
      && FileSaved(ibm', itab1, dbm1, data1, i, content, itab', dbm', data');
    NoEntryIsInDir(itab, data, euid, comps);
    SavedIsFilledIn(ibm', itab1, dbm1, data1, i, content, itab', dbm', data');
    AfterCreation(ibm, itab, dbm, data, euid, comps, p, i, v, q, ibm', itab1, dbm1, data1, itab', dbm', data');
    FsOkHasFirst(ibm, itab, dbm, data);
    ResolveKept(ibm, itab, dbm, data, p, name, i, q, itab', data', other, ROOTINUM, path);
    ResolveIsTaken(ibm, itab, dbm, data, other, ROOTINUM, path);
    OtherReadsSame(ibm, itab, dbm, data, p, name, i, v, q, ibm', itab1, dbm1, data1, content, itab', dbm', data',
                   Resolve(itab, data, other, ROOTINUM, path).inum);
  }

  /** An inode allocated before: a directory stays one, a file is what it was. */
  lemma OtherReadsSame(ibm: InodeBitmap, itab: InodeTable, dbm: DataBitmap, data: Blocks, p: u32, name: Name, i: u32,
                       v: Ino, q: nat, ibm1: InodeBitmap, itab1: InodeTable, dbm1: DataBitmap, data1: Blocks,
                       content: seq<byte>, itab2: InodeTable, dbm2: DataBitmap, data2: Blocks, j: nat)
    requires FsOk(ibm, itab, dbm, data) && Taken(ibm, j) && Taken(ibm, p) && p < INODES && IsDir(Decode(itab[p]))
    requires MadeEntry(ibm, itab, dbm, data, p, name, i, v, q, ibm1, itab1, dbm1, data1)
    requires FileSaved(ibm1, itab1, dbm1, data1, i, content, itab2, dbm2, data2)
    ensures j < INODES && Decode(itab[j]).size <= MAXSIZE && Decode(itab2[j]).size <= MAXSIZE
    ensures IsDir(Decode(itab2[j])) == IsDir(Decode(itab[j]))
    ensures !IsDir(Decode(itab[j])) ==>
      Decode(itab2[j]) == Decode(itab[j]) && Content(Decode(itab[j]), data2) == Content(Decode(itab[j]), data)
  {
    hide FsOk, Decode, EntryAdded, OthersKept, Content, WF, Untouched, StoredAs, SameTree, LowestFree;
    FsOkInode(ibm, itab, dbm, data, j);
    MadeFacts(ibm, itab, dbm, data, p, name, i, v, q, ibm1, itab1, dbm1, data1);
    if j == p as nat {
      var e := DirEntry(i, name);
      EntryAddedRewrites(Decode(itab[p]), data, dbm, e, Decode(itab1[p]), data1, dbm1, q);
      AddedSize(Decode(itab[p]), data, dbm, e, Decode(itab1[p]), data1, dbm1, q);
    } else {
      OthersKeptAt(ibm, itab, data, data1, p, j);
      StaysWF(Decode(itab[j]), data, data1);
      OthersKeptAt(ibm1, itab1, data1, data2, i, j);
      UntouchedContent(Decode(itab[j]), data, data1);
      UntouchedContent(Decode(itab[j]), data1, data2);
    }
  }

  /** writeFile to a new path and readFile of it, one after the other. */
  method WriteNewThenRead(k: Kernel, euid: Name, comps: seq<Name>, content: seq<byte>, now: u64)
    returns (w: WriteResult, r: ReadResult)
    requires Ready(k) && |content| <= U32 - BLOCKSIZE
    requires Resolve(k.fs.itab, k.fs.data, euid, ROOTINUM, comps) == PathResult.Failed(ENOENT)
    requires CleanTarget(k.fs.itab, k.fs.data, k.fs.dbm, euid, comps, false)
    modifies k`inodeCache, k.inodeCache.Values, k.fs`data, k.fs`dbm, k.fs`itab, k.fs`ibm, k.fs.disk.buf
    ensures comps != []
    ensures WriteNewOutcome(old(k.fs.ibm), old(k.fs.itab), old(k.fs.data), old(k.fs.dbm), euid, comps, content, w)
    ensures w == Wrote(FileOk) ==> Ready(k) && r == ReadOk(content)
  {
    hide Ready, FsOk, Shows, Decode, Resolve, CreatedAndSaved, GrowsClean, OwnerBytes, OwnerString, Cached,
      OnlyLoaded, WriteNewOutcome, Content;
    ghost var ibm, itab, dbm, data := k.fs.ibm, k.fs.itab, k.fs.dbm, k.fs.data;
    ReadyIsOk(k);
    NoEntryIsInDir(itab, data, euid, comps);
    w := WriteFile(k, euid, comps, content, now);
    r := ReadError(EIO);
    if w == Wrote(FileOk) {
      NewFileReadsBack(ibm, itab, dbm, data, euid, comps, now, ParentFor(itab, data, euid, comps).inum, content,
                       k.fs.ibm, k.fs.itab, k.fs.dbm, k.fs.data, euid);
      r := ReadFile(k, euid, comps);
    }
  }

  ghost predicate ContentIs(k: Kernel, i: u32, content: seq<byte>)
    requires i < INODES
    reads k, k.fs
  {
    Decode(k.fs.itab[i]).size <= MAXSIZE && Content(Decode(k.fs.itab[i]), k.fs.data) == content
  }

  /** writeFile on the file just created: it works iff the content fits. */
  method WriteCreated(k: Kernel, comps: seq<Name>, content: seq<byte>, now: u64, ghost p: u32, ghost i: u32,
                      ghost v: Ino, ghost q: nat, ghost ibm: InodeBitmap, ghost itab: InodeTable, ghost dbm: DataBitmap,
                      ghost data: Blocks)
    returns (written: bool)
    requires Ready(k) && comps != [] && |content| <= U32 - BLOCKSIZE && v.size == 0 && !IsDir(v)
    requires FsOk(ibm, itab, dbm, data) && Resolve(itab, data, ROOTUSER, ROOTINUM, comps).Failed?
    requires ParentFor(itab, data, ROOTUSER, comps) == Found(p) && p < INODES && GrowsClean(Decode(itab[p]), data, dbm)
    requires MadeEntry(ibm, itab, dbm, data, p, BaseOf(comps), i, v, q, k.fs.ibm, k.fs.itab, k.fs.dbm, k.fs.data)
    modifies k`inodeCache, k.inodeCache.Values, k.fs`data, k.fs`dbm, k.fs`itab, k.fs`ibm, k.fs.disk.buf
    ensures written <==> |content| <= MAXSIZE && Need(NBlocks(|content|)) <= |Free(old(k.fs.dbm))|
    ensures written ==> Ready(k) && k.fs.ibm == old(k.fs.ibm)
    ensures written ==> !IsDir(Decode(k.fs.itab[i])) && ContentIs(k, i, content)
    ensures written ==> FilledIn(old(k.fs.ibm), old(k.fs.itab), old(k.fs.dbm), old(k.fs.data), i, k.fs.itab, k.fs.dbm,
                                 k.fs.data)
    ensures forall j :: j in k.inodeCache ==>
      (j in old(k.inodeCache) && k.inodeCache[j] == old(k.inodeCache)[j]) || fresh(k.inodeCache[j])
  {
    hide Ready, FsOk, Shows, Decode, Resolve, MadeEntry, FilledIn, Entered, FileSaved, ParentFor, GrowsClean, Free,
      NBlocks, CreatedAndSaved, FullBelow, Slots, Entries, Lookup, Cached, OnlyLoaded;
    ghost var ibm1, itab1, dbm1, data1 := k.fs.ibm, k.fs.itab, k.fs.dbm, k.fs.data;
    MadeFacts(ibm, itab, dbm, data, p, BaseOf(comps), i, v, q, ibm1, itab1, dbm1, data1);
    ReadyIsOk(k);
    NotFilledIn(ibm1, itab1, dbm1, data1, i);
    AfterCreation(ibm, itab, dbm, data, ROOTUSER, comps, p, i, v, q, ibm1, itab1, dbm1, data1, itab1, dbm1, data1);
    LastStepResolves(itab1, data1, comps, p, i, q);
    EmptyInode(v, data1);
    var r := WriteFile(k, ROOTUSER, comps, content, now);
    written := r == Wrote(FileOk);
    if written {
      SavedIsFilledIn(ibm1, itab1, dbm1, data1, i, content, k.fs.itab, k.fs.dbm, k.fs.data);
      SavedKeepsType(ibm1, itab1, dbm1, data1, i, content, k.fs.itab, k.fs.dbm, k.fs.data);
    }
  }

  lemma ReadyIsOk(k: Kernel)
    requires Ready(k)
    ensures FsOk(k.fs.ibm, k.fs.itab, k.fs.dbm, k.fs.data)
  {
  }

  lemma SavedKeepsType(ibm: InodeBitmap, itab: InodeTable, dbm: DataBitmap, data: Blocks, i: nat, content: seq<byte>,
                       itab': InodeTable, dbm': DataBitmap, data': Blocks)
    requires FileSaved(ibm, itab, dbm, data, i, content, itab', dbm', data')
    ensures i < INODES && (IsDir(Decode(itab'[i])) <==> IsDir(Decode(itab[i])))
    ensures Decode(itab'[i]).size <= MAXSIZE && Content(Decode(itab'[i]), data') == content
  {
    hide Decode;
  }

  /** The volume is as it was: the inode bitmap byte for byte, all other inodes' records, blocks and contents, and the
      listing of directory p; if p had room, the data bitmap byte for byte and the record of p too, and otherwise p
      keeps the blocks it has grown by. Slots of p that are free, and free blocks, may hold other bytes than before. */
  ghost predicate Restored(ibm: InodeBitmap, itab: InodeTable, dbm: DataBitmap, data: Blocks, p: nat,
                           ibm': InodeBitmap, itab': InodeTable, dbm': DataBitmap, data': Blocks)
  {
    && ibm' == ibm && Taken(ibm, p) && p < INODES
    && (forall j: nat :: Taken(ibm, j) && j != p ==> j < INODES && Decode(itab'[j]) == Decode(itab[j]))
    && OthersKept(ibm, itab, data, data', p)
    && NBlocks(Decode(itab[p]).size) <= MAXBLOCKS && NBlocks(Decode(itab'[p]).size) <= MAXBLOCKS
    && SameMeta(Decode(itab[p]), Decode(itab'[p])) && Decode(itab'[p]).size <= MAXSIZE
    && Entries(Slots(Decode(itab'[p]), data')) == Entries(Slots(Decode(itab[p]), data))
    && (Room(Decode(itab[p]), data) ==> dbm' == dbm && Decode(itab'[p]) == Decode(itab[p]))
    && |Free(dbm')| + BlocksToLink(Decode(itab[p]), data) == |Free(dbm)|
  }

  /** Then every path resolves and every file reads as it did, for everyone. */
  lemma RestoredReadsSame(ibm: InodeBitmap, itab: InodeTable, dbm: DataBitmap, data: Blocks, p: nat, ibm': InodeBitmap,
                          itab': InodeTable, dbm': DataBitmap, data': Blocks, euid: Name, comps: seq<Name>)
    requires FsOk(ibm, itab, dbm, data) && Restored(ibm, itab, dbm, data, p, ibm', itab', dbm', data')
    requires IsDir(Decode(itab[p]))
    ensures Resolve(itab', data', euid, ROOTINUM, comps) == Resolve(itab, data, euid, ROOTINUM, comps)
    ensures ReadOf(itab', data', euid, comps) == ReadOf(itab, data, euid, comps)
  {
    hide FsOk, Decode, Slots, Entries, NBlocks, Content, OwnerString, OthersKept, Bit, Resolve, Room, BlocksToLink,
      Free;
    forall j: nat | Taken(ibm, j)
      ensures NBlocks(Decode(itab[j]).size) <= MAXBLOCKS && NBlocks(Decode(itab'[j]).size) <= MAXBLOCKS
      ensures Entries(Slots(Decode(itab'[j]), data')) == Entries(Slots(Decode(itab[j]), data))
    {
      FsOkInode(ibm, itab, dbm, data, j);
      if j != p {
        OthersKeptAt(ibm, itab, data, data', p, j);
        UntouchedSlots(Decode(itab[j]), data, data');
      }
    }
    FsOkHasFirst(ibm, itab, dbm, data);
    ResolveSame(ibm, itab, dbm, data, itab', data', euid, ROOTINUM, comps);
    ResolveIsTaken(ibm, itab, dbm, data, euid, ROOTINUM, comps);
    var r := Resolve(itab, data, euid, ROOTINUM, comps);
    if r.Found? {
      FsOkInode(ibm, itab, dbm, data, r.inum);
      if r.inum as nat != p {
        OthersKeptAt(ibm, itab, data, data', p, r.inum);
        UntouchedContent(Decode(itab[r.inum]), data, data');
      }
    }
  }

  /** removeAll of the file or directory just created and filled in restores the volume. */
  method RemoveCreated(k: Kernel, comps: seq<Name>, ghost p: u32, ghost i: u32, ghost v: Ino, ghost q: nat,
                       ghost ibm: InodeBitmap, ghost itab: InodeTable, ghost dbm: DataBitmap, ghost data: Blocks,
                       ghost ibm1: InodeBitmap, ghost itab1: InodeTable, ghost dbm1: DataBitmap, ghost data1: Blocks)
    requires Ready(k) && comps != [] && v.size == 0 && k.fs.ibm == ibm1 && i < INODES && Childless(k, i)
    requires FsOk(ibm, itab, dbm, data) && Resolve(itab, data, ROOTUSER, ROOTINUM, comps).Failed?
    requires ParentFor(itab, data, ROOTUSER, comps) == Found(p) && p < INODES && GrowsClean(Decode(itab[p]), data, dbm)
    requires MadeEntry(ibm, itab, dbm, data, p, BaseOf(comps), i, v, q, ibm1, itab1, dbm1, data1)
    requires FilledIn(ibm1, itab1, dbm1, data1, i, k.fs.itab, k.fs.dbm, k.fs.data)
    modifies k`inodeCache, k.inodeCache.Values, k.fs`ibm, k.fs`dbm, k.fs`data, k.fs.disk.buf
    ensures Ready(k) && k.fs.dbm == dbm1 && Restored(ibm, itab, dbm, data, p, k.fs.ibm, k.fs.itab, k.fs.dbm, k.fs.data)
    ensures FreeBlocksClean(k.fs.dbm, k.fs.data) ==> OwnBlocksClean(old(k.fs.itab), old(k.fs.data), {i as nat})
    ensures forall b: nat :: b < BLOCKS && b in Own(Decode(old(k.fs.itab)[i]), old(k.fs.data)) ==>
      k.fs.data[b] == old(k.fs.data)[b]
  {
    hide Ready, FsOk, Shows, Decode, Resolve, MadeEntry, FilledIn, ParentFor, GrowsClean, NBlocks, Slots, Entries,
      Lookup, Entered, Sound, Removable, LastStep, UnlinkedAs, Inums, Childless, OwnBlocksClean, FreeBlocksClean,
      PathAfterRemoval, OthersKept, Room, BlocksToLink, Free, Cached, LoadedValues, Restored;
    ghost var itab2, dbm2, data2 := k.fs.itab, k.fs.dbm, k.fs.data;
    AfterCreation(ibm, itab, dbm, data, ROOTUSER, comps, p, i, v, q, ibm1, itab1, dbm1, data1, itab2, dbm2, data2);
    MadeFacts(ibm, itab, dbm, data, p, BaseOf(comps), i, v, q, ibm1, itab1, dbm1, data1);
    MadeAdds(ibm, itab, dbm, data, p, BaseOf(comps), i, v, q, ibm1, itab1, dbm1, data1);
    CreatedIsRemovable(k, ibm, itab, dbm, data, p, BaseOf(comps), i, q);
    LastStepResolves(itab2, data2, comps, p, i, q);
    ReadyIsOk(k);
    RemovableFacts(k, i, p, q);
    var r := RemoveAll(k, ROOTUSER, comps, k.fs.itab, Node(i, []), p, i, q);
    RemovalRestores(ibm, itab, dbm, data, p, BaseOf(comps), i, v, q, ibm1, itab1, dbm1, data1, itab2, dbm2, data2,
                    q, k.fs.ibm, k.fs.dbm, k.fs.data);
    RemovalKeepsCleanIff(ibm1, itab2, dbm2, data2, p, BaseOf(comps), i, Node(i, []), q, k.fs.ibm, k.fs.dbm, k.fs.data);
    FreedKeepContents(ibm1, itab2, dbm2, data2, p, BaseOf(comps), i, Node(i, []), q, k.fs.ibm, k.fs.dbm, k.fs.data);
  }

  lemma AddedSize(ino: Ino, data: Blocks, dbm: DataBitmap, e: DirEntry, ino': Ino, data': Blocks, dbm': DataBitmap,
                  q: nat)
    requires ino.size <= MAXSIZE && NBlocks(ino'.size) <= MAXBLOCKS
    requires EntryAdded(ino, data, dbm, e, ino', data', dbm', q)
    ensures ino'.size <= MAXSIZE
  {
    hide GrewAndAdded, AddedInPlace, Room;
  }

  lemma RemovalRestores(ibm: InodeBitmap, itab: InodeTable, dbm: DataBitmap, data: Blocks, p: u32, name: Name, i: u32,
                        v: Ino, q: nat, ibm1: InodeBitmap, itab1: InodeTable, dbm1: DataBitmap, data1: Blocks,
                        itab2: InodeTable, dbm2: DataBitmap, data2: Blocks, q3: nat, ibm3: InodeBitmap,
                        dbm3: DataBitmap, data3: Blocks)
    requires FsOk(ibm, itab, dbm, data) && Taken(ibm, p) && GrowsClean(Decode(itab[p]), data, dbm) && v.size == 0
    requires NBlocks(Decode(itab[p]).size) <= MAXBLOCKS && Lookup(Entries(Slots(Decode(itab[p]), data)), name) == None
    requires MadeEntry(ibm, itab, dbm, data, p, name, i, v, q, ibm1, itab1, dbm1, data1)
    requires FilledIn(ibm1, itab1, dbm1, data1, i, itab2, dbm2, data2)
    requires Unlinked(ibm1, itab2, dbm2, data2, p, name, i, Node(i, []), q3, ibm3, dbm3, data3)
    ensures dbm3 == dbm1 && Restored(ibm, itab, dbm, data, p, ibm3, itab2, dbm3, data3)
  {
    hide FsOk, Decode, Unlinked, Slots, Entries, NBlocks, Lookup, GrowsClean, OthersKept, Room, BlocksToLink, Free,
      EntryAdded, Rewritten, LowestFree;
    FsOkInode(ibm, itab, dbm, data, p);
    MadeFacts(ibm, itab, dbm, data, p, name, i, v, q, ibm1, itab1, dbm1, data1);
    EntryAddedRewrites(Decode(itab[p]), data, dbm, DirEntry(i, name), Decode(itab1[p]), data1, dbm1, q);
    AddedSize(Decode(itab[p]), data, dbm, DirEntry(i, name), Decode(itab1[p]), data1, dbm1, q);
    CreateThenRemove(ibm, itab, dbm, data, p, name, i, v, q, ibm1, itab1, dbm1, data1, itab2, dbm2, data2, q3, ibm3,
                     dbm3, data3);
    OthersKeptThrice(ibm, itab, dbm, data, p, name, i, v, q, ibm1, itab1, dbm1, data1, itab2, dbm2, data2, ibm3, dbm3,
                     data3);
    forall j: nat | Taken(ibm, j) ensures j < INODES {
      FsOkInode(ibm, itab, dbm, data, j);
    }
  }

  /** The blocks of the inode that was freed keep their contents. */
  lemma FreedKeepContents(ibm: InodeBitmap, itab: InodeTable, dbm: DataBitmap, data: Blocks, p: u32, name: Name, i: u32,
                          t: Tree, q: nat, ibm': InodeBitmap, dbm': DataBitmap, data': Blocks)
    requires FsOk(ibm, itab, dbm, data) && Taken(ibm, p) && Taken(ibm, i) && p != i
    requires Unlinked(ibm, itab, dbm, data, p, name, i, t, q, ibm', dbm', data')
    ensures forall b: nat :: b < BLOCKS && b in Own(Decode(itab[i]), data) ==> data'[b] == data[b]
  {
    hide Decode, Slots, FirstNamed, SlotCleared, InodesFreed, BlocksFreed, Inums, DirSound, Own;
    OthersKeptAt(ibm, itab, data, data', p, i);
  }

  lemma RemovableFacts(k: Kernel, i: u32, p: u32, q: nat)
    requires Removable(k, k.fs.itab, Node(i, []), p, i, q)
    ensures Inums(Node(i, [])) == {i as nat} && AllTaken(k.fs.ibm, {i as nat}) && p != i
  {
    assert Inums(Node(i, [])) == {i as nat};
  }

  lemma OthersKeptThrice(ibm: InodeBitmap, itab: InodeTable, dbm: DataBitmap, data: Blocks, p: u32, name: Name, i: u32,
                         v: Ino, q: nat, ibm1: InodeBitmap, itab1: InodeTable, dbm1: DataBitmap, data1: Blocks,
                         itab2: InodeTable, dbm2: DataBitmap, data2: Blocks, ibm3: InodeBitmap, dbm3: DataBitmap,
                         data3: Blocks)
    requires MadeEntry(ibm, itab, dbm, data, p, name, i, v, q, ibm1, itab1, dbm1, data1)
    requires FilledIn(ibm1, itab1, dbm1, data1, i, itab2, dbm2, data2)
    requires Unlinked(ibm1, itab2, dbm2, data2, p, name, i, Node(i, []), q, ibm3, dbm3, data3)
    ensures OthersKept(ibm, itab, data, data3, p)
  {
    hide Decode, Rewritten, EntryAdded, LowestFree, SlotCleared, BlocksFreed, InodesFreed, Inums, OthersKept,
      FirstNamed, Slots, NBlocks;
    MadeFacts(ibm, itab, dbm, data, p, name, i, v, q, ibm1, itab1, dbm1, data1);
    assert OthersKept(ibm, itab, data, data3, p) by {
      forall j: nat | Taken(ibm, j) && j != p ensures Untouched(Decode(itab[j]), data, data3) {
        OthersKeptAt(ibm, itab, data, data1, p, j);
        OthersKeptAt(ibm1, itab1, data1, data2, i, j);
        OthersKeptAt(ibm1, itab2, data2, data3, p, j);
        UntouchedThrice(Decode(itab[j]), data, data1, data2, data3);
      }
      KeptFromEach(ibm, itab, data, data3, p);
    }
  }

  lemma KeptFromEach(ibm: InodeBitmap, itab: InodeTable, data: Blocks, data': Blocks, p: nat)
    requires forall j: nat :: Taken(ibm, j) && j != p ==> Untouched(Decode(itab[j]), data, data')
    ensures OthersKept(ibm, itab, data, data', p)
  {
  }

  lemma UntouchedThrice(ino: Ino, a: Blocks, b: Blocks, c: Blocks, d: Blocks)
    requires Untouched(ino, a, b) && Untouched(ino, b, c) && Untouched(ino, c, d)
    ensures Untouched(ino, a, d)
  {
  }

  lemma MadeAdds(ibm: InodeBitmap, itab: InodeTable, dbm: DataBitmap, data: Blocks, p: nat, name: Name, i: u32, v: Ino,
                 q: nat, ibm': InodeBitmap, itab': InodeTable, dbm': DataBitmap, data': Blocks)
    requires MadeEntry(ibm, itab, dbm, data, p, name, i, v, q, ibm', itab', dbm', data')
    ensures InodeAdded(ibm, ibm', i)
  {
  }

  lemma LastStepResolves(itab: InodeTable, data: Blocks, comps: seq<Name>, p: u32, n: u32, q: nat)
    requires LastStep(itab, data, ROOTUSER, comps, p, n, q)
    ensures Resolve(itab, data, ROOTUSER, ROOTINUM, comps) == Found(n) && p < INODES
  {
  }

  lemma RoomTakesNothing(dir: Ino, data: Blocks)
    ensures Room(dir, data) ==> MayGrow(dir, data) && BlocksToLink(dir, data) == 0
  {
  }

  /** Can the file be created in directory par and hold the content? */
  ghost predicate Fits(ibm: InodeBitmap, dbm: DataBitmap, data: Blocks, par: Ino, name: Name, content: seq<byte>)
  {
    && |name| <= MAXNAME && !FullBelow(ibm, INODES) && MayGrow(par, data) && |content| <= MAXSIZE
    && BlocksToLink(par, data) + Need(NBlocks(|content|)) <= |Free(dbm)|
  }

  /** Content that does not start with four zero bytes looks like a directory entry. */
  lemma ContentLooksUsed(ino: Ino, data: Blocks)
    requires WF(ino, data) && 4 <= ino.size <= MAXSIZE && Get32(Content(ino, data), 0) != 0
    ensures var b := SlotBlock(ino, data, 0); b < BLOCKS && b in Own(ino, data) && Entries(BlkSlots(data[b])) != []
  {
    ByteIsLive(ino, 0);
    OwnHas(ino, data, 0);
    var b := SlotBlock(ino, data, 0);
    assert forall j :: 0 <= j < 4 ==> Content(ino, data)[j] == data[b][j];
    assert !IsFree(BlkSlots(data[b])[0]);
    NoEntries(BlkSlots(data[b]));
  }

  lemma ContentIsDirty(k: Kernel, i: u32, content: seq<byte>)
    requires Ready(k) && Taken(k.fs.ibm, i) && i < INODES && ContentIs(k, i, content) && |content| >= 4
    requires Get32(content, 0) != 0
    ensures !OwnBlocksClean(k.fs.itab, k.fs.data, {i as nat})
  {
    hide FsOk, Decode, Shows, Content, SlotBlock, Entries, BlkSlots, Own, WF;
    FsOkInode(k.fs.ibm, k.fs.itab, k.fs.dbm, k.fs.data, i);
    ContentLooksUsed(Decode(k.fs.itab[i]), k.fs.data);
  }

  /** root creates a file, writes it and removes it: it works iff the name and the content fit, and then the volume is
      as it was, except that the freed blocks keep what was written: unless the content starts with four zero bytes, a
      free block shows a directory entry afterwards. */
  method CreateWriteRemove(k: Kernel, comps: seq<Name>, content: seq<byte>, now: u64) returns (done: bool)
    requires Ready(k) && comps != [] && |content| <= U32 - BLOCKSIZE
    requires Resolve(k.fs.itab, k.fs.data, ROOTUSER, ROOTINUM, comps).Failed?
    requires ParentFor(k.fs.itab, k.fs.data, ROOTUSER, comps).Found?
    requires CleanTarget(k.fs.itab, k.fs.data, k.fs.dbm, ROOTUSER, comps, false)
    modifies k`inodeCache, k.inodeCache.Values, k.fs`data, k.fs`dbm, k.fs`itab, k.fs`ibm, k.fs.disk.buf
    ensures var p := ParentFor(old(k.fs.itab), old(k.fs.data), ROOTUSER, comps).inum;
      && p < INODES
      && (done <==> Fits(old(k.fs.ibm), old(k.fs.dbm), old(k.fs.data), Decode(old(k.fs.itab)[p]), BaseOf(comps),
                         content))
      && (done ==> Ready(k) && Restored(old(k.fs.ibm), old(k.fs.itab), old(k.fs.dbm), old(k.fs.data), p, k.fs.ibm,
                                        k.fs.itab, k.fs.dbm, k.fs.data))
    ensures done && |content| >= 4 && Get32(content, 0) != 0 ==> !FreeBlocksClean(k.fs.dbm, k.fs.data)
  {
    hide Ready, FsOk, Shows, Decode, Resolve, MadeEntry, FilledIn, NBlocks, Slots, Entries, Lookup, Free, FullBelow,
      Need, Room, MayGrow, BlocksToLink, GrowsClean, DotsClean, Cached, OnlyLoaded, Restored, Sound;
    ghost var ibm, itab, dbm, data := k.fs.ibm, k.fs.itab, k.fs.dbm, k.fs.data;
    ReadyIsOk(k);
    ParentIsSound(k, ROOTUSER, comps);
    ghost var p := ParentFor(itab, data, ROOTUSER, comps).inum;
    ghost var v := FreshIno(S_IFREG, ROOTUSER, false, 7, 5, now);
    var c, q := CreateFile(k, ROOTUSER, comps, now);
    if !c.Created? {
      return false;
    }
    ghost var ibm1, itab1, dbm1, data1 := k.fs.ibm, k.fs.itab, k.fs.dbm, k.fs.data;
    MadeTakes(ibm, itab, dbm, data, p, BaseOf(comps), c.inum, v, q, ibm1, itab1, dbm1, data1);
    MadeFacts(ibm, itab, dbm, data, p, BaseOf(comps), c.inum, v, q, ibm1, itab1, dbm1, data1);
    done := WriteCreated(k, comps, content, now, p, c.inum, v, q, ibm, itab, dbm, data);
    if done {
      if |content| >= 4 && Get32(content, 0) != 0 {
        ContentIsDirty(k, c.inum, content);
      }
      RemoveCreated(k, comps, p, c.inum, v, q, ibm, itab, dbm, data, ibm1, itab1, dbm1, data1);
    }
  }

  /** root makes a directory and removes it: it works iff the name fits and an inode and the blocks are free, and then
      the volume is as it was, except that the freed block keeps the two dot entries. */
  method MkDirThenRemove(k: Kernel, comps: seq<Name>, now: u64) returns (done: bool)
    requires Ready(k) && comps != []
    requires Resolve(k.fs.itab, k.fs.data, ROOTUSER, ROOTINUM, comps).Failed?
    requires ParentFor(k.fs.itab, k.fs.data, ROOTUSER, comps).Found?
    requires CleanTarget(k.fs.itab, k.fs.data, k.fs.dbm, ROOTUSER, comps, true)
    modifies k`inodeCache, k.inodeCache.Values, k.fs`data, k.fs`dbm, k.fs`itab, k.fs`ibm, k.fs.disk.buf
    ensures var p := ParentFor(old(k.fs.itab), old(k.fs.data), ROOTUSER, comps).inum;
      && p < INODES
      && (done <==>
           && |BaseOf(comps)| <= MAXNAME && !FullBelow(old(k.fs.ibm), INODES) &&
                MayGrow(Decode(old(k.fs.itab)[p]), old(k.fs.data))
           && BlocksToLink(Decode(old(k.fs.itab)[p]), old(k.fs.data)) + 1 <= |Free(old(k.fs.dbm))|)
      && (done ==> Ready(k) && Restored(old(k.fs.ibm), old(k.fs.itab), old(k.fs.dbm), old(k.fs.data), p, k.fs.ibm,
                                        k.fs.itab, k.fs.dbm, k.fs.data))
    ensures done ==> NextEntries(k.fs.data, k.fs.dbm, 0) != [] && !FreeBlocksClean(k.fs.dbm, k.fs.data)
  {
    hide NextEntries, NextBlock, Own, BlkSlots, SlotBlock;
    hide Ready, FsOk, Shows, Decode, Resolve, MadeEntry, MadeInode, FilledIn, NBlocks, Slots, Entries, Lookup, Free,
      FullBelow, Need, Room, MayGrow, BlocksToLink, FreeBlocksClean, OwnBlocksClean, Kids, GrowsClean, DotsClean,
      Cached, OnlyLoaded, Restored, Sound;
    ghost var ibm, itab, dbm, data := k.fs.ibm, k.fs.itab, k.fs.dbm, k.fs.data;
    ReadyIsOk(k);
    ParentIsSound(k, ROOTUSER, comps);
    ghost var p := ParentFor(itab, data, ROOTUSER, comps).inum;
    ghost var v := FreshIno(S_IFDIR, ROOTUSER, false, 7, 5, now);
    var c, q := MkDir(k, ROOTUSER, comps, now);
    if !c.Created? {
      return false;
    }
    ghost var itab1, dbm1,
        data1 := MadeDirIsFilledIn(ibm, itab, dbm, data, p, BaseOf(comps), c.inum, v, q, k.fs.ibm, k.fs.itab, k.fs.dbm,
                                   k.fs.data);
    MadeFacts(ibm, itab, dbm, data, p, BaseOf(comps), c.inum, v, q, k.fs.ibm, itab1, dbm1, data1);
    ReadyIsOk(k);
    NewDirIsDirty(itab, dbm1, data1, c.inum, v, p, k.fs.itab, k.fs.dbm, k.fs.data);
    ghost var data2 := k.fs.data;
    RemoveCreated(k, comps, p, c.inum, v, q, ibm, itab, dbm, data, k.fs.ibm, itab1, dbm1, data1);
    NextIsDirty(dbm1, data2, k.fs.data);
    return true;
  }

  /** The block of a new directory is the one that first fit would hand out before and shows its dot entries. */
  lemma NewDirIsDirty(itab: InodeTable, dbm: DataBitmap, data: Blocks, i: u32, v: Ino, p: u32,
                      itab': InodeTable, dbm': DataBitmap, data': Blocks)
    requires i < INODES && FreshDir(v, dbm, data, i, p, Decode(itab'[i]), dbm', data')
    ensures var b := NextBlock(dbm, 0);
      b < BLOCKS && b in Own(Decode(itab'[i]), data') && Entries(BlkSlots(data'[b])) != []
  {
    hide Decode, Slots, BlkSlots, Entries, NextBlock, SlotBlock, Own;
    OneBlockSlots(Decode(itab'[i]), data');
  }

  /** A directory of one block shows what that block shows. */
  lemma OneBlockSlots(ino: Ino, data: Blocks)
    requires WF(ino, data) && NBlocks(ino.size) == 1
    ensures var b := SlotBlock(ino, data, 0); b < BLOCKS && b in Own(ino, data) && BlkSlots(data[b]) == Slots(ino, data)
  {
    assert LiveSlot(ino, 0);
    OwnHas(ino, data, 0);
    SlotsOfBlock(ino, data, 0);
  }

  lemma NextIsDirty(dbm: DataBitmap, data: Blocks, data': Blocks)
    requires var b := NextBlock(dbm, 0); b < BLOCKS && data'[b] == data[b] && Entries(BlkSlots(data[b])) != []
    ensures NextEntries(data', dbm, 0) != [] && !FreeBlocksClean(dbm, data')
  {
    hide Entries, BlkSlots;
    assert FreeFrom(dbm, 0) < 8 * |dbm|;
  }
}

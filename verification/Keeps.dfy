/** What keeps the volume in order: changing one inode, adding one, dropping a subtree. */
module Keeps {
  import opened Bytes
  import opened Bitmap
  import opened Layout
  import opened Inodes
  import opened BlockMap
  import opened Allocator
  import opened Volume
  import opened Files
  import opened Dir
  import opened Paths
  import opened TreeFree

  /** Type, owner and permissions agree. */
  predicate SameMeta(a: Ino, b: Ino)
  {
    a.fType == b.fType && a.owner == b.owner && a.setuid == b.setuid && a.ownerMode == b.ownerMode &&
      a.otherMode == b.otherMode
  }

  /** Only the record of inode i may have changed; it now holds ino. */
  ghost predicate RecordSet(itab: InodeTable, itab': InodeTable, i: nat, ino: Ino)
  {
    i < INODES && Decode(itab'[i]) == ino && forall j :: 0 <= j < INODES && j != i ==> itab'[j] == itab[j]
  }

  lemma RecordWritten(itab: InodeTable, i: nat, ino: Ino)
    requires i < INODES
    ensures RecordSet(itab, itab[i := Encode(ino)], i, ino)
  {
    DecodeEncode(ino);
  }

  lemma UntouchedSlots(ino: Ino, data: Blocks, data': Blocks)
    requires WF(ino, data) && Untouched(ino, data, data')
    ensures Slots(ino, data') == Slots(ino, data)
  {
    forall q | 0 <= q < |Slots(ino, data)| ensures Slots(ino, data')[q] == Slots(ino, data)[q] {
      assert LiveSlot(ino, q / PERBLOCK);
      OwnHas(ino, data, q / PERBLOCK);
    }
  }

  /** Every allocated inode but i keeps its blocks and their contents. */
  ghost predicate OthersKept(ibm: InodeBitmap, itab: InodeTable, data: Blocks, data': Blocks, i: nat)
  {
    forall j: nat :: Taken(ibm, j) && j != i ==> Untouched(Decode(itab[j]), data, data')
  }

  lemma InosUpdated(ibm: InodeBitmap, itab: InodeTable, itab': InodeTable, i: nat, ino: Ino)
    requires Taken(ibm, i) && RecordSet(itab, itab', i, ino)
    ensures Inos(ibm, itab') == Inos(ibm, itab)[i := ino]
  {
  }

  lemma OthersAreKept(ibm: InodeBitmap, itab: InodeTable, dbm: DataBitmap, data: Blocks, i: nat, newSize: u32,
                      ino': Ino, data': Blocks, dbm': DataBitmap)
    requires Owned(Inos(ibm, itab), data, dbm) && Taken(ibm, i)
    requires Rewritten(Decode(itab[i]), data, dbm, newSize, ino', data', dbm')
    ensures OthersKept(ibm, itab, data, data', i)
  {
    hide Owned, Rewritten, Untouched, Decode;
    var inos := Inos(ibm, itab);
    forall j: nat | Taken(ibm, j) && j != i ensures Untouched(Decode(itab[j]), data, data') {
      assert j in inos && i in inos && inos[i] == Decode(itab[i]);
      OthersUntouched(inos, data, dbm, i, newSize, ino', data', dbm', j);
    }
  }

  /** A sound directory elsewhere stays sound. */
  lemma DirStaysSound(ino: Ino, data: Blocks, data': Blocks, ibm: InodeBitmap, ibm': InodeBitmap)
    requires WF(ino, data) && Untouched(ino, data, data') && DirSound(ino, data, ibm)
    requires forall j: nat :: Taken(ibm, j) ==> Taken(ibm', j)
    ensures DirSound(ino, data', ibm')
  {
    UntouchedSlots(ino, data, data');
  }

  lemma RewrittenKeepsMeta(ino: Ino, data: Blocks, dbm: DataBitmap, newSize: u32, ino': Ino, data': Blocks,
                           dbm': DataBitmap)
    requires Rewritten(ino, data, dbm, newSize, ino', data', dbm')
    ensures SameMeta(ino, ino')
  {
  }

  /** Rewriting the blocks and the record of one inode keeps the volume in order. */
  lemma RewriteKeepsFsOk(ibm: InodeBitmap, itab: InodeTable, dbm: DataBitmap, data: Blocks, i: nat,
                         itab': InodeTable, ino': Ino, dbm': DataBitmap, data': Blocks)
    requires FsOk(ibm, itab, dbm, data) && Taken(ibm, i) && RecordSet(itab, itab', i, ino')
    requires Rewritten(Decode(itab[i]), data, dbm, ino'.size, ino', data', dbm') && ino'.size <= MAXSIZE
    requires IsDir(ino') ==> NBlocks(ino'.size) <= MAXBLOCKS && DirSound(ino', data', ibm)
    ensures FsOk(ibm, itab', dbm', data') && OthersKept(ibm, itab, data, data', i)
  {
    hide Rewritten, Untouched, Decode, DirSound, WF, Owned, Inos;
    OthersAreKept(ibm, itab, dbm, data, i, ino'.size, ino', data', dbm');
    RewrittenKeepsMeta(Decode(itab[i]), data, dbm, ino'.size, ino', data', dbm');
    OwnedAfterRewrite(ibm, itab, dbm, data, i, itab', ino', dbm', data');
    forall j: nat | Taken(ibm, j) && IsDir(Decode(itab'[j]))
      ensures NBlocks(Decode(itab'[j]).size) <= MAXBLOCKS && DirSound(Decode(itab'[j]), data', ibm)
    {
      if j != i {
        FsOkInode(ibm, itab, dbm, data, j);
        DirStaysSound(Decode(itab[j]), data, data', ibm, ibm);
      }
    }
  }

  lemma OwnedAfterRewrite(ibm: InodeBitmap, itab: InodeTable, dbm: DataBitmap, data: Blocks, i: nat,
                          itab': InodeTable, ino': Ino, dbm': DataBitmap, data': Blocks)
    requires Owned(Inos(ibm, itab), data, dbm) && Taken(ibm, i) && RecordSet(itab, itab', i, ino')
    requires Rewritten(Decode(itab[i]), data, dbm, ino'.size, ino', data', dbm')
    ensures Owned(Inos(ibm, itab'), data', dbm')
  {
    hide Owned, Rewritten, Decode;
    InosUpdated(ibm, itab, itab', i, ino');
    assert i in Inos(ibm, itab) && Inos(ibm, itab)[i] == Decode(itab[i]);
    RewriteKeepsOwned(Inos(ibm, itab), data, dbm, i, ino'.size, ino', data', dbm');
  }

  // ---------- a new inode ----------

  ghost predicate InodeAdded(ibm: InodeBitmap, ibm': InodeBitmap, i: nat)
  {
    forall j: nat :: Taken(ibm', j) <==> j == i || Taken(ibm, j)
  }

  lemma EmptyInode(ino: Ino, data: Blocks)
    requires ino.size == 0
    ensures WF(ino, data) && Own(ino, data) == {} && NBlocks(ino.size) == 0 && Slots(ino, data) == []
  {
    assert forall s: nat :: !LiveSlot(ino, s);
  }

  lemma NewInodeKeepsOwned(inos: InodeMap, data: Blocks, dbm: DataBitmap, i: nat, ino: Ino)
    requires Owned(inos, data, dbm) && i !in inos && ino.size == 0
    ensures Owned(inos[i := ino], data, dbm)
  {
    hide Own, WF, Bit;
    EmptyInode(ino, data);
    var inos' := inos[i := ino];
    forall b: nat | b < BLOCKS && Taken(dbm, b) ensures exists j :: j in inos' && b in Own(inos'[j], data) {
      var j :| j in inos && b in Own(inos[j], data);
      assert j in inos';
    }
  }

  lemma DirSoundGrows(ino: Ino, data: Blocks, ibm: InodeBitmap, ibm': InodeBitmap)
    requires NBlocks(ino.size) <= MAXBLOCKS && DirSound(ino, data, ibm)
    requires forall j: nat :: Taken(ibm, j) ==> Taken(ibm', j)
    ensures DirSound(ino, data, ibm')
  {
  }

  /** Allocating an inode number and writing an empty record keeps the volume in order. */
  lemma NewInodeKeepsFsOk(ibm: InodeBitmap, itab: InodeTable, dbm: DataBitmap, data: Blocks, i: nat, ibm': InodeBitmap,
                          itab': InodeTable, ino: Ino)
    requires FsOk(ibm, itab, dbm, data) && i < INODES && !Taken(ibm, i)
    requires InodeAdded(ibm, ibm', i) && RecordSet(itab, itab', i, ino) && ino.size == 0 && HasOps(ino)
    ensures FsOk(ibm', itab', dbm, data)
  {
    hide Decode, WF, Owned, DirSound;
    EmptyInode(ino, data);
    var inos := Inos(ibm, itab);
    assert Inos(ibm', itab') == inos[i := ino];
    NewInodeKeepsOwned(inos, data, dbm, i, ino);
    forall j: nat | Taken(ibm', j) && IsDir(Decode(itab'[j]))
      ensures NBlocks(Decode(itab'[j]).size) <= MAXBLOCKS && DirSound(Decode(itab'[j]), data, ibm')
    {
      if j == i {
        EmptyDirSound(ino, data, ibm');
      } else {
        FsOkInode(ibm, itab, dbm, data, j);
        DirSoundGrows(Decode(itab[j]), data, ibm, ibm');
      }
    }
  }

  lemma EmptyDirSound(ino: Ino, data: Blocks, ibm: InodeBitmap)
    requires ino.size == 0
    ensures NBlocks(ino.size) <= MAXBLOCKS && DirSound(ino, data, ibm)
  {
    EmptyInode(ino, data);
  }

  // ---------- dropping a subtree ----------

  /** No directory that stays refers to an inode in `freed`. */
  ghost predicate NoReferences(ibm: InodeBitmap, itab: InodeTable, data: Blocks, freed: set<nat>)
  {
    forall j: nat | Taken(ibm, j) && j !in freed && IsDir(Decode(itab[j])) &&
                    NBlocks(Decode(itab[j]).size) <= MAXBLOCKS ::
      forall q :: 0 <= q < |Slots(Decode(itab[j]), data)| && !IsFree(Slots(Decode(itab[j]), data)[q]) ==>
        Get32(Slots(Decode(itab[j]), data)[q], 0) as nat !in freed
  }

  /** The volume is in order, but there may be marked blocks that no inode owns. */
  ghost predicate FsHeld(ibm: InodeBitmap, itab: InodeTable, dbm: DataBitmap, data: Blocks)
  {
    && Held(Inos(ibm, itab), data, dbm)
    && (forall i: nat :: i <= ROOTINUM ==> Taken(ibm, i))
    && (forall i: nat :: Taken(ibm, i) ==> Decode(itab[i]).size <= MAXSIZE && HasOps(Decode(itab[i])))
    && (forall i: nat :: Taken(ibm, i) && IsDir(Decode(itab[i])) ==> DirSound(Decode(itab[i]), data, ibm))
  }

  /** Giving back a subtree that nothing refers to any more keeps that. */
  lemma DropKeepsHeld(ibm: InodeBitmap, itab: InodeTable, dbm: DataBitmap, data: Blocks, freed: set<nat>,
                      ibm': InodeBitmap, dbm': DataBitmap)
    requires FsOk(ibm, itab, dbm, data) && InodesFreed(ibm, ibm', freed)
    requires Held(Inos(ibm', itab), data, dbm')
    requires NoReferences(ibm, itab, data, freed) && (forall i: nat :: i <= ROOTINUM ==> i !in freed)
    ensures FsHeld(ibm', itab, dbm', data)
  {
    hide Owned, Held, DirOk, Decode;
  }

  // ---------- resolution depends on directories and permissions only ----------

  /** Allocated inodes keep type, owner and permissions; allocated directories keep their listings. */
  ghost predicate SameTree(ibm: InodeBitmap, itab: InodeTable, data: Blocks, itab': InodeTable, data': Blocks)
  {
    forall j: nat :: Taken(ibm, j) ==>
      && SameMeta(Decode(itab[j]), Decode(itab'[j]))
      && NBlocks(Decode(itab[j]).size) <= MAXBLOCKS && NBlocks(Decode(itab'[j]).size) <= MAXBLOCKS
      && (IsDir(Decode(itab[j])) ==> Entries(Slots(Decode(itab'[j]), data')) == Entries(Slots(Decode(itab[j]), data)))
  }

  /** A name found in a sound directory leads to an allocated inode. */
  lemma FoundIsTaken(ino: Ino, data: Blocks, ibm: InodeBitmap, name: Name)
    requires NBlocks(ino.size) <= MAXBLOCKS && DirSound(ino, data, ibm)
    ensures var r := Lookup(Entries(Slots(ino, data)), name); r.Some? ==> Taken(ibm, r.value) && r.value != 0
  {
    var slots := Slots(ino, data);
    var k := FirstNamedExists(slots, name);
    LookupIsFirstNamed(slots, name, k);
    if k < |slots| {
      assert !IsFree(slots[k]);
    }
  }

  lemma {:induction false} ResolveSame(ibm: InodeBitmap, itab: InodeTable, dbm: DataBitmap, data: Blocks,
                                       itab': InodeTable, data': Blocks, euid: Name, i: u32, comps: seq<Name>)
    requires FsOk(ibm, itab, dbm, data) && Taken(ibm, i) && SameTree(ibm, itab, data, itab', data')
    ensures Resolve(itab', data', euid, i, comps) == Resolve(itab, data, euid, i, comps)
    decreases comps
  {
    hide Owned, DirSound, Slots, Entries, Decode, NBlocks, Lookup, OwnerString;
    var ino := Decode(itab[i]);
    if comps != [] && IsDir(ino) {
      FoundIsTaken(ino, data, ibm, comps[0]);
      var r := Lookup(Entries(Slots(ino, data)), comps[0]);
      if r.Some? {
        ResolveSame(ibm, itab, dbm, data, itab', data', euid, r.value, comps[1..]);
      }
    }
  }

  // ---------- adding an entry ----------

  /** No free data block shows used slots: what addDentry takes for granted of the block it is handed. */
  ghost predicate FreeBlocksClean(dbm: DataBitmap, data: Blocks)
  {
    forall b: nat :: b < BLOCKS && !Taken(dbm, b) ==> Entries(BlkSlots(data[b])) == []
  }

  /** The entry went into slot q, in place or after growth by one block. */
  ghost predicate EntryAdded(ino: Ino, data: Blocks, dbm: DataBitmap, e: DirEntry, ino': Ino, data': Blocks,
                             dbm': DataBitmap, q: nat)
  {
    && |e.name| <= MAXNAME
    && (|| (ino' == ino && dbm' == dbm && AddedInPlace(ino, data, EntrySlot(e), data', q))
        || (!Room(ino, data) && ino'.size == ino.size + BLOCKSIZE
            && GrewAndAdded(ino, data, dbm, EntrySlot(e), ino', data', dbm', q) && q < |Slots(ino', data')|))
  }

  /** The directory has a free slot. */
  ghost predicate Room(ino: Ino, data: Blocks)
  {
    NBlocks(ino.size) <= MAXBLOCKS && HasFree(Slots(ino, data))
  }

  /** The directory has a free slot, or the block that first fit would hand it shows no entry. */
  ghost predicate GrowsClean(ino: Ino, data: Blocks, dbm: DataBitmap)
  {
    Room(ino, data) || NextEntries(data, dbm, NBlocks(ino.size)) == []
  }

  /** The first block of the next directory shows no entry once `par` has taken the blocks for one more entry. */
  ghost predicate DotsClean(par: Ino, data: Blocks, dbm: DataBitmap)
  {
    Entries(BlkSlots(BlockAt(data, NthFree(dbm, BlocksToLink(par, data))))) == []
  }

  /** When all free blocks are clean, so are those. */
  lemma AllCleanGrowsClean(ino: Ino, data: Blocks, dbm: DataBitmap)
    requires FreeBlocksClean(dbm, data) && HighBitsSet(dbm)
    ensures GrowsClean(ino, data, dbm) && DotsClean(ino, data, dbm)
  {
    hide Entries, BlkSlots, Room, BlocksToLink;
    BlankBlock();
    NthIsFree(dbm, BlocksToLink(ino, data));
    NthIsFree(dbm, 0);
    NthIsFree(dbm, 1);
  }

  lemma RoomDotsClean(ino: Ino, data: Blocks, dbm: DataBitmap)
    requires Room(ino, data) && NextEntries(data, dbm, 0) == []
    ensures DotsClean(ino, data, dbm)
  {
    hide Entries, BlkSlots, Room;
  }

  lemma NthIsFree(dbm: DataBitmap, k: nat)
    requires HighBitsSet(dbm)
    ensures var b := NthFree(dbm, k); b >= BLOCKS || !Taken(dbm, b)
  {
  }

  lemma BlankBlock()
    ensures Entries(BlkSlots(ZERO)) == []
  {
    NoEntries(BlkSlots(ZERO));
  }

  /** The directory can take one more entry, given the blocks for it. */
  ghost predicate MayGrow(ino: Ino, data: Blocks)
  {
    Room(ino, data) || NBlocks(ino.size) < MAXBLOCKS
  }

  /** The blocks that one more entry takes. */
  ghost function BlocksToLink(ino: Ino, data: Blocks): nat
  {
    if Room(ino, data) then 0 else Need(NBlocks(ino.size) + 1) - Need(NBlocks(ino.size))
  }

  /** Adding an entry takes exactly those. */
  lemma FreeAfterLink(ino: Ino, data: Blocks, dbm: DataBitmap, e: DirEntry, ino': Ino, data': Blocks, dbm': DataBitmap,
                      q: nat)
    requires Sound(ino, data, dbm) && EntryAdded(ino, data, dbm, e, ino', data', dbm', q)
    ensures |Free(dbm')| + BlocksToLink(ino, data) == |Free(dbm)|
  {
    hide Free, Slots, SlotBlock, Need;
    if ino' == ino && dbm' == dbm && AddedInPlace(ino, data, EntrySlot(e), data', q) {
      assert IsFree(Slots(ino, data)[q]);
      WFBound(ino, data);
    } else {
      FreeConserved(ino, data, dbm, ino'.size, ino', data', dbm');
    }
  }

  /** An empty directory takes one block for its first entry. */
  lemma EmptyDirTakesOne(ino: Ino, data: Blocks)
    requires ino.size == 0
    ensures MayGrow(ino, data) && BlocksToLink(ino, data) == 1
  {
    EmptyInode(ino, data);
  }

  lemma EntryAddedRewrites(ino: Ino, data: Blocks, dbm: DataBitmap, e: DirEntry, ino': Ino, data': Blocks,
                           dbm': DataBitmap, q: nat)
    requires Sound(ino, data, dbm) && EntryAdded(ino, data, dbm, e, ino', data', dbm', q)
    ensures Rewritten(ino, data, dbm, ino'.size, ino', data', dbm')
    ensures NBlocks(ino.size) <= MAXBLOCKS && NBlocks(ino'.size) <= MAXBLOCKS && NBlocks(ino.size) <= NBlocks(ino'.size)
    ensures SameMeta(ino, ino')
  {
    if ino' == ino && dbm' == dbm && AddedInPlace(ino, data, EntrySlot(e), data', q) {
      NoReallocation(ino, data, dbm);
      RewrittenThenSameMap(ino, data, dbm, ino.size, ino, data, dbm, data');
    }
  }

  /** The slots after the addition: those before, possibly followed by a fresh block, with the entry in the first free
      one. */
  lemma AddedSlots(ino: Ino, data: Blocks, dbm: DataBitmap, e: DirEntry, ino': Ino, data': Blocks, dbm': DataBitmap,
                   q: nat)
    returns (all: seq<Slot>)
    requires e.inum != 0 && Sound(ino, data, dbm) && EntryAdded(ino, data, dbm, e, ino', data', dbm', q)
    requires GrowsClean(ino, data, dbm)
    ensures |e.name| <= MAXNAME && FirstFree(all, q) && q < |all| && NBlocks(ino.size) <= MAXBLOCKS
    ensures NBlocks(ino'.size) <= MAXBLOCKS
    ensures Slots(ino', data') == all[q := EntrySlot(e)]
    ensures |Slots(ino, data)| <= |all| && all[..|Slots(ino, data)|] == Slots(ino, data)
    ensures forall k :: |Slots(ino, data)| <= k < |all| ==> IsFree(all[k])
  {
    if ino' == ino && dbm' == dbm && AddedInPlace(ino, data, EntrySlot(e), data', q) {
      all := Slots(ino, data);
    } else {
      EntryAddedRewrites(ino, data, dbm, e, ino', data', dbm', q);
      var n := NBlocks(ino.size);
      var nb := SlotBlock(ino', data', n);
      assert LiveSlot(ino', n);
      all := Slots(ino, data) + BlkSlots(data[nb]);
      NoEntries(BlkSlots(data[nb]));
    }
  }

  /** Free blocks stay clean when an inode grows: fewer are free and those are not written. */
  lemma GrowthKeepsFreeClean(ino: Ino, data: Blocks, dbm: DataBitmap, newSize: u32, ino': Ino, data': Blocks,
                             dbm': DataBitmap)
    requires FreeBlocksClean(dbm, data) && Rewritten(ino, data, dbm, newSize, ino', data', dbm')
    requires NBlocks(ino.size) <= NBlocks(newSize)
    ensures FreeBlocksClean(dbm', data')
  {
    hide Entries, BlkSlots;
    forall b: nat | b < BLOCKS && !Taken(dbm', b) ensures !Taken(dbm, b) && data'[b] == data[b] {
      assert b !in Own(ino', data');
      if b in Own(ino, data) {
        var s := SlotOf(ino, data, b);
        assert LiveSlot(ino', s) && SlotBlock(ino', data', s) == b;
        OwnHas(ino', data', s);
      }
    }
  }

  /** The directory with the new entry is sound. */
  lemma AddedDirSound(ino: Ino, data: Blocks, dbm: DataBitmap, e: DirEntry, ino': Ino, data': Blocks, dbm': DataBitmap,
                      q: nat, ibm: InodeBitmap)
    requires e.inum != 0 && Sound(ino, data, dbm) && EntryAdded(ino, data, dbm, e, ino', data', dbm', q)
    requires GrowsClean(ino, data, dbm)
    requires NBlocks(ino.size) <= MAXBLOCKS && DirSound(ino, data, ibm) && Taken(ibm, e.inum)
    ensures NBlocks(ino'.size) <= MAXBLOCKS && DirSound(ino', data', ibm)
  {
    hide GrewAndAdded, AddedInPlace, Sound, GrowsClean, Slots, NBlocks;
    var all := AddedSlots(ino, data, dbm, e, ino', data', dbm', q);
    EntryRoundTrip(e);
    var ss := Slots(ino, data);
    forall k | 0 <= k < |all| ensures IsFree(all[k]) || (k < |ss| && all[k] == ss[k]) {
      if k < |ss| {
        assert all[..|ss|][k] == all[k];
      }
    }
  }

  lemma EntryAddedKeepsFsOk(ibm: InodeBitmap, itab: InodeTable, dbm: DataBitmap, data: Blocks, dir: nat, e: DirEntry,
                            itab': InodeTable, ino': Ino, dbm': DataBitmap, data': Blocks, q: nat)
    requires FsOk(ibm, itab, dbm, data) && Taken(ibm, dir) && IsDir(Decode(itab[dir])) && Taken(ibm, e.inum)
    requires e.inum != 0
    requires GrowsClean(Decode(itab[dir]), data, dbm)
    requires EntryAdded(Decode(itab[dir]), data, dbm, e, ino', data', dbm', q) && RecordSet(itab, itab', dir, ino')
    ensures FsOk(ibm, itab', dbm', data') && OthersKept(ibm, itab, data, data', dir)
    ensures FreeBlocksClean(dbm, data) ==> FreeBlocksClean(dbm', data')
    ensures SameMeta(Decode(itab[dir]), ino')
  {
    hide FsOk, Decode, Sound, DirSound, FreeBlocksClean, GrowsClean, OthersKept, Rewritten, GrewAndAdded, AddedInPlace;
    var ino := Decode(itab[dir]);
    FsOkInode(ibm, itab, dbm, data, dir);
    AddedDirSound(ino, data, dbm, e, ino', data', dbm', q, ibm);
    EntryAddedRewrites(ino, data, dbm, e, ino', data', dbm', q);
    RewriteKeepsFsOk(ibm, itab, dbm, data, dir, itab', ino', dbm', data');
    if FreeBlocksClean(dbm, data) {
      GrowthKeepsFreeClean(ino, data, dbm, ino'.size, ino', data', dbm');
    }
  }

  /** Growth into a clean block always leaves room. */
  lemma CleanGrowthHasRoom(ino: Ino, data: Blocks, dbm: DataBitmap, enc: Slot, ino': Ino, data': Blocks,
                           dbm': DataBitmap, q: nat)
    requires NextEntries(data, dbm, NBlocks(ino.size)) == [] && GrewAndAdded(ino, data, dbm, enc, ino', data', dbm', q)
    ensures q < |Slots(ino', data')|
  {
    var nb := SlotBlock(ino', data', NBlocks(ino.size));
    var all := Slots(ino, data) + BlkSlots(data[nb]);
    NoEntries(BlkSlots(data[nb]));
    assert all[|Slots(ino, data)|] == BlkSlots(data[nb])[0];
  }

  lemma FsOkInode(ibm: InodeBitmap, itab: InodeTable, dbm: DataBitmap, data: Blocks, i: nat)
    requires FsOk(ibm, itab, dbm, data) && Taken(ibm, i)
    ensures i < INODES && Sound(Decode(itab[i]), data, dbm) && Decode(itab[i]).size <= MAXSIZE
    ensures HasOps(Decode(itab[i]))
    ensures WF(Decode(itab[i]), data) && NBlocks(Decode(itab[i]).size) <= MAXBLOCKS
    ensures IsDir(Decode(itab[i])) ==> DirSound(Decode(itab[i]), data, ibm) && DirOk(Slots(Decode(itab[i]), data))
  {
    assert i in Inos(ibm, itab);
  }

  /** What addDentry promises is an added entry whenever there was room or the block handed out was clean. */
  lemma AddOutcome(ino: Ino, data: Blocks, dbm: DataBitmap, e: DirEntry, ino': Ino, data': Blocks, dbm': DataBitmap,
                   q: nat)
    requires |e.name| <= MAXNAME && NBlocks(ino.size) <= MAXBLOCKS
    requires GrowsClean(ino, data, dbm)
    requires HasFree(Slots(ino, data)) ==> ino' == ino && dbm' == dbm && AddedInPlace(ino, data, EntrySlot(e), data', q)
    requires !HasFree(Slots(ino, data)) ==>
      ino'.size == ino.size + BLOCKSIZE && GrewAndAdded(ino, data, dbm, EntrySlot(e), ino', data', dbm', q)
    ensures EntryAdded(ino, data, dbm, e, ino', data', dbm', q)
    ensures !HasFree(Slots(ino, data)) ==> NBlocks(ino'.size) <= MAXBLOCKS && q < |Slots(ino', data')|
  {
    if !HasFree(Slots(ino, data)) {
      CleanGrowthHasRoom(ino, data, dbm, EntrySlot(e), ino', data', dbm', q);
    }
  }

  /** The used slots come first. */
  ghost predicate Compact(slots: seq<Slot>, m: nat)
  {
    m <= |slots| && (forall q :: 0 <= q < m ==> !IsFree(slots[q])) &&
      (forall q :: m <= q < |slots| ==> IsFree(slots[q]))
  }

  /** Adding to a directory whose used slots come first appends to its listing. */
  lemma AddedToCompact(ino: Ino, data: Blocks, dbm: DataBitmap, e: DirEntry, ino': Ino, data': Blocks, dbm': DataBitmap,
                       q: nat, m: nat)
    requires e.inum != 0 && Sound(ino, data, dbm) && EntryAdded(ino, data, dbm, e, ino', data', dbm', q)
    requires GrowsClean(ino, data, dbm)
    requires NBlocks(ino.size) <= MAXBLOCKS && Compact(Slots(ino, data), m)
    ensures q == m && NBlocks(ino'.size) <= MAXBLOCKS && Compact(Slots(ino', data'), m + 1)
    ensures Entries(Slots(ino', data')) == Entries(Slots(ino, data)) + [e]
  {
    hide EntryAdded, GrowsClean, Sound, Slots, NBlocks, Entries, Compact;
    var all := AddedSlots(ino, data, dbm, e, ino', data', dbm', q);
    FilledCompact(Slots(ino, data), all, q, e, m);
  }

  /** Filling the first free slot when the used ones come first. */
  lemma FilledCompact(slots: seq<Slot>, all: seq<Slot>, q: nat, e: DirEntry, m: nat)
    requires |slots| <= |all| && all[..|slots|] == slots && (forall k :: |slots| <= k < |all| ==> IsFree(all[k]))
    requires |e.name| <= MAXNAME && e.inum != 0 && FirstFree(all, q) && q < |all| && Compact(slots, m)
    ensures q == m && Compact(all[q := EntrySlot(e)], m + 1) && Entries(all[q := EntrySlot(e)]) == Entries(slots) + [e]
  {
    hide Entries, EntryOf, EntrySlot, Get32;
    FilledIsCompact(slots, all, q, m, EntrySlot(e));
    EntryRoundTrip(e);
    UsedIffEntry(EntrySlot(e));
    FillAddsOne(all, q, EntrySlot(e));
    FreeTail(all, q + 1);
    EntriesOfPrefix(slots, all, q);
  }

  lemma UsedIffEntry(s: Slot)
    ensures EntryOf(s).Some? <==> !IsFree(s)
  {
  }

  /** The first free slot is the one behind the used ones. */
  lemma FilledIsCompact(slots: seq<Slot>, all: seq<Slot>, q: nat, m: nat, s: Slot)
    requires |slots| <= |all| && all[..|slots|] == slots && (forall k :: |slots| <= k < |all| ==> IsFree(all[k]))
    requires FirstFree(all, q) && q < |all| && Compact(slots, m)
    ensures q == m && (!IsFree(s) ==> Compact(all[q := s], m + 1))
    ensures forall k :: q <= k < |all| ==> IsFree(all[k])
  {
    hide Get32;
    assert forall k :: 0 <= k < |slots| ==> all[k] == slots[k];
    assert forall k :: m <= k < |all| ==> IsFree(all[k]);
    assert m < |all| ==> IsFree(all[m]);
  }

  /** Free slots at the end of a list of slots are not in the listing. */
  lemma EntriesOfPrefix(slots: seq<Slot>, all: seq<Slot>, q: nat)
    requires |slots| <= |all| && all[..|slots|] == slots && q <= |slots|
    requires forall k :: q <= k < |all| ==> IsFree(all[k])
    ensures Entries(all[..q]) == Entries(slots)
  {
    hide Entries, IsFree;
    assert forall k :: q <= k < |slots| ==> slots[k] == all[k];
    FreeTail(slots, q);
    EntriesConcat(slots[..q], slots[q..]);
    assert slots == slots[..q] + slots[q..];
    assert all[..q] == slots[..q];
  }

  lemma FreeTail(all: seq<Slot>, n: nat)
    requires n <= |all| && forall k :: n <= k < |all| ==> IsFree(all[k])
    ensures Entries(all[n..]) == []
  {
    hide Entries;
    assert forall k :: 0 <= k < |all[n..]| ==> all[n..][k] == all[n + k];
    NoEntries(all[n..]);
  }

  /** A block that is free afterwards has not been written. */
  lemma FreeIsKept(ino: Ino, data: Blocks, dbm: DataBitmap, newSize: u32, ino': Ino, data': Blocks, dbm': DataBitmap,
                   b: nat)
    requires Rewritten(ino, data, dbm, newSize, ino', data', dbm') && (b >= BLOCKS || !Taken(dbm', b))
    ensures BlockAt(data', b) == BlockAt(data, b)
  {
    hide Own, WF, Bit, SlotBlock;
  }

  /** Where the next allocation starts after an entry has been added. */
  lemma LowestAfterLink(ino: Ino, data: Blocks, dbm: DataBitmap, e: DirEntry, ino': Ino, data': Blocks,
                        dbm': DataBitmap, q: nat)
    requires Sound(ino, data, dbm) && EntryAdded(ino, data, dbm, e, ino', data', dbm', q)
    ensures FreeFrom(dbm', 0) == NthFree(dbm, BlocksToLink(ino, data))
  {
    hide Slots, BlkSlots, SlotBlock, Need, Own, Rewritten, SameMap, FreeFrom;
    if ino' == ino && dbm' == dbm && AddedInPlace(ino, data, EntrySlot(e), data', q) {
      WFBound(ino, data);
      assert IsFree(Slots(ino, data)[q]);
    }
  }

  /** After an entry has been added, the block that a new directory starts in shows what it showed before. */
  lemma NextAfterLink(ino: Ino, data: Blocks, dbm: DataBitmap, e: DirEntry, ino': Ino, data': Blocks, dbm': DataBitmap,
                      q: nat)
    requires Sound(ino, data, dbm) && EntryAdded(ino, data, dbm, e, ino', data', dbm', q) && DotsClean(ino, data, dbm)
    ensures NextEntries(data', dbm', 0) == []
  {
    hide EntryAdded, Entries, BlkSlots, BlocksToLink, Rewritten, Sound, NBlocks;
    EntryAddedRewrites(ino, data, dbm, e, ino', data', dbm', q);
    LowestAfterLink(ino, data, dbm, e, ino', data', dbm', q);
    HighBitsAfter(ino, data, dbm, ino', data', dbm');
    FreeIsKept(ino, data, dbm, ino'.size, ino', data', dbm', FreeFrom(dbm', 0));
  }

  lemma HighBitsAfter(ino: Ino, data: Blocks, dbm: DataBitmap, ino': Ino, data': Blocks, dbm': DataBitmap)
    requires Sound(ino, data, dbm) && Rewritten(ino, data, dbm, ino'.size, ino', data', dbm')
    ensures var b := FreeFrom(dbm', 0); b >= BLOCKS || !Taken(dbm', b)
  {
    hide Rewritten, Sound;
    HighBitsKept(ino, data, dbm, ino'.size, ino', data', dbm');
    NthIsFree(dbm', 0);
  }
}

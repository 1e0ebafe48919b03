/** Changing permissions (computer/kernel.go:871-890). */
module Modes {
  import opened Bytes
  import opened Bitmap
  import opened Layout
  import opened Inodes
  import opened BlockMap
  import opened Disk
  import opened Allocator
  import opened Volume
  import opened Files
  import opened Dir
  import opened Paths
  import opened TreeFree
  import opened Keeps
  import opened Syscalls
  import opened Remove

  datatype ChmodResult = Changed | NoSuchFile | PermissionDenied

  predicate MayChmod(euid: Name, ino: Ino)
  {
    euid == ROOTUSER || OwnerString(ino.owner) == euid
  }

  /** Permissions may be changed by root and by whoever the owner field names, and by nobody else. */
  lemma ChangersAre(euid: Name, ino: Ino)
    ensures MayChmod(euid, ino) <==> euid == [0x72, 0x6f, 0x6f, 0x74] || OwnerString(ino.owner) == euid
  {
    hide OwnerString;
  }

  /** The creator of an inode may change its permissions iff the owner field holds the whole user name. */
  lemma CreatorMayChmodIff(fType: byte, euid: Name, now: u64)
    ensures MayChmod(euid, FreshIno(fType, euid, false, 7, 5, now)) <==>
      euid == ROOTUSER || (|euid| <= 13 && 0 !in euid)
  {
    hide OwnerString, OwnerBytes;
    OwnerRoundTrip(euid);
  }

  function WithModes(ino: Ino, ownerMode: byte, otherMode: byte): Ino
  {
    ino.(ownerMode := ownerMode, otherMode := otherMode)
  }

  /** Blocks and slots do not depend on the permissions. */
  lemma ModesDoNotMatter(ino: Ino, data: Blocks, a: byte, b: byte)
    requires WF(ino, data)
    ensures WF(WithModes(ino, a, b), data) && Own(WithModes(ino, a, b), data) == Own(ino, data)
    ensures NBlocks(ino.size) <= MAXBLOCKS && Slots(WithModes(ino, a, b), data) == Slots(ino, data)
  {
    var ino' := WithModes(ino, a, b);
    assert forall s: nat :: LiveSlot(ino', s) == LiveSlot(ino, s);
    assert forall s: nat :: LiveSlot(ino, s) ==> SlotBlock(ino', data, s) == SlotBlock(ino, data, s);
  }

  lemma ModesKeepOwned(inos: InodeMap, data: Blocks, dbm: DataBitmap, i: nat, a: byte, b: byte)
    requires Owned(inos, data, dbm) && i in inos
    ensures Owned(inos[i := WithModes(inos[i], a, b)], data, dbm)
  {
    hide WF, HighBitsSet, Own;
    var inos' := inos[i := WithModes(inos[i], a, b)];
    ModesDoNotMatter(inos[i], data, a, b);
    forall x: nat | x < BLOCKS && Taken(dbm, x) ensures exists j :: j in inos' && x in Own(inos'[j], data) {
      var j :| j in inos && x in Own(inos[j], data);
      assert j in inos';
    }
  }

  lemma ModesKeepDirSound(ino: Ino, data: Blocks, ibm: InodeBitmap, a: byte, b: byte)
    requires WF(ino, data)
    ensures NBlocks(ino.size) <= MAXBLOCKS
    ensures DirSound(ino, data, ibm) ==> DirSound(WithModes(ino, a, b), data, ibm)
  {
    ModesDoNotMatter(ino, data, a, b);
  }

  /** Changing the permissions in a record keeps the volume in order. */
  lemma ModesKeepFsOk(ibm: InodeBitmap, itab: InodeTable, dbm: DataBitmap, data: Blocks, i: nat, a: byte, b: byte,
                      itab': InodeTable)
    requires FsOk(ibm, itab, dbm, data) && Taken(ibm, i)
    requires RecordSet(itab, itab', i, WithModes(Decode(itab[i]), a, b))
    ensures FsOk(ibm, itab', dbm, data)
  {
    hide Decode, WF, Owned, DirSound, Slots, NBlocks;
    FsOkInode(ibm, itab, dbm, data, i);
    InosUpdated(ibm, itab, itab', i, WithModes(Decode(itab[i]), a, b));
    assert i in Inos(ibm, itab) && Inos(ibm, itab)[i] == Decode(itab[i]);
    ModesKeepOwned(Inos(ibm, itab), data, dbm, i, a, b);
    ModesKeepDirSound(Decode(itab[i]), data, ibm, a, b);
    forall j: nat | Taken(ibm, j) && IsDir(Decode(itab'[j]))
      ensures NBlocks(Decode(itab'[j]).size) <= MAXBLOCKS && DirSound(Decode(itab'[j]), data, ibm)
    {
      FsOkInode(ibm, itab, dbm, data, j);
    }
  }

  /** The new permissions go into the kernel's copy, and that copy goes to disk (computer/kernel.go:884-888). */
  method SetModes(k: Kernel, inode: Inode, i: u32, ownerMode: byte, otherMode: byte)
    requires k.Valid() && i in k.inodeCache && k.inodeCache[i] == inode && i < INODES
    modifies inode, k.fs`itab, k.fs.disk.buf
    ensures k.Valid() && inode.Val() == WithModes(old(inode.Val()), ownerMode, otherMode)
    ensures k.fs.itab == old(k.fs.itab)[i := Encode(inode.Val())]
  {
    hide Shows, Decode, Encode;
    inode.ownerMode := ownerMode;
    inode.otherMode := otherMode;
    var _ := k.fs.WriteInode(inode, i);
  }

  /** When the cached copy was the inode on disk, the kernel stays ready. */
  method SetLoadedModes(k: Kernel, inode: Inode, i: u32, ownerMode: byte, otherMode: byte)
    requires Ready(k) && Taken(k.fs.ibm, i) && i in k.inodeCache && k.inodeCache[i] == inode
    modifies inode, k.fs`itab, k.fs.disk.buf
    ensures k.Valid()
    ensures k.fs.itab == old(k.fs.itab)[i := Encode(WithModes(old(inode.Val()), ownerMode, otherMode))]
    ensures old(inode.Val()) == Decode(old(k.fs.itab)[i]) ==> Ready(k)
  {
    hide FsOk, Shows, Decode, Encode;
    SetModes(k, inode, i, ownerMode, otherMode);
    RecordWritten(old(k.fs.itab), i, inode.Val());
    if old(inode.Val()) == Decode(old(k.fs.itab)[i]) {
      ModesKeepFsOk(k.fs.ibm, old(k.fs.itab), k.fs.dbm, k.fs.data, i, ownerMode, otherMode, k.fs.itab);
    }
  }

  /** chmod changes the kernel's copy of the inode and writes that copy out. */
  method Chmod(k: Kernel, euid: Name, comps: seq<Name>, ownerMode: byte, otherMode: byte)
    returns (r: ChmodResult, ghost i: u32)
    requires Ready(k)
    modifies k`inodeCache, k.inodeCache.Values, k.fs`itab, k.fs.disk.buf
    ensures k.Valid() && i < INODES
    ensures r == NoSuchFile <==> Resolve(old(k.fs.itab), k.fs.data, euid, ROOTINUM, comps).Failed?
    ensures r != NoSuchFile ==> Resolve(old(k.fs.itab), k.fs.data, euid, ROOTINUM, comps) == Found(i)
    ensures r == PermissionDenied <==> r != NoSuchFile && !MayChmod(euid, Decode(old(k.fs.itab)[i]))
    ensures r != Changed ==> k.fs.itab == old(k.fs.itab) && Ready(k)
    ensures r == Changed ==>
      k.fs.itab == old(k.fs.itab)[i := Encode(WithModes(old(k.Current(i)), ownerMode, otherMode))]
    ensures r == Changed && old(k.Current(i)) == Decode(old(k.fs.itab)[i]) ==> Ready(k)
    ensures forall j :: j in k.inodeCache ==>
      (j in old(k.inodeCache) && k.inodeCache[j] == old(k.inodeCache)[j]) || fresh(k.inodeCache[j])
  {
    hide Ready, FsOk, Shows, Decode, Encode, Resolve, OwnerString, OnlyLoaded, Cached;
    i := 0;
    var p := ResolvePath(k, euid, comps);
    ReadyHasRoot(k);
    if p.Failed? {
      return NoSuchFile, 0;
    }
    i := p.inum;
    var inode := Load(k, p.inum);
    ReadyHasRoot(k);
    if euid != ROOTUSER && OwnerString(inode.owner) != euid {
      return PermissionDenied, i;
    }
    SetLoadedModes(k, inode, p.inum, ownerMode, otherMode);
    return Changed, i;
  }

  // ---------- chmod through a stale cached directory ----------

  /** An earlier copy lists the directory's first blocks only. */
  lemma ShorterListing(c: Ino, v: Ino, data: Blocks)
    requires Older(c, v)
    ensures Slots(c, data) == Slots(v, data)[..PERBLOCK * NBlocks(c.size)]
  {
    hide Older;
    OlderFits(c, v);
    OlderSlots(c, v, data);
    forall q | 0 <= q < PERBLOCK * NBlocks(c.size) ensures Slots(c, data)[q] == Slots(v, data)[q] {
      assert LiveSlot(c, q / PERBLOCK);
    }
  }

  /** Writing an earlier copy back keeps the listing iff the blocks it does not know hold no entry. */
  lemma StaleCopyKeepsListingIff(c: Ino, v: Ino, data: Blocks)
    requires Older(c, v)
    ensures Entries(Slots(c, data)) == Entries(Slots(v, data)) <==>
      forall q :: PERBLOCK * NBlocks(c.size) <= q < |Slots(v, data)| ==> IsFree(Slots(v, data)[q])
  {
    hide Slots, Entries, NBlocks, Older;
    OlderFits(c, v);
    ShorterListing(c, v, data);
    var n, all := PERBLOCK * NBlocks(c.size), Slots(v, data);
    EntriesConcat(all[..n], all[n..]);
    assert all == all[..n] + all[n..];
    var tail := all[n..];
    NoEntries(tail);
    assert forall q :: n <= q < |all| ==> all[q] == tail[q - n];
    if forall q :: n <= q < |all| ==> IsFree(all[q]) {
      forall q | 0 <= q < |tail| ensures IsFree(tail[q]) {
        assert tail[q] == all[n + q];
      }
    }
  }

  /** After addDentry has grown a directory, a copy cached before it always loses the new entry when written back. */
  lemma ChmodAfterGrowthLosesEntry(c: Ino, data: Blocks, dbm: DataBitmap, e: DirEntry, v: Ino, data': Blocks,
                                   dbm': DataBitmap, k: nat)
    requires WF(c, data) && !HasFree(Slots(c, data)) && |e.name| <= MAXNAME && e.inum != 0
    requires GrewAndAdded(c, data, dbm, EntrySlot(e), v, data', dbm', k) && k < |Slots(v, data')|
    ensures Entries(Slots(c, data')) != Entries(Slots(v, data'))
  {
    hide Rewritten, Entries, SlotBlock;
    GrowthLeavesCacheBehind(c, data, dbm, EntrySlot(e), v, data', dbm', k);
    StaleCopyKeepsListingIff(c, v, data');
    EntryRoundTrip(e);
    var nb := SlotBlock(v, data', NBlocks(c.size));
    var all := Slots(c, data) + BlkSlots(data[nb]);
    assert Slots(v, data')[k] == EntrySlot(e);
    assert forall q :: 0 <= q < |Slots(c, data)| ==> all[q] == Slots(c, data)[q];
    assert k >= |Slots(c, data)|;
  }
}

/** The state a fresh disk starts in, and runs of inode allocation (computer/fs.go:186-304,
    computer/fs_inode.go:257-310). */
module Boot {
  import opened Bytes
  import opened Bitmap
  import opened Layout
  import opened Inodes
  import opened BlockMap
  import opened Disk
  import opened Allocator
  import opened Files
  import opened Dir
  import opened Paths
  import opened Keeps
  import opened Syscalls

  lemma ZeroRecord()
    ensures Decode(Fill(INODESIZE, 0)).size == 0 && Decode(Fill(INODESIZE, 0)).fType == S_IFREG
  {
  }

  /** The root directory of a fresh disk is root's, and others may read and search it but not write. */
  lemma RootInodeIs(now: u64, euid: Name)
    ensures var v := RootInode(now);
      && v.size == 0 && v.fType == 1 && v.refs == 0 && !v.setuid && v.ownerMode == 7 && v.otherMode == 5
      && v.owner == [0x72, 0x6f, 0x6f, 0x74, 0, 0, 0, 0, 0, 0, 0, 0, 0, 0] && v.createdAt == v.modifiedAt == now
      && v.find == v.sind == v.tind == 0 && (forall i :: 0 <= i < 12 ==> v.direct[i] == 0)
      && CanExecute(euid, v) && CanRead(euid, v) && (CanWrite(euid, v) <==> euid == [0x72, 0x6f, 0x6f, 0x74])
  {
    hide CanExecute, CanWrite, CanRead;
    var root: seq<byte> := [0x72, 0x6f, 0x6f, 0x74];
    assert RootInode(now).owner == OwnerBytes(root);
    OwnerRoundTrip(root);
    PermissionsAre(euid, RootInode(now));
  }

  /** Exactly inodes 0 to 2 are taken. */
  lemma FormattedInodeBits(i: nat)
    ensures Taken(FormattedIbm(), i) <==> i <= ROOTINUM
  {
    if i < 8 {
      assert Bit(7, 0) && Bit(7, 1) && Bit(7, 2) && !Bit(7, 3);
      SmallBits(i);
    } else {
      ZeroHasNoBits(i % 8);
    }
  }

  lemma SmallBits(j: nat)
    requires j < 8
    ensures Bit(7, j) <==> j <= 2
  {
    if j >= 3 {
      assert 7 / 2 / 2 / 2 == 0;
      assert Bit(7, j) == Bit(3, j - 1) == Bit(1, j - 2) == Bit(0, j - 3);
      ZeroHasNoBits(j - 3);
    }
  }

  /** Exactly the bits at and above the data block count are set. */
  lemma FormattedDataBits(b: nat)
    ensures Taken(FormattedDbm(), b) <==> BLOCKS <= b < 8 * BLOCKSIZE
  {
    if b < 8 * BLOCKSIZE {
      if b < BLOCKS {
        ZeroHasNoBits(b % 8);
      } else {
        FullByteHasAllBits(b % 8);
      }
    }
  }

  lemma ZeroBlockIsClean()
    ensures Entries(BlkSlots(ZERO)) == []
  {
    FreeSlotIsFree();
    forall q | 0 <= q < PERBLOCK ensures IsFree(BlkSlots(ZERO)[q]) {
      assert BlkSlots(ZERO)[q] == FREESLOT;
    }
    NoEntries(BlkSlots(ZERO));
  }

  lemma FormattedRecord(ibm: InodeBitmap, itab: InodeTable, dbm: DataBitmap, data: Blocks, now: u64, i: nat)
    requires Formatted(ibm, itab, dbm, data, now) && i < INODES
    ensures Decode(itab[i]).size == 0 && HasOps(Decode(itab[i]))
  {
    if i == 2 {
      DecodeEncode(RootInode(now));
    } else {
      ZeroRecord();
    }
  }

  /** A fresh disk is in order: nothing is owned, the root is an empty directory, and every free block is clean. */
  lemma FormattedIsOk(ibm: InodeBitmap, itab: InodeTable, dbm: DataBitmap, data: Blocks, now: u64)
    requires Formatted(ibm, itab, dbm, data, now)
    ensures FsOk(ibm, itab, dbm, data) && FreeBlocksClean(dbm, data)
    ensures Decode(itab[ROOTINUM]) == RootInode(now)
  {
    hide Decode, Encode, WF, Entries, BlkSlots;
    DecodeEncode(RootInode(now));
    ZeroBlockIsClean();
    forall b: nat ensures Taken(dbm, b) <==> BLOCKS <= b < 8 * BLOCKSIZE {
      FormattedDataBits(b);
    }
    forall i: nat ensures Taken(ibm, i) <==> i <= ROOTINUM {
      FormattedInodeBits(i);
    }
    forall i: nat | i < INODES
      ensures Decode(itab[i]).size == 0 && HasOps(Decode(itab[i])) && WF(Decode(itab[i]), data)
      ensures Own(Decode(itab[i]), data) == {}
      ensures NBlocks(Decode(itab[i]).size) <= MAXBLOCKS && DirSound(Decode(itab[i]), data, ibm)
    {
      FormattedRecord(ibm, itab, dbm, data, now, i);
      EmptyInode(Decode(itab[i]), data);
      EmptyDirSound(Decode(itab[i]), data, ibm);
    }
  }

  /** All 16128 data blocks are free, and all inodes but 0 to 2. */
  lemma FormattedFree(ibm: InodeBitmap, itab: InodeTable, dbm: DataBitmap, data: Blocks, now: u64)
    requires Formatted(ibm, itab, dbm, data, now)
    ensures |Free(dbm)| == BLOCKS && (forall i: nat :: Taken(ibm, i) <==> i <= ROOTINUM)
    ensures forall i: nat :: i <= ROOTINUM ==> Decode(itab[i]).size == 0
  {
    hide Encode, Decode, Bit;
    forall b: nat ensures Taken(dbm, b) <==> BLOCKS <= b < 8 * BLOCKSIZE {
      FormattedDataBits(b);
    }
    forall i: nat ensures Taken(ibm, i) <==> i <= ROOTINUM {
      FormattedInodeBits(i);
    }
    assert Free(dbm) == Upto(BLOCKS);
    forall i: nat | i <= ROOTINUM ensures Decode(itab[i]).size == 0 {
      FormattedRecord(ibm, itab, dbm, data, now, i);
    }
  }

  /** Format a disk and start a kernel on it. */
  method Start(disk: MemDisk, superBuf: Block, now: u64) returns (k: Kernel)
    requires disk.buf.Length == DISKSIZE
    modifies disk.buf
    ensures fresh(k) && fresh(k.fs) && k.fs.disk == disk
    ensures Ready(k) && FreeBlocksClean(k.fs.dbm, k.fs.data) && Decode(k.fs.itab[ROOTINUM]) == RootInode(now)
    ensures |Free(k.fs.dbm)| == BLOCKS && (forall i: nat :: Taken(k.fs.ibm, i) <==> i <= ROOTINUM)
    ensures k.inodeCache == map[]
    ensures forall i: nat :: i <= ROOTINUM ==> Decode(k.fs.itab[i]).size == 0
  {
    hide FsOk, Formatted, Shows, Decode, FreeBlocksClean, Free;
    var fs := new FileSystem.Format(disk, superBuf, now);
    FormattedIsOk(fs.ibm, fs.itab, fs.dbm, fs.data, now);
    FormattedFree(fs.ibm, fs.itab, fs.dbm, fs.data, now);
    k := new Kernel(fs);
  }

  // ---------- runs of AllocInode and FreeInodeFromBitmap ----------

  datatype InodeOp = Alloc(i: nat) | NoneLeft | Release(i: nat)

  /** The contracts of AllocInode and FreeInodeFromBitmap. */
  ghost predicate InodeStep(op: InodeOp, ibm: InodeBitmap, ibm': InodeBitmap)
  {
    match op
    case Alloc(i) => LowestFree(ibm, i) && InodeAdded(ibm, ibm', i)
    case NoneLeft => FullBelow(ibm, INODES) && ibm' == ibm
    case Release(i) => i > ROOTINUM && forall j: nat :: Taken(ibm', j) <==> j != i && Taken(ibm, j)
  }

  ghost predicate InodeRun(ops: seq<InodeOp>, tr: seq<InodeBitmap>)
  {
    |tr| == |ops| + 1 && forall k :: 0 <= k < |ops| ==> InodeStep(ops[k], tr[k], tr[k + 1])
  }

  /** Over every run that never frees inodes 0 to 2, an allocation yields an inode in [3, 8064) that was not live,
      and fails only when all are. */
  lemma {:induction false} AllocNeverReturnsLive(ops: seq<InodeOp>, tr: seq<InodeBitmap>)
    requires InodeRun(ops, tr) && forall i: nat :: i <= ROOTINUM ==> Taken(tr[0], i)
    ensures forall k, i: nat :: 0 <= k < |tr| && i <= ROOTINUM ==> Taken(tr[k], i)
    ensures forall k :: 0 <= k < |ops| && ops[k].Alloc? ==>
      ROOTINUM < ops[k].i < INODES && !Taken(tr[k], ops[k].i) && Taken(tr[k + 1], ops[k].i)
    ensures forall k, i: nat :: 0 <= k < |ops| && ops[k].NoneLeft? && i < INODES ==> Taken(tr[k], i)
    decreases |ops|
  {
    hide Taken;
    if ops != [] {
      var n := |ops| - 1;
      var ops', tr' := ops[..n], tr[..n + 1];
      assert InodeRun(ops', tr');
      AllocNeverReturnsLive(ops', tr');
      assert forall k :: 0 <= k <= n ==> tr[k] == tr'[k];
      assert forall k :: 0 <= k < n ==> ops[k] == ops'[k];
      LastInodeStep(ops[n], tr[n], tr[n + 1]);
    }
  }

  lemma LastInodeStep(op: InodeOp, ibm: InodeBitmap, ibm': InodeBitmap)
    requires InodeStep(op, ibm, ibm') && forall i: nat :: i <= ROOTINUM ==> Taken(ibm, i)
    ensures forall i: nat :: i <= ROOTINUM ==> Taken(ibm', i)
    ensures op.Alloc? ==> ROOTINUM < op.i < INODES && !Taken(ibm, op.i) && Taken(ibm', op.i)
    ensures op.NoneLeft? ==> forall i: nat :: i < INODES ==> Taken(ibm, i)
  {
  }
}

/** Many inodes on one disk: who owns which block, what a file contains, and what one inode's
    reallocation or write leaves alone. */
module Volume {
  import opened Bytes
  import opened Bitmap
  import opened Layout
  import opened Inodes
  import opened BlockMap
  import opened Allocator

  /** As Reallocated, except that any block the inode owns afterwards may have been written. */
  ghost predicate Rewritten(ino: Ino, data: Blocks, bm: seq<byte>, newSize: u32, ino': Ino, data': Blocks,
                            bm': seq<byte>)
  {
    && ino' == ino.(size := newSize, direct := ino'.direct, find := ino'.find, sind := ino'.sind, tind := ino'.tind)
    && WF(ino', data')
    && (forall s: nat :: LiveSlot(ino, s) && LiveSlot(ino', s) ==> SlotBlock(ino', data', s) == SlotBlock(ino, data, s))
    && (forall b: nat :: b in Own(ino', data') && b !in Own(ino, data) ==> !Taken(bm, b))
    && |bm'| == |bm|
    && (forall b: nat :: Taken(bm', b) <==> (Taken(bm, b) && b !in Own(ino, data)) || b in Own(ino', data'))
    && (forall b: nat :: b < BLOCKS && b !in Own(ino', data') ==> data'[b] == data[b])
  }

  lemma ReallocatedIsRewritten(ino: Ino, data: Blocks, bm: seq<byte>, newSize: u32, ino': Ino, data': Blocks,
                               bm': seq<byte>)
    requires Reallocated(ino, data, bm, newSize, ino', data', bm')
    ensures Rewritten(ino, data, bm, newSize, ino', data', bm')
  {
    forall b: nat | b < BLOCKS && b !in Own(ino', data') ensures data'[b] == data[b] {
      if IsTable(ino', b) {
        TablesAreOwned(ino', data', b);
      }
    }
  }

  // ---------- the ownership invariant ----------

  type InodeMap = map<nat, Ino>

  /** Every inode's blocks are in range and its own; a data block is marked taken exactly when some inode owns it. */
  ghost predicate Owned(inos: InodeMap, data: Blocks, bm: seq<byte>)
  {
    && HighBitsSet(bm)
    && (forall i :: i in inos ==> WF(inos[i], data))
    && (forall i, j :: i in inos && j in inos && i != j ==> Own(inos[i], data) !! Own(inos[j], data))
    && (forall i, b: nat :: i in inos && b in Own(inos[i], data) ==> Taken(bm, b))
    && (forall b: nat :: b < BLOCKS && Taken(bm, b) ==> exists i :: i in inos && b in Own(inos[i], data))
  }

  lemma OwnedIsSound(inos: InodeMap, data: Blocks, bm: seq<byte>, i: nat)
    requires Owned(inos, data, bm) && i in inos
    ensures Sound(inos[i], data, bm)
  {
  }

  /** A different inode: same blocks, same contents of every block it owns. */
  ghost predicate Untouched(ino: Ino, data: Blocks, data': Blocks)
  {
    && (forall s: nat :: LiveSlot(ino, s) ==> SlotBlock(ino, data', s) == SlotBlock(ino, data, s))
    && Own(ino, data') == Own(ino, data)
    && (WF(ino, data) ==> WF(ino, data'))
    && (forall b: nat :: b < BLOCKS && b in Own(ino, data) ==> data'[b] == data[b])
  }

  lemma UntouchedWhenOwnedBlocksStay(ino: Ino, data: Blocks, data': Blocks)
    requires NBlocks(ino.size) <= MAXBLOCKS
    requires forall b: nat :: b < BLOCKS && b in Own(ino, data) ==> data'[b] == data[b]
    ensures Untouched(ino, data, data')
  {
    forall t: nat | t < BLOCKS && IsTable(ino, t) ensures data'[t] == data[t] {
      TablesAreOwned(ino, data, t);
    }
    OwnFrame(ino, data, data');
  }

  /** Whatever Falloc or a write does to inode i, every other inode keeps its blocks and their contents. */
  lemma OthersUntouched(inos: InodeMap, data: Blocks, bm: seq<byte>, i: nat, newSize: u32, ino': Ino, data': Blocks,
                        bm': seq<byte>, j: nat)
    requires Owned(inos, data, bm) && i in inos && j in inos && i != j
    requires Rewritten(inos[i], data, bm, newSize, ino', data', bm')
    ensures Untouched(inos[j], data, data') && Own(inos[j], data) !! Own(ino', data')
  {
    assert forall b: nat :: b in Own(inos[j], data) ==> b !in Own(ino', data');
    UntouchedWhenOwnedBlocksStay(inos[j], data, data');
  }

  /** The bits above the data blocks stay set. */
  lemma HighBitsKept(ino: Ino, data: Blocks, bm: seq<byte>, newSize: u32, ino': Ino, data': Blocks, bm': seq<byte>)
    requires Sound(ino, data, bm) && Rewritten(ino, data, bm, newSize, ino', data', bm')
    ensures HighBitsSet(bm')
  {
    forall b: nat | BLOCKS <= b < 8 * BLOCKSIZE ensures Taken(bm', b) {
      if b in Own(ino, data) {
        var s := SlotOf(ino, data, b);
      }
    }
  }

  /** A block marked taken afterwards is owned by the inode itself or, as before, by another. */
  lemma StillCovered(inos: InodeMap, data: Blocks, bm: seq<byte>, i: nat, newSize: u32, ino': Ino, data': Blocks,
                     bm': seq<byte>, b: nat, inos': InodeMap)
    requires Owned(inos, data, bm) && i in inos && inos' == inos[i := ino']
    requires Rewritten(inos[i], data, bm, newSize, ino', data', bm')
    requires forall j :: j in inos && j != i ==> Own(inos[j], data') == Own(inos[j], data)
    requires b < BLOCKS && Taken(bm', b)
    ensures exists j :: j in inos' && b in Own(inos'[j], data')
  {
    if b in Own(ino', data') {
      assert i in inos' && b in Own(inos'[i], data');
    } else {
      var j :| j in inos && b in Own(inos[j], data);
      assert j in inos' && b in Own(inos'[j], data');
    }
  }

  /** The ownership invariant survives any reallocation or write of any inode. */
  lemma RewriteKeepsOwned(inos: InodeMap, data: Blocks, bm: seq<byte>, i: nat, newSize: u32, ino': Ino, data': Blocks,
                          bm': seq<byte>)
    requires Owned(inos, data, bm) && i in inos
    requires Rewritten(inos[i], data, bm, newSize, ino', data', bm')
    ensures Owned(inos[i := ino'], data', bm')
  {
    hide Own, HighBitsSet, SlotBlock;
    var inos' := inos[i := ino'];
    HighBitsKept(inos[i], data, bm, newSize, ino', data', bm');
    forall j | j in inos && j != i
      ensures WF(inos[j], data') && Own(inos[j], data') == Own(inos[j], data) && Own(inos[j], data) !! Own(ino', data')
    {
      OthersUntouched(inos, data, bm, i, newSize, ino', data', bm', j);
    }
    forall b: nat | b < BLOCKS && Taken(bm', b) ensures exists j :: j in inos' && b in Own(inos'[j], data') {
      StillCovered(inos, data, bm, i, newSize, ino', data', bm', b, inos');
    }
  }

  // ---------- conservation ----------

  /** The set bits before and after: those of others, and the inode's own. */
  lemma UsedSplits(ino: Ino, data: Blocks, bm: seq<byte>, newSize: u32, ino': Ino, data': Blocks, bm': seq<byte>,
                   keep: set<nat>)
    requires Sound(ino, data, bm) && Rewritten(ino, data, bm, newSize, ino', data', bm')
    requires keep == Used(bm) - Own(ino, data)
    ensures Used(bm) == keep + Own(ino, data)
    ensures Used(bm') == keep + Own(ino', data') && keep !! Own(ino', data')
  {
    hide Own, WF, Bit;
    forall b: nat | b in Own(ino', data') ensures Taken(bm', b) && b < 8 * |bm'| && b !in keep {
    }
    assert Own(ino, data) <= Used(bm);
  }

  /** A reallocation changes the number of set bits by exactly the change in need. */
  lemma BitsConserved(ino: Ino, data: Blocks, bm: seq<byte>, newSize: u32, ino': Ino, data': Blocks, bm': seq<byte>)
    requires Sound(ino, data, bm) && Rewritten(ino, data, bm, newSize, ino', data', bm')
    ensures |Used(bm')| + Need(NBlocks(ino.size)) == |Used(bm)| + Need(NBlocks(newSize))
  {
    OwnCount(ino, data);
    OwnCount(ino', data');
    hide Own, Used, WF;
    var keep := Used(bm) - Own(ino, data);
    UsedSplits(ino, data, bm, newSize, ino', data', bm', keep);
    assert |keep + Own(ino, data)| == |keep| + |Own(ino, data)|;
    assert |keep + Own(ino', data')| == |keep| + |Own(ino', data')|;
  }

  lemma FreeAndUsed(bm: seq<byte>)
    ensures |Free(bm)| + |Used(bm)| == 8 * |bm|
  {
    hide Bit;
    var all := Upto(8 * |bm|);
    assert Free(bm) + Used(bm) == all && Free(bm) !! Used(bm);
  }

  /** ... and so does the number of free blocks, the other way. */
  lemma FreeConserved(ino: Ino, data: Blocks, bm: seq<byte>, newSize: u32, ino': Ino, data': Blocks, bm': seq<byte>)
    requires Sound(ino, data, bm) && Rewritten(ino, data, bm, newSize, ino', data', bm')
    ensures |Free(bm')| + Need(NBlocks(newSize)) == |Free(bm)| + Need(NBlocks(ino.size))
  {
    hide Free, Used, Own, WF;
    BitsConserved(ino, data, bm, newSize, ino', data', bm');
    FreeAndUsed(bm);
    FreeAndUsed(bm');
  }

  /** Giving everything back: nothing is owned and exactly the inode's blocks become free. */
  lemma FallocZeroReturnsAll(ino: Ino, data: Blocks, bm: seq<byte>, ino': Ino, data': Blocks, bm': seq<byte>)
    requires Sound(ino, data, bm) && Reallocated(ino, data, bm, 0, ino', data', bm')
    ensures Own(ino', data') == {} && data' == data
    ensures forall b: nat :: Taken(bm', b) <==> Taken(bm, b) && b !in Own(ino, data)
  {
    assert forall s: nat :: !LiveSlot(ino', s);
  }

  /** Growing and shrinking back to the old size restores the bitmap byte for byte and the block list. */
  lemma GrowThenShrinkBack(ino: Ino, data: Blocks, bm: seq<byte>, big: u32, ino1: Ino, data1: Blocks, bm1: seq<byte>,
                           ino2: Ino, data2: Blocks, bm2: seq<byte>)
    requires Sound(ino, data, bm) && NBlocks(big) >= NBlocks(ino.size)
    requires Reallocated(ino, data, bm, big, ino1, data1, bm1)
    requires Reallocated(ino1, data1, bm1, ino.size, ino2, data2, bm2)
    ensures bm2 == bm
    ensures forall s: nat :: LiveSlot(ino, s) ==>
      LiveSlot(ino2, s) && SlotBlock(ino2, data2, s) == SlotBlock(ino, data, s)
    ensures forall b: nat :: b < BLOCKS && b !in Own(ino1, data1) ==> data2[b] == data[b]
  {
    ReallocatedIsRewritten(ino, data, bm, big, ino1, data1, bm1);
    forall s: nat | LiveSlot(ino, s)
      ensures LiveSlot(ino1, s) && LiveSlot(ino2, s) && SlotBlock(ino2, data2, s) == SlotBlock(ino, data, s)
    {
    }
    assert forall s: nat :: LiveSlot(ino2, s) ==> LiveSlot(ino, s);
    assert Own(ino2, data2) == Own(ino, data);
    forall b: nat ensures Taken(bm2, b) == Taken(bm, b) {
      if b in Own(ino, data) {
        assert Taken(bm2, b);
      } else if b in Own(ino1, data1) {
        assert !Taken(bm, b);
      }
    }
    SameBits(bm2, bm);
  }

  // ---------- Falloc is a function of the state ----------

  lemma NewSlotWasFree(ino: Ino, data: Blocks, bm: seq<byte>, newSize: u32, a: Ino, dataA: Blocks, bmA: seq<byte>,
                       s: nat)
    requires Sound(ino, data, bm) && NBlocks(ino.size) <= NBlocks(newSize)
    requires Reallocated(ino, data, bm, newSize, a, dataA, bmA) && NewSlot(ino, a, s)
    ensures !Taken(bm, SlotBlock(a, dataA, s))
  {
    OwnHas(a, dataA, s);
    if SlotBlock(a, dataA, s) in Own(ino, data) {
      var u := SlotOf(ino, data, SlotBlock(a, dataA, s));
      assert false;
    }
  }

  /** A free block below one that was handed out has been handed out too. */
  lemma HandedOutBelow(ino: Ino, data: Blocks, bm: seq<byte>, newSize: u32, a: Ino, dataA: Blocks, bmA: seq<byte>,
                       s: nat, c: nat)
    returns (u: nat)
    requires Sound(ino, data, bm) && NBlocks(ino.size) <= NBlocks(newSize)
    requires Reallocated(ino, data, bm, newSize, a, dataA, bmA) && FirstFit(ino, bmA, a, dataA)
    requires NewSlot(ino, a, s) && c < SlotBlock(a, dataA, s) && !Taken(bm, c)
    ensures NewSlot(ino, a, u) && SlotBlock(a, dataA, u) == c
  {
    assert SlotBlock(a, dataA, s) < BLOCKS;
    assert c in Own(a, dataA);
    u := SlotOf(a, dataA, c);
    if LiveSlot(ino, u) {
      OwnHas(ino, data, u);
    }
  }

  /** First fit determines the block that one more data block lands in. */
  lemma GrowthTakesNextBlock(ino: Ino, data: Blocks, bm: seq<byte>, newSize: u32, a: Ino, dataA: Blocks, bmA: seq<byte>)
    requires Sound(ino, data, bm) && NBlocks(newSize) == NBlocks(ino.size) + 1
    requires Reallocated(ino, data, bm, newSize, a, dataA, bmA) && FirstFit(ino, bmA, a, dataA)
    ensures NBlocks(ino.size) < MAXBLOCKS && SlotBlock(a, dataA, NBlocks(ino.size)) == NextBlock(bm, NBlocks(ino.size))
  {
    hide FirstFit, Sound, Reallocated, SlotBlock, Own, Bit;
    var n := NBlocks(ino.size);
    GrowthBound(ino, data, bm, newSize, a, dataA, bmA);
    assert NewSlot(ino, a, n);
    if n == FIND || n == SIND || n == TIND {
      var t := if n == FIND then FINDSLOT else if n == SIND then SINDSLOT else TINDSLOT;
      NewSlotsOfOne(ino, a, t);
      SecondAfterTable(ino, data, bm, newSize, a, dataA, bmA, t);
    } else {
      NewSlotWasFree(ino, data, bm, newSize, a, dataA, bmA, n);
      var first := NthFree(bm, 0);
      if first < SlotBlock(a, dataA, n) {
        var _ := HandedOutBelow(ino, data, bm, newSize, a, dataA, bmA, n, first);
      }
    }
  }

  /** The slots that a growth by one block and a table adds. */
  lemma NewSlotsOfOne(ino: Ino, a: Ino, t: nat)
    requires NBlocks(a.size) == NBlocks(ino.size) + 1 <= MAXBLOCKS
    requires var n := NBlocks(ino.size);
      (n == FIND && t == FINDSLOT) || (n == SIND && t == SINDSLOT) || (n == TIND && t == TINDSLOT)
    ensures NewSlot(ino, a, t) && NewSlot(ino, a, NBlocks(ino.size))
    ensures forall u: nat :: NewSlot(ino, a, u) ==> u == t || u == NBlocks(ino.size)
  {
  }

  /** With a table, the table takes the lowest free block and the data block the next. */
  lemma SecondAfterTable(ino: Ino, data: Blocks, bm: seq<byte>, newSize: u32, a: Ino, dataA: Blocks, bmA: seq<byte>,
                         t: nat)
    requires Sound(ino, data, bm) && NBlocks(newSize) == NBlocks(ino.size) + 1 <= MAXBLOCKS && a.size == newSize
    requires Reallocated(ino, data, bm, newSize, a, dataA, bmA) && FirstFit(ino, bmA, a, dataA)
    requires NewSlot(ino, a, t) && MAXBLOCKS <= t < NSLOTS && NewSlot(ino, a, NBlocks(ino.size))
    requires forall u: nat :: NewSlot(ino, a, u) ==> u == t || u == NBlocks(ino.size)
    ensures SlotBlock(a, dataA, t) == NthFree(bm, 0) && SlotBlock(a, dataA, NBlocks(ino.size)) == NthFree(bm, 1)
  {
    hide FirstFit, Sound, Reallocated, SlotBlock, Own, Bit, LiveSlot, NBlocks;
    var n, first, next := NBlocks(ino.size), NthFree(bm, 0), NthFree(bm, 1);
    assert next == FreeFrom(bm, first + 1);
    NewSlotWasFree(ino, data, bm, newSize, a, dataA, bmA, n);
    NewSlotWasFree(ino, data, bm, newSize, a, dataA, bmA, t);
    TableBeforeBlock(ino, bmA, a, dataA, t);
    if first < SlotBlock(a, dataA, t) {
      var _ := HandedOutBelow(ino, data, bm, newSize, a, dataA, bmA, t, first);
    }
    if next < SlotBlock(a, dataA, n) {
      var _ := HandedOutBelow(ino, data, bm, newSize, a, dataA, bmA, n, next);
    }
  }

  /** ... and the block that the next growth of any inode starts from. */
  lemma GrowthThenNext(ino: Ino, data: Blocks, bm: seq<byte>, newSize: u32, a: Ino, dataA: Blocks, bmA: seq<byte>)
    requires Sound(ino, data, bm) && NBlocks(newSize) == NBlocks(ino.size) + 1
    requires Reallocated(ino, data, bm, newSize, a, dataA, bmA) && FirstFit(ino, bmA, a, dataA)
    ensures FreeFrom(bmA, 0) == NthFree(bm, Need(NBlocks(newSize)) - Need(NBlocks(ino.size)))
  {
    hide FirstFit, Reallocated, SlotBlock, Own, LiveSlot, Sound, Taken, FreeFrom, NBlocks;
    var n := NBlocks(ino.size);
    GrowthTakesNextBlock(ino, data, bm, newSize, a, dataA, bmA);
    GrowthBound(ino, data, bm, newSize, a, dataA, bmA);
    GrownBitmap(ino, data, bm, newSize, a, dataA, bmA);
    NewBlockInRange(ino, data, bm, newSize, a, dataA, bmA);
    if n == FIND || n == SIND || n == TIND {
      var t := if n == FIND then FINDSLOT else if n == SIND then SINDSLOT else TINDSLOT;
      NewSlotsOfOne(ino, a, t);
      SecondAfterTable(ino, data, bm, newSize, a, dataA, bmA, t);
      LowestAfterTaking(bm, bmA, 2);
    } else {
      LowestAfterTaking(bm, bmA, 1);
    }
  }

  lemma NewBlockInRange(ino: Ino, data: Blocks, bm: seq<byte>, newSize: u32, a: Ino, dataA: Blocks, bmA: seq<byte>)
    requires Sound(ino, data, bm) && Reallocated(ino, data, bm, newSize, a, dataA, bmA)
    requires NBlocks(ino.size) < NBlocks(newSize)
    ensures NBlocks(ino.size) < MAXBLOCKS && SlotBlock(a, dataA, NBlocks(ino.size)) < 8 * |bm|
  {
    hide SlotBlock;
    assert LiveSlot(a, NBlocks(ino.size));
  }

  /** The bits that a growth by one block sets: that of the data block and, where one is needed, of the table. */
  lemma GrownBitmap(ino: Ino, data: Blocks, bm: seq<byte>, newSize: u32, a: Ino, dataA: Blocks, bmA: seq<byte>)
    requires Sound(ino, data, bm) && NBlocks(newSize) == NBlocks(ino.size) + 1
    requires Reallocated(ino, data, bm, newSize, a, dataA, bmA)
    ensures NBlocks(ino.size) < MAXBLOCKS && |bmA| == |bm|
    ensures var n := NBlocks(ino.size);
      forall c: nat :: Taken(bmA, c) <==>
        || Taken(bm, c) || c == SlotBlock(a, dataA, n)
        || (n == FIND && c == SlotBlock(a, dataA, FINDSLOT))
        || (n == SIND && c == SlotBlock(a, dataA, SINDSLOT))
        || (n == TIND && c == SlotBlock(a, dataA, TINDSLOT))
  {
    hide Bit, SlotBlock;
    var n := NBlocks(ino.size);
    GrowthBound(ino, data, bm, newSize, a, dataA, bmA);
    forall c: nat ensures Taken(bmA, c) <==>
        || Taken(bm, c) || c == SlotBlock(a, dataA, n)
        || (n == FIND && c == SlotBlock(a, dataA, FINDSLOT))
        || (n == SIND && c == SlotBlock(a, dataA, SINDSLOT))
        || (n == TIND && c == SlotBlock(a, dataA, TINDSLOT))
    {
      if c in Own(ino, data) {
        var s := SlotOf(ino, data, c);
        assert LiveSlot(a, s);
        OwnHas(a, dataA, s);
      }
      if c in Own(a, dataA) {
        var s := SlotOf(a, dataA, c);
        if LiveSlot(ino, s) {
          OwnHas(ino, data, s);
        }
      }
    }
  }

  lemma GrowthBound(ino: Ino, data: Blocks, bm: seq<byte>, newSize: u32, a: Ino, dataA: Blocks, bmA: seq<byte>)
    requires Reallocated(ino, data, bm, newSize, a, dataA, bmA)
    ensures NBlocks(newSize) <= MAXBLOCKS && a.size == newSize
    ensures forall s: nat :: LiveSlot(a, s) ==> SlotBlock(a, dataA, s) < BLOCKS
  {
  }

  lemma TableBeforeBlock(ino: Ino, bmA: seq<byte>, a: Ino, dataA: Blocks, s: nat)
    requires NBlocks(a.size) == NBlocks(ino.size) + 1 <= MAXBLOCKS && FirstFit(ino, bmA, a, dataA)
    requires NewSlot(ino, a, s) && s >= MAXBLOCKS
    ensures SlotBlock(a, dataA, s) < SlotBlock(a, dataA, NBlocks(ino.size))
  {
    assert NewSlot(ino, a, NBlocks(ino.size));
  }

  /** The block at one position of the order of allocation is not lower in one outcome than in another
      that agrees on the positions before. */
  lemma NotLower(ino: Ino, data: Blocks, bm: seq<byte>, newSize: u32, a: Ino, dataA: Blocks, bmA: seq<byte>, b: Ino,
                 dataB: Blocks, bmB: seq<byte>, s: nat)
    requires Sound(ino, data, bm) && NBlocks(ino.size) < NBlocks(newSize) <= MAXBLOCKS
    requires Reallocated(ino, data, bm, newSize, a, dataA, bmA)
    requires Reallocated(ino, data, bm, newSize, b, dataB, bmB) && FirstFit(ino, bmB, b, dataB)
    requires NewSlot(ino, a, s)
    requires var n0, n1 := NBlocks(ino.size), NBlocks(newSize);
      forall t: nat :: NewSlot(ino, a, t) && AllocPos(n0, n1, t) < AllocPos(n0, n1, s) ==>
        SlotBlock(a, dataA, t) == SlotBlock(b, dataB, t)
    ensures SlotBlock(a, dataA, s) >= SlotBlock(b, dataB, s)
  {
    var n0, n1, x := NBlocks(ino.size), NBlocks(newSize), SlotBlock(a, dataA, s);
    assert NewSlot(ino, b, s);
    NewSlotWasFree(ino, data, bm, newSize, a, dataA, bmA, s);
    if x < SlotBlock(b, dataB, s) {
      forall u: nat | LiveSlot(b, u) ensures SlotBlock(b, dataB, u) != x {
        if LiveSlot(ino, u) {
          OwnHas(ino, data, u);
        } else {
          assert NewSlot(ino, b, u) && NewSlot(ino, a, u);
          if AllocPos(n0, n1, u) < AllocPos(n0, n1, s) {
            assert SlotBlock(a, dataA, u) != x;
          }
        }
      }
    }
  }

  /** First fit leaves no choice: two outcomes of one growth have the same block in every slot and the same bitmap. */
  lemma {:induction false} SameBlocksUpTo(ino: Ino, data: Blocks, bm: seq<byte>, newSize: u32, a: Ino, dataA: Blocks,
                                          bmA: seq<byte>, b: Ino, dataB: Blocks, bmB: seq<byte>, k: nat)
    requires Sound(ino, data, bm) && NBlocks(ino.size) < NBlocks(newSize) <= MAXBLOCKS
    requires Reallocated(ino, data, bm, newSize, a, dataA, bmA) && FirstFit(ino, bmA, a, dataA)
    requires Reallocated(ino, data, bm, newSize, b, dataB, bmB) && FirstFit(ino, bmB, b, dataB)
    ensures forall s: nat :: NewSlot(ino, a, s) && AllocPos(NBlocks(ino.size), NBlocks(newSize), s) < k ==>
      SlotBlock(a, dataA, s) == SlotBlock(b, dataB, s)
  {
    hide FirstFit, Reallocated, Sound, SlotBlock, AllocPos;
    if k > 0 {
      SameBlocksUpTo(ino, data, bm, newSize, a, dataA, bmA, b, dataB, bmB, k - 1);
      SameNewSlots(ino, data, bm, newSize, a, dataA, bmA, b, dataB, bmB);
      forall s: nat | NewSlot(ino, a, s) && AllocPos(NBlocks(ino.size), NBlocks(newSize), s) == k - 1
        ensures SlotBlock(a, dataA, s) == SlotBlock(b, dataB, s)
      {
        NotLower(ino, data, bm, newSize, a, dataA, bmA, b, dataB, bmB, s);
        NotLower(ino, data, bm, newSize, b, dataB, bmB, a, dataA, bmA, s);
      }
    }
  }

  lemma SameNewSlots(ino: Ino, data: Blocks, bm: seq<byte>, newSize: u32, a: Ino, dataA: Blocks, bmA: seq<byte>, b: Ino,
                     dataB: Blocks, bmB: seq<byte>)
    requires Reallocated(ino, data, bm, newSize, a, dataA, bmA) && Reallocated(ino, data, bm, newSize, b, dataB, bmB)
    ensures forall s: nat :: NewSlot(ino, a, s) <==> NewSlot(ino, b, s)
  {
  }

  lemma FallocIsDetermined(ino: Ino, data: Blocks, bm: seq<byte>, newSize: u32, a: Ino, dataA: Blocks, bmA: seq<byte>,
                           b: Ino, dataB: Blocks, bmB: seq<byte>)
    requires Sound(ino, data, bm)
    requires Reallocated(ino, data, bm, newSize, a, dataA, bmA) && FirstFit(ino, bmA, a, dataA)
    requires Reallocated(ino, data, bm, newSize, b, dataB, bmB) && FirstFit(ino, bmB, b, dataB)
    ensures bmA == bmB
    ensures forall s: nat :: LiveSlot(a, s) ==> LiveSlot(b, s) && SlotBlock(a, dataA, s) == SlotBlock(b, dataB, s)
  {
    var n0, n1 := NBlocks(ino.size), NBlocks(newSize);
    if n1 > n0 {
      SameBlocksUpTo(ino, data, bm, newSize, a, dataA, bmA, b, dataB, bmB, Need(n1));
    }
    forall s: nat | LiveSlot(a, s) ensures LiveSlot(b, s) && SlotBlock(a, dataA, s) == SlotBlock(b, dataB, s) {
      if n1 > n0 && !LiveSlot(ino, s) {
        assert NewSlot(ino, a, s);
      }
    }
    SameOwn(a, dataA, b, dataB);
    SameBits(bmA, bmB);
  }

  lemma SameOwn(a: Ino, dataA: Blocks, b: Ino, dataB: Blocks)
    requires forall s: nat :: LiveSlot(a, s) <==> LiveSlot(b, s)
    requires forall s: nat :: LiveSlot(a, s) ==> SlotBlock(a, dataA, s) == SlotBlock(b, dataB, s)
    ensures Own(a, dataA) == Own(b, dataB)
  {
  }

  // ---------- contents ----------

  const MAXSIZE := MAXBLOCKS * BLOCKSIZE

  /** The bytes of the file. */
  ghost function Content(ino: Ino, data: Blocks): (c: seq<byte>)
    requires ino.size <= MAXSIZE
    ensures |c| == ino.size
  {
    seq(ino.size, j requires 0 <= j < ino.size => ByteAt(ino, data, j))
  }

  function ByteAt(ino: Ino, data: Blocks, j: nat): byte
    requires j < MAXSIZE
  {
    BlockAt(data, SlotBlock(ino, data, j / BLOCKSIZE))[j % BLOCKSIZE]
  }

  lemma ByteIsLive(ino: Ino, j: nat)
    requires j < ino.size <= MAXSIZE
    ensures LiveSlot(ino, j / BLOCKSIZE)
  {
  }

  /** An untouched inode keeps its contents. */
  lemma UntouchedContent(ino: Ino, data: Blocks, data': Blocks)
    requires ino.size <= MAXSIZE && WF(ino, data) && Untouched(ino, data, data')
    ensures Content(ino, data') == Content(ino, data)
  {
    forall j | 0 <= j < ino.size ensures ByteAt(ino, data', j) == ByteAt(ino, data, j) {
      ByteIsLive(ino, j);
      OwnHas(ino, data, j / BLOCKSIZE);
    }
  }

  /** Reallocation keeps the contents below the smaller of the two sizes. */
  lemma ReallocatedContent(ino: Ino, data: Blocks, bm: seq<byte>, newSize: u32, ino': Ino, data': Blocks,
                           bm': seq<byte>)
    requires Sound(ino, data, bm) && Reallocated(ino, data, bm, newSize, ino', data', bm')
    requires ino.size <= MAXSIZE && newSize <= MAXSIZE
    ensures forall j :: 0 <= j < ino.size && j < newSize ==> Content(ino', data')[j] == Content(ino, data)[j]
  {
    forall j | 0 <= j < ino.size && j < newSize ensures ByteAt(ino', data', j) == ByteAt(ino, data, j) {
      var v := j / BLOCKSIZE;
      ByteIsLive(ino, j);
      ByteIsLive(ino', j);
      var b := SlotBlock(ino', data', v);
      assert !IsTable(ino', b);
    }
  }

  /** Overwriting part of one block overwrites exactly that range of the file. */
  lemma ChunkWritten(ino: Ino, data: Blocks, pos: nat, d: seq<byte>)
    requires ino.size <= MAXSIZE && WF(ino, data)
    requires pos % BLOCKSIZE + |d| <= BLOCKSIZE && pos + |d| <= ino.size && pos < ino.size
    ensures var b := SlotBlock(ino, data, pos / BLOCKSIZE);
      b < BLOCKS && !IsTable(ino, b) &&
      (var data' := data[b := Splice(data[b], pos % BLOCKSIZE, d)];
       && WF(ino, data') && Own(ino, data') == Own(ino, data)
       && (forall s: nat :: LiveSlot(ino, s) ==> SlotBlock(ino, data', s) == SlotBlock(ino, data, s))
       && Content(ino, data') == Splice(Content(ino, data), pos, d))
  {
    var v := pos / BLOCKSIZE;
    ByteIsLive(ino, pos);
    var b := SlotBlock(ino, data, v);
    OwnHas(ino, data, v);
    assert !IsTable(ino, b);
    var data' := data[b := Splice(data[b], pos % BLOCKSIZE, d)];
    OwnFrame(ino, data, data');
    forall j | 0 <= j < ino.size ensures ByteAt(ino, data', j) == Splice(Content(ino, data), pos, d)[j] {
      ByteIsLive(ino, j);
      if j / BLOCKSIZE != v {
        assert SlotBlock(ino, data, j / BLOCKSIZE) != b;
      }
    }
  }
}

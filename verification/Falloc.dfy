/** Falloc: growing and shrinking an inode's block list (computer/fs_falloc.go:61-275). */
module Allocator {
  import opened Bytes
  import opened Bitmap
  import opened Layout
  import opened Inodes
  import opened BlockMap
  import opened Disk

  /** Falloc panics when the bitmap runs out; Panicked stands for that. */
  datatype FallocResult = Done | TooBig | Panicked

  /** No bit at or above the data block count is ever clear (computer/fs.go:241-244). */
  ghost predicate HighBitsSet(bm: seq<byte>)
  {
    |bm| == BLOCKSIZE && forall b: nat :: BLOCKS <= b < 8 * BLOCKSIZE ==> Taken(bm, b)
  }

  /** What Falloc assumes of the inode it is given: its blocks are its own and marked as taken. */
  ghost predicate Sound(ino: Ino, data: Blocks, bm: seq<byte>)
  {
    && WF(ino, data)
    && HighBitsSet(bm)
    && (forall b: nat :: b in Own(ino, data) ==> Taken(bm, b))
  }

  ghost function Free(bm: seq<byte>): set<nat>
  {
    set b: nat | b < 8 * |bm| && !Taken(bm, b)
  }

  /** The blocks xs have been taken out of bm0, lowest first, leaving bm. */
  ghost predicate TookLowest(bm0: seq<byte>, bm: seq<byte>, xs: seq<nat>)
  {
    && |bm| == |bm0|
    && (forall b: nat :: Taken(bm, b) <==> Taken(bm0, b) || b in xs)
    && (forall k :: 0 <= k < |xs| ==> xs[k] < 8 * |bm| && !Taken(bm0, xs[k]))
    && (forall j, k :: 0 <= j < k < |xs| ==> xs[j] < xs[k])
    && (forall b: nat, k :: b < 8 * |bm| && !Taken(bm, b) && 0 <= k < |xs| ==> xs[k] < b)
  }

  ghost function SetOf(xs: seq<nat>): set<nat>
  {
    set x | x in xs
  }

  lemma {:induction false} CardOfAscending(xs: seq<nat>)
    requires forall j, k :: 0 <= j < k < |xs| ==> xs[j] < xs[k]
    ensures |SetOf(xs)| == |xs|
  {
    if xs == [] {
      assert SetOf(xs) == {};
    } else {
      var k := |xs| - 1;
      CardOfAscending(xs[..k]);
      assert SetOf(xs) == SetOf(xs[..k]) + {xs[k]};
    }
  }

  lemma TookCount(bm0: seq<byte>, bm: seq<byte>, xs: seq<nat>)
    requires TookLowest(bm0, bm, xs)
    ensures |Free(bm0)| == |Free(bm)| + |xs|
  {
    CardOfAscending(xs);
    var ys := SetOf(xs);
    forall b: nat ensures b in Free(bm0) <==> b in Free(bm) || b in ys {
      if b in xs {
        var k :| 0 <= k < |xs| && xs[k] == b;
      }
    }
    assert Free(bm0) == Free(bm) + ys;
    assert Free(bm) !! ys;
  }

  lemma FullHasNoFree(bm: seq<byte>)
    requires FullBelow(bm, 8 * |bm|)
    ensures Free(bm) == {}
  {
  }

  /** findFreeBit then setBit, as at every allocation (computer/fs_falloc.go:108-113, 137-141). */
  method TakeFree(bm: array<byte>, ghost bm0: seq<byte>, ghost xs: seq<nat>) returns (idx: u32, ok: bool)
    requires bm.Length == BLOCKSIZE && HighBitsSet(bm0) && TookLowest(bm0, bm[..], xs)
    modifies bm
    ensures ok ==> idx < BLOCKS && TookLowest(bm0, bm[..], xs + [idx])
    ensures !ok ==> |Free(bm0)| == |xs|
  {
    ghost var before := bm[..];
    idx, ok := FindFreeBit(bm);
    if !ok {
      TookCount(bm0, before, xs);
      FullHasNoFree(before);
      return;
    }
    SetBit(bm, idx);
    ghost var ys := xs + [idx];
    assert forall k :: 0 <= k < |xs| ==> ys[k] == xs[k];
    assert forall b: nat :: b in ys <==> b == idx || b in xs;
    assert forall b: nat :: b < 8 * |bm[..]| && !Taken(bm[..], b) ==> idx < b;
  }

  // ---------- new tables ----------

  /** Positions of the new tables and of the first new data block in the order of allocation. */
  function SindPos(n0: nat, n1: nat): nat { B2N(n1 > TIND && n0 <= TIND) }
  function FindPos(n0: nat, n1: nat): nat { SindPos(n0, n1) + B2N(n1 > SIND && n0 <= SIND) }
  function DataPos(n0: nat, n1: nat): nat { FindPos(n0, n1) + B2N(n1 > FIND && n0 <= FIND) }

  /** The blocks xs have been zeroed, nothing else has changed. */
  ghost predicate Zeroed(data: Blocks, data': Blocks, xs: seq<nat>)
  {
    forall b: nat :: b < BLOCKS ==> data'[b] == if b in xs then ZERO else data[b]
  }

  /** getDataBlock (computer/fs_falloc.go:107-119) */
  method GetDataBlock(fs: FileSystem, bm: array<byte>, ghost bm0: seq<byte>, ghost xs: seq<u32>, ghost data0: Blocks)
    returns (idx: u32, ok: bool)
    requires fs.Valid() && bm != fs.disk.buf
    requires bm.Length == BLOCKSIZE && HighBitsSet(bm0) && TookLowest(bm0, bm[..], xs)
    requires Zeroed(data0, fs.data, xs)
    modifies bm, fs`data, fs.disk.buf
    ensures fs.Valid()
    ensures ok ==> idx < BLOCKS && TookLowest(bm0, bm[..], xs + [idx]) && Zeroed(data0, fs.data, xs + [idx])
    ensures !ok ==> |Free(bm0)| == |xs| && Zeroed(data0, fs.data, xs)
  {
    idx, ok := TakeFree(bm, bm0, xs);
    if ok {
      var _ := fs.WriteDataBlock(idx, ZERO);
      assert forall b: nat :: b in xs + [idx] <==> b == idx || b in xs;
    }
  }

  /** Progress so far: xs taken lowest first out of bm0, and zeroed. */
  ghost predicate Handed(bm0: seq<byte>, bm: seq<byte>, data0: Blocks, data: Blocks, xs: seq<u32>)
  {
    && TookLowest(bm0, bm, xs)
    && Zeroed(data0, data, xs)
    && (forall k :: 0 <= k < |xs| ==> xs[k] < BLOCKS)
  }

  lemma HandedNothing(bm: seq<byte>, data: Blocks)
    ensures Handed(bm, bm, data, data, [])
  {
  }

  /** A table that the growth crosses into gets a zeroed block; any other keeps its pointer
      (computer/fs_falloc.go:121-129). */
  method NewTable(fs: FileSystem, bm: array<byte>, crossed: bool, ptr: u32,
                  ghost bm0: seq<byte>, ghost data0: Blocks, ghost xs: seq<u32>)
    returns (r: u32, ok: bool, ghost ys: seq<u32>)
    requires fs.Valid() && bm != fs.disk.buf && bm.Length == BLOCKSIZE && HighBitsSet(bm0)
    requires Handed(bm0, bm[..], data0, fs.data, xs)
    modifies bm, fs`data, fs.disk.buf
    ensures fs.Valid()
    ensures ok ==> ys == (if crossed then xs + [r] else xs) && (!crossed ==> r == ptr)
    ensures ok ==> Handed(bm0, bm[..], data0, fs.data, ys)
    ensures !ok ==> crossed && |Free(bm0)| == |xs|
  {
    r, ok, ys := ptr, true, xs;
    if crossed {
      r, ok := GetDataBlock(fs, bm, bm0, xs, data0);
      ys := xs + [r];
    }
  }

  /** The table pointers after the new tables have been allocated, third table first. */
  method AllocTables(fs: FileSystem, bm: array<byte>, n0: nat, n1: nat, tind: u32, sind: u32, find: u32)
    returns (ok: bool, t: u32, s: u32, f: u32, ghost xs: seq<u32>)
    requires fs.Valid() && bm != fs.disk.buf && bm.Length == BLOCKSIZE && HighBitsSet(bm[..])
    modifies bm, fs`data, fs.disk.buf
    ensures fs.Valid()
    ensures ok ==> |xs| == DataPos(n0, n1) && Handed(old(bm[..]), bm[..], old(fs.data), fs.data, xs)
    ensures ok ==> t == if n1 > TIND && n0 <= TIND then xs[0] else tind
    ensures ok ==> s == if n1 > SIND && n0 <= SIND then xs[SindPos(n0, n1)] else sind
    ensures ok ==> f == if n1 > FIND && n0 <= FIND then xs[FindPos(n0, n1)] else find
    ensures !ok ==> |Free(old(bm[..]))| < DataPos(n0, n1)
  {
    hide Handed, HighBitsSet, Shows, Free;
    ghost var bm0, data0 := bm[..], fs.data;
    HandedNothing(bm0, data0);
    t, s, f, xs := tind, sind, find, [];
    t, ok, xs := NewTable(fs, bm, n1 > TIND && n0 <= TIND, tind, bm0, data0, xs);
    if !ok { return; }
    s, ok, xs := NewTable(fs, bm, n1 > SIND && n0 <= SIND, sind, bm0, data0, xs);
    if !ok { return; }
    f, ok, xs := NewTable(fs, bm, n1 > FIND && n0 <= FIND, find, bm0, data0, xs);
  }

  // ---------- the working map: buffered tables ----------

  /** A table buffer: absent until the table is first needed. */
  datatype Buffer = Absent | Loaded(tab: Block)

  /** A table as Falloc sees it: its buffer once loaded, the disk block before. */
  function Buffered(buf: Buffer, data: Blocks, ptr: u32): Block
  {
    if buf.Loaded? then buf.tab else BlockAt(data, ptr)
  }

  /** The working map at v. */
  function WorkAt(ino: Ino, data: Blocks, f: Buffer, s: Buffer, t: Buffer, v: nat): u32
    requires v < MAXBLOCKS
  {
    MapAt(ino.direct, Buffered(f, data, ino.find), Buffered(s, data, ino.sind), Buffered(t, data, ino.tind), v)
  }

  /** Buffers are only loaded for tables that some block up to n needs. */
  ghost predicate LoadedFor(n: nat, f: Buffer, s: Buffer, t: Buffer)
  {
    (f.Loaded? ==> n > FIND) && (s.Loaded? ==> n > SIND) && (t.Loaded? ==> n > TIND)
  }

  /** The table as Falloc sees it, read from disk only when it is not buffered yet (computer/fs_falloc.go:146-149). */
  method LoadTable(fs: FileSystem, buf: Buffer, ptr: u32) returns (r: Block)
    requires fs.Valid()
    ensures r == Buffered(buf, fs.data, ptr)
  {
    match buf
    case Loaded(tab) =>
      r := tab;
    case Absent =>
      var temp, _ := fs.ReadDataBlock(ptr);
      r := temp;
  }

  /** Store the pointer for virtual block i (computer/fs_falloc.go:132-182). */
  method PutBlock(fs: FileSystem, inode: Inode, i: u32, idx: u32, f0: Buffer, s0: Buffer, t0: Buffer)
    returns (f: Buffer, s: Buffer, t: Buffer)
    requires fs.Valid() && i < MAXBLOCKS
    modifies inode`direct
    ensures LoadedFor(i, f0, s0, t0) ==> LoadedFor(i + 1, f, s, t)
    ensures inode.Val() == old(inode.Val()).(direct := inode.direct)
    ensures forall v: nat :: v < MAXBLOCKS ==>
      WorkAt(inode.Val(), fs.data, f, s, t, v) == if v ==
        i then idx else WorkAt(old(inode.Val()), fs.data, f0, s0, t0, v)
  {
    hide Ptr, SetPtr, Shows;
    f, s, t := f0, s0, t0;
    var (rel, place) := VirtualToPlaceRelative(i);
    if place == 0 {
      inode.direct := inode.direct[rel := idx];
    } else if place == 1 {
      var tab := LoadTable(fs, f0, inode.find);
      f := Loaded(SetPtr(tab, rel, idx));
    } else if place == 2 {
      var tab := LoadTable(fs, s0, inode.sind);
      s := Loaded(SetPtr(tab, rel, idx));
    } else if place == 3 {
      var tab := LoadTable(fs, t0, inode.tind);
      t := Loaded(SetPtr(tab, rel, idx));
    }
  }

  /** The loop that hands out the data blocks n0 to n1-1 (computer/fs_falloc.go:131-186). */
  method GrowBlocks(fs: FileSystem, inode: Inode, bm: array<byte>, n0: nat, n1: nat, ghost bm0: seq<byte>,
                    ghost xs: seq<u32>)
    returns (ok: bool, f: Buffer, s: Buffer, t: Buffer, ghost zs: seq<u32>)
    requires fs.Valid() && bm != fs.disk.buf && bm.Length == BLOCKSIZE && HighBitsSet(bm0)
    requires n0 <= n1 <= MAXBLOCKS && TookLowest(bm0, bm[..], xs)
    modifies inode`direct, bm
    ensures inode.Val() == old(inode.Val()).(direct := inode.direct)
    ensures ok ==> |zs| == |xs| + n1 - n0 && xs <= zs && TookLowest(bm0, bm[..], zs) && LoadedFor(n1, f, s, t)
    ensures ok ==> forall v: nat :: v < MAXBLOCKS ==>
      WorkAt(inode.Val(), fs.data, f, s, t, v) ==
        if n0 <= v < n1 then zs[|xs| + v - n0] else WorkAt(old(inode.Val()), fs.data, Absent, Absent, Absent, v)
    ensures !ok ==> |Free(bm0)| < |xs| + n1 - n0
  {
    hide TookLowest, HighBitsSet, WorkAt, Shows, Free;
    f, s, t, zs, ok := Absent, Absent, Absent, xs, true;
    for i := n0 to n1
      invariant inode.Val() == old(inode.Val()).(direct := inode.direct)
      invariant |zs| == |xs| + i - n0 && xs <= zs && TookLowest(bm0, bm[..], zs) && LoadedFor(i, f, s, t)
      invariant forall v: nat :: v < MAXBLOCKS ==>
        WorkAt(inode.Val(), fs.data, f, s, t, v) ==
          if n0 <= v < i then zs[|xs| + v - n0] else WorkAt(old(inode.Val()), fs.data, Absent, Absent, Absent, v)
    {
      var idx;
      idx, ok := TakeFree(bm, bm0, zs);
      if !ok {
        return;
      }
      f, s, t := PutBlock(fs, inode, i, idx, f, s, t);
      zs := zs + [idx];
    }
  }

  // ---------- what a reallocation is ----------

  /** The inode's block list has been cut or extended to newSize bytes. */
  ghost predicate Reallocated(ino: Ino, data: Blocks, bm: seq<byte>, newSize: u32, ino': Ino, data': Blocks,
                              bm': seq<byte>)
  {
    && ino' == ino.(size := newSize, direct := ino'.direct, find := ino'.find, sind := ino'.sind, tind := ino'.tind)
    && WF(ino', data')
    // the slots in use before and after keep their blocks
    && (forall s: nat :: LiveSlot(ino, s) && LiveSlot(ino', s) ==> SlotBlock(ino', data', s) == SlotBlock(ino, data, s))
    // every new block was free
    && (forall b: nat :: b in Own(ino', data') && b !in Own(ino, data) ==> !Taken(bm, b))
    // the bitmap follows ownership and nothing else
    && |bm'| == |bm|
    && (forall b: nat :: Taken(bm', b) <==> (Taken(bm, b) && b !in Own(ino, data)) || b in Own(ino', data'))
    // only live tables of this inode are written
    && (forall b: nat :: b < BLOCKS && !IsTable(ino', b) ==> data'[b] == data[b])
    // giving blocks back moves nothing
    && (NBlocks(newSize) <= NBlocks(ino.size) ==> ino' == ino.(size := newSize) && data' == data)
  }

  /** Position of a newly live slot in the order of allocation: tables third to first, then data blocks upwards. */
  function AllocPos(n0: nat, n1: nat, s: nat): nat
    requires n0 <= s < NSLOTS || MAXBLOCKS <= s < NSLOTS
  {
    if s == TINDSLOT then 0
    else if s == SINDSLOT then SindPos(n0, n1)
    else if s == FINDSLOT then FindPos(n0, n1)
    else DataPos(n0, n1) + s - n0
  }

  ghost predicate NewSlot(ino: Ino, ino': Ino, s: nat)
  {
    LiveSlot(ino', s) && !LiveSlot(ino, s)
  }

  /** First fit: the blocks handed out are the lowest free ones, in the order of allocation. */
  ghost predicate FirstFit(ino: Ino, bm': seq<byte>, ino': Ino, data': Blocks)
  {
    var n0, n1 := NBlocks(ino.size), NBlocks(ino'.size);
    && (forall s: nat, c: nat ::
          NewSlot(ino, ino', s) && c < 8 * |bm'| && !Taken(bm', c) ==> SlotBlock(ino', data', s) < c)
    && (forall s: nat, t: nat ::
          NewSlot(ino, ino', s) && NewSlot(ino, ino', t) && AllocPos(n0, n1, s) < AllocPos(n0, n1, t) ==>
            SlotBlock(ino', data', s) < SlotBlock(ino', data', t))
  }

  /** Slot by slot, a growth from zs: old slots as before, the new slots hold zs in the order of allocation. */
  ghost predicate GrownFrom(ino: Ino, data: Blocks, zs: seq<nat>, ino': Ino, data': Blocks)
  {
    var n0, n1 := NBlocks(ino.size), NBlocks(ino'.size);
    && n0 < n1 <= MAXBLOCKS
    && |zs| == Need(n1) - Need(n0)
    && (forall s: nat :: LiveSlot(ino, s) ==> SlotBlock(ino', data', s) == SlotBlock(ino, data, s))
    && (forall s: nat :: NewSlot(ino, ino', s) ==> SlotBlock(ino', data', s) == zs[AllocPos(n0, n1, s)])
  }

  lemma NewSlotOf(ino: Ino, ino': Ino, k: nat) returns (s: nat)
    requires NBlocks(ino.size) < NBlocks(ino'.size) <= MAXBLOCKS
    requires k < Need(NBlocks(ino'.size)) - Need(NBlocks(ino.size))
    ensures NewSlot(ino, ino', s) && AllocPos(NBlocks(ino.size), NBlocks(ino'.size), s) == k
  {
    var n0, n1 := NBlocks(ino.size), NBlocks(ino'.size);
    s := if k >= DataPos(n0, n1) then k - DataPos(n0, n1) + n0
         else if k >= FindPos(n0, n1) then FINDSLOT
         else if k >= SindPos(n0, n1) then SINDSLOT
         else TINDSLOT;
  }

  /** The owned blocks after growth are the old ones and zs. */
  lemma GrownOwns(ino: Ino, data: Blocks, bm: seq<byte>, zs: seq<nat>, ino': Ino, data': Blocks, b: nat)
    requires Sound(ino, data, bm) && GrownFrom(ino, data, zs, ino', data')
    ensures b in Own(ino', data') <==> b in Own(ino, data) || b in zs
  {
    if b in Own(ino', data') {
      var s := SlotOf(ino', data', b);
      if LiveSlot(ino, s) {
        OwnHas(ino, data, s);
      }
    }
    if b in Own(ino, data) {
      var s := SlotOf(ino, data, b);
      OwnHas(ino', data', s);
    }
    if b in zs {
      var k :| 0 <= k < |zs| && zs[k] == b;
      var s := NewSlotOf(ino, ino', k);
      OwnHas(ino', data', s);
    }
  }

  /** Where a slot's block comes from: an old one was taken before, a new one was not. */
  lemma GrownOrigin(ino: Ino, data: Blocks, bm: seq<byte>, bm': seq<byte>, zs: seq<nat>, ino': Ino, data': Blocks,
                    s: nat)
    requires Sound(ino, data, bm) && GrownFrom(ino, data, zs, ino', data') && TookLowest(bm, bm', zs)
    requires LiveSlot(ino', s)
    ensures SlotBlock(ino', data', s) < BLOCKS && (LiveSlot(ino, s) <==> Taken(bm, SlotBlock(ino', data', s)))
  {
    hide Bit;
    if LiveSlot(ino, s) {
      OwnHas(ino, data, s);
    } else {
      assert !Taken(bm, zs[AllocPos(NBlocks(ino.size), NBlocks(ino'.size), s)]);
    }
  }

  lemma GrownWF(ino: Ino, data: Blocks, bm: seq<byte>, bm': seq<byte>, zs: seq<nat>, ino': Ino, data': Blocks)
    requires Sound(ino, data, bm) && GrownFrom(ino, data, zs, ino', data') && TookLowest(bm, bm', zs)
    ensures WF(ino', data')
  {
    hide Bit, Own, SlotBlock, Taken;
    forall s: nat | LiveSlot(ino', s) ensures SlotBlock(ino', data', s) < BLOCKS {
      GrownOrigin(ino, data, bm, bm', zs, ino', data', s);
    }
    forall s: nat, t: nat | LiveSlot(ino', s) && LiveSlot(ino', t) &&
      SlotBlock(ino', data', s) == SlotBlock(ino', data', t)
      ensures s == t
    {
      GrownOrigin(ino, data, bm, bm', zs, ino', data', s);
      GrownOrigin(ino, data, bm, bm', zs, ino', data', t);
    }
  }

  lemma GrownIsReallocated(ino: Ino, data: Blocks, bm: seq<byte>, bm': seq<byte>, zs: seq<nat>, newSize: u32, ino': Ino,
                           data': Blocks)
    requires Sound(ino, data, bm) && GrownFrom(ino, data, zs, ino', data') && TookLowest(bm, bm', zs)
    requires ino' == ino.(size := newSize, direct := ino'.direct, find := ino'.find, sind := ino'.sind,
                          tind := ino'.tind)
    requires forall b: nat :: b < BLOCKS && !IsTable(ino', b) ==> data'[b] == data[b]
    ensures Reallocated(ino, data, bm, newSize, ino', data', bm') && FirstFit(ino, bm', ino', data')
  {
    GrownWF(ino, data, bm, bm', zs, ino', data');
    forall b: nat ensures b in Own(ino', data') <==> b in Own(ino, data) || b in zs {
      GrownOwns(ino, data, bm, zs, ino', data', b);
    }
    GrownFirstFit(ino, data, bm, bm', zs, ino', data');
  }

  lemma GrownFirstFit(ino: Ino, data: Blocks, bm: seq<byte>, bm': seq<byte>, zs: seq<nat>, ino': Ino, data': Blocks)
    requires Sound(ino, data, bm) && GrownFrom(ino, data, zs, ino', data') && TookLowest(bm, bm', zs)
    ensures FirstFit(ino, bm', ino', data')
  {
  }

  /** The data block that growing from n to n + 1 blocks hands out: the lowest free one, or the second-lowest when the
      growth needs a table first. */
  function NextBlock(bm: seq<byte>, n: nat): nat
  {
    NthFree(bm, if n == FIND || n == SIND || n == TIND then 1 else 0)
  }

  // ---------- writing the buffered tables back ----------

  function StoreTable(data: Blocks, ptr: u32, buf: Buffer, freed: bool): Blocks
  {
    if buf.Loaded? && !freed && ptr < BLOCKS then data[ptr := buf.tab] else data
  }

  function StoreTables(data: Blocks, ino: Ino, f: Buffer, s: Buffer, t: Buffer, findFreed: bool, sindFreed: bool,
                       tindFreed: bool): Blocks
  {
    StoreTable(StoreTable(StoreTable(data, ino.find, f, findFreed), ino.sind, s, sindFreed), ino.tind, t, tindFreed)
  }

  method WriteBackTable(fs: FileSystem, ptr: u32, buf: Buffer, freed: bool)
    requires fs.Valid()
    modifies fs`data, fs.disk.buf
    ensures fs.Valid() && fs.data == StoreTable(old(fs.data), ptr, buf, freed)
  {
    if buf.Loaded? && !freed {
      var _ := fs.WriteDataBlock(ptr, buf.tab);
    }
  }

  /** (computer/fs_falloc.go:261-270) */
  method WriteBack(fs: FileSystem, inode: Inode, f: Buffer, s: Buffer, t: Buffer, findFreed: bool, sindFreed: bool,
                   tindFreed: bool)
    requires fs.Valid()
    modifies fs`data, fs.disk.buf
    ensures fs.Valid()
    ensures fs.data == StoreTables(old(fs.data), inode.Val(), f, s, t, findFreed, sindFreed, tindFreed)
  {
    WriteBackTable(fs, inode.find, f, findFreed);
    WriteBackTable(fs, inode.sind, s, sindFreed);
    WriteBackTable(fs, inode.tind, t, tindFreed);
  }

  /** The live tables of the inode lie in range and apart. */
  ghost predicate TablesApart(ino: Ino)
  {
    && (forall s: nat :: FINDSLOT <= s && LiveSlot(ino, s) ==> TablePtr(ino, s) < BLOCKS)
    && (forall s: nat, t: nat | FINDSLOT <= s && FINDSLOT <= t ::
          LiveSlot(ino, s) && LiveSlot(ino, t) && TablePtr(ino, s) == TablePtr(ino, t) ==> s == t)
  }

  function TablePtr(ino: Ino, s: nat): u32
  {
    if s == FINDSLOT then ino.find else if s == SINDSLOT then ino.sind else ino.tind
  }

  /** After the write-back the disk shows what the buffers held. */
  lemma StoredShowsWork(ino: Ino, data: Blocks, f: Buffer, s: Buffer, t: Buffer, data': Blocks)
    requires NBlocks(ino.size) <= MAXBLOCKS && TablesApart(ino) && LoadedFor(NBlocks(ino.size), f, s, t)
    requires data' == StoreTables(data, ino, f, s, t, false, false, false)
    ensures forall v: nat :: v < NBlocks(ino.size) ==> SlotBlock(ino, data', v) == WorkAt(ino, data, f, s, t, v)
    ensures forall b: nat :: b < BLOCKS && !IsTable(ino, b) ==> data'[b] == data[b]
  {
    var n := NBlocks(ino.size);
    assert n > FIND ==> LiveSlot(ino, FINDSLOT) && TablePtr(ino, FINDSLOT) == ino.find;
    assert n > SIND ==> LiveSlot(ino, SINDSLOT) && TablePtr(ino, SINDSLOT) == ino.sind;
    assert n > TIND ==> LiveSlot(ino, TINDSLOT) && TablePtr(ino, TINDSLOT) == ino.tind;
    assert n > FIND ==> BlockAt(data', ino.find) == Buffered(f, data, ino.find);
    assert n > SIND ==> BlockAt(data', ino.sind) == Buffered(s, data, ino.sind);
    assert n > TIND ==> BlockAt(data', ino.tind) == Buffered(t, data, ino.tind);
  }

  // ---------- growth as a whole ----------

  /** The table pointers after AllocTables. */
  ghost predicate TablesTaken(ino: Ino, n1: nat, zs: seq<nat>, ino': Ino)
    requires |zs| >= DataPos(NBlocks(ino.size), n1)
  {
    var n0 := NBlocks(ino.size);
    && ino'.tind == (if n1 > TIND && n0 <= TIND then zs[0] else ino.tind)
    && ino'.sind == (if n1 > SIND && n0 <= SIND then zs[SindPos(n0, n1)] else ino.sind)
    && ino'.find == (if n1 > FIND && n0 <= FIND then zs[FindPos(n0, n1)] else ino.find)
  }

  /** Every live table of the grown inode is an old one or one of zs at its position. */
  lemma GrownTables(ino: Ino, data: Blocks, bm: seq<byte>, bm': seq<byte>, zs: seq<nat>, ino': Ino)
    requires Sound(ino, data, bm) && NBlocks(ino.size) < NBlocks(ino'.size) <= MAXBLOCKS
    requires TookLowest(bm, bm', zs) && |zs| == Need(NBlocks(ino'.size)) - Need(NBlocks(ino.size))
    requires TablesTaken(ino, NBlocks(ino'.size), zs, ino')
    ensures forall s: nat :: FINDSLOT <= s && LiveSlot(ino, s) ==>
      TablePtr(ino', s) == SlotBlock(ino, data, s) && Taken(bm, TablePtr(ino', s))
    ensures forall s: nat :: FINDSLOT <= s && NewSlot(ino, ino', s) ==>
      TablePtr(ino', s) == zs[AllocPos(NBlocks(ino.size), NBlocks(ino'.size), s)] && !Taken(bm, TablePtr(ino', s))
    ensures TablesApart(ino')
  {
    forall s: nat | FINDSLOT <= s && LiveSlot(ino, s)
      ensures TablePtr(ino', s) == SlotBlock(ino, data, s) && Taken(bm, TablePtr(ino', s))
    {
      OwnHas(ino, data, s);
    }
    forall s: nat | FINDSLOT <= s && LiveSlot(ino', s) ensures TablePtr(ino', s) < BLOCKS {
      if LiveSlot(ino, s) {
      } else {
        assert !Taken(bm, TablePtr(ino', s));
      }
    }
  }

  /** The old blocks are still in place once new tables have been zeroed. */
  lemma OldBlocksStay(ino: Ino, data: Blocks, bm: seq<byte>, data1: Blocks, xs: seq<nat>, ino1: Ino, v: nat)
    requires Sound(ino, data, bm) && Zeroed(data, data1, xs) && v < NBlocks(ino.size)
    requires forall k :: 0 <= k < |xs| ==> !Taken(bm, xs[k])
    requires ino1.direct == ino.direct
    requires forall s: nat :: FINDSLOT <= s && LiveSlot(ino, s) ==> TablePtr(ino1, s) == SlotBlock(ino, data, s)
    ensures WorkAt(ino1, data1, Absent, Absent, Absent, v) == SlotBlock(ino, data, v)
  {
    var s := if v < SIND then FINDSLOT else if v < TIND then SINDSLOT else TINDSLOT;
    if v >= FIND {
      assert LiveSlot(ino, s);
      OwnHas(ino, data, s);
      assert TablePtr(ino1, s) == SlotBlock(ino, data, s);
      assert data1[TablePtr(ino1, s)] == data[TablePtr(ino1, s)];
    }
  }

  /** The growth so far: tables taken and zeroed, then a block for every new position, then the buffers stored. */
  ghost predicate GrowthSteps(ino: Ino, data: Blocks, bm: seq<byte>, bm': seq<byte>, xs: seq<nat>, data1: Blocks,
                              ino1: Ino, zs: seq<nat>, ino2: Ino, f: Buffer, s: Buffer, t: Buffer, newSize: u32,
                              data2: Blocks)
  {
    && Sound(ino, data, bm) && NBlocks(ino.size) < NBlocks(newSize) <= MAXBLOCKS
    && TookLowest(bm, bm', zs) && xs <= zs && Zeroed(data, data1, xs)
    && |xs| == DataPos(NBlocks(ino.size), NBlocks(newSize)) && |zs| == |xs| + NBlocks(newSize) - NBlocks(ino.size)
    && TablesTaken(ino, NBlocks(newSize), zs, ino1)
    && ino1 == ino.(find := ino1.find, sind := ino1.sind, tind := ino1.tind)
    && ino2 == ino1.(direct := ino2.direct)
    && LoadedFor(NBlocks(newSize), f, s, t)
    && (forall v: nat :: v < MAXBLOCKS ==>
        WorkAt(ino2, data1, f, s, t, v) ==
          if NBlocks(ino.size) <= v < NBlocks(newSize) then zs[|xs| + v - NBlocks(ino.size)] else WorkAt(ino1, data1,
              Absent, Absent, Absent, v))
    && data2 == StoreTables(data1, ino2, f, s, t, false, false, false)
  }

  /** Storing the buffers shows the working map, and nothing but tables has been written since the zeroing. */
  lemma GrowthStored(ino: Ino, data: Blocks, bm: seq<byte>, bm': seq<byte>, xs: seq<nat>, data1: Blocks, ino1: Ino,
                     zs: seq<nat>, ino2: Ino, f: Buffer, s: Buffer, t: Buffer, newSize: u32, data2: Blocks)
    requires GrowthSteps(ino, data, bm, bm', xs, data1, ino1, zs, ino2, f, s, t, newSize, data2)
    ensures var ino3 := ino2.(size := newSize);
      && (forall v: nat :: v < NBlocks(newSize) ==> SlotBlock(ino3, data2, v) == WorkAt(ino2, data1, f, s, t, v))
      && (forall b: nat :: b < BLOCKS && !IsTable(ino3, b) ==> data2[b] == data1[b])
  {
    hide Own, Zeroed;
    var ino3 := ino2.(size := newSize);
    assert forall v: nat :: v < MAXBLOCKS ==> WorkAt(ino3, data1, f, s, t, v) == WorkAt(ino2, data1, f, s, t, v);
    GrownTables(ino, data, bm, bm', zs, ino3);
    hide TookLowest, Sound, WorkAt, StoreTables;
    StoredShowsWork(ino3, data1, f, s, t, data2);
  }

  lemma GrowthShows(ino: Ino, data: Blocks, bm: seq<byte>, bm': seq<byte>, xs: seq<nat>, data1: Blocks, ino1: Ino,
                    zs: seq<nat>, ino2: Ino, f: Buffer, s: Buffer, t: Buffer, newSize: u32, data2: Blocks)
    requires GrowthSteps(ino, data, bm, bm', xs, data1, ino1, zs, ino2, f, s, t, newSize, data2)
    ensures GrownFrom(ino, data, zs, ino2.(size := newSize), data2)
  {
    hide Own, Zeroed, StoreTables, WorkAt, Sound, TookLowest;
    var n0, n1, ino3 := NBlocks(ino.size), NBlocks(newSize), ino2.(size := newSize);
    GrowthStored(ino, data, bm, bm', xs, data1, ino1, zs, ino2, f, s, t, newSize, data2);
    GrownTables(ino, data, bm, bm', zs, ino3);
    forall q: nat | LiveSlot(ino, q) ensures SlotBlock(ino3, data2, q) == SlotBlock(ino, data, q) {
      if q < MAXBLOCKS {
        TookWasFree(bm, bm', xs, zs);
        OldBlocksStay(ino, data, bm, data1, xs, ino1, q);
      } else {
        assert TablePtr(ino3, q) == SlotBlock(ino, data, q);
      }
    }
    forall q: nat | NewSlot(ino, ino3, q) ensures SlotBlock(ino3, data2, q) == zs[AllocPos(n0, n1, q)] {
      if q >= MAXBLOCKS {
        assert TablePtr(ino3, q) == zs[AllocPos(n0, n1, q)];
      } else {
        assert WorkAt(ino2, data1, f, s, t, q) == zs[|xs| + q - n0];
      }
    }
  }

  lemma TookWasFree(bm: seq<byte>, bm': seq<byte>, xs: seq<nat>, zs: seq<nat>)
    requires TookLowest(bm, bm', zs) && xs <= zs
    ensures forall k :: 0 <= k < |xs| ==> !Taken(bm, xs[k])
  {
    assert forall k :: 0 <= k < |xs| ==> xs[k] == zs[k];
  }

  lemma GrowAssembles(ino: Ino, data: Blocks, bm: seq<byte>, bm': seq<byte>, xs: seq<nat>, data1: Blocks, ino1: Ino,
                      zs: seq<nat>, ino2: Ino, f: Buffer, s: Buffer, t: Buffer, newSize: u32, data2: Blocks)
    requires GrowthSteps(ino, data, bm, bm', xs, data1, ino1, zs, ino2, f, s, t, newSize, data2)
    ensures Reallocated(ino, data, bm, newSize, ino2.(size := newSize), data2, bm')
    ensures FirstFit(ino, bm', ino2.(size := newSize), data2)
  {
    hide Reallocated, FirstFit, WorkAt, StoreTables, GrownFrom;
    var ino3 := ino2.(size := newSize);
    GrowthShows(ino, data, bm, bm', xs, data1, ino1, zs, ino2, f, s, t, newSize, data2);
    GrowthStored(ino, data, bm, bm', xs, data1, ino1, zs, ino2, f, s, t, newSize, data2);
    forall b: nat | b < BLOCKS && !IsTable(ino3, b) ensures data2[b] == data[b] {
      if b in xs {
        ZeroedAreTables(ino, xs, zs, ino3, b);
      }
    }
    GrownIsReallocated(ino, data, bm, bm', zs, newSize, ino3, data2);
  }

  /** The zeroed blocks are the new tables. */
  lemma ZeroedAreTables(ino: Ino, xs: seq<nat>, zs: seq<nat>, ino': Ino, b: nat)
    requires NBlocks(ino.size) < NBlocks(ino'.size) <= MAXBLOCKS
    requires |xs| == DataPos(NBlocks(ino.size), NBlocks(ino'.size)) && xs <= zs
    requires TablesTaken(ino, NBlocks(ino'.size), zs, ino') && b in xs
    ensures IsTable(ino', b)
  {
    var k :| 0 <= k < |xs| && xs[k] == b;
    assert zs[k] == b;
  }

  /** The table that holds the pointer of position v. */
  function TableSlot(v: nat): nat
  {
    if v < SIND then FINDSLOT else if v < TIND then SINDSLOT else TINDSLOT
  }

  /** Behind the end of the file, new tables hold zeros and old ones what they held before. */
  ghost predicate TailsKept(ino: Ino, data: Blocks, ino': Ino, data': Blocks)
  {
    forall v: nat :: FIND <= v < MAXBLOCKS && NBlocks(ino'.size) <= v && LiveSlot(ino', TableSlot(v)) ==>
      SlotBlock(ino', data', v) == if LiveSlot(ino, TableSlot(v)) then SlotBlock(ino, data, v) else 0
  }

  /** The stored buffers show the working map in all of the live tables. */
  lemma StoredShowsTail(ino: Ino, data: Blocks, f: Buffer, s: Buffer, t: Buffer, data': Blocks, v: nat)
    requires NBlocks(ino.size) <= MAXBLOCKS && TablesApart(ino) && LoadedFor(NBlocks(ino.size), f, s, t)
    requires data' == StoreTables(data, ino, f, s, t, false, false, false)
    requires FIND <= v < MAXBLOCKS && LiveSlot(ino, TableSlot(v))
    ensures SlotBlock(ino, data', v) == WorkAt(ino, data, f, s, t, v)
  {
    var n := NBlocks(ino.size);
    assert n > FIND ==> LiveSlot(ino, FINDSLOT) && TablePtr(ino, FINDSLOT) == ino.find;
    assert n > SIND ==> LiveSlot(ino, SINDSLOT) && TablePtr(ino, SINDSLOT) == ino.sind;
    assert n > TIND ==> LiveSlot(ino, TINDSLOT) && TablePtr(ino, TINDSLOT) == ino.tind;
    assert n > FIND ==> BlockAt(data', ino.find) == Buffered(f, data, ino.find);
    assert n > SIND ==> BlockAt(data', ino.sind) == Buffered(s, data, ino.sind);
    assert n > TIND ==> BlockAt(data', ino.tind) == Buffered(t, data, ino.tind);
  }

  /** A table that was there before is not among the zeroed blocks, and a new one is. */
  lemma ZeroedTail(ino: Ino, data: Blocks, bm: seq<byte>, data1: Blocks, xs: seq<nat>, ino1: Ino, v: nat)
    requires Sound(ino, data, bm) && Zeroed(data, data1, xs) && FIND <= v < MAXBLOCKS
    requires forall k :: 0 <= k < |xs| ==> !Taken(bm, xs[k])
    requires var s := TableSlot(v);
      if LiveSlot(ino, s) then TablePtr(ino1, s) == SlotBlock(ino, data, s)
      else TablePtr(ino1, s) < BLOCKS && TablePtr(ino1, s) in xs
    ensures WorkAt(ino1, data1, Absent, Absent, Absent, v) ==
      if LiveSlot(ino, TableSlot(v)) then SlotBlock(ino, data, v) else 0
  {
    var s := TableSlot(v);
    if LiveSlot(ino, s) {
      OwnHas(ino, data, s);
      assert data1[TablePtr(ino1, s)] == data[TablePtr(ino1, s)];
    } else {
      assert data1[TablePtr(ino1, s)] == ZERO;
      ZeroPtr(v - (if s == FINDSLOT then FIND else if s == SINDSLOT then SIND else TIND));
    }
  }

  lemma ZeroPtr(k: nat)
    requires k < PTRS
    ensures Ptr(ZERO, k) == 0
  {
  }

  lemma GrowthTails(ino: Ino, data: Blocks, bm: seq<byte>, bm': seq<byte>, xs: seq<nat>, data1: Blocks, ino1: Ino,
                    zs: seq<nat>, ino2: Ino, f: Buffer, s: Buffer, t: Buffer, newSize: u32, data2: Blocks)
    requires GrowthSteps(ino, data, bm, bm', xs, data1, ino1, zs, ino2, f, s, t, newSize, data2)
    ensures TailsKept(ino, data, ino2.(size := newSize), data2)
  {
    hide Own, Zeroed, StoreTables, WorkAt, Sound, TookLowest, SlotBlock;
    var n0, n1, ino3 := NBlocks(ino.size), NBlocks(newSize), ino2.(size := newSize);
    GrownTables(ino, data, bm, bm', zs, ino3);
    TookWasFree(bm, bm', xs, zs);
    SameWork(ino2, ino3, data1, f, s, t);
    forall v: nat | FIND <= v < MAXBLOCKS && n1 <= v && LiveSlot(ino3, TableSlot(v))
      ensures SlotBlock(ino3, data2, v) == if LiveSlot(ino, TableSlot(v)) then SlotBlock(ino, data, v) else 0
    {
      StoredShowsTail(ino3, data1, f, s, t, data2, v);
      var q := TableSlot(v);
      assert TablePtr(ino1, q) == TablePtr(ino3, q);
      if !LiveSlot(ino, q) {
        assert xs[AllocPos(n0, n1, q)] == zs[AllocPos(n0, n1, q)];
      }
      ZeroedTail(ino, data, bm, data1, xs, ino1, v);
    }
  }

  /** Giving blocks back writes no table. */
  lemma CutTails(ino: Ino, data: Blocks, bm: seq<byte>, newSize: u32)
    requires Sound(ino, data, bm)
    ensures NBlocks(newSize) <= NBlocks(ino.size) ==> TailsKept(ino, data, ino.(size := newSize), data)
  {
    hide NBlocks, Own;
    var ino' := ino.(size := newSize);
    assert forall v: nat :: v < MAXBLOCKS ==> SlotBlock(ino', data, v) == SlotBlock(ino, data, v);
  }

  lemma SameWork(ino2: Ino, ino3: Ino, data: Blocks, f: Buffer, s: Buffer, t: Buffer)
    requires ino3 == ino2.(size := ino3.size)
    ensures forall v: nat :: v < MAXBLOCKS ==> WorkAt(ino3, data, f, s, t, v) == WorkAt(ino2, data, f, s, t, v)
    ensures StoreTables(data, ino3, f, s, t, false, false, false) ==
      StoreTables(data, ino2, f, s, t, false, false, false)
  {
  }

  // ---------- giving blocks back ----------

  /** The blocks in virtual positions lo to hi-1. */
  ghost function BlocksIn(ino: Ino, data: Blocks, lo: nat, hi: nat): (r: set<nat>)
    requires hi <= MAXBLOCKS
  {
    set v: nat | lo <= v < hi :: SlotBlock(ino, data, v)
  }

  lemma BlocksInGrows(ino: Ino, data: Blocks, lo: nat, hi: nat)
    requires lo <= hi < MAXBLOCKS
    ensures BlocksIn(ino, data, lo, hi + 1) == BlocksIn(ino, data, lo, hi) + {SlotBlock(ino, data, hi)}
  {
    forall b | b in BlocksIn(ino, data, lo, hi + 1)
      ensures b in BlocksIn(ino, data, lo, hi) + {SlotBlock(ino, data, hi)}
    {
      var v: nat :| lo <= v < hi + 1 && SlotBlock(ino, data, v) == b;
    }
  }

  /** The buffers hold what is on disk. */
  ghost predicate Clean(ino: Ino, data: Blocks, f: Buffer, s: Buffer, t: Buffer)
  {
    && (f.Loaded? ==> f.tab == BlockAt(data, ino.find))
    && (s.Loaded? ==> s.tab == BlockAt(data, ino.sind))
    && (t.Loaded? ==> t.tab == BlockAt(data, ino.tind))
  }

  /** The address of virtual block i, through the buffered tables (computer/fs_falloc.go:199-240). */
  method BlockAddress(fs: FileSystem, inode: Inode, i: u32, f0: Buffer, s0: Buffer, t0: Buffer)
    returns (addr: u32, f: Buffer, s: Buffer, t: Buffer)
    requires fs.Valid() && i < MAXBLOCKS && Clean(inode.Val(), fs.data, f0, s0, t0)
    ensures addr == SlotBlock(inode.Val(), fs.data, i) && Clean(inode.Val(), fs.data, f, s, t)
    ensures LoadedFor(i, f0, s0, t0) ==> LoadedFor(i + 1, f, s, t)
  {
    hide Ptr, Shows;
    f, s, t := f0, s0, t0;
    var (rel, place) := VirtualToPlaceRelative(i);
    if place == 0 {
      addr := inode.direct[rel];
    } else if place == 1 {
      var tab := LoadTable(fs, f0, inode.find);
      f, addr := Loaded(tab), Ptr(tab, rel);
    } else if place == 2 {
      var tab := LoadTable(fs, s0, inode.sind);
      s, addr := Loaded(tab), Ptr(tab, rel);
    } else {
      var tab := LoadTable(fs, t0, inode.tind);
      t, addr := Loaded(tab), Ptr(tab, rel);
    }
  }

  method ShrinkBlocks(fs: FileSystem, inode: Inode, bm: array<byte>, n1: nat, n0: nat)
    returns (f: Buffer, s: Buffer, t: Buffer)
    requires fs.Valid() && bm != fs.disk.buf && n1 <= n0 <= MAXBLOCKS && bm.Length == BLOCKSIZE
    requires forall v: nat :: v < n0 ==> SlotBlock(inode.Val(), fs.data, v) < BLOCKS
    modifies bm
    ensures forall b: nat :: Taken(bm[..], b) <==> Taken(old(bm[..]), b) && b !in BlocksIn(inode.Val(), fs.data, n1, n0)
    ensures Clean(inode.Val(), fs.data, f, s, t)
  {
    hide SlotBlock, Shows, BlocksIn;
    f, s, t := Absent, Absent, Absent;
    ghost var ino, data := inode.Val(), fs.data;
    BlocksInNone(ino, data, n1);
    for i := n1 to n0
      invariant forall b: nat :: Taken(bm[..], b) <==> Taken(old(bm[..]), b) && b !in BlocksIn(ino, data, n1, i)
      invariant Clean(ino, data, f, s, t)
    {
      var addr;
      addr, f, s, t := BlockAddress(fs, inode, i, f, s, t);
      BlocksInGrows(ino, data, n1, i);
      ClearBit(bm, addr);
    }
  }

  lemma BlocksInNone(ino: Ino, data: Blocks, n: nat)
    requires n <= MAXBLOCKS
    ensures BlocksIn(ino, data, n, n) == {}
  {
  }

  /** The tables given back when n0 blocks become n1. */
  ghost function DeadTables(ino: Ino, n1: nat, n0: nat): set<nat>
  {
    (if n0 > TIND && n1 <= TIND then {ino.tind as nat} else {}) +
    (if n0 > SIND && n1 <= SIND then {ino.sind as nat} else {}) +
    (if n0 > FIND && n1 <= FIND then {ino.find as nat} else {})
  }

  /** (computer/fs_falloc.go:246-257) */
  method FreeTables(inode: Inode, bm: array<byte>, n1: nat, n0: nat)
    returns (findFreed: bool, sindFreed: bool, tindFreed: bool)
    requires bm.Length == BLOCKSIZE
    requires forall b :: b in DeadTables(inode.Val(), n1, n0) ==> b < BLOCKS
    modifies bm
    ensures forall b: nat :: Taken(bm[..], b) <==> Taken(old(bm[..]), b) && b !in DeadTables(inode.Val(), n1, n0)
  {
    findFreed, sindFreed, tindFreed := false, false, false;
    assert n0 > TIND && n1 <= TIND ==> inode.tind in DeadTables(inode.Val(), n1, n0);
    assert n0 > SIND && n1 <= SIND ==> inode.sind in DeadTables(inode.Val(), n1, n0);
    assert n0 > FIND && n1 <= FIND ==> inode.find in DeadTables(inode.Val(), n1, n0);
    if n0 > TIND && n1 <= TIND {
      ClearBit(bm, inode.tind);
      tindFreed := true;
    }
    if n0 > SIND && n1 <= SIND {
      ClearBit(bm, inode.sind);
      sindFreed := true;
    }
    if n0 > FIND && n1 <= FIND {
      ClearBit(bm, inode.find);
      findFreed := true;
    }
  }

  /** What the loop and the table releases give back is what the smaller inode no longer owns. */
  lemma GivenBack(ino: Ino, data: Blocks, newSize: u32, b: nat)
    requires WF(ino, data) && NBlocks(newSize) < NBlocks(ino.size)
    ensures b in Own(ino.(size := newSize), data) <==>
      b in Own(ino, data) && b !in BlocksIn(ino, data, NBlocks(newSize), NBlocks(ino.size)) &&
        b !in DeadTables(ino, NBlocks(newSize), NBlocks(ino.size))
    ensures b in BlocksIn(ino, data, NBlocks(newSize), NBlocks(ino.size)) ==> b in Own(ino, data)
    ensures b in DeadTables(ino, NBlocks(newSize), NBlocks(ino.size)) ==> b in Own(ino, data)
  {
    var n1, n0, ino' := NBlocks(newSize), NBlocks(ino.size), ino.(size := newSize);
    assert forall s: nat :: LiveSlot(ino', s) ==>
      LiveSlot(ino, s) && SlotBlock(ino', data, s) == SlotBlock(ino, data, s);
    if b in BlocksIn(ino, data, n1, n0) {
      var v: nat :| n1 <= v < n0 && SlotBlock(ino, data, v) == b;
      OwnHas(ino, data, v);
      if b in Own(ino', data) {
        var s := SlotOf(ino', data, b);
        assert false;
      }
    } else if b in DeadTables(ino, n1, n0) {
      var v := if n0 > TIND && n1 <= TIND && b == ino.tind then TINDSLOT
               else if n0 > SIND && n1 <= SIND && b == ino.sind then SINDSLOT else FINDSLOT;
      assert LiveSlot(ino, v) && !LiveSlot(ino', v) && SlotBlock(ino, data, v) == b;
      OwnHas(ino, data, v);
      if b in Own(ino', data) {
        var s := SlotOf(ino', data, b);
        assert false;
      }
    } else if b in Own(ino, data) {
      var s := SlotOf(ino, data, b);
      assert LiveSlot(ino', s);
      OwnHas(ino', data, s);
    } else if b in Own(ino', data) {
      var s := SlotOf(ino', data, b);
      OwnHas(ino, data, s);
    }
  }

  lemma ShrunkIsReallocated(ino: Ino, data: Blocks, bm: seq<byte>, bm': seq<byte>, newSize: u32)
    requires Sound(ino, data, bm) && NBlocks(newSize) < NBlocks(ino.size) && |bm'| == |bm|
    requires forall b: nat :: Taken(bm', b) <==>
      && Taken(bm, b)
      && b !in BlocksIn(ino, data, NBlocks(newSize), NBlocks(ino.size))
      && b !in DeadTables(ino, NBlocks(newSize), NBlocks(ino.size))
    ensures Reallocated(ino, data, bm, newSize, ino.(size := newSize), data, bm')
    ensures FirstFit(ino, bm', ino.(size := newSize), data)
  {
    var ino' := ino.(size := newSize);
    assert forall s: nat :: LiveSlot(ino', s) ==>
      LiveSlot(ino, s) && SlotBlock(ino', data, s) == SlotBlock(ino, data, s);
    forall b: nat
      ensures Taken(bm', b) <==> (Taken(bm, b) && b !in Own(ino, data)) || b in Own(ino', data)
      ensures b in Own(ino', data) ==> b in Own(ino, data)
    {
      GivenBack(ino, data, newSize, b);
    }
  }

  /** Writing clean buffers back changes nothing. */
  lemma CleanWriteBack(ino: Ino, data: Blocks, f: Buffer, s: Buffer, t: Buffer, a: bool, b: bool, c: bool)
    requires Clean(ino, data, f, s, t)
    ensures StoreTables(data, ino, f, s, t, a, b, c) == data
  {
    assert StoreTable(data, ino.find, f, a) == data;
    assert StoreTable(data, ino.sind, s, b) == data;
    assert StoreTable(data, ino.tind, t, c) == data;
  }

  lemma SameBlocksIsReallocated(ino: Ino, data: Blocks, bm: seq<byte>, newSize: u32)
    requires Sound(ino, data, bm) && NBlocks(newSize) == NBlocks(ino.size)
    ensures Reallocated(ino, data, bm, newSize, ino.(size := newSize), data, bm)
    ensures FirstFit(ino, bm, ino.(size := newSize), data)
  {
    var ino' := ino.(size := newSize);
    assert forall s: nat :: LiveSlot(ino', s) == LiveSlot(ino, s);
    assert Own(ino', data) == Own(ino, data);
  }

  // ---------- Falloc ----------

  /** (computer/fs_falloc.go:99-186) */
  method Grow(fs: FileSystem, inode: Inode, bm: array<byte>, newSize: u32)
    returns (ok: bool, f: Buffer, s: Buffer, t: Buffer, ghost zs: seq<u32>, ghost xs: seq<u32>, ghost ino1: Ino)
    requires fs.Valid() && bm != fs.disk.buf && bm.Length == BLOCKSIZE && HighBitsSet(bm[..])
    requires NBlocks(inode.size) < NBlocks(newSize) <= MAXBLOCKS
    modifies inode`direct, inode`find, inode`sind, inode`tind, bm, fs`data, fs.disk.buf
    ensures fs.Valid()
    ensures !ok <==> |Free(old(bm[..]))| < Need(NBlocks(newSize)) - Need(NBlocks(inode.size))
    ensures ok ==> TookLowest(old(bm[..]), bm[..], zs) && xs <= zs && Zeroed(old(fs.data), fs.data, xs)
    ensures ok ==> |xs| == DataPos(NBlocks(inode.size), NBlocks(newSize))
    ensures ok ==> |zs| == |xs| + NBlocks(newSize) - NBlocks(inode.size)
    ensures ok ==> TablesTaken(old(inode.Val()), NBlocks(newSize), zs, ino1)
    ensures ok ==> ino1 == old(inode.Val()).(find := ino1.find, sind := ino1.sind, tind := ino1.tind)
    ensures ok ==> inode.Val() == ino1.(direct := inode.direct)
    ensures ok ==> LoadedFor(NBlocks(newSize), f, s, t)
    ensures ok ==> forall v: nat :: v < MAXBLOCKS ==>
      WorkAt(inode.Val(), fs.data, f, s, t, v) ==
        if NBlocks(inode.size) <= v < NBlocks(newSize) then zs[|xs| + v - NBlocks(inode.size)] else WorkAt(ino1,
            fs.data, Absent, Absent, Absent, v)
  {
    hide TookLowest, Zeroed, WorkAt, Shows, Free, HighBitsSet, NBlocks, LoadedFor, Bit;
    var n0, n1 := NBlocks(inode.size), NBlocks(newSize);
    ghost var bm0 := bm[..];
    f, s, t, zs, ino1 := Absent, Absent, Absent, [], inode.Val();
    var a, b, c;
    ok, c, b, a, xs := AllocTables(fs, bm, n0, n1, inode.tind, inode.sind, inode.find);
    if !ok {
      return;
    }
    inode.tind, inode.sind, inode.find := c, b, a;
    ino1 := inode.Val();
    ok, f, s, t, zs := GrowBlocks(fs, inode, bm, n0, n1, bm0, xs);
    if ok {
      TookCount(bm0, bm[..], zs);
    }
  }

  /** (computer/fs_falloc.go:188-259) */
  method Shrink(fs: FileSystem, inode: Inode, bm: array<byte>, newSize: u32)
    returns (f: Buffer, s: Buffer, t: Buffer, findFreed: bool, sindFreed: bool, tindFreed: bool)
    requires fs.Valid() && bm != fs.disk.buf && Sound(inode.Val(), fs.data, bm[..])
    requires NBlocks(newSize) < NBlocks(inode.size)
    modifies bm
    ensures Clean(inode.Val(), fs.data, f, s, t)
    ensures Reallocated(inode.Val(), fs.data, old(bm[..]), newSize, inode.Val().(size := newSize), fs.data, bm[..])
    ensures FirstFit(inode.Val(), bm[..], inode.Val().(size := newSize), fs.data)
  {
    hide Shows, BlocksIn, SlotBlock, Reallocated, FirstFit;
    ghost var ino, bm0 := inode.Val(), bm[..];
    forall v: nat | v < NBlocks(ino.size) ensures SlotBlock(ino, fs.data, v) < BLOCKS {
      assert LiveSlot(ino, v);
    }
    f, s, t := ShrinkBlocks(fs, inode, bm, NBlocks(newSize), NBlocks(inode.size));
    forall b: nat | b in DeadTables(ino, NBlocks(newSize), NBlocks(ino.size)) ensures b < BLOCKS {
      GivenBack(ino, fs.data, newSize, b);
      var q := SlotOf(ino, fs.data, b);
    }
    findFreed, sindFreed, tindFreed := FreeTables(inode, bm, NBlocks(newSize), NBlocks(inode.size));
    ShrunkIsReallocated(ino, fs.data, bm0, bm[..], newSize);
  }

  method Falloc(fs: FileSystem, inode: Inode, newSize: u32) returns (r: FallocResult)
    requires fs.Valid() && Sound(inode.Val(), fs.data, fs.dbm)
    modifies inode, fs`data, fs`dbm, fs.disk.buf
    ensures fs.Valid() && inode.dirty && inode.num == old(inode.num)
    ensures r == TooBig <==> NBlocks(newSize) > MAXBLOCKS && NBlocks(newSize) > NBlocks(old(inode.size))
    ensures r == TooBig ==> inode.Val() == old(inode.Val()) && fs.data == old(fs.data) && fs.dbm == old(fs.dbm)
    ensures r == Panicked <==>
      r != TooBig && |Free(old(fs.dbm))| + Need(NBlocks(old(inode.size))) < Need(NBlocks(newSize))
    ensures r == Panicked ==> fs.dbm == old(fs.dbm)
    ensures r == Done ==>
      Reallocated(old(inode.Val()), old(fs.data), old(fs.dbm), newSize, inode.Val(), fs.data, fs.dbm)
    ensures r == Done ==> FirstFit(old(inode.Val()), fs.dbm, inode.Val(), fs.data)
    ensures r == Done ==> TailsKept(old(inode.Val()), old(fs.data), inode.Val(), fs.data)
  {
    hide Reallocated, FirstFit, TailsKept, StoreTables, TookLowest, Zeroed, WorkAt, Shows, Free, TablesTaken, LoadedFor,
      Clean, Own, WF, SlotBlock;
    inode.dirty := true;
    var totalBlocksNeeded := NBlocks(newSize);
    var numOfCurrentBlocks := NBlocks(inode.size);
    ghost var ino, data, dbm := inode.Val(), fs.data, fs.dbm;
    CutTails(ino, data, dbm, newSize);
    if totalBlocksNeeded == numOfCurrentBlocks {
      inode.size := newSize;
      SameBlocksIsReallocated(ino, data, dbm, newSize);
      return Done;
    }
    var dataBitmapBuf := new byte[BLOCKSIZE](_ => 0);
    fs.ReadDataBitmap(dataBitmapBuf);
    if totalBlocksNeeded > numOfCurrentBlocks {
      if totalBlocksNeeded > MAXBLOCKS {
        return TooBig;
      }
      var ok, f, s, t;
      ghost var zs, xs, ino1;
      ok, f, s, t, zs, xs, ino1 := Grow(fs, inode, dataBitmapBuf, newSize);
      if !ok {
        return Panicked;
      }
      ghost var data1 := fs.data;
      WriteBack(fs, inode, f, s, t, false, false, false);
      GrowAssembles(ino, data, dbm, dataBitmapBuf[..], xs, data1, ino1, zs, inode.Val(), f, s, t, newSize, fs.data);
      GrowthTails(ino, data, dbm, dataBitmapBuf[..], xs, data1, ino1, zs, inode.Val(), f, s, t, newSize, fs.data);
      inode.size := newSize;
      fs.WriteDataBitmap(dataBitmapBuf);
    } else {
      var f, s, t, findFreed, sindFreed, tindFreed := Shrink(fs, inode, dataBitmapBuf, newSize);
      CleanWriteBack(ino, data, f, s, t, findFreed, sindFreed, tindFreed);
      WriteBack(fs, inode, f, s, t, findFreed, sindFreed, tindFreed);
      inode.size := newSize;
      fs.WriteDataBitmap(dataBitmapBuf);
    }
    return Done;
  }
}

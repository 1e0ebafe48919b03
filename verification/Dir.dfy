/** Directories: fixed 64-byte entries in the data blocks of a directory inode (computer/fs_dir.go). */
module Dir {
  import opened Bytes
  import opened Bitmap
  import opened Layout
  import opened Inodes
  import opened BlockMap
  import opened Disk
  import opened Allocator
  import opened Volume
  import opened Files

  const ENTRYSIZE := 64
  const PERBLOCK := 64
  const MAXNAME := 55

  type Name = seq<byte>

  datatype Option<+T> = None | Some(value: T)

  datatype DirEntry = DirEntry(inum: u32, name: Name)

  /** One 64-byte entry; it is free when its inode number is 0. */
  type Slot = s: seq<byte> | |s| == ENTRYSIZE witness Fill(ENTRYSIZE, 0)

  predicate IsFree(s: Slot)
  {
    Get32(s, 0) == 0
  }

  /** The name length byte stays within the entry. */
  predicate SlotOk(s: Slot)
  {
    IsFree(s) || s[4] <= MAXNAME
  }

  function SlotName(s: Slot): Name
  {
    if s[4] <= MAXNAME then s[8..8 + s[4]] else []
  }

  function EntryOf(s: Slot): Option<DirEntry>
  {
    if IsFree(s) then None else Some(DirEntry(Get32(s, 0), SlotName(s)))
  }

  const FREESLOT: Slot := Fill(ENTRYSIZE, 0)

  datatype EncodeResult = Encoded(slot: Slot) | NameTooLong | InvalidInum

  function EntrySlot(e: DirEntry): Slot
    requires |e.name| <= MAXNAME
  {
    Enc32(e.inum) + [|e.name|] + [0, 0, 0] + e.name + Fill(ENTRYSIZE - 8 - |e.name|, 0)
  }

  /** An encoded entry decodes to itself. */
  lemma EntryRoundTrip(e: DirEntry)
    requires |e.name| <= MAXNAME && e.inum != 0
    ensures EntryOf(EntrySlot(e)) == Some(e) && SlotOk(EntrySlot(e))
  {
    var s := EntrySlot(e);
    assert s[0..4] == Enc32(e.inum);
    Get32OfSlice(s, 0, e.inum);
    assert s[4] == |e.name| && s[8..8 + |e.name|] == e.name;
  }

  /** encodeDirEntry fills a zeroed 64-byte buffer (computer/fs_dir.go:8-32). */
  method EncodeDirEntry(dentry: DirEntry) returns (r: EncodeResult)
    ensures r.NameTooLong? <==> |dentry.name| > MAXNAME
    ensures r.InvalidInum? <==> |dentry.name| <= MAXNAME && dentry.inum == 0
    ensures r.Encoded? ==> r.slot == EntrySlot(dentry) && EntryOf(r.slot) == Some(dentry)
  {
    var buffer: Slot := FREESLOT;
    if |dentry.name| > MAXNAME {
      return NameTooLong;
    }
    if dentry.inum == 0 {
      return InvalidInum;
    }
    buffer := Splice(buffer, 0, Enc32(dentry.inum));
    buffer := buffer[4 := |dentry.name|];
    buffer := Splice(buffer, 8, dentry.name);
    assert buffer == EntrySlot(dentry) by {
      var e := EntrySlot(dentry);
      forall k | 0 <= k < ENTRYSIZE ensures buffer[k] == e[k] {
      }
    }
    EntryRoundTrip(dentry);
    return Encoded(buffer);
  }

  // ---------- lists of slots ----------

  /** The used slots in order. */
  function Entries(slots: seq<Slot>): (r: seq<DirEntry>)
    ensures |r| <= |slots|
  {
    if slots == [] then []
    else
      var k := |slots| - 1;
      Entries(slots[..k]) + if IsFree(slots[k]) then [] else [EntryOf(slots[k]).value]
  }

  lemma {:induction false} NoEntries(slots: seq<Slot>)
    ensures Entries(slots) == [] <==> forall q :: 0 <= q < |slots| ==> IsFree(slots[q])
  {
    if slots != [] {
      var k := |slots| - 1;
      NoEntries(slots[..k]);
      assert forall q :: 0 <= q < k ==> slots[..k][q] == slots[q];
    }
  }

  lemma {:induction false} EntriesConcat(a: seq<Slot>, b: seq<Slot>)
    ensures Entries(a + b) == Entries(a) + Entries(b)
  {
    if b == [] {
      assert a + b == a;
    } else {
      var k := |b| - 1;
      EntriesConcat(a, b[..k]);
      LastOfConcat(a, b);
      ConcatAssociative(Entries(a), Entries(b[..k]), if IsFree(b[k]) then [] else [EntryOf(b[k]).value]);
    }
  }

  lemma LastOfConcat(a: seq<Slot>, b: seq<Slot>)
    requires b != []
    ensures (a + b)[..|a + b| - 1] == a + b[..|b| - 1] && (a + b)[|a + b| - 1] == b[|b| - 1]
  {
  }

  lemma ConcatAssociative(a: seq<DirEntry>, b: seq<DirEntry>, c: seq<DirEntry>)
    ensures a + (b + c) == a + b + c
  {
  }

  lemma EntriesOfThree(a: seq<Slot>, s: Slot, b: seq<Slot>)
    ensures Entries(a + ([s] + b)) == Entries(a) + Entries([s]) + Entries(b)
  {
    hide Entries;
    EntriesConcat(a, [s] + b);
    EntriesConcat([s], b);
    ConcatAssociative(Entries(a), Entries([s]), Entries(b));
  }

  lemma SplitAround(slots: seq<Slot>, k: nat)
    requires k < |slots|
    ensures slots == slots[..k] + ([slots[k]] + slots[k + 1..])
  {
  }

  /** The entries around slot k. */
  lemma EntriesAround(slots: seq<Slot>, k: nat)
    requires k < |slots|
    ensures Entries(slots) == Entries(slots[..k]) + Entries([slots[k]]) + Entries(slots[k + 1..])
  {
    hide Entries;
    SplitAround(slots, k);
    EntriesOfThree(slots[..k], slots[k], slots[k + 1..]);
  }

  /** Slot k is the first free one; k is the length when there is none. */
  ghost predicate FirstFree(slots: seq<Slot>, k: nat)
  {
    && k <= |slots|
    && (forall q :: 0 <= q < k ==> !IsFree(slots[q]))
    && (k < |slots| ==> IsFree(slots[k]))
  }

  predicate Named(s: Slot, name: Name)
  {
    !IsFree(s) && SlotName(s) == name
  }

  /** Slot k is the first used one with this name; k is the length when there is none. */
  ghost predicate FirstNamed(slots: seq<Slot>, name: Name, k: nat)
  {
    && k <= |slots|
    && (forall q :: 0 <= q < k ==> !Named(slots[q], name))
    && (k < |slots| ==> Named(slots[k], name))
  }

  /** Filling a free slot adds one entry at its place and nothing else. */
  lemma FillAddsOne(slots: seq<Slot>, k: nat, s: Slot)
    requires k < |slots| && IsFree(slots[k]) && !IsFree(s)
    ensures var before, after := Entries(slots[..k]), Entries(slots[k + 1..]);
      && Entries(slots) == before + after
      && Entries(slots[k := s]) == before + [EntryOf(s).value] + after
  {
    hide Entries, EntryOf;
    var slots' := slots[k := s];
    EntriesAround(slots, k);
    EntriesAround(slots', k);
    assert slots'[..k] == slots[..k] && slots'[k + 1..] == slots[k + 1..];
    EntriesOne(slots[k]);
    EntriesOne(s);
  }

  lemma EntriesOne(s: Slot)
    ensures Entries([s]) == if IsFree(s) then [] else [EntryOf(s).value]
  {
    assert [s][..0] == [];
  }

  /** Clearing a used slot removes its entry and keeps the others in order. */
  lemma ClearRemovesOne(slots: seq<Slot>, k: nat)
    requires k < |slots| && !IsFree(slots[k])
    ensures var before, after := Entries(slots[..k]), Entries(slots[k + 1..]);
      && Entries(slots) == before + [EntryOf(slots[k]).value] + after
      && Entries(slots[k := FREESLOT]) == before + after
  {
    hide Entries, EntryOf;
    var slots' := slots[k := FREESLOT];
    FreeSlotIsFree();
    EntriesAround(slots, k);
    EntriesAround(slots', k);
    assert slots'[..k] == slots[..k] && slots'[k + 1..] == slots[k + 1..];
    EntriesOne(slots[k]);
    EntriesOne(FREESLOT);
  }

  lemma FreeSlotIsFree()
    ensures IsFree(FREESLOT)
  {
  }

  // ---------- the slots of a directory ----------

  function BlkSlot(blk: Block, k: nat): Slot
    requires k < PERBLOCK
  {
    blk[ENTRYSIZE * k..ENTRYSIZE * k + ENTRYSIZE]
  }

  function BlkSlots(blk: Block): (r: seq<Slot>)
    ensures |r| == PERBLOCK
  {
    seq(PERBLOCK, k requires 0 <= k < PERBLOCK => BlkSlot(blk, k))
  }

  /** All slots of the directory in block and slot order. */
  ghost function Slots(ino: Ino, data: Blocks): (r: seq<Slot>)
    requires NBlocks(ino.size) <= MAXBLOCKS
    ensures |r| == PERBLOCK * NBlocks(ino.size)
  {
    seq(PERBLOCK * NBlocks(ino.size), q requires 0 <= q < PERBLOCK * NBlocks(ino.size) =>
      BlkSlot(BlockAt(data, SlotBlock(ino, data, q / PERBLOCK)), q % PERBLOCK))
  }

  lemma SlotsOfBlock(ino: Ino, data: Blocks, i: nat)
    requires i < NBlocks(ino.size) <= MAXBLOCKS
    ensures forall q :: PERBLOCK * i <= q < PERBLOCK * i + PERBLOCK ==>
      Slots(ino, data)[q] == BlkSlots(BlockAt(data, SlotBlock(ino, data, i)))[q - PERBLOCK * i]
    ensures Slots(ino, data)[..PERBLOCK * i + PERBLOCK] ==
      Slots(ino, data)[..PERBLOCK * i] + BlkSlots(BlockAt(data, SlotBlock(ino, data, i)))
  {
    var ss, bs := Slots(ino, data), BlkSlots(BlockAt(data, SlotBlock(ino, data, i)));
    forall q | PERBLOCK * i <= q < PERBLOCK * i + PERBLOCK ensures ss[q] == bs[q - PERBLOCK * i] {
      assert q / PERBLOCK == i && q % PERBLOCK == q - PERBLOCK * i;
    }
  }

  ghost predicate DirOk(slots: seq<Slot>)
  {
    forall q :: 0 <= q < |slots| ==> SlotOk(slots[q])
  }

  /** Replacing slot k of block i replaces slot 64i+k of the directory. */
  lemma SlotReplaced(ino: Ino, data: Blocks, i: nat, k: nat, s: Slot)
    requires WF(ino, data) && i < NBlocks(ino.size) && k < PERBLOCK
    ensures var b := SlotBlock(ino, data, i);
      b < BLOCKS &&
      var data' := data[b := Splice(data[b], ENTRYSIZE * k, s)];
      SameMap(ino, data, data') && Slots(ino, data') == Slots(ino, data)[PERBLOCK * i + k := s]
  {
    assert LiveSlot(ino, i);
    var b := SlotBlock(ino, data, i);
    OwnHas(ino, data, i);
    assert !IsTable(ino, b);
    var blk := Splice(data[b], ENTRYSIZE * k, s);
    var data' := data[b := blk];
    OwnFrame(ino, data, data');
    var ss, ss' := Slots(ino, data), Slots(ino, data');
    forall q | 0 <= q < |ss| ensures ss'[q] == ss[PERBLOCK * i + k := s][q] {
      assert LiveSlot(ino, q / PERBLOCK);
      if q / PERBLOCK == i {
        BlkSlotSpliced(data[b], k, s, q % PERBLOCK);
      } else {
        assert SlotBlock(ino, data, q / PERBLOCK) != b;
      }
    }
  }

  lemma BlkSlotSpliced(blk: Block, k: nat, s: Slot, j: nat)
    requires k < PERBLOCK && j < PERBLOCK
    ensures BlkSlot(Splice(blk, ENTRYSIZE * k, s), j) == if j == k then s else BlkSlot(blk, j)
  {
  }

  // ---------- visiting the blocks ----------

  /** iterBlocks up to the callback: the block in virtual position i, through the cached tables
      (computer/fs_inode.go:206-244). */
  method VisitBlock(fs: FileSystem, inode: Inode, i: u32, f0: Buffer, s0: Buffer, t0: Buffer, ghost data0: Blocks)
    returns (blockNum: u32, blk: Block, f: Buffer, s: Buffer, t: Buffer)
    requires fs.Valid() && i < NBlocks(inode.size) <= MAXBLOCKS
    requires WF(inode.Val(), data0) && SameMap(inode.Val(), data0, fs.data)
    requires Clean(inode.Val(), fs.data, f0, s0, t0)
    ensures blockNum == SlotBlock(inode.Val(), data0, i) && blockNum < BLOCKS && blk == fs.data[blockNum]
    ensures Clean(inode.Val(), fs.data, f, s, t)
    ensures LoadedFor(i, f0, s0, t0) ==> LoadedFor(i + 1, f, s, t)
  {
    hide Shows, Own;
    assert LiveSlot(inode.Val(), i);
    blockNum, f, s, t := BlockAddress(fs, inode, i, f0, s0, t0);
    var ok;
    blk, ok := fs.ReadDataBlock(blockNum);
  }

  // The source takes a name from its slot on to the end of the block and cuts it in 8-bit arithmetic, so a length byte
  // above 55, which encodeDirEntry never writes but a recycled block may hold, makes a name run into later slots or
  // panics.

  /** Where the name of slot i ends, seen from the start of the slot. */
  function NameEnd(block: Block, i: nat): nat
    requires i < PERBLOCK
  {
    (block[ENTRYSIZE * i + 4] as nat + 8) % 0x100
  }

  /** Slot i is used and its name cannot be sliced out of the block. */
  predicate BadName(block: Block, i: nat)
    requires i < PERBLOCK
  {
    Get32(block, ENTRYSIZE * i) != 0 && (NameEnd(block, i) < 8 || ENTRYSIZE * i + NameEnd(block, i) > BLOCKSIZE)
  }

  /** What the first n slots decode to, long names included. */
  function Decoded(block: Block, n: nat): seq<DirEntry>
    requires n <= PERBLOCK && forall i :: 0 <= i < n ==> !BadName(block, i)
  {
    if n == 0 then []
    else
      var i := n - 1;
      assert !BadName(block, i);
      Decoded(block, i) +
      if Get32(block, ENTRYSIZE * i) == 0 then []
      else [DirEntry(Get32(block, ENTRYSIZE * i), block[ENTRYSIZE * i + 8..ENTRYSIZE * i + NameEnd(block, i)])]
  }

  /** In a block without long names that is the listing. */
  lemma {:induction false} DecodedIsEntries(block: Block, n: nat)
    requires n <= PERBLOCK && DirOk(BlkSlots(block))
    ensures (forall i :: 0 <= i < n ==> !BadName(block, i)) && Decoded(block, n) == Entries(BlkSlots(block)[..n])
  {
    if n > 0 {
      var i := n - 1;
      DecodedIsEntries(block, i);
      OneMoreEntry(block, i);
      OneMoreDecoded(block, i);
    }
  }

  lemma OneMoreEntry(block: Block, i: nat)
    requires i < PERBLOCK && DirOk(BlkSlots(block))
    ensures var ss, s := BlkSlots(block), BlkSlot(block, i);
      SlotOk(s) && Entries(ss[..i + 1]) == Entries(ss[..i]) + if IsFree(s) then [] else [EntryOf(s).value]
  {
    hide EntryOf, IsFree, SlotOk, BlkSlot;
    var ss := BlkSlots(block);
    assert ss[i] == BlkSlot(block, i) && SlotOk(ss[i]);
    assert ss[..i + 1][..i] == ss[..i];
  }

  lemma OneMoreDecoded(block: Block, i: nat)
    requires i < PERBLOCK && SlotOk(BlkSlot(block, i)) && forall j :: 0 <= j < i ==> !BadName(block, j)
    ensures (forall j :: 0 <= j < i + 1 ==> !BadName(block, j))
    ensures Decoded(block, i + 1) ==
      Decoded(block, i) + if IsFree(BlkSlot(block, i)) then [] else [EntryOf(BlkSlot(block, i)).value]
  {
    hide BlkSlot, Get32, SlotName, NameEnd;
    SlotInBlock(block, i);
  }

  lemma DecodedNone(block: Block)
    ensures Decoded(block, 0) == []
  {
  }

  lemma DecodedOne(block: Block, i: nat)
    requires i < PERBLOCK && forall j :: 0 <= j < i ==> !BadName(block, j)
    ensures !BadName(block, i) && Get32(block, ENTRYSIZE * i) == 0 ==> Decoded(block, i + 1) == Decoded(block, i)
    ensures !BadName(block, i) && Get32(block, ENTRYSIZE * i) != 0 ==>
      (var name := block[ENTRYSIZE * i + 8..ENTRYSIZE * i + NameEnd(block, i)];
       Decoded(block, i + 1) == Decoded(block, i) + [DirEntry(Get32(block, ENTRYSIZE * i), name)])
  {
    hide Get32;
  }

  lemma DecodedWhenOk(block: Block)
    ensures DirOk(BlkSlots(block)) ==>
      (forall i :: 0 <= i < PERBLOCK ==> !BadName(block, i)) && Decoded(block, PERBLOCK) == Entries(BlkSlots(block))
  {
    hide Entries, BlkSlots, DirOk, Get32;
    if DirOk(BlkSlots(block)) {
      DecodedIsEntries(block, PERBLOCK);
      assert BlkSlots(block)[..PERBLOCK] == BlkSlots(block);
    }
  }

  lemma SlotInBlock(block: Block, i: nat)
    requires i < PERBLOCK && SlotOk(BlkSlot(block, i))
    ensures var s := BlkSlot(block, i);
      Get32(s, 0) == Get32(block, ENTRYSIZE * i) &&
      (!IsFree(s) ==> !BadName(block, i) && SlotName(s) == block[ENTRYSIZE * i + 8..ENTRYSIZE * i + NameEnd(block, i)])
  {
    var s := BlkSlot(block, i);
    assert forall j :: 0 <= j < ENTRYSIZE ==> s[j] == block[ENTRYSIZE * i + j];
  }

  /** decodeDirEntries (computer/fs_dir.go:34-59): the entries of the used slots in order, or a panic iff some used slot
      has a name that cannot be sliced. */
  method DecodeDirEntries(block: Block) returns (dirEntries: seq<DirEntry>, panicked: bool)
    ensures panicked <==> exists i :: 0 <= i < PERBLOCK && BadName(block, i)
    ensures !panicked ==> dirEntries == Decoded(block, PERBLOCK)
    ensures DirOk(BlkSlots(block)) ==> !panicked && dirEntries == Entries(BlkSlots(block))
  {
    hide Entries, BlkSlots, DirOk, Get32, Decoded;
    DecodedWhenOk(block);
    dirEntries := [];
    DecodedNone(block);
    for i := 0 to PERBLOCK
      invariant (forall q :: 0 <= q < i ==> !BadName(block, q)) && dirEntries == Decoded(block, i)
    {
      DecodedOne(block, i);
      var inum := Get32(block, ENTRYSIZE * i);
      if inum == 0 {
        continue;
      }
      var nameEnd: nat := (block[ENTRYSIZE * i + 4] as nat + 8) % 0x100;
      if nameEnd < 8 || ENTRYSIZE * i + nameEnd > BLOCKSIZE {
        assert BadName(block, i);
        return dirEntries, true;
      }
      dirEntries := dirEntries + [DirEntry(inum, block[ENTRYSIZE * i + 8..ENTRYSIZE * i + nameEnd])];
    }
    panicked := false;
  }

  /** The i-th block of a directory. */
  ghost function DirBlock(ino: Ino, data: Blocks, i: nat): Block
    requires i < MAXBLOCKS
  {
    BlockAt(data, SlotBlock(ino, data, i))
  }

  /** Some used slot of the block has a name that cannot be sliced. */
  ghost predicate BadBlock(block: Block)
  {
    exists i :: 0 <= i < PERBLOCK && BadName(block, i)
  }

  /** What the first n blocks of a directory decode to. */
  ghost function DecodedBlocks(ino: Ino, data: Blocks, n: nat): seq<DirEntry>
    requires n <= MAXBLOCKS && forall i :: 0 <= i < n ==> !BadBlock(DirBlock(ino, data, i))
  {
    if n == 0 then []
    else
      assert !BadBlock(DirBlock(ino, data, n - 1));
      DecodedBlocks(ino, data, n - 1) + Decoded(DirBlock(ino, data, n - 1), PERBLOCK)
  }

  /** Where no name is longer than 55 bytes that is the listing. */
  lemma {:induction false} DecodedBlocksAreEntries(ino: Ino, data: Blocks, n: nat)
    requires WF(ino, data) && n <= NBlocks(ino.size) && DirOk(Slots(ino, data))
    ensures forall i :: 0 <= i < n ==> !BadBlock(DirBlock(ino, data, i))
    ensures DecodedBlocks(ino, data, n) == Entries(Slots(ino, data)[..PERBLOCK * n])
  {
    hide Entries, BlkSlots, DirOk, Decoded, BadName, Slots, WF, SlotBlock, NBlocks;
    ReadNothing(ino, data);
    if n > 0 {
      var blk := DirBlock(ino, data, n - 1);
      DecodedBlocksAreEntries(ino, data, n - 1);
      ReadOneMore(ino, data, n - 1, blk);
      DecodedWhenOk(blk);
      assert PERBLOCK * (n - 1) + PERBLOCK == PERBLOCK * n;
    }
  }

  lemma ListingOfBlocks(ino: Ino, data: Blocks)
    requires WF(ino, data)
    ensures DirOk(Slots(ino, data)) ==>
      && (forall i :: 0 <= i < NBlocks(ino.size) ==> !BadBlock(DirBlock(ino, data, i)))
      && DecodedBlocks(ino, data, NBlocks(ino.size)) == Entries(Slots(ino, data))
  {
    hide Entries, DirOk, Slots, BadBlock, DirBlock, DecodedBlocks, WF;
    ReadNothing(ino, data);
    if DirOk(Slots(ino, data)) {
      DecodedBlocksAreEntries(ino, data, NBlocks(ino.size));
      ReadAll(ino, data);
    }
  }

  /** DirectoryOps.ReadEntries: what every block decodes to, in order; the used slots when no name is too long. */
  method ReadEntries(fs: FileSystem, inodeNum: u32) returns (dirEntries: seq<DirEntry>, panicked: bool)
    requires fs.Valid() && inodeNum < INODES && WF(Decode(fs.itab[inodeNum]), fs.data)
    ensures var ino := Decode(fs.itab[inodeNum]);
      && (panicked <==> exists i :: 0 <= i < NBlocks(ino.size) && BadBlock(DirBlock(ino, fs.data, i)))
      && (!panicked ==> dirEntries == DecodedBlocks(ino, fs.data, NBlocks(ino.size)))
      && (DirOk(Slots(ino, fs.data)) ==> !panicked && dirEntries == Entries(Slots(ino, fs.data)))
  {
    hide Shows, WF, SameMap, Entries, SlotBlock, Clean, Slots, DirOk, BlkSlots, BadName, Decoded, NBlocks, Decode;
    dirEntries := [];
    var dirInode := new Inode();
    var _ := fs.ReadInode(dirInode, inodeNum);
    ghost var ino, data := dirInode.Val(), fs.data;
    var blocksToRead := NBlocks(dirInode.size);
    var f, s, t := Absent, Absent, Absent;
    ReadNothing(ino, data);
    ListingOfBlocks(ino, data);
    for i := 0 to blocksToRead
      invariant dirInode.Val() == ino && Clean(ino, data, f, s, t)
      invariant forall j :: 0 <= j < i ==> !BadBlock(DirBlock(ino, data, j))
      invariant dirEntries == DecodedBlocks(ino, data, i)
    {
      var b, blk;
      b, blk, f, s, t := VisitBlock(fs, dirInode, i, f, s, t, data);
      assert blk == DirBlock(ino, data, i);
      var newDirEntries, bad := DecodeDirEntries(blk);
      if bad {
        return dirEntries, true;
      }
      dirEntries := dirEntries + newDirEntries;
    }
    panicked := false;
  }

  lemma ReadAll(ino: Ino, data: Blocks)
    requires NBlocks(ino.size) <= MAXBLOCKS
    ensures Slots(ino, data)[..PERBLOCK * NBlocks(ino.size)] == Slots(ino, data)
  {
  }

  lemma ReadNothing(ino: Ino, data: Blocks)
    requires WF(ino, data)
    ensures NBlocks(ino.size) <= MAXBLOCKS
    ensures Entries(Slots(ino, data)[..0]) == [] && SameMap(ino, data, data) && Clean(ino, data, Absent, Absent, Absent)
  {
  }

  lemma ReadOneMore(ino: Ino, data: Blocks, i: nat, blk: Block)
    requires WF(ino, data) && i < NBlocks(ino.size) && blk == BlockAt(data, SlotBlock(ino, data, i))
    requires DirOk(Slots(ino, data))
    ensures DirOk(BlkSlots(blk))
    ensures Entries(Slots(ino, data)[..PERBLOCK * i + PERBLOCK]) ==
      Entries(Slots(ino, data)[..PERBLOCK * i]) + Entries(BlkSlots(blk))
  {
    hide SlotBlock, Entries;
    var ss := Slots(ino, data);
    SlotsOfBlock(ino, data, i);
    EntriesConcat(ss[..PERBLOCK * i], BlkSlots(blk));
    forall q | 0 <= q < PERBLOCK ensures SlotOk(BlkSlots(blk)[q]) {
      assert BlkSlots(blk)[q] == ss[PERBLOCK * i + q];
    }
  }

  // ---------- inserting and removing ----------

  /** The scan for a blank slot in one block (computer/fs_dir.go:113-122). */
  method FindFreeSlot(blk: Block) returns (k: nat)
    ensures FirstFree(BlkSlots(blk), k)
  {
    k := 0;
    ghost var ss := BlkSlots(blk);
    while k < PERBLOCK
      invariant k <= PERBLOCK && forall q :: 0 <= q < k ==> !IsFree(ss[q])
    {
      assert ss[k] == BlkSlot(blk, k);
      if Get32(blk, ENTRYSIZE * k) == 0 {
        return;
      }
      k := k + 1;
    }
  }

  /** Slot i is used and the bytes from the start of its name on, as many as its length byte says, are the name. */
  predicate NamedAt(block: Block, i: nat, name: Name)
    requires i < PERBLOCK
  {
    var from, len := ENTRYSIZE * i + 8, block[ENTRYSIZE * i + 4] as nat;
    Get32(block, ENTRYSIZE * i) != 0 && from + len <= BLOCKSIZE && block[from..from + len] == name
  }

  /** Slot i is used and its length byte points out of the block. */
  predicate RunsOut(block: Block, i: nat)
    requires i < PERBLOCK
  {
    Get32(block, ENTRYSIZE * i) != 0 && ENTRYSIZE * i + 8 + block[ENTRYSIZE * i + 4] as nat > BLOCKSIZE
  }

  predicate StopsAt(block: Block, i: nat, name: Name)
    requires i < PERBLOCK
  {
    NamedAt(block, i, name) || RunsOut(block, i)
  }

  /** The scan for a name in one block (computer/fs_dir.go:166-174). */
  method FindNamedSlot(blk: Block, name: Name) returns (k: nat, panicked: bool)
    ensures k <= PERBLOCK && (forall q :: 0 <= q < k ==> !StopsAt(blk, q, name))
    ensures k < PERBLOCK ==> StopsAt(blk, k, name)
    ensures panicked <==> k < PERBLOCK && RunsOut(blk, k)
  {
    hide Get32;
    k := 0;
    while k < PERBLOCK
      invariant k <= PERBLOCK && forall q :: 0 <= q < k ==> !StopsAt(blk, q, name)
    {
      if Get32(blk, ENTRYSIZE * k) != 0 {
        var from, nameLen := ENTRYSIZE * k + 8, blk[ENTRYSIZE * k + 4] as nat;
        if from + nameLen > BLOCKSIZE {
          return k, true;
        }
        if blk[from..from + nameLen] == name {
          return k, false;
        }
      }
      k := k + 1;
    }
    panicked := false;
  }

  /** k is the place, counted in slots, where the search for a name ends: the number of slots when nothing stops it. */
  ghost predicate FirstStop(ino: Ino, data: Blocks, name: Name, k: nat)
  {
    && NBlocks(ino.size) <= MAXBLOCKS && k <= PERBLOCK * NBlocks(ino.size)
    && (forall q :: 0 <= q < k ==> !StopsAt(DirBlock(ino, data, q / PERBLOCK), q % PERBLOCK, name))
    && (k < PERBLOCK * NBlocks(ino.size) ==> StopsAt(DirBlock(ino, data, k / PERBLOCK), k % PERBLOCK, name))
  }

  /** Where no name is longer than 55 bytes the search ends at the first slot with the name. */
  lemma FirstStopIsFirstNamed(ino: Ino, data: Blocks, name: Name, k: nat)
    requires WF(ino, data) && FirstStop(ino, data, name, k)
    ensures DirOk(Slots(ino, data)) ==> FirstNamed(Slots(ino, data), name, k)
    ensures DirOk(Slots(ino, data)) && k < PERBLOCK * NBlocks(ino.size) ==>
      !RunsOut(DirBlock(ino, data, k / PERBLOCK), k % PERBLOCK)
  {
    hide SlotBlock, NamedAt, RunsOut, Named, WF, BlkSlot, NBlocks;
    if DirOk(Slots(ino, data)) {
      WFBound(ino, data);
      var ss := Slots(ino, data);
      forall q | 0 <= q < |ss|
        ensures StopsAt(DirBlock(ino, data, q / PERBLOCK), q % PERBLOCK, name) <==> Named(ss[q], name)
        ensures !RunsOut(DirBlock(ino, data, q / PERBLOCK), q % PERBLOCK)
      {
        assert ss[q] == BlkSlot(DirBlock(ino, data, q / PERBLOCK), q % PERBLOCK);
        NamedInSlot(DirBlock(ino, data, q / PERBLOCK), q % PERBLOCK, name);
      }
    }
  }

  lemma NamedInSlot(block: Block, i: nat, name: Name)
    requires i < PERBLOCK && SlotOk(BlkSlot(block, i))
    ensures (NamedAt(block, i, name) <==> Named(BlkSlot(block, i), name)) && !RunsOut(block, i)
  {
    hide Get32;
    SlotInBlock(block, i);
  }

  /** A block full of used slots extends the searched prefix; a block with a free slot ends the search. */
  lemma FreeInBlock(ino: Ino, data: Blocks, i: nat, k: nat)
    requires WF(ino, data) && i < NBlocks(ino.size)
    requires FirstFree(BlkSlots(BlockAt(data, SlotBlock(ino, data, i))), k)
    requires forall q :: 0 <= q < PERBLOCK * i ==> !IsFree(Slots(ino, data)[q])
    ensures k < PERBLOCK ==> FirstFree(Slots(ino, data), PERBLOCK * i + k)
    ensures k == PERBLOCK ==> forall q :: 0 <= q < PERBLOCK * (i + 1) ==> !IsFree(Slots(ino, data)[q])
  {
    hide SlotBlock, IsFree;
    SlotsOfBlock(ino, data, i);
  }

  lemma StopInBlock(ino: Ino, data: Blocks, i: nat, name: Name, k: nat)
    requires i < NBlocks(ino.size) <= MAXBLOCKS && k <= PERBLOCK
    requires forall q :: 0 <= q < k ==> !StopsAt(DirBlock(ino, data, i), q, name)
    requires k < PERBLOCK ==> StopsAt(DirBlock(ino, data, i), k, name)
    requires forall q :: 0 <= q < PERBLOCK * i ==> !StopsAt(DirBlock(ino, data, q / PERBLOCK), q % PERBLOCK, name)
    ensures k < PERBLOCK ==> FirstStop(ino, data, name, PERBLOCK * i + k) && (PERBLOCK * i + k) / PERBLOCK == i
    ensures k < PERBLOCK ==> (PERBLOCK * i + k) % PERBLOCK == k
    ensures forall q :: 0 <= q < PERBLOCK * i + k ==> !StopsAt(DirBlock(ino, data, q / PERBLOCK), q % PERBLOCK, name)
  {
    hide StopsAt, DirBlock, NBlocks;
    forall q | PERBLOCK * i <= q < PERBLOCK * i + k
      ensures !StopsAt(DirBlock(ino, data, q / PERBLOCK), q % PERBLOCK, name)
    {
      assert q / PERBLOCK == i && q % PERBLOCK == q - PERBLOCK * i;
    }
  }

  /** Write slot s into place k of the i-th block. */
  method StoreSlot(fs: FileSystem, inode: Inode, i: nat, blockNum: u32, blk: Block, k: nat, s: Slot)
    requires fs.Valid() && WF(inode.Val(), fs.data) && i < NBlocks(inode.size) && k < PERBLOCK
    requires blockNum == SlotBlock(inode.Val(), fs.data, i) && blockNum < BLOCKS && blk == fs.data[blockNum]
    modifies fs`data, fs.disk.buf
    ensures fs.Valid() && SameMap(inode.Val(), old(fs.data), fs.data)
    ensures Slots(inode.Val(), fs.data) == Slots(inode.Val(), old(fs.data))[PERBLOCK * i + k := s]
  {
    hide Shows, WF, Own, SlotBlock, Slots;
    WFBound(inode.Val(), fs.data);
    SlotReplaced(inode.Val(), fs.data, i, k, s);
    var _ := fs.WriteDataBlock(blockNum, Splice(blk, ENTRYSIZE * k, s));
  }

  lemma WFBound(ino: Ino, data: Blocks)
    requires WF(ino, data)
    ensures NBlocks(ino.size) <= MAXBLOCKS && |Slots(ino, data)| == PERBLOCK * NBlocks(ino.size)
    ensures SameMap(ino, data, data) && Clean(ino, data, Absent, Absent, Absent)
  {
  }

  /** tryInsert (computer/fs_dir.go:110-127) */
  method TryInsert(fs: FileSystem, inode: Inode, enc: Slot) returns (inserted: bool, ghost k: nat)
    requires fs.Valid() && WF(inode.Val(), fs.data)
    modifies fs`data, fs.disk.buf
    ensures fs.Valid() && SameMap(inode.Val(), old(fs.data), fs.data)
    ensures FirstFree(Slots(inode.Val(), old(fs.data)), k)
    ensures inserted <==> k < |Slots(inode.Val(), old(fs.data))|
    ensures inserted ==> Slots(inode.Val(), fs.data) == Slots(inode.Val(), old(fs.data))[k := enc]
    ensures !inserted ==> fs.data == old(fs.data)
  {
    hide Shows, WF, Own, SlotBlock, Slots, SameMap, Clean, IsFree, BlkSlots;
    ghost var ino, data := inode.Val(), fs.data;
    WFBound(ino, data);
    var blocksToRead := NBlocks(inode.size);
    var f, s, t := Absent, Absent, Absent;
    for i := 0 to blocksToRead
      invariant fs.data == data && fs.Valid() && Clean(ino, data, f, s, t)
      invariant forall q :: 0 <= q < PERBLOCK * i ==> !IsFree(Slots(ino, data)[q])
    {
      var b, blk;
      b, blk, f, s, t := VisitBlock(fs, inode, i, f, s, t, data);
      var q := FindFreeSlot(blk);
      FreeInBlock(ino, data, i, q);
      if q < PERBLOCK {
        StoreSlot(fs, inode, i, b, blk, q, enc);
        return true, PERBLOCK * i + q;
      }
    }
    return false, PERBLOCK * blocksToRead;
  }

  /** removeDentry: clears the first entry with the name; not found stands for ENOENT. A used slot whose length byte
      points out of its block ends the search in a panic; without names of more than 55 bytes there is none. */
  method RemoveDentry(fs: FileSystem, inodeNum: u32, name: Name) returns (found: bool, panicked: bool, ghost k: nat)
    requires fs.Valid() && inodeNum < INODES && WF(Decode(fs.itab[inodeNum]), fs.data)
    modifies fs`data, fs.disk.buf
    ensures fs.Valid() && SameMap(Decode(fs.itab[inodeNum]), old(fs.data), fs.data)
    ensures var ino, data := Decode(fs.itab[inodeNum]), old(fs.data); var before := Slots(ino, data);
      && FirstStop(ino, data, name, k) && |before| == PERBLOCK * NBlocks(ino.size)
      && (panicked <==> k < |before| && RunsOut(DirBlock(ino, data, k / PERBLOCK), k % PERBLOCK))
      && (found <==> k < |before| && !panicked)
      && (found ==> Slots(ino, fs.data) == before[k := FREESLOT])
      && (DirOk(before) ==> FirstNamed(before, name, k) && !panicked)
    ensures !found ==> fs.data == old(fs.data)
  {
    hide Shows, WF, Own, SlotBlock, Slots, SameMap, Clean, StopsAt, RunsOut, BlkSlots, DirOk, Entries, NBlocks,
      Decode, FREESLOT;
    hide DirBlock, FirstNamed, FirstStop;
    var dirInode := new Inode();
    var _ := fs.ReadInode(dirInode, inodeNum);
    ghost var ino, data := dirInode.Val(), fs.data;
    WFBound(ino, data);
    var blocksToRead := NBlocks(dirInode.size);
    var f, s, t := Absent, Absent, Absent;
    for i := 0 to blocksToRead
      invariant fs.data == data && fs.Valid() && dirInode.Val() == ino && Clean(ino, data, f, s, t)
      invariant forall q :: 0 <= q < PERBLOCK * i ==> !StopsAt(DirBlock(ino, data, q / PERBLOCK), q % PERBLOCK, name)
    {
      var b, blk;
      b, blk, f, s, t := VisitBlock(fs, dirInode, i, f, s, t, data);
      VisitedIsDirBlock(ino, data, i, blk);
      var q, bad := FindNamedSlot(blk, name);
      StopInBlock(ino, data, i, name, q);
      if q < PERBLOCK {
        FirstStopIsFirstNamed(ino, data, name, PERBLOCK * i + q);
        if bad {
          return false, true, PERBLOCK * i + q;
        }
        StoreSlot(fs, dirInode, i, b, blk, q, FREESLOT);
        return true, false, PERBLOCK * i + q;
      }
    }
    NothingStops(ino, data, name);
    FirstStopIsFirstNamed(ino, data, name, PERBLOCK * blocksToRead);
    return false, false, PERBLOCK * blocksToRead;
  }

  lemma VisitedIsDirBlock(ino: Ino, data: Blocks, i: nat, blk: Block)
    requires i < MAXBLOCKS && blk == BlockAt(data, SlotBlock(ino, data, i))
    ensures blk == DirBlock(ino, data, i)
  {
  }

  lemma NothingStops(ino: Ino, data: Blocks, name: Name)
    requires NBlocks(ino.size) <= MAXBLOCKS
    requires forall q :: 0 <= q < PERBLOCK * NBlocks(ino.size) ==>
      !StopsAt(DirBlock(ino, data, q / PERBLOCK), q % PERBLOCK, name)
    ensures FirstStop(ino, data, name, PERBLOCK * NBlocks(ino.size))
  {
  }

  datatype AddResult = Added | BadEntry(why: EncodeResult) | DirTooBig | DirPanicked | NoFreeSlot

  /** A directory grown by one block shows its old slots followed by whatever the new block holds. */
  lemma GrownSlots(ino: Ino, data: Blocks, bm: seq<byte>, newSize: u32, ino': Ino, data': Blocks, bm': seq<byte>)
    requires Sound(ino, data, bm) && Reallocated(ino, data, bm, newSize, ino', data', bm')
    requires NBlocks(newSize) == NBlocks(ino.size) + 1
    ensures var nb := SlotBlock(ino', data', NBlocks(ino.size));
      nb < BLOCKS && Slots(ino', data') == Slots(ino, data) + BlkSlots(data[nb])
  {
    var n := NBlocks(ino.size);
    assert LiveSlot(ino', n);
    var nb := SlotBlock(ino', data', n);
    assert !IsTable(ino', nb);
    var ss, ss' := Slots(ino, data), Slots(ino', data');
    forall q | 0 <= q < |ss| ensures ss'[q] == ss[q] {
      var v := q / PERBLOCK;
      assert LiveSlot(ino, v) && LiveSlot(ino', v);
      assert !IsTable(ino', SlotBlock(ino', data', v));
    }
    SlotsOfBlock(ino', data', n);
    assert ss'[..PERBLOCK * n] == ss;
  }

  /** The directory after growth and the second try: the new block is the one first fit hands out, the entry is in the
      first free slot of the old slots and those of the new block, and the next growth starts from the next free
      block. */
  ghost predicate GrewAndAdded(ino: Ino, data: Blocks, bm: seq<byte>, enc: Slot, ino': Ino, data': Blocks,
                               bm': seq<byte>, k: nat)
  {
    && NBlocks(ino.size) + 1 == NBlocks(ino'.size) <= MAXBLOCKS
    && Rewritten(ino, data, bm, ino'.size, ino', data', bm')
    && var nb := NextBlock(bm, NBlocks(ino.size));
    && SlotBlock(ino', data', NBlocks(ino.size)) == nb < BLOCKS
    && var all := Slots(ino, data) + BlkSlots(data[nb]);
    && FirstFree(all, k)
    && Slots(ino', data') == (if k < |all| then all[k := enc] else all)
    && FreeFrom(bm', 0) == NthFree(bm, Need(NBlocks(ino'.size)) - Need(NBlocks(ino.size)))
  }

  lemma GrewAssembles(ino: Ino, data: Blocks, bm: seq<byte>, newSize: u32, enc: Slot, ino': Ino, data1: Blocks,
                      bm': seq<byte>, data2: Blocks, k: nat)
    requires Sound(ino, data, bm) && NBlocks(newSize) == NBlocks(ino.size) + 1
    requires Reallocated(ino, data, bm, newSize, ino', data1, bm') && FirstFit(ino, bm', ino', data1)
    requires SameMap(ino', data1, data2)
    requires FirstFree(Slots(ino', data1), k)
    requires Slots(ino', data2) == if k < |Slots(ino', data1)| then Slots(ino', data1)[k := enc] else Slots(ino', data1)
    ensures GrewAndAdded(ino, data, bm, enc, ino', data2, bm', k)
  {
    hide FirstFit, Bit, NextBlock, NthFree, FreeFrom, Slots, Rewritten, Reallocated, Sound, BlkSlots, SlotBlock, Need,
      FirstFree, SameMap, NBlocks;
    SizeAfter(ino, data, bm, newSize, ino', data1, bm');
    SameSlots(ino', data1, data2);
    GrownSlots(ino, data, bm, newSize, ino', data1, bm');
    GrowthTakesNextBlock(ino, data, bm, newSize, ino', data1, bm');
    GrowthThenNext(ino, data, bm, newSize, ino', data1, bm');
    ReallocatedIsRewritten(ino, data, bm, newSize, ino', data1, bm');
    RewrittenThenSameMap(ino, data, bm, newSize, ino', data1, bm', data2);
  }

  lemma SizeAfter(ino: Ino, data: Blocks, bm: seq<byte>, newSize: u32, ino': Ino, data': Blocks, bm': seq<byte>)
    requires Reallocated(ino, data, bm, newSize, ino', data', bm')
    ensures ino'.size == newSize && NBlocks(newSize) <= MAXBLOCKS
  {
  }

  lemma SameSlots(ino: Ino, data: Blocks, data': Blocks)
    requires SameMap(ino, data, data')
    ensures NBlocks(ino.size) <= MAXBLOCKS
    ensures forall i: nat :: i < NBlocks(ino.size) ==> SlotBlock(ino, data', i) == SlotBlock(ino, data, i)
  {
    hide SlotBlock, NBlocks;
    assert forall i: nat :: i < NBlocks(ino.size) && NBlocks(ino.size) <= MAXBLOCKS ==> LiveSlot(ino, i);
  }

  lemma ReallocatedStaysWF(ino: Ino, data: Blocks, bm: seq<byte>, newSize: u32, ino': Ino, data': Blocks,
                           bm': seq<byte>)
    requires Reallocated(ino, data, bm, newSize, ino', data', bm')
    ensures WF(ino', data') && NBlocks(ino'.size) <= MAXBLOCKS && ino'.size == newSize
  {
  }

  lemma OneMoreBlock(size: u32)
    requires size <= MAXSIZE
    ensures NBlocks(size + BLOCKSIZE) == NBlocks(size) + 1 && NBlocks(size) <= MAXBLOCKS
    ensures Need(NBlocks(size)) <= Need(NBlocks(size) + 1)
  {
  }

  /** The growth path of addDentry (computer/fs_dir.go:140-153). */
  method GrowAndInsert(fs: FileSystem, dirInode: Inode, inodeNum: u32, enc: Slot) returns (r: AddResult, ghost k: nat)
    requires fs.Valid() && inodeNum < INODES && dirInode.size <= MAXSIZE
    requires Sound(dirInode.Val(), fs.data, fs.dbm)
    modifies dirInode, fs`data, fs`dbm, fs`itab, fs.disk.buf
    ensures fs.Valid()
    ensures r == DirTooBig <==> NBlocks(old(dirInode.size)) == MAXBLOCKS
    ensures r == DirTooBig ==> fs.data == old(fs.data) && fs.dbm == old(fs.dbm) && fs.itab == old(fs.itab)
    ensures r == DirPanicked <==>
      r != DirTooBig && |Free(old(fs.dbm))| + Need(NBlocks(old(dirInode.size))) < Need(NBlocks(old(dirInode.size)) + 1)
    ensures r == DirPanicked ==> fs.itab == old(fs.itab)
    ensures !r.BadEntry?
    ensures r == Added || r == NoFreeSlot ==>
      && fs.itab == old(fs.itab)[inodeNum := Encode(dirInode.Val())]
      && dirInode.size == old(dirInode.size) + BLOCKSIZE
      && GrewAndAdded(old(dirInode.Val()), old(fs.data), old(fs.dbm), enc, dirInode.Val(), fs.data, fs.dbm, k)
      && (r == Added <==> k < |Slots(dirInode.Val(), fs.data)|)
  {
    hide Shows, WF, Own, SlotBlock, SameMap, IsFree, BlkSlots, Reallocated, FirstFit, Sound, Free, GrewAndAdded,
      FirstFree, NBlocks, Encode, Need;
    ghost var ino, data, dbm := dirInode.Val(), fs.data, fs.dbm;
    k := 0;
    OneMoreBlock(dirInode.size);
    var newSize := dirInode.size + BLOCKSIZE;
    var fr := Falloc(fs, dirInode, newSize);
    if fr == TooBig {
      return DirTooBig, 0;
    }
    if fr == Panicked {
      return DirPanicked, 0;
    }
    ReallocatedStaysWF(ino, data, dbm, newSize, dirInode.Val(), fs.data, fs.dbm);
    ghost var data1 := fs.data;
    var _ := fs.WriteInode(dirInode, inodeNum);
    var inserted;
    inserted, k := TryInsert(fs, dirInode, enc);
    GrewAssembles(ino, data, dbm, newSize, enc, dirInode.Val(), data1, fs.dbm, fs.data, k);
    r := if inserted then Added else NoFreeSlot;
  }

  predicate HasFree(slots: seq<Slot>)
  {
    exists q :: 0 <= q < |slots| && IsFree(slots[q])
  }

  /** The entry went into the first free slot and no other slot, block map or foreign block has changed. */
  ghost predicate AddedInPlace(ino: Ino, data: Blocks, enc: Slot, data': Blocks, k: nat)
  {
    && WF(ino, data) && SameMap(ino, data, data')
    && FirstFree(Slots(ino, data), k) && k < |Slots(ino, data)|
    && Slots(ino, data') == Slots(ino, data)[k := enc]
  }

  /** addDentry (computer/fs_dir.go:75-155) */
  method AddDentry(fs: FileSystem, inodeNum: u32, dentry: DirEntry) returns (r: AddResult, ghost k: nat)
    requires fs.Valid() && inodeNum < INODES && Decode(fs.itab[inodeNum]).size <= MAXSIZE
    requires Sound(Decode(fs.itab[inodeNum]), fs.data, fs.dbm)
    modifies fs`data, fs`dbm, fs`itab, fs.disk.buf
    ensures fs.Valid()
    ensures r.BadEntry? <==> |dentry.name| > MAXNAME || dentry.inum == 0
    ensures r.BadEntry? ==> r.why == if |dentry.name| > MAXNAME then NameTooLong else InvalidInum
    ensures r.BadEntry? || r == DirTooBig ==>
      fs.data == old(fs.data) && fs.dbm == old(fs.dbm) && fs.itab == old(fs.itab)
    ensures !r.BadEntry? && HasFree(Slots(Decode(old(fs.itab)[inodeNum]), old(fs.data))) ==>
      && r == Added && fs.dbm == old(fs.dbm) && fs.itab == old(fs.itab)
      && AddedInPlace(Decode(fs.itab[inodeNum]), old(fs.data), EntrySlot(dentry), fs.data, k)
    ensures !r.BadEntry? && !HasFree(Slots(Decode(old(fs.itab)[inodeNum]), old(fs.data))) ==>
      && (r == DirTooBig <==> NBlocks(Decode(old(fs.itab)[inodeNum]).size) == MAXBLOCKS)
      && (r == DirPanicked <==> (r != DirTooBig &&
           |Free(old(fs.dbm))| +
             Need(NBlocks(Decode(old(fs.itab)[inodeNum]).size)) < Need(NBlocks(Decode(old(fs.itab)[inodeNum]).size) +
                 1)))
      && (r == DirPanicked ==> fs.itab == old(fs.itab))
      && (r == Added || r == NoFreeSlot ==>
          && fs.itab == old(fs.itab)[inodeNum := fs.itab[inodeNum]]
          && Decode(fs.itab[inodeNum]).size == Decode(old(fs.itab)[inodeNum]).size + BLOCKSIZE
          && GrewAndAdded(Decode(old(fs.itab)[inodeNum]), old(fs.data), old(fs.dbm), EntrySlot(dentry),
                          Decode(fs.itab[inodeNum]), fs.data, fs.dbm, k)
          && (r == Added <==> k < |Slots(Decode(fs.itab[inodeNum]), fs.data)|)
          && (Entries(Slots(Decode(fs.itab[inodeNum]), fs.data)) == Entries(Slots(Decode(old(fs.itab)[inodeNum]),
              old(fs.data))) + [dentry] <==>
              NextEntries(old(fs.data), old(fs.dbm), NBlocks(Decode(old(fs.itab)[inodeNum]).size)) == []))
  {
    hide Shows, WF, Own, SlotBlock, SameMap, IsFree, BlkSlots, Sound, Free, GrewAndAdded, NBlocks, Encode, Decode,
      Need, EntrySlot, EntryOf, Entries, NextEntries, Slots;
    var dirInode := new Inode();
    var _ := fs.ReadInode(dirInode, inodeNum);
    ghost var ino, data := dirInode.Val(), fs.data;
    k := 0;
    var encoded := EncodeDirEntry(dentry);
    if !encoded.Encoded? {
      return BadEntry(encoded), 0;
    }
    SoundIsWF(ino, data, fs.dbm);
    var inserted;
    inserted, k := TryInsert(fs, dirInode, encoded.slot);
    if inserted {
      return Added, k;
    }
    ghost var dbm := fs.dbm;
    r, k := GrowAndInsert(fs, dirInode, inodeNum, encoded.slot);
    DecodeEncode(dirInode.Val());
    if r == Added || r == NoFreeSlot {
      GrowthAddsOneIffNextBlockClean(ino, data, dbm, dentry, dirInode.Val(), fs.data, fs.dbm, k);
    }
  }

  lemma SoundIsWF(ino: Ino, data: Blocks, bm: seq<byte>)
    requires Sound(ino, data, bm)
    ensures WF(ino, data) && NBlocks(ino.size) <= MAXBLOCKS
  {
  }

  // ---------- what growth does to the listing ----------

  /** Growing into a block without used slots appends exactly the new entry. */
  lemma GrowthIntoCleanBlock(slots: seq<Slot>, added: seq<Slot>, k: nat, e: DirEntry)
    requires !HasFree(slots) && |added| == PERBLOCK && Entries(added) == []
    requires |e.name| <= MAXNAME && e.inum != 0 && FirstFree(slots + added, k)
    ensures k == |slots| && Entries((slots + added)[k := EntrySlot(e)]) == Entries(slots) + [e]
  {
    var all := slots + added;
    NoEntries(added);
    assert forall q :: 0 <= q < |slots| ==> all[q] == slots[q];
    assert all[|slots|] == added[0];
    EntryRoundTrip(e);
    FillAddsOne(all, k, EntrySlot(e));
    assert all[..k] == slots && all[k + 1..] == added[1..];
    NoEntries(added[1..]);
  }

  /** Appending slots with an entry in one of them adds exactly that entry iff no appended slot was used. */
  lemma GrowthAddsOneIffBlockClean(slots: seq<Slot>, added: seq<Slot>, k: nat, e: DirEntry)
    requires !HasFree(slots) && |added| == PERBLOCK
    requires |e.name| <= MAXNAME && e.inum != 0 && FirstFree(slots + added, k)
    ensures var all := slots + added;
      Entries(if k < |all| then all[k := EntrySlot(e)] else all) == Entries(slots) + [e] <==> Entries(added) == []
  {
    var all := slots + added;
    EntriesConcat(slots, added);
    if Entries(added) == [] {
      NoEntries(added);
      assert all[|slots|] == added[0];
      GrowthIntoCleanBlock(slots, added, k, e);
    } else if k < |all| {
      EntryRoundTrip(e);
      FillAddsOne(all, k, EntrySlot(e));
      var before, after := Entries(all[..k]), Entries(all[k + 1..]);
      assert |before + [e] + after| == |Entries(slots)| + |Entries(added)| + 1;
    } else {
      assert forall q :: 0 <= q < PERBLOCK ==> all[|slots| + q] == added[q];
      AllUsed(added);
    }
  }

  lemma {:induction false} AllUsed(slots: seq<Slot>)
    requires forall q :: 0 <= q < |slots| ==> !IsFree(slots[q])
    ensures |Entries(slots)| == |slots|
  {
    if slots != [] {
      AllUsed(slots[..|slots| - 1]);
    }
  }

  /** What the next block of a directory of n blocks shows before the directory grows into it. */
  function NextEntries(data: Blocks, bm: seq<byte>, n: nat): seq<DirEntry>
  {
    Entries(BlkSlots(BlockAt(data, NextBlock(bm, n))))
  }

  /** The listing of a directory that had to grow is the old one plus the new entry iff the block that first fit hands
      out showed no entry beforehand. It is not zeroed, so a recycled block shows its old contents as entries. */
  lemma GrowthAddsOneIffNextBlockClean(ino: Ino, data: Blocks, bm: seq<byte>, e: DirEntry, ino': Ino, data': Blocks,
                                       bm': seq<byte>, k: nat)
    requires |e.name| <= MAXNAME && e.inum != 0 && NBlocks(ino.size) <= MAXBLOCKS && !HasFree(Slots(ino, data))
    requires GrewAndAdded(ino, data, bm, EntrySlot(e), ino', data', bm', k)
    ensures Entries(Slots(ino', data')) == Entries(Slots(ino, data)) + [e] <==>
      NextEntries(data, bm, NBlocks(ino.size)) == []
  {
    hide Rewritten, NextBlock, Slots, BlkSlots, Entries, SlotBlock, EntrySlot, HasFree, FirstFree, NBlocks;
    GrowthAddsOneIffBlockClean(Slots(ino, data), BlkSlots(data[NextBlock(bm, NBlocks(ino.size))]), k, e);
  }
}

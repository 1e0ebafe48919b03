/** What is on the disk, byte by byte, as FILESYSTEM.md lays it out: in plain numbers and little-endian sums, without
    the layout constants and the readers and writers that the model uses, which are held against it here. */
module OnDisk {
  import opened Bytes
  import opened Bitmap
  import opened Layout
  import opened Inodes
  import opened BlockMap
  import opened Disk
  import opened Allocator
  import opened Volume
  import opened Files
  import opened Dir
  import opened Paths
  import opened TreeFree
  import opened Keeps
  import opened Remove
  import opened Boot

  // ---------- words ----------

  /** The low byte comes first. */
  lemma LowByteFirst()
    ensures LE([0x78, 0x56, 0x34, 0x12]) == 0x1234_5678
  {
    assert [0x78, 0x56, 0x34, 0x12][1..] == [0x56, 0x34, 0x12];
    assert [0x56, 0x34, 0x12][1..] == [0x34, 0x12];
    assert [0x34, 0x12][1..] == [0x12] && [0x12][1..] == [];
  }

  lemma LEOfFour(s: seq<byte>)
    requires |s| == 4
    ensures LE(s) == s[0] as int + 0x100 * s[1] as int + 0x1_0000 * s[2] as int + 0x100_0000 * s[3] as int
  {
    assert s[1..][1..] == s[2..] && s[2..][1..] == s[3..] && s[3..][1..] == [];
    assert LE(s[3..]) == s[3] as int;
    assert LE(s[2..]) == s[2] as int + 0x100 * LE(s[3..]);
    assert LE(s[1..]) == s[1] as int + 0x100 * LE(s[2..]);
  }

  lemma LEOfTwo(s: seq<byte>)
    requires |s| == 2
    ensures LE(s) == s[0] as int + 0x100 * s[1] as int
  {
    assert s[1..][1..] == [];
    assert LE(s[1..]) == s[1] as int;
  }

  lemma LEOfEight(s: seq<byte>)
    requires |s| == 8
    ensures LE(s) == LE(s[..4]) + 0x1_0000_0000 * LE(s[4..])
  {
    hide LE;
    LESplit(s, 4);
  }

  /** A number is its low bytes plus its high bytes moved up. */
  lemma {:induction false} LESplit(s: seq<byte>, n: nat)
    requires n <= |s| && n <= 4
    ensures LE(s) == LE(s[..n]) + (if n == 0 then 1 else if n == 1 then 0x100 else if n == 2 then 0x1_0000
                                   else if n == 3 then 0x100_0000 else 0x1_0000_0000) * LE(s[n..])
  {
    if n > 0 {
      LESplit(s[1..], n - 1);
      assert s[1..][..n - 1] == s[..n][1..] && s[1..][n - 1..] == s[n..];
      assert LE(s[..n]) == s[0] as int + 0x100 * LE(s[..n][1..]);
    } else {
      assert s[0..] == s && LE(s[..0]) == 0;
    }
  }

  /** The words that are read are the little-endian numbers in those bytes. */
  lemma WordsRead(s: seq<byte>, off: nat)
    ensures off + 2 <= |s| ==> Get16(s, off) == LE(s[off..off + 2])
    ensures off + 4 <= |s| ==> Get32(s, off) == LE(s[off..off + 4])
    ensures off + 8 <= |s| ==> Get64(s, off) == LE(s[off..off + 8])
  {
    hide LE;
    if off + 2 <= |s| {
      LEOfTwo(s[off..off + 2]);
    }
    if off + 4 <= |s| {
      LEOfFour(s[off..off + 4]);
    }
    if off + 8 <= |s| {
      var e := s[off..off + 8];
      LEOfEight(e);
      assert e[..4] == s[off..off + 4] && e[4..] == s[off + 4..off + 8];
      LEOfFour(s[off..off + 4]);
      LEOfFour(s[off + 4..off + 8]);
    }
  }

  /** The words that are written are 2, 4 and 8 bytes long and are those numbers. */
  lemma WordsWritten(a: u16, b: u32, c: u64)
    ensures |Enc16(a)| == 2 && LE(Enc16(a)) == a
    ensures |Enc32(b)| == 4 && LE(Enc32(b)) == b
    ensures |Enc64(c)| == 8 && LE(Enc64(c)) == c
  {
    hide LE, Enc16, Enc32, Enc64, Get16, Get32, Get64;
    WordsRead(Enc16(a), 0);
    WordsRead(Enc32(b), 0);
    WordsRead(Enc64(c), 0);
    assert Enc16(a)[0..2] == Enc16(a) && Enc32(b)[0..4] == Enc32(b) && Enc64(c)[0..8] == Enc64(c);
  }

  // ---------- regions ----------

  /** The inode bitmap starts at byte 4096, the inode table at 8192 with 128 bytes a record, the data bitmap at 1040384
      and the data blocks of 4096 bytes at 1044480. */
  lemma RegionsAt(img: Image, ibm: InodeBitmap, itab: InodeTable, dbm: DataBitmap, data: Blocks)
    requires Shows(img, ibm, itab, dbm, data)
    ensures |img| == 67108864 && |ibm| == 1008 && |itab| == 8064 && |dbm| == 4096 && |data| == 16128
    ensures forall k :: 0 <= k < 1008 ==> ibm[k] == img[4096 + k]
    ensures forall i, j :: 0 <= i < 8064 && 0 <= j < 128 ==> itab[i][j] == img[8192 + 128 * i + j]
    ensures forall k :: 0 <= k < 4096 ==> dbm[k] == img[1040384 + k]
    ensures forall b, j :: 0 <= b < 16128 && 0 <= j < 4096 ==> data[b][j] == img[1044480 + 4096 * b + j]
  {
    forall i, j | 0 <= i < 8064 && 0 <= j < 128 ensures itab[i][j] == img[8192 + 128 * i + j] {
      assert itab[i] == InodeBytes(img, i);
    }
    forall b, j | 0 <= b < 16128 && 0 <= j < 4096 ensures data[b][j] == img[1044480 + 4096 * b + j] {
      assert data[b] == DataBytes(img, b);
    }
  }

  /** Records are loaded by number as long as the disk goes on, 128 bytes each from byte 8192. */
  lemma RecordsAt(img: Image, i: nat)
    ensures RecordFits(i) <==> i < 524224
    ensures RecordFits(i) ==> forall j :: 0 <= j < 128 ==> RecordBytes(img, i)[j] == img[8192 + 128 * i + j]
  {
  }

  /** Bit b of a bitmap is bit b mod 8, counted from the low end, of byte b / 8. */
  lemma BitsAt(bm: seq<byte>, b: nat)
    ensures Taken(bm, b) <==> b / 8 < |bm| && bm[b / 8] / [1, 2, 4, 8, 16, 32, 64, 128][b % 8] % 2 == 1
  {
    if b / 8 < |bm| {
      BitOfByte(bm[b / 8], b % 8);
    }
  }

  lemma {:induction false} BitOfByte(x: nat, k: nat)
    requires k < 8
    ensures Bit(x, k) <==> x / [1, 2, 4, 8, 16, 32, 64, 128][k] % 2 == 1
  {
    if k > 0 {
      BitOfByte(x / 2, k - 1);
      HalfFirst(x, k);
    }
  }

  lemma HalfFirst(x: nat, k: nat)
    requires 0 < k < 8
    ensures x / 2 / [1, 2, 4, 8, 16, 32, 64, 128][k - 1] == x / [1, 2, 4, 8, 16, 32, 64, 128][k]
  {
    assert k == 2 ==> x / 2 / 2 == x / 4;
    assert k == 3 ==> x / 2 / 4 == x / 8;
    assert k == 4 ==> x / 2 / 8 == x / 16;
    assert k == 5 ==> x / 2 / 16 == x / 32;
    assert k == 6 ==> x / 2 / 32 == x / 64;
    assert k == 7 ==> x / 2 / 64 == x / 128;
  }

  // ---------- the inode record ----------

  /** Every field of a record that is read, at its place. */
  lemma RecordRead(rec: InodeRecord)
    ensures var v := Decode(rec);
      && |rec| == 128 && v.size == LE(rec[0..4]) && v.fType == rec[4] && v.refs == LE(rec[5..7])
      && v.owner == rec[7..21] && (v.setuid <==> rec[21] == 1) && v.ownerMode == rec[22] && v.otherMode == rec[23]
      && (forall i :: 0 <= i < 12 ==> v.direct[i] == LE(rec[24 + 4 * i..28 + 4 * i]))
      && v.find == LE(rec[72..76]) && v.sind == LE(rec[76..80]) && v.tind == LE(rec[80..84])
      && v.createdAt == LE(rec[84..92]) && v.modifiedAt == LE(rec[92..100])
  {
    hide LE, Get16, Get32, Get64;
    WordsRead(rec, 0);
    WordsRead(rec, 5);
    WordsRead(rec, 72);
    WordsRead(rec, 76);
    WordsRead(rec, 80);
    WordsRead(rec, 84);
    WordsRead(rec, 92);
    forall i | 0 <= i < 12 ensures Decode(rec).direct[i] == LE(rec[24 + 4 * i..28 + 4 * i]) {
      WordsRead(rec, 24 + 4 * i);
    }
  }

  /** What is written is what is read back, with the one flag as 0 or 1 and 28 zero bytes behind. */
  lemma RecordWrittenAt(v: Ino)
    ensures var rec := Encode(v);
      && LE(rec[0..4]) == v.size && rec[4] == v.fType && LE(rec[5..7]) == v.refs
      && rec[7..21] == v.owner && rec[21] == (if v.setuid then 1 else 0)
      && rec[22] == v.ownerMode && rec[23] == v.otherMode
      && (forall i :: 0 <= i < 12 ==> LE(rec[24 + 4 * i..28 + 4 * i]) == v.direct[i])
      && LE(rec[72..76]) == v.find && LE(rec[76..80]) == v.sind && LE(rec[80..84]) == v.tind
      && LE(rec[84..92]) == v.createdAt && LE(rec[92..100]) == v.modifiedAt
      && forall k :: 100 <= k < 128 ==> rec[k] == 0
  {
    hide LE, Decode, Encode;
    DecodeEncode(v);
    RecordRead(Encode(v));
    PaddingIsZero(v);
  }

  lemma PaddingIsZero(v: Ino)
    ensures Encode(v)[21] == (if v.setuid then 1 else 0) && forall k :: 100 <= k < 128 ==> Encode(v)[k] == 0
  {
    EncodeLayout(v);
  }

  /** Type 0 is a regular file, type 1 a directory, and there are no others; the root directory is inode 2. */
  lemma TypesAre(ino: Ino)
    ensures IsDir(ino) <==> ino.fType == 1
    ensures HasOps(ino) <==> ino.fType == 0 || ino.fType == 1
    ensures S_IFREG == 0 && S_IFDIR == 1 && ROOTINUM == 2
  {
  }

  /** The names that are special: "." and ".." in directories, "root" among users. */
  lemma SpecialNames()
    ensures DOT == [0x2e] && DOTDOT == [0x2e, 0x2e] && ROOTUSER == [0x72, 0x6f, 0x6f, 0x74]
  {
  }

  /** A user name in the owner field: its first 13 bytes, zeros behind. */
  lemma OwnerField(name: seq<byte>)
    ensures var o := OwnerBytes(name);
      |o| == 14 && forall k :: 0 <= k < 14 ==> o[k] == if k < 13 && k < |name| then name[k] else 0
  {
  }

  // ---------- directories ----------

  /** An entry that is written: number, length of the name, three zero bytes, the name, zeros up to 64 bytes. */
  lemma SlotWritten(e: DirEntry)
    requires |e.name| <= 55
    ensures var s := EntrySlot(e);
      && |s| == 64 && LE(s[0..4]) == e.inum && s[4] as nat == |e.name| && s[5] == s[6] == s[7] == 0
      && s[8..8 + |e.name|] == e.name && forall k :: 8 + |e.name| <= k < 64 ==> s[k] == 0
  {
    hide LE, Enc32, Get32;
    WordsWritten(0, e.inum, 0);
    assert EntrySlot(e)[0..4] == Enc32(e.inum);
  }

  /** A slot that is read: free if its number is 0, and otherwise an entry with the bytes that its length says. */
  lemma SlotRead(s: Slot)
    ensures IsFree(s) <==> LE(s[0..4]) == 0
    ensures !IsFree(s) ==> EntryOf(s).Some? && EntryOf(s).value.inum == LE(s[0..4])
    ensures !IsFree(s) && s[4] <= 55 ==> EntryOf(s).value.name == s[8..8 + s[4]]
    ensures forall k :: 0 <= k < 64 ==> FREESLOT[k] == 0
  {
    hide LE, Get32;
    WordsRead(s, 0);
  }

  /** Slot q of a directory is bytes 64 * (q mod 64) on of its block q / 64. */
  lemma SlotsAt(ino: Ino, data: Blocks, q: nat, j: nat)
    requires NBlocks(ino.size) <= MAXBLOCKS && q < |Slots(ino, data)| && j < 64
    ensures |Slots(ino, data)| == 64 * NBlocks(ino.size) && q / 64 < 3084
    ensures Slots(ino, data)[q][j] == BlockAt(data, SlotBlock(ino, data, q / 64))[64 * (q % 64) + j]
  {
  }

  /** The slots of a block as the kernel scans them: slot i starts at byte 64 * i with the number; its name has as many
      bytes as byte 64 * i + 4 says and may run on through later slots. Reading a listing cuts the end of the name in
      8-bit arithmetic, so it panics for lengths from 248 on and for names that leave the block; the search for a name
      panics for the latter only. */
  lemma ScannedAt(block: Block, i: nat, name: Name)
    requires i < 64
    ensures var used, len := LE(block[64 * i..64 * i + 4]) != 0, block[64 * i + 4] as nat;
      && (BadName(block, i) <==> used && (len >= 248 || 64 * i + 8 + len > 4096))
      && (RunsOut(block, i) <==> used && 64 * i + 8 + len > 4096)
      && (NamedAt(block, i, name) <==> used && |name| == len && 64 * i + 8 + len <= 4096 &&
                                       forall j :: 0 <= j < len ==> block[64 * i + 8 + j] == name[j])
  {
    hide Get32, LE;
    WordsRead(block, 64 * i);
    var from, len := 64 * i + 8, block[64 * i + 4] as nat;
    if from + len <= 4096 && |name| == len {
      var got := block[from..from + len];
      assert forall j :: 0 <= j < len ==> got[j] == block[from + j];
      if forall j :: 0 <= j < len ==> block[from + j] == name[j] {
        assert got == name;
      }
    }
  }

  /** What the next slot adds to the listing. */
  lemma ListedAt(block: Block, i: nat)
    requires i < 64 && forall q :: 0 <= q <= i ==> !BadName(block, q)
    ensures var at, len, before, after := 64 * i, block[64 * i + 4] as nat, Decoded(block, i), Decoded(block, i + 1);
      if LE(block[at..at + 4]) == 0 then after == before
      else at + 8 + len <= 4096 && |after| == |before| + 1 && after[..|before|] == before &&
             after[|before|].inum == LE(block[at..at + 4]) && after[|before|].name == block[at + 8..at + 8 + len]
  {
    hide Get32, LE;
    WordsRead(block, 64 * i);
    ScannedAt(block, i, []);
  }

  /** Clearing a slot zeroes its 64 bytes and no others of the directory. */
  lemma ClearedAt(ino: Ino, data: Blocks, data': Blocks, q: nat, p: nat, j: nat)
    requires SlotCleared(ino, data, data', q) && NBlocks(ino.size) <= MAXBLOCKS
    requires p < 64 * NBlocks(ino.size) && j < 64
    ensures BlockAt(data', SlotBlock(ino, data, p / 64))[64 * (p % 64) + j] ==
      if p == q then 0 else BlockAt(data, SlotBlock(ino, data, p / 64))[64 * (p % 64) + j]
  {
    hide WF, Slots, BlockAt, SlotBlock;
    SameSlotBlock(ino, data, data', p / 64);
    SlotTotal(ino, data);
    SlotTotal(ino, data');
    SlotsAt(ino, data, p, j);
    SlotsAt(ino, data', p, j);
    SlotRead(FREESLOT);
  }

  /** An entry added in place takes the 64 bytes of the first slot whose number is 0, and no others of the directory. */
  lemma EnteredAt(ino: Ino, data: Blocks, slot: Slot, data': Blocks, q: nat, p: nat, j: nat)
    requires AddedInPlace(ino, data, slot, data', q) && NBlocks(ino.size) <= MAXBLOCKS
    requires p < 64 * NBlocks(ino.size) && j < 64
    ensures BlockAt(data', SlotBlock(ino, data, p / 64))[64 * (p % 64) + j] ==
      if p == q then slot[j] else BlockAt(data, SlotBlock(ino, data, p / 64))[64 * (p % 64) + j]
    ensures p < q ==> LE(Slots(ino, data)[p][0..4]) != 0
    ensures LE(Slots(ino, data)[q][0..4]) == 0
  {
    hide WF, Slots, BlockAt, SlotBlock, LE, IsFree;
    SameSlotBlock(ino, data, data', p / 64);
    SlotTotal(ino, data);
    SlotTotal(ino, data');
    SlotsAt(ino, data, p, j);
    SlotsAt(ino, data', p, j);
    SlotRead(Slots(ino, data)[p]);
    SlotRead(Slots(ino, data)[q]);
  }

  lemma SlotTotal(ino: Ino, data: Blocks)
    requires NBlocks(ino.size) <= MAXBLOCKS
    ensures |Slots(ino, data)| == 64 * NBlocks(ino.size)
  {
  }

  lemma SameSlotBlock(ino: Ino, data: Blocks, data': Blocks, v: nat)
    requires SameMap(ino, data, data') && v < NBlocks(ino.size) <= MAXBLOCKS
    ensures SlotBlock(ino, data', v) == SlotBlock(ino, data, v)
  {
    assert LiveSlot(ino, v);
  }

  // ---------- block lists ----------

  /** The block in position v of a file: one of the twelve pointers of the record, and after them entry v - 12, v - 1036
      or v - 2060 of the three tables, four bytes each from the start of the table's block. */
  lemma PointersAt(ino: Ino, data: Blocks, v: nat)
    requires v < 3084
    ensures v < 12 ==> SlotBlock(ino, data, v) == ino.direct[v]
    ensures 12 <= v < 1036 ==>
      SlotBlock(ino, data, v) == LE(BlockAt(data, ino.find)[4 * (v - 12)..4 * (v - 12) + 4])
    ensures 1036 <= v < 2060 ==>
      SlotBlock(ino, data, v) == LE(BlockAt(data, ino.sind)[4 * (v - 1036)..4 * (v - 1036) + 4])
    ensures 2060 <= v ==> SlotBlock(ino, data, v) == LE(BlockAt(data, ino.tind)[4 * (v - 2060)..4 * (v - 2060) + 4])
  {
    hide LE, Get32;
    if 12 <= v < 1036 {
      WordsRead(BlockAt(data, ino.find), 4 * (v - 12));
    } else if 1036 <= v < 2060 {
      WordsRead(BlockAt(data, ino.sind), 4 * (v - 1036));
    } else if 2060 <= v {
      WordsRead(BlockAt(data, ino.tind), 4 * (v - 2060));
    }
  }

  /** The tables themselves, and which of them a file of so many bytes has. */
  lemma TablesAt(ino: Ino, data: Blocks)
    ensures SlotBlock(ino, data, 3084) == ino.find && SlotBlock(ino, data, 3085) == ino.sind
    ensures SlotBlock(ino, data, 3086) == ino.tind
    ensures LiveSlot(ino, 3084) <==> 49152 < ino.size <= 0xffff_f000
    ensures LiveSlot(ino, 3085) <==> 4243456 < ino.size <= 0xffff_f000
    ensures LiveSlot(ino, 3086) <==> 8437760 < ino.size <= 0xffff_f000
    ensures forall v: nat :: v < 3084 ==> (LiveSlot(ino, v) <==> 4096 * v < ino.size <= 0xffff_f000)
  {
    NBlocksIsCeiling(ino.size);
  }

  /** Looking up any position, in the file or not: an error if the table that it is in is no data block, and otherwise
      the pointer from there. Behind the third table the offset is cut to 32 bits, and panics if it leaves the table. */
  lemma LookedUpAt(ino: Ino, data: Blocks, v: u32)
    ensures v < 12 ==> Addressed(ino, v) == BlockOk && AddressOf(ino, data, v) == ino.direct[v]
    ensures 12 <= v < 1036 ==>
      if ino.find >= 16128 then Addressed(ino, v) == BlockError
      else Addressed(ino, v) == BlockOk && AddressOf(ino, data, v) == LE(data[ino.find][4 * (v - 12)..4 * (v - 12) + 4])
    ensures 1036 <= v < 2060 ==>
      var o := 4 * (v - 1036);
      if ino.sind >= 16128 then Addressed(ino, v) == BlockError
      else Addressed(ino, v) == BlockOk && AddressOf(ino, data, v) == LE(data[ino.sind][o..o + 4])
    ensures 2060 <= v ==>
      var o := 4 * (v - 2060) % 0x1_0000_0000;
      if ino.tind >= 16128 then Addressed(ino, v) == BlockError
      else if o > 4092 then Addressed(ino, v) == BlockPanicked
      else Addressed(ino, v) == BlockOk && AddressOf(ino, data, v) == LE(data[ino.tind][o..o + 4])
  {
    hide LE, Get32;
    if v < 3084 {
      PointersAt(ino, data, v);
    } else if 4 * (v - 2060) % 0x1_0000_0000 <= 4092 {
      WordsRead(BlockAt(data, ino.tind), 4 * (v - 2060) % 0x1_0000_0000);
    }
  }

  /** When a resize gives a file a table, the entries behind the last block are zero. */
  lemma NewTablesBlank(ino: Ino, data: Blocks, ino': Ino, data': Blocks, v: nat)
    requires TailsKept(ino, data, ino', data') && ino.size <= 0xffff_f000 && ino'.size <= 12632064
    requires ino'.size <= 4096 * v && v < 3084
    ensures ino.size <= 49152 < ino'.size && 12 <= v < 1036 ==>
      LE(BlockAt(data', ino'.find)[4 * (v - 12)..4 * (v - 12) + 4]) == 0
    ensures ino.size <= 4243456 < ino'.size && 1036 <= v < 2060 ==>
      LE(BlockAt(data', ino'.sind)[4 * (v - 1036)..4 * (v - 1036) + 4]) == 0
    ensures ino.size <= 8437760 < ino'.size && 2060 <= v ==>
      LE(BlockAt(data', ino'.tind)[4 * (v - 2060)..4 * (v - 2060) + 4]) == 0
  {
    hide LE, SlotBlock, LiveSlot;
    NBlocksIsCeiling(ino'.size);
    TablesAt(ino, data);
    TablesAt(ino', data');
    PointersAt(ino', data', v);
  }

  /** Byte j of a file is byte j mod 4096 of the block in position j / 4096. */
  lemma BytesAt(ino: Ino, data: Blocks, j: nat)
    requires j < ino.size <= 12632064
    ensures |Content(ino, data)| == ino.size
    ensures Content(ino, data)[j] == BlockAt(data, SlotBlock(ino, data, j / 4096))[j % 4096]
  {
  }

  // ---------- the first blocks of a fresh disk ----------

  /** On a disk without an owned block, an empty file that grows gets block 0, 1, 2, ... in the order of allocation. */
  lemma {:induction false} BlocksFromZero(ino: Ino, data: Blocks, dbm: DataBitmap, newSize: u32,
                                          ino': Ino, data': Blocks, dbm': DataBitmap, s: nat)
    requires ino.size == 0 && (forall b: nat :: Taken(dbm, b) <==> 16128 <= b < 32768)
    requires Reallocated(ino, data, dbm, newSize, ino', data', dbm') && FirstFit(ino, dbm', ino', data')
    requires LiveSlot(ino', s)
    ensures SlotBlock(ino', data', s) == AllocPos(0, NBlocks(newSize), s)
    decreases AllocPos(0, NBlocks(newSize), s)
  {
    hide SlotBlock, Taken;
    var n, b := AllocPos(0, NBlocks(newSize), s), SlotBlock(ino', data', s);
    assert NBlocks(ino.size) == 0 && NewSlot(ino, ino', s);
    assert b < 16128;
    if n > 0 {
      var t := NewSlotOf(ino, ino', n - 1);
      BlocksFromZero(ino, data, dbm, newSize, ino', data', dbm', t);
    }
    forall t: nat | LiveSlot(ino', t) ensures b > n ==> SlotBlock(ino', data', t) != n {
      assert NewSlot(ino, ino', t);
      if AllocPos(0, NBlocks(newSize), t) < n {
        BlocksFromZero(ino, data, dbm, newSize, ino', data', dbm', t);
      } else {
        SamePosition(ino', NBlocks(newSize), s, t);
      }
    }
    assert b > n ==> n !in Own(ino', data') && !Taken(dbm', n);
  }

  /** So its tables come first, the third before the second before the first, and its blocks follow in order. */
  lemma TablesFirst(ino: Ino, data: Blocks, dbm: DataBitmap, newSize: u32, ino': Ino, data': Blocks, dbm': DataBitmap)
    requires ino.size == 0 && (forall b: nat :: Taken(dbm, b) <==> 16128 <= b < 32768) && newSize <= 12632064
    requires Reallocated(ino, data, dbm, newSize, ino', data', dbm') && FirstFit(ino, dbm', ino', data')
    ensures 49152 < newSize <= 4243456 ==> ino'.find == 0
    ensures 4243456 < newSize <= 8437760 ==> ino'.sind == 0 && ino'.find == 1
    ensures 8437760 < newSize ==> ino'.tind == 0 && ino'.sind == 1 && ino'.find == 2
    ensures forall v: nat :: 4096 * v < newSize ==>
      SlotBlock(ino', data', v) ==
        v + if newSize <= 49152 then 0 else if newSize <= 4243456 then 1 else if newSize <= 8437760 then 2 else 3
  {
    NBlocksIsCeiling(newSize);
    TablesAt(ino', data');
    AsLarge(ino, data, dbm, newSize, ino', data', dbm');
    hide Reallocated, FirstFit, Taken, SlotBlock;
    forall s: nat | LiveSlot(ino', s) ensures SlotBlock(ino', data', s) == AllocPos(0, NBlocks(newSize), s) {
      BlocksFromZero(ino, data, dbm, newSize, ino', data', dbm', s);
    }
  }

  lemma AsLarge(ino: Ino, data: Blocks, dbm: DataBitmap, newSize: u32, ino': Ino, data': Blocks, dbm': DataBitmap)
    requires Reallocated(ino, data, dbm, newSize, ino', data', dbm')
    ensures ino'.size == newSize
  {
  }

  /** Two slots in use have different places in the order of allocation. */
  lemma SamePosition(ino': Ino, n: nat, s: nat, t: nat)
    requires LiveSlot(ino', s) && LiveSlot(ino', t) && NBlocks(ino'.size) == n <= 3084
    ensures AllocPos(0, n, s) == AllocPos(0, n, t) ==> s == t
  {
  }

  /** A first file of 53248 bytes, thirteen blocks: the table is block 0, the twelve pointers of the record lead to
      blocks 1 to 12, and the table starts with the bytes 13, 0, 0, 0. Looking up position 12 finds block 13. */
  method ThirteenBlocks(disk: MemDisk, superBuf: Block, now: u64)
    returns (k: Kernel, inode: Inode, r: FallocResult, table: Block, b: u32, how: BlockResult)
    requires disk.buf.Length == DISKSIZE
    modifies disk.buf
    ensures fresh(k) && k.fs.disk == disk && k.fs.Valid() && r == Done
    ensures inode.find == 0 && inode.direct == [1, 2, 3, 4, 5, 6, 7, 8, 9, 10, 11, 12]
    ensures table == k.fs.data[0] && table[..4] == [13, 0, 0, 0]
    ensures disk.buf[1044480..1044484] == [13, 0, 0, 0]
    ensures how == BlockOk && b == 13
  {
    hide Shows, Free, Reallocated, FirstFit, FsOk, Decode, WF, Own, SlotBlock, LE, Get32, Formatted, Encode;
    var fs := new FileSystem.Format(disk, superBuf, now);
    k := new Kernel(fs);
    inode := new Inode();
    ghost var ino, data, dbm := inode.Val(), fs.data, fs.dbm;
    FreshBits(fs.ibm, fs.itab, dbm, data, now);
    EmptyInode(ino, data);
    SoundWhenEmpty(ino, data, dbm);
    r := Falloc(fs, inode, 53248);
    ThirteenFromZero(ino, data, dbm, inode.Val(), fs.data, fs.dbm);
    var ok;
    table, ok := fs.ReadDataBlock(0);
    FirstWord(table);
    ghost var img := disk.buf[..];
    RegionsAt(img, fs.ibm, fs.itab, fs.dbm, fs.data);
    assert disk.buf[1044480..1044484] == table[..4];
    b, how := BlockNumForVirtual(fs, inode, 12);
  }

  lemma FreshBits(ibm: InodeBitmap, itab: InodeTable, dbm: DataBitmap, data: Blocks, now: u64)
    requires Formatted(ibm, itab, dbm, data, now)
    ensures |Free(dbm)| == 16128 && forall b: nat :: Taken(dbm, b) <==> 16128 <= b < 32768
  {
    hide Bit;
    FormattedFree(ibm, itab, dbm, data, now);
    forall b: nat ensures Taken(dbm, b) <==> 16128 <= b < 32768 {
      FormattedDataBits(b);
    }
  }

  lemma SoundWhenEmpty(ino: Ino, data: Blocks, dbm: DataBitmap)
    requires WF(ino, data) && Own(ino, data) == {} && forall b: nat :: Taken(dbm, b) <==> 16128 <= b < 32768
    ensures Sound(ino, data, dbm)
  {
  }

  lemma ThirteenFromZero(ino: Ino, data: Blocks, dbm: DataBitmap, ino': Ino, data': Blocks, dbm': DataBitmap)
    requires ino.size == 0 && (forall b: nat :: Taken(dbm, b) <==> 16128 <= b < 32768)
    requires Reallocated(ino, data, dbm, 53248, ino', data', dbm') && FirstFit(ino, dbm', ino', data')
    ensures ino'.find == 0 && ino'.direct == [1, 2, 3, 4, 5, 6, 7, 8, 9, 10, 11, 12]
    ensures SlotBlock(ino', data', 12) == 13 && LE(data'[0][0..4]) == 13 && NBlocks(ino'.size) == 13
  {
    hide Reallocated, FirstFit, SlotBlock, LE, Taken;
    SizeAfter(ino, data, dbm, ino', data', dbm');
    TablesAt(ino', data');
    BlocksFromZero(ino, data, dbm, 53248, ino', data', dbm', 3084);
    forall v: nat | v < 13 ensures SlotBlock(ino', data', v) == v + 1 {
      BlocksFromZero(ino, data, dbm, 53248, ino', data', dbm', v);
    }
    forall v: nat | v < 13 ensures v < 12 ==> ino'.direct[v] == v + 1 {
      PointersAt(ino', data', v);
    }
    PointersAt(ino', data', 12);
  }

  lemma SizeAfter(ino: Ino, data: Blocks, dbm: DataBitmap, ino': Ino, data': Blocks, dbm': DataBitmap)
    requires Reallocated(ino, data, dbm, 53248, ino', data', dbm')
    ensures ino'.size == 53248 && NBlocks(ino'.size) == 13
  {
  }

  lemma FirstWord(s: seq<byte>)
    requires |s| >= 4 && LE(s[0..4]) == 13
    ensures s[..4] == [13, 0, 0, 0]
  {
    LEOfFour(s[0..4]);
    assert s[..4] == s[0..4];
  }
}

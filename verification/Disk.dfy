/** The disk and the file system's block, inode and inode-bitmap operations
    (computer/fs.go, computer/fs_inode.go). */
module Disk {
  import opened Bytes
  import opened Bitmap
  import opened Layout
  import opened Inodes

  datatype DiskError = NegativeOffset | EndOfFile | ShortWrite
  datatype DiskResult = DiskOk | DiskFailed(error: DiskError)

  /** The in-memory disk: one byte slice, written in place. */
  class MemDisk {
    var buf: array<byte>

    constructor (size: nat)
      ensures fresh(buf) && buf[..] == Fill(size, 0)
    {
      buf := new byte[size](_ => 0);
    }

    method ReadAt(p: array<byte>, off: int) returns (n: nat, r: DiskResult)
      requires p != buf
      modifies p
      ensures off < 0 ==> n == 0 && r == DiskFailed(NegativeOffset) && p[..] == old(p[..])
      ensures off >= buf.Length ==> n == 0 && r == DiskFailed(EndOfFile) && p[..] == old(p[..])
      ensures 0 <= off < buf.Length ==>
        && n == (if p.Length <= buf.Length - off then p.Length else buf.Length - off)
        && p[..] == buf[off..off + n] + old(p[..])[n..]
        && r == if n < p.Length then DiskFailed(EndOfFile) else DiskOk
    {
      if off < 0 {
        return 0, DiskFailed(NegativeOffset);
      }
      if off >= buf.Length {
        return 0, DiskFailed(EndOfFile);
      }
      n := if p.Length <= buf.Length - off then p.Length else buf.Length - off;
      forall k | 0 <= k < n {
        p[k] := buf[off + k];
      }
      r := if n < p.Length then DiskFailed(EndOfFile) else DiskOk;
    }

    method WriteAt(b: seq<byte>, off: int) returns (n: nat, r: DiskResult)
      modifies buf
      ensures off < 0 ==> n == 0 && r == DiskFailed(NegativeOffset) && buf[..] == old(buf[..])
      ensures off >= buf.Length ==>
        n == 0 && r == (if |b| == 0 then DiskOk else DiskFailed(ShortWrite)) && buf[..] == old(buf[..])
      ensures 0 <= off < buf.Length ==>
        && n == (if |b| <= buf.Length - off then |b| else buf.Length - off)
        && buf[..] == Splice(old(buf[..]), off, b[..n])
        && r == if n < |b| then DiskFailed(ShortWrite) else DiskOk
    {
      if off < 0 {
        return 0, DiskFailed(NegativeOffset);
      }
      if off >= buf.Length {
        return 0, if |b| == 0 then DiskOk else DiskFailed(ShortWrite);
      }
      n := if |b| <= buf.Length - off then |b| else buf.Length - off;
      forall k | 0 <= k < n {
        buf[off + k] := b[k];
      }
      r := if n < |b| then DiskFailed(ShortWrite) else DiskOk;
    }

    /** Cut or zero-extend; the surviving prefix is kept. */
    method Truncate(size: int) returns (r: DiskResult)
      modifies this
      ensures size < 0 ==> r == DiskFailed(NegativeOffset) && buf == old(buf)
      ensures 0 <= size <= old(buf.Length) ==> r == DiskOk && buf[..] == old(buf[..size])
      ensures size > old(buf.Length) ==> r == DiskOk && buf[..] == old(buf[..]) + Fill(size - old(buf.Length), 0)
    {
      if size < 0 {
        return DiskFailed(NegativeOffset);
      }
      if size != buf.Length {
        var before := buf;
        buf := new byte[size](k requires 0 <= k < size reads before => if k < before.Length then before[k] else 0);
      }
      return DiskOk;
    }
  }

  /** An inode in memory. */
  class Inode {
    var dirty: bool
    var size: u32
    var fType: byte
    var refs: u16
    var owner: Owner
    var setuid: bool
    var ownerMode: byte
    var otherMode: byte
    var direct: Direct
    var find: u32
    var sind: u32
    var tind: u32
    var createdAt: u64
    var modifiedAt: u64
    var num: u32

    /** Every field zero. */
    constructor ()
      ensures Val() == ZEROINO && num == 0 && !dirty
    {
      dirty, size, fType, refs, owner, setuid := false, 0, 0, 0, Fill(OWNERLEN, 0), false;
      ownerMode, otherMode, direct, find, sind, tind := 0, 0, Fill(NDIRECT, 0), 0, 0, 0;
      createdAt, modifiedAt, num := 0, 0, 0;
    }

    constructor Of(v: Ino)
      ensures Val() == v && num == 0 && !dirty
    {
      dirty, size, fType, refs, owner, setuid := false, v.size, v.fType, v.refs, v.owner, v.setuid;
      ownerMode, otherMode, direct, find, sind, tind := v.ownerMode, v.otherMode, v.direct, v.find, v.sind, v.tind;
      createdAt, modifiedAt, num := v.createdAt, v.modifiedAt, 0;
    }

    /** The persisted fields. */
    function Val(): Ino
      reads this
    {
      Ino(size, fType, refs, owner, setuid, ownerMode, otherMode, direct, find, sind, tind, createdAt, modifiedAt)
    }
  }

  const ZEROINO := Ino(0, 0, 0, Fill(OWNERLEN, 0), false, 0, 0, Fill(NDIRECT, 0), 0, 0, 0, 0, 0)

  // ---------- serialising field by field ----------

  method PutByte(buf: array<byte>, off: nat, b: byte, ghost e: seq<byte>)
    requires off < buf.Length == |e| && buf[..off] == e[..off] && e[off] == b
    modifies buf
    ensures buf[..off + 1] == e[..off + 1]
  {
    buf[off] := b;
  }

  method PutBytes(buf: array<byte>, off: nat, d: seq<byte>, ghost e: seq<byte>)
    requires off + |d| <= buf.Length == |e| && buf[..off] == e[..off] && e[off..off + |d|] == d
    modifies buf
    ensures buf[..off + |d|] == e[..off + |d|]
  {
    for k := 0 to |d|
      invariant buf[..off + k] == e[..off + k]
    {
      assert e[off + k] == e[off..off + |d|][k];
      PutByte(buf, off + k, d[k], e);
    }
  }

  method PutWords(buf: array<byte>, off: nat, ws: seq<u32>, ghost e: seq<byte>)
    requires off + 4 * |ws| <= buf.Length == |e| && buf[..off] == e[..off] && e[off..off + 4 * |ws|] == EncWords(ws)
    modifies buf
    ensures buf[..off + 4 * |ws|] == e[..off + 4 * |ws|]
  {
    for k := 0 to |ws|
      invariant buf[..off + 4 * k] == e[..off + 4 * k]
    {
      EncWordsAt(ws, k);
      SubSlice(e, off, off + 4 * |ws|, 4 * k, 4 * k + 4);
      PutBytes(buf, off + 4 * k, Enc32(ws[k]), e);
    }
  }

  /** The 128 bytes writeInode builds (computer/fs_inode.go:155-189). */
  method SerializeInode(inode: Inode) returns (buf: array<byte>)
    ensures fresh(buf) && buf[..] == Encode(inode.Val())
  {
    buf := new byte[INODESIZE](_ => 0);
    EncodeLayout(inode.Val());
    SerializeParts(inode, buf, inode.Val(), Encode(inode.Val()));
  }

  method SerializeParts(inode: Inode, buf: array<byte>, ghost v: Ino, ghost e: seq<byte>)
    requires v == inode.Val() && buf.Length == |e| == INODESIZE
    requires e[..24] == EncHead(v) && e[24..72] == EncWords(v.direct)
    requires e[72..100] == EncTail(v) && e[100..] == Fill(28, 0)
    modifies buf
    ensures buf[..] == e
  {
    SerializeHead(inode, buf, v, e);
    PutWords(buf, 24, inode.direct, e);
    SerializeTail(inode, buf, v, e);
    for i := 0 to 28
      invariant buf[..100 + i] == e[..100 + i]
    {
      assert e[100 + i] == e[100..][i];
      PutByte(buf, 100 + i, 0, e);
    }
    assert buf[..] == buf[..128] && e == e[..128];
  }

  method SerializeHead(inode: Inode, buf: array<byte>, ghost v: Ino, ghost e: seq<byte>)
    requires v == inode.Val() && buf.Length == |e| == INODESIZE && e[..24] == EncHead(v)
    modifies buf
    ensures buf[..24] == e[..24]
  {
    ghost var h := e[..24];
    HeadLayout(v);
    SubSlice(e, 0, 24, 0, 4);
    SubSlice(e, 0, 24, 5, 7);
    SubSlice(e, 0, 24, 7, 21);
    assert e[4] == h[4] && e[21] == h[21] && e[22] == h[22] && e[23] == h[23];
    PutBytes(buf, 0, Enc32(inode.size), e);
    PutByte(buf, 4, inode.fType, e);
    PutBytes(buf, 5, Enc16(inode.refs), e);
    PutBytes(buf, 7, inode.owner, e);
    PutByte(buf, 21, if inode.setuid then 1 else 0, e);
    PutByte(buf, 22, inode.ownerMode, e);
    PutByte(buf, 23, inode.otherMode, e);
  }

  method SerializeTail(inode: Inode, buf: array<byte>, ghost v: Ino, ghost e: seq<byte>)
    requires v == inode.Val() && buf.Length == |e| == INODESIZE && e[72..100] == EncTail(v) && buf[..72] == e[..72]
    modifies buf
    ensures buf[..100] == e[..100]
  {
    TailLayout(v);
    SubSlice(e, 72, 100, 0, 4);
    SubSlice(e, 72, 100, 4, 8);
    SubSlice(e, 72, 100, 8, 12);
    SubSlice(e, 72, 100, 12, 20);
    SubSlice(e, 72, 100, 20, 28);
    PutBytes(buf, 72, Enc32(inode.find), e);
    PutBytes(buf, 76, Enc32(inode.sind), e);
    PutBytes(buf, 80, Enc32(inode.tind), e);
    PutBytes(buf, 84, Enc64(inode.createdAt), e);
    PutBytes(buf, 92, Enc64(inode.modifiedAt), e);
  }

  /** The fields readInode fills in (computer/fs_inode.go:117-144). */
  method DeserializeInode(inode: Inode, buf: array<byte>)
    requires buf.Length == INODESIZE
    modifies inode
    ensures inode.Val() == Decode(buf[..])
    ensures inode.num == old(inode.num) && inode.dirty == old(inode.dirty)
  {
    inode.size := Get32(buf[..], 0);
    inode.fType := buf[4];
    inode.refs := Get16(buf[..], 5);
    DeserializeOwner(inode, buf);
    inode.setuid := buf[21] == 1;
    inode.ownerMode := buf[22];
    inode.otherMode := buf[23];
    DeserializeDirect(inode, buf);
    DeserializeTail(inode, buf);
  }

  method DeserializeTail(inode: Inode, buf: array<byte>)
    requires buf.Length == INODESIZE
    modifies inode`find, inode`sind, inode`tind, inode`createdAt, inode`modifiedAt
    ensures inode.find == Get32(buf[..], 72) && inode.sind == Get32(buf[..], 76) && inode.tind == Get32(buf[..], 80)
    ensures inode.createdAt == Get64(buf[..], 84) && inode.modifiedAt == Get64(buf[..], 92)
  {
    inode.find := Get32(buf[..], 72);
    inode.sind := Get32(buf[..], 76);
    inode.tind := Get32(buf[..], 80);
    inode.createdAt := Get64(buf[..], 84);
    inode.modifiedAt := Get64(buf[..], 92);
  }

  method DeserializeOwner(inode: Inode, buf: array<byte>)
    requires buf.Length == INODESIZE
    modifies inode`owner
    ensures inode.owner == buf[7..21]
  {
    for i := 0 to OWNERLEN
      invariant inode.owner[..i] == buf[7..7 + i]
    {
      inode.owner := inode.owner[i := buf[7 + i]];
    }
  }

  method DeserializeDirect(inode: Inode, buf: array<byte>)
    requires buf.Length == INODESIZE
    modifies inode`direct
    ensures inode.direct == DecWords(buf[..], 24, NDIRECT)
  {
    for i := 0 to NDIRECT
      invariant forall k :: 0 <= k < i ==> inode.direct[k] == Get32(buf[..], 24 + 4 * k)
    {
      inode.direct := inode.direct[i := Get32(buf[..], 24 + 4 * i)];
    }
  }

  datatype FreeInodeResult = Freed | OutOfRange | AlreadyFree

  /** The root inode of a fresh disk (computer/fs.go:286-301). */
  function RootInode(now: u64): Ino
  {
    var root: Owner := [0x72, 0x6f, 0x6f, 0x74] + Fill(10, 0);
    Ino(0, S_IFDIR, 0, root, false, 7, 5, Fill(NDIRECT, 0), 0, 0, 0, now, now)
  }

  /** A freshly formatted volume (computer/fs.go:186-258, 282-302). */
  ghost predicate Formatted(ibm: InodeBitmap, itab: InodeTable, dbm: DataBitmap, data: Blocks, now: u64)
  {
    && ibm == FormattedIbm()
    && dbm == FormattedDbm()
    && (forall b :: 0 <= b < BLOCKS ==> data[b] == ZERO)
    && (forall i :: 0 <= i < INODES && i != 2 ==> itab[i] == Fill(INODESIZE, 0))
    && itab[2] == Encode(RootInode(now))
  }

  function FormattedIbm(): InodeBitmap
  {
    Fill(INODES / 8, 0)[0 := 7]
  }

  /** The bits at and above the data block count are set for good. */
  function FormattedDbm(): DataBitmap
  {
    seq(BLOCKSIZE, k => if k < BLOCKS / 8 then 0 else 0xff)
  }

  function FormattedByte(superBuf: Block, k: nat): byte
    requires k < DISKSIZE
  {
    if k < BLOCKSIZE then superBuf[k]
    else if k == INODE_BITMAP_START * BLOCKSIZE then 7
    else if k < DATA_BITMAP_START * BLOCKSIZE then 0
    else if k < DATA_BLOCKS_START * BLOCKSIZE then FormattedDbm()[k - DATA_BITMAP_START * BLOCKSIZE]
    else if k < (DATA_BLOCKS_START + BLOCKS) * BLOCKSIZE then 0
    else 103
  }

  ghost predicate FormattedTo(img: Image, superBuf: Block, n: nat)
  {
    forall k :: 0 <= k < n <= DISKSIZE ==> img[k] == FormattedByte(superBuf, k)
  }

  /** One format step: the formatted prefix grows by what is written at its end. */
  method FormatStep(d: MemDisk, b: seq<byte>, off: nat, ghost superBuf: Block)
    requires d.buf.Length == DISKSIZE && off + |b| <= DISKSIZE
    requires FormattedTo(d.buf[..], superBuf, off)
    requires forall k :: 0 <= k < |b| ==> b[k] == FormattedByte(superBuf, off + k)
    modifies d.buf
    ensures FormattedTo(d.buf[..], superBuf, off + |b|)
  {
    if |b| > 0 {
      var n, _ := d.WriteAt(b, off);
      assert b[..n] == b;
    }
  }

  /** Formatting overwrites whatever the disk held (computer/fs.go:186-258). */
  method FormatDisk(d: MemDisk, superBuf: Block)
    requires d.buf.Length == DISKSIZE
    modifies d.buf
    ensures FormattedTo(d.buf[..], superBuf, DISKSIZE)
  {
    FormatStep(d, superBuf, 0, superBuf);
    var inodeBitmapBuf := new byte[BLOCKSIZE](_ => 0);
    inodeBitmapBuf[0] := 7;
    FormatStep(d, inodeBitmapBuf[..], INODE_BITMAP_START * BLOCKSIZE, superBuf);
    FormatStep(d, Fill(BLOCKSIZE * 252, 0), INODE_TABLE_START * BLOCKSIZE, superBuf);
    var dataBitmapBuf := new byte[BLOCKSIZE](_ => 0);
    for idx := BLOCKS / 8 to BLOCKSIZE
      invariant forall k :: 0 <= k < BLOCKSIZE ==> dataBitmapBuf[k] == if BLOCKS / 8 <= k < idx then 0xff else 0
      modifies dataBitmapBuf
    {
      dataBitmapBuf[idx] := 0xff;
    }
    FormatStep(d, dataBitmapBuf[..], DATA_BITMAP_START * BLOCKSIZE, superBuf);
    FormatStep(d, Fill(BLOCKSIZE * BLOCKS, 0), DATA_BLOCKS_START * BLOCKSIZE, superBuf);
    FormatStep(d, Fill(BLOCKSIZE, 103), (DATA_BLOCKS_START + BLOCKS) * BLOCKSIZE, superBuf);
  }

  lemma FormattedShows(img: Image, superBuf: Block)
    requires FormattedTo(img, superBuf, DISKSIZE)
    ensures Shows(img, FormattedIbm(), Fill<InodeRecord>(INODES, Fill(INODESIZE, 0)), FormattedDbm(),
                  Fill<Block>(BLOCKS, ZERO))
  {
    forall i | 0 <= i < INODES ensures InodeBytes(img, i) == Fill(INODESIZE, 0) {
    }
    forall b | 0 <= b < BLOCKS ensures DataBytes(img, b) == ZERO {
    }
  }

  /** The superblock and the padding behind the data blocks, which no record reaches. */
  lemma FormattedEnds(img: Image, superBuf: Block, at: nat, record: InodeRecord)
    requires FormattedTo(img, superBuf, DISKSIZE) && 4096 <= at <= 67104640
    ensures forall k :: 0 <= k < 4096 ==> Splice(img, at, record)[k] == superBuf[k]
    ensures forall k :: 67104768 <= k < 67108864 ==> Splice(img, at, record)[k] == 103
  {
    hide FormattedDbm;
  }

  class FileSystem {
    const disk: MemDisk
    // What the disk holds, region by region.
    ghost var ibm: InodeBitmap
    ghost var itab: InodeTable
    ghost var dbm: DataBitmap
    ghost var data: Blocks

    ghost predicate Valid()
      reads this, disk, disk.buf
    {
      disk.buf.Length == DISKSIZE && Shows(disk.buf[..], ibm, itab, dbm, data)
    }

    constructor Format(disk: MemDisk, superBuf: Block, now: u64)
      requires disk.buf.Length == DISKSIZE
      modifies disk.buf
      ensures this.disk == disk && Valid() && Formatted(ibm, itab, dbm, data, now)
      ensures forall k :: 0 <= k < 4096 ==> disk.buf[k] == superBuf[k]
      ensures forall k :: 67104768 <= k < 67108864 ==> disk.buf[k] == 103
    {
      this.disk := disk;
      ibm, itab := FormattedIbm(), Fill<InodeRecord>(INODES, Fill(INODESIZE, 0));
      dbm, data := FormattedDbm(), Fill<Block>(BLOCKS, ZERO);
      new;
      hide FormattedTo, Splice, Encode, FormattedDbm, FormattedIbm, Shows;
      FormatDisk(disk, superBuf);
      ghost var img: Image := disk.buf[..];
      FormattedShows(img, superBuf);
      var root := new Inode.Of(RootInode(now));
      var _ := WriteInode(root, 2);
      FormattedEnds(img, superBuf, 8448, Encode(root.Val()));
    }

    method ReadBlock(blockNum: u32) returns (block: Block, ok: bool)
      requires Valid()
      ensures ok <==> blockNum < TOTALBLOCKS
      ensures block == if ok then BlockBytes(disk.buf[..], blockNum) else ZERO
    {
      if blockNum >= TOTALBLOCKS {
        return ZERO, false;
      }
      var p := new byte[BLOCKSIZE](_ => 0);
      var n, r := disk.ReadAt(p, blockNum * BLOCKSIZE);
      return p[..], r == DiskOk;
    }

    method WriteBlock(blockNum: u32, d: seq<byte>) returns (ok: bool)
      requires Valid()
      modifies disk.buf
      ensures ok <==> blockNum < TOTALBLOCKS && |d| == BLOCKSIZE
      ensures disk.buf[..] == if ok then Splice(old(disk.buf[..]), blockNum * BLOCKSIZE, d) else old(disk.buf[..])
    {
      if blockNum >= TOTALBLOCKS {
        return false;
      }
      if |d| != BLOCKSIZE {
        return false;
      }
      var n, r := disk.WriteAt(d, blockNum * BLOCKSIZE);
      assert d[..n] == d;
      return r == DiskOk;
    }

    method ReadDataBlock(idx: u32) returns (block: Block, ok: bool)
      requires Valid()
      ensures ok <==> idx < BLOCKS
      ensures block == BlockAt(data, idx)
    {
      if idx >= BLOCKS {
        return ZERO, false;
      }
      block, ok := ReadBlock(idx + DATA_BLOCKS_START);
      assert data[idx] == DataBytes(disk.buf[..], idx);
    }

    method WriteDataBlock(idx: u32, d: seq<byte>) returns (ok: bool)
      requires Valid()
      modifies this`data, disk.buf
      ensures Valid()
      ensures ok <==> idx < BLOCKS && |d| == BLOCKSIZE
      ensures data == if ok then old(data)[idx := d] else old(data)
    {
      if idx >= BLOCKS {
        return false;
      }
      ghost var img: Image := disk.buf[..];
      ok := WriteBlock(idx + DATA_BLOCKS_START, d);
      if ok {
        ShowsDataBlock(img, ibm, itab, dbm, data, idx, d);
        data := data[idx := d];
      }
    }

    /** Loads the data bitmap (computer/fs_falloc.go:93). */
    method ReadDataBitmap(buf: array<byte>)
      requires Valid() && buf.Length == BLOCKSIZE && buf != disk.buf
      modifies buf
      ensures buf[..] == dbm
    {
      var _, _ := disk.ReadAt(buf, DATA_BITMAP_START * BLOCKSIZE);
    }

    method WriteDataBitmap(buf: array<byte>)
      requires Valid() && buf.Length == BLOCKSIZE && buf != disk.buf
      modifies this`dbm, disk.buf
      ensures Valid() && dbm == buf[..]
    {
      ghost var img: Image := disk.buf[..];
      var n, _ := disk.WriteAt(buf[..], DATA_BITMAP_START * BLOCKSIZE);
      assert buf[..][..n] == buf[..];
      ShowsDataBitmap(img, ibm, itab, dbm, data, buf[..]);
      dbm := buf[..];
    }

    /** readInode. An index past the inode table reads whatever lies there. */
    method ReadInode(inode: Inode, idx: u32) returns (ok: bool)
      requires Valid()
      modifies inode
      ensures inode.num == idx && inode.dirty == old(inode.dirty)
      ensures ok <==> RecordFits(idx)
      ensures ok ==> inode.Val() == Decode(RecordBytes(disk.buf[..], idx))
      ensures idx < INODES ==> ok && inode.Val() == Decode(itab[idx])
    {
      hide Shows, Decode;
      inode.num := idx;
      var startIdx := INODE_TABLE_START * BLOCKSIZE + idx * INODESIZE;
      var inodeBuf := new byte[INODESIZE](_ => 0);
      var n, r := disk.ReadAt(inodeBuf, startIdx);
      if r != DiskOk {
        return false;
      }
      if n != INODESIZE {
        return false;
      }
      DeserializeInode(inode, inodeBuf);
      assert inodeBuf[..] == RecordBytes(disk.buf[..], idx);
      if idx < INODES {
        ShownRecord(disk.buf[..], ibm, itab, dbm, data, idx);
      }
      return true;
    }

    /** writeInode. An index past the inode table overwrites whatever lies there. */
    method WriteInode(inode: Inode, idx: u32) returns (ok: bool)
      requires Valid()
      modifies this`itab, disk.buf
      ensures ok <==> RecordFits(idx)
      ensures idx < INODES ==> Valid() && ok && itab == old(itab)[idx := Encode(inode.Val())]
      ensures idx >= INODES ==> itab == old(itab)
      ensures ok ==>
        disk.buf[..] == Splice(old(disk.buf[..]), INODE_TABLE_START * BLOCKSIZE + idx * INODESIZE, Encode(inode.Val()))
      ensures !ok ==> disk.buf[..] == old(disk.buf[..])
    {
      var startIdx := INODE_TABLE_START * BLOCKSIZE + idx * INODESIZE;
      var inodeBuf := SerializeInode(inode);
      ghost var img: Image := disk.buf[..];
      var n, r := disk.WriteAt(inodeBuf[..], startIdx);
      if r != DiskOk {
        return false;
      }
      assert inodeBuf[..][..n] == inodeBuf[..];
      if idx < INODES {
        ShowsInode(img, ibm, itab, dbm, data, idx, inodeBuf[..]);
        itab := itab[idx := inodeBuf[..]];
      }
      return n == INODESIZE;
    }

    method WriteInodeBitmap(buf: array<byte>)
      requires Valid() && buf.Length == INODES / 8 && buf != disk.buf
      modifies this`ibm, disk.buf
      ensures Valid() && ibm == buf[..]
    {
      ghost var img: Image := disk.buf[..];
      var n, _ := disk.WriteAt(buf[..], INODE_BITMAP_START * BLOCKSIZE);
      assert buf[..][..n] == buf[..];
      ShowsInodeBitmap(img, ibm, itab, dbm, data, buf[..]);
      ibm := buf[..];
    }

    /** The lowest clear inode bit, now set; fails only when every inode is taken. */
    method AllocInode() returns (idx: u32, ok: bool)
      requires Valid()
      modifies this`ibm, disk.buf
      ensures Valid()
      ensures !ok <==> FullBelow(old(ibm), INODES)
      ensures !ok ==> ibm == old(ibm)
      ensures ok ==> LowestFree(old(ibm), idx)
      ensures ok ==> forall j: nat :: Taken(ibm, j) <==> j == idx || Taken(old(ibm), j)
    {
      var inodeBitmapBuf := new byte[INODES / 8](_ => 0);
      var _, _ := disk.ReadAt(inodeBitmapBuf, INODE_BITMAP_START * BLOCKSIZE);
      assert inodeBitmapBuf[..] == ibm;
      idx, ok := FindFreeBit(inodeBitmapBuf);
      if !ok {
        return 0, false;
      }
      SetBit(inodeBitmapBuf, idx);
      WriteInodeBitmap(inodeBitmapBuf);
    }

    method FreeInodeFromBitmap(inum: u32) returns (r: FreeInodeResult)
      requires Valid()
      modifies this`ibm, disk.buf
      ensures Valid()
      ensures r == if inum >= INODES then OutOfRange else if !Taken(old(ibm), inum) then AlreadyFree else Freed
      ensures r != Freed ==> ibm == old(ibm)
      ensures r == Freed ==> forall j: nat :: Taken(ibm, j) <==> j != inum && Taken(old(ibm), j)
    {
      if inum >= INODES {
        return OutOfRange;
      }
      var inodeBitmapBuf := new byte[INODES / 8](_ => 0);
      var _, _ := disk.ReadAt(inodeBitmapBuf, INODE_BITMAP_START * BLOCKSIZE);
      assert inodeBitmapBuf[..] == ibm;
      if !Bit(inodeBitmapBuf[inum / 8], inum % 8) {
        return AlreadyFree;
      }
      ClearBit(inodeBitmapBuf, inum);
      WriteInodeBitmap(inodeBitmapBuf);
      return Freed;
    }
  }
}

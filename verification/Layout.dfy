/** The disk layout (computer/fs.go:94-102, 191-209; FILESYSTEM.md) and what a raw disk image shows:
    the inode bitmap, the inode table, the data bitmap and the data blocks. */
module Layout {
  import opened Bytes

  const BLOCKSIZE := 0x1000
  const INODESIZE := 0x80
  const INODES := 8064
  const BLOCKS := 16128
  const TOTALBLOCKS := 16384
  const DISKSIZE := 67_108_864

  const INODE_BITMAP_START := 1
  const INODE_TABLE_START := 2
  const DATA_BITMAP_START := 254
  const DATA_BLOCKS_START := 255

  function Fill<T>(n: nat, x: T): (r: seq<T>)
    ensures |r| == n && forall k :: 0 <= k < n ==> r[k] == x
  {
    seq(n, _ => x)
  }

  type Block = s: seq<byte> | |s| == BLOCKSIZE witness Fill(BLOCKSIZE, 0)
  type InodeRecord = s: seq<byte> | |s| == INODESIZE witness Fill(INODESIZE, 0)
  type InodeBitmap = s: seq<byte> | |s| == INODES / 8 witness Fill(INODES / 8, 0)
  type DataBitmap = s: seq<byte> | |s| == BLOCKSIZE witness Fill(BLOCKSIZE, 0)
  type InodeTable = s: seq<InodeRecord> | |s| == INODES witness Fill<InodeRecord>(INODES, Fill(INODESIZE, 0))
  type Blocks = s: seq<Block> | |s| == BLOCKS witness Fill<Block>(BLOCKS, Fill(BLOCKSIZE, 0))

  const ZERO: Block := Fill(BLOCKSIZE, 0)

  /** The contents of a data block; reading outside the data region yields the zeroed block
      (computer/fs.go:353-359). */
  function BlockAt(data: Blocks, b: nat): Block
  {
    if b < BLOCKS then data[b] else ZERO
  }

  type Image = s: seq<byte> | |s| == DISKSIZE witness Fill(DISKSIZE, 0)

  function InodeBytes(img: Image, i: nat): InodeRecord
    requires i < INODES
  {
    img[INODE_TABLE_START * BLOCKSIZE + i * INODESIZE..INODE_TABLE_START * BLOCKSIZE + i * INODESIZE + INODESIZE]
  }

  /** Whether the disk has room for a record with this number; the table ends before the disk does. */
  predicate RecordFits(i: nat)
  {
    INODE_TABLE_START * BLOCKSIZE + i * INODESIZE + INODESIZE <= DISKSIZE
  }

  /** The 128 bytes where the record of inode i would be, in the table or behind it. */
  function RecordBytes(img: seq<byte>, i: nat): InodeRecord
    requires |img| == DISKSIZE && RecordFits(i)
  {
    img[INODE_TABLE_START * BLOCKSIZE + i * INODESIZE..INODE_TABLE_START * BLOCKSIZE + i * INODESIZE + INODESIZE]
  }

  function BlockBytes(img: Image, n: nat): Block
    requires n < TOTALBLOCKS
  {
    img[n * BLOCKSIZE..n * BLOCKSIZE + BLOCKSIZE]
  }

  function DataBytes(img: Image, b: nat): Block
    requires b < BLOCKS
  {
    BlockBytes(img, DATA_BLOCKS_START + b)
  }

  ghost predicate Shows(img: Image, ibm: InodeBitmap, itab: InodeTable, dbm: DataBitmap, data: Blocks)
  {
    && ibm == img[INODE_BITMAP_START * BLOCKSIZE..INODE_BITMAP_START * BLOCKSIZE + INODES / 8]
    && dbm == BlockBytes(img, DATA_BITMAP_START)
    && (forall i :: 0 <= i < INODES ==> itab[i] == InodeBytes(img, i))
    && (forall b :: 0 <= b < BLOCKS ==> data[b] == DataBytes(img, b))
  }

  lemma ShownRecord(img: Image, ibm: InodeBitmap, itab: InodeTable, dbm: DataBitmap, data: Blocks, i: nat)
    requires Shows(img, ibm, itab, dbm, data) && i < INODES
    ensures RecordFits(i) && RecordBytes(img, i) == itab[i]
  {
  }

  // Each write changes one region of what is shown and nothing else: the regions do not overlap.

  lemma ShowsDataBlock(img: Image, ibm: InodeBitmap, itab: InodeTable, dbm: DataBitmap, data: Blocks, b: nat, d: Block)
    requires Shows(img, ibm, itab, dbm, data) && b < BLOCKS
    ensures Shows(Splice(img, (DATA_BLOCKS_START + b) * BLOCKSIZE, d), ibm, itab, dbm, data[b := d])
  {
    var img' := Splice(img, (DATA_BLOCKS_START + b) * BLOCKSIZE, d);
    forall c | 0 <= c < BLOCKS ensures data[b := d][c] == DataBytes(img', c) {
      if c != b {
        assert DataBytes(img', c) == DataBytes(img, c);
      }
    }
    forall i | 0 <= i < INODES ensures InodeBytes(img', i) == InodeBytes(img, i) {
    }
  }

  lemma ShowsDataBitmap(img: Image, ibm: InodeBitmap, itab: InodeTable, dbm: DataBitmap, data: Blocks, d: DataBitmap)
    requires Shows(img, ibm, itab, dbm, data)
    ensures Shows(Splice(img, DATA_BITMAP_START * BLOCKSIZE, d), ibm, itab, d, data)
  {
    var img' := Splice(img, DATA_BITMAP_START * BLOCKSIZE, d);
    forall c | 0 <= c < BLOCKS ensures DataBytes(img', c) == DataBytes(img, c) {
    }
    forall i | 0 <= i < INODES ensures InodeBytes(img', i) == InodeBytes(img, i) {
    }
  }

  lemma ShowsInodeBitmap(img: Image, ibm: InodeBitmap, itab: InodeTable, dbm: DataBitmap, data: Blocks, d: InodeBitmap)
    requires Shows(img, ibm, itab, dbm, data)
    ensures Shows(Splice(img, INODE_BITMAP_START * BLOCKSIZE, d), d, itab, dbm, data)
  {
    var img' := Splice(img, INODE_BITMAP_START * BLOCKSIZE, d);
    forall c | 0 <= c < BLOCKS ensures DataBytes(img', c) == DataBytes(img, c) {
    }
    forall i | 0 <= i < INODES ensures InodeBytes(img', i) == InodeBytes(img, i) {
    }
  }

  lemma ShowsInode(img: Image, ibm: InodeBitmap, itab: InodeTable, dbm: DataBitmap, data: Blocks, i: nat,
                   d: InodeRecord)
    requires Shows(img, ibm, itab, dbm, data) && i < INODES
    ensures Shows(Splice(img, INODE_TABLE_START * BLOCKSIZE + i * INODESIZE, d), ibm, itab[i := d], dbm, data)
  {
    var img' := Splice(img, INODE_TABLE_START * BLOCKSIZE + i * INODESIZE, d);
    forall c | 0 <= c < BLOCKS ensures DataBytes(img', c) == DataBytes(img, c) {
    }
    forall j | 0 <= j < INODES ensures itab[i := d][j] == InodeBytes(img', j) {
      if j != i {
        assert InodeBytes(img', j) == InodeBytes(img, j);
      }
    }
  }
}

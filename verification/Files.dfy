/** The kernel's inode cache and the descriptors of regular files
    (computer/kernel.go:152-174, computer/fs_fd.go). */
module Files {
  import opened Bytes
  import opened Layout
  import opened Inodes
  import opened BlockMap
  import opened Disk
  import opened Allocator
  import opened Volume

  /** The kernel state that file operations touch: the file system and the cache of loaded inodes. */
  class Kernel {
    const fs: FileSystem
    var inodeCache: map<u32, Inode>

    constructor (fs: FileSystem)
      requires fs.Valid()
      ensures this.fs == fs && inodeCache == map[] && Valid()
    {
      this.fs := fs;
      inodeCache := map[];
    }

    /** Cached inodes are filed under their own number. */
    ghost predicate Valid()
      reads this, fs, fs.disk, fs.disk.buf, inodeCache.Values
    {
      fs.Valid() && forall i :: i in inodeCache ==> inodeCache[i].num == i
    }

    /** The inode as the kernel sees it: the cached copy if there is one, the disk otherwise. */
    ghost function Current(i: u32): Ino
      requires i < INODES
      reads this, fs, inodeCache.Values
    {
      if i in inodeCache then inodeCache[i].Val() else Decode(fs.itab[i])
    }

    /** getInode. A number past the inode table loads whatever lies there. */
    method GetInode(inum: u32) returns (inode: Inode, ok: bool)
      requires Valid()
      modifies this`inodeCache
      ensures Valid()
      ensures ok <==> inum in old(inodeCache) || RecordFits(inum)
      ensures !ok || inum in old(inodeCache) ==> inodeCache == old(inodeCache)
      ensures ok ==> inum in inodeCache && inodeCache[inum] == inode
      ensures ok && inum !in old(inodeCache) ==> fresh(inode) && inodeCache == old(inodeCache)[inum := inode]
      ensures inum in old(inodeCache) ==> inode.Val() == old(inodeCache[inum].Val())
      ensures ok && inum !in old(inodeCache) ==> inode.Val() == Decode(RecordBytes(fs.disk.buf[..], inum))
      ensures inum < INODES ==> ok && inode.Val() == old(Current(inum))
    {
      if inum in inodeCache {
        return inodeCache[inum], true;
      }
      inode := new Inode();
      ok := fs.ReadInode(inode, inum);
      if ok {
        inodeCache := inodeCache[inum := inode];
      }
    }
  }

  datatype BlockResult = BlockOk | BlockError | BlockPanicked

  /** What blockNumForVirtual says of block v, and where it finds the block. */
  ghost function Addressed(ino: Ino, v: u32): BlockResult
  {
    if (FIND <= v < SIND && ino.find >= BLOCKS) || (SIND <= v < TIND && ino.sind >= BLOCKS) ||
      (TIND <= v && ino.tind >= BLOCKS)
    then BlockError
    else if v >= MAXBLOCKS && 4 * (v - TIND) % U32 + 4 > BLOCKSIZE then BlockPanicked
    else BlockOk
  }

  ghost function AddressOf(ino: Ino, data: Blocks, v: u32): u32
    requires Addressed(ino, v) == BlockOk
  {
    if v < MAXBLOCKS then SlotBlock(ino, data, v) else Get32(BlockAt(data, ino.tind), 4 * (v - TIND) % U32)
  }

  /** blockNumForVirtual (computer/fs_fd.go:32-54). Past the 3084 blocks of a file the offset into the third table is
      cut to 32 bits; the slice then panics, or, from 2^30 blocks into the third table on, may be back inside the
      table. */
  method BlockNumForVirtual(fs: FileSystem, inode: Inode, v: u32) returns (b: u32, r: BlockResult)
    requires fs.Valid()
    ensures r == Addressed(inode.Val(), v)
    ensures r == BlockOk ==> b == AddressOf(inode.Val(), fs.data, v)
  {
    hide Shows, Get32;
    var (rel, place) := VirtualToPlaceRelative(v);
    if place == 0 {
      return inode.direct[rel], BlockOk;
    }
    var indirectPtr := if place == 1 then inode.find else if place == 2 then inode.sind else inode.tind;
    var blk, ok := fs.ReadDataBlock(indirectPtr);
    if !ok {
      return 0, BlockError;
    }
    var lo := 4 * rel % U32;
    var hi := (lo + 4) % U32;
    if hi < lo || hi > BLOCKSIZE {
      return 0, BlockPanicked;
    }
    Get32Sliced(blk, lo);
    return Get32(blk[lo..hi], 0), BlockOk;
  }

  lemma Get32Sliced(blk: Block, lo: nat)
    requires lo + 4 <= BLOCKSIZE
    ensures Get32(blk[lo..lo + 4], 0) == Get32(blk, lo)
  {
  }

  lemma TablesInRange(ino: Ino, data: Blocks, v: nat)
    requires WF(ino, data) && v < NBlocks(ino.size)
    ensures SlotBlock(ino, data, v) < BLOCKS
    ensures FIND <= v < SIND ==> ino.find < BLOCKS
    ensures SIND <= v < TIND ==> ino.sind < BLOCKS
    ensures TIND <= v ==> ino.tind < BLOCKS
  {
    assert LiveSlot(ino, v);
    if TIND <= v {
      assert LiveSlot(ino, TINDSLOT);
    } else if SIND <= v {
      assert LiveSlot(ino, SINDSLOT);
    } else if FIND <= v {
      assert LiveSlot(ino, FINDSLOT);
    }
  }

  lemma ContentSlice(ino: Ino, data: Blocks, pos: nat, n: nat)
    requires ino.size <= MAXSIZE && WF(ino, data) && n > 0
    requires pos % BLOCKSIZE + n <= BLOCKSIZE && pos + n <= ino.size
    ensures BlockAt(data, SlotBlock(ino, data, pos / BLOCKSIZE))[pos % BLOCKSIZE..pos % BLOCKSIZE + n] ==
      Content(ino, data)[pos..pos + n]
  {
    var blk, c := BlockAt(data, SlotBlock(ino, data, pos / BLOCKSIZE)), Content(ino, data);
    var x, y := blk[pos % BLOCKSIZE..pos % BLOCKSIZE + n], c[pos..pos + n];
    forall k | 0 <= k < n ensures x[k] == y[k] {
      assert (pos + k) / BLOCKSIZE == pos / BLOCKSIZE && (pos + k) % BLOCKSIZE == pos % BLOCKSIZE + k;
    }
  }

  datatype IoResult = IoDone | IoEof | IoTooBig | IoFailed | IoPanicked

  /** What a write of d at off makes of the content c; bytes between the old end and off are not determined. */
  ghost predicate Overwritten(c: seq<byte>, off: nat, d: seq<byte>, c': seq<byte>)
  {
    && |c'| == (if off + |d| > |c| then off + |d| else |c|)
    && (forall j :: off <= j < off + |d| ==> c'[j] == d[j - off])
    && (forall j :: 0 <= j < |c| && !(off <= j < off + |d|) ==> c'[j] == c[j])
  }

  /** How many of len bytes are in the block at off. */
  function ChunkAt(off: u64, len: nat): nat
  {
    if len <= BLOCKSIZE - off % BLOCKSIZE then len else BLOCKSIZE - off % BLOCKSIZE
  }

  /** The bytes a loop of reads delivers and what stopped it. */
  datatype Fetch = Fetch(bytes: seq<byte>, r: BlockResult)

  /** Fetching len bytes from offset off on, block by block, wherever the block list leads. */
  ghost function Fetched(ino: Ino, data: Blocks, off: nat, len: nat): Fetch
    requires off + len <= U32
    decreases len
  {
    if len == 0 then Fetch([], BlockOk)
    else if Addressed(ino, off / BLOCKSIZE) != BlockOk then Fetch([], Addressed(ino, off / BLOCKSIZE))
    else if AddressOf(ino, data, off / BLOCKSIZE) >= BLOCKS then Fetch([], BlockError)
    else
      var blk, at, chunk := data[AddressOf(ino, data, off / BLOCKSIZE)], off % BLOCKSIZE, ChunkAt(off, len);
      Behind(blk[at..at + chunk], Fetched(ino, data, off + chunk, len - chunk))
  }

  ghost function Behind(bytes: seq<byte>, rest: Fetch): Fetch
  {
    Fetch(bytes + rest.bytes, rest.r)
  }

  lemma FetchStops(ino: Ino, data: Blocks, off: nat, len: nat)
    requires off + len <= U32
    ensures len == 0 ==> Fetched(ino, data, off, len) == Fetch([], BlockOk)
    ensures len > 0 && Addressed(ino, off / BLOCKSIZE) != BlockOk ==>
      Fetched(ino, data, off, len) == Fetch([], Addressed(ino, off / BLOCKSIZE))
    ensures len > 0 && Addressed(ino, off / BLOCKSIZE) == BlockOk && AddressOf(ino, data, off / BLOCKSIZE) >= BLOCKS ==>
      Fetched(ino, data, off, len) == Fetch([], BlockError)
  {
    hide Addressed, AddressOf;
  }

  lemma FetchOneMore(ino: Ino, data: Blocks, off: nat, len: nat, b: u32)
    requires len > 0 && off + len <= U32 && Addressed(ino, off / BLOCKSIZE) == BlockOk
    requires b < BLOCKS && b == AddressOf(ino, data, off / BLOCKSIZE)
    ensures var at, chunk := off % BLOCKSIZE, ChunkAt(off, len);
      Fetched(ino, data, off, len) == Behind(data[b][at..at + chunk], Fetched(ino, data, off + chunk, len - chunk))
  {
    hide Addressed, AddressOf;
  }

  lemma BehindTwice(a: seq<byte>, b: seq<byte>, rest: Fetch)
    ensures Behind(a, Behind(b, rest)) == Behind(a + b, rest) && Behind(a, Fetch([], rest.r)) == Fetch(a, rest.r)
    ensures Behind([], rest) == rest
  {
    assert a + (b + rest.bytes) == a + b + rest.bytes && a + [] == a;
  }

  /** Inside a sound file that is a slice of the content. */
  lemma {:induction false} FetchedInRange(ino: Ino, data: Blocks, off: nat, len: nat)
    requires WF(ino, data) && off + len <= ino.size <= MAXSIZE
    ensures Fetched(ino, data, off, len) == Fetch(Content(ino, data)[off..off + len], BlockOk)
    decreases len
  {
    hide Content, WF, SlotBlock, Fetched;
    FetchStops(ino, data, off, len);
    if len > 0 {
      var v, chunk := off / BLOCKSIZE, ChunkAt(off, len);
      TablesInRange(ino, data, v);
      FetchOneMore(ino, data, off, len, SlotBlock(ino, data, v));
      FetchedInRange(ino, data, off + chunk, len - chunk);
      ContentSlice(ino, data, off, chunk);
      SliceJoins(Content(ino, data), off, off + chunk, off + len);
    }
  }

  /** One turn of Read's loop: the part of one block that is wanted (computer/fs_fd.go:77-97). */
  method ReadChunk(fs: FileSystem, inode: Inode, pos: u64, buf: array<byte>, n: nat, toRead: nat)
    returns (chunk: nat, r: BlockResult)
    requires fs.Valid() && buf != fs.disk.buf && n < toRead <= buf.Length && pos + toRead - n <= U32
    modifies buf
    ensures r == BlockOk ==>
      0 < chunk <= toRead - n && buf[..n] == old(buf[..n]) && buf[n + chunk..] == old(buf[n + chunk..])
    ensures r == BlockOk ==>
      Fetched(inode.Val(), fs.data, pos, toRead - n) ==
      Behind(buf[n..n + chunk], Fetched(inode.Val(), fs.data, pos + chunk, toRead - n - chunk))
    ensures r != BlockOk ==> Fetched(inode.Val(), fs.data, pos, toRead - n) == Fetch([], r) && buf[..] == old(buf[..])
  {
    hide Shows, Fetched, Behind, Addressed, AddressOf;
    FetchStops(inode.Val(), fs.data, pos, toRead - n);
    var blockNum;
    blockNum, r := BlockNumForVirtual(fs, inode, pos / BLOCKSIZE);
    if r != BlockOk {
      return 0, r;
    }
    var blk, ok := fs.ReadDataBlock(blockNum);
    if !ok {
      return 0, BlockError;
    }
    FetchOneMore(inode.Val(), fs.data, pos, toRead - n, blockNum);
    var blockOff := pos % BLOCKSIZE;
    chunk := toRead - n;
    if chunk > BLOCKSIZE - blockOff {
      chunk := BLOCKSIZE - blockOff;
    }
    forall k | n <= k < n + chunk {
      buf[k] := blk[blockOff + k - n];
    }
    assert buf[n..n + chunk] == blk[blockOff..blockOff + chunk];
  }

  /** Same block map; only blocks the inode owns may differ. */
  ghost predicate SameMap(ino: Ino, data: Blocks, data': Blocks)
  {
    && WF(ino, data')
    && Own(ino, data') == Own(ino, data)
    && (forall s: nat :: LiveSlot(ino, s) ==> SlotBlock(ino, data', s) == SlotBlock(ino, data, s))
    && (forall b: nat :: b < BLOCKS && b !in Own(ino, data) ==> data'[b] == data[b])
  }

  lemma SameMapTransitive(ino: Ino, a: Blocks, b: Blocks, c: Blocks)
    requires SameMap(ino, a, b) && SameMap(ino, b, c)
    ensures SameMap(ino, a, c)
  {
  }

  /** A reallocation followed by writes to owned blocks. */
  lemma RewrittenThenSameMap(ino: Ino, data: Blocks, bm: seq<byte>, newSize: u32, ino': Ino, data1: Blocks,
                             bm': seq<byte>, data2: Blocks)
    requires Rewritten(ino, data, bm, newSize, ino', data1, bm') && SameMap(ino', data1, data2)
    ensures Rewritten(ino, data, bm, newSize, ino', data2, bm')
  {
  }

  lemma NoReallocation(ino: Ino, data: Blocks, bm: seq<byte>)
    requires Sound(ino, data, bm)
    ensures Rewritten(ino, data, bm, ino.size, ino, data, bm) && SameMap(ino, data, data)
  {
  }

  lemma SpliceNext(c: seq<byte>, off: nat, d: seq<byte>, chunk: nat)
    requires off + |d| <= |c| && chunk <= |d|
    ensures Splice(Splice(c, off, d[..chunk]), off + chunk, d[chunk..]) == Splice(c, off, d)
  {
  }

  /** The data blocks a loop of writes leaves, the bytes it has stored and what stopped it. */
  datatype Store = Store(data: Blocks, n: nat, r: BlockResult)

  /** Storing d from offset off on, block by block, wherever the block numbers lead: they are cut to 32 bits. */
  ghost function Stored(ino: Ino, data: Blocks, off: u64, d: seq<byte>): Store
    decreases |d|
  {
    var v: u32 := off / BLOCKSIZE % U32;
    if d == [] then Store(data, 0, BlockOk)
    else if Addressed(ino, v) != BlockOk then Store(data, 0, Addressed(ino, v))
    else if AddressOf(ino, data, v) >= BLOCKS then Store(data, 0, BlockError)
    else
      var b, chunk := AddressOf(ino, data, v), ChunkAt(off, |d|);
      After(chunk, Stored(ino, data[b := Splice(data[b], off % BLOCKSIZE, d[..chunk])], (off + chunk) % U64,
                          d[chunk..]))
  }

  /** n bytes have been stored before. */
  ghost function After(n: nat, rest: Store): Store
  {
    Store(rest.data, n + rest.n, rest.r)
  }

  lemma StoredStops(ino: Ino, data: Blocks, off: u64, d: seq<byte>)
    ensures var v: u32 := off / BLOCKSIZE % U32;
      && (d != [] && Addressed(ino, v) != BlockOk ==> Stored(ino, data, off, d) == Store(data, 0, Addressed(ino, v)))
      && (d != [] && Addressed(ino, v) == BlockOk && AddressOf(ino, data, v) >= BLOCKS ==>
            Stored(ino, data, off, d) == Store(data, 0, BlockError))
  {
    hide Addressed, AddressOf;
  }

  lemma StoredOneMore(ino: Ino, data: Blocks, off: u64, d: seq<byte>, b: u32)
    requires d != [] && Addressed(ino, off / BLOCKSIZE % U32) == BlockOk
    requires b < BLOCKS && b == AddressOf(ino, data, off / BLOCKSIZE % U32)
    ensures var chunk := ChunkAt(off, |d|);
      Stored(ino, data, off, d) ==
      After(chunk, Stored(ino, data[b := Splice(data[b], off % BLOCKSIZE, d[..chunk])], (off + chunk) % U64,
                          d[chunk..]))
  {
    hide Addressed, AddressOf;
  }

  /** One turn of Write's loop: read-modify-write of one block (computer/fs_fd.go:119-140). */
  method WriteChunk(fs: FileSystem, inode: Inode, pos: u64, d: seq<byte>, n: nat) returns (chunk: nat, r: BlockResult)
    requires fs.Valid() && n < |d|
    modifies fs`data, fs.disk.buf
    ensures fs.Valid() && (r == BlockOk ==> 0 < chunk <= |d| - n)
    ensures r != BlockOk ==> Stored(inode.Val(), old(fs.data), pos, d[n..]) == Store(fs.data, 0, r)
    ensures r == BlockOk ==>
      Stored(inode.Val(), old(fs.data), pos, d[n..]) ==
        After(chunk, Stored(inode.Val(), fs.data, (pos + chunk) % U64, d[n + chunk..]))
  {
    hide Shows, Stored, Addressed, AddressOf;
    StoredStops(inode.Val(), fs.data, pos, d[n..]);
    var blockNum;
    blockNum, r := BlockNumForVirtual(fs, inode, pos / BLOCKSIZE % U32);
    if r != BlockOk {
      return 0, r;
    }
    var blk, ok := fs.ReadDataBlock(blockNum);
    if !ok {
      return 0, BlockError;
    }
    StoredOneMore(inode.Val(), fs.data, pos, d[n..], blockNum);
    var blockOff := pos % BLOCKSIZE;
    chunk := ChunkAt(pos, |d| - n);
    assert d[n..][..chunk] == d[n..n + chunk] && d[n..][chunk..] == d[n + chunk..];
    var _ := fs.WriteDataBlock(blockNum, Splice(blk, blockOff, d[n..n + chunk]));
  }

  lemma BlockIsOwned(ino: Ino, data: Blocks, pos: nat)
    requires pos < ino.size <= MAXSIZE
    ensures SlotBlock(ino, data, pos / BLOCKSIZE) in Own(ino, data)
  {
    ByteIsLive(ino, pos);
    OwnHas(ino, data, pos / BLOCKSIZE);
  }

  /** Inside the file the loop stores everything, and that is one splice of the content. */
  lemma {:induction false} StoredInRange(ino: Ino, data: Blocks, off: u64, d: seq<byte>)
    requires WF(ino, data) && ino.size <= MAXSIZE && off + |d| <= ino.size
    ensures var s := Stored(ino, data, off, d); s.n == |d| && s.r == BlockOk && SameMap(ino, data, s.data)
    ensures Content(ino, Stored(ino, data, off, d).data) == Splice(Content(ino, data), off, d)
    decreases |d|
  {
    hide Content, WF, SlotBlock, SameMap;
    if d == [] {
      StoredNothing(ino, data, off);
    } else {
      var v, chunk := off / BLOCKSIZE, ChunkAt(off, |d|);
      var data1 := StoredChunk(ino, data, off, d, chunk);
      StoredInRange(ino, data1, off + chunk, d[chunk..]);
      SameMapTransitive(ino, data, data1, Stored(ino, data1, off + chunk, d[chunk..]).data);
      SpliceNext(Content(ino, data), off, d, chunk);
    }
  }

  lemma StoredAll(ino: Ino, data: Blocks, off: u64)
    ensures Stored(ino, data, off, []) == Store(data, 0, BlockOk)
  {
  }

  lemma StoredNothing(ino: Ino, data: Blocks, off: u64)
    requires WF(ino, data) && off <= ino.size <= MAXSIZE
    ensures SameMap(ino, data, data) && Content(ino, data) == Splice(Content(ino, data), off, [])
  {
  }

  lemma StoredChunk(ino: Ino, data: Blocks, off: u64, d: seq<byte>, chunk: nat) returns (data1: Blocks)
    requires WF(ino, data) && ino.size <= MAXSIZE && off + |d| <= ino.size && d != [] && chunk == ChunkAt(off, |d|)
    ensures WF(ino, data1) && SameMap(ino, data, data1)
    ensures Content(ino, data1) == Splice(Content(ino, data), off, d[..chunk])
    ensures Stored(ino, data, off, d) == After(chunk, Stored(ino, data1, off + chunk, d[chunk..]))
  {
    hide Content, SlotBlock, Own, WF, Stored;
    var v := off / BLOCKSIZE;
    ByteIsLive(ino, off);
    TablesInRange(ino, data, v);
    ChunkWritten(ino, data, off, d[..chunk]);
    BlockIsOwned(ino, data, off);
    var b := AddressOf(ino, data, v);
    StoredOneMore(ino, data, off, d, b);
    data1 := data[b := Splice(data[b], off % BLOCKSIZE, d[..chunk])];
  }

  /** The file has been written: its block list covers the new end, no other block has changed, and the content is
      overwritten. */
  ghost predicate Written(ino: Ino, data: Blocks, bm: seq<byte>, off: nat, d: seq<byte>, ino': Ino, data': Blocks,
                          bm': seq<byte>)
  {
    && ino.size <= MAXSIZE && ino'.size <= MAXSIZE
    && Rewritten(ino, data, bm, ino'.size, ino', data', bm')
    && Overwritten(Content(ino, data), off, d, Content(ino', data'))
  }

  /** The inode after resizing it to newEnd, cut to 32 bits, if it was shorter than newEnd. */
  ghost predicate Extended(ino: Ino, data: Blocks, bm: seq<byte>, newEnd: u64, ino': Ino, data1: Blocks, bm': seq<byte>)
  {
    if newEnd > ino.size then Reallocated(ino, data, bm, newEnd % U32, ino', data1, bm')
    else ino' == ino && data1 == data && bm' == bm
  }

  lemma ExtendedFacts(ino: Ino, data: Blocks, bm: seq<byte>, newEnd: u64, ino': Ino, data1: Blocks, bm': seq<byte>)
    requires Sound(ino, data, bm) && Extended(ino, data, bm, newEnd, ino', data1, bm')
    ensures WF(ino', data1) && ino'.size == if newEnd > ino.size then newEnd % U32 else ino.size
  {
  }

  /** The growth that a write asks for does not fit on the disk. */
  ghost predicate NoRoom(ino: Ino, bm: seq<byte>, newEnd: u64)
  {
    newEnd > ino.size && |Free(bm)| + Need(NBlocks(ino.size)) < Need(NBlocks(newEnd % U32))
  }

  ghost predicate EndTooBig(ino: Ino, newEnd: u64)
  {
    newEnd > ino.size && NBlocks(newEnd % U32) > MAXBLOCKS
  }

  function AsIo(r: BlockResult): IoResult
  {
    match r
    case BlockOk => IoDone
    case BlockError => IoFailed
    case BlockPanicked => IoPanicked
  }

  /** What Write does at any offset: the end is cut to 64 bits before it is compared with the size and to 32 bits before
      the file is resized to it; then the loop stores what it can reach. */
  ghost predicate WriteSteps(ino: Ino, data: Blocks, bm: seq<byte>, off: u64, d: seq<byte>, n: nat, r: IoResult,
                             ino': Ino, data': Blocks, bm': seq<byte>)
  {
    var newEnd := (off + |d|) % U64;
    if EndTooBig(ino, newEnd) then n == 0 && r == IoTooBig && ino' == ino && data' == data && bm' == bm
    else if NoRoom(ino, bm, newEnd) then n == 0 && r == IoPanicked
    else exists data1: Blocks, how :: (Extended(ino, data, bm, newEnd, ino', data1, bm') && r == AsIo(how) &&
                                       Stored(ino', data1, off, d) == Store(data', n, how))
  }

  lemma WriteStops(ino: Ino, data: Blocks, bm: seq<byte>, off: u64, d: seq<byte>, ino': Ino, data': Blocks,
                   bm': seq<byte>)
    ensures var newEnd := (off + |d|) % U64;
      && (EndTooBig(ino, newEnd) && ino' == ino && data' == data && bm' == bm ==>
            WriteSteps(ino, data, bm, off, d, 0, IoTooBig, ino', data', bm'))
      && (!EndTooBig(ino, newEnd) && NoRoom(ino, bm, newEnd) ==>
          WriteSteps(ino, data, bm, off, d, 0, IoPanicked, ino', data', bm'))
  {
    hide EndTooBig, NoRoom;
  }

  lemma WriteGoes(ino: Ino, data: Blocks, bm: seq<byte>, off: u64, d: seq<byte>, n: nat, how: BlockResult,
                  ino': Ino, data1: Blocks, data': Blocks, bm': seq<byte>)
    requires var newEnd := (off + |d|) % U64; !EndTooBig(ino, newEnd) && !NoRoom(ino, bm, newEnd)
    requires Extended(ino, data, bm, (off + |d|) % U64, ino', data1, bm')
    requires Stored(ino', data1, off, d) == Store(data', n, how)
    ensures WriteSteps(ino, data, bm, off, d, n, AsIo(how), ino', data', bm')
  {
    hide EndTooBig, NoRoom, Extended, Stored;
  }

  /** The file stays within 2^32 - 4096 bytes, so that nothing is cut. */
  predicate InRange(ino: Ino, off: u64, d: seq<byte>)
  {
    ino.size <= MAXSIZE && off + |d| <= U32 - BLOCKSIZE
  }

  /** Within the range, Write refuses, runs out of blocks or overwrites the content. */
  lemma WriteInRange(ino: Ino, data: Blocks, bm: seq<byte>, off: u64, d: seq<byte>, n: nat, r: IoResult,
                     ino': Ino, data': Blocks, bm': seq<byte>)
    requires Sound(ino, data, bm) && InRange(ino, off, d) && WriteSteps(ino, data, bm, off, d, n, r, ino', data', bm')
    ensures r == IoTooBig <==> off + |d| > MAXSIZE
    ensures r == IoTooBig ==> n == 0 && ino' == ino && data' == data && bm' == bm
    ensures r == IoPanicked <==>
      r != IoTooBig && off + |d| > ino.size && |Free(bm)| + Need(NBlocks(ino.size)) < Need(NBlocks(off + |d|))
    ensures r == IoTooBig || r == IoPanicked ||
      (r == IoDone && n == |d| && Written(ino, data, bm, off, d, ino', data', bm'))
  {
    hide Sound, Extended, Stored, Written, SameMap, Content, WF, Free, Need, NBlocks;
    var newEnd: u64 := off + |d|;
    NBlocksIsCeiling(newEnd);
    if !EndTooBig(ino, newEnd) && !NoRoom(ino, bm, newEnd) {
      var data1: Blocks, how :| Extended(ino, data, bm, newEnd, ino', data1, bm') && r == AsIo(how) &&
        Stored(ino', data1, off, d) == Store(data', n, how);
      ExtendedFacts(ino, data, bm, newEnd, ino', data1, bm');
      StoredInRange(ino', data1, off, d);
      WrittenAssembles(ino, data, bm, off, d, ino', data1, bm', data');
    }
  }

  lemma WrittenAssembles(ino: Ino, data: Blocks, bm: seq<byte>, off: nat, d: seq<byte>, ino': Ino, data1: Blocks,
                         bm': seq<byte>, data2: Blocks)
    requires Sound(ino, data, bm) && ino.size <= MAXSIZE && off + |d| <= MAXSIZE
    requires Extended(ino, data, bm, off + |d|, ino', data1, bm')
    requires SameMap(ino', data1, data2)
    requires ino'.size == if off + |d| > ino.size then off + |d| else ino.size
    requires Content(ino', data2) == Splice(Content(ino', data1), off, d)
    ensures Written(ino, data, bm, off, d, ino', data2, bm')
  {
    if off + |d| > ino.size {
      ReallocatedIsRewritten(ino, data, bm, off + |d|, ino', data1, bm');
      ReallocatedContent(ino, data, bm, off + |d|, ino', data1, bm');
    } else {
      NoReallocation(ino, data, bm);
    }
    RewrittenThenSameMap(ino, data, bm, ino'.size, ino', data1, bm', data2);
  }

  /** (computer/fs_fd.go:109-115) */
  method Extend(fs: FileSystem, inode: Inode, newEnd: u64) returns (r: FallocResult)
    requires fs.Valid() && Sound(inode.Val(), fs.data, fs.dbm)
    modifies inode, fs`data, fs`dbm, fs.disk.buf
    ensures fs.Valid() && inode.num == old(inode.num)
    ensures r == TooBig <==> EndTooBig(old(inode.Val()), newEnd)
    ensures r == TooBig ==> inode.Val() == old(inode.Val()) && fs.data == old(fs.data) && fs.dbm == old(fs.dbm)
    ensures r == Panicked <==> r != TooBig && NoRoom(old(inode.Val()), old(fs.dbm), newEnd)
    ensures r == Done ==> Extended(old(inode.Val()), old(fs.data), old(fs.dbm), newEnd, inode.Val(), fs.data, fs.dbm)
  {
    hide Shows, SlotBlock, Own, Reallocated, FirstFit, Free;
    r := Done;
    if newEnd > inode.size {
      r := Falloc(fs, inode, newEnd % U32);
    }
  }

  /** The bytes of a sound file that a read delivers. */
  lemma ReadInRange(ino: Ino, data: Blocks, off: nat, len: nat, bytes: seq<byte>, how: BlockResult)
    requires WF(ino, data) && off < ino.size <= MAXSIZE
    requires Fetched(ino, data, off, ReadCount(ino.size, off, len)) == Fetch(bytes, how)
    ensures how == BlockOk && |bytes| == ReadCount(ino.size, off, len)
    ensures bytes == Content(ino, data)[off..off + |bytes|]
  {
    hide Content, WF, Fetched;
    FetchedInRange(ino, data, off, ReadCount(ino.size, off, len));
  }

  /** How many bytes one read delivers. */
  function ReadCount(size: nat, off: nat, len: nat): nat
  {
    if off >= size then 0 else if len <= size - off then len else size - off
  }

  class FileFD {
    const kernel: Kernel
    const inodeNum: u32
    var offset: u64

    constructor (kernel: Kernel, inodeNum: u32)
      ensures this.kernel == kernel && this.inodeNum == inodeNum && offset == 0
    {
      this.kernel, this.inodeNum, offset := kernel, inodeNum, 0;
    }

    method SetOffset(offset: u64)
      modifies this`offset
      ensures this.offset == offset
    {
      this.offset := offset;
    }

    /** (computer/fs_fd.go:76-100) */
    method ReadLoop(inode: Inode, buf: array<byte>, toRead: nat) returns (n: nat, r: BlockResult)
      requires kernel.fs.Valid() && buf != kernel.fs.disk.buf && toRead <= buf.Length && offset + toRead <= U32
      modifies this`offset, buf
      ensures n <= toRead && offset == old(offset) + n
      ensures Fetched(inode.Val(), kernel.fs.data, old(offset), toRead) == Fetch(buf[..n], r)
      ensures buf[n..] == old(buf[n..])
    {
      hide Shows, Fetched, Behind;
      n := 0;
      ghost var ino, data, off0, buf0 := inode.Val(), kernel.fs.data, offset, buf[..];
      BehindTwice([], [], Fetched(ino, data, offset, toRead));
      assert buf[..0] == [];
      while n < toRead
        invariant n <= toRead && offset == off0 + n && buf[n..] == buf0[n..]
        invariant Fetched(ino, data, off0, toRead) == Behind(buf[..n], Fetched(ino, data, offset, toRead - n))
        modifies this`offset, buf
      {
        ghost var before, rest := buf[..n], buf[n..];
        var chunk;
        chunk, r := ReadChunk(kernel.fs, inode, offset, buf, n, toRead);
        if r != BlockOk {
          BehindTwice(before, [], Fetch([], r));
          return;
        }
        BehindTwice(before, buf[n..n + chunk], Fetched(ino, data, offset + chunk, toRead - n - chunk));
        assert buf[..n + chunk] == before + buf[n..n + chunk];
        assert buf0[n + chunk..] == buf0[n..][chunk..] == rest[chunk..];
        n := n + chunk;
        offset := offset + chunk;
      }
      FetchStops(ino, data, offset, 0);
      BehindTwice(buf[..n], [], Fetch([], BlockOk));
      return n, BlockOk;
    }

    /** Any inode is read: what its block list leads to is delivered up to the first block that cannot be had. */
    method Read(buf: array<byte>) returns (n: nat, r: IoResult)
      requires kernel.Valid() && inodeNum < INODES && buf != kernel.fs.disk.buf
      modifies this`offset, kernel`inodeCache, buf
      ensures kernel.Valid() && inodeNum in kernel.inodeCache
      ensures inodeNum in old(kernel.inodeCache) ==> kernel.inodeCache == old(kernel.inodeCache)
      ensures inodeNum !in old(kernel.inodeCache) ==>
        fresh(kernel.inodeCache[inodeNum]) &&
          kernel.inodeCache == old(kernel.inodeCache)[inodeNum := kernel.inodeCache[inodeNum]]
      ensures forall i: u32 :: i < INODES ==> kernel.Current(i) == old(kernel.Current(i))
      ensures r == IoEof <==> old(offset) >= kernel.Current(inodeNum).size
      ensures n <= buf.Length && offset == old(offset) + n && buf[n..] == old(buf[..])[n..]
      ensures r == IoEof ==> n == 0
      ensures r != IoEof ==>
        (var ino := kernel.Current(inodeNum);
         exists how :: r == AsIo(how) &&
           Fetched(ino, kernel.fs.data, old(offset), ReadCount(ino.size, old(offset), buf.Length)) ==
             Fetch(buf[..n], how))
    {
      hide Shows, Fetched, Decode, RecordBytes, RecordFits;
      var inode, _ := kernel.GetInode(inodeNum);
      if offset >= inode.size {
        return 0, IoEof;
      }
      var toRead := buf.Length;
      if toRead > inode.size - offset {
        toRead := inode.size - offset;
      }
      var how;
      n, how := ReadLoop(inode, buf, toRead);
      return n, AsIo(how);
    }

    /** (computer/fs_fd.go:117-140) */
    method WriteLoop(inode: Inode, d: seq<byte>) returns (n: nat, r: BlockResult)
      requires kernel.fs.Valid()
      modifies this`offset, kernel.fs`data, kernel.fs.disk.buf
      ensures kernel.fs.Valid() && n <= |d| && offset == (old(offset) + n) % U64
      ensures Stored(inode.Val(), old(kernel.fs.data), old(offset), d) == Store(kernel.fs.data, n, r)
    {
      hide Shows, Stored;
      n := 0;
      ghost var ino, data1, off0 := inode.Val(), kernel.fs.data, offset;
      assert d[0..] == d;
      while n < |d|
        invariant kernel.fs.Valid() && n <= |d| && offset == (off0 + n) % U64
        invariant Stored(ino, data1, off0, d) == After(n, Stored(ino, kernel.fs.data, offset, d[n..]))
      {
        var chunk;
        chunk, r := WriteChunk(kernel.fs, inode, offset, d, n);
        if r != BlockOk {
          return;
        }
        n := n + chunk;
        offset := (offset + chunk) % U64;
      }
      StoredAll(ino, kernel.fs.data, offset);
      assert d[n..] == [];
      return n, BlockOk;
    }

    /** Write once the inode is loaded (computer/fs_fd.go:109-143). */
    method WriteTo(inode: Inode, d: seq<byte>) returns (n: nat, r: IoResult)
      requires kernel.fs.Valid() && inodeNum < INODES
      requires Sound(inode.Val(), kernel.fs.data, kernel.fs.dbm)
      modifies this`offset, inode, kernel.fs`data, kernel.fs`dbm, kernel.fs`itab, kernel.fs.disk.buf
      ensures kernel.fs.Valid() && inode.num == old(inode.num)
      ensures WriteSteps(old(inode.Val()), old(kernel.fs.data), old(kernel.fs.dbm), old(offset), d, n, r,
                         inode.Val(), kernel.fs.data, kernel.fs.dbm)
      ensures n <= |d| && offset == (old(offset) + n) % U64
      ensures r != IoDone ==> kernel.fs.itab == old(kernel.fs.itab)
      ensures r == IoDone ==> kernel.fs.itab == old(kernel.fs.itab)[inodeNum := Encode(inode.Val())]
    {
      hide Shows, Stored, EndTooBig, NoRoom, Sound, Extended, WriteSteps, Encode;
      var newEnd: u64 := (offset + |d|) % U64;
      ghost var ino, data, dbm, off := inode.Val(), kernel.fs.data, kernel.fs.dbm, offset;
      var fr := Extend(kernel.fs, inode, newEnd);
      WriteStops(ino, data, dbm, off, d, inode.Val(), kernel.fs.data, kernel.fs.dbm);
      if fr == TooBig {
        return 0, IoTooBig;
      }
      if fr == Panicked {
        return 0, IoPanicked;
      }
      ghost var data1 := kernel.fs.data;
      var how;
      n, how := WriteLoop(inode, d);
      WriteGoes(ino, data, dbm, off, d, n, how, inode.Val(), data1, kernel.fs.data, kernel.fs.dbm);
      if how != BlockOk {
        return n, AsIo(how);
      }
      var _ := kernel.fs.WriteInode(inode, inodeNum);
      return n, IoDone;
    }

    method Write(d: seq<byte>) returns (n: nat, r: IoResult)
      requires kernel.Valid() && inodeNum < INODES
      requires Sound(kernel.Current(inodeNum), kernel.fs.data, kernel.fs.dbm)
      modifies this`offset, kernel`inodeCache, kernel.fs`data, kernel.fs`dbm, kernel.fs`itab, kernel.fs.disk.buf
      modifies set i | i in kernel.inodeCache && i == inodeNum :: kernel.inodeCache[i]
      ensures kernel.Valid() && inodeNum in kernel.inodeCache
      ensures inodeNum in old(kernel.inodeCache) ==> kernel.inodeCache == old(kernel.inodeCache)
      ensures inodeNum !in old(kernel.inodeCache) ==>
        fresh(kernel.inodeCache[inodeNum]) &&
          kernel.inodeCache == old(kernel.inodeCache)[inodeNum := kernel.inodeCache[inodeNum]]
      ensures forall i: u32 :: i < INODES && i != inodeNum ==> kernel.Current(i) == old(kernel.Current(i))
      ensures WriteSteps(old(kernel.Current(inodeNum)), old(kernel.fs.data), old(kernel.fs.dbm), old(offset), d, n, r,
                         kernel.Current(inodeNum), kernel.fs.data, kernel.fs.dbm)
      ensures n <= |d| && offset == (old(offset) + n) % U64
      ensures r != IoDone ==> kernel.fs.itab == old(kernel.fs.itab)
      ensures r == IoDone ==> kernel.fs.itab == old(kernel.fs.itab)[inodeNum := Encode(kernel.Current(inodeNum))]
    {
      hide Shows, WriteSteps, Sound, Encode, Decode, RecordBytes, RecordFits;
      var inode, _ := kernel.GetInode(inodeNum);
      n, r := WriteTo(inode, d);
    }
  }

  // ---------- writes far out ----------

  /** The position has no place in the block map: the index into the third table, cut to 32 bits, lies behind the
      table. */
  predicate Beyond(off: u64)
  {
    off / BLOCKSIZE % U32 >= MAXBLOCKS && 4 * (off / BLOCKSIZE % U32 - TIND) % U32 + 4 > BLOCKSIZE
  }

  /** Every offset from the largest file size up to 4 TiB is such a position. */
  lemma BeyondUpTo4TiB(off: u64)
    requires MAXSIZE <= off < 0x400_0000_0000
    ensures Beyond(off)
  {
  }

  /** Every old byte is still in the file, in a block that the file still owns. */
  ghost predicate KeepsBytes(ino: Ino, data: Blocks, ino': Ino, data': Blocks)
    requires ino.size <= MAXSIZE
  {
    && ino.size <= ino'.size
    && forall j :: 0 <= j < ino.size ==> LiveSlot(ino', j / BLOCKSIZE) && ByteAt(ino', data', j) == ByteAt(ino, data, j)
  }

  /** A write that finds no place stores nothing and does not reach the inode table, but the file has been resized by
      then: it keeps its bytes exactly when the cut end neither shrinks it nor wraps in the count of blocks. */
  lemma StrayWriteKeepsIff(ino: Ino, data: Blocks, bm: seq<byte>, off: u64, d: seq<byte>, n: nat, r: IoResult,
                           ino': Ino, data': Blocks, bm': seq<byte>)
    requires Sound(ino, data, bm) && ino.size <= MAXSIZE && (d == [] || Beyond(off))
    requires WriteSteps(ino, data, bm, off, d, n, r, ino', data', bm') && !NoRoom(ino, bm, (off + |d|) % U64)
    ensures n == 0
    ensures var newEnd := (off + |d|) % U64;
      KeepsBytes(ino, data, ino', data') <==>
        newEnd <= ino.size || EndTooBig(ino, newEnd) || ino.size == 0 || ino.size <= newEnd % U32 <= MAXSIZE
    ensures r == IoDone <==> d == [] && r != IoTooBig
    ensures d != [] && r != IoTooBig ==> r == if ino'.tind >= BLOCKS then IoFailed else IoPanicked
  {
    hide Sound, Extended, Stored, WF, Free, Need, NBlocks, LiveSlot, ByteAt;
    var newEnd := (off + |d|) % U64;
    if EndTooBig(ino, newEnd) {
      KeepsItself(ino, data);
    } else {
      var data1: Blocks, how :| Extended(ino, data, bm, newEnd, ino', data1, bm') && r == AsIo(how) &&
        Stored(ino', data1, off, d) == Store(data', n, how);
      StoredAll(ino', data1, off);
      StoredStops(ino', data1, off, d);
      ResizedKeepsIff(ino, data, bm, newEnd, ino', data1, bm');
    }
  }

  lemma KeepsItself(ino: Ino, data: Blocks)
    requires ino.size <= MAXSIZE
    ensures KeepsBytes(ino, data, ino, data)
  {
    forall j | 0 <= j < ino.size ensures LiveSlot(ino, j / BLOCKSIZE) {
      ByteIsLive(ino, j);
    }
  }

  lemma ResizedKeepsIff(ino: Ino, data: Blocks, bm: seq<byte>, newEnd: u64, ino': Ino, data1: Blocks, bm': seq<byte>)
    requires Sound(ino, data, bm) && ino.size <= MAXSIZE && !EndTooBig(ino, newEnd)
    requires Extended(ino, data, bm, newEnd, ino', data1, bm')
    ensures KeepsBytes(ino, data, ino', data1) <==>
      newEnd <= ino.size || ino.size == 0 || ino.size <= newEnd % U32 <= MAXSIZE
  {
    hide Sound, Reallocated, WF, ByteAt;
    KeepsItself(ino, data);
    ExtendedFacts(ino, data, bm, newEnd, ino', data1, bm');
    NBlocksIsCeiling(newEnd % U32);
    if newEnd > ino.size && ino'.size <= MAXSIZE {
      ReallocatedContent(ino, data, bm, ino'.size, ino', data1, bm');
      forall j | 0 <= j < ino.size && j < ino'.size
        ensures LiveSlot(ino', j / BLOCKSIZE) && ByteAt(ino', data1, j) == ByteAt(ino, data, j)
      {
        ByteIsLive(ino', j);
        assert Content(ino', data1)[j] == Content(ino, data)[j];
      }
    } else if newEnd > ino.size && ino.size > 0 {
      assert !LiveSlot(ino', 0 / BLOCKSIZE) && ByteAt(ino', data1, 0) == ByteAt(ino', data1, 0);
    }
  }

  /** Block numbers are cut to 32 bits: only the low 44 bits of the offset say where bytes go. */
  lemma {:induction false} StoredAlias(ino: Ino, data: Blocks, off: u64, low: u64, d: seq<byte>)
    requires off % 0x1000_0000_0000 == low % 0x1000_0000_0000
    ensures Stored(ino, data, off, d) == Stored(ino, data, low, d)
    decreases |d|
  {
    hide Addressed, AddressOf, Stored;
    SamePlace(off, low);
    var v: u32 := off / BLOCKSIZE % U32;
    if d == [] {
      StoredAll(ino, data, off);
      StoredAll(ino, data, low);
    } else if Addressed(ino, v) == BlockOk && AddressOf(ino, data, v) < BLOCKS {
      var b, chunk := AddressOf(ino, data, v), ChunkAt(off, |d|);
      SamePlaceAfter(off, low, chunk);
      StoredOneMore(ino, data, off, d, b);
      StoredOneMore(ino, data, low, d, b);
      StoredAlias(ino, data[b := Splice(data[b], off % BLOCKSIZE, d[..chunk])], (off + chunk) % U64,
                  (low + chunk) % U64, d[chunk..]);
    } else {
      StoredStops(ino, data, off, d);
      StoredStops(ino, data, low, d);
    }
  }

  lemma SamePlace(off: u64, low: u64)
    requires off % 0x1000_0000_0000 == low % 0x1000_0000_0000
    ensures off / BLOCKSIZE % U32 == low / BLOCKSIZE % U32 && off % BLOCKSIZE == low % BLOCKSIZE
  {
    LowBits(off);
    LowBits(low);
  }

  lemma LowBits(off: u64)
    ensures off / BLOCKSIZE % U32 == off % 0x1000_0000_0000 / BLOCKSIZE
    ensures off % BLOCKSIZE == off % 0x1000_0000_0000 % BLOCKSIZE
  {
    var q, rest := off / 0x1000_0000_0000, off % 0x1000_0000_0000;
    assert off == BLOCKSIZE * (U32 * q) + rest;
    assert off / BLOCKSIZE == U32 * q + rest / BLOCKSIZE;
  }

  lemma SamePlaceAfter(off: u64, low: u64, chunk: nat)
    requires off % 0x1000_0000_0000 == low % 0x1000_0000_0000 && chunk <= BLOCKSIZE
    ensures (off + chunk) % U64 % 0x1000_0000_0000 == (low + chunk) % U64 % 0x1000_0000_0000
  {
    LowBitsAfter(off, chunk);
    LowBitsAfter(low, chunk);
  }

  lemma LowBitsAfter(off: u64, chunk: nat)
    requires chunk <= BLOCKSIZE
    ensures (off + chunk) % U64 % 0x1000_0000_0000 == (off % 0x1000_0000_0000 + chunk) % 0x1000_0000_0000
  {
    var q, rest := off / 0x1000_0000_0000, off % 0x1000_0000_0000;
    if rest + chunk < 0x1000_0000_0000 {
      assert off + chunk == 0x1000_0000_0000 * q + (rest + chunk);
    } else {
      assert off + chunk == 0x1000_0000_0000 * (q + 1) + (rest + chunk - 0x1000_0000_0000);
    }
  }

  /** A write 2^44 bytes or more out lands at the offset that its low 44 bits give, in a file first resized to end right
      there: what was behind the written bytes is lost. */
  lemma AliasedWrite(ino: Ino, data: Blocks, bm: seq<byte>, off: u64, low: u64, d: seq<byte>, n: nat, r: IoResult,
                     ino': Ino, data': Blocks, bm': seq<byte>)
    requires Sound(ino, data, bm) && ino.size <= MAXSIZE
    requires off >= 0x1000_0000_0000 && low == off % 0x1000_0000_0000 && off + |d| < U64 && low + |d| <= U32 - BLOCKSIZE
    requires WriteSteps(ino, data, bm, off, d, n, r, ino', data', bm') && !NoRoom(ino, bm, off + |d|)
    ensures r == IoTooBig <==> low + |d| > MAXSIZE
    ensures r != IoTooBig ==> r == IoDone && n == |d| && ino'.size == low + |d|
    ensures r != IoTooBig ==> forall j :: 0 <= j < ino'.size && j < ino.size && j < low ==>
      Content(ino', data')[j] == Content(ino, data)[j]
    ensures r != IoTooBig ==> Content(ino', data')[low..] == d
  {
    hide Sound, Stored, WF, Free, Need, Content, Reallocated, SameMap, Extended, NBlocks;
    var newEnd: u64 := off + |d|;
    CutEnd(off, low, |d|);
    SamePlace(off, low);
    NBlocksIsCeiling(low + |d|);
    if !EndTooBig(ino, newEnd) {
      var data1: Blocks, how :| Extended(ino, data, bm, newEnd, ino', data1, bm') && r == AsIo(how) &&
        Stored(ino', data1, off, d) == Store(data', n, how);
      ExtendedFacts(ino, data, bm, newEnd, ino', data1, bm');
      StoredAlias(ino', data1, off, low, d);
      StoredInRange(ino', data1, low, d);
      ResizedContent(ino, data, bm, newEnd, ino', data1, bm');
    }
  }

  lemma CutEnd(off: u64, low: u64, len: nat)
    requires low == off % 0x1000_0000_0000 && low + len < U32
    ensures (off + len) % U32 == low + len
  {
  }

  lemma ResizedContent(ino: Ino, data: Blocks, bm: seq<byte>, newEnd: u64, ino': Ino, data1: Blocks, bm': seq<byte>)
    requires Sound(ino, data, bm) && Extended(ino, data, bm, newEnd, ino', data1, bm')
    requires ino.size <= MAXSIZE && newEnd % U32 <= MAXSIZE
    ensures forall j :: 0 <= j < ino.size && j < ino'.size ==> Content(ino', data1)[j] == Content(ino, data)[j]
  {
    if newEnd > ino.size {
      ReallocatedContent(ino, data, bm, newEnd % U32, ino', data1, bm');
    }
  }

  // ---------- chunking ----------

  /** Writing a and then b right after it is writing a + b. */
  lemma OverwrittenTwice(c: seq<byte>, off: nat, a: seq<byte>, c1: seq<byte>, b: seq<byte>, c2: seq<byte>)
    requires Overwritten(c, off, a, c1) && Overwritten(c1, off + |a|, b, c2)
    ensures Overwritten(c, off, a + b, c2)
  {
    forall j | off <= j < off + |a + b| ensures c2[j] == (a + b)[j - off] {
      if j < off + |a| {
        assert c2[j] == c1[j];
      }
    }
    forall j | 0 <= j < |c| && !(off <= j < off + |a + b|) ensures c2[j] == c[j] {
      assert c2[j] == c1[j];
    }
  }

  /** Two rewrites in a row, each with at least as many blocks as before, are one. */
  lemma RewrittenGrows(ino: Ino, data: Blocks, bm: seq<byte>, ino1: Ino, data1: Blocks, bm1: seq<byte>, ino2: Ino,
                       data2: Blocks, bm2: seq<byte>)
    requires Rewritten(ino, data, bm, ino1.size, ino1, data1, bm1)
    requires Rewritten(ino1, data1, bm1, ino2.size, ino2, data2, bm2)
    requires NBlocks(ino.size) <= NBlocks(ino1.size) <= NBlocks(ino2.size)
    ensures Rewritten(ino, data, bm, ino2.size, ino2, data2, bm2)
  {
    assert forall s: nat :: LiveSlot(ino, s) ==> LiveSlot(ino1, s);
    assert forall s: nat :: LiveSlot(ino1, s) ==> LiveSlot(ino2, s);
    forall b: nat | b in Own(ino, data) ensures b in Own(ino1, data1) {
      var s := SlotOf(ino, data, b);
      OwnHas(ino1, data1, s);
    }
    forall b: nat | b in Own(ino1, data1) ensures b in Own(ino2, data2) {
      var s := SlotOf(ino1, data1, b);
      OwnHas(ino2, data2, s);
    }
  }

  /** Write(a) then Write(b) leaves the size, the blocks' ownership and the content of Write(a + b). */
  lemma WrittenTwice(ino: Ino, data: Blocks, bm: seq<byte>, off: nat, a: seq<byte>, ino1: Ino, data1: Blocks,
                     bm1: seq<byte>, b: seq<byte>, ino2: Ino, data2: Blocks, bm2: seq<byte>)
    requires Written(ino, data, bm, off, a, ino1, data1, bm1)
    requires Written(ino1, data1, bm1, off + |a|, b, ino2, data2, bm2)
    ensures Written(ino, data, bm, off, a + b, ino2, data2, bm2)
  {
    hide Rewritten, Overwritten, Content;
    WrittenSizes(ino, data, bm, off, a, ino1, data1, bm1);
    WrittenSizes(ino1, data1, bm1, off + |a|, b, ino2, data2, bm2);
    RewrittenGrows(ino, data, bm, ino1, data1, bm1, ino2, data2, bm2);
    OverwrittenTwice(Content(ino, data), off, a, Content(ino1, data1), b, Content(ino2, data2));
  }

  lemma WrittenSizes(ino: Ino, data: Blocks, bm: seq<byte>, off: nat, d: seq<byte>, ino': Ino, data': Blocks,
                     bm': seq<byte>)
    requires Written(ino, data, bm, off, d, ino', data', bm')
    ensures ino.size <= ino'.size && NBlocks(ino.size) <= NBlocks(ino'.size)
  {
  }

  /** The bytes that reads with buffers of these lengths deliver one after the other, as Read's contract gives them. */
  function Reads(c: seq<byte>, off: nat, lens: seq<nat>): seq<byte>
    decreases |lens|
  {
    if lens == [] || off >= |c| then []
    else
      var n := ReadCount(|c|, off, lens[0]);
      c[off..off + n] + Reads(c, off + n, lens[1..])
  }

  lemma ReadsNothing(c: seq<byte>, off: nat)
    ensures Reads(c, off, []) == []
  {
  }

  lemma ReadsStep(c: seq<byte>, off: nat, lens: seq<nat>)
    requires off <= |c| && lens != []
    ensures var n := ReadCount(|c|, off, lens[0]); Reads(c, off, lens) == c[off..off + n] + Reads(c, off + n, lens[1..])
  {
  }

  function Sum(lens: seq<nat>): nat
  {
    if lens == [] then 0 else lens[0] + Sum(lens[1..])
  }

  lemma SliceJoins(c: seq<byte>, a: nat, b: nat, d: nat)
    requires a <= b <= d <= |c|
    ensures c[a..d] == c[a..b] + c[b..d] && c[a..|c|] == c[a..] && c[b..|c|] == c[b..]
  {
  }

  /** However the buffers are chosen, the slices concatenate to the content from the offset on, cut at the total
      length. */
  lemma {:induction false} ReadsConcatenate(c: seq<byte>, off: nat, lens: seq<nat>)
    requires off <= |c|
    ensures Reads(c, off, lens) == if Sum(lens) <= |c| - off then c[off..off + Sum(lens)] else c[off..]
    decreases |lens|
  {
    if lens != [] && off < |c| {
      var n := ReadCount(|c|, off, lens[0]);
      ReadsConcatenate(c, off + n, lens[1..]);
      var m := Sum(lens[1..]);
      SliceJoins(c, off, off + n, if n + m <= |c| - off then off + n + m else |c|);
    }
  }
}

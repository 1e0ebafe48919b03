/** iterBlocks with a callback that may overwrite the block it is shown (computer/fs_inode.go:203-252). */
module Iterate {
  import opened Bytes
  import opened Layout
  import opened Inodes
  import opened BlockMap
  import opened Disk
  import opened Allocator
  import opened Volume
  import opened Files
  import opened Dir

  /** What a callback answers: go on or stop, and new contents for the block it was shown, if any. */
  datatype Visit = Visit(stop: bool, write: Option<Block>)

  ghost function After(fn: (u32, Block) -> Visit, data: Blocks, b: u32): Block
    requires b < BLOCKS
  {
    var w := fn(b, data[b]).write;
    if w.Some? then w.value else data[b]
  }

  /** Each block visited so far holds what the callback left there, every other block what it held at the start. */
  ghost predicate Visited(fn: (u32, Block) -> Visit, data0: Blocks, data: Blocks, visited: seq<u32>)
  {
    forall b: u32 :: b < BLOCKS ==> data[b] == if b in visited then After(fn, data0, b) else data0[b]
  }

  lemma VisitOne(ino: Ino, data0: Blocks, data: Blocks, fn: (u32, Block) -> Visit, visited: seq<u32>, i: nat)
    requires WF(ino, data0) && SameMap(ino, data0, data) && Visited(fn, data0, data, visited)
    requires i == |visited| < NBlocks(ino.size)
    requires forall m :: 0 <= m < i ==> visited[m] == SlotBlock(ino, data0, m)
    ensures var b := SlotBlock(ino, data0, i);
      && b < BLOCKS && b !in visited && data[b] == data0[b]
      && Visited(fn, data0, data[b := After(fn, data0, b)], visited + [b])
      && SameMap(ino, data0, data[b := After(fn, data0, b)])
  {
    assert LiveSlot(ino, i);
    var b := SlotBlock(ino, data0, i);
    forall m | 0 <= m < i ensures visited[m] != b {
      assert LiveSlot(ino, m);
    }
    OwnHas(ino, data0, i);
    assert !IsTable(ino, b);
    OwnFrame(ino, data, data[b := After(fn, data0, b)]);
  }

  /** The callback sees the blocks of the inode in virtual order, each with the contents it had at the start,
      up to the first stop, whatever it writes into them. */
  method IterBlocks(fs: FileSystem, inode: Inode, fn: (u32, Block) -> Visit) returns (visited: seq<u32>)
    requires fs.Valid() && WF(inode.Val(), fs.data)
    modifies fs`data, fs.disk.buf
    ensures fs.Valid() && SameMap(inode.Val(), old(fs.data), fs.data)
    ensures |visited| <= NBlocks(inode.size) <= MAXBLOCKS
    ensures forall m :: 0 <= m < |visited| ==> visited[m] == SlotBlock(inode.Val(), old(fs.data), m) < BLOCKS
    ensures forall m :: 0 <= m < |visited| - 1 ==> !fn(visited[m], old(fs.data)[visited[m]]).stop
    ensures |visited| < NBlocks(inode.size) ==>
      visited != [] && fn(visited[|visited| - 1], old(fs.data)[visited[|visited| - 1]]).stop
    ensures Visited(fn, old(fs.data), fs.data, visited)
  {
    hide Shows, WF, Own, SlotBlock, SameMap, Clean, Visited;
    ghost var ino, data0 := inode.Val(), fs.data;
    WFBound(ino, data0);
    assert Visited(fn, data0, data0, []) by { NothingVisited(fn, data0); }
    visited := [];
    var blocksToRead := NBlocks(inode.size);
    var f, s, t := Absent, Absent, Absent;
    for i := 0 to blocksToRead
      invariant fs.Valid() && SameMap(ino, data0, fs.data) && Clean(ino, fs.data, f, s, t) && LoadedFor(i, f, s, t)
      invariant |visited| == i
      invariant forall m :: 0 <= m < i ==> visited[m] == SlotBlock(ino, data0, m) < BLOCKS
      invariant forall m :: 0 <= m < i ==> !fn(visited[m], data0[visited[m]]).stop
      invariant Visited(fn, data0, fs.data, visited)
    {
      var b, blk;
      b, blk, f, s, t := VisitBlock(fs, inode, i, f, s, t, data0);
      ghost var before := fs.data;
      VisitOne(ino, data0, before, fn, visited, i);
      var answer := fn(b, blk);
      if answer.write.Some? {
        var _ := fs.WriteDataBlock(b, answer.write.value);
      }
      assert fs.data == before[b := After(fn, data0, b)];
      StaysClean(ino, data0, before, fs.data, b, i, f, s, t);
      visited := visited + [b];
      if answer.stop {
        return;
      }
    }
  }

  /** A callback that never stops and always answers the block x leaves x in every block of the file. */
  method OverwriteAll(fs: FileSystem, inode: Inode, x: Block)
    requires fs.Valid() && WF(inode.Val(), fs.data) && inode.size <= MAXSIZE
    modifies fs`data, fs.disk.buf
    ensures fs.Valid() && inode.size <= MAXSIZE
    ensures forall j :: 0 <= j < inode.size ==> Content(inode.Val(), fs.data)[j] == x[j % 4096]
  {
    hide Shows, WF, SlotBlock, SameMap;
    ghost var ino, data0 := inode.Val(), fs.data;
    var visited := IterBlocks(fs, inode, (b, blk) => Visit(false, Some(x)));
    NBlocksIsCeiling(ino.size);
    forall j | 0 <= j < ino.size ensures Content(ino, fs.data)[j] == x[j % 4096] {
      SameSlot(ino, data0, fs.data, j / 4096);
      assert visited[j / 4096] in visited;
    }
  }

  /** A callback that writes x into the block it is shown and stops at once changes the first block and no other. */
  method OverwriteFirst(fs: FileSystem, inode: Inode, x: Block) returns (visited: seq<u32>)
    requires fs.Valid() && WF(inode.Val(), fs.data)
    modifies fs`data, fs.disk.buf
    ensures fs.Valid()
    ensures inode.size == 0 ==> visited == [] && fs.data == old(fs.data)
    ensures 0 < inode.size <= 0xffff_f000 ==>
      var b := SlotBlock(inode.Val(), old(fs.data), 0);
      b < 16128 && visited == [b] && fs.data == old(fs.data)[b := x]
  {
    hide Shows, WF, SlotBlock, SameMap;
    NBlocksIsCeiling(inode.size);
    visited := IterBlocks(fs, inode, (b, blk) => Visit(true, Some(x)));
    if visited == [] {
      assert fs.data == old(fs.data);
    } else if |visited| == 1 {
      assert fs.data == old(fs.data)[visited[0] := x];
    }
  }

  lemma SameSlot(ino: Ino, data: Blocks, data': Blocks, v: nat)
    requires SameMap(ino, data, data') && v < NBlocks(ino.size)
    ensures SlotBlock(ino, data', v) == SlotBlock(ino, data, v)
  {
    assert LiveSlot(ino, v);
  }

  lemma NothingVisited(fn: (u32, Block) -> Visit, data0: Blocks)
    ensures Visited(fn, data0, data0, [])
  {
  }

  /** The buffered tables stay current: the visited block is not a table. */
  lemma StaysClean(ino: Ino, data0: Blocks, data: Blocks, data': Blocks, b: nat, i: nat, f: Buffer, s: Buffer,
                   t: Buffer)
    requires WF(ino, data0) && SameMap(ino, data0, data) && SameMap(ino, data0, data')
    requires i < NBlocks(ino.size) && b == SlotBlock(ino, data0, i) && b < BLOCKS && data' == data[b := data'[b]]
    requires Clean(ino, data, f, s, t) && LoadedFor(NBlocks(ino.size), f, s, t)
    ensures Clean(ino, data', f, s, t)
  {
    assert LiveSlot(ino, i);
    assert LiveSlot(ino, FINDSLOT) ==> b != ino.find;
    assert LiveSlot(ino, SINDSLOT) ==> b != ino.sind;
    assert LiveSlot(ino, TINDSLOT) ==> b != ino.tind;
  }
}

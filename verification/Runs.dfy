/** Runs of operations on any number of inodes: ownership of blocks is kept, and the disk is a map from
    inodes to byte sequences. */
module Runs {
  import opened Bytes
  import opened Bitmap
  import opened Layout
  import opened Inodes
  import opened BlockMap
  import opened Allocator
  import opened Volume
  import opened Files
  import opened Keeps

  datatype State = State(inos: InodeMap, data: Blocks, dbm: DataBitmap)

  datatype Op =
    | Resize(i: nat, newSize: u32)
    | WriteAt(i: nat, off: nat, d: seq<byte>)
    | Create(i: nat, v: Ino)
    | Delete(i: nat)
    | Look

  /** What the operations do to the disk: the contracts of Falloc and Write, a fresh empty inode, Falloc(0) with the
      inode dropped, and anything that only looks. */
  ghost predicate Does(op: Op, s: State, s': State)
  {
    match op
    case Resize(i, newSize) =>
      i in s.inos && i in s'.inos && s'.inos == s.inos[i := s'.inos[i]]
      && Reallocated(s.inos[i], s.data, s.dbm, newSize, s'.inos[i], s'.data, s'.dbm)
    case WriteAt(i, off, d) =>
      i in s.inos && i in s'.inos && s'.inos == s.inos[i := s'.inos[i]]
      && Written(s.inos[i], s.data, s.dbm, off, d, s'.inos[i], s'.data, s'.dbm)
    case Create(i, v) =>
      i !in s.inos && v.size == 0 && s' == State(s.inos[i := v], s.data, s.dbm)
    case Delete(i) =>
      i in s.inos && s'.inos == s.inos - {i}
      && exists ino' :: Reallocated(s.inos[i], s.data, s.dbm, 0, ino', s'.data, s'.dbm)
    case Look => s' == s
  }

  ghost predicate OwnedState(s: State)
  {
    Owned(s.inos, s.data, s.dbm)
  }

  /** Dropping an inode that owns nothing. */
  lemma DropKeepsOwned(inos: InodeMap, data: Blocks, dbm: DataBitmap, i: nat)
    requires Owned(inos, data, dbm) && i in inos && Own(inos[i], data) == {}
    ensures Owned(inos - {i}, data, dbm)
  {
    var inos' := inos - {i};
    forall b: nat | b < BLOCKS && Taken(dbm, b) ensures exists j :: j in inos' && b in Own(inos'[j], data) {
      var j :| j in inos && b in Own(inos[j], data);
      assert j in inos';
    }
  }

  /** Every operation keeps the ownership invariant, whatever the new size. */
  lemma StepKeepsOwned(op: Op, s: State, s': State)
    requires OwnedState(s) && Does(op, s, s')
    ensures OwnedState(s')
  {
    hide Owned, Reallocated, Rewritten, WF, Own;
    match op
    case Resize(i, newSize) =>
      ReallocatedIsRewritten(s.inos[i], s.data, s.dbm, newSize, s'.inos[i], s'.data, s'.dbm);
      RewriteKeepsOwned(s.inos, s.data, s.dbm, i, newSize, s'.inos[i], s'.data, s'.dbm);
    case WriteAt(i, off, d) =>
      RewriteKeepsOwned(s.inos, s.data, s.dbm, i, s'.inos[i].size, s'.inos[i], s'.data, s'.dbm);
    case Create(i, v) =>
      NewInodeKeepsOwned(s.inos, s.data, s.dbm, i, v);
    case Delete(i) =>
      var ino' :| Reallocated(s.inos[i], s.data, s.dbm, 0, ino', s'.data, s'.dbm);
      OwnedIsSound(s.inos, s.data, s.dbm, i);
      FallocZeroReturnsAll(s.inos[i], s.data, s.dbm, ino', s'.data, s'.dbm);
      ReallocatedIsRewritten(s.inos[i], s.data, s.dbm, 0, ino', s'.data, s'.dbm);
      RewriteKeepsOwned(s.inos, s.data, s.dbm, i, 0, ino', s'.data, s'.dbm);
      DropKeepsOwned(s.inos[i := ino'], s'.data, s'.dbm, i);
      assert s.inos[i := ino'] - {i} == s'.inos;
    case Look =>
  }

  ghost predicate IsRun(ops: seq<Op>, tr: seq<State>)
  {
    |tr| == |ops| + 1 && forall k :: 0 <= k < |ops| ==> Does(ops[k], tr[k], tr[k + 1])
  }

  /** In every state of every run, the live blocks and tables of all inodes are in range, distinct, and exactly the bits
      set. */
  lemma {:induction false} RunKeepsOwned(ops: seq<Op>, tr: seq<State>)
    requires IsRun(ops, tr) && OwnedState(tr[0])
    ensures forall k :: 0 <= k < |tr| ==> OwnedState(tr[k])
    decreases |ops|
  {
    hide Does, OwnedState;
    if ops != [] {
      var n := |ops| - 1;
      assert IsRun(ops[..n], tr[..n + 1]);
      RunKeepsOwned(ops[..n], tr[..n + 1]);
      assert tr[n] == tr[..n + 1][n];
      StepKeepsOwned(ops[n], tr[n], tr[n + 1]);
      forall k | 0 <= k < |tr| ensures OwnedState(tr[k]) {
        if k <= n {
          assert tr[k] == tr[..n + 1][k];
        }
      }
    }
  }

  // ---------- contents ----------

  /** Sizes a file can really have. */
  ghost predicate Sized(s: State)
  {
    forall i :: i in s.inos ==> s.inos[i].size <= MAXSIZE
  }

  ghost function Contents(s: State): map<nat, seq<byte>>
    requires Sized(s)
  {
    map i | i in s.inos :: Content(s.inos[i], s.data)
  }

  /** A file system of byte sequences. Bytes past the old end that nobody has written are not determined. */
  ghost predicate SpecStep(op: Op, c: map<nat, seq<byte>>, c': map<nat, seq<byte>>)
  {
    match op
    case Resize(i, newSize) =>
      i in c && i in c' && c' == c[i := c'[i]] && |c'[i]| == newSize
      && forall j :: 0 <= j < |c[i]| && j < newSize ==> c'[i][j] == c[i][j]
    case WriteAt(i, off, d) =>
      i in c && i in c' && c' == c[i := c'[i]] && Overwritten(c[i], off, d, c'[i])
    case Create(i, v) => i !in c && c' == c[i := []]
    case Delete(i) => i in c && c' == c - {i}
    case Look => c' == c
  }

  /** A resize to a size that 32-bit rounding does not wrap. */
  predicate NoWrap(op: Op)
  {
    op.Resize? ==> op.newSize <= U32 - BLOCKSIZE
  }

  /** A step keeps all sizes real exactly when it does not wrap. */
  lemma SizesStayIffNoWrap(op: Op, s: State, s': State)
    requires Sized(s) && Does(op, s, s')
    ensures Sized(s') <==> NoWrap(op)
  {
    hide Own, SlotBlock, Content;
    match op
    case Resize(i, newSize) =>
      NBlocksIsCeiling(newSize);
    case WriteAt(_, _, _) =>
    case Create(_, _) =>
    case Delete(_) =>
    case Look =>
  }

  /** The other inodes keep their contents. */
  lemma OtherContents(s: State, i: nat, newSize: u32, ino': Ino, data': Blocks, dbm': DataBitmap)
    requires OwnedState(s) && Sized(s) && i in s.inos
    requires Rewritten(s.inos[i], s.data, s.dbm, newSize, ino', data', dbm')
    ensures forall j :: j in s.inos && j != i ==> Content(s.inos[j], data') == Content(s.inos[j], s.data)
  {
    hide Rewritten, Content;
    forall j | j in s.inos && j != i ensures Content(s.inos[j], data') == Content(s.inos[j], s.data) {
      OthersUntouched(s.inos, s.data, s.dbm, i, newSize, ino', data', dbm', j);
      UntouchedContent(s.inos[j], s.data, data');
    }
  }

  /** Each operation on the disk is the operation on the byte sequences. */
  lemma StepRefines(op: Op, s: State, s': State)
    requires OwnedState(s) && Sized(s) && Sized(s') && Does(op, s, s')
    ensures SpecStep(op, Contents(s), Contents(s'))
  {
    hide Owned, Reallocated, Rewritten, Content, OwnedState, Overwritten, Own, WF;
    var c, c' := Contents(s), Contents(s');
    match op
    case Resize(i, newSize) =>
      StateSound(s, i);
      ReallocatedIsRewritten(s.inos[i], s.data, s.dbm, newSize, s'.inos[i], s'.data, s'.dbm);
      RewrittenSize(s.inos[i], s.data, s.dbm, newSize, s'.inos[i], s'.data, s'.dbm);
      OtherContents(s, i, newSize, s'.inos[i], s'.data, s'.dbm);
      ReallocatedContent(s.inos[i], s.data, s.dbm, newSize, s'.inos[i], s'.data, s'.dbm);
      assert c' == c[i := c'[i]];
    case WriteAt(i, off, d) =>
      OtherContents(s, i, s'.inos[i].size, s'.inos[i], s'.data, s'.dbm);
      assert c' == c[i := c'[i]];
    case Create(i, v) =>
      assert Content(v, s.data) == [];
      assert c' == c[i := []];
    case Delete(i) =>
      var ino' :| Reallocated(s.inos[i], s.data, s.dbm, 0, ino', s'.data, s'.dbm);
      ReallocatedIsRewritten(s.inos[i], s.data, s.dbm, 0, ino', s'.data, s'.dbm);
      OtherContents(s, i, 0, ino', s'.data, s'.dbm);
      assert c' == c - {i};
    case Look =>
  }

  lemma StateSound(s: State, i: nat)
    requires OwnedState(s) && i in s.inos
    ensures Sound(s.inos[i], s.data, s.dbm)
  {
    OwnedIsSound(s.inos, s.data, s.dbm, i);
  }

  lemma RewrittenSize(ino: Ino, data: Blocks, dbm: DataBitmap, newSize: u32, ino': Ino, data': Blocks, dbm': DataBitmap)
    requires Rewritten(ino, data, dbm, newSize, ino', data', dbm')
    ensures ino'.size == newSize
  {
  }

  /** Over every run, the disk refines a map from inodes to byte sequences. */
  lemma {:induction false} RunRefinesContents(ops: seq<Op>, tr: seq<State>)
    requires IsRun(ops, tr) && OwnedState(tr[0]) && Sized(tr[0]) && forall k :: 0 <= k < |ops| ==> NoWrap(ops[k])
    ensures forall k :: 0 <= k < |tr| ==> Sized(tr[k])
    ensures forall k :: 0 <= k < |ops| ==> SpecStep(ops[k], Contents(tr[k]), Contents(tr[k + 1]))
    decreases |ops|
  {
    hide Does, OwnedState, SpecStep, Sized, Contents;
    if ops != [] {
      var n := |ops| - 1;
      assert IsRun(ops[..n], tr[..n + 1]);
      RunRefinesContents(ops[..n], tr[..n + 1]);
      assert tr[n] == tr[..n + 1][n];
      RunKeepsOwned(ops, tr);
      SizesStayIffNoWrap(ops[n], tr[n], tr[n + 1]);
      StepRefines(ops[n], tr[n], tr[n + 1]);
      forall k | 0 <= k < |tr| ensures Sized(tr[k]) {
        if k <= n {
          assert tr[k] == tr[..n + 1][k];
        }
      }
      forall k | 0 <= k < |ops| ensures SpecStep(ops[k], Contents(tr[k]), Contents(tr[k + 1])) {
        if k < n {
          assert tr[k] == tr[..n + 1][k] && tr[k + 1] == tr[..n + 1][k + 1] && ops[k] == ops[..n][k];
        }
      }
    }
  }

  /** The condition on the resizes is exact: all sizes stay real along a run if and only if no resize wraps. */
  lemma RunSizedIffNoWrap(ops: seq<Op>, tr: seq<State>)
    requires IsRun(ops, tr) && OwnedState(tr[0]) && Sized(tr[0])
    ensures (forall k :: 0 <= k < |tr| ==> Sized(tr[k])) <==> (forall k :: 0 <= k < |ops| ==> NoWrap(ops[k]))
  {
    hide Does, OwnedState, SpecStep, Sized, Contents, NoWrap;
    if forall k :: 0 <= k < |ops| ==> NoWrap(ops[k]) {
      RunRefinesContents(ops, tr);
    } else if forall k :: 0 <= k < |tr| ==> Sized(tr[k]) {
      var k :| 0 <= k < |ops| && !NoWrap(ops[k]);
      SizesStayIffNoWrap(ops[k], tr[k], tr[k + 1]);
    }
  }

  /** Without the bound the size and the blocks part ways: rounding wraps, every block is given back and the size claims
      4 GB. */
  lemma WrappedResizeLosesContents(ino: Ino, data: Blocks, dbm: DataBitmap, newSize: u32, ino': Ino, data': Blocks,
                                   dbm': DataBitmap)
    requires Sound(ino, data, dbm) && newSize > U32 - BLOCKSIZE
    requires Reallocated(ino, data, dbm, newSize, ino', data', dbm')
    ensures ino'.size == newSize > MAXSIZE && Own(ino', data') == {}
    ensures forall b: nat :: b in Own(ino, data) ==> !Taken(dbm', b)
  {
    NBlocksIsCeiling(newSize);
    assert forall s: nat :: !LiveSlot(ino', s);
  }
}

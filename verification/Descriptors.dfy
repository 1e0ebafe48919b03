/** Runs of calls on the descriptors of regular files (computer/fs_fd.go:61-160). */
module Descriptors {
  import opened Bytes
  import opened Bitmap
  import opened Layout
  import opened Inodes
  import opened BlockMap
  import opened Allocator
  import opened Volume
  import opened Files
  import opened Paths
  import opened Keeps
  import opened Syscalls
  import opened Runs

  /** The volume as a state of a run. */
  ghost function StateOf(k: Kernel): State
    reads k.fs
  {
    State(Inos(k.fs.ibm, k.fs.itab), k.fs.data, k.fs.dbm)
  }

  /** Inode i is a regular file. */
  ghost predicate IsFile(k: Kernel, i: u32)
    reads k.fs
  {
    i < INODES && Taken(k.fs.ibm, i) && !IsDir(Decode(k.fs.itab[i]))
  }

  lemma ReadyIsState(k: Kernel)
    requires Ready(k)
    ensures k.Valid() && OwnedState(StateOf(k)) && Sized(StateOf(k))
  {
    hide Owned, Decode;
  }

  /** What the kernel sees of a regular file is what is on disk, and it is in order. */
  lemma FileIsCurrent(k: Kernel, i: u32)
    requires Ready(k) && IsFile(k, i)
    ensures k.Current(i) == Decode(k.fs.itab[i]) && i in StateOf(k).inos && StateOf(k).inos[i] == k.Current(i)
    ensures Sound(k.Current(i), k.fs.data, k.fs.dbm) && WF(k.Current(i), k.fs.data) && k.Current(i).size <= MAXSIZE
  {
    hide FsOk, Decode, Shows;
    FsOkInode(k.fs.ibm, k.fs.itab, k.fs.dbm, k.fs.data, i);
  }

  /** A write to one file, record included, as a step of a run that keeps the volume in order. */
  lemma WriteIsStep(ibm: InodeBitmap, itab: InodeTable, dbm: DataBitmap, data: Blocks, i: nat, off: nat, d: seq<byte>,
                    itab': InodeTable, ino': Ino, dbm': DataBitmap, data': Blocks)
    requires FsOk(ibm, itab, dbm, data) && Taken(ibm, i) && !IsDir(Decode(itab[i]))
    requires Written(Decode(itab[i]), data, dbm, off, d, ino', data', dbm') && itab' == itab[i := Encode(ino')]
    ensures Decode(itab'[i]) == ino' && !IsDir(ino') && FsOk(ibm, itab', dbm', data')
    ensures Does(WriteAt(i, off, d), State(Inos(ibm, itab), data, dbm), State(Inos(ibm, itab'), data', dbm'))
  {
    hide FsOk, Decode, Encode, Rewritten, Overwritten, Content;
    RecordWritten(itab, i, ino');
    RewrittenKeepsMeta(Decode(itab[i]), data, dbm, ino'.size, ino', data', dbm');
    RewriteKeepsFsOk(ibm, itab, dbm, data, i, itab', ino', dbm', data');
    InosUpdated(ibm, itab, itab', i, ino');
  }

  /** fd.Write on a regular file of a ready kernel, as its own contract has it. */
  method PlainWrite(fd: FileFD, d: seq<byte>) returns (r: IoResult)
    requires Ready(fd.kernel) && IsFile(fd.kernel, fd.inodeNum) && fd.offset + |d| <= U32 - BLOCKSIZE
    modifies fd`offset, fd.kernel`inodeCache, fd.kernel.inodeCache.Values
    modifies fd.kernel.fs`data, fd.kernel.fs`dbm, fd.kernel.fs`itab, fd.kernel.fs.disk.buf
    ensures fd.kernel.Valid() && fd.inodeNum < INODES
    ensures forall j: u32 :: j < INODES && j != fd.inodeNum ==> fd.kernel.Current(j) == old(fd.kernel.Current(j))
    ensures r == IoTooBig <==> old(fd.offset) + |d| > MAXSIZE
    ensures r == IoPanicked <==>
      (r != IoTooBig && old(fd.offset) + |d| > Decode(old(fd.kernel.fs.itab)[fd.inodeNum]).size &&
      |Free(old(fd.kernel.fs.dbm))| +
        Need(NBlocks(Decode(old(fd.kernel.fs.itab)[fd.inodeNum]).size)) < Need(NBlocks(old(fd.offset) + |d|)))
    ensures r != IoEof && r != IoFailed
    ensures r == IoTooBig ==> fd.kernel.fs.data == old(fd.kernel.fs.data) && fd.kernel.fs.dbm == old(fd.kernel.fs.dbm)
    ensures r == IoTooBig ==> fd.kernel.fs.itab == old(fd.kernel.fs.itab) && fd.offset == old(fd.offset)
    ensures r == IoTooBig ==> fd.kernel.Current(fd.inodeNum) == old(fd.kernel.Current(fd.inodeNum))
    ensures r == IoDone ==> fd.offset == old(fd.offset) + |d|
    ensures r == IoDone ==>
      fd.kernel.fs.itab == old(fd.kernel.fs.itab)[fd.inodeNum := Encode(fd.kernel.Current(fd.inodeNum))]
    ensures r == IoDone ==>
      Written(Decode(old(fd.kernel.fs.itab)[fd.inodeNum]), old(fd.kernel.fs.data), old(fd.kernel.fs.dbm),
              old(fd.offset), d,
              fd.kernel.Current(fd.inodeNum), fd.kernel.fs.data, fd.kernel.fs.dbm)
    ensures forall j :: j in fd.kernel.inodeCache ==>
      (j in old(fd.kernel.inodeCache) && fd.kernel.inodeCache[j] == old(fd.kernel.inodeCache)[j]) ||
        fresh(fd.kernel.inodeCache[j])
  {
    hide FsOk, Shows, Encode, Decode, Written, Sound, WF, Free, Need, NBlocks, WriteSteps;
    FileIsCurrent(fd.kernel, fd.inodeNum);
    ghost var k: Kernel, i, off := fd.kernel, fd.inodeNum, fd.offset;
    ghost var ino, data, dbm := k.Current(i), k.fs.data, k.fs.dbm;
    var n;
    n, r := fd.Write(d);
    WriteInRange(ino, data, dbm, off, d, n, r, k.Current(i), k.fs.data, k.fs.dbm);
  }

  /** What the kernel sees of each inode. */
  lemma ReadyView(k: Kernel) returns (view: seq<Ino>)
    requires Ready(k)
    ensures |view| == INODES && forall j: u32 :: j < INODES ==> view[j] == k.Current(j)
    ensures forall j: u32 :: j < INODES && Taken(k.fs.ibm, j) ==>
      SameMeta(view[j], Decode(k.fs.itab[j])) && (!IsDir(Decode(k.fs.itab[j])) ==> view[j] == Decode(k.fs.itab[j]))
  {
    hide Decode, Shows, FsOk;
    view := seq(INODES, j requires 0 <= j < INODES reads k, k.fs, k.inodeCache.Values => k.Current(j));
  }

  /** The kernel's view after a change to one inode. */
  lemma CacheFromView(k: Kernel, ibm: InodeBitmap, itab: InodeTable, view: seq<Ino>, i: u32)
    requires k.Valid() && k.fs.ibm == ibm && |view| == INODES && i < INODES
    requires forall j: u32 :: j < INODES && Taken(ibm, j) ==>
      SameMeta(view[j], Decode(itab[j])) && (!IsDir(Decode(itab[j])) ==> view[j] == Decode(itab[j]))
    requires forall j: u32 :: j < INODES && j != i ==> k.Current(j) == view[j] && k.fs.itab[j] == itab[j]
    requires k.Current(i) == Decode(k.fs.itab[i])
    ensures CacheOk(k)
  {
    hide Decode, Shows;
    forall j: u32 | j in k.inodeCache && Taken(k.fs.ibm, j)
      ensures j < INODES && k.inodeCache[j].Val() == k.Current(j)
    {
    }
  }

  /** fd.Write on a regular file is a step of a run, and keeps the kernel ready. */
  method WriteOnce(fd: FileFD, d: seq<byte>) returns (r: IoResult)
    requires Ready(fd.kernel) && IsFile(fd.kernel, fd.inodeNum) && fd.offset + |d| <= U32 - BLOCKSIZE
    modifies fd`offset, fd.kernel`inodeCache, fd.kernel.inodeCache.Values
    modifies fd.kernel.fs`data, fd.kernel.fs`dbm, fd.kernel.fs`itab, fd.kernel.fs.disk.buf
    ensures r == IoTooBig <==> old(fd.offset) + |d| > MAXSIZE
    ensures r == IoPanicked <==>
      (r != IoTooBig && old(fd.offset) + |d| > Decode(old(fd.kernel.fs.itab)[fd.inodeNum]).size &&
      |Free(old(fd.kernel.fs.dbm))| +
        Need(NBlocks(Decode(old(fd.kernel.fs.itab)[fd.inodeNum]).size)) < Need(NBlocks(old(fd.offset) + |d|)))
    ensures r != IoEof && r != IoFailed
    ensures r == IoTooBig ==>
      Ready(fd.kernel) && StateOf(fd.kernel) == old(StateOf(fd.kernel)) && fd.offset == old(fd.offset)
    ensures r == IoDone ==>
      Ready(fd.kernel) && Does(WriteAt(fd.inodeNum, old(fd.offset), d), old(StateOf(fd.kernel)), StateOf(fd.kernel))
    ensures r == IoDone ==> fd.offset == old(fd.offset) + |d|
    ensures r != IoPanicked ==> forall j: u32 :: old(IsFile(fd.kernel, j)) ==> IsFile(fd.kernel, j)
    ensures forall j :: j in fd.kernel.inodeCache ==>
      (j in old(fd.kernel.inodeCache) && fd.kernel.inodeCache[j] == old(fd.kernel.inodeCache)[j]) ||
        fresh(fd.kernel.inodeCache[j])
  {
    hide FsOk, Shows, Decode, Encode, Written, Free, Need, NBlocks, Does, CacheOk;
    ghost var k: Kernel, i, off := fd.kernel, fd.inodeNum, fd.offset;
    ghost var ibm, itab, dbm, data := k.fs.ibm, k.fs.itab, k.fs.dbm, k.fs.data;
    ghost var view := ReadyView(k);
    FileIsCurrent(k, i);
    r := PlainWrite(fd, d);
    if r == IoDone {
      WriteIsStep(ibm, itab, dbm, data, i, off, d, k.fs.itab, k.Current(i), k.fs.dbm, k.fs.data);
      CacheFromView(k, ibm, itab, view, i);
    } else if r == IoTooBig {
      CacheFromView(k, ibm, itab, view, i);
    }
  }

  // ---------- runs of calls on descriptors that keep their offsets ----------

  /** A call on descriptor f. */
  datatype Act = Seek(f: nat, off: u64) | Get(f: nat, len: nat) | Put(f: nat, d: seq<byte>)

  /** The sizes of the files and the offsets of the descriptors. */
  datatype Ledger = Ledger(sizes: map<nat, nat>, offs: seq<nat>)

  /** The calls are on descriptors that exist, of files that exist. */
  predicate Known(l: Ledger, inums: seq<nat>)
  {
    |l.offs| == |inums| && forall f :: 0 <= f < |inums| ==> inums[f] in l.sizes
  }

  /** What a call does to sizes and offsets; a write beyond the largest file size does nothing. */
  function After(l: Ledger, inums: seq<nat>, a: Act): (r: Ledger)
    requires Known(l, inums) && a.f < |inums|
    ensures Known(r, inums)
  {
    var i, off := inums[a.f], l.offs[a.f];
    match a
    case Seek(f, o) => l.(offs := l.offs[f := o])
    case Get(f, len) => l.(offs := l.offs[f := off + ReadCount(l.sizes[i], off, len)])
    case Put(f, d) =>
      if off + |d| > MAXSIZE then l
      else Ledger(l.sizes[i := if off + |d| > l.sizes[i] then off + |d| else l.sizes[i]], l.offs[f := off + |d|])
  }

  /** The blocks that a call takes. */
  function Cost(l: Ledger, inums: seq<nat>, a: Act): nat
    requires Known(l, inums) && a.f < |inums|
  {
    var i, off := inums[a.f], l.offs[a.f];
    if !a.Put? || off + |a.d| > MAXSIZE || off + |a.d| <= l.sizes[i] || l.sizes[i] > MAXSIZE then 0
    else
      var was, now := Need(NBlocks(l.sizes[i])), Need(NBlocks(off + |a.d|));
      if now >= was then now - was else 0
  }

  predicate OnKnown(inums: seq<nat>, acts: seq<Act>)
  {
    forall m :: 0 <= m < |acts| ==> acts[m].f < |inums|
  }

  function AfterAll(l: Ledger, inums: seq<nat>, acts: seq<Act>): (r: Ledger)
    requires Known(l, inums) && OnKnown(inums, acts)
    ensures Known(r, inums)
  {
    if acts == [] then l
    else
      var n := |acts| - 1;
      assert OnKnown(inums, acts[..n]);
      After(AfterAll(l, inums, acts[..n]), inums, acts[n])
  }

  function Total(l: Ledger, inums: seq<nat>, acts: seq<Act>): nat
    requires Known(l, inums) && OnKnown(inums, acts)
  {
    if acts == [] then 0
    else
      var n := |acts| - 1;
      assert OnKnown(inums, acts[..n]);
      Total(l, inums, acts[..n]) + Cost(AfterAll(l, inums, acts[..n]), inums, acts[n])
  }

  /** No write ends above 2^32 - 4096. */
  predicate Within(l: Ledger, inums: seq<nat>, acts: seq<Act>)
    requires Known(l, inums) && OnKnown(inums, acts)
  {
    forall m :: 0 <= m < |acts| && acts[m].Put? ==>
      AfterAll(l, inums, acts[..m]).offs[acts[m].f] + |acts[m].d| <= U32 - BLOCKSIZE
  }

  lemma {:induction false} TotalGrows(l: Ledger, inums: seq<nat>, acts: seq<Act>, m: nat)
    requires Known(l, inums) && OnKnown(inums, acts) && m <= |acts|
    ensures OnKnown(inums, acts[..m]) && Total(l, inums, acts[..m]) <= Total(l, inums, acts)
    decreases |acts|
  {
    hide Cost;
    if m == |acts| {
      assert acts[..m] == acts;
    } else {
      var n := |acts| - 1;
      assert OnKnown(inums, acts[..n]) && acts[..n][..m] == acts[..m];
      TotalGrows(l, inums, acts[..n], m);
    }
  }

  /** One more call. */
  lemma OneMoreAct(l: Ledger, inums: seq<nat>, acts: seq<Act>, m: nat)
    requires Known(l, inums) && OnKnown(inums, acts) && m < |acts|
    ensures OnKnown(inums, acts[..m]) && OnKnown(inums, acts[..m + 1]) && acts[m].f < |inums|
    ensures AfterAll(l, inums, acts[..m + 1]) == After(AfterAll(l, inums, acts[..m]), inums, acts[m])
    ensures Total(l, inums, acts[..m + 1]) ==
      Total(l, inums, acts[..m]) + Cost(AfterAll(l, inums, acts[..m]), inums, acts[m])
  {
    hide After, Cost;
    var front := acts[..m + 1];
    assert front[..m] == acts[..m] && front[m] == acts[m];
  }

  ghost function SizesOf(s: State): map<nat, nat>
  {
    map i | i in s.inos :: s.inos[i].size as nat
  }

  ghost function InumsOf(fds: seq<FileFD>): seq<nat>
  {
    seq(|fds|, f requires 0 <= f < |fds| => fds[f].inodeNum as nat)
  }

  ghost function LedgerOf(k: Kernel, fds: seq<FileFD>): Ledger
    reads k.fs, fds
  {
    Ledger(SizesOf(StateOf(k)), seq(|fds|, f requires 0 <= f < |fds| reads fds => fds[f].offset as nat))
  }

  /** What a call is on the volume, and what it delivers: a read delivers the bytes of its file from its descriptor's
      offset. */
  ghost predicate Delivers(l: Ledger, inums: seq<nat>, a: Act, s: State, op: Op, out: seq<byte>)
    requires Known(l, inums) && a.f < |inums|
  {
    var i, off := inums[a.f], l.offs[a.f];
    match a
    case Seek(_, _) => op == Look && out == []
    case Get(_, len) =>
      && op == Look && i in s.inos && s.inos[i].size <= MAXSIZE
      && var c := Content(s.inos[i], s.data); out == if off >= |c| then [] else c[off..off + ReadCount(|c|, off, len)]
    case Put(_, d) => op == (if off + |d| > MAXSIZE then Look else WriteAt(i, off, d)) && out == []
  }

  /** A write changes one size, and takes exactly the blocks for that. */
  lemma WriteTakes(s: State, i: nat, off: nat, d: seq<byte>, s': State)
    requires OwnedState(s) && Sized(s) && Does(WriteAt(i, off, d), s, s')
    ensures i in s.inos && i in s'.inos
    ensures SizesOf(s') == SizesOf(s)[i := if off + |d| > s.inos[i].size then off + |d| else s.inos[i].size as nat]
    ensures s'.inos[i].size as nat == if off + |d| > s.inos[i].size then off + |d| else s.inos[i].size as nat
    ensures |Free(s'.dbm)| + Need(NBlocks(s'.inos[i].size)) == |Free(s.dbm)| + Need(NBlocks(s.inos[i].size))
  {
    hide Owned, Rewritten, Free, Need, NBlocks;
    StateSound(s, i);
    FreeConserved(s.inos[i], s.data, s.dbm, s'.inos[i].size, s'.inos[i], s'.data, s'.dbm);
  }

  /** Read with buffers of these lengths one after the other: the slices are those of Reads, which ReadsConcatenate
      joins. */
  method ReadChunks(fd: FileFD, lens: seq<nat>) returns (out: seq<byte>)
    requires Ready(fd.kernel) && IsFile(fd.kernel, fd.inodeNum)
    requires fd.offset <= Decode(fd.kernel.fs.itab[fd.inodeNum]).size
    modifies fd`offset, fd.kernel`inodeCache
    ensures Ready(fd.kernel)
    ensures var ino := Decode(fd.kernel.fs.itab[fd.inodeNum]);
      && ino.size <= MAXSIZE && out == Reads(Content(ino, fd.kernel.fs.data), old(fd.offset), lens)
      && fd.offset == old(fd.offset) + |out|
  {
    hide Ready, Shows, Decode, Content, WF, Sound, FsOk, Reads, IsFile;
    out := [];
    FileIsCurrent(fd.kernel, fd.inodeNum);
    ghost var k: Kernel := fd.kernel;
    ghost var c := Content(Decode(k.fs.itab[fd.inodeNum]), k.fs.data);
    ghost var off := fd.offset;
    assert lens[0..] == lens;
    for m := 0 to |lens|
      invariant Ready(k) && IsFile(k, fd.inodeNum) && fd.offset == off + |out| <= |c|
      invariant Reads(c, off, lens) == out + Reads(c, fd.offset, lens[m..])
      modifies fd`offset, fd.kernel`inodeCache
    {
      FileIsCurrent(k, fd.inodeNum);
      var buf := new byte[lens[m]](_ => 0);
      ghost var before := fd.offset;
      var n, r := ReadOnce(fd, buf);
      ReadsAfter(c, before, lens, m, out, n);
      if r == IoDone {
        out := out + buf[..n];
      } else {
        JoinThree(out, [], []);
      }
    }
    ReadsNothing(c, fd.offset);
    JoinThree(out, [], []);
    assert lens[|lens|..] == [];
  }

  /** One more buffer. */
  lemma ReadsAfter(c: seq<byte>, pos: nat, lens: seq<nat>, m: nat, out: seq<byte>, n: nat)
    requires m < |lens| && pos <= |c| && n == ReadCount(|c|, pos, lens[m])
    ensures out + Reads(c, pos, lens[m..]) == out + c[pos..pos + n] + Reads(c, pos + n, lens[m + 1..])
  {
    hide Reads;
    TailOf(lens, m);
    ReadsStep(c, pos, lens[m..]);
    JoinThree(out, c[pos..pos + n], Reads(c, pos + n, lens[m + 1..]));
  }

  lemma TailOf(lens: seq<nat>, m: nat)
    requires m < |lens|
    ensures lens[m..] != [] && lens[m..][0] == lens[m] && lens[m..][1..] == lens[m + 1..]
  {
  }

  lemma JoinThree(a: seq<byte>, b: seq<byte>, c: seq<byte>)
    ensures a + (b + c) == a + b + c && a + [] == a
  {
  }

  /** One read keeps the kernel ready. */
  method ReadOnce(fd: FileFD, buf: array<byte>) returns (n: nat, r: IoResult)
    requires Ready(fd.kernel) && IsFile(fd.kernel, fd.inodeNum) && buf != fd.kernel.fs.disk.buf
    modifies fd`offset, fd.kernel`inodeCache, buf
    ensures Ready(fd.kernel) && IsFile(fd.kernel, fd.inodeNum) && n <= buf.Length && fd.offset == old(fd.offset) + n
    ensures forall j :: j in fd.kernel.inodeCache ==>
      (j in old(fd.kernel.inodeCache) && fd.kernel.inodeCache[j] == old(fd.kernel.inodeCache)[j]) ||
        fresh(fd.kernel.inodeCache[j])
    ensures var ino := Decode(fd.kernel.fs.itab[fd.inodeNum]);
      ino.size <= MAXSIZE && var c := Content(ino, fd.kernel.fs.data);
      && n == ReadCount(|c|, old(fd.offset), buf.Length) && (r == if old(fd.offset) >= |c| then IoEof else IoDone)
      && (r == IoDone ==> buf[..n] == c[old(fd.offset)..old(fd.offset) + n])
  {
    hide FsOk, Shows, Decode, Content, WF, Sound;
    hide Fetched;
    FileIsCurrent(fd.kernel, fd.inodeNum);
    ghost var k: Kernel, off := fd.kernel, fd.offset;
    n, r := fd.Read(buf);
    if r != IoEof {
      ghost var ino := k.Current(fd.inodeNum);
      ghost var how :| r == AsIo(how) &&
          Fetched(ino, k.fs.data, off, ReadCount(ino.size, off, buf.Length)) == Fetch(buf[..n], how);
      ReadInRange(ino, k.fs.data, off, buf.Length, buf[..n], how);
    }
  }

  // ---------- any run of calls ----------

  /** The descriptors are distinct, belong to this kernel and are open on regular files. */
  ghost predicate Serves(k: Kernel, fds: seq<FileFD>)
    reads k.fs
  {
    && (forall f :: 0 <= f < |fds| ==> fds[f].kernel == k && IsFile(k, fds[f].inodeNum))
    && (forall f, g :: 0 <= f < g < |fds| ==> fds[f] != fds[g])
  }

  lemma ServesKnown(k: Kernel, fds: seq<FileFD>)
    requires Serves(k, fds)
    ensures Known(LedgerOf(k, fds), InumsOf(fds))
  {
    hide Decode;
  }

  /** The ledger after one descriptor has moved. */
  lemma LedgerMoved(k: Kernel, fds: seq<FileFD>, l: Ledger, f: nat, off: nat)
    requires f < |fds| && |l.offs| == |fds| && fds[f].offset as nat == off
    requires forall g :: 0 <= g < |fds| && g != f ==> fds[g].offset as nat == l.offs[g]
    ensures LedgerOf(k, fds) == Ledger(SizesOf(StateOf(k)), l.offs[f := off])
  {
    hide Decode;
  }

  lemma LedgerIs(k: Kernel, fds: seq<FileFD>, f: nat)
    requires Serves(k, fds) && f < |fds|
    ensures var l := LedgerOf(k, fds);
      |l.offs| == |fds| && forall g :: 0 <= g < |fds| ==> l.offs[g] == fds[g].offset as nat
    ensures fds[f].inodeNum < INODES && fds[f].inodeNum as nat in LedgerOf(k, fds).sizes
    ensures InumsOf(fds)[f] == fds[f].inodeNum as nat
    ensures LedgerOf(k, fds).sizes == SizesOf(StateOf(k))
    ensures LedgerOf(k, fds).sizes[fds[f].inodeNum as nat] == Decode(k.fs.itab[fds[f].inodeNum]).size as nat
  {
    hide Decode;
  }

  method SeekAct(k: Kernel, fds: seq<FileFD>, f: nat, off: u64, ghost l: Ledger)
    requires Ready(k) && Serves(k, fds) && f < |fds| && l == LedgerOf(k, fds)
    modifies fds
    ensures Ready(k) && Serves(k, fds) && StateOf(k) == old(StateOf(k)) && k.fs.dbm == old(k.fs.dbm)
    ensures Known(l, InumsOf(fds)) && LedgerOf(k, fds) == After(l, InumsOf(fds), Seek(f, off))
  {
    hide Ready, Decode, SizesOf, StateOf, IsFile;
    ServesKnown(k, fds);
    LedgerIs(k, fds, f);
    fds[f].SetOffset(off);
    LedgerMoved(k, fds, l, f, off);
  }

  method GetAct(k: Kernel, fds: seq<FileFD>, f: nat, len: nat, ghost l: Ledger) returns (out: seq<byte>)
    requires Ready(k) && Serves(k, fds) && f < |fds| && l == LedgerOf(k, fds)
    modifies fds, k`inodeCache
    ensures Ready(k) && Serves(k, fds) && StateOf(k) == old(StateOf(k)) && k.fs.dbm == old(k.fs.dbm)
    ensures Known(l, InumsOf(fds)) && LedgerOf(k, fds) == After(l, InumsOf(fds), Get(f, len))
    ensures Delivers(l, InumsOf(fds), Get(f, len), StateOf(k), Look, out)
    ensures forall j :: j in k.inodeCache ==>
      (j in old(k.inodeCache) && k.inodeCache[j] == old(k.inodeCache)[j]) || fresh(k.inodeCache[j])
  {
    hide Ready, Decode, SizesOf, IsFile, Content, Inos, After, Delivers, ReadCount, LedgerOf;
    ServesKnown(k, fds);
    LedgerIs(k, fds, f);
    FileIsCurrent(k, fds[f].inodeNum);
    var buf := new byte[len](_ => 0);
    var n, r := ReadOnce(fds[f], buf);
    LedgerMoved(k, fds, l, f, fds[f].offset);
    out := if r == IoDone then buf[..n] else [];
    SameLedger(l, StateOf(k));
    GetDelivers(l, InumsOf(fds), f, len, StateOf(k));
  }

  lemma SameLedger(l: Ledger, s: State)
    ensures l.sizes == SizesOf(s) ==> forall offs :: Ledger(SizesOf(s), offs) == l.(offs := offs)
  {
  }

  /** What a read delivers, and where it leaves the descriptor. */
  lemma GetDelivers(l: Ledger, inums: seq<nat>, f: nat, len: nat, s: State)
    requires Known(l, inums) && f < |inums| && inums[f] in s.inos && s.inos[inums[f]].size <= MAXSIZE
    requires l.sizes[inums[f]] == s.inos[inums[f]].size as nat
    ensures var c, off := Content(s.inos[inums[f]], s.data), l.offs[f];
      var n := ReadCount(|c|, off, len);
      && Delivers(l, inums, Get(f, len), s, Look, if off >= |c| then [] else c[off..off + n])
      && After(l, inums, Get(f, len)) == l.(offs := l.offs[f := off + n])
  {
    hide Content;
  }

  /** The bound on a write, from the state. */
  method PutAct(k: Kernel, fds: seq<FileFD>, f: nat, d: seq<byte>, ghost l: Ledger) returns (full: bool, ghost op: Op)
    requires Ready(k) && Serves(k, fds) && f < |fds| && l == LedgerOf(k, fds) && fds[f].offset + |d| <= U32 - BLOCKSIZE
    modifies fds, k`inodeCache, k.inodeCache.Values, k.fs`data, k.fs`dbm, k.fs`itab, k.fs.disk.buf
    ensures Known(l, InumsOf(fds)) && (full <==> Cost(l, InumsOf(fds), Put(f, d)) > |Free(old(k.fs.dbm))|)
    ensures !full ==> Ready(k) && Serves(k, fds) && Does(op, old(StateOf(k)), StateOf(k)) && NoWrap(op)
    ensures !full ==> LedgerOf(k, fds) == After(l, InumsOf(fds), Put(f, d))
    ensures !full ==> Delivers(l, InumsOf(fds), Put(f, d), old(StateOf(k)), op, [])
    ensures !full ==> |Free(k.fs.dbm)| + Cost(l, InumsOf(fds), Put(f, d)) == |Free(old(k.fs.dbm))|
    ensures forall j :: j in k.inodeCache ==>
      (j in old(k.inodeCache) && k.inodeCache[j] == old(k.inodeCache)[j]) || fresh(k.inodeCache[j])
  {
    hide Ready, Decode, SizesOf, Inos, IsFile, Free, Need, NBlocks, Does, Owned, Cost, After, Delivers, LedgerOf,
      OwnedState, Sized;
    ghost var s, i, off := StateOf(k), fds[f].inodeNum, fds[f].offset;
    ServesKnown(k, fds);
    LedgerIs(k, fds, f);
    FileIsCurrent(k, i);
    ReadyIsState(k);
    PutFacts(l, InumsOf(fds), f, d, |Free(k.fs.dbm)|);
    var r := WriteOnce(fds[f], d);
    full := r == IoPanicked;
    op := Look;
    if r == IoDone {
      op := WriteAt(i, off, d);
      WriteTakes(s, i, off, d, StateOf(k));
      LedgerMoved(k, fds, l, f, off + |d|);
      PutDelivers(l, InumsOf(fds), f, d, s);
    } else if r == IoTooBig {
      LookIsStep(s);
      LedgerMoved(k, fds, l, f, off);
      PutDelivers(l, InumsOf(fds), f, d, s);
    }
  }

  /** A write in terms of sizes and blocks. */
  lemma PutFacts(l: Ledger, inums: seq<nat>, f: nat, d: seq<byte>, free: nat)
    requires Known(l, inums) && f < |inums| && l.sizes[inums[f]] <= MAXSIZE && l.offs[f] + |d| <= U32 - BLOCKSIZE
    ensures var end, size, cost := l.offs[f] + |d|, l.sizes[inums[f]], Cost(l, inums, Put(f, d));
      && (end <= MAXSIZE && end > size ==> cost + Need(NBlocks(size)) == Need(NBlocks(end)))
      && (end > MAXSIZE || end <= size ==> cost == 0)
    ensures var end, size := l.offs[f] + |d|, l.sizes[inums[f]];
      After(l, inums, Put(f, d)) ==
        if end > MAXSIZE then l else Ledger(l.sizes[inums[f] := if end > size then end else size], l.offs[f := end])
  {
    NeedUpTo(l.sizes[inums[f]], l.offs[f] + |d|);
    hide Need, NBlocks;
  }

  lemma PutDelivers(l: Ledger, inums: seq<nat>, f: nat, d: seq<byte>, s: State)
    requires Known(l, inums) && f < |inums|
    ensures Delivers(l, inums, Put(f, d), s, if l.offs[f] + |d| > MAXSIZE then Look else WriteAt(inums[f], l.offs[f],
        d), [])
  {
  }

  lemma LookIsStep(s: State)
    ensures Does(Look, s, s)
  {
  }

  /** Larger files need more. */
  lemma NeedUpTo(a: nat, b: nat)
    requires a <= U32 - BLOCKSIZE && b <= U32 - BLOCKSIZE
    ensures a <= b ==> Need(NBlocks(a)) <= Need(NBlocks(b))
  {
  }

  /** One call. */
  method OneAct(k: Kernel, fds: seq<FileFD>, a: Act, ghost l: Ledger) returns (full: bool, out: seq<byte>, ghost op: Op)
    requires Ready(k) && Serves(k, fds) && a.f < |fds| && l == LedgerOf(k, fds)
    requires a.Put? ==> fds[a.f].offset + |a.d| <= U32 - BLOCKSIZE
    modifies fds, k`inodeCache, k.inodeCache.Values, k.fs`data, k.fs`dbm, k.fs`itab, k.fs.disk.buf
    ensures Known(l, InumsOf(fds)) && (full <==> Cost(l, InumsOf(fds), a) > |Free(old(k.fs.dbm))|)
    ensures !full ==> Ready(k) && Serves(k, fds) && Does(op, old(StateOf(k)), StateOf(k)) && NoWrap(op)
    ensures !full ==> LedgerOf(k, fds) == After(l, InumsOf(fds), a)
    ensures !full ==> Delivers(l, InumsOf(fds), a, old(StateOf(k)), op, out)
    ensures !full ==> |Free(k.fs.dbm)| + Cost(l, InumsOf(fds), a) == |Free(old(k.fs.dbm))|
    ensures forall j :: j in k.inodeCache ==>
      (j in old(k.inodeCache) && k.inodeCache[j] == old(k.inodeCache)[j]) || fresh(k.inodeCache[j])
  {
    hide Ready, Serves, Decode, StateOf, SizesOf, LedgerOf, InumsOf, IsFile, Free, Need, NBlocks, Does, After, Content;
    full, out, op := false, [], Look;
    LookIsStep(StateOf(k));
    match a
    case Seek(f, off) => SeekAct(k, fds, f, off, l);
    case Get(f, len) => out := GetAct(k, fds, f, len, l);
    case Put(f, d) => full, op := PutAct(k, fds, f, d, l);
  }

  /** Any run of SetOffset, Read and Write on any descriptors of any regular files is a run in the sense of Runs, every
      read delivers the bytes of its file from its descriptor's offset, and sizes and offsets are what the ledger says.
      It goes on to the end if and only if the free blocks cover what the calls take in all, and otherwise up to the
      first call that goes beyond them. */
  method RunActs(k: Kernel, fds: seq<FileFD>, acts: seq<Act>)
    returns (done: nat, outs: seq<seq<byte>>, ghost ops: seq<Op>, ghost tr: seq<State>)
    requires Ready(k) && Serves(k, fds) && OnKnown(InumsOf(fds), acts)
    requires Known(LedgerOf(k, fds), InumsOf(fds)) && Within(LedgerOf(k, fds), InumsOf(fds), acts)
    modifies fds, k`inodeCache, k.inodeCache.Values, k.fs`data, k.fs`dbm, k.fs`itab, k.fs.disk.buf
    ensures done <= |acts| && |outs| == |ops| == done
    ensures IsRun(ops, tr) && tr[0] == old(StateOf(k)) && OwnedState(tr[0]) && Sized(tr[0]) &&
      forall m :: 0 <= m < done ==> NoWrap(ops[m])
    ensures var l, inums := old(LedgerOf(k, fds)), InumsOf(fds);
      && Known(l, inums) && OnKnown(inums, acts[..done])
      && (forall m :: 0 <= m < done ==>
           (OnKnown(inums, acts[..m]) && acts[m].f < |inums|
            && Delivers(AfterAll(l, inums, acts[..m]), inums, acts[m], tr[m], ops[m], outs[m])))
      && Total(l, inums, acts[..done]) <= |Free(old(k.fs.dbm))|
      && (done < |acts| ==>
            OnKnown(inums, acts[..done + 1]) && Total(l, inums, acts[..done + 1]) > |Free(old(k.fs.dbm))|)
      && (done == |acts| <==> Total(l, inums, acts) <= |Free(old(k.fs.dbm))|)
      && (done == |acts| ==> Ready(k) && tr[done] == StateOf(k) && LedgerOf(k, fds) == AfterAll(l, inums, acts))
  {
    hide Ready, Serves, Decode, StateOf, SizesOf, LedgerOf, InumsOf, IsFile, Free, Need, NBlocks, Does, After, Cost,
      Delivers, OwnedState, Sized, AfterAll, Total, Known;
    ghost var l, inums, free := LedgerOf(k, fds), InumsOf(fds), |Free(k.fs.dbm)|;
    ReadyIsState(k);
    outs, ops, tr := [], [], [StateOf(k)];
    NoActs(l, inums, acts);
    done := 0;
    while done < |acts|
      invariant done <= |acts| && |outs| == |ops| == done
      invariant Ready(k) && Serves(k, fds) && IsRun(ops, tr) && tr[0] == old(StateOf(k)) && tr[done] == StateOf(k)
      invariant OnKnown(inums, acts[..done]) && LedgerOf(k, fds) == AfterAll(l, inums, acts[..done])
      invariant |Free(k.fs.dbm)| + Total(l, inums, acts[..done]) == free
      invariant forall m :: 0 <= m < done ==> NoWrap(ops[m])
      invariant forall m :: 0 <= m < done ==>
        (OnKnown(inums, acts[..m]) && acts[m].f < |inums|
         && Delivers(AfterAll(l, inums, acts[..m]), inums, acts[m], tr[m], ops[m], outs[m]))
      invariant forall j :: j in k.inodeCache ==>
        (j in old(k.inodeCache) && k.inodeCache[j] == old(k.inodeCache)[j]) || fresh(k.inodeCache[j])
    {
      OneMoreAct(l, inums, acts, done);
      OffsetIs(k, fds, acts[done].f);
      var full, out;
      ghost var op;
      full, out, op := OneAct(k, fds, acts[done], AfterAll(l, inums, acts[..done]));
      if full {
        TotalGrows(l, inums, acts, done + 1);
        return;
      }
      outs, ops, tr := outs + [out], ops + [op], tr + [StateOf(k)];
      done := done + 1;
    }
    assert acts[..done] == acts;
  }

  lemma NoActs(l: Ledger, inums: seq<nat>, acts: seq<Act>)
    requires Known(l, inums)
    ensures OnKnown(inums, acts[..0]) && AfterAll(l, inums, acts[..0]) == l && Total(l, inums, acts[..0]) == 0
  {
  }

  lemma OffsetIs(k: Kernel, fds: seq<FileFD>, f: nat)
    requires f < |InumsOf(fds)|
    ensures f < |fds| && f < |LedgerOf(k, fds).offs| && LedgerOf(k, fds).offs[f] == fds[f].offset as nat
  {
    hide StateOf, SizesOf;
  }
}

/** Freeing a subtree of inodes (computer/kernel.go:299-330). */
module TreeFree {
  import opened Bytes
  import opened Bitmap
  import opened Layout
  import opened Inodes
  import opened BlockMap
  import opened Disk
  import opened Allocator
  import opened Volume
  import opened Files
  import opened Dir
  import opened Paths

  const DOT: Name := [0x2e]
  const DOTDOT: Name := [0x2e, 0x2e]

  /** The inodes that a listing names, apart from "." and "..". */
  function Kids(es: seq<DirEntry>): seq<u32>
  {
    if es == [] then []
    else
      var e := es[|es| - 1];
      Kids(es[..|es| - 1]) + if e.name == DOT || e.name == DOTDOT then [] else [e.inum]
  }

  lemma {:induction false} KidsPrefix(es: seq<DirEntry>, i: nat)
    requires i <= |es|
    ensures Kids(es[..i]) <= Kids(es)
  {
    if i < |es| {
      KidsPrefix(es[..|es| - 1], i);
      assert es[..|es| - 1][..i] == es[..i];
    } else {
      assert es[..i] == es;
    }
  }

  /** They are the numbers of all entries under other names than "." and "..". */
  lemma {:induction false} KidsAre(es: seq<DirEntry>, i: u32)
    ensures i in Kids(es) <==>
      exists q :: 0 <= q < |es| && es[q].inum == i && es[q].name != [0x2e] && es[q].name != [0x2e, 0x2e]
  {
    if es != [] {
      var front := es[..|es| - 1];
      KidsAre(front, i);
      assert forall q :: 0 <= q < |front| ==> front[q] == es[q];
    }
  }

  /** The shape of a subtree. */
  datatype Tree = Node(inum: u32, kids: seq<Tree>)

  /** t is the subtree of inodes below t.inum as the directories on disk list it. */
  ghost predicate TreeAt(itab: InodeTable, data: Blocks, t: Tree)
  {
    && t.inum < INODES
    && var ino := Decode(itab[t.inum]);
    if IsDir(ino) then
      && NBlocks(ino.size) <= MAXBLOCKS && DirOk(Slots(ino, data))
      && var ks := Kids(Entries(Slots(ino, data)));
      && |t.kids| == |ks|
      && forall q :: 0 <= q < |ks| ==> t.kids[q].inum == ks[q] && TreeAt(itab, data, t.kids[q])
    else t.kids == []
  }

  ghost function Inums(t: Tree): set<nat>
    decreases t, 0
  {
    {t.inum as nat} + InumsOf(t.kids)
  }

  ghost function InumsOf(ts: seq<Tree>): set<nat>
    decreases ts
  {
    if ts == [] then {} else InumsOf(ts[..|ts| - 1]) + Inums(ts[|ts| - 1])
  }

  /** No inode occurs twice. */
  ghost predicate Distinct(t: Tree)
    decreases t, 0
  {
    t.inum as nat !in InumsOf(t.kids) && AllDistinct(t.kids)
  }

  ghost predicate AllDistinct(ts: seq<Tree>)
    decreases ts
  {
    ts == [] ||
    (AllDistinct(ts[..|ts| - 1]) && Distinct(ts[|ts| - 1]) && InumsOf(ts[..|ts| - 1]) !! Inums(ts[|ts| - 1]))
  }

  /** The trees before the m-th, the m-th, and all of them. */
  lemma {:induction false} SplitInums(ts: seq<Tree>, m: nat)
    requires m < |ts|
    ensures InumsOf(ts[..m + 1]) == InumsOf(ts[..m]) + Inums(ts[m])
    ensures InumsOf(ts[..m + 1]) <= InumsOf(ts)
    ensures AllDistinct(ts) ==> Distinct(ts[m]) && InumsOf(ts[..m]) !! Inums(ts[m])
  {
    assert ts[..m + 1][..m] == ts[..m];
    if m < |ts| - 1 {
      SplitInums(ts[..|ts| - 1], m);
      assert ts[..|ts| - 1][..m] == ts[..m] && ts[..|ts| - 1][..m + 1] == ts[..m + 1];
    } else {
      assert ts[..m + 1] == ts;
    }
  }

  // ---------- what has been freed ----------

  ghost predicate InodesFreed(ibm: InodeBitmap, ibm': InodeBitmap, freed: set<nat>)
  {
    forall i: nat :: Taken(ibm', i) <==> Taken(ibm, i) && i !in freed
  }

  ghost predicate OwnedByAny(itab: InodeTable, data: Blocks, freed: set<nat>, b: nat)
  {
    exists i :: i in freed && i < INODES && b in Own(Decode(itab[i]), data)
  }

  ghost predicate BlocksFreed(itab: InodeTable, data: Blocks, dbm: DataBitmap, dbm': DataBitmap, freed: set<nat>)
  {
    forall b: nat :: Taken(dbm', b) <==> Taken(dbm, b) && !OwnedByAny(itab, data, freed, b)
  }

  lemma FreedNothing(ibm: InodeBitmap, itab: InodeTable, dbm: DataBitmap, data: Blocks)
    ensures InodesFreed(ibm, ibm, {}) && BlocksFreed(itab, data, dbm, dbm, {})
  {
  }

  lemma FreedBoth(itab: InodeTable, data: Blocks, ibm: InodeBitmap, ibm1: InodeBitmap, ibm2: InodeBitmap,
                  dbm: DataBitmap, dbm1: DataBitmap, dbm2: DataBitmap, a: set<nat>, b: set<nat>)
    requires InodesFreed(ibm, ibm1, a) && InodesFreed(ibm1, ibm2, b)
    requires BlocksFreed(itab, data, dbm, dbm1, a) && BlocksFreed(itab, data, dbm1, dbm2, b)
    ensures InodesFreed(ibm, ibm2, a + b) && BlocksFreed(itab, data, dbm, dbm2, a + b)
  {
    forall x: nat ensures OwnedByAny(itab, data, a + b, x) <==>
      OwnedByAny(itab, data, a, x) || OwnedByAny(itab, data, b, x) {
      if i :| i in a && i < INODES && x in Own(Decode(itab[i]), data) {
        assert i in a + b;
      } else if i :| i in b && i < INODES && x in Own(Decode(itab[i]), data) {
        assert i in a + b;
      }
    }
  }

  /** Every inode is well-formed, no two share a block, and what they own is marked: all of the ownership invariant but
      that every marked block has an owner. */
  ghost predicate Held(inos: InodeMap, data: Blocks, bm: DataBitmap)
  {
    && HighBitsSet(bm)
    && (forall i :: i in inos ==> WF(inos[i], data))
    && (forall i, j :: i in inos && j in inos && i != j ==> Own(inos[i], data) !! Own(inos[j], data))
    && (forall i, b: nat :: i in inos && b in Own(inos[i], data) ==> Taken(bm, b))
  }

  lemma OwnedIsHeld(inos: InodeMap, data: Blocks, bm: DataBitmap)
    ensures Owned(inos, data, bm) <==>
      Held(inos, data, bm) && forall b: nat :: b < BLOCKS && Taken(bm, b) ==>
        exists i :: i in inos && b in Own(inos[i], data)
  {
  }

  /** c is v or an earlier state of v: at most as many blocks, found through the same pointers. */
  ghost predicate Older(c: Ino, v: Ino)
  {
    && c.fType == v.fType && NBlocks(c.size) <= NBlocks(v.size) <= MAXBLOCKS
    && (forall s: nat :: s < NDIRECT && s < NBlocks(c.size) ==> c.direct[s] == v.direct[s])
    && (LiveSlot(c, FINDSLOT) ==> c.find == v.find)
    && (LiveSlot(c, SINDSLOT) ==> c.sind == v.sind)
    && (LiveSlot(c, TINDSLOT) ==> c.tind == v.tind)
  }

  /** An earlier state lists the same blocks, as far as it goes. */
  lemma OlderSlots(c: Ino, v: Ino, data: Blocks)
    requires Older(c, v)
    ensures forall s: nat :: LiveSlot(c, s) ==> LiveSlot(v, s) && SlotBlock(c, data, s) == SlotBlock(v, data, s)
  {
    forall s: nat | LiveSlot(c, s) ensures LiveSlot(v, s) && SlotBlock(c, data, s) == SlotBlock(v, data, s) {
      if FIND <= s < SIND {
        assert LiveSlot(c, FINDSLOT);
      } else if SIND <= s < TIND {
        assert LiveSlot(c, SINDSLOT);
      } else if TIND <= s < MAXBLOCKS {
        assert LiveSlot(c, TINDSLOT);
      }
    }
  }

  lemma OlderOwnsLess(c: Ino, v: Ino, data: Blocks)
    requires Older(c, v) && WF(v, data)
    ensures WF(c, data) && Own(c, data) <= Own(v, data)
  {
    hide Older, SlotBlock;
    OlderSlots(c, v, data);
    OlderFits(c, v);
    forall b: nat | b in Own(c, data) ensures b in Own(v, data) {
      var s := SlotOf(c, data, b);
      OwnHas(v, data, s);
    }
  }

  lemma OlderSelf(v: Ino)
    requires NBlocks(v.size) <= MAXBLOCKS
    ensures Older(v, v)
  {
  }

  lemma OlderTransitive(a: Ino, b: Ino, c: Ino)
    requires Older(a, b) && Older(b, c)
    ensures Older(a, c)
  {
  }

  lemma OlderFits(c: Ino, v: Ino)
    requires Older(c, v)
    ensures NBlocks(c.size) <= NBlocks(v.size) <= MAXBLOCKS && IsDir(c) == IsDir(v)
  {
  }

  /** Dropping an inode with the blocks that an earlier state of it lists keeps all but the last part of the
      invariant. */
  lemma FreedOne(ibm: InodeBitmap, itab: InodeTable, seen: InodeTable, dbm: DataBitmap, data: Blocks, i: nat,
                 ino': Ino, data': Blocks, dbm': DataBitmap, ibm': InodeBitmap)
    requires Held(Inos(ibm, itab), data, dbm) && Taken(ibm, i) && Older(Decode(seen[i]), Decode(itab[i]))
    requires Reallocated(Decode(seen[i]), data, dbm, 0, ino', data', dbm')
    requires InodesFreed(ibm, ibm', {i})
    ensures data' == data && Held(Inos(ibm', itab), data, dbm') && BlocksFreed(seen, data, dbm, dbm', {i})
  {
    hide Decode, Reallocated, Sound, WF, Own, Older;
    var inos := Inos(ibm, itab);
    var c := Decode(seen[i]);
    assert inos[i] == Decode(itab[i]);
    OlderIsSound(inos, data, dbm, i, c);
    FallocZeroReturnsAll(c, data, dbm, ino', data', dbm');
    forall b: nat ensures OwnedByAny(seen, data, {i}, b) <==> b in Own(c, data) {
      if b in Own(c, data) {
        assert i in {i};
      }
    }
    OwnedInRange(c, data, dbm);
  }

  lemma OlderIsSound(inos: InodeMap, data: Blocks, dbm: DataBitmap, i: nat, c: Ino)
    requires Held(inos, data, dbm) && i in inos && Older(c, inos[i])
    ensures Sound(c, data, dbm) && Own(c, data) <= Own(inos[i], data)
  {
    hide Own, Older, Bit;
    OlderOwnsLess(c, inos[i], data);
  }

  lemma OwnedInRange(ino: Ino, data: Blocks, dbm: DataBitmap)
    requires Sound(ino, data, dbm)
    ensures forall b: nat :: b in Own(ino, data) ==> b < BLOCKS
  {
    forall b: nat | b in Own(ino, data) ensures b < BLOCKS {
      var s := SlotOf(ino, data, b);
    }
  }

  // ---------- freeInodeTree ----------

  /** The kernel sees the inodes of S as this table has them. */
  ghost predicate Sees(k: Kernel, seen: InodeTable, s: set<nat>)
    reads k, k.fs, k.inodeCache.Values
  {
    forall i: u32 :: i as nat in s && i < INODES ==> k.Current(i) == Decode(seen[i])
  }

  /** On S the first table holds earlier states of the inodes in the second. */
  ghost predicate AllOlder(seen: InodeTable, itab: InodeTable, s: set<nat>)
  {
    forall i: u32 :: i as nat in s && i < INODES ==> Older(Decode(seen[i]), Decode(itab[i]))
  }

  ghost predicate AllTaken(ibm: InodeBitmap, s: set<nat>)
  {
    forall i :: i in s ==> Taken(ibm, i)
  }

  /** The tail of freeInodeTree: blocks, inode bit and cache entry (computer/kernel.go:322-329). */
  method FreeOne(k: Kernel, inode: Inode, inum: u32, ghost seen: InodeTable) returns (r: FreeInodeResult)
    requires k.Valid() && inum in k.inodeCache && k.inodeCache[inum] == inode
    requires Held(Inos(k.fs.ibm, k.fs.itab), k.fs.data, k.fs.dbm) && Taken(k.fs.ibm, inum)
    requires inode.Val() == Decode(seen[inum]) && Older(Decode(seen[inum]), Decode(k.fs.itab[inum]))
    modifies k`inodeCache, inode, k.fs`ibm, k.fs`dbm, k.fs`data, k.fs.disk.buf
    ensures k.Valid() && r == Freed && k.fs.data == old(k.fs.data)
    ensures InodesFreed(old(k.fs.ibm), k.fs.ibm, {inum})
    ensures BlocksFreed(seen, k.fs.data, old(k.fs.dbm), k.fs.dbm, {inum})
    ensures Held(Inos(k.fs.ibm, k.fs.itab), k.fs.data, k.fs.dbm)
    ensures k.inodeCache == old(k.inodeCache) - {inum}
  {
    hide Shows, Held, Older, Reallocated, FirstFit, Sound, Decode, BlocksFreed, OwnedByAny, Free;
    ghost var ibm, dbm, data := k.fs.ibm, k.fs.dbm, k.fs.data;
    assert inum as nat in Inos(ibm, k.fs.itab);
    OlderIsSound(Inos(ibm, k.fs.itab), data, dbm, inum, inode.Val());
    var fr := Falloc(k.fs, inode, 0);
    ghost var data1 := k.fs.data;
    r := k.fs.FreeInodeFromBitmap(inum);
    FreedOne(ibm, k.fs.itab, seen, dbm, data, inum, inode.Val(), data1, k.fs.dbm, k.fs.ibm);
    k.inodeCache := k.inodeCache - {inum};
  }

  /** Everything freeInodeTree needs to know about the inodes of S. */
  ghost predicate Freeable(k: Kernel, seen: InodeTable, s: set<nat>)
    reads k, k.fs, k.fs.disk, k.fs.disk.buf, k.inodeCache.Values
  {
    && k.Valid()
    && Held(Inos(k.fs.ibm, k.fs.itab), k.fs.data, k.fs.dbm)
    && AllTaken(k.fs.ibm, s)
    && Sees(k, seen, s) && AllOlder(seen, k.fs.itab, s)
  }

  /** The inodes of `freed` and their blocks have been given back since ibm0 and dbm0, nothing else has. */
  ghost predicate GaveBack(k: Kernel, seen: InodeTable, ibm0: InodeBitmap, dbm0: DataBitmap, freed: set<nat>)
    reads k, k.fs, k.fs.disk, k.fs.disk.buf, k.inodeCache.Values
  {
    && k.Valid()
    && InodesFreed(ibm0, k.fs.ibm, freed)
    && BlocksFreed(seen, k.fs.data, dbm0, k.fs.dbm, freed)
    && Held(Inos(k.fs.ibm, k.fs.itab), k.fs.data, k.fs.dbm)
  }

  lemma GaveBackNothing(k: Kernel, seen: InodeTable, s: set<nat>)
    requires Freeable(k, seen, s)
    ensures GaveBack(k, seen, k.fs.ibm, k.fs.dbm, {})
  {
    FreedNothing(k.fs.ibm, seen, k.fs.dbm, k.fs.data);
  }

  /** Inodes not yet given back can still be. */
  lemma StillFreeable(k: Kernel, seen: InodeTable, ibm0: InodeBitmap, dbm0: DataBitmap, freed: set<nat>, s: set<nat>,
                      rest: set<nat>)
    requires GaveBack(k, seen, ibm0, dbm0, freed) && s <= rest && AllTaken(ibm0, rest + freed) && freed !! s
    requires Sees(k, seen, rest)
    requires AllOlder(seen, k.fs.itab, rest)
    ensures Freeable(k, seen, s) && InodesFreed(ibm0, k.fs.ibm, freed)
    ensures BlocksFreed(seen, k.fs.data, dbm0, k.fs.dbm, freed)
  {
  }

  lemma GaveBackBoth(k: Kernel, seen: InodeTable, ibm0: InodeBitmap, dbm0: DataBitmap, ibm1: InodeBitmap,
                     dbm1: DataBitmap, a: set<nat>, b: set<nat>)
    requires InodesFreed(ibm0, ibm1, a) && BlocksFreed(seen, k.fs.data, dbm0, dbm1, a)
    requires GaveBack(k, seen, ibm1, dbm1, b)
    ensures GaveBack(k, seen, ibm0, dbm0, a + b)
  {
    FreedBoth(seen, k.fs.data, ibm0, ibm1, k.fs.ibm, dbm0, dbm1, k.fs.dbm, a, b);
  }

  /** The next entry is skipped or names the next child. */
  lemma NextKid(es: seq<DirEntry>, i: nat, m: nat)
    requires i < |es| && m <= |Kids(es)| && Kids(es[..i]) == Kids(es)[..m]
    ensures es[i].name == DOT || es[i].name == DOTDOT ==> Kids(es[..i + 1]) == Kids(es)[..m]
    ensures es[i].name != DOT && es[i].name != DOTDOT ==>
      m < |Kids(es)| && Kids(es)[m] == es[i].inum && Kids(es[..i + 1]) == Kids(es)[..m + 1]
  {
    KidsPrefix(es, i + 1);
    assert es[..i + 1][..i] == es[..i];
  }

  /** The recursion over the entries (computer/kernel.go:312-319). */
  method FreeEntries(k: Kernel, entries: seq<DirEntry>, ghost kids: seq<Tree>, ghost seen: InodeTable)
    returns (r: FreeInodeResult)
    requires Freeable(k, seen, InumsOf(kids)) && AllDistinct(kids)
    requires |Kids(entries)| == |kids|
    requires forall q :: 0 <= q < |kids| ==> kids[q].inum == Kids(entries)[q] && TreeAt(k.fs.itab, k.fs.data, kids[q])
    modifies k`inodeCache, set i | i in k.inodeCache && i as nat in InumsOf(kids) :: k.inodeCache[i]
    modifies k.fs`ibm, k.fs`dbm, k.fs`data, k.fs.disk.buf
    ensures r == Freed && k.fs.data == old(k.fs.data)
    ensures GaveBack(k, seen, old(k.fs.ibm), old(k.fs.dbm), InumsOf(kids))
    ensures k.inodeCache.Keys == set i | i in old(k.inodeCache) && i as nat !in InumsOf(kids)
    ensures forall i :: i in k.inodeCache ==> k.inodeCache[i] == old(k.inodeCache)[i]
    decreases kids, 0
  {
    hide Shows, Freeable, GaveBack, Sees, Older, AllTaken, Decode, TreeAt, Inums, InumsOf, Distinct, AllDistinct, Kids;
    ghost var ibm, dbm := k.fs.ibm, k.fs.dbm;
    ghost var m := 0;
    GaveBackNothing(k, seen, InumsOf(kids));
    FreeableFacts(k, seen, InumsOf(kids));
    NoKids(entries, kids);
    assert InumsOf(kids) - {} == InumsOf(kids);
    r := Freed;
    for i := 0 to |entries|
      invariant r == Freed && k.fs.data == old(k.fs.data)
      invariant m <= |kids| && Kids(entries[..i]) == Kids(entries)[..m]
      invariant GaveBack(k, seen, ibm, dbm, InumsOf(kids[..m]))
      invariant k.inodeCache.Keys == set i | i in old(k.inodeCache) && i as nat !in InumsOf(kids[..m])
      invariant forall i :: i in k.inodeCache ==> k.inodeCache[i] == old(k.inodeCache)[i]
      invariant k.Valid() && InumsOf(kids[..m]) <= InumsOf(kids)
      invariant Sees(k, seen, InumsOf(kids) - InumsOf(kids[..m]))
      invariant AllOlder(seen, k.fs.itab, InumsOf(kids) - InumsOf(kids[..m]))
    {
      var entry := entries[i];
      NextKid(entries, i, m);
      if entry.name == DOT || entry.name == DOTDOT {
        continue;
      }
      SplitInums(kids, m);
      assert InumsOf(kids) - InumsOf(kids[..m]) + InumsOf(kids[..m]) == InumsOf(kids);
      assert InumsOf(kids) - InumsOf(kids[..m]) - Inums(kids[m]) == InumsOf(kids) - InumsOf(kids[..m + 1]);
      r := FreeKid(k, entry.inum, kids[m], seen, ibm, dbm, InumsOf(kids[..m]), InumsOf(kids) - InumsOf(kids[..m]));
      m := m + 1;
    }
    assert entries[..|entries|] == entries && kids[..|kids|] == kids && Kids(entries)[..|kids|] == Kids(entries);
  }

  lemma NoKids(entries: seq<DirEntry>, kids: seq<Tree>)
    ensures Kids(entries[..0]) == [] && InumsOf(kids[..0]) == {}
  {
  }

  lemma FreeableFacts(k: Kernel, seen: InodeTable, s: set<nat>)
    requires Freeable(k, seen, s)
    ensures k.Valid() && AllTaken(k.fs.ibm, s) && Sees(k, seen, s) && AllOlder(seen, k.fs.itab, s)
  {
  }

  /** One child after others have been given back. */
  method FreeKid(k: Kernel, inum: u32, ghost t: Tree, ghost seen: InodeTable, ghost ibm0: InodeBitmap,
                 ghost dbm0: DataBitmap, ghost freed: set<nat>, ghost rest: set<nat>)
    returns (r: FreeInodeResult)
    requires t.inum == inum && TreeAt(k.fs.itab, k.fs.data, t) && Distinct(t)
    requires GaveBack(k, seen, ibm0, dbm0, freed) && k.Valid() && freed !! Inums(t)
    requires Inums(t) <= rest && AllTaken(ibm0, rest + freed) && Sees(k, seen, rest) && AllOlder(seen, k.fs.itab, rest)
    modifies k`inodeCache, set i | i in k.inodeCache && i as nat in Inums(t) :: k.inodeCache[i]
    modifies k.fs`ibm, k.fs`dbm, k.fs`data, k.fs.disk.buf
    ensures r == Freed && k.fs.data == old(k.fs.data) && k.Valid()
    ensures GaveBack(k, seen, ibm0, dbm0, freed + Inums(t)) && Sees(k, seen, rest - Inums(t))
    ensures k.inodeCache.Keys == set i | i in old(k.inodeCache) && i as nat !in Inums(t)
    ensures forall i :: i in k.inodeCache ==> k.inodeCache[i] == old(k.inodeCache)[i]
    decreases t, 1
  {
    hide Shows, Held, Older, Decode, TreeAt, Inums, Distinct, GaveBack;
    ghost var ibm1, dbm1 := k.fs.ibm, k.fs.dbm;
    StillFreeable(k, seen, ibm0, dbm0, freed, Inums(t), rest);
    r := FreeInodeTree(k, inum, t, seen);
    GaveBackBoth(k, seen, ibm0, dbm0, ibm1, dbm1, freed, Inums(t));
  }

  /** (computer/kernel.go:301-330) */
  method FreeInodeTree(k: Kernel, inum: u32, ghost t: Tree, ghost seen: InodeTable) returns (r: FreeInodeResult)
    requires t.inum == inum && TreeAt(k.fs.itab, k.fs.data, t) && Distinct(t)
    requires Freeable(k, seen, Inums(t))
    modifies k`inodeCache, set i | i in k.inodeCache && i as nat in Inums(t) :: k.inodeCache[i]
    modifies k.fs`ibm, k.fs`dbm, k.fs`data, k.fs.disk.buf
    ensures r == Freed && k.fs.data == old(k.fs.data)
    ensures GaveBack(k, seen, old(k.fs.ibm), old(k.fs.dbm), Inums(t))
    ensures k.inodeCache.Keys == set i | i in old(k.inodeCache) && i as nat !in Inums(t)
    ensures forall i :: i in k.inodeCache ==> k.inodeCache[i] == old(k.inodeCache)[i]
    decreases t, 0
  {
    hide Shows, GaveBack, Held, Older, Decode, BlocksFreed, InodesFreed, InumsOf, AllDistinct, TreeAt;
    ghost var ibm, dbm := k.fs.ibm, k.fs.dbm;
    var inode, _ := k.GetInode(inum);
    r := FreeChildren(k, inode, inum, t, seen);
    r := FreeSelf(k, inode, inum, seen, ibm, dbm, InumsOf(t.kids));
    assert Inums(t) == InumsOf(t.kids) + {inum as nat};
  }

  /** FreeOne after the children have been given back. */
  method FreeSelf(k: Kernel, inode: Inode, inum: u32, ghost seen: InodeTable, ghost ibm0: InodeBitmap,
                  ghost dbm0: DataBitmap, ghost freed: set<nat>)
    returns (r: FreeInodeResult)
    requires GaveBack(k, seen, ibm0, dbm0, freed) && Taken(ibm0, inum) && inum as nat !in freed
    requires inum in k.inodeCache && k.inodeCache[inum] == inode && inode.Val() == Decode(seen[inum])
    requires Older(Decode(seen[inum]), Decode(k.fs.itab[inum]))
    modifies k`inodeCache, inode, k.fs`ibm, k.fs`dbm, k.fs`data, k.fs.disk.buf
    ensures r == Freed && k.fs.data == old(k.fs.data)
    ensures GaveBack(k, seen, ibm0, dbm0, freed + {inum as nat})
    ensures k.inodeCache == old(k.inodeCache) - {inum}
  {
    hide Shows, GaveBack, Held, Older, Decode, BlocksFreed, InodesFreed;
    ghost var ibm1, dbm1 := k.fs.ibm, k.fs.dbm;
    GaveBackFacts(k, seen, ibm0, dbm0, freed, inum);
    r := FreeOne(k, inode, inum, seen);
    FreedIsGivenBack(k, seen, ibm1, dbm1, {inum as nat});
    GaveBackBoth(k, seen, ibm0, dbm0, ibm1, dbm1, freed, {inum as nat});
  }

  lemma GaveBackFacts(k: Kernel, seen: InodeTable, ibm0: InodeBitmap, dbm0: DataBitmap, freed: set<nat>, i: nat)
    requires GaveBack(k, seen, ibm0, dbm0, freed) && Taken(ibm0, i) && i !in freed
    ensures k.Valid() && Held(Inos(k.fs.ibm, k.fs.itab), k.fs.data, k.fs.dbm) && Taken(k.fs.ibm, i)
    ensures InodesFreed(ibm0, k.fs.ibm, freed) && BlocksFreed(seen, k.fs.data, dbm0, k.fs.dbm, freed)
  {
  }

  lemma FreedIsGivenBack(k: Kernel, seen: InodeTable, ibm0: InodeBitmap, dbm0: DataBitmap, freed: set<nat>)
    requires k.Valid() && Held(Inos(k.fs.ibm, k.fs.itab), k.fs.data, k.fs.dbm)
    requires InodesFreed(ibm0, k.fs.ibm, freed) && BlocksFreed(seen, k.fs.data, dbm0, k.fs.dbm, freed)
    ensures GaveBack(k, seen, ibm0, dbm0, freed)
  {
  }

  /** Gives back everything below a directory; a regular file has nothing below it (computer/kernel.go:307-320). */
  method FreeChildren(k: Kernel, inode: Inode, inum: u32, ghost t: Tree, ghost seen: InodeTable)
    returns (r: FreeInodeResult)
    requires t.inum == inum && TreeAt(k.fs.itab, k.fs.data, t) && Distinct(t)
    requires Freeable(k, seen, Inums(t)) && inum in k.inodeCache && k.inodeCache[inum] == inode
    modifies k`inodeCache, set i | i in k.inodeCache && i as nat in InumsOf(t.kids) :: k.inodeCache[i]
    modifies k.fs`ibm, k.fs`dbm, k.fs`data, k.fs.disk.buf
    ensures r == Freed && k.fs.data == old(k.fs.data)
    ensures GaveBack(k, seen, old(k.fs.ibm), old(k.fs.dbm), InumsOf(t.kids))
    ensures k.inodeCache.Keys == set i | i in old(k.inodeCache) && i as nat !in InumsOf(t.kids)
    ensures forall i :: i in k.inodeCache ==> k.inodeCache[i] == old(k.inodeCache)[i]
    ensures inode.Val() == old(inode.Val())
    decreases t.kids, 1
  {
    hide Shows, Held, Older, Decode, BlocksFreed, InodesFreed, AllDistinct, Slots, Entries, Kids, WF, DirOk, GaveBack,
      Sees, AllOlder;
    r := Freed;
    GaveBackNothing(k, seen, Inums(t));
    BelowIsFreeable(k, seen, t);
    if inode.fType == S_IFDIR {
      TakenIsWF(k.fs.ibm, k.fs.itab, k.fs.data, k.fs.dbm, inum);
      var entries, _ := ReadEntries(k.fs, inum);
      r := FreeEntries(k, entries, t.kids, seen);
    } else {
      assert t.kids == [];
      assert InumsOf(t.kids) == {};
    }
  }

  /** What is below can be given back, and the kernel knows whether there is anything. */
  lemma BelowIsFreeable(k: Kernel, seen: InodeTable, t: Tree)
    requires Freeable(k, seen, Inums(t)) && t.inum < INODES
    ensures Freeable(k, seen, InumsOf(t.kids)) && IsDir(k.Current(t.inum)) == IsDir(Decode(k.fs.itab[t.inum]))
  {
    hide Shows, Held, Decode, Older, InumsOf;
    assert t.inum as nat in Inums(t);
    assert Older(Decode(seen[t.inum]), Decode(k.fs.itab[t.inum]));
    OlderFits(Decode(seen[t.inum]), Decode(k.fs.itab[t.inum]));
  }

  lemma TakenIsWF(ibm: InodeBitmap, itab: InodeTable, data: Blocks, dbm: DataBitmap, i: nat)
    requires Held(Inos(ibm, itab), data, dbm) && Taken(ibm, i)
    ensures WF(Decode(itab[i]), data)
  {
    assert i in Inos(ibm, itab);
  }
}

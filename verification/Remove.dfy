/** Unlinking a path and giving back everything below it (computer/kernel.go:679-711). */
module Remove {
  import opened Bytes
  import opened Bitmap
  import opened Layout
  import opened Inodes
  import opened BlockMap
  import opened Allocator
  import opened Volume
  import opened Files
  import opened Dir
  import opened Paths
  import opened TreeFree
  import opened Keeps
  import opened Syscalls

  /** Slot q of directory p is the only entry outside S that leads into S. */
  ghost predicate OnlyReference(ibm: InodeBitmap, itab: InodeTable, data: Blocks, s: set<nat>, p: nat, q: nat)
  {
    forall j: nat | Taken(ibm, j) && j !in s && IsDir(Decode(itab[j])) && NBlocks(Decode(itab[j]).size) <= MAXBLOCKS ::
      forall r :: 0 <= r < |Slots(Decode(itab[j]), data)| && !IsFree(Slots(Decode(itab[j]), data)[r]) ==>
        (Get32(Slots(Decode(itab[j]), data)[r], 0) as nat in s ==> j == p && r == q)
  }

  /** t is the subtree of inode n, and n is entered in slot q of directory p and nowhere else; the kernel sees the
      inodes of the subtree as `seen` has them, as they are or as they were before. */
  ghost predicate Removable(k: Kernel, seen: InodeTable, t: Tree, p: u32, n: u32, q: nat)
    reads k, k.fs, k.inodeCache.Values
  {
    && t.inum == n && p < INODES
    && TreeAt(k.fs.itab, k.fs.data, t) && Distinct(t)
    && AllTaken(k.fs.ibm, Inums(t)) && Sees(k, seen, Inums(t)) && AllOlder(seen, k.fs.itab, Inums(t))
    && p as nat !in Inums(t) && (forall i: nat :: i <= ROOTINUM ==> i !in Inums(t))
    && OnlyReference(k.fs.ibm, k.fs.itab, k.fs.data, Inums(t), p, q)
  }

  lemma {:induction false} KidsBelow(t: Tree, m: nat)
    requires m < |t.kids|
    ensures Inums(t.kids[m]) <= Inums(t)
  {
    SplitInums(t.kids, m);
  }

  /** A subtree that does not contain p is not affected by a change to p's blocks. */
  lemma {:induction false} TreeAtKept(ibm: InodeBitmap, itab: InodeTable, dbm: DataBitmap, data: Blocks, data': Blocks,
                                      p: nat, t: Tree)
    requires FsOk(ibm, itab, dbm, data) && OthersKept(ibm, itab, data, data', p)
    requires AllTaken(ibm, Inums(t)) && p !in Inums(t) && TreeAt(itab, data, t)
    ensures TreeAt(itab, data', t)
    decreases t
  {
    hide FsOk, Decode, Slots, Entries, DirOk, NBlocks, Kids, OthersKept, Untouched;
    assert t.inum as nat in Inums(t);
    var ino := Decode(itab[t.inum]);
    FsOkInode(ibm, itab, dbm, data, t.inum);
    OthersKeptAt(ibm, itab, data, data', p, t.inum);
    UntouchedSlots(ino, data, data');
    forall m | 0 <= m < |t.kids| ensures TreeAt(itab, data, t.kids[m]) ==> TreeAt(itab, data', t.kids[m]) {
      if TreeAt(itab, data, t.kids[m]) {
        KidsBelow(t, m);
        TreeAtKept(ibm, itab, dbm, data, data', p, t.kids[m]);
      }
    }
  }

  lemma OthersKeptAt(ibm: InodeBitmap, itab: InodeTable, data: Blocks, data': Blocks, p: nat, j: nat)
    requires OthersKept(ibm, itab, data, data', p) && Taken(ibm, j) && j != p
    ensures Untouched(Decode(itab[j]), data, data')
  {
  }

  /** Slot q of directory p has been cleared. */
  ghost predicate SlotCleared(ino: Ino, data: Blocks, data': Blocks, q: nat)
  {
    && WF(ino, data) && SameMap(ino, data, data') && q < |Slots(ino, data)|
    && Slots(ino, data') == Slots(ino, data)[q := FREESLOT]
  }

  /** Clearing a slot of an allocated directory keeps the volume in order. */
  lemma ClearKeepsFsOk(ibm: InodeBitmap, itab: InodeTable, dbm: DataBitmap, data: Blocks, p: nat, data': Blocks, q: nat)
    requires FsOk(ibm, itab, dbm, data) && Taken(ibm, p) && IsDir(Decode(itab[p]))
    requires SlotCleared(Decode(itab[p]), data, data', q)
    ensures FsOk(ibm, itab, dbm, data') && OthersKept(ibm, itab, data, data', p)
  {
    hide Decode, Owned, Sound, Rewritten, OthersKept;
    var ino := Decode(itab[p]);
    FsOkInode(ibm, itab, dbm, data, p);
    NoReallocation(ino, data, dbm);
    RewrittenThenSameMap(ino, data, dbm, ino.size, ino, data, dbm, data');
    FreeSlotIsFree();
    assert RecordSet(itab, itab, p, ino);
    RewriteKeepsFsOk(ibm, itab, dbm, data, p, itab, ino, dbm, data');
  }

  /** After the slot has been cleared nothing outside the subtree refers into it. */
  lemma ClearedLeavesNoReference(ibm: InodeBitmap, itab: InodeTable, dbm: DataBitmap, data: Blocks, s: set<nat>, p: nat,
                                 data': Blocks, q: nat)
    requires FsOk(ibm, itab, dbm, data) && Taken(ibm, p) && SlotCleared(Decode(itab[p]), data, data', q)
    requires OthersKept(ibm, itab, data, data', p) && OnlyReference(ibm, itab, data, s, p, q)
    ensures NoReferences(ibm, itab, data', s)
  {
    hide FsOk, Decode, Slots, WF, SameMap, Untouched;
    FreeSlotIsFree();
    forall j: nat | Taken(ibm, j) && j !in s && IsDir(Decode(itab[j])) && NBlocks(Decode(itab[j]).size) <= MAXBLOCKS
      ensures forall r :: 0 <= r < |Slots(Decode(itab[j]), data')| && !IsFree(Slots(Decode(itab[j]), data')[r]) ==>
        Get32(Slots(Decode(itab[j]), data')[r], 0) as nat !in s
    {
      if j != p {
        FsOkInode(ibm, itab, dbm, data, j);
        UntouchedSlots(Decode(itab[j]), data, data');
      }
    }
  }

  /** A path that resolves leads through the first entry with its last component in an executable directory. */
  lemma ResolvedSlot(itab: InodeTable, data: Blocks, euid: Name, comps: seq<Name>) returns (p: u32, q: nat)
    requires comps != [] && Resolve(itab, data, euid, ROOTINUM, comps).Found?
    ensures Resolve(itab, data, euid, ROOTINUM, DirOf(comps)) == Found(p) && p < INODES
    ensures IsDir(Decode(itab[p])) && CanExecute(euid, Decode(itab[p])) && NBlocks(Decode(itab[p]).size) <= MAXBLOCKS
    ensures var slots := Slots(Decode(itab[p]), data);
      FirstNamed(slots, BaseOf(comps), q) && q < |slots| &&
        Resolve(itab, data, euid, ROOTINUM, comps) == Found(Get32(slots[q], 0))
  {
    hide Slots, Decode, Entries, OwnerString;
    ResolveLast(itab, data, euid, ROOTINUM, comps);
    p := Resolve(itab, data, euid, ROOTINUM, DirOf(comps)).inum;
    assert Walkable(itab, p);
    var slots := Slots(Decode(itab[p]), data);
    q := FirstNamedExists(slots, BaseOf(comps));
    LookupIsFirstNamed(slots, BaseOf(comps), q);
  }

  /** What a successful removal does to the volume, with the blocks that `seen` lists for the inodes of the subtree. */
  ghost predicate UnlinkedAs(seen: InodeTable, ibm: InodeBitmap, itab: InodeTable, dbm: DataBitmap, data: Blocks,
                             p: u32, name: Name, n: u32, t: Tree, q: nat, ibm': InodeBitmap, dbm': DataBitmap,
                             data': Blocks)
  {
    && p < INODES && t.inum == n
    && SlotCleared(Decode(itab[p]), data, data', q)
    && FirstNamed(Slots(Decode(itab[p]), data), name, q) && Get32(Slots(Decode(itab[p]), data)[q], 0) == n
    && OthersKept(ibm, itab, data, data', p)
    && InodesFreed(ibm, ibm', Inums(t))
    && BlocksFreed(seen, data, dbm, dbm', Inums(t))
  }

  /** ... when these are all the blocks the inodes have. */
  ghost predicate Unlinked(ibm: InodeBitmap, itab: InodeTable, dbm: DataBitmap, data: Blocks, p: u32, name: Name,
                           n: u32, t: Tree, q: nat, ibm': InodeBitmap, dbm': DataBitmap, data': Blocks)
  {
    UnlinkedAs(itab, ibm, itab, dbm, data, p, name, n, t, q, ibm', dbm', data')
  }

  /** Blocks of an inode that has not been written are where an earlier state of it lists them. */
  lemma OlderUntouched(c: Ino, v: Ino, data: Blocks, data': Blocks)
    requires Older(c, v) && Untouched(v, data, data')
    ensures Own(c, data') == Own(c, data)
  {
    hide SlotBlock, Older;
    OlderSlots(c, v, data);
    OlderSlots(c, v, data');
    assert forall s: nat :: LiveSlot(c, s) ==> SlotBlock(c, data', s) == SlotBlock(c, data, s);
  }

  lemma SameOwners(ibm: InodeBitmap, itab: InodeTable, seen: InodeTable, data: Blocks, data': Blocks, p: nat,
                   s: set<nat>, dbm: DataBitmap, dbm': DataBitmap)
    requires OthersKept(ibm, itab, data, data', p) && AllTaken(ibm, s) && p !in s && AllOlder(seen, itab, s)
    ensures BlocksFreed(seen, data', dbm, dbm', s) <==> BlocksFreed(seen, data, dbm, dbm', s)
  {
    hide Decode, Own, Older;
    forall b: nat ensures OwnedByAny(seen, data', s, b) == OwnedByAny(seen, data, s, b) {
      forall i | i in s && i < INODES ensures Own(Decode(seen[i]), data') == Own(Decode(seen[i]), data) {
        var j: u32 := i;
        assert Older(Decode(seen[j]), Decode(itab[j]));
        OthersKeptAt(ibm, itab, data, data', p, i);
        OlderUntouched(Decode(seen[i]), Decode(itab[i]), data, data');
      }
    }
  }

  /** Before freeing: the slot is cleared and the subtree can be given back. */
  lemma ReadyToFree(k: Kernel, seen: InodeTable, ibm: InodeBitmap, itab: InodeTable, dbm: DataBitmap, data: Blocks,
                    p: nat, q: nat, t: Tree)
    requires k.Valid() && k.fs.ibm == ibm && k.fs.itab == itab && k.fs.dbm == dbm
    requires FsOk(ibm, itab, dbm, data) && Taken(ibm, p) && IsDir(Decode(itab[p]))
    requires SlotCleared(Decode(itab[p]), data, k.fs.data, q)
    requires AllTaken(ibm, Inums(t)) && p !in Inums(t) && TreeAt(itab, data, t)
    requires Sees(k, seen, Inums(t)) && AllOlder(seen, itab, Inums(t))
    ensures FsOk(ibm, itab, dbm, k.fs.data) && OthersKept(ibm, itab, data, k.fs.data, p)
    ensures TreeAt(itab, k.fs.data, t) && Freeable(k, seen, Inums(t))
  {
    hide Decode, SlotCleared, OthersKept, TreeAt, Inums, Owned, Held, DirSound, Sees, AllOlder;
    ClearKeepsFsOk(ibm, itab, dbm, data, p, k.fs.data, q);
    TreeAtKept(ibm, itab, dbm, data, k.fs.data, p, t);
    OwnedIsHeld(Inos(ibm, itab), k.fs.data, dbm);
  }

  // ---------- blocks that nobody owns ----------

  /** Marked blocks that no allocated inode owns. */
  ghost function Lost(ibm: InodeBitmap, itab: InodeTable, dbm: DataBitmap, data: Blocks): set<nat>
  {
    set b: nat | b < BLOCKS && Taken(dbm, b) && !OwnedByTaken(ibm, itab, data, b)
  }

  ghost predicate OwnedByTaken(ibm: InodeBitmap, itab: InodeTable, data: Blocks, b: nat)
  {
    exists i :: i in Inos(ibm, itab) && b in Own(Inos(ibm, itab)[i], data)
  }

  /** A volume in order is one that may be in order but for lost blocks, and has none. */
  lemma FsOkIffNothingLost(ibm: InodeBitmap, itab: InodeTable, dbm: DataBitmap, data: Blocks)
    ensures FsOk(ibm, itab, dbm, data) <==> FsHeld(ibm, itab, dbm, data) && Lost(ibm, itab, dbm, data) == {}
  {
    hide Decode, Own, WF, DirSound, Bit, Owned, Held;
    var inos := Inos(ibm, itab);
    OwnedIsHeld(inos, data, dbm);
    if Lost(ibm, itab, dbm, data) == {} {
      forall b: nat | b < BLOCKS && Taken(dbm, b) ensures exists i :: i in inos && b in Own(inos[i], data) {
        assert b !in Lost(ibm, itab, dbm, data);
      }
    }
    if FsOk(ibm, itab, dbm, data) {
      forall b: nat | b < BLOCKS && Taken(dbm, b) ensures OwnedByTaken(ibm, itab, data, b) {
      }
    }
  }

  /** Blocks of the inodes of S that `seen` does not list. */
  ghost function Unseen(itab: InodeTable, seen: InodeTable, data: Blocks, s: set<nat>): set<nat>
  {
    set b: nat | b < BLOCKS && OwnedByAny(itab, data, s, b) && !OwnedByAny(seen, data, s, b)
  }

  /** After S has been given back as `seen` has it, the lost blocks are those it did not list. */
  lemma LostIsUnseen(ibm: InodeBitmap, itab: InodeTable, seen: InodeTable, dbm: DataBitmap, data: Blocks, s: set<nat>,
                     ibm': InodeBitmap, dbm': DataBitmap)
    requires FsOk(ibm, itab, dbm, data) && AllTaken(ibm, s) && AllOlder(seen, itab, s)
    requires InodesFreed(ibm, ibm', s) && BlocksFreed(seen, data, dbm, dbm', s)
    ensures Lost(ibm', itab, dbm', data) == Unseen(itab, seen, data, s)
  {
    hide Decode, Own, WF, DirSound, Bit, Older, Held;
    forall b: nat | b < BLOCKS ensures b in Lost(ibm', itab, dbm', data) <==> b in Unseen(itab, seen, data, s) {
      LostAt(ibm, itab, seen, dbm, data, s, ibm', dbm', b);
    }
  }

  lemma LostAt(ibm: InodeBitmap, itab: InodeTable, seen: InodeTable, dbm: DataBitmap, data: Blocks, s: set<nat>,
               ibm': InodeBitmap, dbm': DataBitmap, b: nat)
    requires FsOk(ibm, itab, dbm, data) && AllTaken(ibm, s) && b < BLOCKS
    requires InodesFreed(ibm, ibm', s) && BlocksFreed(seen, data, dbm, dbm', s)
    ensures Taken(dbm', b) && !OwnedByTaken(ibm', itab, data, b) <==>
      OwnedByAny(itab, data, s, b) && !OwnedByAny(seen, data, s, b)
  {
    hide Decode, Own, WF, DirSound, Bit;
    if OwnedByAny(itab, data, s, b) {
      OwnedInside(ibm, itab, dbm, data, s, ibm', b);
    } else if Taken(dbm', b) {
      OwnedOutside(ibm, itab, dbm, data, s, ibm', b);
    }
  }

  lemma OwnedInside(ibm: InodeBitmap, itab: InodeTable, dbm: DataBitmap, data: Blocks, s: set<nat>, ibm': InodeBitmap,
                    b: nat)
    requires FsOk(ibm, itab, dbm, data) && AllTaken(ibm, s) && InodesFreed(ibm, ibm', s) && OwnedByAny(itab, data, s, b)
    ensures Taken(dbm, b) && !OwnedByTaken(ibm', itab, data, b)
  {
    hide Decode, Own, WF, DirSound, Bit;
    var inos, inos' := Inos(ibm, itab), Inos(ibm', itab);
    assert forall j :: j in inos' ==> j in inos && inos'[j] == inos[j] && j !in s;
    var i :| i in s && i < INODES && b in Own(Decode(itab[i]), data);
    assert i in inos && b in Own(inos[i], data);
  }

  lemma OwnedOutside(ibm: InodeBitmap, itab: InodeTable, dbm: DataBitmap, data: Blocks, s: set<nat>, ibm': InodeBitmap,
                     b: nat)
    requires FsOk(ibm, itab, dbm, data) && AllTaken(ibm, s) && InodesFreed(ibm, ibm', s)
    requires b < BLOCKS && Taken(dbm, b) && !OwnedByAny(itab, data, s, b)
    ensures OwnedByTaken(ibm', itab, data, b)
  {
    hide Decode, Own, WF, DirSound, Bit;
    var inos, inos' := Inos(ibm, itab), Inos(ibm', itab);
    var j :| j in inos && b in Own(inos[j], data);
    assert inos[j] == Decode(itab[j]) && j !in s && j in inos' && inos'[j] == inos[j];
  }

  /** Nothing is unseen if and only if every block count is up to date. */
  ghost predicate CountsAgree(itab: InodeTable, seen: InodeTable, s: set<nat>)
  {
    forall i: u32 :: i as nat in s && i < INODES ==> NBlocks(Decode(seen[i]).size) == NBlocks(Decode(itab[i]).size)
  }

  lemma NothingUnseenIff(ibm: InodeBitmap, itab: InodeTable, seen: InodeTable, dbm: DataBitmap, data: Blocks,
                         s: set<nat>)
    requires FsOk(ibm, itab, dbm, data) && AllTaken(ibm, s) && AllOlder(seen, itab, s)
    ensures Unseen(itab, seen, data, s) == {} <==> CountsAgree(itab, seen, s)
  {
    hide Decode, Own, WF, DirSound, Bit, Older, NBlocks;
    if CountsAgree(itab, seen, s) {
      forall b: nat | b < BLOCKS && OwnedByAny(itab, data, s, b) ensures OwnedByAny(seen, data, s, b) {
        var i :| i in s && i < INODES && b in Own(Decode(itab[i]), data);
        var j: u32 := i;
        assert Older(Decode(seen[j]), Decode(itab[j]));
        FsOkInode(ibm, itab, dbm, data, i);
        OlderOwnsSame(Decode(seen[j]), Decode(itab[j]), data);
      }
    } else {
      var i: u32 :| i as nat in s && i < INODES && NBlocks(Decode(seen[i]).size) != NBlocks(Decode(itab[i]).size);
      assert Older(Decode(seen[i]), Decode(itab[i]));
      FsOkInode(ibm, itab, dbm, data, i);
      var b := OlderOwnsFewer(Decode(seen[i]), Decode(itab[i]), data);
      OnlyOwner(ibm, itab, seen, dbm, data, s, i, b);
      assert b in Unseen(itab, seen, data, s);
    }
  }

  /** A block of inode i that `seen` does not list for i is listed for no other inode of S either. */
  lemma OnlyOwner(ibm: InodeBitmap, itab: InodeTable, seen: InodeTable, dbm: DataBitmap, data: Blocks, s: set<nat>,
                  i: u32, b: nat)
    requires FsOk(ibm, itab, dbm, data) && AllTaken(ibm, s) && AllOlder(seen, itab, s) && i as nat in s && i < INODES
    requires b in Own(Decode(itab[i]), data) && b !in Own(Decode(seen[i]), data)
    ensures b < BLOCKS && OwnedByAny(itab, data, s, b) && !OwnedByAny(seen, data, s, b)
  {
    hide Decode, Own, WF, DirSound, Bit, Older;
    var inos := Inos(ibm, itab);
    assert i as nat in inos && inos[i as nat] == Decode(itab[i]);
    OwnedIsSound(inos, data, dbm, i);
    OwnedInRange(Decode(itab[i]), data, dbm);
    if OwnedByAny(seen, data, s, b) {
      var j :| j in s && j < INODES && b in Own(Decode(seen[j]), data);
      var j': u32 := j;
      assert Older(Decode(seen[j']), Decode(itab[j']));
      assert j in inos && inos[j] == Decode(itab[j]);
      FsOkInode(ibm, itab, dbm, data, j);
      OlderOwnsLess(Decode(seen[j]), Decode(itab[j]), data);
      assert false;
    }
  }

  lemma OlderOwnsSame(c: Ino, v: Ino, data: Blocks)
    requires Older(c, v) && WF(v, data) && NBlocks(c.size) == NBlocks(v.size)
    ensures Own(c, data) == Own(v, data)
  {
    hide SlotBlock, Older, NBlocks;
    OlderSlots(c, v, data);
    assert forall s: nat :: LiveSlot(c, s) <==> LiveSlot(v, s);
  }

  lemma OlderOwnsFewer(c: Ino, v: Ino, data: Blocks) returns (b: nat)
    requires Older(c, v) && WF(v, data) && NBlocks(c.size) != NBlocks(v.size)
    ensures b in Own(v, data) && b !in Own(c, data)
  {
    hide SlotBlock, NBlocks;
    OlderSlots(c, v, data);
    var last := NBlocks(c.size);
    assert LiveSlot(v, last) && !LiveSlot(c, last);
    b := SlotBlock(v, data, last);
    OwnHas(v, data, last);
    assert forall s: nat :: LiveSlot(c, s) ==> SlotBlock(c, data, s) != b;
  }

  /** The blocks that the inodes of S below n need in this table. */
  ghost function NeedBelow(itab: InodeTable, s: set<nat>, n: nat): nat
    requires n <= INODES
  {
    if n == 0 then 0
    else NeedBelow(itab, s, n - 1) + if n - 1 in s then Need(NBlocks(Decode(itab[n - 1]).size)) else 0
  }

  /** The blocks that the inodes of S below n own. */
  ghost function OwnedBelow(itab: InodeTable, data: Blocks, s: set<nat>, n: nat): set<nat>
    requires n <= INODES
  {
    if n == 0 then {}
    else OwnedBelow(itab, data, s, n - 1) + if n - 1 in s then Own(Decode(itab[n - 1]), data) else {}
  }

  lemma {:induction false} OwnedBelowIs(itab: InodeTable, data: Blocks, s: set<nat>, n: nat, b: nat)
    requires n <= INODES
    ensures b in OwnedBelow(itab, data, s, n) <==> exists i :: i in s && i < n && b in Own(Decode(itab[i]), data)
  {
    hide Decode, Own;
    if n > 0 {
      OwnedBelowIs(itab, data, s, n - 1, b);
    }
  }

  /** No block is counted twice. */
  lemma {:induction false} OwnedBelowCount(ibm: InodeBitmap, itab: InodeTable, seen: InodeTable, dbm: DataBitmap,
                                           data: Blocks, s: set<nat>, n: nat)
    requires FsOk(ibm, itab, dbm, data) && AllTaken(ibm, s) && AllOlder(seen, itab, s) && n <= INODES
    ensures |OwnedBelow(seen, data, s, n)| == NeedBelow(seen, s, n)
    ensures forall b :: b in OwnedBelow(seen, data, s, n) ==> b < BLOCKS
    ensures OwnedBelow(seen, data, s, n) <= OwnedBelow(itab, data, s, n)
  {
    hide Decode, Own, WF, DirSound, Bit, Older, NBlocks, Need;
    if n > 0 {
      OwnedBelowCount(ibm, itab, seen, dbm, data, s, n - 1);
      if n - 1 in s {
        var i: u32 := n - 1;
        assert Older(Decode(seen[i]), Decode(itab[i]));
        FsOkInode(ibm, itab, dbm, data, i);
        OlderOwnsLess(Decode(seen[i]), Decode(itab[i]), data);
        OwnCount(Decode(seen[i]), data);
        OwnedInRange(Decode(itab[i]), data, dbm);
        forall b | b in Own(Decode(itab[i]), data) ensures b !in OwnedBelow(itab, data, s, n - 1) {
          OwnedBelowIs(itab, data, s, n - 1, b);
          OwnedOnce(ibm, itab, dbm, data, s, i, b);
        }
        assert OwnedBelow(seen, data, s, n - 1) !! Own(Decode(seen[i]), data);
      }
    }
  }

  lemma OwnedOnce(ibm: InodeBitmap, itab: InodeTable, dbm: DataBitmap, data: Blocks, s: set<nat>, i: nat, b: nat)
    requires FsOk(ibm, itab, dbm, data) && AllTaken(ibm, s) && i in s && i < INODES && b in Own(Decode(itab[i]), data)
    ensures forall j :: j in s && j < INODES && j != i ==> b !in Own(Decode(itab[j]), data)
  {
    hide Decode, Own, WF, DirSound, Bit;
    var inos := Inos(ibm, itab);
    assert forall j :: j in s && j < INODES ==> j in inos && inos[j] == Decode(itab[j]);
  }

  /** How many blocks are lost: what the inodes of S need less what they needed as `seen` has them. */
  lemma UnseenCount(ibm: InodeBitmap, itab: InodeTable, seen: InodeTable, dbm: DataBitmap, data: Blocks, s: set<nat>)
    requires FsOk(ibm, itab, dbm, data) && AllTaken(ibm, s) && AllOlder(seen, itab, s)
    ensures |Unseen(itab, seen, data, s)| == NeedBelow(itab, s, INODES) - NeedBelow(seen, s, INODES)
  {
    hide Decode, Own, WF, DirSound, Bit, Older, NBlocks, Need, OwnedBelow, NeedBelow, FsOk;
    var all, known := OwnedBelow(itab, data, s, INODES), OwnedBelow(seen, data, s, INODES);
    forall i: u32 | i as nat in s && i < INODES ensures Older(Decode(itab[i]), Decode(itab[i])) {
      FsOkInode(ibm, itab, dbm, data, i);
      OlderSelf(Decode(itab[i]));
    }
    OwnedBelowCount(ibm, itab, seen, dbm, data, s, INODES);
    OwnedBelowCount(ibm, itab, itab, dbm, data, s, INODES);
    forall b: nat ensures b in Unseen(itab, seen, data, s) <==> b in all - known {
      OwnedBelowIs(itab, data, s, INODES, b);
      OwnedBelowIs(seen, data, s, INODES, b);
    }
    assert Unseen(itab, seen, data, s) == all - known;
    assert all == known + (all - known);
  }

  /** What was unseen before the slot was cleared still is. */
  lemma SameUnseen(ibm: InodeBitmap, itab: InodeTable, seen: InodeTable, data: Blocks, data': Blocks, p: nat,
                   s: set<nat>)
    requires OthersKept(ibm, itab, data, data', p) && AllTaken(ibm, s) && p !in s && AllOlder(seen, itab, s)
    ensures Unseen(itab, seen, data', s) == Unseen(itab, seen, data, s)
  {
    hide Decode, Own, Older;
    forall b: nat
      ensures OwnedByAny(seen, data', s, b) == OwnedByAny(seen, data, s, b)
      ensures OwnedByAny(itab, data', s, b) == OwnedByAny(itab, data, s, b)
    {
      forall i | i in s && i < INODES
        ensures Own(Decode(seen[i]), data') == Own(Decode(seen[i]), data)
        ensures Own(Decode(itab[i]), data') == Own(Decode(itab[i]), data)
      {
        var j: u32 := i;
        assert Older(Decode(seen[j]), Decode(itab[j]));
        OthersKeptAt(ibm, itab, data, data', p, i);
        OlderUntouched(Decode(seen[i]), Decode(itab[i]), data, data');
      }
    }
  }

  /** Dropping inodes with the blocks that earlier states of them list keeps what the others own. */
  lemma FreedSetKeepsHeld(ibm: InodeBitmap, itab: InodeTable, seen: InodeTable, dbm: DataBitmap, data: Blocks,
                          s: set<nat>, ibm': InodeBitmap, dbm': DataBitmap)
    requires Owned(Inos(ibm, itab), data, dbm) && InodesFreed(ibm, ibm', s) && AllTaken(ibm, s)
    requires AllOlder(seen, itab, s)
    requires BlocksFreed(seen, data, dbm, dbm', s)
    ensures Held(Inos(ibm', itab), data, dbm')
  {
    hide Decode, WF, Own, Bit, Older;
    var inos, inos' := Inos(ibm, itab), Inos(ibm', itab);
    forall b: nat | OwnedByAny(seen, data, s, b) ensures b < BLOCKS {
      var i :| i in s && i < INODES && b in Own(Decode(seen[i]), data);
      OlderOwnedBy(ibm, itab, seen, dbm, data, s, i);
      assert i in inos;
      OwnedIsSound(inos, data, dbm, i);
      OwnedInRange(inos[i], data, dbm);
    }
    forall i, b: nat | i in inos' && b in Own(inos'[i], data) ensures Taken(dbm', b) {
      NotOwnedByOthers(ibm, itab, seen, dbm, data, s, i, b);
    }
  }

  lemma OlderOwnedBy(ibm: InodeBitmap, itab: InodeTable, seen: InodeTable, dbm: DataBitmap, data: Blocks, s: set<nat>,
                     i: nat)
    requires Owned(Inos(ibm, itab), data, dbm) && AllTaken(ibm, s) && AllOlder(seen, itab, s) && i in s && i < INODES
    ensures Own(Decode(seen[i]), data) <= Own(Decode(itab[i]), data) && i in Inos(ibm, itab)
    ensures Inos(ibm, itab)[i] == Decode(itab[i])
  {
    hide Decode, Own, Bit, Older;
    var j: u32 := i;
    assert Older(Decode(seen[j]), Decode(itab[j])) && i in Inos(ibm, itab);
    OlderOwnsLess(Decode(seen[j]), Decode(itab[j]), data);
  }

  lemma NotOwnedByOthers(ibm: InodeBitmap, itab: InodeTable, seen: InodeTable, dbm: DataBitmap, data: Blocks,
                         s: set<nat>, i: nat, b: nat)
    requires Owned(Inos(ibm, itab), data, dbm) && AllTaken(ibm, s) && i in Inos(ibm, itab) && i !in s
    requires AllOlder(seen, itab, s)
    requires b in Own(Inos(ibm, itab)[i], data)
    ensures Taken(dbm, b) && !OwnedByAny(seen, data, s, b)
  {
    hide Decode, WF, Own, Bit, Older, AllOlder;
    var inos := Inos(ibm, itab);
    forall j | j in s && j < INODES ensures b !in Own(Decode(seen[j]), data) {
      OlderOwnedBy(ibm, itab, seen, dbm, data, s, j);
    }
  }

  /** Removing a subtree that is referred to once leaves the volume in order but for the blocks that were not seen:
      entirely in order exactly when every block count was up to date. */
  lemma RemovalKeepsFsOkIff(seen: InodeTable, ibm: InodeBitmap, itab: InodeTable, dbm: DataBitmap, data: Blocks, p: u32,
                            name: Name, t: Tree, q: nat, ibm': InodeBitmap, dbm': DataBitmap, data': Blocks)
    requires FsOk(ibm, itab, dbm, data) && Taken(ibm, p) && IsDir(Decode(itab[p]))
    requires UnlinkedAs(seen, ibm, itab, dbm, data, p, name, t.inum, t, q, ibm', dbm', data')
    requires AllTaken(ibm, Inums(t)) && p as nat !in Inums(t)
    requires forall i: nat :: i <= ROOTINUM as nat ==> i !in Inums(t)
    requires OnlyReference(ibm, itab, data, Inums(t), p, q) && AllOlder(seen, itab, Inums(t))
    ensures FsHeld(ibm', itab, dbm', data') && Lost(ibm', itab, dbm', data') == Unseen(itab, seen, data, Inums(t))
    ensures FsOk(ibm', itab, dbm', data') <==> CountsAgree(itab, seen, Inums(t))
  {
    hide Decode, Slots, FirstNamed, SlotCleared, InodesFreed, BlocksFreed, Inums, DirSound, Own, WF, OthersKept,
      OnlyReference, Owned, NoReferences, Held, FsHeld, Lost, Unseen, CountsAgree, AllOlder;
    ClearKeepsFsOk(ibm, itab, dbm, data, p, data', q);
    ClearedLeavesNoReference(ibm, itab, dbm, data, Inums(t), p, data', q);
    SameOwners(ibm, itab, seen, data, data', p, Inums(t), dbm, dbm');
    FreedSetKeepsHeld(ibm, itab, seen, dbm, data', Inums(t), ibm', dbm');
    DropKeepsHeld(ibm, itab, dbm, data', Inums(t), ibm', dbm');
    LostIsUnseen(ibm, itab, seen, dbm, data', Inums(t), ibm', dbm');
    SameUnseen(ibm, itab, seen, data, data', p, Inums(t));
    NothingUnseenIff(ibm, itab, seen, dbm, data', Inums(t));
    FsOkIffNothingLost(ibm', itab, dbm', data');
  }

  lemma GaveBackParts(k: Kernel, seen: InodeTable, ibm: InodeBitmap, dbm: DataBitmap, s: set<nat>)
    requires GaveBack(k, seen, ibm, dbm, s)
    ensures k.Valid() && InodesFreed(ibm, k.fs.ibm, s) && BlocksFreed(seen, k.fs.data, dbm, k.fs.dbm, s)
  {
  }

  /** removeDentry, then freeInodeTree (computer/kernel.go:706-710). */
  method UnlinkAndFree(k: Kernel, p: u32, name: Name, n: u32, ghost seen: InodeTable, ghost t: Tree, ghost q: nat)
    requires k.Valid() && FsOk(k.fs.ibm, k.fs.itab, k.fs.dbm, k.fs.data) && Taken(k.fs.ibm, p)
    requires IsDir(Decode(k.fs.itab[p]))
    requires Removable(k, seen, t, p, n, q) && NBlocks(Decode(k.fs.itab[p]).size) <= MAXBLOCKS
    requires var slots := Slots(Decode(k.fs.itab[p]), k.fs.data);
      FirstNamed(slots, name, q) && q < |slots| && Get32(slots[q], 0) == n
    modifies k`inodeCache, set i | i in k.inodeCache && i as nat in Inums(t) :: k.inodeCache[i]
    modifies k.fs`ibm, k.fs`dbm, k.fs`data, k.fs.disk.buf
    ensures k.Valid() && FsHeld(k.fs.ibm, k.fs.itab, k.fs.dbm, k.fs.data)
    ensures Lost(k.fs.ibm, k.fs.itab, k.fs.dbm, k.fs.data) == Unseen(k.fs.itab, seen, old(k.fs.data), Inums(t))
    ensures FsOk(k.fs.ibm, k.fs.itab, k.fs.dbm, k.fs.data) <==> CountsAgree(k.fs.itab, seen, Inums(t))
    ensures UnlinkedAs(seen, old(k.fs.ibm), k.fs.itab, old(k.fs.dbm), old(k.fs.data), p, name, n, t, q, k.fs.ibm,
                       k.fs.dbm, k.fs.data)
    ensures k.inodeCache.Keys == set i | i in old(k.inodeCache) && i as nat !in Inums(t)
    ensures forall i :: i in k.inodeCache ==> k.inodeCache[i] == old(k.inodeCache)[i]
  {
    hide FsOk, FsHeld, Shows, Decode, TreeAt, Inums, Distinct, Slots, WF, SameMap, DirOk, DirSound, GaveBack,
      Freeable, OthersKept, BlocksFreed, NBlocks, Sound, OnlyReference, InodesFreed, Named, Owned, Held, Lost, Unseen,
      CountsAgree, AllOlder;
    ghost var ibm, itab, dbm, data := k.fs.ibm, k.fs.itab, k.fs.dbm, k.fs.data;
    FsOkInode(ibm, itab, dbm, data, p);
    var found, _, q' := RemoveDentry(k.fs, p, name);
    FirstNamedUnique(Slots(Decode(itab[p]), data), name, q, q');
    ghost var data1 := k.fs.data;
    ReadyToFree(k, seen, ibm, itab, dbm, data, p, q, t);
    var r := FreeInodeTree(k, n, t, seen);
    GaveBackParts(k, seen, ibm, dbm, Inums(t));
    SameOwners(ibm, itab, seen, data, data1, p, Inums(t), dbm, k.fs.dbm);
    RemovalKeepsFsOkIff(seen, ibm, itab, dbm, data, p, name, t, q, k.fs.ibm, k.fs.dbm, k.fs.data);
  }

  lemma FirstNamedUnique(slots: seq<Slot>, name: Name, q: nat, q': nat)
    requires FirstNamed(slots, name, q) && FirstNamed(slots, name, q')
    ensures q == q'
  {
  }

  datatype RemoveResult = Removed | RemoveError(error: Errno)

  /** The directory entry that the path goes through last, if it resolves. */
  ghost predicate LastStep(itab: InodeTable, data: Blocks, euid: Name, comps: seq<Name>, p: u32, n: u32, q: nat)
  {
    && comps != [] && p < INODES && NBlocks(Decode(itab[p]).size) <= MAXBLOCKS
    && Resolve(itab, data, euid, ROOTINUM, comps) == Found(n)
    && Resolve(itab, data, euid, ROOTINUM, DirOf(comps)) == Found(p)
    && FirstNamed(Slots(Decode(itab[p]), data), BaseOf(comps), q)
  }

  /** The kernel stays ready when the cached inodes of a freed subtree go with it. */
  lemma ReadyAfterRemoval(k: Kernel, itab: InodeTable, ibm: InodeBitmap)
    requires k.Valid() && k.fs.itab == itab && (forall i: nat :: Taken(k.fs.ibm, i) ==> Taken(ibm, i))
    requires forall i: u32 :: i in k.inodeCache && Taken(ibm, i) ==>
      SameMeta(k.inodeCache[i].Val(), Decode(itab[i])) &&
        (!IsDir(Decode(itab[i])) ==> k.inodeCache[i].Val() == Decode(itab[i]))
    ensures Ready(k) <==> FsOk(k.fs.ibm, k.fs.itab, k.fs.dbm, k.fs.data)
  {
    hide FsOk, Shows, Decode;
  }

  lemma UnlinkedShrinks(seen: InodeTable, ibm: InodeBitmap, itab: InodeTable, dbm: DataBitmap, data: Blocks, p: u32,
                        name: Name, n: u32, t: Tree, q: nat, ibm': InodeBitmap, dbm': DataBitmap, data': Blocks)
    requires UnlinkedAs(seen, ibm, itab, dbm, data, p, name, n, t, q, ibm', dbm', data')
    ensures forall i: nat :: Taken(ibm', i) ==> Taken(ibm, i)
  {
  }

  // ---------- what removal means for the path ----------

  /** With unique names the name is gone from the directory. */
  lemma UniqueNameIsGone(slots: seq<Slot>, name: Name, q: nat)
    requires q < |slots| && FirstNamed(slots, name, q)
    requires forall r :: 0 <= r < |slots| && r != q ==> !Named(slots[r], name)
    ensures Lookup(Entries(slots[q := FREESLOT]), name) == None
  {
    var slots' := slots[q := FREESLOT];
    FreeSlotIsFree();
    assert FirstNamed(slots', name, |slots'|);
    LookupIsFirstNamed(slots', name, |slots'|);
  }

  /** The name is gone after removal iff the directory held it once. */
  lemma NameGoneIffUnique(slots: seq<Slot>, name: Name, q: nat)
    requires q < |slots| && FirstNamed(slots, name, q)
    ensures Lookup(Entries(slots[q := FREESLOT]), name) == None <==>
      forall r :: 0 <= r < |slots| && r != q ==> !Named(slots[r], name)
  {
    var slots' := slots[q := FREESLOT];
    FreeSlotIsFree();
    var k := FirstNamedExists(slots', name);
    LookupIsFirstNamed(slots', name, k);
    if k < |slots'| {
      assert k != q && Named(slots[k], name);
    } else {
      forall r | 0 <= r < |slots| && r != q ensures !Named(slots[r], name) {
        assert !Named(slots'[r], name);
      }
    }
  }

  /** Neither "." nor "..": what normalizePath leaves of a path. */
  predicate CleanPath(comps: seq<Name>)
  {
    forall q :: 0 <= q < |comps| ==> comps[q] != DOT && comps[q] != DOTDOT
  }

  /** Looking up another name does not notice a cleared slot. */
  lemma OtherNameKept(slots: seq<Slot>, name: Name, q: nat, other: Name)
    requires q < |slots| && Named(slots[q], name) && other != name
    ensures Lookup(Entries(slots[q := FREESLOT]), other) == Lookup(Entries(slots), other)
  {
    var slots' := slots[q := FREESLOT];
    FreeSlotIsFree();
    var k := FirstNamedExists(slots, other);
    assert FirstNamed(slots', other, k);
    LookupIsFirstNamed(slots, other, k);
    LookupIsFirstNamed(slots', other, k);
  }

  /** A listed name other than "." and ".." names one of the children. */
  lemma {:induction false} LookupIsKid(es: seq<DirEntry>, name: Name) returns (m: nat)
    requires name != DOT && name != DOTDOT && Lookup(es, name).Some?
    ensures m < |Kids(es)| && Kids(es)[m] == Lookup(es, name).value
  {
    var n := |es| - 1;
    LookupConcat(es[..n], es[n..], name);
    assert es == es[..n] + es[n..];
    if Lookup(es[..n], name).Some? {
      m := LookupIsKid(es[..n], name);
    } else {
      assert es[n..] == [es[n]] && es[n..][1..] == [];
      m := |Kids(es[..n])|;
    }
  }

  /** A clean path from the root of a subtree stays in the subtree. */
  lemma {:induction false} StaysInside(itab: InodeTable, data: Blocks, euid: Name, t: Tree, comps: seq<Name>)
    requires TreeAt(itab, data, t) && CleanPath(comps) && Resolve(itab, data, euid, t.inum, comps).Found?
    ensures Resolve(itab, data, euid, t.inum, comps).inum as nat in Inums(t)
    decreases comps
  {
    hide Decode, Slots, Entries, DirOk, NBlocks, Kids, Lookup, OwnerString;
    if comps != [] {
      var es := Entries(Slots(Decode(itab[t.inum]), data));
      var m := LookupIsKid(es, comps[0]);
      StaysInside(itab, data, euid, t.kids[m], comps[1..]);
      KidsBelow(t, m);
    }
  }

  /** Slot q of directory p, the first one named `name`, has been cleared; every other allocated inode is as before. */
  ghost predicate Erased(ibm: InodeBitmap, itab: InodeTable, data: Blocks, data': Blocks, p: nat, name: Name, q: nat)
  {
    && p < INODES && SlotCleared(Decode(itab[p]), data, data', q) && NBlocks(Decode(itab[p]).size) <= MAXBLOCKS
    && FirstNamed(Slots(Decode(itab[p]), data), name, q)
    && OthersKept(ibm, itab, data, data', p)
  }

  lemma ErasedElsewhere(ibm: InodeBitmap, itab: InodeTable, dbm: DataBitmap, data: Blocks, data': Blocks, p: nat,
                        name: Name, q: nat, j: nat)
    requires FsOk(ibm, itab, dbm, data) && Erased(ibm, itab, data, data', p, name, q) && Taken(ibm, j) && j != p
    ensures NBlocks(Decode(itab[j]).size) <= MAXBLOCKS && Slots(Decode(itab[j]), data') == Slots(Decode(itab[j]), data)
  {
    hide Decode, Slots, SlotCleared, OthersKept;
    FsOkInode(ibm, itab, dbm, data, j);
    OthersKeptAt(ibm, itab, data, data', p, j);
    UntouchedSlots(Decode(itab[j]), data, data');
  }

  /** With the name gone from p, every path that led through p to it ends in ENOENT, whatever its other components. */
  lemma {:induction false} ResolvesNoMore(ibm: InodeBitmap, itab: InodeTable, dbm: DataBitmap, data: Blocks,
                                          data': Blocks, p: u32, name: Name, q: nat, euid: Name, start: u32,
                                          comps: seq<Name>)
    requires FsOk(ibm, itab, dbm, data) && Erased(ibm, itab, data, data', p, name, q) && Taken(ibm, start)
    requires forall r :: 0 <= r < |Slots(Decode(itab[p]), data)| && r != q ==>
      !Named(Slots(Decode(itab[p]), data)[r], name)
    requires Resolve(itab, data, euid, start, comps) == Found(p) && IsDir(Decode(itab[p]))
    requires CanExecute(euid, Decode(itab[p]))
    ensures Resolve(itab, data', euid, start, comps + [name]) == PathResult.Failed(ENOENT)
    decreases comps
  {
    hide FsOk, Decode, Slots, Entries, NBlocks, Lookup, OwnerString, FirstNamed, Named, OthersKept, DirSound, Bit;
    var all := comps + [name];
    if start == p && all[0] == name {
      UniqueNameIsGone(Slots(Decode(itab[p]), data), name, q);
    } else {
      assert comps != [] && all[0] == comps[0] && all[1..] == comps[1..] + [name];
      FsOkInode(ibm, itab, dbm, data, start);
      FoundIsTaken(Decode(itab[start]), data, ibm, comps[0]);
      var next := Lookup(Entries(Slots(Decode(itab[start]), data)), comps[0]).value;
      if start == p {
        ErasedIsNamed(ibm, itab, data, data', p, name, q);
        OtherNameKept(Slots(Decode(itab[p]), data), name, q, comps[0]);
      } else {
        ErasedElsewhere(ibm, itab, dbm, data, data', p, name, q, start);
      }
      ResolvesNoMore(ibm, itab, dbm, data, data', p, name, q, euid, next, comps[1..]);
    }
  }

  lemma ErasedIsNamed(ibm: InodeBitmap, itab: InodeTable, data: Blocks, data': Blocks, p: nat, name: Name, q: nat)
    requires Erased(ibm, itab, data, data', p, name, q)
    ensures q < |Slots(Decode(itab[p]), data)| && Named(Slots(Decode(itab[p]), data)[q], name)
    ensures Slots(Decode(itab[p]), data') == Slots(Decode(itab[p]), data)[q := FREESLOT]
  {
  }

  /** The clean path to p does not go through the entry that was erased, so it still leads to p. */
  lemma {:induction false} ParentStillResolves(ibm: InodeBitmap, itab: InodeTable, dbm: DataBitmap, data: Blocks,
                                               data': Blocks, p: u32, name: Name, q: nat, t: Tree, euid: Name,
                                               start: u32, comps: seq<Name>)
    requires FsOk(ibm, itab, dbm, data) && Erased(ibm, itab, data, data', p, name, q) && Taken(ibm, start)
    requires q < |Slots(Decode(itab[p]), data)| && Get32(Slots(Decode(itab[p]), data)[q], 0) == t.inum
    requires TreeAt(itab, data, t) && p as nat !in Inums(t) && CleanPath(comps)
    requires Resolve(itab, data, euid, start, comps) == Found(p)
    ensures Resolve(itab, data', euid, start, comps) == Found(p)
    decreases comps
  {
    hide FsOk, Decode, Slots, Entries, NBlocks, Lookup, OwnerString, FirstNamed, Named, OthersKept, DirSound, Bit,
      TreeAt, Inums;
    if comps != [] {
      FsOkInode(ibm, itab, dbm, data, start);
      FoundIsTaken(Decode(itab[start]), data, ibm, comps[0]);
      var next := Lookup(Entries(Slots(Decode(itab[start]), data)), comps[0]).value;
      if start == p {
        ErasedIsNamed(ibm, itab, data, data', p, name, q);
        if comps[0] == name {
          FirstOfErased(ibm, itab, data, data', p, name, q);
          StaysInside(itab, data, euid, t, comps[1..]);
        } else {
          OtherNameKept(Slots(Decode(itab[p]), data), name, q, comps[0]);
        }
      } else {
        ErasedElsewhere(ibm, itab, dbm, data, data', p, name, q, start);
      }
      ParentStillResolves(ibm, itab, dbm, data, data', p, name, q, t, euid, next, comps[1..]);
    }
  }

  lemma FirstOfErased(ibm: InodeBitmap, itab: InodeTable, data: Blocks, data': Blocks, p: nat, name: Name, q: nat)
    requires Erased(ibm, itab, data, data', p, name, q)
    ensures Lookup(Entries(Slots(Decode(itab[p]), data)), name) == Some(Get32(Slots(Decode(itab[p]), data)[q], 0))
  {
    LookupIsFirstNamed(Slots(Decode(itab[p]), data), name, q);
  }

  /** The name occurs in slot q only. */
  ghost predicate NamedOnce(slots: seq<Slot>, name: Name, q: nat)
  {
    forall k :: 0 <= k < |slots| && k != q ==> !Named(slots[k], name)
  }

  /** What resolving a path gives after slot q of its directory p has been cleared: ENOENT if the name was there once;
      for a path without dots, ENOENT iff the name was there once, and the inode of the next entry of that name
      otherwise. */
  ghost predicate PathAfterRemoval(itab: InodeTable, data: Blocks, data': Blocks, euid: Name, comps: seq<Name>, p: nat,
                                   q: nat)
  {
    && comps != [] && p < INODES && NBlocks(Decode(itab[p]).size) <= MAXBLOCKS && q < |Slots(Decode(itab[p]), data)|
    && var r, slots, name := Resolve(itab, data', euid, ROOTINUM, comps), Slots(Decode(itab[p]), data), BaseOf(comps);
    var cleared := slots[q := FREESLOT];
    && (NamedOnce(slots, name, q) ==> r == PathResult.Failed(ENOENT))
    && (CleanPath(comps) ==>
         && (r == PathResult.Failed(ENOENT) <==> NamedOnce(slots, name, q))
         && (forall k: nat :: FirstNamed(cleared, name, k) && k < |slots| ==> r == Found(Get32(slots[k], 0))))
  }

  /** The path that was removed. */
  lemma RemovedPath(seen: InodeTable, ibm: InodeBitmap, itab: InodeTable, dbm: DataBitmap, data: Blocks, p: u32, n: u32,
                    t: Tree, q: nat, ibm': InodeBitmap, dbm': DataBitmap, data': Blocks, euid: Name, comps: seq<Name>)
    requires FsOk(ibm, itab, dbm, data) && LastStep(itab, data, euid, comps, p, n, q)
    requires UnlinkedAs(seen, ibm, itab, dbm, data, p, BaseOf(comps), n, t, q, ibm', dbm', data')
    requires TreeAt(itab, data, t) && p as nat !in Inums(t)
    ensures q < |Slots(Decode(itab[p]), data)| && PathAfterRemoval(itab, data, data', euid, comps, p, q)
  {
    hide FsOk, Decode, Slots, Entries, NBlocks, Lookup, OwnerString, OthersKept, Bit, TreeAt, Inums, InodesFreed,
      BlocksFreed, SlotCleared, FirstNamed, Named;
    var slots, name := Slots(Decode(itab[p]), data), BaseOf(comps);
    FsOkHasFirst(ibm, itab, dbm, data);
    var p', q' := ResolvedSlot(itab, data, euid, comps);
    assert DirOf(comps) + [name] == comps;
    assert Erased(ibm, itab, data, data', p, name, q);
    ErasedIsNamed(ibm, itab, data, data', p, name, q);
    NameGoneIffUnique(slots, name, q);
    if NamedOnce(slots, name, q) {
      ResolvesNoMore(ibm, itab, dbm, data, data', p, name, q, euid, ROOTINUM, DirOf(comps));
    }
    if CleanPath(comps) {
      assert CleanPath(DirOf(comps));
      ParentStillResolves(ibm, itab, dbm, data, data', p, name, q, t, euid, ROOTINUM, DirOf(comps));
      ResolveLast(itab, data', euid, ROOTINUM, comps);
      ResolveName(itab, data', euid, p, name);
      var cleared := slots[q := FREESLOT];
      var k := FirstNamedExists(cleared, name);
      LookupIsFirstNamed(cleared, name, k);
      ClearedIsFree(slots, q, name, k);
      forall m: nat | FirstNamed(cleared, name, m) && m < |slots| ensures m == k && cleared[m] == slots[m] {
        FirstNamedUnique(cleared, name, m, k);
      }
    }
  }

  lemma ClearedIsFree(slots: seq<Slot>, q: nat, name: Name, k: nat)
    requires q < |slots| && FirstNamed(slots[q := FREESLOT], name, k)
    ensures k < |slots| ==> k != q
  {
    FreeSlotIsFree();
  }

  /** One component from an executable directory. */
  lemma ResolveName(itab: InodeTable, data: Blocks, euid: Name, p: u32, name: Name)
    requires Walkable(itab, p) && IsDir(Decode(itab[p])) && CanExecute(euid, Decode(itab[p]))
    ensures var l := Lookup(Entries(Slots(Decode(itab[p]), data)), name);
      Resolve(itab, data, euid, p, [name]) == if l == None then PathResult.Failed(ENOENT) else Found(l.value)
  {
    hide Slots, Entries, Lookup, Decode;
    var last := [name];
    assert last[1..] == [];
    var l := Lookup(Entries(Slots(Decode(itab[p]), data)), name);
    if l.Some? {
      ResolveNothing(itab, data, euid, l.value);
    }
  }

  datatype RemovalTarget = Denied(error: Errno) | Target(parent: u32, inum: u32)

  /** The checks of removeAll (computer/kernel.go:683-704). */
  method CheckRemoval(k: Kernel, euid: Name, comps: seq<Name>) returns (r: RemovalTarget)
    requires Ready(k)
    modifies k`inodeCache
    ensures Ready(k)
    ensures r == Denied(EPERM) <==> comps == []
    ensures comps != [] ==> match Resolve(k.fs.itab, k.fs.data, euid, ROOTINUM, comps)
      case Failed(e) => r == Denied(e)
      case Found(n) =>
        var p := Resolve(k.fs.itab, k.fs.data, euid, ROOTINUM, DirOf(comps));
        && p.Found? && p.inum < INODES && Taken(k.fs.ibm, p.inum) && IsDir(Decode(k.fs.itab[p.inum]))
        && r == if CanWrite(euid, Decode(k.fs.itab[p.inum])) then Target(p.inum, n) else Denied(EACCES)
    ensures OnlyLoaded(k.fs.ibm, k.fs.itab, old(Cached(k)), k.fs.ibm, Cached(k))
    ensures forall i: u32 :: i < INODES ==> k.Current(i) == old(k.Current(i))
    ensures forall i :: i in old(k.inodeCache) ==> i in k.inodeCache && k.inodeCache[i] == old(k.inodeCache)[i]
    ensures forall i :: i in k.inodeCache && i !in old(k.inodeCache) ==> fresh(k.inodeCache[i])
  {
    hide Ready, Shows, Decode, Resolve, OwnerString, Bit, Slots, NBlocks, OnlyLoaded, Cached;
    ghost var c0 := Cached(k);
    if comps == [] {
      NothingLoaded(k.fs.ibm, k.fs.itab, c0);
      return Denied(EPERM);
    }
    ResolveErrors(k.fs.itab, k.fs.data, euid, ROOTINUM, comps);
    var target := ResolvePath(k, euid, comps);
    if target.Failed? {
      return Denied(target.error);
    }
    ghost var p, q := ResolvedSlot(k.fs.itab, k.fs.data, euid, comps);
    ghost var c1 := Cached(k);
    var parent := ResolvePath(k, euid, DirOf(comps));
    LoadedThenLoaded(k.fs.ibm, k.fs.itab, c0, c1, k.fs.ibm, Cached(k));
    ghost var c2 := Cached(k);
    if parent.Failed? {
      // The path itself resolved, so its directory does.
      assert false;
    }
    var parentIn := Load(k, parent.inum);
    LoadedThenLoaded(k.fs.ibm, k.fs.itab, c0, c2, k.fs.ibm, Cached(k));
    if !CanWrite(euid, parentIn.Val()) || !CanExecute(euid, parentIn.Val()) {
      return Denied(EACCES);
    }
    return Target(parent.inum, target.inum);
  }

  /** Dropping cache entries leaves loaded values. */
  lemma StillLoaded(k: Kernel, ibm: InodeBitmap, itab: InodeTable, c0: map<u32, Ino>, c1: map<u32, Ino>)
    requires LoadedValues(ibm, itab, c0, c1)
    requires forall i: u32 :: i in k.inodeCache && i < INODES ==> i in c1 && c1[i] == k.inodeCache[i].Val()
    ensures LoadedValues(ibm, itab, c0, Cached(k))
  {
    hide Decode;
  }

  /** removeAll. The subtree and the slot are what the path leads to; on them the hypotheses of Removable are needed.
      The blocks that the kernel does not know of stay marked and have no owner, so the kernel stays ready exactly when
      there are none. */
  method RemoveAll(k: Kernel, euid: Name, comps: seq<Name>, ghost seen: InodeTable, ghost t: Tree, ghost p: u32,
                   ghost n: u32, ghost q: nat)
    returns (r: RemoveResult)
    requires Ready(k)
    requires comps != [] && Resolve(k.fs.itab, k.fs.data, euid, ROOTINUM, comps).Found? ==>
      LastStep(k.fs.itab, k.fs.data, euid, comps, p, n, q) && Removable(k, seen, t, p, n, q)
    modifies k`inodeCache, set i | i in k.inodeCache && i as nat in Inums(t) :: k.inodeCache[i]
    modifies k.fs`ibm, k.fs`dbm, k.fs`data, k.fs.disk.buf
    ensures k.Valid() && (Ready(k) <==> FsOk(k.fs.ibm, k.fs.itab, k.fs.dbm, k.fs.data))
    ensures Ready(k) <==> r.RemoveError? || CountsAgree(k.fs.itab, seen, Inums(t))
    ensures r == Removed ==> FsHeld(k.fs.ibm, k.fs.itab, k.fs.dbm, k.fs.data)
    ensures r == Removed ==>
      Lost(k.fs.ibm, k.fs.itab, k.fs.dbm, k.fs.data) == Unseen(k.fs.itab, seen, old(k.fs.data), Inums(t))
    ensures r == RemoveError(EPERM) <==> comps == []
    ensures comps != [] ==> match Resolve(old(k.fs.itab), old(k.fs.data), euid, ROOTINUM, comps)
      case Failed(e) => r == RemoveError(e)
      case Found(_) =>
        if CanWrite(euid, Decode(old(k.fs.itab)[p])) then
          && r == Removed
          && UnlinkedAs(seen, old(k.fs.ibm), k.fs.itab, old(k.fs.dbm), old(k.fs.data), p, BaseOf(comps), n, t, q,
                        k.fs.ibm, k.fs.dbm, k.fs.data)
          && PathAfterRemoval(k.fs.itab, old(k.fs.data), k.fs.data, euid, comps, p, q)
        else r == RemoveError(EACCES)
    ensures LoadedValues(old(k.fs.ibm), old(k.fs.itab), old(Cached(k)), Cached(k))
    ensures forall i :: i in k.inodeCache ==>
      (i in old(k.inodeCache) && k.inodeCache[i] == old(k.inodeCache)[i]) || fresh(k.inodeCache[i])
    ensures r.RemoveError? ==> k.fs.ibm == old(k.fs.ibm) && k.fs.dbm == old(k.fs.dbm) && k.fs.data == old(k.fs.data)
    ensures r == Removed ==> forall i :: i in k.inodeCache ==> i as nat !in Inums(t)
  {
    hide OnlyLoaded, LoadedValues, Cached, FsOk, Shows, Decode, Resolve, OwnerString, Bit, TreeAt, Inums, Distinct,
      Slots, NBlocks, OnlyReference, UnlinkedAs, PathAfterRemoval, FsHeld, Lost, Unseen, CountsAgree, AllOlder;
    ghost var ibm, itab, dbm, data := k.fs.ibm, k.fs.itab, k.fs.dbm, k.fs.data;
    ghost var c0 := Cached(k);
    var target := CheckRemoval(k, euid, comps);
    LoadedIsLoaded(ibm, itab, c0, k.fs.ibm, Cached(k));
    if target.Denied? {
      return RemoveError(target.error);
    }
    ghost var p', q' := ResolvedSlot(itab, data, euid, comps);
    FirstNamedUnique(Slots(Decode(itab[p]), data), BaseOf(comps), q, q');
    ghost var c1 := Cached(k);
    CachedAre(k);
    UnlinkAndFree(k, target.parent, BaseOf(comps), target.inum, seen, t, q);
    StillLoaded(k, ibm, itab, c0, c1);
    UnlinkedShrinks(seen, ibm, itab, dbm, data, p, BaseOf(comps), n, t, q, k.fs.ibm, k.fs.dbm, k.fs.data);
    RemovedPath(seen, ibm, itab, dbm, data, p, n, t, q, k.fs.ibm, k.fs.dbm, k.fs.data, euid, comps);
    ReadyAfterRemoval(k, itab, ibm);
    return Removed;
  }

  // ---------- what removal leaves in the free blocks ----------

  /** No block of these inodes shows an entry. */
  ghost predicate OwnBlocksClean(itab: InodeTable, data: Blocks, s: set<nat>)
  {
    forall i, b: nat :: i in s && i < INODES && b < BLOCKS && b in Own(Decode(itab[i]), data) ==>
      Entries(BlkSlots(data[b])) == []
  }

  /** Blocks are given back with their contents, so free blocks stay clean iff none that is given back shows an
      entry. */
  lemma RemovalKeepsCleanIff(ibm: InodeBitmap, itab: InodeTable, dbm: DataBitmap, data: Blocks, p: u32, name: Name,
                             n: u32, t: Tree, q: nat, ibm': InodeBitmap, dbm': DataBitmap, data': Blocks)
    requires FsOk(ibm, itab, dbm, data) && Taken(ibm, p) && AllTaken(ibm, Inums(t)) && p as nat !in Inums(t)
    requires Unlinked(ibm, itab, dbm, data, p, name, n, t, q, ibm', dbm', data')
    ensures FreeBlocksClean(dbm', data') <==> FreeBlocksClean(dbm, data) && OwnBlocksClean(itab, data, Inums(t))
  {
    hide Decode, Slots, Entries, BlkSlots, Inums, FirstNamed, OthersKept, InodesFreed, DirSound, Bit, Own;
    forall b: nat | b < BLOCKS && !Taken(dbm', b) ensures data'[b] == data[b] {
      FreedIsForeign(ibm, itab, dbm, data, p, t, b, dbm');
    }
    forall i, b: nat | i in Inums(t) && i < INODES && b < BLOCKS && b in Own(Decode(itab[i]), data)
      ensures !Taken(dbm', b)
    {
      assert OwnedByAny(itab, data, Inums(t), b);
    }
  }

  /** A block that is free afterwards does not belong to p. */
  lemma FreedIsForeign(ibm: InodeBitmap, itab: InodeTable, dbm: DataBitmap, data: Blocks, p: u32, t: Tree, b: nat,
                       dbm': DataBitmap)
    requires FsOk(ibm, itab, dbm, data) && Taken(ibm, p) && AllTaken(ibm, Inums(t)) && p as nat !in Inums(t)
    requires BlocksFreed(itab, data, dbm, dbm', Inums(t)) && b < BLOCKS && !Taken(dbm', b)
    ensures b !in Own(Decode(itab[p]), data)
  {
    hide Decode, Inums, DirSound, Own, WF, Bit;
    var inos := Inos(ibm, itab);
    assert p as nat in inos && inos[p as nat] == Decode(itab[p]);
    if Taken(dbm, b) {
      var i :| i in Inums(t) && i < INODES && b in Own(Decode(itab[i]), data);
      assert i in inos && inos[i] == Decode(itab[i]);
    }
  }

  // ---------- create, then remove ----------

  /** Entering a name that was not there in place and removing it again: the removal clears the very slot that was
      filled. */
  lemma FillThenClear(slots: seq<Slot>, q: nat, e: DirEntry, q2: nat)
    requires |e.name| <= MAXNAME && e.inum != 0
    requires FirstFree(slots, q) && q < |slots|
    requires forall r :: 0 <= r < |slots| ==> !Named(slots[r], e.name)
    requires FirstNamed(slots[q := EntrySlot(e)], e.name, q2)
    ensures q2 == q
    ensures Entries(slots[q := EntrySlot(e)][q2 := FREESLOT]) == Entries(slots)
  {
    var slots1 := slots[q := EntrySlot(e)];
    EntryRoundTrip(e);
    assert Named(slots1[q], e.name);
    assert forall r :: 0 <= r < |slots| && r != q ==> slots1[r] == slots[r];
    FreeSlotIsFree();
    FillAddsOne(slots, q, EntrySlot(e));
    ClearRemovesOne(slots1, q);
    assert slots1[..q] == slots[..q] && slots1[q + 1..] == slots[q + 1..];
  }

  /** The new inode i has been given blocks and contents; nothing else has changed. */
  ghost predicate FilledIn(ibm: InodeBitmap, itab: InodeTable, dbm: DataBitmap, data: Blocks, i: nat, itab': InodeTable,
                           dbm': DataBitmap, data': Blocks)
  {
    && i < INODES && RecordSet(itab, itab', i, Decode(itab'[i]))
    && Rewritten(Decode(itab[i]), data, dbm, Decode(itab'[i]).size, Decode(itab'[i]), data', dbm')
    && OthersKept(ibm, itab, data, data', i)
  }

  /** A new file that has not been written. */
  lemma NotFilledIn(ibm: InodeBitmap, itab: InodeTable, dbm: DataBitmap, data: Blocks, i: nat)
    requires i < INODES && Taken(ibm, i) && FsOk(ibm, itab, dbm, data)
    ensures FilledIn(ibm, itab, dbm, data, i, itab, dbm, data)
  {
    FsOkInode(ibm, itab, dbm, data, i);
    NoReallocation(Decode(itab[i]), data, dbm);
  }

  /** A new file after writeFile. */
  lemma SavedIsFilledIn(ibm: InodeBitmap, itab: InodeTable, dbm: DataBitmap, data: Blocks, i: nat, content: seq<byte>,
                        itab': InodeTable, dbm': DataBitmap, data': Blocks)
    requires FileSaved(ibm, itab, dbm, data, i, content, itab', dbm', data')
    ensures FilledIn(ibm, itab, dbm, data, i, itab', dbm', data')
  {
  }

  /** A new directory after mkDir: an entry in the parent, then the dot entries. */
  lemma MadeDirIsFilledIn(ibm: InodeBitmap, itab: InodeTable, dbm: DataBitmap, data: Blocks, p: nat, name: Name, i: u32,
                          v: Ino, q: nat, ibm': InodeBitmap, itab': InodeTable, dbm': DataBitmap, data': Blocks)
    returns (itab1: InodeTable, dbm1: DataBitmap, data1: Blocks)
    requires IsDir(v) && MadeInode(ibm, itab, dbm, data, p, name, i, v, q, ibm', itab', dbm', data')
    ensures MadeEntry(ibm, itab, dbm, data, p, name, i, v, q, ibm', itab1, dbm1, data1)
    ensures FilledIn(ibm', itab1, dbm1, data1, i, itab', dbm', data')
    ensures NBlocks(Decode(itab'[i]).size) <= MAXBLOCKS && Kids(Entries(Slots(Decode(itab'[i]), data'))) == []
    ensures p < U32 && FreshDir(v, dbm1, data1, i, p, Decode(itab'[i]), dbm', data')
  {
    hide Decode, MadeEntry, OthersKept, Rewritten, Slots;
    itab1, dbm1, data1 :|
      && MadeEntry(ibm, itab, dbm, data, p, name, i, v, q, ibm', itab1, dbm1, data1)
      && RecordSet(itab1, itab', i, Decode(itab'[i]))
      && FreshDir(v, dbm1, data1, i, p, Decode(itab'[i]), dbm', data')
      && OthersKept(ibm', itab1, data1, data', i);
    MadeFacts(ibm, itab, dbm, data, p, name, i, v, q, ibm', itab1, dbm1, data1);
    var es := Entries(Slots(Decode(itab'[i]), data'));
    assert es[..1] == [es[0]] && es[..1][..0] == [];
    assert Kids(es[..1]) == [];
  }

  /** Giving back all blocks of an inode that started empty restores the data bitmap. */
  lemma DataBitmapBack(v: Ino, dbm: DataBitmap, data: Blocks, i: nat, itab': InodeTable, dbm': DataBitmap,
                       data': Blocks, dbm3: DataBitmap)
    requires v.size == 0 && i < INODES
    requires Rewritten(v, data, dbm, Decode(itab'[i]).size, Decode(itab'[i]), data', dbm')
    requires BlocksFreed(itab', data', dbm', dbm3, {i})
    ensures dbm3 == dbm
  {
    hide Decode, WF;
    EmptyInode(v, data);
    var ino := Decode(itab'[i]);
    forall b: nat ensures Taken(dbm3, b) == Taken(dbm, b) {
      assert OwnedByAny(itab', data', {i}, b) <==> b in Own(ino, data') by {
        if b in Own(ino, data') {
          assert i in {i};
        }
      }
    }
    SameBits(dbm3, dbm);
  }

  lemma NameAbsent(slots: seq<Slot>, name: Name)
    requires Lookup(Entries(slots), name) == None
    ensures forall r :: 0 <= r < |slots| ==> !Named(slots[r], name)
  {
    var k := FirstNamedExists(slots, name);
    LookupIsFirstNamed(slots, name, k);
  }

  /** In a directory with room the entry went in place. */
  lemma MadeInPlace(ibm: InodeBitmap, itab: InodeTable, dbm: DataBitmap, data: Blocks, p: nat, name: Name, i: u32,
                    v: Ino, q: nat, ibm1: InodeBitmap, itab1: InodeTable, dbm1: DataBitmap, data1: Blocks)
    requires MadeEntry(ibm, itab, dbm, data, p, name, i, v, q, ibm1, itab1, dbm1, data1) && Room(Decode(itab[p]), data)
    ensures Decode(itab1[p]) == Decode(itab[p]) && dbm1 == dbm && |name| <= MAXNAME
    ensures FirstFree(Slots(Decode(itab[p]), data), q) && q < |Slots(Decode(itab[p]), data)|
    ensures Slots(Decode(itab[p]), data1) == Slots(Decode(itab[p]), data)[q := EntrySlot(DirEntry(i, name))]
    ensures WF(Decode(itab[p]), data1)
  {
    hide Decode, GrewAndAdded, OthersKept;
  }

  /** Creating a file or a directory under a new name, filling it in, and removing it again restores the inode bitmap
      and the parent's listing, and leaves the data bitmap as the entry in the parent left it: when the parent did not
      have to grow, byte for byte as it was. */
  lemma CreateThenRemove(ibm: InodeBitmap, itab: InodeTable, dbm: DataBitmap, data: Blocks, p: u32, name: Name, i: u32,
                         v: Ino, q: nat, ibm1: InodeBitmap, itab1: InodeTable, dbm1: DataBitmap, data1: Blocks,
                         itab2: InodeTable, dbm2: DataBitmap, data2: Blocks, q3: nat, ibm3: InodeBitmap,
                         dbm3: DataBitmap, data3: Blocks)
    requires Taken(ibm, p) && Sound(Decode(itab[p]), data, dbm) && GrowsClean(Decode(itab[p]), data, dbm) && v.size == 0
    requires NBlocks(Decode(itab[p]).size) <= MAXBLOCKS && Lookup(Entries(Slots(Decode(itab[p]), data)), name) == None
    requires MadeEntry(ibm, itab, dbm, data, p, name, i, v, q, ibm1, itab1, dbm1, data1)
    requires FilledIn(ibm1, itab1, dbm1, data1, i, itab2, dbm2, data2)
    requires Unlinked(ibm1, itab2, dbm2, data2, p, name, i, Node(i, []), q3, ibm3, dbm3, data3)
    ensures ibm3 == ibm && dbm3 == dbm1 && q3 == q
    ensures Decode(itab2[p]) == Decode(itab1[p]) && NBlocks(Decode(itab1[p]).size) <= MAXBLOCKS
    ensures Room(Decode(itab[p]), data) ==> dbm1 == dbm && Decode(itab1[p]) == Decode(itab[p])
    ensures |Free(dbm3)| + BlocksToLink(Decode(itab[p]), data) == |Free(dbm)|
    ensures Entries(Slots(Decode(itab1[p]), data3)) == Entries(Slots(Decode(itab[p]), data))
  {
    hide Decode, WF, Rewritten, Slots, NBlocks, BlocksFreed, OthersKept, SameMap, LowestFree, EntryAdded, Entries,
      Sound, GrowsClean, Free, BlocksToLink, Lookup;
    assert Inums(Node(i, [])) == {i as nat};
    var ino, e := Decode(itab[p]), DirEntry(i, name);
    MadeFacts(ibm, itab, dbm, data, p, name, i, v, q, ibm1, itab1, dbm1, data1);
    forall j: nat ensures Taken(ibm3, j) == Taken(ibm, j) {
    }
    SameBits(ibm3, ibm);
    DataBitmapBack(v, dbm1, data1, i, itab2, dbm2, data2, dbm3);
    if Room(ino, data) {
      MadeInPlace(ibm, itab, dbm, data, p, name, i, v, q, ibm1, itab1, dbm1, data1);
    }
    MadeTakes(ibm, itab, dbm, data, p, name, i, v, q, ibm1, itab1, dbm1, data1);
    EntryAddedRewrites(ino, data, dbm, e, Decode(itab1[p]), data1, dbm1, q);
    StaysRewritten(ino, data, dbm, Decode(itab1[p]), data1, dbm1);
    OthersKeptAt(ibm1, itab1, data1, data2, i, p);
    UntouchedSlots(Decode(itab1[p]), data1, data2);
    var all := AddedSlots(ino, data, dbm, e, Decode(itab1[p]), data1, dbm1, q);
    EnteredThenCleared(Slots(ino, data), all, q, e, q3);
  }

  lemma StaysRewritten(ino: Ino, data: Blocks, dbm: DataBitmap, ino': Ino, data': Blocks, dbm': DataBitmap)
    requires Rewritten(ino, data, dbm, ino'.size, ino', data', dbm')
    ensures WF(ino', data')
  {
  }

  /** A new name in the first free slot, of those that were there or of free ones appended to them, and its removal. */
  lemma EnteredThenCleared(slots: seq<Slot>, all: seq<Slot>, q: nat, e: DirEntry, q3: nat)
    requires |slots| <= |all| && all[..|slots|] == slots && (forall k :: |slots| <= k < |all| ==> IsFree(all[k]))
    requires |e.name| <= MAXNAME && e.inum != 0 && FirstFree(all, q) && q < |all|
    requires Lookup(Entries(slots), e.name) == None && FirstNamed(all[q := EntrySlot(e)], e.name, q3)
    ensures q3 == q && Entries(all[q := EntrySlot(e)][q3 := FREESLOT]) == Entries(slots)
  {
    hide Entries, Lookup, EntrySlot;
    NameAbsent(slots, e.name);
    var tail := all[|slots|..];
    forall r | 0 <= r < |all| ensures !Named(all[r], e.name) {
      if r < |slots| {
        assert all[r] == slots[r];
      }
    }
    FillThenClear(all, q, e, q3);
    assert all == slots + tail;
    assert forall r :: 0 <= r < |tail| ==> tail[r] == all[|slots| + r];
    EntriesConcat(slots, tail);
    NoEntries(tail);
  }

  // ---------- a stale cached directory ----------

  /** addDentry grows its own copy of the inode: a copy cached before the growth is earlier than the disk by one
      block. */
  lemma GrowthLeavesCacheBehind(c: Ino, data: Blocks, dbm: DataBitmap, enc: Slot, v: Ino, data': Blocks,
                                dbm': DataBitmap, k: nat)
    requires GrewAndAdded(c, data, dbm, enc, v, data', dbm', k)
    ensures Older(c, v) && NBlocks(v.size) == NBlocks(c.size) + 1
  {
    hide Slots, Entries, WF, Own;
    forall s: nat | LiveSlot(c, s) ensures LiveSlot(v, s) && SlotBlock(v, data', s) == SlotBlock(c, data, s) {
    }
    forall s: nat | s < NDIRECT && s < NBlocks(c.size) ensures c.direct[s] == v.direct[s] {
      assert LiveSlot(c, s);
    }
    assert forall s :: s == FINDSLOT || s == SINDSLOT || s == TINDSLOT ==> LiveSlot(c, s) ==>
      SlotBlock(v, data', s) == SlotBlock(c, data, s);
  }

  /** Freeing through an earlier copy gives back every block of the inode iff the block counts agree;
      otherwise exactly the difference in need stays marked and is lost. */
  lemma StaleCopyLeaks(c: Ino, v: Ino, data: Blocks, dbm: DataBitmap, c': Ino, data': Blocks, dbm': DataBitmap)
    requires Sound(v, data, dbm) && Older(c, v)
    requires Reallocated(c, data, dbm, 0, c', data', dbm')
    ensures (forall b: nat :: b in Own(v, data) ==> !Taken(dbm', b)) <==> NBlocks(c.size) == NBlocks(v.size)
    ensures |set b | b in Own(v, data) && Taken(dbm', b)| == Need(NBlocks(v.size)) - Need(NBlocks(c.size))
  {
    hide Reallocated, Own, SlotBlock, Bit, Need, NBlocks, Older;
    OlderOwnsLess(c, v, data);
    OlderFits(c, v);
    FallocZeroReturnsAll(c, data, dbm, c', data', dbm');
    OwnCount(c, data);
    OwnCount(v, data);
    var lost := set b | b in Own(v, data) && Taken(dbm', b);
    assert lost == Own(v, data) - Own(c, data);
    assert Own(v, data) == lost + Own(c, data);
    NeedGrows(NBlocks(c.size), NBlocks(v.size));
    if forall b: nat :: b in Own(v, data) ==> !Taken(dbm', b) {
      assert lost == {};
    }
    if NBlocks(c.size) == NBlocks(v.size) {
      EmptyIfNone(lost);
    }
  }

  lemma NeedGrows(m: nat, n: nat)
    requires m <= n
    ensures Need(n) - Need(m) >= n - m
  {
  }

  lemma EmptyIfNone(s: set<nat>)
    requires |s| == 0
    ensures s == {}
  {
  }
}

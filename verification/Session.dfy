/** Sessions: whatever sequence of system calls is made, the kernel stays ready and its directories form trees, so that
    removeAll needs nothing to be assumed of the tree (computer/kernel.go:594-845). */
module Session {
  import opened Bytes
  import opened Bitmap
  import opened Layout
  import opened Inodes
  import opened BlockMap
  import opened Allocator
  import opened Volume
  import opened Files
  import opened Dir
  import opened Paths
  import opened TreeFree
  import opened Keeps
  import opened Syscalls
  import opened Remove
  import opened Names
  import opened Forest

  // ---------- the listings of a volume ----------

  ghost function Listing(itab: InodeTable, data: Blocks, j: nat): seq<DirEntry>
    requires j < INODES
  {
    var ino := Decode(itab[j]);
    if IsDir(ino) && NBlocks(ino.size) <= MAXBLOCKS then Entries(Slots(ino, data)) else []
  }

  ghost function ListingsOf(ibm: InodeBitmap, itab: InodeTable, data: Blocks): Listings
  {
    map j: nat | j < INODES && Taken(ibm, j) :: Listing(itab, data, j)
  }

  /** The directories of the volume form trees. */
  ghost predicate TreeOk(ibm: InodeBitmap, itab: InodeTable, data: Blocks, s: Shape)
  {
    IsForest(ListingsOf(ibm, itab, data), s)
  }

  lemma TakenInRange(ibm: InodeBitmap, j: nat)
    requires Taken(ibm, j)
    ensures j < INODES
  {
  }

  /** A subtree of the listings is a subtree on disk. */
  lemma {:induction false} ListTreeIsTreeAt(ibm: InodeBitmap, itab: InodeTable, dbm: DataBitmap, data: Blocks, t: Tree)
    requires FsOk(ibm, itab, dbm, data) && ListTree(ListingsOf(ibm, itab, data), t)
    ensures TreeAt(itab, data, t)
    decreases t
  {
    hide FsOk, Decode, Slots, Entries, NBlocks, Kids, DirOk, DirSound;
    FsOkInode(ibm, itab, dbm, data, t.inum);
    var ks := Kids(Listing(itab, data, t.inum));
    assert Kids([]) == [] by { NoKidsInNothing(); }
    forall q: nat | q < |t.kids| ensures TreeAt(itab, data, t.kids[q]) {
      ListTreeIsTreeAt(ibm, itab, dbm, data, t.kids[q]);
    }
  }

  lemma NoKidsInNothing()
    ensures Kids([]) == []
  {
  }

  /** Where the entry of a used slot is in the listing. */
  lemma SlotEntry(slots: seq<Slot>, q: nat)
    requires q < |slots| && !IsFree(slots[q])
    ensures var m := |Entries(slots[..q])|; m < |Entries(slots)| && Entries(slots)[m] == EntryOf(slots[q]).value
  {
    EntriesAround(slots, q);
    EntriesOne(slots[q]);
  }

  /** A later used slot has a later entry. */
  lemma LaterEntry(slots: seq<Slot>, q: nat, r: nat)
    requires q < r < |slots| && !IsFree(slots[q])
    ensures |Entries(slots[..q])| < |Entries(slots[..r])|
  {
    var front := slots[..r];
    assert front[..q] == slots[..q] && front[q] == slots[q];
    SlotEntry(front, q);
  }

  /** In a forest, a subtree that does not contain its parent is referred to only by the slot of its root. */
  lemma ReferredToOnce(ibm: InodeBitmap, itab: InodeTable, dbm: DataBitmap, data: Blocks, s: Shape, t: Tree, p: nat,
                       q: nat)
    requires FsOk(ibm, itab, dbm, data) && TreeOk(ibm, itab, data, s) && Taken(ibm, p) && IsDir(Decode(itab[p]))
    requires Below(ListingsOf(ibm, itab, data), s, t.inum, Inums(t)) && t.inum > ROOTINUM && p !in Inums(t)
    requires NBlocks(Decode(itab[p]).size) <= MAXBLOCKS && q < |Slots(Decode(itab[p]), data)|
    requires var slot := Slots(Decode(itab[p]), data)[q]; !IsFree(slot) && Get32(slot, 0) == t.inum
    ensures OnlyReference(ibm, itab, data, Inums(t), p, q)
  {
    hide FsOk, Decode, Slots, Entries, NBlocks, IsForest, Below, EntryOf, Inums;
    var ls := ListingsOf(ibm, itab, data);
    TakenInRange(ibm, p);
    forall j: nat, r: nat |
      && Taken(ibm, j) && j !in Inums(t) && IsDir(Decode(itab[j])) && NBlocks(Decode(itab[j]).size) <= MAXBLOCKS
      && r < |Slots(Decode(itab[j]), data)| && !IsFree(Slots(Decode(itab[j]), data)[r])
      && Get32(Slots(Decode(itab[j]), data)[r], 0) as nat in Inums(t)
      ensures j == p && r == q
    {
      TakenInRange(ibm, j);
      SlotRefers(ls, s, t.inum, Inums(t), j, Slots(Decode(itab[j]), data), r);
      SlotRefers(ls, s, t.inum, Inums(t), p, Slots(Decode(itab[p]), data), q);
      SameSlot(ls, s, p, Slots(Decode(itab[p]), data), q, r);
    }
  }

  lemma SlotRefers(ls: Listings, s: Shape, n: nat, below: set<nat>, j: nat, slots: seq<Slot>, r: nat)
    requires IsForest(ls, s) && Below(ls, s, n, below) && n > ROOTINUM as nat && j in ls && j !in below
    requires ls[j] == Entries(slots)
    requires r < |slots| && !IsFree(slots[r]) && Get32(slots[r], 0) as nat in below
    ensures n in s.up && j == s.up[n] && Get32(slots[r], 0) as nat == n && !Dotted(EntryOf(slots[r]).value)
  {
    hide IsForest, Entries, Below;
    SlotEntry(slots, r);
    OutsideRefersOnce(ls, s, n, below, j, |Entries(slots[..r])|);
    RootIsBelow(ls, s, n, below);
    BelowIsShaped(ls, s, n, below);
  }

  lemma BelowIsShaped(ls: Listings, s: Shape, n: nat, below: set<nat>)
    requires Below(ls, s, n, below)
    ensures n in s.up && n in s.depth && n in ls
  {
  }

  lemma SameSlot(ls: Listings, s: Shape, p: nat, slots: seq<Slot>, q: nat, r: nat)
    requires IsForest(ls, s) && p in ls && ls[p] == Entries(slots) && q < |slots| && r < |slots|
    requires !IsFree(slots[q]) && !IsFree(slots[r]) && Get32(slots[q], 0) == Get32(slots[r], 0)
    requires !Dotted(EntryOf(slots[q]).value) && !Dotted(EntryOf(slots[r]).value)
    ensures q == r
  {
    hide IsForest, Entries, Dotted;
    ForestParts(ls, s, p);
    SlotEntry(slots, q);
    SlotEntry(slots, r);
    if q < r {
      LaterEntry(slots, q, r);
    } else if r < q {
      LaterEntry(slots, r, q);
    }
  }

  /** The volume, and what the kernel has cached of it. */
  datatype SysState = SysState(ibm: InodeBitmap, itab: InodeTable, dbm: DataBitmap, data: Blocks, cache: map<u32, Ino>)

  ghost function Observe(k: Kernel): SysState
    reads k, k.fs, k.inodeCache.Values
  {
    SysState(k.fs.ibm, k.fs.itab, k.fs.dbm, k.fs.data, Cached(k))
  }

  /** The cached copy of inode i is not what is on disk. */
  ghost predicate StaleAt(v: SysState, i: u32)
  {
    i in v.cache && i < INODES && Taken(v.ibm, i) && v.cache[i] != Decode(v.itab[i])
  }

  ghost predicate NoneStale(v: SysState, s: set<nat>)
  {
    forall i: u32 :: i as nat in s ==> !StaleAt(v, i)
  }

  /** No inode of the subtree at n is stale in the cache. */
  ghost predicate CurrentBelow(v: SysState, n: u32)
  {
    forall t: Tree :: t.inum == n && TreeAt(v.itab, v.data, t) ==> NoneStale(v, Inums(t))
  }

  /** What the kernel sees of the inodes, as a table: the cached copy where there is one. */
  ghost function Seen(v: SysState): InodeTable
  {
    seq(INODES, i requires 0 <= i < INODES => if i in v.cache then Encode(v.cache[i]) else v.itab[i])
  }

  lemma SeenAt(v: SysState, i: u32)
    requires i < INODES
    ensures Decode(Seen(v)[i]) == if i in v.cache then v.cache[i] else Decode(v.itab[i])
  {
    hide Encode, Decode;
    if i in v.cache {
      DecodeEncode(v.cache[i]);
    }
  }

  lemma KernelSees(k: Kernel, s: set<nat>)
    ensures Sees(k, Seen(Observe(k)), s)
  {
    hide Decode, Seen;
    forall i: u32 | i as nat in s && i < INODES ensures k.Current(i) == Decode(Seen(Observe(k))[i]) {
      SeenAt(Observe(k), i);
    }
  }

  /** Cached inodes are as on disk, or as they were before they grew. */
  ghost predicate Aged(v: SysState)
  {
    forall i :: i in v.cache && i < INODES && Taken(v.ibm, i) ==> Older(v.cache[i], Decode(v.itab[i]))
  }

  lemma AgedAll(v: SysState, s: set<nat>)
    requires FsOk(v.ibm, v.itab, v.dbm, v.data) && Aged(v) && AllTaken(v.ibm, s)
    ensures AllOlder(Seen(v), v.itab, s)
  {
    hide FsOk, Decode, Seen;
    forall i: u32 | i as nat in s && i < INODES ensures Older(Decode(Seen(v)[i]), Decode(v.itab[i])) {
      SeenAt(v, i);
      FsOkInode(v.ibm, v.itab, v.dbm, v.data, i);
    }
  }

  /** Where nothing is stale the kernel sees the inodes as they are. */
  lemma CurrentCountsAgree(v: SysState, s: set<nat>)
    requires NoneStale(v, s) && AllTaken(v.ibm, s)
    ensures CountsAgree(v.itab, Seen(v), s)
  {
    hide Decode, Seen, NBlocks;
    forall i: u32 | i as nat in s && i < INODES ensures Decode(Seen(v)[i]) == Decode(v.itab[i]) {
      SeenAt(v, i);
      assert !StaleAt(v, i);
    }
  }

  /** t is the subtree at n, and slot q of p, which is outside it, is the one entry that leads into it. */
  ghost predicate Hangs(ibm: InodeBitmap, itab: InodeTable, data: Blocks, s: Shape, t: Tree, p: u32, q: nat)
  {
    && p < INODES && Taken(ibm, p) && IsDir(Decode(itab[p]))
    && TreeAt(itab, data, t) && Distinct(t) && AllTaken(ibm, Inums(t))
    && p as nat !in Inums(t) && (forall i: nat :: i <= ROOTINUM as nat ==> i !in Inums(t)) && t.inum > ROOTINUM
    && OnlyReference(ibm, itab, data, Inums(t), p, q)
    && Below(ListingsOf(ibm, itab, data), s, t.inum, Inums(t))
  }

  /** In a forest, whatever a path leads to is a subtree that hangs from one entry. */
  lemma PathLeadsToTree(ibm: InodeBitmap, itab: InodeTable, dbm: DataBitmap, data: Blocks, s: Shape, euid: Name,
                        comps: seq<Name>)
    returns (t: Tree, p: u32, q: nat)
    requires FsOk(ibm, itab, dbm, data) && TreeOk(ibm, itab, data, s) && CleanPath(comps) && comps != []
    requires Resolve(itab, data, euid, ROOTINUM, comps).Found?
    ensures LastStep(itab, data, euid, comps, p, t.inum, q) && Hangs(ibm, itab, data, s, t, p, q)
  {
    hide FsOk, Decode, Slots, Entries, NBlocks, IsForest, Below, EntryOf, Resolve, Inums, TreeAt, Distinct, ListTree,
      OnlyReference, FirstNamed;
    var ls := ListingsOf(ibm, itab, data);
    FsOkHasFirst(ibm, itab, dbm, data);
    p, q := ResolvedSlot(itab, data, euid, comps);
    var n := Resolve(itab, data, euid, ROOTINUM, comps).inum;
    ResolveIsTaken(ibm, itab, dbm, data, euid, ROOTINUM, DirOf(comps));
    ResolveIsTaken(ibm, itab, dbm, data, euid, ROOTINUM, comps);
    TakenInRange(ibm, n);
    var slots := Slots(Decode(itab[p]), data);
    NamedIsKid(ls, s, p, slots, BaseOf(comps), q);
    ForestParts(ls, s, n);
    t := TreeFrom(ls, n, s.top);
    TreeFromIsTree(ls, s, n, s.top);
    ListTreeIsTreeAt(ibm, itab, dbm, data, t);
    ParentIsOutside(ls, s, n, p, Inums(t));
    ReferredToOnce(ibm, itab, dbm, data, s, t, p, q);
    BelowIsTaken(ibm, itab, data, s, n, Inums(t));
  }

  /** There is only one subtree at an inode. */
  lemma {:induction false} TreeAtUnique(itab: InodeTable, data: Blocks, a: Tree, b: Tree)
    requires TreeAt(itab, data, a) && TreeAt(itab, data, b) && a.inum == b.inum
    ensures a == b
    decreases a
  {
    hide Decode, Slots, Entries, NBlocks, Kids, DirOk;
    assert |a.kids| == |b.kids|;
    forall q | 0 <= q < |a.kids| ensures a.kids[q] == b.kids[q] {
      TreeAtUnique(itab, data, a.kids[q], b.kids[q]);
    }
  }

  /** ... so that is what any successful removal of the path removes. */
  lemma RemovedHangs(ibm: InodeBitmap, itab: InodeTable, dbm: DataBitmap, data: Blocks, s: Shape, euid: Name,
                     comps: seq<Name>, t: Tree, p: u32, q: nat)
    requires FsOk(ibm, itab, dbm, data) && TreeOk(ibm, itab, data, s) && CleanPath(comps) && TreeAt(itab, data, t)
    requires LastStep(itab, data, euid, comps, p, t.inum, q)
    ensures Hangs(ibm, itab, data, s, t, p, q)
  {
    hide FsOk, Decode, Slots, NBlocks, TreeOk, Resolve, TreeAt, Named, Hangs;
    var t', p', q' := PathLeadsToTree(ibm, itab, dbm, data, s, euid, comps);
    HangsAt(ibm, itab, data, s, t', p', q');
    TreeAtUnique(itab, data, t, t');
    FirstNamedUnique(Slots(Decode(itab[p]), data), BaseOf(comps), q, q');
  }

  lemma HangsAt(ibm: InodeBitmap, itab: InodeTable, data: Blocks, s: Shape, t: Tree, p: u32, q: nat)
    requires Hangs(ibm, itab, data, s, t, p, q)
    ensures TreeAt(itab, data, t) && AllTaken(ibm, Inums(t)) && p < INODES
  {
  }

  /** What a path leads to can be removed. */
  lemma ForestRemovable(k: Kernel, s: Shape, euid: Name, comps: seq<Name>) returns (t: Tree, p: u32, q: nat)
    requires Ready(k) && TreeOk(k.fs.ibm, k.fs.itab, k.fs.data, s) && CleanPath(comps) && comps != []
    requires Aged(Observe(k))
    requires Resolve(k.fs.itab, k.fs.data, euid, ROOTINUM, comps).Found?
    ensures LastStep(k.fs.itab, k.fs.data, euid, comps, p, t.inum, q) && Removable(k, Seen(Observe(k)), t, p, t.inum, q)
  {
    hide FsOk, Decode, Shows, Resolve, TreeOk, Inums, TreeAt, Distinct, OnlyReference, Below, FirstNamed, Cached,
      Sees, AllOlder, Aged, Slots, NBlocks, Seen;
    t, p, q := PathLeadsToTree(k.fs.ibm, k.fs.itab, k.fs.dbm, k.fs.data, s, euid, comps);
    KernelSees(k, Inums(t));
    AgedAll(Observe(k), Inums(t));
  }

  lemma NamedIsKid(ls: Listings, s: Shape, p: nat, slots: seq<Slot>, name: Name, q: nat)
    requires IsForest(ls, s) && p in ls && ls[p] == Entries(slots) && name != DOT && name != DOTDOT
    requires FirstNamed(slots, name, q) && q < |slots|
    ensures var n := Get32(slots[q], 0);
      && !IsFree(slots[q]) && !Dotted(EntryOf(slots[q]).value) && EntryOf(slots[q]).value.inum == n
      && p in s.depth && n > ROOTINUM && n as nat in ls && n as nat in s.up && n as nat in s.depth
      && s.up[n as nat] == p && s.depth[n as nat] == s.depth[p] + 1 && ListsKid(ls, p, n as nat)
  {
    hide Entries;
    SlotEntry(slots, q);
    assert EntryFits(ls, s, p, ls[p][|Entries(slots[..q])|]);
  }

  lemma ParentIsOutside(ls: Listings, s: Shape, n: nat, p: nat, below: set<nat>)
    requires Below(ls, s, n, below) && n in s.depth && p in s.depth && s.depth[n] == s.depth[p] + 1
    ensures p !in below
  {
  }

  lemma BelowIsTaken(ibm: InodeBitmap, itab: InodeTable, data: Blocks, s: Shape, n: nat, below: set<nat>)
    requires Below(ListingsOf(ibm, itab, data), s, n, below) && n > ROOTINUM as nat
    ensures AllTaken(ibm, below) && (forall i: nat :: i <= ROOTINUM as nat ==> i !in below)
  {
    hide Decode, Listing;
  }

  // ---------- what the operations do to the listings ----------

  lemma ListingsAre(ibm: InodeBitmap, itab: InodeTable, data: Blocks, ls: Listings)
    requires forall j: nat :: j in ls <==> Taken(ibm, j)
    requires forall j: nat :: Taken(ibm, j) ==> j < INODES && ls[j] == Listing(itab, data, j)
    ensures ListingsOf(ibm, itab, data) == ls
  {
    hide Listing;
  }

  /** An inode whose record and blocks are untouched lists what it did. */
  lemma SameListing(ibm: InodeBitmap, itab: InodeTable, dbm: DataBitmap, data: Blocks, itab': InodeTable, data': Blocks,
                    j: nat)
    requires FsOk(ibm, itab, dbm, data) && Taken(ibm, j) && j < INODES
    requires Decode(itab'[j]) == Decode(itab[j]) && Untouched(Decode(itab[j]), data, data')
    ensures Listing(itab', data', j) == Listing(itab, data, j)
  {
    hide FsOk, Decode, Slots, Entries, NBlocks, Untouched;
    FsOkInode(ibm, itab, dbm, data, j);
    UntouchedSlots(Decode(itab[j]), data, data');
  }

  lemma EmptyListing(itab: InodeTable, data: Blocks, j: nat)
    requires j < INODES && Decode(itab[j]).size == 0
    ensures Listing(itab, data, j) == []
  {
    hide Decode;
    EmptyInode(Decode(itab[j]), data);
  }

  /** A path without dots ends at the root or at a child of its parent. */
  lemma {:induction false} ResolvedIsKid(ibm: InodeBitmap, itab: InodeTable, dbm: DataBitmap, data: Blocks, s: Shape,
                                         euid: Name, start: u32, comps: seq<Name>)
    requires FsOk(ibm, itab, dbm, data) && TreeOk(ibm, itab, data, s) && CleanPath(comps) && Taken(ibm, start)
    requires Resolve(itab, data, euid, start, comps).Found?
    requires start == ROOTINUM ||
      (start as nat in s.up && ListsKid(ListingsOf(ibm, itab, data), s.up[start as nat], start))
    ensures var r := Resolve(itab, data, euid, start, comps).inum;
      Taken(ibm, r) && (r == ROOTINUM || (r as nat in s.up && ListsKid(ListingsOf(ibm, itab, data), s.up[r as nat], r)))
    decreases comps
  {
    hide FsOk, Decode, Slots, Entries, NBlocks, IsForest, Lookup, OwnerString, DirSound, ListsKid, FirstNamed;
    if comps != [] {
      FsOkInode(ibm, itab, dbm, data, start);
      FoundIsTaken(Decode(itab[start]), data, ibm, comps[0]);
      var slots := Slots(Decode(itab[start]), data);
      var q := FirstNamedExists(slots, comps[0]);
      LookupIsFirstNamed(slots, comps[0], q);
      NamedIsKid(ListingsOf(ibm, itab, data), s, start, slots, comps[0], q);
      ResolvedIsKid(ibm, itab, dbm, data, s, euid, Get32(slots[q], 0), comps[1..]);
    }
  }

  /** Creating an entry for a new inode keeps the forest. */
  lemma MadeKeepsTree(ibm: InodeBitmap, itab: InodeTable, dbm: DataBitmap, data: Blocks, s: Shape, p: u32, name: Name,
                      i: u32, v: Ino, q: nat, ibm': InodeBitmap, itab': InodeTable, dbm': DataBitmap, data': Blocks)
    returns (s': Shape)
    requires FsOk(ibm, itab, dbm, data) && TreeOk(ibm, itab, data, s) && Taken(ibm, p) && IsDir(Decode(itab[p]))
    requires GrowsClean(Decode(itab[p]), data, dbm)
    requires MadeEntry(ibm, itab, dbm, data, p, name, i, v, q, ibm', itab', dbm', data') && v.size == 0 && name != DOT
    requires name != DOTDOT
    requires p == ROOTINUM || (p as nat in s.up && ListsKid(ListingsOf(ibm, itab, data), s.up[p as nat], p))
    ensures TreeOk(ibm', itab', data', s') && i as nat in s'.up && s'.up[i as nat] == p as nat
    ensures ListsKid(ListingsOf(ibm', itab', data'), p, i) && Listing(itab', data', i) == []
  {
    hide FsOk, Decode, Slots, Entries, NBlocks, IsForest, Listing, ListsKid, EntryAdded, GrowsClean, Sound,
      OthersKept, LowestFree;
    FsOkInode(ibm, itab, dbm, data, p);
    MadeFacts(ibm, itab, dbm, data, p, name, i, v, q, ibm', itab', dbm', data');
    var ls, e := ListingsOf(ibm, itab, data), DirEntry(i, name);
    var before, after := AddedEntries(Decode(itab[p]), data, dbm, e, Decode(itab'[p]), data', dbm', q);
    var ls' := ls[i as nat := []][p as nat := before + [e] + after];
    EntryAddedRewrites(Decode(itab[p]), data, dbm, e, Decode(itab'[p]), data', dbm', q);
    DirListing(itab, data, p);
    DirListing(itab', data', p);
    EmptyListing(itab', data', i);
    forall j: nat | Taken(ibm', j) ensures j < INODES && ls'[j] == Listing(itab', data', j) {
      TakenInRange(ibm', j);
      if j != p as nat && j != i as nat {
        OthersKeptAt(ibm, itab, data, data', p, j);
        SameListing(ibm, itab, dbm, data, itab', data', j);
      }
    }
    ListingsAre(ibm', itab', data', ls');
    AddLeaf(ls, s, p, i, before, e, after);
    ForestParts(ls, s, p);
    s' := Shape(s.up[i as nat := p as nat], s.depth[i as nat := s.depth[p as nat] + 1], s.top + 1);
    ListsMiddle(ls', p, before, e, after);
  }

  lemma DirListing(itab: InodeTable, data: Blocks, j: nat)
    requires j < INODES && IsDir(Decode(itab[j])) && NBlocks(Decode(itab[j]).size) <= MAXBLOCKS
    ensures Listing(itab, data, j) == Entries(Slots(Decode(itab[j]), data))
  {
  }

  lemma ListsMiddle(ls: Listings, p: nat, before: seq<DirEntry>, e: DirEntry, after: seq<DirEntry>)
    requires p in ls && ls[p] == before + [e] + after && !Dotted(e)
    ensures ListsKid(ls, p, e.inum as nat)
  {
    assert ls[p][|before|] == e;
  }

  /** ... and so does making a directory with its dot entries. */
  lemma MadeDirKeepsTree(ibm: InodeBitmap, itab: InodeTable, dbm: DataBitmap, data: Blocks, s: Shape, p: u32,
                         name: Name, i: u32, v: Ino, q: nat, ibm': InodeBitmap, itab': InodeTable, dbm': DataBitmap,
                         data': Blocks)
    returns (s': Shape)
    requires FsOk(ibm, itab, dbm, data) && TreeOk(ibm, itab, data, s) && Taken(ibm, p) && IsDir(Decode(itab[p]))
    requires GrowsClean(Decode(itab[p]), data, dbm)
    requires MadeInode(ibm, itab, dbm, data, p, name, i, v, q, ibm', itab', dbm', data') && v.size == 0 && IsDir(v)
    requires name != DOT && name != DOTDOT
    requires p == ROOTINUM || (p as nat in s.up && ListsKid(ListingsOf(ibm, itab, data), s.up[p as nat], p))
    ensures TreeOk(ibm', itab', data', s')
  {
    hide FsOk, Decode, Slots, Entries, NBlocks, IsForest, Listing, ListsKid, MadeEntry, GrowsClean, OthersKept,
      Rewritten, Compact, SlotBlock, NextBlock;
    var itab1, dbm1, data1 :|
      && MadeEntry(ibm, itab, dbm, data, p, name, i, v, q, ibm', itab1, dbm1, data1)
      && RecordSet(itab1, itab', i, Decode(itab'[i]))
      && FreshDir(v, dbm1, data1, i, p, Decode(itab'[i]), dbm', data')
      && OthersKept(ibm', itab1, data1, data', i);
    s' := MadeKeepsTree(ibm, itab, dbm, data, s, p, name, i, v, q, ibm', itab1, dbm1, data1);
    MadeFacts(ibm, itab, dbm, data, p, name, i, v, q, ibm', itab1, dbm1, data1);
    RewrittenKeepsMeta(v, data1, dbm1, Decode(itab'[i]).size, Decode(itab'[i]), data', dbm');
    DirListing(itab', data', i);
    var ls1, dot, dotdot := ListingsOf(ibm', itab1, data1), DirEntry(i, DOT), DirEntry(p, DOTDOT);
    var ls' := ls1[i as nat := [dot, dotdot]];
    forall j: nat | Taken(ibm', j) ensures j < INODES && ls'[j] == Listing(itab', data', j) {
      TakenInRange(ibm', j);
      if j != i as nat {
        MadeOthersWF(ibm, itab, dbm, data, p, name, i, v, q, ibm', itab1, dbm1, data1, j);
        OthersKeptAt(ibm', itab1, data1, data', i, j);
        UntouchedListing(itab1, data1, itab', data', j);
      }
    }
    ListingsAre(ibm', itab', data', ls');
    AddDots(ls1, s', p, i, dot, dotdot);
  }

  lemma UntouchedListing(itab: InodeTable, data: Blocks, itab': InodeTable, data': Blocks, j: nat)
    requires j < INODES && WF(Decode(itab[j]), data) && Decode(itab'[j]) == Decode(itab[j])
    requires Untouched(Decode(itab[j]), data, data')
    ensures Listing(itab', data', j) == Listing(itab, data, j)
  {
    hide Decode, Slots, Entries, Untouched, WF;
    UntouchedSlots(Decode(itab[j]), data, data');
  }

  lemma MadeOthersWF(ibm: InodeBitmap, itab: InodeTable, dbm: DataBitmap, data: Blocks, p: nat, name: Name, i: u32,
                     v: Ino, q: nat, ibm': InodeBitmap, itab': InodeTable, dbm': DataBitmap, data': Blocks, j: nat)
    requires FsOk(ibm, itab, dbm, data) && Taken(ibm, p) && Taken(ibm', j) && j != i as nat
    requires MadeEntry(ibm, itab, dbm, data, p, name, i, v, q, ibm', itab', dbm', data')
    ensures j < INODES && WF(Decode(itab'[j]), data')
  {
    hide FsOk, Decode, EntryAdded, OthersKept, LowestFree, WF, Untouched;
    TakenInRange(ibm', j);
    FsOkInode(ibm, itab, dbm, data, j);
    if j == p {
      ParentIsWF(ibm, itab, dbm, data, p, name, i, v, q, ibm', itab', dbm', data');
    } else {
      OthersKeptAt(ibm, itab, data, data', p, j);
      StaysWF(Decode(itab[j]), data, data');
    }
  }

  /** A leaked inode is a tree of its own. */
  lemma LeakKeepsTree(ibm: InodeBitmap, itab: InodeTable, dbm: DataBitmap, data: Blocks, s: Shape, v: Ino,
                      ibm': InodeBitmap, itab': InodeTable, dbm': DataBitmap, data': Blocks) returns (s': Shape)
    requires TreeOk(ibm, itab, data, s) && Leaked(ibm, itab, dbm, data, v, ibm', itab', dbm', data') && v.size == 0
    ensures TreeOk(ibm', itab', data', s')
  {
    hide Decode, IsForest, Listing, FullBelow;
    var i: nat :| LowestFree(ibm, i) && ROOTINUM as nat < i && InodeAdded(ibm, ibm', i) && RecordSet(itab, itab', i, v);
    var ls := ListingsOf(ibm, itab, data);
    EmptyListing(itab', data, i);
    forall j: nat | Taken(ibm', j) ensures j < INODES && ls[i := []][j] == Listing(itab', data', j) {
      TakenInRange(ibm', j);
      if j != i {
        RecordListing(itab, itab', data, j);
      }
    }
    ListingsAre(ibm', itab', data', ls[i := []]);
    AddLoose(ls, s, i);
    s' := Shape(s.up[i := 0], s.depth[i := 0], s.top);
  }

  lemma RecordListing(itab: InodeTable, itab': InodeTable, data: Blocks, j: nat)
    requires j < INODES && itab'[j] == itab[j]
    ensures Listing(itab', data, j) == Listing(itab, data, j)
  {
    hide Decode, Slots, Entries;
  }

  /** Writing a file changes no listing. */
  lemma SavedKeepsTree(ibm: InodeBitmap, itab: InodeTable, dbm: DataBitmap, data: Blocks, s: Shape, i: nat,
                       content: seq<byte>, itab': InodeTable, dbm': DataBitmap, data': Blocks)
    requires TreeOk(ibm, itab, data, s) && FileSaved(ibm, itab, dbm, data, i, content, itab', dbm', data')
    ensures TreeOk(ibm, itab', data', s)
  {
    hide Decode, Slots, Entries, NBlocks, IsForest, StoredAs, OthersKept;
    forall j: nat | Taken(ibm, j) ensures j < INODES && ListingsOf(ibm, itab, data)[j] == Listing(itab', data', j) {
      TakenInRange(ibm, j);
    }
    ListingsAre(ibm, itab', data', ListingsOf(ibm, itab, data));
  }

  /** Removing a subtree and its entry keeps the forest. */
  lemma RemovalKeepsTree(seen: InodeTable, ibm: InodeBitmap, itab: InodeTable, dbm: DataBitmap, data: Blocks, s: Shape,
                         p: u32, name: Name, n: u32, t: Tree, q: nat, ibm': InodeBitmap, dbm': DataBitmap,
                         data': Blocks)
    requires FsOk(ibm, itab, dbm, data) && TreeOk(ibm, itab, data, s) && Taken(ibm, p) && IsDir(Decode(itab[p]))
    requires UnlinkedAs(seen, ibm, itab, dbm, data, p, name, n, t, q, ibm', dbm', data')
    requires Below(ListingsOf(ibm, itab, data), s, n, Inums(t)) && n > ROOTINUM && p as nat !in Inums(t)
    ensures TreeOk(ibm', itab, data', s)
  {
    hide FsOk, Decode, Slots, Entries, NBlocks, IsForest, Listing, Below, Inums, OthersKept, BlocksFreed, SameMap, WF,
      FirstNamed, EntryOf;
    FsOkInode(ibm, itab, dbm, data, p);
    var ls, slots := ListingsOf(ibm, itab, data), Slots(Decode(itab[p]), data);
    FirstNamedIsUsed(slots, name, q);
    ClearRemovesOne(slots, q);
    var before, after, e := Entries(slots[..q]), Entries(slots[q + 1..]), EntryOf(slots[q]).value;
    DirListing(itab, data, p);
    DirListing(itab, data', p);
    var ls' := (ls - Inums(t))[p as nat := before + after];
    forall j: nat | Taken(ibm', j) ensures j < INODES && ls'[j] == Listing(itab, data', j) {
      TakenInRange(ibm', j);
      if j != p as nat {
        OthersKeptAt(ibm, itab, data, data', p, j);
        SameListing(ibm, itab, dbm, data, itab, data', j);
      }
    }
    ListingsAre(ibm', itab, data', ls');
    DropSubtree(ls, s, n, Inums(t), p, before, e, after);
  }

  lemma FirstNamedIsUsed(slots: seq<Slot>, name: Name, q: nat)
    requires FirstNamed(slots, name, q) && q < |slots|
    ensures !IsFree(slots[q]) && EntryOf(slots[q]).Some? && EntryOf(slots[q]).value.inum == Get32(slots[q], 0)
  {
  }

  // ---------- what the operations do to the volume ----------

  /** A new entry keeps the volume in order. */
  lemma MadeKeepsFsOk(ibm: InodeBitmap, itab: InodeTable, dbm: DataBitmap, data: Blocks, p: u32, name: Name, i: u32,
                      v: Ino, q: nat, ibm': InodeBitmap, itab': InodeTable, dbm': DataBitmap, data': Blocks)
    requires FsOk(ibm, itab, dbm, data) && Taken(ibm, p) && IsDir(Decode(itab[p]))
    requires GrowsClean(Decode(itab[p]), data, dbm)
    requires MadeEntry(ibm, itab, dbm, data, p, name, i, v, q, ibm', itab', dbm', data') && v.size == 0 && HasOps(v)
    ensures FsOk(ibm', itab', dbm', data')
  {
    hide FsOk, Decode, EntryAdded, GrowsClean, OthersKept, FullBelow;
    MadeFacts(ibm, itab, dbm, data, p, name, i, v, q, ibm', itab', dbm', data');
    var itab1 := itab[i := itab'[i]];
    NewInodeKeepsFsOk(ibm, itab, dbm, data, i, ibm', itab1, v);
    EntryAddedKeepsFsOk(ibm', itab1, dbm, data, p, DirEntry(i, name), itab', Decode(itab'[p]), dbm', data', q);
  }

  /** A listing of two allocated inodes in the first two slots makes a sound directory. */
  lemma TwoEntriesSound(ino: Ino, data: Blocks, ibm: InodeBitmap, a: DirEntry, b: DirEntry)
    requires NBlocks(ino.size) <= MAXBLOCKS && Compact(Slots(ino, data), 2) && DirOk(Slots(ino, data))
    requires Entries(Slots(ino, data)) == [a, b] && Taken(ibm, a.inum) && Taken(ibm, b.inum)
    ensures DirSound(ino, data, ibm)
  {
    hide Entries, EntryOf, NBlocks;
    var slots := Slots(ino, data);
    SlotEntry(slots, 0);
    SlotEntry(slots, 1);
    assert slots[..0] == [] && Entries([]) == [] by { NoEntries([]); }
    assert slots[..1] == [slots[0]];
    EntriesOne(slots[0]);
    EntryInum(slots[0]);
    EntryInum(slots[1]);
  }

  lemma EntryInum(s: Slot)
    requires !IsFree(s) && SlotOk(s)
    ensures EntryOf(s).Some? && EntryOf(s).value.inum == Get32(s, 0)
  {
  }

  lemma FreshDirSound(ibm: InodeBitmap, v: Ino, dbm: DataBitmap, data: Blocks, i: u32, p: u32, ino': Ino,
                      dbm': DataBitmap, data': Blocks)
    requires FreshDir(v, dbm, data, i, p, ino', dbm', data') && Taken(ibm, i) && Taken(ibm, p)
    ensures NBlocks(ino'.size) <= MAXBLOCKS && DirSound(ino', data', ibm)
    ensures Rewritten(v, data, dbm, ino'.size, ino', data', dbm')
  {
    hide Slots, Entries, Rewritten, SlotBlock, NextBlock, Compact, DirOk, DirSound;
    TwoEntriesSound(ino', data', ibm, DirEntry(i, DOT), DirEntry(p, DOTDOT));
  }

  /** A new directory keeps the volume in order. */
  lemma MadeDirKeepsFsOk(ibm: InodeBitmap, itab: InodeTable, dbm: DataBitmap, data: Blocks, p: u32, name: Name, i: u32,
                         v: Ino, q: nat, ibm': InodeBitmap, itab': InodeTable, dbm': DataBitmap, data': Blocks)
    requires FsOk(ibm, itab, dbm, data) && Taken(ibm, p) && IsDir(Decode(itab[p]))
    requires GrowsClean(Decode(itab[p]), data, dbm)
    requires MadeInode(ibm, itab, dbm, data, p, name, i, v, q, ibm', itab', dbm', data') && v.size == 0 && IsDir(v)
    ensures FsOk(ibm', itab', dbm', data')
  {
    hide FsOk, Decode, MadeEntry, GrowsClean, OthersKept, FreshDir, Rewritten, DirSound;
    var itab1, dbm1, data1 :|
      && MadeEntry(ibm, itab, dbm, data, p, name, i, v, q, ibm', itab1, dbm1, data1)
      && RecordSet(itab1, itab', i, Decode(itab'[i]))
      && FreshDir(v, dbm1, data1, i, p, Decode(itab'[i]), dbm', data')
      && OthersKept(ibm', itab1, data1, data', i);
    MadeKeepsFsOk(ibm, itab, dbm, data, p, name, i, v, q, ibm', itab1, dbm1, data1);
    MadeFacts(ibm, itab, dbm, data, p, name, i, v, q, ibm', itab1, dbm1, data1);
    FreshDirSound(ibm', v, dbm1, data1, i, p, Decode(itab'[i]), dbm', data');
    OneBlockSize(v, dbm1, data1, i, p, Decode(itab'[i]), dbm', data');
    RewriteKeepsFsOk(ibm', itab1, dbm1, data1, i, itab', Decode(itab'[i]), dbm', data');
  }

  lemma OneBlockSize(v: Ino, dbm: DataBitmap, data: Blocks, i: u32, p: u32, ino': Ino, dbm': DataBitmap, data': Blocks)
    requires FreshDir(v, dbm, data, i, p, ino', dbm', data')
    ensures ino'.size <= MAXSIZE
  {
    hide Slots, Entries, Rewritten, SlotBlock, NextBlock, Compact, DirOk;
    NBlocksIsCeiling(ino'.size);
  }

  /** A leaked inode keeps the volume in order. */
  lemma LeakKeepsFsOk(ibm: InodeBitmap, itab: InodeTable, dbm: DataBitmap, data: Blocks, v: Ino,
                      ibm': InodeBitmap, itab': InodeTable, dbm': DataBitmap, data': Blocks)
    requires FsOk(ibm, itab, dbm, data) && Leaked(ibm, itab, dbm, data, v, ibm', itab', dbm', data') && v.size == 0
    requires HasOps(v)
    ensures FsOk(ibm', itab', dbm', data')
  {
    hide FsOk, Decode, FullBelow;
    var i: nat :| LowestFree(ibm, i) && ROOTINUM as nat < i && InodeAdded(ibm, ibm', i) && RecordSet(itab, itab', i, v);
    NewInodeKeepsFsOk(ibm, itab, dbm, data, i, ibm', itab', v);
  }

  /** Writing a file keeps the volume in order. */
  lemma SavedKeepsFsOk(ibm: InodeBitmap, itab: InodeTable, dbm: DataBitmap, data: Blocks, i: nat, content: seq<byte>,
                       itab': InodeTable, dbm': DataBitmap, data': Blocks)
    requires FsOk(ibm, itab, dbm, data) && Taken(ibm, i) && i < INODES && !IsDir(Decode(itab[i]))
    requires FileSaved(ibm, itab, dbm, data, i, content, itab', dbm', data')
    ensures FsOk(ibm, itab', dbm', data')
  {
    hide FsOk, Decode, Rewritten, OthersKept, Content, SameTree;
    SavedHolds(ibm, itab, dbm, data, i, content, itab', dbm', data');
    RewriteKeepsFsOk(ibm, itab, dbm, data, i, itab', Decode(itab'[i]), dbm', data');
  }

  /** The parent that an entry goes to: the root or a child of its own parent. */
  lemma ParentIsKid(ibm: InodeBitmap, itab: InodeTable, dbm: DataBitmap, data: Blocks, s: Shape, euid: Name,
                    comps: seq<Name>)
    requires FsOk(ibm, itab, dbm, data) && TreeOk(ibm, itab, data, s)
    requires comps != [] && CleanPath(comps) && ParentFor(itab, data, euid, comps).Found?
    ensures var p := ParentFor(itab, data, euid, comps).inum;
      && Taken(ibm, p) && p < INODES && IsDir(Decode(itab[p])) && NBlocks(Decode(itab[p]).size) <= MAXBLOCKS
      && (p == ROOTINUM || (p as nat in s.up && ListsKid(ListingsOf(ibm, itab, data), s.up[p as nat], p)))
  {
    hide FsOk, Decode, IsForest, Resolve, ListsKid, Listing;
    assert CleanPath(DirOf(comps));
    FsOkHasFirst(ibm, itab, dbm, data);
    ResolvedIsKid(ibm, itab, dbm, data, s, euid, ROOTINUM, DirOf(comps));
    FsOkInode(ibm, itab, dbm, data, ParentFor(itab, data, euid, comps).inum);
  }

  /** A failed creation. */
  lemma FailureKeepsTree(ibm: InodeBitmap, itab: InodeTable, dbm: DataBitmap, data: Blocks, s: Shape, v: Ino,
                         r: MakeResult, ibm': InodeBitmap, itab': InodeTable, dbm': DataBitmap, data': Blocks)
    returns (s': Shape)
    requires TreeOk(ibm, itab, data, s) && v.size == 0 && !r.Made? && r != LinkFailed(DirPanicked)
    requires Failure(ibm, itab, dbm, data, v, r, ibm', itab', dbm', data')
    ensures TreeOk(ibm', itab', data', s')
  {
    hide TreeOk;
    s' := s;
    if r.LinkFailed? {
      s' := LeakKeepsTree(ibm, itab, dbm, data, s, v, ibm', itab', dbm', data');
    }
  }

  /** A fresh disk is a forest. */
  lemma FlatForest(k: Kernel, s: Shape)
    requires forall i: nat :: Taken(k.fs.ibm, i) <==> i <= ROOTINUM as nat
    requires s == Shape(map[0 := 0, 1 := 0, 2 := 0], map[0 := 0, 1 := 0, 2 := 0], 0)
    requires forall i: nat :: i <= ROOTINUM as nat ==> Decode(k.fs.itab[i]).size == 0
    ensures TreeOk(k.fs.ibm, k.fs.itab, k.fs.data, s)
  {
    hide Decode, Listing;
    var ls := ListingsOf(k.fs.ibm, k.fs.itab, k.fs.data);
    forall j: nat | j in ls ensures ls[j] == [] {
      EmptyListing(k.fs.itab, k.fs.data, j);
    }
  }
}

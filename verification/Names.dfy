/** Names in a directory: what createFile, mkDir and removeAll do to their uniqueness (computer/kernel.go:679-789). */
module Names {
  import opened Bytes
  import opened Bitmap
  import opened Layout
  import opened Inodes
  import opened BlockMap
  import opened Allocator
  import opened Dir
  import opened Paths
  import opened Keeps
  import opened Syscalls

  ghost predicate Unique(es: seq<DirEntry>)
  {
    forall a, b :: 0 <= a < b < |es| ==> es[a].name != es[b].name
  }

  /** Lookup finds nothing iff no entry has the name. */
  lemma {:induction false} LookupNoneIffAbsent(es: seq<DirEntry>, name: Name)
    ensures Lookup(es, name) == None <==> forall a :: 0 <= a < |es| ==> es[a].name != name
  {
    if es != [] && es[0].name != name {
      LookupNoneIffAbsent(es[1..], name);
      assert forall a :: 0 < a < |es| ==> es[a] == es[1..][a - 1];
    }
  }

  lemma {:induction false} FirstIsFound(es: seq<DirEntry>, name: Name, q: nat)
    requires q < |es| && es[q].name == name && forall j :: 0 <= j < q ==> es[j].name != name
    ensures Lookup(es, name) == Some(es[q].inum)
  {
    if q > 0 {
      assert forall j :: 0 <= j < q - 1 ==> es[1..][j] == es[j + 1];
      FirstIsFound(es[1..], name, q - 1);
    }
  }

  lemma UniqueIffAbsent(before: seq<DirEntry>, e: DirEntry, after: seq<DirEntry>)
    ensures Unique(before + [e] + after) <==> Unique(before + after) && Lookup(before + after, e.name) == None
  {
    var es, es', n := before + after, before + [e] + after, |before|;
    LookupNoneIffAbsent(es, e.name);
    assert forall a :: 0 <= a < |es| ==> es[a] == es'[if a < n then a else a + 1];
    assert es'[n] == e;
    assert forall a :: 0 <= a < |es'| && a != n ==> es'[a] == es[if a < n then a else a - 1];
  }

  /** addDentry on the listing, in place or with growth: one entry more, the others in the same order. */
  lemma AddedEntries(ino: Ino, data: Blocks, dbm: DataBitmap, e: DirEntry, ino': Ino, data': Blocks, dbm': DataBitmap,
                     q: nat)
    returns (before: seq<DirEntry>, after: seq<DirEntry>)
    requires e.inum != 0 && Sound(ino, data, dbm) && EntryAdded(ino, data, dbm, e, ino', data', dbm', q)
    requires GrowsClean(ino, data, dbm)
    ensures NBlocks(ino.size) <= MAXBLOCKS && NBlocks(ino'.size) <= MAXBLOCKS
    ensures Entries(Slots(ino, data)) == before + after
    ensures Entries(Slots(ino', data')) == before + [e] + after
  {
    hide EntryAdded, GrowsClean, Sound, Slots, NBlocks, Entries, EntryOf;
    var all := AddedSlots(ino, data, dbm, e, ino', data', dbm', q);
    EntryRoundTrip(e);
    var n := |Slots(ino, data)|;
    FillAddsOne(all, q, EntrySlot(e));
    before, after := Entries(all[..q]), Entries(all[q + 1..]);
    NoEntries(all[n..]);
    EntriesConcat(all[..n], all[n..]);
    assert all == all[..n] + all[n..];
  }

  /** Creation goes past the first ResolvePath, given a parent that takes new entries,
      iff the caller may not search the parent or the name is not there. */
  lemma CreationProceedsIff(itab: InodeTable, data: Blocks, euid: Name, comps: seq<Name>)
    requires comps != [] && ParentFor(itab, data, euid, comps).Found?
    requires var p := ParentFor(itab, data, euid, comps).inum; p < INODES && NBlocks(Decode(itab[p]).size) <= MAXBLOCKS
    ensures var dir := Decode(itab[ParentFor(itab, data, euid, comps).inum]);
      Resolve(itab, data, euid, ROOTINUM, comps).Failed? <==>
        !CanExecute(euid, dir) || Lookup(Entries(Slots(dir, data)), BaseOf(comps)) == None
  {
    hide Slots, Decode, Lookup, Entries, CanExecute, CanWrite;
    var p := ParentFor(itab, data, euid, comps).inum;
    ResolveLast(itab, data, euid, ROOTINUM, comps);
    var r := Lookup(Entries(Slots(Decode(itab[p]), data)), BaseOf(comps));
    assert [BaseOf(comps)][1..] == [];
    if r.Some? {
      ResolveNothing(itab, data, euid, r.value);
    }
  }

  /** A creation that goes through keeps the parent's names unique iff the caller may search the parent or the name was
      not there. The code does not ask for execute permission on the parent. */
  lemma CreateKeepsNamesUniqueIff(ibm: InodeBitmap, itab: InodeTable, dbm: DataBitmap, data: Blocks, euid: Name,
                                  comps: seq<Name>, i: u32, v: Ino, q: nat, ibm': InodeBitmap, itab': InodeTable,
                                  dbm': DataBitmap, data': Blocks)
    requires FsOk(ibm, itab, dbm, data) && comps != [] && Resolve(itab, data, euid, ROOTINUM, comps).Failed?
    requires ParentFor(itab, data, euid, comps).Found? && Taken(ibm, ParentFor(itab, data, euid, comps).inum)
    requires var p := ParentFor(itab, data, euid, comps).inum;
      && MadeEntry(ibm, itab, dbm, data, p, BaseOf(comps), i, v, q, ibm', itab', dbm', data')
      && GrowsClean(Decode(itab[p]), data, dbm)
      && NBlocks(Decode(itab[p]).size) <= MAXBLOCKS && Unique(Entries(Slots(Decode(itab[p]), data)))
    ensures var p := ParentFor(itab, data, euid, comps).inum;
      && NBlocks(Decode(itab'[p]).size) <= MAXBLOCKS
      && (Unique(Entries(Slots(Decode(itab'[p]), data'))) <==>
           CanExecute(euid, Decode(itab[p])) || Lookup(Entries(Slots(Decode(itab[p]), data)), BaseOf(comps)) == None)
  {
    hide FsOk, Resolve, Slots, Decode, Lookup, Entries, CanExecute, CanWrite, Sound, GrowsClean, EntryAdded, Unique,
      OthersKept;
    var p := ParentFor(itab, data, euid, comps).inum;
    FsOkInode(ibm, itab, dbm, data, p);
    CreationProceedsIff(itab, data, euid, comps);
    var e := DirEntry(i, BaseOf(comps));
    var before, after := AddedEntries(Decode(itab[p]), data, dbm, e, Decode(itab'[p]), data', dbm', q);
    UniqueIffAbsent(before, e, after);
  }

  /** Clearing a slot keeps unique names unique. */
  lemma RemoveKeepsNamesUnique(slots: seq<Slot>, k: nat)
    requires k < |slots| && !IsFree(slots[k]) && Unique(Entries(slots))
    ensures Unique(Entries(slots[k := FREESLOT]))
    ensures Lookup(Entries(slots[k := FREESLOT]), EntryOf(slots[k]).value.name) == None
  {
    hide Entries;
    ClearRemovesOne(slots, k);
    UniqueIffAbsent(Entries(slots[..k]), EntryOf(slots[k]).value, Entries(slots[k + 1..]));
  }
}

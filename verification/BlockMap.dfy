/** The per-inode block map: twelve direct pointers and three flat tables of 1024 pointers
    (computer/fs_falloc.go:17-32, computer/fs_fd.go:34-56), and which blocks an inode owns. */
module BlockMap {
  import opened Bytes
  import opened Layout
  import opened Inodes

  const PTRS := 1024
  const FIND := 12
  const SIND := 1036
  const TIND := 2060
  const MAXBLOCKS := 3084

  /** Blocks of a file of `size` bytes, in 32-bit arithmetic (computer/fs_falloc.go:69-72). */
  function NBlocks(size: u32): nat
  {
    (size as int + BLOCKSIZE - 1) % U32 / BLOCKSIZE
  }

  /** The block count is the rounded-up quotient exactly when the sum does not wrap. */
  lemma NBlocksIsCeiling(size: u32)
    ensures NBlocks(size) * BLOCKSIZE >= size > (NBlocks(size) as int - 1) * BLOCKSIZE <==> size <= U32 - BLOCKSIZE
    ensures size > U32 - BLOCKSIZE ==> NBlocks(size) == 0
    ensures NBlocks(0xffff_ffff) == 0
  {
    if size > U32 - BLOCKSIZE {
      assert size as int + BLOCKSIZE - 1 - U32 < BLOCKSIZE;
      assert (size as int + BLOCKSIZE - 1) % U32 == size as int + BLOCKSIZE - 1 - U32;
    }
  }

  /** Place 0 is the direct area, places 1 to 3 the indirect tables. */
  function VirtualToPlaceRelative(v: u32): (u32, nat)
  {
    if v > 11 && v < 1036 then (v - 12, 1)
    else if v >= 1036 && v < 2060 then (v - 1036, 2)
    else if v >= 2060 then (v - 2060, 3)
    else (v, 0)
  }

  function Capacity(place: nat): nat
  {
    if place == 0 then NDIRECT else PTRS
  }

  function FromPlace(rel: u32, place: nat): nat
    requires place <= 3
  {
    rel + [0, FIND, SIND, TIND][place]
  }

  /** The place map is a bijection from the 3084 virtual blocks onto the slots of the four places. */
  lemma PlacesAreABijection(v: u32, rel: u32, place: nat)
    requires v < MAXBLOCKS && place <= 3 && rel < Capacity(place)
    ensures var (r, p) := VirtualToPlaceRelative(v); p <= 3 && r < Capacity(p) && FromPlace(r, p) == v
    ensures FromPlace(rel, place) < MAXBLOCKS && VirtualToPlaceRelative(FromPlace(rel, place)) == (rel, place)
  {
  }

  // ---------- the four areas of the map ----------

  function Ptr(tab: Block, k: nat): u32
    requires k < PTRS
  {
    Get32(tab, 4 * k)
  }

  function SetPtr(tab: Block, k: nat, b: u32): (r: Block)
    requires k < PTRS
    ensures forall j :: 0 <= j < PTRS ==> Ptr(r, j) == if j == k then b else Ptr(tab, j)
  {
    var r := Splice(tab, 4 * k, Enc32(b));
    assert Get32(r, 4 * k) == Get32(Enc32(b), 0);
    r
  }

  /** The block number stored for virtual block v, given the direct area and the contents of the three tables. */
  function MapAt(direct: Direct, f: Block, s: Block, t: Block, v: nat): u32
    requires v < MAXBLOCKS
  {
    if v < FIND then direct[v]
    else if v < SIND then Ptr(f, v - FIND)
    else if v < TIND then Ptr(s, v - SIND)
    else Ptr(t, v - TIND)
  }

  // ---------- slots and ownership ----------

  // A slot names one thing an inode may own: slot v < 3084 is virtual block v, the next three are its tables.
  const FINDSLOT := 3084
  const SINDSLOT := 3085
  const TINDSLOT := 3086
  const NSLOTS := 3087

  /** Slot s is in use in an inode of n blocks. */
  predicate Live(n: nat, s: nat)
  {
    if s < MAXBLOCKS then s < n
    else if s == FINDSLOT then n > FIND
    else if s == SINDSLOT then n > SIND
    else s == TINDSLOT && n > TIND
  }

  function B2N(b: bool): nat { if b then 1 else 0 }

  /** Blocks and tables an inode of n blocks owns. */
  function Need(n: nat): nat
  {
    n + B2N(n > FIND) + B2N(n > SIND) + B2N(n > TIND)
  }

  /** The physical block in slot s. */
  function SlotBlock(ino: Ino, data: Blocks, s: nat): nat
    requires s < NSLOTS
  {
    if s < MAXBLOCKS then MapAt(ino.direct, BlockAt(data, ino.find), BlockAt(data, ino.sind), BlockAt(data, ino.tind),
                                s)
    else if s == FINDSLOT then ino.find
    else if s == SINDSLOT then ino.sind
    else ino.tind
  }

  ghost predicate LiveSlot(ino: Ino, s: nat)
  {
    s < NSLOTS && Live(NBlocks(ino.size), s)
  }

  /** Every live block of the inode is in range and no two slots share one. */
  ghost predicate WF(ino: Ino, data: Blocks)
  {
    && NBlocks(ino.size) <= MAXBLOCKS
    && (forall s: nat :: LiveSlot(ino, s) ==> SlotBlock(ino, data, s) < BLOCKS)
    && (forall s: nat, t: nat ::
          LiveSlot(ino, s) && LiveSlot(ino, t) && SlotBlock(ino, data, s) == SlotBlock(ino, data, t) ==> s == t)
  }

  /** The data blocks and tables the inode owns. */
  ghost function Own(ino: Ino, data: Blocks): set<nat>
  {
    set s: nat | s < NSLOTS && LiveSlot(ino, s) :: SlotBlock(ino, data, s)
  }

  /** b is one of the inode's live tables. */
  ghost predicate IsTable(ino: Ino, b: nat)
  {
    || (LiveSlot(ino, FINDSLOT) && b == ino.find)
    || (LiveSlot(ino, SINDSLOT) && b == ino.sind)
    || (LiveSlot(ino, TINDSLOT) && b == ino.tind)
  }

  /** The block map only reads the direct area and the live tables. */
  lemma SlotsDependOnTables(a: Ino, b: Ino, data: Blocks, data': Blocks, s: nat)
    requires LiveSlot(a, s) && NBlocks(a.size) <= MAXBLOCKS
    requires a.direct == b.direct && a.find == b.find && a.sind == b.sind && a.tind == b.tind
    requires forall t: nat :: t < BLOCKS && IsTable(a, t) ==> data'[t] == data[t]
    ensures SlotBlock(b, data', s) == SlotBlock(a, data, s)
  {
    if FIND <= s < SIND {
      assert BlockAt(data', a.find) == BlockAt(data, a.find);
    } else if SIND <= s < TIND {
      assert BlockAt(data', a.sind) == BlockAt(data, a.sind);
    } else if TIND <= s < MAXBLOCKS {
      assert BlockAt(data', a.tind) == BlockAt(data, a.tind);
    }
  }

  /** Nothing about an inode changes when its tables keep their contents. */
  lemma OwnFrame(a: Ino, data: Blocks, data': Blocks)
    requires NBlocks(a.size) <= MAXBLOCKS
    requires forall t: nat :: t < BLOCKS && IsTable(a, t) ==> data'[t] == data[t]
    ensures forall s: nat :: LiveSlot(a, s) ==> SlotBlock(a, data', s) == SlotBlock(a, data, s)
    ensures Own(a, data') == Own(a, data)
    ensures WF(a, data) <==> WF(a, data')
  {
    forall s: nat | LiveSlot(a, s) ensures SlotBlock(a, data', s) == SlotBlock(a, data, s) {
      SlotsDependOnTables(a, a, data, data', s);
    }
  }

  lemma OwnHas(ino: Ino, data: Blocks, s: nat)
    requires LiveSlot(ino, s)
    ensures SlotBlock(ino, data, s) in Own(ino, data)
  {
  }

  lemma SlotOf(ino: Ino, data: Blocks, b: nat) returns (s: nat)
    requires b in Own(ino, data)
    ensures LiveSlot(ino, s) && SlotBlock(ino, data, s) == b
  {
    s :| s < NSLOTS && LiveSlot(ino, s) && SlotBlock(ino, data, s) == b;
  }

  lemma TablesAreOwned(ino: Ino, data: Blocks, b: nat)
    requires IsTable(ino, b)
    ensures b in Own(ino, data)
  {
    if LiveSlot(ino, FINDSLOT) && b == ino.find {
      OwnHas(ino, data, FINDSLOT);
    } else if LiveSlot(ino, SINDSLOT) && b == ino.sind {
      OwnHas(ino, data, SINDSLOT);
    } else {
      OwnHas(ino, data, TINDSLOT);
    }
  }

  // ---------- counting ----------

  ghost function LiveSlots(ino: Ino): set<nat>
  {
    set s: nat | s < NSLOTS && LiveSlot(ino, s)
  }

  ghost function Upto(n: nat): (r: set<nat>)
    ensures forall k: nat :: k in r <==> k < n
    ensures |r| == n
  {
    if n == 0 then {} else Upto(n - 1) + {n - 1}
  }

  lemma CountLiveSlots(ino: Ino)
    requires NBlocks(ino.size) <= MAXBLOCKS
    ensures |LiveSlots(ino)| == Need(NBlocks(ino.size))
  {
    var n := NBlocks(ino.size);
    var a := Upto(n);
    var b := a + (if n > FIND then {FINDSLOT} else {});
    var c := b + (if n > SIND then {SINDSLOT} else {});
    var d := c + (if n > TIND then {TINDSLOT} else {});
    assert LiveSlots(ino) == d;
  }

  lemma {:induction false} CardOfImage(ino: Ino, data: Blocks, ss: set<nat>, bs: set<nat>)
    requires WF(ino, data) && (forall s :: s in ss ==> LiveSlot(ino, s))
    requires forall s :: s in ss ==> SlotBlock(ino, data, s) in bs
    requires forall b :: b in bs ==> exists s :: s in ss && SlotBlock(ino, data, s) == b
    ensures |bs| == |ss|
  {
    if ss == {} {
      assert bs == {} by {
        if b :| b in bs {
          assert false;
        }
      }
    } else {
      var s :| s in ss;
      CardOfImage(ino, data, ss - {s}, bs - {SlotBlock(ino, data, s)});
    }
  }

  /** An inode of n blocks owns exactly Need(n) blocks. */
  lemma OwnCount(ino: Ino, data: Blocks)
    requires WF(ino, data)
    ensures |Own(ino, data)| == Need(NBlocks(ino.size))
  {
    CountLiveSlots(ino);
    CardOfImage(ino, data, LiveSlots(ino), Own(ino, data));
  }
}

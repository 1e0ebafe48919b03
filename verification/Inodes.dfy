/** The inode record and its 128-byte on-disk form (computer/fs_inode.go, FILESYSTEM.md). */
module Inodes {
  import opened Bytes
  import opened Layout

  const S_IFREG: byte := 0
  const S_IFDIR: byte := 1
  const OWNERLEN := 14
  const NDIRECT := 12

  type Owner = s: seq<byte> | |s| == OWNERLEN witness Fill(OWNERLEN, 0)
  type Direct = s: seq<u32> | |s| == NDIRECT witness Fill(NDIRECT, 0)

  /** The persisted fields of an inode. */
  datatype Ino = Ino(size: u32, fType: byte, refs: u16, owner: Owner, setuid: bool,
                     ownerMode: byte, otherMode: byte, direct: Direct,
                     find: u32, sind: u32, tind: u32, createdAt: u64, modifiedAt: u64)

  /** `name` in the NUL-padded owner field, cut to 13 bytes. */
  function OwnerBytes(name: seq<byte>): Owner
  {
    var cut := if |name| > 13 then name[..13] else name;
    cut + Fill(OWNERLEN - |cut|, 0)
  }

  /** The owner field up to its first NUL. */
  function OwnerString(owner: seq<byte>): (r: seq<byte>)
    ensures r <= owner && 0 !in r
    ensures |r| < |owner| ==> owner[|r|] == 0
  {
    if owner == [] || owner[0] == 0 then [] else [owner[0]] + OwnerString(owner[1..])
  }

  /** A user name comes back from the owner field cut at 13 bytes and at its first NUL, so unchanged iff it is short
      enough and has no NUL. */
  lemma OwnerRoundTrip(name: seq<byte>)
    ensures OwnerString(OwnerBytes(name)) == OwnerString(if |name| > 13 then name[..13] else name)
    ensures OwnerString(OwnerBytes(name)) == name <==> |name| <= 13 && 0 !in name
  {
    hide OwnerString, Fill;
    var cut := if |name| > 13 then name[..13] else name;
    OwnerStringOfPadded(cut, OWNERLEN - |cut|);
    if |name| <= 13 {
      NulFreeIff(name);
    }
  }

  lemma NulFreeIff(name: seq<byte>)
    ensures OwnerString(name) == name <==> 0 !in name
  {
    hide OwnerString;
    if 0 !in name {
      WithoutNul(name);
    }
  }

  lemma {:induction false} OwnerStringOfPadded(name: seq<byte>, pad: nat)
    requires pad > 0
    ensures OwnerString(name + Fill(pad, 0)) == OwnerString(name)
  {
    if name != [] {
      assert (name + Fill(pad, 0))[1..] == name[1..] + Fill(pad, 0);
      OwnerStringOfPadded(name[1..], pad);
    }
  }

  lemma {:induction false} WithoutNul(name: seq<byte>)
    requires 0 !in name
    ensures OwnerString(name) == name
  {
    if name != [] {
      WithoutNul(name[1..]);
    }
  }

  // ---------- the 128 bytes ----------

  function EncWords(ws: seq<u32>): (r: seq<byte>)
    ensures |r| == 4 * |ws|
  {
    if ws == [] then [] else EncWords(ws[..|ws| - 1]) + Enc32(ws[|ws| - 1])
  }

  function EncHead(v: Ino): (r: seq<byte>)
    ensures |r| == 24
  {
    Enc32(v.size) + [v.fType] + Enc16(v.refs) + v.owner + [if v.setuid then 1 else 0, v.ownerMode, v.otherMode]
  }

  function EncTail(v: Ino): (r: seq<byte>)
    ensures |r| == 28
  {
    Enc32(v.find) + Enc32(v.sind) + Enc32(v.tind) + Enc64(v.createdAt) + Enc64(v.modifiedAt)
  }

  function Encode(v: Ino): InodeRecord
  {
    EncHead(v) + EncWords(v.direct) + EncTail(v) + Fill(28, 0)
  }

  function DecWords(s: seq<byte>, off: nat, n: nat): seq<u32>
    requires off + 4 * n <= |s|
  {
    seq(n, i requires 0 <= i < n => Get32(s, off + 4 * i))
  }

  function Decode(rec: InodeRecord): Ino
  {
    Ino(Get32(rec, 0), rec[4], Get16(rec, 5), rec[7..21], rec[21] == 1, rec[22], rec[23],
        DecWords(rec, 24, NDIRECT), Get32(rec, 72), Get32(rec, 76), Get32(rec, 80),
        Get64(rec, 84), Get64(rec, 92))
  }

  lemma {:induction false} EncWordsAt(ws: seq<u32>, i: nat)
    requires i < |ws|
    ensures EncWords(ws)[4 * i..4 * i + 4] == Enc32(ws[i])
  {
    var k := |ws| - 1;
    if i < k {
      EncWordsAt(ws[..k], i);
      assert EncWords(ws)[4 * i..4 * i + 4] == EncWords(ws[..k])[4 * i..4 * i + 4];
    }
  }

  lemma Get32OfSlice(s: seq<byte>, off: nat, v: u32)
    requires off + 4 <= |s| && s[off..off + 4] == Enc32(v)
    ensures Get32(s, off) == v
  {
    var t := s[off..off + 4];
    assert forall k :: 0 <= k < 4 ==> t[k] == s[off + k];
    assert Get32(s, off) == Get32(Enc32(v), 0);
  }

  lemma Get64OfSlice(s: seq<byte>, off: nat, v: u64)
    requires off + 8 <= |s| && s[off..off + 8] == Enc64(v)
    ensures Get64(s, off) == v
  {
    var t := s[off..off + 8];
    assert forall k :: 0 <= k < 8 ==> t[k] == s[off + k];
    assert Get64(s, off) == Get64(Enc64(v), 0);
  }

  /** Where each field lies in the encoding. */
  lemma EncodeLayout(v: Ino)
    ensures var e := Encode(v);
      && e[..24] == EncHead(v)
      && e[24..72] == EncWords(v.direct)
      && e[72..100] == EncTail(v)
      && e[100..] == Fill(28, 0)
  {
  }

  lemma HeadLayout(v: Ino)
    ensures var h := EncHead(v);
      && h[0..4] == Enc32(v.size) && h[4] == v.fType && h[5..7] == Enc16(v.refs) && h[7..21] == v.owner
      && h[21] == (if v.setuid then 1 else 0) && h[22] == v.ownerMode && h[23] == v.otherMode
  {
  }

  lemma TailLayout(v: Ino)
    ensures var t := EncTail(v);
      && t[0..4] == Enc32(v.find) && t[4..8] == Enc32(v.sind) && t[8..12] == Enc32(v.tind)
      && t[12..20] == Enc64(v.createdAt) && t[20..28] == Enc64(v.modifiedAt)
  {
  }

  lemma SubSlice(s: seq<byte>, a: nat, b: nat, c: nat, d: nat)
    requires a + c <= a + d <= b <= |s|
    ensures s[a + c..a + d] == s[a..b][c..d]
  {
    var t := s[a..b];
    assert forall k :: c <= k < d ==> t[k] == s[a + k];
  }

  /** The record read back is the record written. */
  lemma DecodeEncode(v: Ino)
    ensures Decode(Encode(v)) == v
  {
    var e := Encode(v);
    EncodeLayout(v);
    HeadLayout(v);
    TailLayout(v);
    SubSlice(e, 0, 24, 0, 4);
    Get32OfSlice(e, 0, v.size);
    SubSlice(e, 0, 24, 5, 7);
    assert Get16(e, 5) == v.refs by {
      assert e[5] == e[5..7][0] && e[6] == e[5..7][1];
    }
    SubSlice(e, 0, 24, 7, 21);
    assert forall k :: 0 <= k < 24 ==> e[k] == EncHead(v)[k];
    SubSlice(e, 72, 100, 0, 4);
    SubSlice(e, 72, 100, 4, 8);
    SubSlice(e, 72, 100, 8, 12);
    SubSlice(e, 72, 100, 12, 20);
    SubSlice(e, 72, 100, 20, 28);
    Get32OfSlice(e, 72, v.find);
    Get32OfSlice(e, 76, v.sind);
    Get32OfSlice(e, 80, v.tind);
    Get64OfSlice(e, 84, v.createdAt);
    Get64OfSlice(e, 92, v.modifiedAt);
    forall i | 0 <= i < NDIRECT ensures Decode(e).direct[i] == v.direct[i] {
      EncWordsAt(v.direct, i);
      SubSlice(e, 24, 72, 4 * i, 4 * i + 4);
      Get32OfSlice(e, 24 + 4 * i, v.direct[i]);
    }
    assert Decode(e).direct == v.direct;
  }
}

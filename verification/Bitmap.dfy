/** The free-space bitmaps: bit i lives in byte i/8 at position i%8 (computer/fs_falloc.go). */
module Bitmap {
  import opened Bytes

  /** Is bit i set? Bits outside the bitmap are not. */
  predicate Taken(bm: seq<byte>, i: nat)
  {
    i < 8 * |bm| && Bit(bm[i / 8], i % 8)
  }

  /** The set bits. */
  ghost function Used(bm: seq<byte>): set<nat>
  {
    set i: nat | i < 8 * |bm| && Taken(bm, i)
  }

  /** Two bitmaps of one length with the same bits are the same bytes. */
  lemma SameBits(a: seq<byte>, b: seq<byte>)
    requires |a| == |b|
    requires forall i: nat :: i < 8 * |a| ==> Taken(a, i) == Taken(b, i)
    ensures a == b
  {
    forall k | 0 <= k < |a| ensures a[k] == b[k] {
      Pow2Byte();
      forall j | 0 <= j < 8 ensures Bit(a[k], j) == Bit(b[k], j) {
        assert Taken(a, 8 * k + j) == Taken(b, 8 * k + j);
      }
      BitsDetermineWord(a[k], b[k], 8);
    }
  }

  method SetBit(bitmap: array<byte>, idx: u32)
    requires idx < 8 * bitmap.Length
    modifies bitmap
    ensures forall j: nat :: Taken(bitmap[..], j) <==> j == idx || Taken(old(bitmap[..]), j)
  {
    ghost var before := bitmap[..];
    Pow2Byte();
    BitOpsStayInWord(bitmap[idx / 8], idx % 8, 8);
    bitmap[idx / 8] := OrBit(bitmap[idx / 8], idx % 8);
    forall j: nat ensures Taken(bitmap[..], j) <==> j == idx || Taken(before, j) {
      OrBitSets(before[idx / 8], idx % 8, j % 8);
    }
  }

  method ClearBit(bitmap: array<byte>, idx: u32)
    requires idx < 8 * bitmap.Length
    modifies bitmap
    ensures forall j: nat :: Taken(bitmap[..], j) <==> j != idx && Taken(old(bitmap[..]), j)
  {
    ghost var before := bitmap[..];
    Pow2Byte();
    BitOpsStayInWord(bitmap[idx / 8], idx % 8, 8);
    bitmap[idx / 8] := AndNotBit(bitmap[idx / 8], idx % 8);
    forall j: nat ensures Taken(bitmap[..], j) <==> j != idx && Taken(before, j) {
      AndNotBitClears(before[idx / 8], idx % 8, j % 8);
    }
  }

  // ---------- the scan for the lowest clear bit ----------

  /** All bits below n are set. */
  ghost predicate FullBelow(bm: seq<byte>, n: nat)
  {
    forall j: nat :: j < n ==> Taken(bm, j)
  }

  /** idx is the lowest clear bit. */
  ghost predicate LowestFree(bm: seq<byte>, idx: nat)
  {
    idx < 8 * |bm| && !Taken(bm, idx) && FullBelow(bm, idx)
  }

  /** The lowest clear bit at or above i; past the end when there is none. */
  function FreeFrom(bm: seq<byte>, i: nat): (r: nat)
    ensures i <= r && (r < 8 * |bm| ==> !Taken(bm, r)) && (i <= 8 * |bm| ==> r <= 8 * |bm|)
    ensures forall j: nat :: i <= j < r ==> Taken(bm, j)
    decreases 8 * |bm| - i
  {
    if i < 8 * |bm| && Taken(bm, i) then FreeFrom(bm, i + 1) else i
  }

  /** The clear bits in ascending order, the lowest being number 0. */
  function NthFree(bm: seq<byte>, k: nat): nat
  {
    if k == 0 then FreeFrom(bm, 0) else FreeFrom(bm, NthFree(bm, k - 1) + 1)
  }

  /** Setting the lowest clear bit, or the lowest two, leaves the next one as the lowest. */
  lemma LowestAfterTaking(bm: seq<byte>, bm': seq<byte>, k: nat)
    requires |bm'| == |bm| && 1 <= k <= 2 && NthFree(bm, k - 1) < 8 * |bm|
    requires forall c: nat :: Taken(bm', c) <==> Taken(bm, c) || c == NthFree(bm, 0) || (k == 2 && c == NthFree(bm, 1))
    ensures FreeFrom(bm', 0) == NthFree(bm, k)
  {
    hide Bit;
    var x, next := FreeFrom(bm', 0), NthFree(bm, k);
    assert NthFree(bm, 1) == FreeFrom(bm, NthFree(bm, 0) + 1);
    assert NthFree(bm, 2) == FreeFrom(bm, NthFree(bm, 1) + 1);
    assert x <= next;
  }

  /** The lowest clear bit of one run of bytes decides the bitmap once everything before it is full. */
  lemma LowestInRun(bm: seq<byte>, i: nat, m: nat, free: nat)
    requires i + m <= |bm| && FullBelow(bm, 8 * i) && free < 8 * m
    requires !Bit(bm[i + free / 8], free % 8)
    requires forall j :: 0 <= j < free ==> Bit(bm[i + j / 8], j % 8)
    ensures LowestFree(bm, 8 * i + free)
  {
    hide Bit;
    forall j: nat | j < 8 * i + free ensures Taken(bm, j) {
      if j >= 8 * i {
        assert Bit(bm[i + (j - 8 * i) / 8], (j - 8 * i) % 8);
      }
    }
  }

  /** Bit j of the complement of a word is the opposite of bit j of its bytes. */
  lemma ComplementOfRun(bm: seq<byte>, i: nat, m: nat, word: nat, j: nat)
    requires i + m <= |bm| && word == LE(bm[i..i + m]) && word < Pow2(8 * m)
    requires j < 8 * m
    ensures Bit(Pow2(8 * m) - 1 - word, j) == !Bit(bm[i + j / 8], j % 8)
  {
    var run := bm[i..i + m];
    ComplementBits(word, 8 * m, j);
    BitOfLE(run, j);
    assert run[j / 8] == bm[i + j / 8];
  }

  /** A word that is not all ones: the trailing zeros of its complement count its low set bits. */
  lemma WordScan(bm: seq<byte>, i: nat, m: nat, word: nat)
    requires i + m <= |bm| && word == LE(bm[i..i + m]) && word < Pow2(8 * m) - 1
    requires FullBelow(bm, 8 * i)
    ensures LowestFree(bm, 8 * i + TrailingZeros(Pow2(8 * m) - 1 - word))
  {
    hide LE, Pow2, Bit, LowestFree, FullBelow, TrailingZeros;
    var inv := Pow2(8 * m) - 1 - word;
    var free := TrailingZeros(inv);
    BitBelowWidth(inv, 8 * m, free);
    ComplementOfRun(bm, i, m, word, free);
    forall j | 0 <= j < free ensures Bit(bm[i + j / 8], j % 8) {
      ComplementOfRun(bm, i, m, word, j);
      assert !Bit(inv, j);
    }
    LowestInRun(bm, i, m, free);
  }

  lemma FullWord(bm: seq<byte>, i: nat, m: nat)
    requires i + m <= |bm| && LE(bm[i..i + m]) == Pow2(8 * m) - 1
    requires FullBelow(bm, 8 * i)
    ensures FullBelow(bm, 8 * (i + m))
  {
    var run := bm[i..i + m];
    forall j: nat | j < 8 * (i + m) ensures Taken(bm, j) {
      if j >= 8 * i {
        var r := j - 8 * i;
        BitOfLE(run, r);
        ComplementBits(0, 8 * m, r);
        ZeroHasNoBits(r);
        assert run[r / 8] == bm[i + r / 8];
      }
    }
  }

  lemma FullByte(bm: seq<byte>, i: nat)
    requires i < |bm| && bm[i] == 0xff && FullBelow(bm, 8 * i)
    ensures FullBelow(bm, 8 * (i + 1))
  {
    forall j: nat | j < 8 * (i + 1) ensures Taken(bm, j) {
      if j >= 8 * i {
        FullByteHasAllBits(j - 8 * i);
      }
    }
  }

  lemma ByteScan(bm: seq<byte>, i: nat)
    requires i < |bm| && bm[i] != 0xff && FullBelow(bm, 8 * i)
    ensures LowestFree(bm, 8 * i + TrailingZeros(0xff - bm[i]))
  {
    Pow2Byte();
    assert bm[i..i + 1] == [bm[i]];
    assert LE([bm[i]]) == bm[i] as int + 0x100 * LE([]);
    WordScan(bm, i, 1, bm[i]);
  }

  lemma NothingBelow(bm: seq<byte>)
    ensures FullBelow(bm, 0)
  {
  }

  lemma LowestIsNotFull(bm: seq<byte>, idx: nat)
    requires LowestFree(bm, idx)
    ensures idx < 8 * |bm| && !FullBelow(bm, 8 * |bm|)
  {
  }

  /** The lowest clear bit, scanned 64 bits at a time with a byte-wise tail; none iff every bit is set. In a bitmap of
      more than 2^32 bits the index comes back cut to 32 bits. */
  method FindFreeBit(bitmap: array<byte>) returns (idx: u32, ok: bool)
    ensures ok ==> exists j: nat :: LowestFree(bitmap[..], j) && idx == j % U32
    ensures ok && 8 * bitmap.Length <= U32 ==> LowestFree(bitmap[..], idx)
    ensures !ok <==> FullBelow(bitmap[..], 8 * bitmap.Length)
  {
    hide LowestFree, FullBelow, LE, Pow2, TrailingZeros;
    var i, n := 0, bitmap.Length;
    ghost var bm := bitmap[..];
    NothingBelow(bm);
    while i + 8 <= n
      invariant 0 <= i <= n && FullBelow(bm, 8 * i)
    {
      var word := LE(bitmap[i..i + 8]);
      assert bitmap[i..i + 8] == bm[i..i + 8];
      LEBound(bitmap[i..i + 8]);
      if word == Pow2(64) - 1 {
        FullWord(bm, i, 8);
        i := i + 8;
        continue;
      }
      WordScan(bm, i, 8, word);
      LowestIsNotFull(bm, 8 * i + TrailingZeros(Pow2(64) - 1 - word));
      return (i * 8 + TrailingZeros(Pow2(64) - 1 - word)) % U32, true;
    }
    while i < n
      invariant 0 <= i <= n && FullBelow(bm, 8 * i)
    {
      if bitmap[i] != 0xff {
        ByteScan(bm, i);
        ghost var at := 8 * i + TrailingZeros(0xff - bitmap[i]);
        LowestIsNotFull(bm, at);
        assert bitmap[..] == bm && LowestFree(bitmap[..], at);
        return (i * 8 + TrailingZeros(0xff - bitmap[i])) % U32, true;
      }
      FullByte(bm, i);
      i := i + 1;
    }
    return 0, false;
  }
}

/** Bytes, machine words, little-endian fields and single bits.
    Go's fixed-width integers are ranges of `int`; where the program relies on wrap-around
    the `%` is written out. */
module Bytes {

  type byte = x: int | 0 <= x < 0x100
  type u16 = x: int | 0 <= x < 0x1_0000
  type u32 = x: int | 0 <= x < 0x1_0000_0000
  type u64 = x: int | 0 <= x < 0x1_0000_0000_0000_0000

  const U32 := 0x1_0000_0000
  const U64 := 0x1_0000_0000_0000_0000

  // ---------- overwriting a range ----------

  /** s with d written over it from off on. */
  function Splice<T>(s: seq<T>, off: nat, d: seq<T>): (r: seq<T>)
    requires off + |d| <= |s|
    ensures |r| == |s|
    ensures forall k :: 0 <= k < |s| ==> r[k] == if off <= k < off + |d| then d[k - off] else s[k]
  {
    s[..off] + d + s[off + |d|..]
  }

  // ---------- little-endian fields ----------

  function Get16(s: seq<byte>, off: nat): u16
    requires off + 2 <= |s|
  {
    s[off] as int + 0x100 * (s[off + 1] as int)
  }

  function Get32(s: seq<byte>, off: nat): u32
    requires off + 4 <= |s|
  {
    s[off] as int + 0x100 * (s[off + 1] as int) + 0x1_0000 * (s[off + 2] as int) + 0x100_0000 * (s[off + 3] as int)
  }

  function Get64(s: seq<byte>, off: nat): u64
    requires off + 8 <= |s|
  {
    Get32(s, off) as int + U32 * (Get32(s, off + 4) as int)
  }

  function Enc16(v: u16): (r: seq<byte>)
    ensures |r| == 2 && Get16(r, 0) == v
  {
    [v % 0x100, v / 0x100]
  }

  function Enc32(v: u32): (r: seq<byte>)
    ensures |r| == 4 && Get32(r, 0) == v
  {
    assert v / 0x1_0000 == v / 0x100 / 0x100 && v / 0x100_0000 == v / 0x1_0000 / 0x100;
    [v % 0x100, v / 0x100 % 0x100, v / 0x1_0000 % 0x100, v / 0x100_0000]
  }

  function Enc64(v: u64): (r: seq<byte>)
    ensures |r| == 8 && Get64(r, 0) == v
  {
    var lo, hi := Enc32(v % U32), Enc32(v / U32);
    assert Get32(lo + hi, 0) == Get32(lo, 0) && Get32(lo + hi, 4) == Get32(hi, 0);
    lo + hi
  }

  // ---------- bits ----------

  function Pow2(n: nat): (r: nat)
    ensures r >= 1
  {
    if n == 0 then 1 else 2 * Pow2(n - 1)
  }

  /** Whether bit k of x is set. */
  predicate Bit(x: nat, k: nat)
  {
    if k == 0 then x % 2 == 1 else Bit(x / 2, k - 1)
  }

  /** x with bit k set. */
  function OrBit(x: nat, k: nat): nat
  {
    if k == 0 then x / 2 * 2 + 1 else 2 * OrBit(x / 2, k - 1) + x % 2
  }

  /** x with bit k cleared. */
  function AndNotBit(x: nat, k: nat): nat
  {
    if k == 0 then x / 2 * 2 else 2 * AndNotBit(x / 2, k - 1) + x % 2
  }

  lemma {:induction false} OrBitSets(x: nat, k: nat, j: nat)
    ensures Bit(OrBit(x, k), j) <==> j == k || Bit(x, j)
  {
    if k > 0 && j > 0 {
      assert OrBit(x, k) / 2 == OrBit(x / 2, k - 1);
      OrBitSets(x / 2, k - 1, j - 1);
    } else if k == 0 && j > 0 {
      assert OrBit(x, 0) / 2 == x / 2;
    }
  }

  lemma {:induction false} AndNotBitClears(x: nat, k: nat, j: nat)
    ensures Bit(AndNotBit(x, k), j) <==> j != k && Bit(x, j)
  {
    if k > 0 && j > 0 {
      assert AndNotBit(x, k) / 2 == AndNotBit(x / 2, k - 1);
      AndNotBitClears(x / 2, k - 1, j - 1);
    } else if k == 0 && j > 0 {
      assert AndNotBit(x, 0) / 2 == x / 2;
    }
  }

  lemma {:induction false} BitOpsStayInWord(x: nat, k: nat, n: nat)
    requires x < Pow2(n) && k < n
    ensures OrBit(x, k) < Pow2(n) && AndNotBit(x, k) < Pow2(n)
  {
    assert Pow2(n) == 2 * Pow2(n - 1) && x / 2 < Pow2(n - 1);
    if k > 0 {
      BitOpsStayInWord(x / 2, k - 1, n - 1);
      var lo, hi := AndNotBit(x / 2, k - 1), OrBit(x / 2, k - 1);
      assert OrBit(x, k) == 2 * hi + x % 2 && AndNotBit(x, k) == 2 * lo + x % 2;
    }
  }

  /** A word is determined by its bits. */
  lemma {:induction false} BitsDetermineWord(x: nat, y: nat, n: nat)
    requires x < Pow2(n) && y < Pow2(n)
    requires forall j :: 0 <= j < n ==> Bit(x, j) == Bit(y, j)
    ensures x == y
  {
    if n > 0 {
      forall j | 0 <= j < n - 1 ensures Bit(x / 2, j) == Bit(y / 2, j) {
        assert Bit(x, j + 1) == Bit(y, j + 1);
      }
      BitsDetermineWord(x / 2, y / 2, n - 1);
      assert Bit(x, 0) == Bit(y, 0);
    }
  }

  lemma Pow2Plus8(n: nat)
    ensures Pow2(n + 8) == 0x100 * Pow2(n)
  {
    assert Pow2(n + 2) == 4 * Pow2(n);
    assert Pow2(n + 4) == 4 * Pow2(n + 2);
    assert Pow2(n + 6) == 4 * Pow2(n + 4);
  }

  lemma Pow2Byte()
    ensures Pow2(8) == 0x100
  {
    Pow2Plus8(0);
  }

  /** The value of a little-endian run of bytes. */
  function LE(s: seq<byte>): nat
  {
    if s == [] then 0 else s[0] as int + 0x100 * LE(s[1..])
  }

  /** Low bits of `a + 2^n * y` are those of `a`, the others those of `y`. */
  lemma {:induction false} BitOfSum(a: nat, y: nat, n: nat, j: nat)
    requires a < Pow2(n)
    ensures Bit(a + Pow2(n) * y, j) == if j < n then Bit(a, j) else Bit(y, j - n)
  {
    if n > 0 {
      var m := Pow2(n - 1);
      assert Pow2(n) * y == 2 * (m * y);
      assert (a + Pow2(n) * y) / 2 == a / 2 + m * y;
      assert (a + Pow2(n) * y) % 2 == a % 2;
      if j > 0 {
        BitOfSum(a / 2, y, n - 1, j - 1);
      }
    }
  }

  lemma {:induction false} BitOfLE(s: seq<byte>, j: nat)
    requires j < 8 * |s|
    ensures Bit(LE(s), j) == Bit(s[j / 8], j % 8)
  {
    Pow2Byte();
    BitOfSum(s[0], LE(s[1..]), 8, j);
    if j >= 8 {
      BitOfLE(s[1..], j - 8);
    }
  }

  lemma {:induction false} LEBound(s: seq<byte>)
    ensures LE(s) < Pow2(8 * |s|)
  {
    if s != [] {
      LEBound(s[1..]);
      Pow2Plus8(8 * |s| - 8);
    }
  }

  /** bits.TrailingZeros of a non-zero word. */
  function TrailingZeros(x: nat): (z: nat)
    requires x > 0
    ensures Bit(x, z)
    ensures forall j :: 0 <= j < z ==> !Bit(x, j)
  {
    if x % 2 == 1 then 0 else
      var z := TrailingZeros(x / 2);
      assert forall j :: 0 <= j < 1 + z && Bit(x, j) ==> j == 0 || 0 <= j - 1 < z;
      1 + z
  }

  /** Subtracting from all ones flips every bit of an n-bit word. */
  lemma {:induction false} ComplementBits(x: nat, n: nat, j: nat)
    requires x < Pow2(n) && j < n
    ensures Bit(Pow2(n) - 1 - x, j) == !Bit(x, j)
  {
    var c := Pow2(n) - 1 - x;
    assert c % 2 == 1 - x % 2 && c / 2 == Pow2(n - 1) - 1 - x / 2;
    if j > 0 {
      ComplementBits(x / 2, n - 1, j - 1);
    }
  }

  lemma {:induction false} BitBelowWidth(x: nat, n: nat, j: nat)
    requires x < Pow2(n) && Bit(x, j)
    ensures j < n
  {
    if n == 0 {
      ZeroHasNoBits(j);
    } else if j > 0 {
      BitBelowWidth(x / 2, n - 1, j - 1);
    }
  }

  lemma {:induction false} ZeroHasNoBits(j: nat)
    ensures !Bit(0, j)
  {
    if j > 0 {
      ZeroHasNoBits(j - 1);
    }
  }

  lemma {:induction false} FullByteHasAllBits(j: nat)
    requires j < 8
    ensures Bit(0xff, j)
  {
    ComplementBits(0, 8, j);
    Pow2Byte();
    ZeroHasNoBits(j);
  }
}

/** Bit strings, most significant bit first, and their relation to numbers and bytes. */
module Bits {
  import opened Arith

  type Byte = x: int | 0 <= x < 256

  /** The number a bit string denotes. */
  function Val(bs: seq<bool>): (r: nat) {
    if |bs| == 0 then 0
    else 2 * Val(bs[..|bs| - 1]) + (if bs[|bs| - 1] then 1 else 0)
  }

  /** The n low bits of v. */
  function ToBits(v: nat, n: nat): (bs: seq<bool>)
    ensures |bs| == n
  {
    if n == 0 then [] else ToBits(v / 2, n - 1) + [v % 2 == 1]
  }

  function Repeat(b: bool, n: nat): (bs: seq<bool>)
    ensures |bs| == n
    ensures forall i :: 0 <= i < n ==> bs[i] == b
  {
    seq(n, _ => b)
  }

  /** Bit j of a byte, counted from the most significant one. */
  predicate BitAt(b: Byte, j: nat)
    requires j < 8
  {
    (b / Pow2(7 - j)) % 2 == 1
  }

  /** The bits are those of the byte string, in the order the reader delivers them. */
  ghost predicate Shows(bytes: seq<Byte>, bits: seq<bool>) {
    && |bits| == 8 * |bytes|
    && forall p :: 0 <= p < |bytes| ==> Val(bits[8 * p..8 * p + 8]) == bytes[p]
  }

  function Pack(bs: seq<bool>): (bytes: seq<Byte>)
    requires |bs| % 8 == 0
  {
    seq(|bs| / 8, i requires 0 <= i < |bs| / 8 => ValByte(bs[8 * i..8 * i + 8]))
  }

  function ValByte(bs: seq<bool>): (b: Byte)
    requires |bs| == 8
    ensures b == Val(bs)
  {
    ValBound(bs);
    assert Pow2(8) == 256;
    Val(bs)
  }

  lemma {:induction false} ValBound(bs: seq<bool>)
    ensures Val(bs) < Pow2(|bs|)
  {
    if |bs| > 0 {
      ValBound(bs[..|bs| - 1]);
    }
  }

  lemma {:induction false} ValConcat(x: seq<bool>, y: seq<bool>)
    ensures Val(x + y) == Val(x) * Pow2(|y|) + Val(y)
  {
    if |y| == 0 {
      assert x + y == x;
    } else {
      var y' := y[..|y| - 1];
      assert (x + y)[..|x + y| - 1] == x + y';
      ValConcat(x, y');
      MulAssoc(Val(x), 2, Pow2(|y'|));
      MulAssoc(2, Val(x), Pow2(|y'|));
    }
  }

  lemma {:induction false} ValToBits(v: nat, n: nat)
    requires v < Pow2(n)
    ensures Val(ToBits(v, n)) == v
  {
    if n > 0 {
      ValToBits(v / 2, n - 1);
      assert ToBits(v, n)[..n - 1] == ToBits(v / 2, n - 1);
    }
  }

  lemma {:induction false} ValZeros(n: nat)
    ensures Val(Repeat(false, n)) == 0
  {
    if n > 0 {
      ValZeros(n - 1);
      assert Repeat(false, n)[..n - 1] == Repeat(false, n - 1);
    }
  }

  /** Each bit can be recovered from the value by a shift and a mask. */
  lemma {:induction false} ValBit(bs: seq<bool>, j: nat)
    requires j < |bs|
    ensures (Val(bs) / Pow2(|bs| - 1 - j)) % 2 == 1 <==> bs[j]
  {
    var hi, lo := bs[..j + 1], bs[j + 1..];
    assert bs == hi + lo;
    ValConcat(hi, lo);
    ValBound(lo);
    DivModUnique(Val(bs), Pow2(|lo|), Val(hi), Val(lo));
  }

  /** Packing loses nothing. */
  lemma PackShows(bs: seq<bool>)
    requires |bs| % 8 == 0
    ensures Shows(Pack(bs), bs)
  {}

  /** A byte string shows one bit string only: bit j of byte p is stream bit 8p + j. */
  lemma ShowsBit(bytes: seq<Byte>, bits: seq<bool>, p: nat, j: nat)
    requires Shows(bytes, bits) && p < |bytes| && j < 8
    ensures bits[8 * p + j] == BitAt(bytes[p], j)
  {
    ValBit(bits[8 * p..8 * p + 8], j);
  }

  /** Extracting b bits at offset a from a window by shift left, mask, shift right. */
  lemma WindowExtract(w: seq<bool>, a: nat, b: nat)
    requires a + b <= |w|
    ensures Val(w) * Pow2(a) % Pow2(|w|) / Pow2(|w| - b) == Val(w[a..a + b])
  {
    hide Val, Pow2;
    var n := |w|;
    var x, y, z := w[..a], w[a..a + b], w[a + b..];
    assert w == x + (y + z) && y + z == w[a..];
    ValConcat(x, y + z);
    ValConcat(y, z);
    ValBound(y + z);
    ValBound(z);
    Pow2Add(n - a, a);
    Pow2Add(n - a - b, a);
    ShiftOut(Val(w), Val(x), Val(y), Val(z), Val(y + z), Pow2(a), Pow2(n - a), Pow2(n), Pow2(n - a - b), Pow2(n - b));
  }

  /** The arithmetic of WindowExtract, with the powers of two abstracted. */
  lemma ShiftOut(w: int, x: int, y: int, z: int, yz: int, a: int, na: int, n: int, nab: int, nb: int)
    requires a > 0 && na > 0 && nab > 0 && n == na * a && nb == nab * a
    requires w == x * na + yz && yz == y * nab + z && 0 <= yz < na && 0 <= z < nab
    requires n > 0 && nb > 0
    ensures w * a % n / nb == y
  {
    MulDist(x * na, yz, a);
    MulAssoc(x, na, a);
    MulLess(yz, na, a);
    DivModUnique(w * a, n, x, yz * a);
    MulDist(y * nab, z, a);
    MulAssoc(y, nab, a);
    MulLess(z, nab, a);
    DivModUnique(yz * a, nb, y, z * a);
  }
}

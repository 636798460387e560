/**
Fixed-width integer arithmetic used by the codec: powers of two, the shifts and masks of C
written with multiplication, division and remainder, and the two's-complement truncations.
Dafny's `/` and `%` with a positive divisor round towards minus infinity, which is what an
arithmetic right shift does.
*/
module Arith {

  function Pow2(n: nat): (r: int)
    ensures r > 0
  {
    if n == 0 then 1 else 2 * Pow2(n - 1)
  }

  function Min(a: int, b: int): (r: int) {
    if a <= b then a else b
  }

  /** `SIGN_EXTENDED32(v, n)`: the signed number whose low n bits are those of v. */
  function SignExtend(v: int, n: nat): (r: int)
    requires n >= 1
    ensures -Pow2(n - 1) <= r < Pow2(n - 1)
    ensures -Pow2(n - 1) <= v < Pow2(n - 1) ==> r == v
  {
    var half := Pow2(n - 1);
    ModSmall(v + half, 2 * half);
    (v + half) % (2 * half) - half
  }

  predicate InRange(v: int, n: nat)
    requires n >= 1
  {
    -Pow2(n - 1) <= v < Pow2(n - 1)
  }

  function Wrap16(v: int): (r: int)
    ensures -0x8000 <= r < 0x8000
    ensures -0x8000 <= v < 0x8000 ==> r == v
  {
    (v + 0x8000) % 0x1_0000 - 0x8000
  }

  function Wrap32(v: int): (r: int)
    ensures -0x8000_0000 <= r < 0x8000_0000
    ensures -0x8000_0000 <= v < 0x8000_0000 ==> r == v
  {
    (v + 0x8000_0000) % 0x1_0000_0000 - 0x8000_0000
  }

  lemma Pow2Constants()
    ensures Pow2(7) == 128 && Pow2(8) == 256 && Pow2(16) == 0x1_0000
    ensures Pow2(17) == 0x2_0000 && Pow2(24) == 0x100_0000
  {
    assert Pow2(7) == 128;
    assert Pow2(8) == 256;
    Pow2Add(8, 8);
    Pow2Add(8, 16);
  }

  lemma Pow2Limits()
    ensures Pow2(15) == 0x8000 && Pow2(23) == 0x80_0000 && Pow2(32) == 0x1_0000_0000
  {
    assert Pow2(8) == 0x100 && Pow2(7) == 0x80;
    Pow2Add(8, 7);
    Pow2Add(8, 15);
    Pow2Add(8, 8);
    Pow2Add(16, 16);
  }

  lemma MulDist(a: int, b: int, c: int)
    ensures (a + b) * c == a * c + b * c
  {}

  lemma MulAssoc(a: int, b: int, c: int)
    ensures (a * b) * c == a * (b * c)
  {}

  lemma MulLess(a: int, b: int, c: int)
    requires a < b && 0 < c
    ensures a * c < b * c
  {}

  /** A non-zero multiple of d is at least d away from zero. */
  lemma MultipleApart(k: int, d: int)
    requires d > 0
    ensures k >= 1 ==> k * d >= d
    ensures k <= -1 ==> k * d <= -d
  {
    if k >= 2 {
      MulLess(1, k, d);
    } else if k <= -2 {
      MulLess(k, -1, d);
    }
  }

  lemma {:induction false} Pow2Add(a: nat, b: nat)
    ensures Pow2(a + b) == Pow2(a) * Pow2(b)
  {
    if a > 0 {
      Pow2Add(a - 1, b);
      MulAssoc(2, Pow2(a - 1), Pow2(b));
    }
  }

  lemma {:induction false} Pow2Mono(a: nat, b: nat)
    requires a <= b
    ensures Pow2(a) <= Pow2(b)
  {
    if a < b {
      Pow2Mono(a, b - 1);
    }
  }

  lemma Pow2Order(a: nat, b: nat)
    requires Pow2(a) < Pow2(b)
    ensures a < b
  {
    if b <= a {
      Pow2Mono(b, a);
    }
  }

  /** Euclidean division is unique. */
  lemma DivModUnique(x: int, d: int, q: int, r: int)
    requires d > 0 && 0 <= r < d && x == q * d + r
    ensures x / d == q && x % d == r
  {
    var q', r' := x / d, x % d;
    DivMod(x, d);
    MulDist(q - q', q', d);
    MultipleApart(q - q', d);
  }

  lemma ModSmall(x: int, d: int)
    requires d > 0
    ensures 0 <= x % d < d && (0 <= x < d ==> x % d == x)
  {
    if 0 <= x < d {
      DivModUnique(x, d, 0, x);
    }
  }

  lemma DivMod(x: int, d: int)
    requires d > 0
    ensures x == (x / d) * d + x % d && 0 <= x % d < d
  {}

  /** Every number is congruent to its truncation. */
  lemma SignExtendCongruent(v: int, n: nat) returns (m: int)
    requires n >= 1
    ensures v == SignExtend(v, n) + m * Pow2(n)
  {
    var half := Pow2(n - 1);
    m := (v + half) / (2 * half);
    DivMod(v + half, 2 * half);
  }

  /** Two numbers in range that differ by a multiple of 2^n are equal. */
  lemma SignExtendUnique(v: int, r: int, m: int, n: nat)
    requires n >= 1 && InRange(r, n) && v == r + m * Pow2(n)
    ensures SignExtend(v, n) == r
  {
    var a := SignExtendCongruent(v, n);
    MulDist(m - a, a, Pow2(n));
    MultipleApart(m - a, Pow2(n));
  }

  /** The residual law: prediction plus the truncated difference truncates to the value. */
  lemma SignExtendResidual(value: int, prediction: int, n: nat)
    requires n >= 1 && InRange(value, n)
    ensures SignExtend(prediction + SignExtend(value - prediction, n), n) == value
  {
    var m := SignExtendCongruent(value - prediction, n);
    SignExtendUnique(prediction + SignExtend(value - prediction, n), value, -m, n);
  }
}

/**
What the decoder's codes and parameters are, apart from the encoder that shares their functions:
the factor bit by bit, the thresholds of the Rice parameter, the intervals of a run's parameter,
and that every value has one short code, which is the one the encoder writes.
*/
module RiceCode {
  import opened Arith
  import opened Bits
  import opened BitReader
  import opened Options
  import opened Rice
  import opened RiceEncoder

  // ----- parameters -----

  /** The parameter of a sample is at least j exactly from the history 512 * (2^j - 3) on. */
  lemma SampleKThresholds(history: int, kModifier: nat, j: nat)
    requires 0 <= history < INT_LIMIT && 1 <= j <= kModifier
    ensures SampleK(history, kModifier) >= j <==> history >= 512 * (Pow2(j) - 3)
  {
    hide Pow2, Log2;
    var x := history / 512 + 3;
    var l := Log2(x);
    if l >= j {
      Pow2Mono(j, l);
    } else {
      Pow2Mono(l + 1, j);
    }
  }

  /** The parameter of a zero run, by the history in front of it. */
  lemma RunKIntervals(history: int)
    requires 1 <= history < 128
    ensures RunK(history) ==
            if history < 2 then 7 else if history < 4 then 6 else if history < 8 then 5 else if history < 16 then 4
            else if history < 32 then 3 else if history < 48 then 2 else if history < 64 then 3
            else if history < 112 then 2 else 3
  {
    SmallPowers();
    hide Pow2;
    var l := if history < 2 then 0 else if history < 4 then 1 else if history < 8 then 2 else if history < 16 then 3
             else if history < 32 then 4 else if history < 64 then 5 else 6;
    Log2Range(history, l, l + 1);
  }

  lemma SmallPowers()
    ensures Pow2(0) == 1 && Pow2(1) == 2 && Pow2(2) == 4 && Pow2(3) == 8
    ensures Pow2(4) == 16 && Pow2(5) == 32 && Pow2(6) == 64 && Pow2(7) == 128
  {
    assert Pow2(3) == 8;
    assert Pow2(7) == 128;
  }

  // ----- the history -----

  /**
  The history moves by the multiplier's share of the way to 512 times the value, rounded up to a
  512th; a value of more than sixteen bits sets it to 2^16 - 1.
  */
  lemma HistoryMoves(history: int, d: nat, mult: int)
    requires 0 <= history <= MAX_HISTORY && 0 <= mult < 512 && history * mult < INT_LIMIT
    ensures d < 0x1_0000 ==>
              0 <= 512 * (NextHistory(history, d, mult) - history) - mult * (512 * d - history) < 512
    ensures d >= 0x1_0000 ==> NextHistory(history, d, mult) == 0x1_0000 - 1
  {
    hide NextHistory;
    NextIsIdeal(history, d, mult);
    if d < 0x1_0000 {
      Moves(history, d, mult, d * mult, history * mult, mult * (512 * d - history));
    } else {
      Resets(history, d, mult);
    }
  }

  lemma Resets(history: int, d: nat, mult: int)
    requires d >= 0x1_0000
    ensures NextHistory(history, d, mult) == 0xFFFF
  {}

  lemma Moves(history: int, d: nat, mult: int, up: int, down: int, way: int)
    requires 0 <= history <= MAX_HISTORY && 0 <= mult < 512 && d < 0x1_0000
    requires up == d * mult && down == history * mult && way == mult * (512 * d - history)
    ensures 0 <= 512 * (IdealHistory(history, d, mult) - history) - way < 512
  {
    assert way == 512 * up - down;
    DivMod(down, 512);
  }

  // ----- the factor of a quotient -----

  /** Bit j of the factor is set exactly below both the parameter and the width of the mask. */
  lemma FactorBits(k: nat, maskBits: nat, j: nat)
    requires k >= 1 && maskBits >= 1
    ensures (Factor(k, maskBits) / Pow2(j)) % 2 == 1 <==> j < k && j < maskBits
  {
    hide Pow2;
    var m, n := Factor(k, maskBits), Min(k, maskBits);
    if j < n {
      Pow2Add(n - j, j);
      MulDist(Pow2(n - j) - 1, 1, Pow2(j));
      DivModUnique(m, Pow2(j), Pow2(n - j) - 1, Pow2(j) - 1);
      Halved(n - j);
    } else {
      Pow2Mono(n, j);
      DivModUnique(m, Pow2(j), 0, m);
    }
  }

  lemma Halved(n: nat)
    requires n >= 1
    ensures (Pow2(n) - 1) % 2 == 1
  {
    DivModUnique(Pow2(n) - 1, 2, Pow2(n - 1) - 1, 1);
  }

  // ----- codes -----

  /** One of the first nine bits is not set. */
  ghost predicate Short(bits: seq<bool>, p: nat) {
    exists i :: p <= i < p + 9 && i < |bits| && !bits[i]
  }

  /** What the prefix reader saw. */
  lemma {:induction false} OnesSeen(bits: seq<bool>, p: nat, x: nat)
    requires x <= THRESHOLD + 1 && Ones(bits, p, x).Some?
    ensures var (y, q) := Ones(bits, p, x).value;
            && (y <= THRESHOLD ==> q == p + (y - x) + 1) && (y > THRESHOLD ==> q == p + (y - x)) && q <= Max(|bits|, p)
            && (forall i :: p <= i < p + (y - x) ==> bits[i]) && (y <= THRESHOLD ==> !bits[p + (y - x)])
    decreases THRESHOLD + 1 - x
  {
    if x <= THRESHOLD && bits[p] {
      OnesSeen(bits, p + 1, x + 1);
    }
  }

  function Max(a: int, b: int): (r: int) {
    if a >= b then a else b
  }

  /** A code is short exactly if the prefix is: nine ones announce a raw value. */
  lemma ShortPrefix(bits: seq<bool>, p: nat)
    requires Ones(bits, p, 0).Some?
    ensures Short(bits, p) <==> Ones(bits, p, 0).value.0 <= 8
  {
    OnesSeen(bits, p, 0);
    var (y, q) := Ones(bits, p, 0).value;
    if y <= 8 {
      assert !bits[p + y];
    }
  }

  lemma Prefix(bits: seq<bool>, p: nat, n: nat)
    requires p + n <= |bits| && forall i :: p <= i < p + n ==> bits[i]
    ensures bits[p..p + n] == Repeat(true, n)
  {}

  /** With a full mask the factor of the quotient is 2^k - 1. */
  lemma FullMask(k: nat, maskBits: nat)
    requires 1 <= k <= maskBits
    ensures Factor(k, maskBits) == Pow2(k) - 1
  {}

  /** The remainder of a short code: the value's, in k bits, or in one bit less if it is zero. */
  lemma RemainderRead(bits: seq<bool>, p: nat, k: nat)
    requires 2 <= k <= MAX_K && CanRead(bits, p, k)
    ensures var extra := Val(bits[p..p + k]);
            && extra < Pow2(k)
            && (extra > 1 ==> bits[p..p + k] == Remainder(extra - 1, k))
            && (extra <= 1 ==> bits[p..p + (k - 1)] == Remainder(0, k))
  {
    hide Val, Pow2, ToBits;
    var w := bits[p..p + k];
    ValBound(w);
    if Val(w) > 1 {
      ToBitsVal(w);
    } else {
      LowOnly(w);
      assert bits[p..p + (k - 1)] == w[..k - 1];
    }
  }

  /** The bits of the number that a bit string denotes are the bit string. */
  lemma {:induction false} ToBitsVal(w: seq<bool>)
    ensures ToBits(Val(w), |w|) == w
  {
    if |w| > 0 {
      var v, b := Val(w[..|w| - 1]), w[|w| - 1];
      ToBitsVal(w[..|w| - 1]);
      DivModUnique(Val(w), 2, v, if b then 1 else 0);
      assert w == w[..|w| - 1] + [b];
    }
  }

  lemma LowOnly(w: seq<bool>)
    requires |w| >= 1 && Val(w) <= 1
    ensures w[..|w| - 1] == Repeat(false, |w| - 1)
  {
    var front := w[..|w| - 1];
    ToBitsVal(front);
    assert Val(front) == 0;
    ZeroBits(|front|);
  }

  lemma {:induction false} ZeroBits(n: nat)
    ensures ToBits(0, n) == Repeat(false, n)
  {
    if n > 0 {
      ZeroBits(n - 1);
      assert Repeat(false, n - 1) + [false] == Repeat(false, n);
    }
  }

  /** A short code that the decoder reads is the code the encoder writes for its value. */
  lemma ShortCanonical(bits: seq<bool>, p: nat, sampleBits: nat, k: nat, maskBits: nat)
    requires 1 <= sampleBits <= 32 && 1 <= k <= MAX_K && k <= maskBits
    requires DecodeValue(bits, p, sampleBits, k, maskBits).Some? && Short(bits, p)
    ensures var (v, p') := DecodeValue(bits, p, sampleBits, k, maskBits).value;
            && p' <= |bits| && bits[p..p'] == EncodeValue(v, sampleBits, k, maskBits) && v < 9 * (Pow2(k) - 1)
  {
    hide Ones, EncodeValue, Factor, Val, Pow2, Remainder, CanRead;
    OnesSeen(bits, p, 0);
    ShortPrefix(bits, p);
    FullMask(k, maskBits);
    var (q, p1) := Ones(bits, p, 0).value;
    var (v, p') := DecodeValue(bits, p, sampleBits, k, maskBits).value;
    var m := Factor(k, maskBits);
    Prefix(bits, p, q);
    var r: nat;
    if k == 1 {
      r := 0;
      OneBit();
    } else {
      RemainderRead(bits, p1, k);
      var extra := Val(bits[p1..p1 + k]);
      r := if extra > 1 then extra - 1 else 0;
      PowAtLeast(k);
    }
    DivModUnique(v, m, q, r);
    MulBound(q, 8, m, m);
    CodeIs(v, sampleBits, k, maskBits);
    NoRemainder();
    assert bits[p..p'] == bits[p..p + q] + ([false] + bits[p1..p']);
  }

  lemma OneBit()
    ensures Pow2(1) == 2
  {}

  lemma PowAtLeast(k: nat)
    requires k >= 2
    ensures Pow2(k) >= 4
  {
    Pow2Mono(2, k);
  }

  lemma NoRemainder()
    ensures Remainder(0, 1) == []
  {}

  /** Behind nine ones the value is the raw number of the next bits. */
  lemma EscapeRaw(bits: seq<bool>, p: nat, sampleBits: nat, k: nat, maskBits: nat)
    requires 1 <= sampleBits <= 32 && 1 <= k <= MAX_K && maskBits >= 1
    requires DecodeValue(bits, p, sampleBits, k, maskBits).Some? && !Short(bits, p)
    ensures p + 9 + sampleBits <= |bits|
    ensures DecodeValue(bits, p, sampleBits, k, maskBits)
         == Some((Val(bits[p + 9..p + 9 + sampleBits]), p + 9 + sampleBits))
    ensures bits[p..p + 9 + sampleBits]
         == Repeat(true, 9) + ToBits(Val(bits[p + 9..p + 9 + sampleBits]), sampleBits)
  {
    hide Ones, Factor, Val, Pow2, ToBits;
    OnesSeen(bits, p, 0);
    ShortPrefix(bits, p);
    Prefix(bits, p, 9);
    ToBitsVal(bits[p + 9..p + 9 + sampleBits]);
    assert bits[p..p + 9 + sampleBits] == bits[p..p + 9] + bits[p + 9..p + 9 + sampleBits];
  }

  /**
  On every bit stream: what the decoder reads is the code that the encoder writes for the value,
  unless a value is escaped that has a short code. So no value has two short codes.
  */
  lemma CanonicalExactly(bits: seq<bool>, p: nat, sampleBits: nat, k: nat, maskBits: nat)
    requires 1 <= sampleBits <= 32 && 1 <= k <= MAX_K && k <= maskBits
    requires DecodeValue(bits, p, sampleBits, k, maskBits).Some?
    ensures var (v, p') := DecodeValue(bits, p, sampleBits, k, maskBits).value;
            && p' <= |bits|
            && (bits[p..p'] == EncodeValue(v, sampleBits, k, maskBits) <==> Short(bits, p) || v >= 9 * (Pow2(k) - 1))
  {
    hide DecodeValue, EncodeValue, Factor, Val, Pow2, ToBits, Short;
    if Short(bits, p) {
      ShortCanonical(bits, p, sampleBits, k, maskBits);
    } else {
      EscapeRaw(bits, p, sampleBits, k, maskBits);
      var v := Val(bits[p + 9..p + 9 + sampleBits]);
      EscapeNeeded(v, sampleBits, k, maskBits);
    }
  }

  /** The encoder escapes exactly the values that have no short code. */
  lemma EscapeNeeded(v: nat, sampleBits: nat, k: nat, maskBits: nat)
    requires 1 <= k <= maskBits
    ensures EncodeValue(v, sampleBits, k, maskBits) == Repeat(true, 9) + ToBits(v, sampleBits)
       <==> v >= 9 * (Pow2(k) - 1)
  {
    hide Factor, Pow2, ToBits, Remainder, EncodeValue;
    FullMask(k, maskBits);
    CodeIs(v, sampleBits, k, maskBits);
    var m := Factor(k, maskBits);
    DivMod(v, m);
    var q := v / m;
    if q > 8 {
      MulBound(9, q, m, m);
    } else {
      MulBound(q, 8, m, m);
      assert (Repeat(true, q) + ([false] + Remainder(v % m, k)))[q] == false;
      assert (Repeat(true, 9) + ToBits(v, sampleBits))[q] == true;
    }
  }
}

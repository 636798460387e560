/** The mirror image of the Rice decoder, and the proof that the decoder undoes it. */
module RiceEncoder {
  import opened Arith
  import opened Bits
  import opened BitReader
  import opened Options
  import opened Rice

  /** The stretch of bits from p to p + |part| is `part`, and two more bytes follow. */
  ghost predicate At(bits: seq<bool>, p: nat, part: seq<bool>) {
    && |bits| % 8 == 0
    && p + |part| + 16 <= |bits|
    && bits[p..p + |part|] == part
  }

  lemma AtSplit(bits: seq<bool>, p: nat, a: seq<bool>, b: seq<bool>)
    requires At(bits, p, a + b)
    ensures At(bits, p, a) && At(bits, p + |a|, b)
  {
    assert bits[p..p + |a|] == (a + b)[..|a|];
    assert bits[p + |a|..p + |a| + |b|] == (a + b)[|a|..];
  }

  /** A code as bytes: filled up to a byte border and followed by two padding bytes. */
  function Padded(code: seq<bool>): (bits: seq<bool>)
    ensures |bits| % 8 == 0
  {
    code + Repeat(false, 16 + (8 - |code| % 8) % 8)
  }

  lemma PaddedShows(code: seq<bool>)
    ensures Shows(Pack(Padded(code)), Padded(code)) && At(Padded(code), 0, code)
  {
    PackShows(Padded(code));
  }

  // ----- one coded value -----

  /** What follows the unary prefix of a short code. */
  function Remainder(r: nat, k: nat): (code: seq<bool>)
    requires k >= 1
  {
    if k == 1 then [] else if r == 0 then Repeat(false, k - 1) else ToBits(r + 1, k)
  }

  function EncodeValue(v: nat, sampleBits: nat, k: nat, maskBits: nat): (code: seq<bool>)
    requires k >= 1 && maskBits >= 1
  {
    var m := Factor(k, maskBits);
    if v / m > THRESHOLD then Repeat(true, THRESHOLD + 1) + ToBits(v, sampleBits)
    else Repeat(true, v / m) + ([false] + Remainder(v % m, k))
  }

  lemma {:induction false} OnesOfPrefix(bits: seq<bool>, p: nat, x: nat, n: nat)
    requires x + n <= THRESHOLD + 1 && p + n <= |bits|
    requires forall i :: p <= i < p + n ==> bits[i]
    requires x + n <= THRESHOLD ==> p + n < |bits| && !bits[p + n]
    ensures Ones(bits, p, x) == Some((x + n, if x + n > THRESHOLD then p + n else p + n + 1))
    decreases n
  {
    if n > 0 {
      OnesOfPrefix(bits, p + 1, x + 1, n - 1);
    }
  }

  /** The zero remainder is one bit short, so the bit behind it is read as well. */
  lemma ReadZeroRemainder(bits: seq<bool>, p: nat, k: nat)
    requires 2 <= k <= 16 && At(bits, p, Repeat(false, k - 1))
    ensures CanRead(bits, p, k) && Val(bits[p..p + k]) <= 1
  {
    WindowInside(bits, p, p + k - 1);
    ValZeros(k - 1);
    assert bits[p..p + k][..k - 1] == bits[p..p + (k - 1)];
  }

  lemma ReadCode(bits: seq<bool>, p: nat, v: nat, n: nat)
    requires 1 <= n <= 32 && v < Pow2(n) && At(bits, p, ToBits(v, n))
    ensures CanRead(bits, p, n) && Val(bits[p..p + n]) == v
  {
    ValToBits(v, n);
    WindowInside(bits, if n > 16 then p + 16 else p, p + n);
  }

  /** The decoder on a short code, given its quotient q and its k bits of remainder. */
  lemma DecodeTail(bits: seq<bool>, p: nat, q: nat, sampleBits: nat, k: nat, maskBits: nat)
    requires 1 <= sampleBits <= 32 && 2 <= k <= 16 && maskBits >= 1 && q <= THRESHOLD
    requires Ones(bits, p, 0) == Some((q, p + q + 1)) && CanRead(bits, p + q + 1, k)
    ensures DecodeValue(bits, p, sampleBits, k, maskBits)
         == if Val(bits[p + q + 1..p + q + 1 + k]) > 1
            then Some((q * Factor(k, maskBits) + Val(bits[p + q + 1..p + q + 1 + k]) - 1, p + q + 1 + k))
            else Some((q * Factor(k, maskBits), p + q + 1 + k - 1))
  {}

  /** A short code: q ones and a zero, then the remainder r. */
  lemma DecodeShortCode(bits: seq<bool>, p: nat, q: nat, r: nat, sampleBits: nat, k: nat, maskBits: nat)
    requires 1 <= sampleBits <= 32 && 1 <= k <= 16 && maskBits >= 1
    requires q <= THRESHOLD && r < Factor(k, maskBits)
    requires Ones(bits, p, 0) == Some((q, p + q + 1))
    requires At(bits, p + q + 1, Remainder(r, k))
    ensures DecodeValue(bits, p, sampleBits, k, maskBits)
         == Some((q * Factor(k, maskBits) + r, p + q + 1 + |Remainder(r, k)|))
  {
    hide DecodeValue, Ones, Pow2, Val;
    if k == 1 {
      DecodeUnary(bits, p, q, sampleBits, maskBits);
    } else {
      var tail := p + q + 1;
      if r == 0 {
        ReadZeroRemainder(bits, tail, k);
      } else {
        ReadCode(bits, tail, r + 1, k);
      }
      DecodeTail(bits, p, q, sampleBits, k, maskBits);
    }
  }

  lemma DecodeUnary(bits: seq<bool>, p: nat, q: nat, sampleBits: nat, maskBits: nat)
    requires 1 <= sampleBits <= 32 && maskBits >= 1 && q <= THRESHOLD
    requires Ones(bits, p, 0) == Some((q, p + q + 1))
    ensures DecodeValue(bits, p, sampleBits, 1, maskBits) == Some((q, p + q + 1))
    ensures Factor(1, maskBits) == 1
  {
    assert Pow2(1) == 2;
  }

  /** All the bits of a repeated stretch are equal. */
  lemma OnesAt(bits: seq<bool>, p: nat, n: nat)
    requires At(bits, p, Repeat(true, n))
    ensures forall i :: p <= i < p + n ==> bits[i]
  {
    forall i | p <= i < p + n ensures bits[i] {
      assert bits[i] == bits[p..p + n][i - p];
    }
  }

  /** The code of a value whose quotient is short, and of one whose quotient is not. */
  lemma CodeIs(v: nat, sampleBits: nat, k: nat, maskBits: nat)
    requires k >= 1 && maskBits >= 1
    ensures v / Factor(k, maskBits) > THRESHOLD ==>
              EncodeValue(v, sampleBits, k, maskBits) == Repeat(true, THRESHOLD + 1) + ToBits(v, sampleBits)
    ensures var m := Factor(k, maskBits);
            v / m <= THRESHOLD ==>
              EncodeValue(v, sampleBits, k, maskBits) == Repeat(true, v / m) + ([false] + Remainder(v % m, k))
  {}

  lemma FalseAt(bits: seq<bool>, p: nat)
    requires At(bits, p, [false])
    ensures p < |bits| && !bits[p]
  {
    assert bits[p] == bits[p..p + 1][0];
  }

  lemma DecodeShort(bits: seq<bool>, p: nat, v: nat, sampleBits: nat, k: nat, maskBits: nat)
    requires 1 <= sampleBits <= 32 && 1 <= k <= 16 && maskBits >= 1
    requires v / Factor(k, maskBits) <= THRESHOLD
    requires At(bits, p, EncodeValue(v, sampleBits, k, maskBits))
    ensures DecodeValue(bits, p, sampleBits, k, maskBits)
         == Some((v, p + |EncodeValue(v, sampleBits, k, maskBits)|))
  {
    hide DecodeValue, Factor, Remainder, EncodeValue, At, Ones;
    var m := Factor(k, maskBits);
    var q, r := v / m, v % m;
    DivMod(v, m);
    CodeIs(v, sampleBits, k, maskBits);
    AtSplit(bits, p, Repeat(true, q), [false] + Remainder(r, k));
    AtSplit(bits, p + q, [false], Remainder(r, k));
    AtInside(bits, p, Repeat(true, q));
    FalseAt(bits, p + q);
    OnesAt(bits, p, q);
    OnesOfPrefix(bits, p, 0, q);
    DecodeShortCode(bits, p, q, r, sampleBits, k, maskBits);
  }

  /** The decoder behind nine ones. */
  lemma DecodeNine(bits: seq<bool>, p: nat, q: nat, sampleBits: nat, k: nat, maskBits: nat)
    requires 1 <= sampleBits <= 32 && 1 <= k <= 16 && maskBits >= 1
    requires Ones(bits, p, 0) == Some((THRESHOLD + 1, q)) && CanRead(bits, q, sampleBits)
    ensures DecodeValue(bits, p, sampleBits, k, maskBits) == Some((Val(bits[q..q + sampleBits]), q + sampleBits))
  {
    hide Ones, Val;
  }

  lemma DecodeEscape(bits: seq<bool>, p: nat, v: nat, sampleBits: nat, k: nat, maskBits: nat)
    requires 1 <= sampleBits <= 32 && 1 <= k <= 16 && maskBits >= 1 && v < Pow2(sampleBits)
    requires v / Factor(k, maskBits) > THRESHOLD
    requires At(bits, p, EncodeValue(v, sampleBits, k, maskBits))
    ensures DecodeValue(bits, p, sampleBits, k, maskBits)
         == Some((v, p + |EncodeValue(v, sampleBits, k, maskBits)|))
  {
    hide DecodeValue, Factor, EncodeValue, At, Ones, ToBits, Val, Pow2;
    var q := THRESHOLD + 1;
    CodeIs(v, sampleBits, k, maskBits);
    AtSplit(bits, p, Repeat(true, q), ToBits(v, sampleBits));
    OnesAt(bits, p, q);
    AtInside(bits, p, Repeat(true, q));
    OnesOfPrefix(bits, p, 0, q);
    ReadCode(bits, p + q, v, sampleBits);
    DecodeNine(bits, p, p + q, sampleBits, k, maskBits);
  }

  lemma AtInside(bits: seq<bool>, p: nat, part: seq<bool>)
    requires At(bits, p, part)
    ensures p + |part| <= |bits|
  {}

  lemma DecodeEncoded(bits: seq<bool>, p: nat, v: nat, sampleBits: nat, k: nat, maskBits: nat)
    requires 1 <= sampleBits <= 32 && 1 <= k <= 16 && maskBits >= 1 && v < Pow2(sampleBits)
    requires At(bits, p, EncodeValue(v, sampleBits, k, maskBits))
    ensures DecodeValue(bits, p, sampleBits, k, maskBits)
         == Some((v, p + |EncodeValue(v, sampleBits, k, maskBits)|))
  {
    if v / Factor(k, maskBits) > THRESHOLD {
      DecodeEscape(bits, p, v, sampleBits, k, maskBits);
    } else {
      DecodeShort(bits, p, v, sampleBits, k, maskBits);
    }
  }

  // ----- whole sequences -----

  function LeadingZeros(es: seq<int>): (n: nat)
    ensures n <= |es| && es[..n] == Zeros(n)
    ensures n < |es| ==> es[n] != 0
  {
    if |es| == 0 || es[0] != 0 then 0
    else
      var n := LeadingZeros(es[1..]) + 1;
      assert es[..n] == [es[0]] + es[1..][..n - 1];
      n
  }

  /** A state that an encoder's arithmetic leads to. */
  predicate Coding(history: int, sign: int) {
    0 <= history <= MAX_HISTORY && (sign == 0 || sign == 1) && (history == 0 ==> sign == 1)
  }

  /** The residuals can be coded from this state: they fit, and no zero follows a zero run. */
  ghost predicate Codable(ps: Params, history: int, sign: int, es: seq<int>) {
    && ps.Proper()
    && Coding(history, sign)
    && (forall i :: 0 <= i < |es| ==> Zigzag(es[i]) < Pow2(ps.sampleBits))
    && (sign == 1 && |es| > 0 ==> es[0] != 0)
    && |es| <= 0x1_0000
  }

  function EncodeSample(ps: Params, history: int, sign: int, e: int): (code: seq<bool>)
    requires ps.Valid() && Coding(history, sign) && (sign == 1 ==> e != 0)
  {
    EncodeValue(Zigzag(e) - sign, ps.sampleBits, SampleK(history, ps.kModifier), 32)
  }

  /** The code of a residual sequence; the first residual decides the history for the rest. */
  ghost function Encode(ps: Params, history: int, sign: int, es: seq<int>): (code: seq<bool>)
    requires Codable(ps, history, sign, es)
    decreases |es|, 0
  {
    if |es| == 0 then []
    else
      var h1 := IdealHistory(history, Zigzag(es[0]), ps.historyMult);
      EncodeSample(ps, history, sign, es[0]) + EncodeRest(ps, h1, es[1..])
  }

  /** The code behind a sample: a zero run if the history is low, then the other samples. */
  ghost function EncodeRest(ps: Params, history: int, es: seq<int>): (code: seq<bool>)
    requires history >= 1 && Codable(ps, history, 0, es)
    decreases |es|, 1
  {
    if history < 128 && |es| > 0 then
      var run := LeadingZeros(es);
      EncodeValue(run, 16, RunK(history), ps.kModifier) + Encode(ps, 0, 1, es[run..])
    else Encode(ps, history, 0, es)
  }

  /** The decoder on the code of one sample. */
  lemma SampleTrip(ps: Params, bits: seq<bool>, st: State, e: int)
    requires ps.Valid() && Coding(st.history, st.sign) && (st.sign == 1 ==> e != 0) && Zigzag(e) < Pow2(ps.sampleBits)
    requires At(bits, st.pos, EncodeSample(ps, st.history, st.sign, e))
    ensures SampleStep(ps, bits, st)
         == Some(State(st.pos + |EncodeSample(ps, st.history, st.sign, e)|,
                       NextHistory(st.history, Zigzag(e), ps.historyMult), 0, st.out + [e]))
  {
    hide DecodeValue, EncodeValue, SampleK, NextHistory, Pow2;
    DecodeEncoded(bits, st.pos, Zigzag(e) - st.sign, ps.sampleBits, SampleK(st.history, ps.kModifier), 32);
  }

  /** A history that values of this sample size can lead to. */
  predicate Reached(ps: Params, history: int) {
    history < 512 * Pow2(ps.LoudBits())
  }

  /** Where the multiplier fits, every coded value keeps the products in an `int` and the history reached. */
  lemma StaysReached(ps: Params, history: int, d: nat)
    requires ps.Proper() && ps.Fits() && 0 <= history <= MAX_HISTORY && Reached(ps, history)
    requires d < Pow2(ps.sampleBits)
    ensures history * ps.historyMult < INT_LIMIT
    ensures NextHistory(history, d, ps.historyMult) == IdealHistory(history, d, ps.historyMult)
    ensures Reached(ps, IdealHistory(history, d, ps.historyMult))
  {
    hide Pow2, NextHistory;
    var m, p := ps.historyMult, Pow2(ps.LoudBits());
    MulLess(history, 512 * p, m);
    MulAssoc(512, p, m);
    Pow2Constants();
    NextIsIdeal(history, d, m);
    if d <= 0xFFFF {
      HistoryStep(history, d, m, p - 1);
    }
  }

  /** The decoder on the code of a zero run. */
  lemma RunTrip(ps: Params, bits: seq<bool>, capacity: nat, st: State, run: nat)
    requires ps.Valid() && 1 <= st.history < 128 && run <= 0xFFFF && |st.out| + run <= capacity
    requires At(bits, st.pos, EncodeValue(run, 16, RunK(st.history), ps.kModifier))
    ensures RunStep(ps, bits, capacity, st)
         == Some(State(st.pos + |EncodeValue(run, 16, RunK(st.history), ps.kModifier)|, 0, 1, st.out + Zeros(run)))
  {
    hide DecodeValue, EncodeValue, RunK, Pow2;
    Pow2Constants();
    DecodeEncoded(bits, st.pos, run, 16, RunK(st.history), ps.kModifier);
  }

  lemma Regroup(out: seq<int>, es: seq<int>, n: nat)
    requires n <= |es|
    ensures (out + es[..n]) + es[n..] == out + es
  {
    assert es == es[..n] + es[n..];
  }

  /** The decoder has run from st to the end of `samples`, which took `code`. */
  ghost predicate Decodes(ps: Params, bits: seq<bool>, size: nat, capacity: nat, st: State,
                          samples: seq<int>, code: seq<bool>)
    requires ps.Valid() && Ready(st, size) && size <= capacity && |st.out| <= capacity
  {
    var r := Decode(ps, bits, size, capacity, st);
    r.Some? && r.value.out == st.out + samples && r.value.pos == st.pos + |code|
  }

  /**
  Lossless entropy coding: from every state, for every codable residual sequence, the decoder
  returns exactly that sequence and stops exactly behind its code. RiceHistory.FitsExactly shows
  that no weaker condition on the multiplier would do.
  */
  lemma {:induction false} RoundTrip(ps: Params, bits: seq<bool>, size: nat, capacity: nat, st: State, es: seq<int>)
    requires Codable(ps, st.history, st.sign, es) && ps.Fits() && Reached(ps, st.history)
    requires |st.out| + |es| == size <= capacity
    requires At(bits, st.pos, Encode(ps, st.history, st.sign, es))
    ensures Decodes(ps, bits, size, capacity, st, es, Encode(ps, st.history, st.sign, es))
    decreases |es|, 0
  {
    hide SampleStep, RunStep, Step, EncodeSample, EncodeRest, IdealHistory, NextHistory, AfterSample, SampleK, Pow2;
    if |es| > 0 {
      var code := EncodeSample(ps, st.history, st.sign, es[0]);
      var h1 := IdealHistory(st.history, Zigzag(es[0]), ps.historyMult);
      AtSplit(bits, st.pos, code, EncodeRest(ps, h1, es[1..]));
      StaysReached(ps, st.history, Zigzag(es[0]));
      SampleTrip(ps, bits, st, es[0]);
      assert es[..1] == [es[0]];
      var st1 := State(st.pos + |code|, h1, 0, st.out + es[..1]);
      var st2 := RestTrip(ps, bits, size, capacity, st1, es[1..]);
      DecodeByStep(ps, bits, size, capacity, st, st1, st2);
      Regroup(st.out, es, 1);
    }
  }

  lemma {:induction false} RestTrip(ps: Params, bits: seq<bool>, size: nat, capacity: nat, st: State, es: seq<int>)
    returns (next: State)
    requires st.history >= 1 && st.sign == 0 && Codable(ps, st.history, 0, es) && |es| <= 0xFFFF
    requires ps.Fits() && Reached(ps, st.history)
    requires |st.out| + |es| == size <= capacity
    requires At(bits, st.pos, EncodeRest(ps, st.history, es))
    ensures (if |st.out| < size then AfterSample(ps, bits, capacity, st) else Some(st)) == Some(next)
    ensures Ready(next, size) && |next.out| <= size
    ensures var r := Decode(ps, bits, size, capacity, next);
            r.Some? && r.value.out == st.out + es && r.value.pos == st.pos + |EncodeRest(ps, st.history, es)|
    decreases |es|, 1
  {
    hide RunStep, Decode, EncodeValue, Encode, RunK, Pow2;
    if st.history < 128 && |es| > 0 {
      var run := LeadingZeros(es);
      var code := EncodeValue(run, 16, RunK(st.history), ps.kModifier);
      AtSplit(bits, st.pos, code, Encode(ps, 0, 1, es[run..]));
      RunTrip(ps, bits, capacity, st, run);
      next := State(st.pos + |code|, 0, 1, st.out + es[..run]);
      RoundTrip(ps, bits, size, capacity, next, es[run..]);
      Regroup(st.out, es, run);
    } else {
      next := st;
      RoundTrip(ps, bits, size, capacity, st, es);
    }
  }
}

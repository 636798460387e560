/**
The adaptive Rice entropy layer. `Step` is one turn of the decoder's loop over a bit string; its
contract is the numeric invariant that holds on every bit stream. 32-bit arithmetic wraps around,
as everywhere in this project.

A result of None means that the source would read behind its input, clear memory behind its
output buffer, or take the Rice parameter of a zero run from a history that is not positive.
*/
module Rice {
  import opened Arith
  import opened Bits
  import opened BitReader
  import opened Options

  const THRESHOLD := 8
  const MAX_HISTORY := 0x1FF_FFFF

  /** The largest parameter that a 32-bit history can lead to. */
  const MAX_K := 22

  const INT_LIMIT := 0x8000_0000

  /** The largest multiplier: a three-bit modifier times an eight-bit number, divided by four. */
  const MAX_MULT := 446

  datatype Params = Params(sampleBits: nat, initialHistory: int, kModifier: nat, historyMult: int) {
    predicate Valid() {
      && 1 <= sampleBits <= 31
      && 0 <= initialHistory <= 255
      && 1 <= kModifier <= 31
      && 0 <= historyMult <= MAX_MULT
    }

    /** What the decoder needs so that it never counts the leading zeros of zero. */
    predicate Proper() {
      Valid() && initialHistory >= 1 && historyMult >= 1
    }

    /** The multiplier keeps all histories in their bound, whatever the stream holds. */
    predicate Small() {
      Proper() && historyMult <= 64
    }

    /** The bits of the largest value that enters the history. */
    function LoudBits(): (m: nat) {
      Min(sampleBits, 16)
    }

    /** The product of history and multiplier stays in 32 bits on all values that fit the sample size. */
    predicate Fits() {
      historyMult * Pow2(LoudBits()) <= 0x40_0000
    }
  }

  // ----- the Rice parameter -----

  /** The position of the highest set bit. */
  function Log2(x: int): (r: nat)
    requires x >= 1
    ensures Pow2(r) <= x < Pow2(r + 1)
  {
    if x == 1 then 0 else Log2(x / 2) + 1
  }

  /** `count_leading_zeros` of a 32-bit number; undefined for zero. */
  function CountLeadingZeros(x: int): (r: int)
    requires 0 < x < 0x1_0000_0000
  {
    31 - Log2(x)
  }

  lemma Log2Range(x: int, lo: nat, hi: nat)
    requires x >= 1 && Pow2(lo) <= x < Pow2(hi)
    ensures lo <= Log2(x) < hi
  {
    Pow2Order(lo, Log2(x) + 1);
    Pow2Order(Log2(x), hi);
  }

  /** The parameter of a sample, limited by the stream's k-modifier. */
  function SampleK(history: int, kModifier: nat): (k: nat)
    requires 0 <= history < INT_LIMIT && kModifier >= 1
    ensures 1 <= k <= MAX_K && k <= kModifier
    ensures history <= MAX_HISTORY ==> k <= 16
  {
    LimitedKRange(history, kModifier);
    LimitedK(history, kModifier)
  }

  lemma LimitedKRange(history: int, kModifier: nat)
    requires 0 <= history < INT_LIMIT && kModifier >= 1
    ensures 1 <= LimitedK(history, kModifier) <= MAX_K && LimitedK(history, kModifier) <= kModifier
    ensures history <= MAX_HISTORY ==> LimitedK(history, kModifier) <= 16
  {
    hide Pow2, Log2;
    var x := history / 512 + 3;
    Pow2Constants();
    Pow2Limits();
    PowOne();
    Log2Range(x, 1, 23);
    if history <= MAX_HISTORY {
      Log2Range(x, 1, 17);
    }
  }

  lemma PowOne()
    ensures Pow2(1) == 2
  {}

  function LimitedK(history: int, kModifier: nat): (k: int)
    requires 0 <= history < INT_LIMIT
  {
    var k := 31 - kModifier - CountLeadingZeros(history / 512 + 3);
    if k < 0 then k + kModifier else kModifier
  }

  /** The parameter of a zero-run length. */
  function RunK(history: int): (k: nat)
    requires 1 <= history < 128
    ensures 2 <= k <= 7
  {
    assert Pow2(0) == 1 && Pow2(1) == 2 && Pow2(2) == 4 && Pow2(3) == 8;
    assert Pow2(4) == 16 && Pow2(5) == 32 && Pow2(6) == 64 && Pow2(7) == 128;
    Log2Range(history, 0, 7);
    RunKBound(history, Log2(history));
    CountLeadingZeros(history) + (history + 16) / 64 - 24
  }

  lemma RunKBound(history: int, l: nat)
    requires 1 <= history < 128 && l < 7 && Pow2(l) <= history < Pow2(l + 1)
    ensures 2 <= 31 - l + (history + 16) / 64 - 24 <= 7
  {
    assert Pow2(1) == 2 && Pow2(2) == 4 && Pow2(3) == 8 && Pow2(4) == 16;
    assert Pow2(5) == 32 && Pow2(6) == 64 && Pow2(7) == 128;
    if l == 5 {
    } else if l == 6 {
    } else {
      Pow2Mono(l + 1, 5);
    }
  }

  // ----- one coded value -----

  /** Counts ones up to and over the next zero, giving up after nine of them. */
  function Ones(bits: seq<bool>, p: nat, x: nat): (r: Option<(nat, nat)>)
    requires x <= THRESHOLD + 1
    ensures r.Some? ==> x <= r.value.0 <= THRESHOLD + 1 && p <= r.value.1
    decreases THRESHOLD + 1 - x
  {
    if x > THRESHOLD then Some((x, p))
    else if p >= |bits| then None
    else if bits[p] then Ones(bits, p + 1, x + 1)
    else Some((x, p + 1))
  }

  /** `((1 << k) - 1) & mask` for a mask of maskBits ones. */
  function Factor(k: nat, maskBits: nat): (m: int)
    requires k >= 1 && maskBits >= 1
    ensures 1 <= m < Pow2(k)
  {
    Pow2Mono(1, Min(k, maskBits));
    Pow2Mono(Min(k, maskBits), k);
    Pow2(Min(k, maskBits)) - 1
  }

  /** `entropy_decode_value` at position p: the value and the position behind it. */
  function DecodeValue(bits: seq<bool>, p: nat, sampleBits: nat, k: nat, maskBits: nat)
    : (r: Option<(nat, nat)>)
    requires 1 <= sampleBits <= 32 && 1 <= k <= MAX_K && maskBits >= 1
    ensures r.Some? ==> p <= r.value.1
    ensures r.Some? ==> r.value.0 < Pow2(sampleBits) || r.value.0 < 9 * Pow2(k)
  {
    var (x, p1) :- Ones(bits, p, 0);
    if x > THRESHOLD then
      if CanRead(bits, p1, sampleBits) then
        ValBound(bits[p1..p1 + sampleBits]);
        Some((Val(bits[p1..p1 + sampleBits]), p1 + sampleBits))
      else None
    else
      MulBound(x, THRESHOLD, Factor(k, maskBits), Pow2(k));
      if k == 1 then Some((x, p1))
      else if CanRead(bits, p1, k) then
        var extra := Val(bits[p1..p1 + k]);
        ValBound(bits[p1..p1 + k]);
        var quotient := x * Factor(k, maskBits);
        if extra > 1 then Some((quotient + extra - 1, p1 + k)) else Some((quotient, p1 + k - 1))
      else None
  }

  lemma MulBound(a: nat, a': nat, b: nat, b': nat)
    requires a <= a' && b <= b'
    ensures 0 <= a * b <= a' * b'
  {}

  // ----- the decoder's loop -----

  function Unzigzag(d: nat): (e: int) {
    if d % 2 == 1 then -((d + 1) / 2) else (d + 1) / 2
  }

  function Zigzag(e: int): (d: nat)
    ensures Unzigzag(d) == e
  {
    ZigzagHalves(e);
    if e >= 0 then 2 * e else -2 * e - 1
  }

  lemma ZigzagHalves(e: int)
    ensures (2 * e) % 2 == 0 && (2 * e + 1) / 2 == e
    ensures (-2 * e - 1) % 2 == 1 && (-2 * e) / 2 == -e
  {
    DivModUnique(2 * e, 2, e, 0);
    DivModUnique(2 * e + 1, 2, e, 1);
    DivModUnique(-2 * e - 1, 2, -e - 1, 1);
    DivModUnique(-2 * e, 2, -e, 0);
  }

  /** The history as it is meant, without a limit on the product. */
  function IdealHistory(history: int, d: nat, mult: int): (h: int)
    requires 0 <= history <= MAX_HISTORY && 0 <= mult < 512
    ensures 0 <= h <= MAX_HISTORY
    ensures history >= 1 || (d >= 1 && mult >= 1) ==> h >= 1
  {
    if d > 0xFFFF then 0xFFFF
    else
      HistoryStep(history, d, mult, 0xFFFF);
      history + d * mult - history * mult / 512
  }

  /** The source's update, in 32-bit arithmetic. */
  function NextHistory(history: int, d: nat, mult: int): (h: int)
    ensures -INT_LIMIT <= h < INT_LIMIT
  {
    if d > 0xFFFF then 0xFFFF
    else Wrap32(history + d * mult - Wrap32(history * mult) / 512)
  }

  /** While the product fits, the source's update is the ideal one. */
  lemma NextIsIdeal(history: int, d: nat, mult: int)
    requires 0 <= history <= MAX_HISTORY && 0 <= mult < 512 && history * mult < INT_LIMIT
    ensures NextHistory(history, d, mult) == IdealHistory(history, d, mult)
  {
    hide Wrap32;
    MulBound(history, history, mult, mult);
  }

  /** With values up to `top`, the decay takes less than the history, and more than the growth near the bound. */
  lemma HistoryStep(history: int, d: nat, mult: int, top: nat)
    requires 0 <= history <= 512 * top + 511 && d <= top && 0 <= mult < 512
    ensures 0 <= history + d * mult - history * mult / 512 <= 512 * top + 511
    ensures history >= 1 || (d >= 1 && mult >= 1) ==> history + d * mult - history * mult / 512 >= 1
  {
    var gap := 512 * top + 511 - history;
    MulBound(history, history, mult, 511);
    MulBound(d, top, mult, mult);
    MulBound(gap, gap, mult, 511);
    MulDist(gap, history, mult);
    MulDist(512 * top, 511, mult);
    MulAssoc(512, top, mult);
    if d >= 1 {
      MulDist(d - 1, 1, mult);
      MulBound(d - 1, d - 1, mult, mult);
    }
    HistoryBounds(history, mult, gap, history * mult, d * mult, top * mult, gap * mult);
  }

  /** The linear part of HistoryStep. */
  lemma HistoryBounds(history: int, mult: int, gap: int, decay: int, growth: int, most: int, slack: int)
    requires 0 <= history && 0 <= gap && 0 <= mult < 512
    requires 0 <= decay <= 511 * history && 0 <= growth <= most
    requires slack + decay == 512 * most + 511 * mult && slack <= 511 * gap
    ensures 0 <= history + growth - decay / 512 <= history + gap
    ensures history >= 1 || growth >= 1 ==> history + growth - decay / 512 >= 1
  {}

  datatype State = State(pos: nat, history: int, sign: int, out: seq<int>)

  /** Holds after every turn of the loop, on every bit stream. */
  predicate Inv(st: State) {
    -INT_LIMIT <= st.history < INT_LIMIT && (st.sign == 0 || st.sign == 1)
  }

  /** Holds as well if the multiplier is small: the history has its bound, and is zero only behind a run. */
  predicate Bounded(st: State) {
    0 <= st.history <= MAX_HISTORY && (st.history == 0 ==> st.sign == 1)
  }

  function Zeros(n: nat): (zs: seq<int>)
    ensures |zs| == n
  {
    seq(n, _ => 0)
  }

  /** The first half of a turn: one sample, and the history it leaves. */
  function SampleStep(ps: Params, bits: seq<bool>, st: State): (r: Option<State>)
    requires ps.Valid() && Inv(st) && st.history >= 0
    ensures r.Some? ==> Inv(r.value) && r.value.sign == 0
    ensures r.Some? ==> st.out < r.value.out && |r.value.out| == |st.out| + 1
    ensures r.Some? && ps.Small() && Bounded(st) ==> 1 <= r.value.history <= MAX_HISTORY
  {
    var (raw, p) :- DecodeValue(bits, st.pos, ps.sampleBits, SampleK(st.history, ps.kModifier), 32);
    var d := raw + st.sign;
    SmallStays(ps, st, d);
    Some(State(p, NextHistory(st.history, d, ps.historyMult), 0, st.out + [Unzigzag(d)]))
  }

  /** A multiplier of at most 64 keeps the product in 32 bits and the history in its bound. */
  lemma SmallStays(ps: Params, st: State, d: nat)
    requires Inv(st) && d >= st.sign
    ensures ps.Small() && Bounded(st) ==> st.history * ps.historyMult < INT_LIMIT
    ensures ps.Small() && Bounded(st) ==> 1 <= NextHistory(st.history, d, ps.historyMult) <= MAX_HISTORY
  {
    if ps.Small() && Bounded(st) {
      MulBound(st.history, MAX_HISTORY, ps.historyMult, 64);
      NextIsIdeal(st.history, d, ps.historyMult);
    }
  }

  /** The second half of a turn when the history is low: a run of zeros. */
  function RunStep(ps: Params, bits: seq<bool>, capacity: nat, st: State): (r: Option<State>)
    requires ps.Valid() && 1 <= st.history < 128 && |st.out| <= capacity
    ensures r.Some? ==> Inv(r.value) && Bounded(r.value) && st.out <= r.value.out && |r.value.out| <= capacity
    ensures r.Some? ==> |r.value.out| - |st.out| <= 0xFFFF
  {
    var (run, p) :- DecodeValue(bits, st.pos, 16, RunK(st.history), ps.kModifier);
    if |st.out| + run > capacity then None
    else
      RunFits16(bits, st.pos, RunK(st.history), ps.kModifier);
      Some(State(p, 0, if run > 0xFFFF then 0 else 1, st.out + Zeros(run)))
  }

  /** What follows a sample that was not the last one: a run, nothing, or an undefined parameter. */
  function AfterSample(ps: Params, bits: seq<bool>, capacity: nat, st: State): (r: Option<State>)
    requires ps.Valid() && Inv(st) && |st.out| <= capacity
    ensures r.Some? ==> Inv(r.value) && r.value.history >= 0
    ensures r.Some? ==> st.out <= r.value.out && |r.value.out| <= capacity
    ensures r.Some? && 1 <= st.history <= MAX_HISTORY ==> Bounded(r.value)
  {
    if st.history < 1 then None
    else if st.history < 128 then RunStep(ps, bits, capacity, st)
    else Some(st)
  }

  /** One turn of the loop in `entropy_rice_decode`; `capacity` is the size of the output buffer. */
  function Step(ps: Params, bits: seq<bool>, size: nat, capacity: nat, st: State): (r: Option<State>)
    requires ps.Valid() && Inv(st) && st.history >= 0 && |st.out| < size <= capacity
    ensures r.Some? ==> Inv(r.value) && (|r.value.out| < size ==> r.value.history >= 0)
    ensures r.Some? ==> st.out < r.value.out && |r.value.out| <= capacity
    ensures r.Some? && ps.Small() && Bounded(st) ==> Bounded(r.value)
  {
    var st1 :- SampleStep(ps, bits, st);
    if |st1.out| < size then AfterSample(ps, bits, capacity, st1) else Some(st1)
  }

  /** A zero-run length has at most 16 bits, whatever the stream holds. */
  lemma RunFits16(bits: seq<bool>, p: nat, k: nat, maskBits: nat)
    requires 2 <= k <= 7 && maskBits >= 1
    ensures DecodeValue(bits, p, 16, k, maskBits).Some? ==> DecodeValue(bits, p, 16, k, maskBits).value.0 <= 0xFFFF
  {
    Pow2Constants();
    Pow2Mono(k, 7);
  }

  /** The loop can take its next turn, if there is one. */
  predicate Ready(st: State, size: nat) {
    Inv(st) && (|st.out| < size ==> st.history >= 0)
  }

  /** `entropy_rice_decode` from a given loop state on. */
  function Decode(ps: Params, bits: seq<bool>, size: nat, capacity: nat, st: State): (r: Option<State>)
    requires ps.Valid() && Ready(st, size) && size <= capacity && |st.out| <= capacity
    ensures r.Some? ==> Inv(r.value) && st.out <= r.value.out && size <= |r.value.out| <= capacity
    decreases size - |st.out|
  {
    if |st.out| >= size then Some(st)
    else
      var st1 :- Step(ps, bits, size, capacity, st);
      Decode(ps, bits, size, capacity, st1)
  }

  /** One turn of the loop, by its two halves. */
  lemma DecodeByStep(ps: Params, bits: seq<bool>, size: nat, capacity: nat, st: State, st1: State, st2: State)
    requires ps.Valid() && Inv(st) && st.history >= 0 && |st.out| < size <= capacity
    requires SampleStep(ps, bits, st) == Some(st1)
    requires (if |st1.out| < size then AfterSample(ps, bits, capacity, st1) else Some(st1)) == Some(st2)
    ensures Ready(st2, size) && |st2.out| <= capacity
    ensures Decode(ps, bits, size, capacity, st) == Decode(ps, bits, size, capacity, st2)
  {
    hide SampleStep, AfterSample;
    assert Step(ps, bits, size, capacity, st) == Some(st2);
  }

  /** A turn that the decoder gets through, given that it gets to the end. */
  lemma DecodeTurns(ps: Params, bits: seq<bool>, size: nat, capacity: nat, st: State)
    requires ps.Valid() && Inv(st) && st.history >= 0 && |st.out| < size <= capacity
    requires Decode(ps, bits, size, capacity, st).Some?
    ensures SampleStep(ps, bits, st).Some?
    ensures var st1 := SampleStep(ps, bits, st).value;
            |st1.out| < size ==> AfterSample(ps, bits, capacity, st1).Some?
  {
    hide SampleStep, AfterSample;
  }

  lemma DecodeDone(ps: Params, bits: seq<bool>, size: nat, capacity: nat, st: State)
    requires ps.Valid() && Inv(st) && size <= |st.out| <= capacity
    ensures Decode(ps, bits, size, capacity, st) == Some(st)
  {}

  function Initial(ps: Params, pos: nat): (st: State)
    requires ps.Valid()
    ensures Inv(st) && st.history >= 0 && (ps.Proper() ==> Bounded(st))
  {
    State(pos, ps.initialHistory, 0, [])
  }

  /** The loop state after k turns of `entropy_rice_decode`, on any bit stream. */
  function AfterTurns(ps: Params, bits: seq<bool>, size: nat, capacity: nat, pos: nat, k: nat): (r: Option<State>)
    requires ps.Valid() && size <= capacity
    ensures r.Some? ==> Ready(r.value, size) && k <= |r.value.out| <= capacity
    ensures r.Some? && ps.Small() ==> Bounded(r.value) && r.value.history * ps.historyMult < INT_LIMIT
  {
    if k == 0 then
      SmallStays(ps, Initial(ps, pos), 0);
      Some(Initial(ps, pos))
    else
      var st :- AfterTurns(ps, bits, size, capacity, pos, k - 1);
      if |st.out| < size then
        var st1 :- Step(ps, bits, size, capacity, st);
        SmallStays(ps, st1, 1);
        Some(st1)
      else None
  }
}

/**
When the history arithmetic of the entropy decoder stays within 32-bit integers, and what happens
when it does not. The decoder computes history * multiplier in an `int`. Loud values pull the
history geometrically towards a balance point; if the product wraps around on the way, silence no
longer brings the decoder's history down, and it reads zeros where the encoder wrote something
else. So every code is restored exactly when the multiplier times the range of the values is at
most 2^22.
*/
module RiceHistory {
  import opened Arith
  import opened Bits
  import opened BitReader
  import opened Options
  import opened Rice
  import opened RiceEncoder

  /** So many values can make a code that is not restored. */
  const ENOUGH: nat := CLIMB + QUIET
  const CLIMB: nat := 54
  const QUIET: nat := 110

  /** The history after i values d. */
  function HistoryAfter(h: int, d: nat, mult: int, i: nat): (h': int)
    requires 0 <= h <= MAX_HISTORY && 1 <= mult < 512
    ensures 0 <= h' <= MAX_HISTORY
    decreases i
  {
    if i == 0 then h else IdealHistory(HistoryAfter(h, d, mult, i - 1), d, mult)
  }

  lemma {:induction false} HistoryAfterFirst(h: int, d: nat, mult: int, i: nat)
    requires 0 <= h <= MAX_HISTORY && 1 <= mult < 512
    ensures HistoryAfter(h, d, mult, i + 1) == HistoryAfter(IdealHistory(h, d, mult), d, mult, i)
    decreases i
  {
    hide IdealHistory;
    if i > 0 {
      HistoryAfterFirst(h, d, mult, i - 1);
    }
  }

  // ----- the geometric approach -----

  /** The distance of the history from its balance point, from below. */
  function Gap(h: int, d: nat): (g: nat) {
    if h < 512 * d then 512 * d - h else 0
  }

  /** One value takes the share mult / 512 of the distance, rounded up. */
  lemma Approach(h: int, d: nat, mult: int)
    requires 0 <= h <= MAX_HISTORY && 1 <= mult < 512 && d <= 0xFFFF
    ensures 512 * Gap(IdealHistory(h, d, mult), d) <= (512 - mult) * Gap(h, d)
    ensures IdealHistory(h, d, mult) >= d * mult
  {
    var g := 512 * d - h;
    MulDist(g, h, mult);
    MulAssoc(512, d, mult);
    MulDist(512 - mult, mult, g);
    MulBound(h, h, mult, 512);
    if g < 0 {
      MulLess(g, 0, 512 - mult);
    } else {
      MulBound(512 - mult, 512, g, g);
    }
  }

  /** Six values halve it, if the multiplier is at least 64. */
  lemma Halves(h: int, d: nat, mult: int, i: nat)
    requires 0 <= h <= MAX_HISTORY && 64 <= mult < 512 && d <= 0xFFFF
    ensures 2 * Gap(HistoryAfter(h, d, mult, i + 6), d) <= Gap(HistoryAfter(h, d, mult, i), d)
  {
    hide Gap, IdealHistory;
    Eighth(h, d, mult, i);
    Eighth(h, d, mult, i + 1);
    Eighth(h, d, mult, i + 2);
    Eighth(h, d, mult, i + 3);
    Eighth(h, d, mult, i + 4);
    Eighth(h, d, mult, i + 5);
  }

  lemma Eighth(h: int, d: nat, mult: int, i: nat)
    requires 0 <= h <= MAX_HISTORY && 64 <= mult < 512 && d <= 0xFFFF
    ensures 8 * Gap(HistoryAfter(h, d, mult, i + 1), d) <= 7 * Gap(HistoryAfter(h, d, mult, i), d)
  {
    hide Gap, IdealHistory;
    var g := Gap(HistoryAfter(h, d, mult, i), d);
    Approach(HistoryAfter(h, d, mult, i), d, mult);
    MulBound(512 - mult, 448, g, g);
  }

  lemma {:induction false} HalvesOften(h: int, d: nat, mult: int, j: nat)
    requires 0 <= h <= MAX_HISTORY && 64 <= mult < 512 && d <= 0xFFFF
    ensures Pow2(j) * Gap(HistoryAfter(h, d, mult, 6 * j), d) <= Gap(h, d)
    decreases j
  {
    hide Gap, HistoryAfter;
    if j == 0 {
      assert HistoryAfter(h, d, mult, 0) == h by { NoValues(h, d, mult); }
    } else {
      HalvesOften(h, d, mult, j - 1);
      Halves(h, d, mult, 6 * j - 6);
      var g, g' := Gap(HistoryAfter(h, d, mult, 6 * j - 6), d), Gap(HistoryAfter(h, d, mult, 6 * j), d);
      MulBound(2 * g', g, Pow2(j - 1), Pow2(j - 1));
      MulAssoc(g', 2, Pow2(j - 1));
    }
  }

  lemma NoValues(h: int, d: nat, mult: int)
    requires 0 <= h <= MAX_HISTORY && 1 <= mult < 512
    ensures HistoryAfter(h, d, mult, 0) == h
  {}

  /** 54 values bring the history to within one part in 512 of the balance point. */
  lemma Balanced(h: int, d: nat, mult: int)
    requires 0 <= h <= MAX_HISTORY && 64 <= mult < 512 && d <= 0xFFFF
    ensures HistoryAfter(h, d, mult, 54) >= 511 * d
  {
    hide HistoryAfter;
    HalvesOften(h, d, mult, 9);
    assert Pow2(9) == 512;
  }

  // ----- climbing to the overflow -----

  /** The smallest history whose product with the multiplier leaves an `int`. */
  function Top(mult: int): (t: int)
    requires 1 <= mult
    ensures t * mult >= INT_LIMIT && (t - 1) * mult < INT_LIMIT
  {
    DivMod(INT_LIMIT - 1, mult);
    var q := (INT_LIMIT - 1) / mult;
    MulDist(q, 1, mult);
    q + 1
  }

  /** A value that drives the history up to the top, in steps that do not pass it by far. */
  function Pace(mult: int): (d: int)
    requires 1 <= mult
    ensures 511 * d >= Top(mult) && 511 * (d - 1) < Top(mult)
  {
    (Top(mult) + 510) / 511
  }

  /** A multiplier that does not fit is large, and the pace fits the sample size. */
  lemma TooLarge(ps: Params)
    requires ps.Valid() && !ps.Fits()
    ensures ps.LoudBits() >= 14 && ps.historyMult >= 65
    ensures 511 * (Pow2(ps.LoudBits()) - 1) * ps.historyMult >= INT_LIMIT
  {
    assert Pow2(13) == 0x2000 && Pow2(14) == 0x4000;
    Pow2Limits();
    Pow2Constants();
    var m := ps.LoudBits();
    if m <= 13 {
      Pow2Mono(m, 13);
      MulBound(ps.historyMult, MAX_MULT, Pow2(m), 0x2000);
    }
  }

  lemma PaceFits(ps: Params)
    requires ps.Valid() && !ps.Fits()
    ensures 256 <= Pace(ps.historyMult) < Pow2(ps.LoudBits()) && 256 <= Top(ps.historyMult) <= MAX_HISTORY
    ensures Pace(ps.historyMult) <= 0xFFFF && Pace(ps.historyMult) < Pow2(ps.sampleBits)
  {
    hide Pow2;
    TooLarge(ps);
    var mult, most, t := ps.historyMult, Pow2(ps.LoudBits()) - 1, Top(ps.historyMult);
    if t > 511 * most {
      MulBound(511 * most, t - 1, mult, mult);
    }
    if t < 0x40_0000 {
      MulBound(t, 0x40_0000, mult, MAX_MULT);
    }
    Pow2Constants();
    Pow2Mono(ps.LoudBits(), 16);
    Pow2Mono(ps.LoudBits(), ps.sampleBits);
  }

  /** How many values at the pace the climb takes. */
  function Climbs(h: int, mult: int, i: nat): (n: nat)
    requires 0 <= h <= MAX_HISTORY && 65 <= mult <= MAX_MULT && i <= CLIMB
    requires 0 <= Pace(mult) <= 0xFFFF && HistoryAfter(h, Pace(mult), mult, CLIMB) >= Top(mult)
    ensures i <= n <= CLIMB && HistoryAfter(h, Pace(mult), mult, n) >= Top(mult)
    ensures forall j :: i <= j < n ==> HistoryAfter(h, Pace(mult), mult, j) < Top(mult)
    decreases CLIMB - i
  {
    if i == CLIMB || HistoryAfter(h, Pace(mult), mult, i) >= Top(mult) then i else Climbs(h, mult, i + 1)
  }

  /** The products from which the decoder's history does not come down again. */
  predicate Stuck(h: int, mult: int) {
    INT_LIMIT <= h * mult < 2 * INT_LIMIT + 512
  }

  /** One step at the pace from below the top leads at most into the stuck products. */
  lemma StepOver(h: int, mult: int)
    requires 0 <= h <= MAX_HISTORY && 65 <= mult <= MAX_MULT && h < Top(mult) && 0 <= Pace(mult) <= 0xFFFF
    requires IdealHistory(h, Pace(mult), mult) >= Top(mult)
    ensures Stuck(IdealHistory(h, Pace(mult), mult), mult)
  {
    var d, t := Pace(mult), Top(mult);
    var h' := IdealHistory(h, d, mult);
    MulBound(h, t - 1, mult, mult);
    MulBound(t, h', mult, mult);
    PaceSmall(mult);
    assert h' <= h + d * mult;
    MulBound(h', h + d * mult, mult, mult);
    MulDist(h, d * mult, mult);
    MulBound(d * mult, 4_203_000, mult, MAX_MULT);
  }

  lemma PaceSmall(mult: int)
    requires 1 <= mult <= MAX_MULT
    ensures Pace(mult) * mult <= 4_203_000
  {
    var d, t := Pace(mult), Top(mult);
    MulDist(511 * (d - 1), 511, mult);
    MulAssoc(511, d - 1, mult);
    MulDist(d - 1, 1, mult);
    MulDist(t - 1, 1, mult);
    if 511 * (d - 1) < t - 1 {
      MulLess(511 * (d - 1), t - 1, mult);
    }
  }

  lemma HistorySize(h: int, mult: int)
    requires Stuck(h, mult) && 65 <= mult <= MAX_MULT && 0 <= h
    ensures 128 <= h < 0x800_0000
  {
    if h < 128 {
      MulBound(h, 128, mult, MAX_MULT);
    } else if h >= 0x800_0000 {
      MulBound(0x800_0000, h, 65, mult);
    }
  }

  /** Silence keeps the decoder's history there. */
  lemma StuckStays(h: int, mult: int)
    requires Stuck(h, mult) && 65 <= mult <= MAX_MULT && 0 <= h
    ensures h <= NextHistory(h, 0, mult) && Stuck(NextHistory(h, 0, mult), mult)
    ensures 128 <= NextHistory(h, 0, mult)
  {
    var product := h * mult;
    HistorySize(h, mult);
    var wrapped := product - 2 * INT_LIMIT;
    assert Wrap32(product) == wrapped;
    var c := -(wrapped / 512);
    assert 0 <= c && 512 * (c - 1) < -wrapped <= 512 * c;
    assert NextHistory(h, 0, mult) == h + c;
    MulDist(h, c, mult);
    MulBound(c, c, mult, MAX_MULT);
  }

  // ----- silence -----

  /** n residuals whose code has no set bit: zero, or minus one where zero cannot follow a run. */
  ghost function Silent(ps: Params, h: int, sign: int, n: nat): (es: seq<int>)
    requires ps.Proper() && Coding(h, sign)
    ensures |es| == n && forall i :: 0 <= i < n ==> es[i] == 0 || es[i] == -1
    ensures n > 0 ==> es[0] == -sign
    ensures Codable(ps, h, sign, es) || n > 0x1_0000
    decreases n
  {
    if n == 0 then []
    else
      var h1 := IdealHistory(h, sign, ps.historyMult);
      FitsOne(ps);
      [-sign] + if h1 < 128 then Silent(ps, 0, 1, n - 1) else Silent(ps, h1, 0, n - 1)
  }

  lemma FitsOne(ps: Params)
    requires ps.Valid()
    ensures Zigzag(0) < Pow2(ps.sampleBits) && Zigzag(-1) < Pow2(ps.sampleBits)
  {
    Pow2Mono(1, ps.sampleBits);
    assert Pow2(1) == 2;
  }

  predicate NoBits(code: seq<bool>) {
    forall i :: 0 <= i < |code| ==> !code[i]
  }

  lemma ZeroCode(sampleBits: nat, k: nat, maskBits: nat)
    requires k >= 1 && maskBits >= 1
    ensures NoBits(EncodeValue(0, sampleBits, k, maskBits))
  {
    var m := Factor(k, maskBits);
    DivModUnique(0, m, 0, 0);
  }

  lemma NoBitsJoin(a: seq<bool>, b: seq<bool>)
    requires NoBits(a) && NoBits(b)
    ensures NoBits(a + b)
  {}

  lemma {:induction false} SilentCode(ps: Params, h: int, sign: int, n: nat)
    requires ps.Proper() && Coding(h, sign) && n <= 0x1_0000
    ensures NoBits(Encode(ps, h, sign, Silent(ps, h, sign, n)))
    decreases n
  {
    hide EncodeValue, IdealHistory, NoBits, SampleK, RunK;
    if n == 0 {
      NoCode(ps, h, sign);
    } else {
      var h1 := IdealHistory(h, sign, ps.historyMult);
      var es := Silent(ps, h, sign, n);
      assert Zigzag(-sign) == sign;
      ZeroCode(ps.sampleBits, SampleK(h, ps.kModifier), 32);
      var rest := es[1..];
      if h1 < 128 {
        assert rest == Silent(ps, 0, 1, n - 1);
        SilentCode(ps, 0, 1, n - 1);
        if n > 1 {
          assert LeadingZeros(rest) == 0 && rest[0..] == rest;
          ZeroCode(16, RunK(h1), ps.kModifier);
          NoBitsJoin(EncodeValue(0, 16, RunK(h1), ps.kModifier), Encode(ps, 0, 1, rest));
        } else {
          NoCode(ps, h1, 0);
        }
      } else {
        assert rest == Silent(ps, h1, 0, n - 1);
        SilentCode(ps, h1, 0, n - 1);
      }
      NoBitsJoin(EncodeSample(ps, h, sign, -sign), EncodeRest(ps, h1, rest));
    }
  }

  lemma NoCode(ps: Params, h: int, sign: int)
    requires ps.Proper() && Coding(h, sign)
    ensures NoBits(Encode(ps, h, sign, []))
  {}

  /** How many zeros bring a history below the limit of zero runs. */
  function Quiets(h: int, mult: int): (n: nat)
    requires 0 <= h <= MAX_HISTORY && 64 <= mult < 512
    decreases h
  {
    if h < 128 then 0
    else
      MulBound(128, h, 64, mult);
      Quiets(IdealHistory(h, 0, mult), mult) + 1
  }

  /** Each takes at least fifteen parts in 128. */
  lemma Quieter(h: int, mult: int)
    requires 128 <= h <= MAX_HISTORY && 64 <= mult < 512
    ensures 128 * IdealHistory(h, 0, mult) <= 113 * h
    ensures Quiets(h, mult) == Quiets(IdealHistory(h, 0, mult), mult) + 1
  {
    MulBound(h, h, 64, mult);
  }

  /** Three take more than three in ten, if the history stays high enough. */
  lemma QuietThrice(h: int, mult: int) returns (h': int)
    requires 128 <= h <= MAX_HISTORY && 64 <= mult < 512
    ensures 0 <= h' <= MAX_HISTORY && (h' < 128 || 10 * h' <= 7 * h)
    ensures Quiets(h, mult) <= Quiets(h', mult) + 3
  {
    hide IdealHistory, Quiets;
    Quieter(h, mult);
    h' := IdealHistory(h, 0, mult);
    if h' >= 128 {
      Quieter(h', mult);
      h' := IdealHistory(h', 0, mult);
      if h' >= 128 {
        Quieter(h', mult);
        h' := IdealHistory(h', 0, mult);
      }
    }
  }

  lemma {:induction false} QuietsBound(h: int, mult: int, j: nat)
    requires 0 <= h <= MAX_HISTORY && 64 <= mult < 512 && h < 128 * Pow2(j)
    ensures Quiets(h, mult) <= 6 * j
    decreases j
  {
    if h >= 128 {
      hide Quiets;
      assert Pow2(0) == 1;
      var h' := QuietThrice(h, mult);
      if h' >= 128 {
        h' := QuietThrice(h', mult);
      }
      if h' < 128 {
        QuietAlready(h', mult);
      } else {
        QuietsBound(h', mult, j - 1);
      }
    }
  }

  lemma QuietAlready(h: int, mult: int)
    requires 0 <= h < 128 && 64 <= mult < 512
    ensures Quiets(h, mult) == 0
  {}

  /** Enough silence has a residual that is not zero. */
  lemma {:induction false} SilentBreaks(ps: Params, h: int, n: nat)
    requires ps.Proper() && ps.historyMult >= 64 && Coding(h, 0) && h >= 128 && n > Quiets(h, ps.historyMult)
    ensures Silent(ps, h, 0, n)[Quiets(h, ps.historyMult)] == -1
    decreases n
  {
    hide IdealHistory;
    Quieter(h, ps.historyMult);
    var h1 := IdealHistory(h, 0, ps.historyMult);
    if h1 < 128 {
      QuietAlready(h1, ps.historyMult);
      assert Silent(ps, h, 0, n) == [0] + Silent(ps, 0, 1, n - 1);
    } else {
      SilentBreaks(ps, h1, n - 1);
      assert Silent(ps, h, 0, n) == [0] + Silent(ps, h1, 0, n - 1);
    }
  }

  lemma QuietEnough(h: int, mult: int)
    requires 0 <= h <= MAX_HISTORY && 64 <= mult < 512
    ensures Quiets(h, mult) < QUIET
  {
    hide Pow2, Quiets;
    assert Pow2(18) == 0x4_0000 by {
      Pow2Constants();
      assert Pow2(18) == 2 * Pow2(17) by { Doubled(17); }
    }
    QuietsBound(h, mult, 18);
  }

  lemma Doubled(n: nat)
    ensures Pow2(n + 1) == 2 * Pow2(n)
  {}

  // ----- the decoder -----

  lemma ValNone(bits: seq<bool>)
    requires NoBits(bits)
    ensures Val(bits) == 0
  {
    ValZeros(|bits|);
    assert bits == Repeat(false, |bits|);
  }

  /** Where no bit is set the decoder reads zero, or behind the end. */
  lemma DecodeNone(bits: seq<bool>, p: nat, sampleBits: nat, k: nat, maskBits: nat)
    requires 1 <= sampleBits <= 32 && 1 <= k <= MAX_K && maskBits >= 1
    requires forall i :: p <= i < |bits| ==> !bits[i]
    ensures var r := DecodeValue(bits, p, sampleBits, k, maskBits); r.Some? ==> r.value.0 == 0 && r.value.1 >= p
  {
    if p < |bits| && k > 1 && CanRead(bits, p + 1, k) {
      ValNone(bits[p + 1..p + 1 + k]);
    }
  }

  /** A stuck decoder reads nothing but zeros from silence. */
  lemma {:induction false} StuckDecodes(ps: Params, bits: seq<bool>, size: nat, capacity: nat, st: State)
    requires ps.Proper() && 65 <= ps.historyMult && Inv(st) && st.sign == 0 && st.history >= 0
    requires Stuck(st.history, ps.historyMult) && |st.out| <= size <= capacity
    requires forall i :: st.pos <= i < |bits| ==> !bits[i]
    ensures var r := Decode(ps, bits, size, capacity, st);
            && (r.Some? ==> |r.value.out| == size && st.out <= r.value.out)
            && (r.Some? ==> forall i :: |st.out| <= i < size ==> r.value.out[i] == 0)
    decreases size - |st.out|
  {
    hide DecodeValue, NextHistory, SampleK, RunStep, Stuck;
    if |st.out| < size {
      DecodeNone(bits, st.pos, ps.sampleBits, SampleK(st.history, ps.kModifier), 32);
      StuckStays(st.history, ps.historyMult);
      var r := SampleStep(ps, bits, st);
      if r.Some? {
        assert r.value.out == st.out + [0];
        StuckDecodes(ps, bits, size, capacity, r.value);
      }
    }
  }

  // ----- a code that is not restored -----

  lemma ZigzagUnzigzag(d: nat)
    ensures Zigzag(Unzigzag(d)) == d
  {}

  function Steady(e: int, n: nat): (es: seq<int>)
    ensures |es| == n && forall i :: 0 <= i < n ==> es[i] == e
  {
    seq(n, _ => e)
  }

  /** The decoder follows the encoder up to the top. */
  lemma {:induction false} ClimbTrip(ps: Params, bits: seq<bool>, size: nat, capacity: nat, st: State, d: nat, n: nat,
                                     tail: seq<int>)
    returns (top: State)
    requires ps.Proper() && st.sign == 0 && 128 <= d <= 0xFFFF && |st.out| + n + |tail| == size <= capacity
             && |tail| > 0
    requires Codable(ps, st.history, 0, Steady(Unzigzag(d), n) + tail)
    requires At(bits, st.pos, Encode(ps, st.history, 0, Steady(Unzigzag(d), n) + tail))
    requires forall i :: 0 <= i < n ==> HistoryAfter(st.history, d, ps.historyMult, i) < Top(ps.historyMult)
    ensures top.history == HistoryAfter(st.history, d, ps.historyMult, n) && top.sign == 0
    ensures top.out == st.out + Steady(Unzigzag(d), n) && Codable(ps, top.history, 0, tail)
    ensures At(bits, top.pos, Encode(ps, top.history, 0, tail))
    ensures top.pos + |Encode(ps, top.history, 0, tail)|
         == st.pos + |Encode(ps, st.history, 0, Steady(Unzigzag(d), n) + tail)|
    ensures Decode(ps, bits, size, capacity, st) == Decode(ps, bits, size, capacity, top)
    decreases n
  {
    hide SampleStep, RunStep, EncodeSample, EncodeRest, NextHistory, IdealHistory, SampleK, Pow2, At, Unzigzag, Zigzag,
      Decode, Encode;
    var e, mult := Unzigzag(d), ps.historyMult;
    var es := Steady(e, n) + tail;
    if n == 0 {
      assert es == tail;
      assert st.out + Steady(e, 0) == st.out;
      top := st;
    } else {
      ZigzagUnzigzag(d);
      assert es[0] == e && es[1..] == Steady(e, n - 1) + tail;
      NoValues(st.history, d, mult);
      BelowTop(st.history, mult);
      NextIsIdeal(st.history, d, mult);
      Approach(st.history, d, mult);
      MulBound(128, d, 1, mult);
      var h1 := IdealHistory(st.history, d, mult);
      var code := EncodeSample(ps, st.history, 0, e);
      LoudCode(ps, st.history, es);
      AtSplit(bits, st.pos, code, Encode(ps, h1, 0, es[1..]));
      SampleTrip(ps, bits, st, e);
      var st1 := State(st.pos + |code|, h1, 0, st.out + [e]);
      DecodeByStep(ps, bits, size, capacity, st, st1, st1);
      forall i | 0 <= i < n - 1 ensures HistoryAfter(h1, d, mult, i) < Top(mult) {
        HistoryAfterFirst(st.history, d, mult, i);
        assert HistoryAfter(st.history, d, mult, i + 1) < Top(mult);
      }
      top := ClimbTrip(ps, bits, size, capacity, st1, d, n - 1, tail);
      HistoryAfterFirst(st.history, d, mult, n - 1);
      assert st1.out + Steady(e, n - 1) == st.out + Steady(e, n);
    }
  }

  /** A sample that leaves a high history is followed by the next sample. */
  lemma LoudCode(ps: Params, history: int, es: seq<int>)
    requires Codable(ps, history, 0, es) && |es| > 0 && IdealHistory(history, Zigzag(es[0]), ps.historyMult) >= 128
    ensures var h1 := IdealHistory(history, Zigzag(es[0]), ps.historyMult);
            && Codable(ps, h1, 0, es[1..])
            && Encode(ps, history, 0, es) == EncodeSample(ps, history, 0, es[0]) + Encode(ps, h1, 0, es[1..])
  {
    hide EncodeSample, IdealHistory, Zigzag, Pow2;
  }

  lemma BelowTop(h: int, mult: int)
    requires 1 <= mult && 0 <= h < Top(mult)
    ensures h * mult < INT_LIMIT
  {
    MulBound(h, Top(mult) - 1, mult, mult);
  }

  /** How long the climb is, and where it ends. */
  lemma ClimbEnds(ps: Params) returns (n: nat, h: int)
    requires ps.Proper() && !ps.Fits()
    ensures var d := Pace(ps.historyMult);
            && 256 <= d <= 0xFFFF && d < Pow2(ps.sampleBits) && 1 <= n <= CLIMB
            && h == HistoryAfter(ps.initialHistory, d, ps.historyMult, n) && Stuck(h, ps.historyMult)
            && forall i :: 0 <= i < n ==> HistoryAfter(ps.initialHistory, d, ps.historyMult, i) < Top(ps.historyMult)
    ensures 65 <= ps.historyMult && 256 <= h <= MAX_HISTORY
  {
    hide Pow2, IdealHistory, Stuck;
    TooLarge(ps);
    PaceFits(ps);
    var mult := ps.historyMult;
    var d := Pace(mult);
    Balanced(ps.initialHistory, d, mult);
    n := Climbs(ps.initialHistory, mult, 0);
    h := HistoryAfter(ps.initialHistory, d, mult, n);
    NoValues(ps.initialHistory, d, mult);
    StepOver(HistoryAfter(ps.initialHistory, d, mult, n - 1), mult);
  }

  /** Behind the code of es no bit is set. */
  ghost predicate SilentBehind(ps: Params, es: seq<int>, bits: seq<bool>, p: nat)
    requires Codable(ps, ps.initialHistory, 0, es)
  {
    forall i :: p + |Encode(ps, ps.initialHistory, 0, es)| <= i < |bits| ==> !bits[i]
  }

  /** The decoder finds values of the sample size, but not es. */
  ghost predicate Broken(ps: Params, es: seq<int>, out: seq<int>) {
    && |out| == |es| && (forall i :: 0 <= i < |out| ==> Zigzag(out[i]) < Pow2(ps.sampleBits))
    && exists i :: 0 <= i < |es| && es[i] == -1 && out[i] == 0
  }

  /** The decoder does not find es at p. */
  ghost predicate NotRestored(ps: Params, es: seq<int>, bits: seq<bool>, p: nat, capacity: nat)
    requires ps.Valid() && |es| <= capacity
  {
    var r := Decode(ps, bits, |es|, capacity, Initial(ps, p));
    r.Some? ==> Broken(ps, es, r.value.out)
  }

  /** Wherever the code of es lies in front of silence, it is not restored. */
  ghost predicate Breaking(ps: Params, es: seq<int>)
    requires Codable(ps, ps.initialHistory, 0, es)
  {
    forall bits, p: nat, capacity: nat ::
      |es| <= capacity && At(bits, p, Encode(ps, ps.initialHistory, 0, es)) && SilentBehind(ps, es, bits, p)
      ==> NotRestored(ps, es, bits, p, capacity)
  }

  /** If the multiplier does not fit, some short sequence of 16-bit residuals breaks. */
  lemma Breaks(ps: Params) returns (es: seq<int>)
    requires ps.Proper() && !ps.Fits()
    ensures 1 <= |es| <= ENOUGH && Codable(ps, ps.initialHistory, 0, es) && Breaking(ps, es)
    ensures forall i :: 0 <= i < |es| ==> -0x8000 <= es[i] < 0x8000
  {
    hide Decode, Encode, Silent, Pow2, Stuck, At, Zigzag, SilentBehind, NotRestored;
    var n, h := ClimbEnds(ps);
    var d := Pace(ps.historyMult);
    es := Steady(Unzigzag(d), n) + Silent(ps, h, 0, QUIET);
    BreakingCodable(ps, d, n, h);
    forall bits, p: nat, capacity: nat |
      |es| <= capacity && At(bits, p, Encode(ps, ps.initialHistory, 0, es)) && SilentBehind(ps, es, bits, p)
      ensures NotRestored(ps, es, bits, p, capacity)
    {
      BreaksAt(ps, d, n, h, es, bits, p, capacity);
    }
  }

  lemma BreakingCodable(ps: Params, d: nat, n: nat, h: int)
    requires ps.Proper() && d < Pow2(ps.sampleBits) && n <= CLIMB && 128 <= h <= MAX_HISTORY
    ensures Codable(ps, ps.initialHistory, 0, Steady(Unzigzag(d), n) + Silent(ps, h, 0, QUIET))
  {
    hide Pow2, Silent, Unzigzag, Zigzag;
    ZigzagUnzigzag(d);
    FitsOne(ps);
  }

  lemma BreaksAt(ps: Params, d: nat, n: nat, h: int, es: seq<int>, bits: seq<bool>, p: nat, capacity: nat)
    requires ps.Proper() && 65 <= ps.historyMult && 256 <= d <= 0xFFFF && 256 <= h <= MAX_HISTORY
    requires h == HistoryAfter(ps.initialHistory, d, ps.historyMult, n) && Stuck(h, ps.historyMult)
    requires forall i :: 0 <= i < n ==> HistoryAfter(ps.initialHistory, d, ps.historyMult, i) < Top(ps.historyMult)
    requires es == Steady(Unzigzag(d), n) + Silent(ps, h, 0, QUIET) && |es| <= capacity
    requires Codable(ps, ps.initialHistory, 0, es) && At(bits, p, Encode(ps, ps.initialHistory, 0, es))
    requires SilentBehind(ps, es, bits, p)
    ensures NotRestored(ps, es, bits, p, capacity)
  {
    hide Decode, Encode, Silent, Pow2, Stuck, Unzigzag, Zigzag;
    var tail := Silent(ps, h, 0, QUIET);
    var top := ClimbTrip(ps, bits, |es|, capacity, Initial(ps, p), d, n, tail);
    var code := Encode(ps, h, 0, tail);
    SilentCode(ps, h, 0, QUIET);
    forall i | top.pos <= i < |bits| ensures !bits[i] {
      if i < top.pos + |code| {
        assert bits[i] == bits[top.pos..top.pos + |code|][i - top.pos] == code[i - top.pos];
      }
    }
    StuckDecodes(ps, bits, |es|, capacity, top);
    var r := Decode(ps, bits, |es|, capacity, Initial(ps, p));
    if r.Some? {
      ZerosBreak(ps, d, n, h, es, r.value.out);
    }
  }

  /** Zeros where the silence is meant are not what was coded. */
  lemma ZerosBreak(ps: Params, d: nat, n: nat, h: int, es: seq<int>, out: seq<int>)
    requires ps.Proper() && 65 <= ps.historyMult && 256 <= h <= MAX_HISTORY
    requires es == Steady(Unzigzag(d), n) + Silent(ps, h, 0, QUIET) && Codable(ps, ps.initialHistory, 0, es)
    requires |out| == |es| && out[..n] == Steady(Unzigzag(d), n) && forall i :: n <= i < |es| ==> out[i] == 0
    ensures Broken(ps, es, out)
  {
    hide Silent, Pow2, Unzigzag, Zigzag;
    QuietEnough(h, ps.historyMult);
    SilentBreaks(ps, h, QUIET);
    var i := n + Quiets(h, ps.historyMult);
    assert es[i] == Silent(ps, h, 0, QUIET)[i - n] == -1 && out[i] == 0;
    FitsOne(ps);
    forall j | 0 <= j < |out| ensures Zigzag(out[j]) < Pow2(ps.sampleBits) {
      if j < n {
        assert out[j] == out[..n][j] == es[j];
      }
    }
  }

  // ----- the exact condition -----

  /** The code of es is decoded into es and consumed, up to its end. */
  ghost predicate Restores(ps: Params, es: seq<int>)
    requires Codable(ps, ps.initialHistory, 0, es)
  {
    var code := Encode(ps, ps.initialHistory, 0, es);
    Decodes(ps, Padded(code), |es|, |es|, Initial(ps, 0), es, code)
  }

  /**
  The exact condition on the multiplier: all residual sequences of the sample size are restored,
  with any limit on their length from 164 on, if and only if the multiplier fits.
  */
  lemma FitsExactly(ps: Params, limit: nat)
    requires ps.Proper() && ENOUGH <= limit <= 0x1_0000
    ensures (forall es :: |es| <= limit && Codable(ps, ps.initialHistory, 0, es) ==> Restores(ps, es)) <==> ps.Fits()
  {
    hide Restores, Pow2, Codable;
    if ps.Fits() {
      forall es | |es| <= limit && Codable(ps, ps.initialHistory, 0, es) ensures Restores(ps, es) {
        FitsRestores(ps, es);
      }
    } else {
      var es := Breaks(ps);
      BreaksPadded(ps, es);
    }
  }

  lemma FitsRestores(ps: Params, es: seq<int>)
    requires ps.Proper() && ps.Fits() && Codable(ps, ps.initialHistory, 0, es)
    ensures Restores(ps, es)
  {
    hide Decode, Encode, Padded;
    var code := Encode(ps, ps.initialHistory, 0, es);
    PaddedShows(code);
    RoundTrip(ps, Padded(code), |es|, |es|, Initial(ps, 0), es);
  }

  lemma BreaksPadded(ps: Params, es: seq<int>)
    requires ps.Proper() && Codable(ps, ps.initialHistory, 0, es) && Breaking(ps, es)
    ensures !Restores(ps, es)
  {
    hide Decode, Encode, At;
    var code := Encode(ps, ps.initialHistory, 0, es);
    PaddedShows(code);
    assert NotRestored(ps, es, Padded(code), 0, |es|);
    assert [] + es == es;
  }

  /** For 16-bit values and more the condition is a multiplier of at most 64. */
  lemma FitsIs64(ps: Params)
    requires ps.Valid() && ps.sampleBits >= 16
    ensures ps.Fits() <==> ps.historyMult <= 64
  {
    Pow2Constants();
  }
}

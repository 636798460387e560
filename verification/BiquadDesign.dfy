/**
The coefficient formulas of the filter types, with cos w0, sin w0, the amplitude A and its root
given as real numbers, and what the resulting filters do over runs of any length.
*/
module BiquadDesign {
  import opened Biquad

  function Sq(x: real): (r: real) {
    x * x
  }

  datatype Kind = Peak | LowPass | HighPass | LowShelf | HighShelf

  /** The values `update` computes from frequency, rate, gain and quality. */
  datatype Design = Design(c: real, s: real, q: real, amp: real, root: real) {
    /** Any angle, so any frequency and rate; q is any number but zero. */
    predicate Valid() {
      Sq(c) + Sq(s) == 1.0 && q != 0.0 && amp > 0.0 && root > 0.0 && root * root == amp
    }
  }

  function Alpha(d: Design): (r: real)
    requires d.q != 0.0
  {
    d.s * 0.5 / d.q
  }

  /** The even and odd part of a0 = e + t: a2 is (e - t) / (e + t). */
  function Even(k: Kind, d: Design): (e: real) {
    match k
    case LowShelf => (d.amp + 1.0) + (d.amp - 1.0) * d.c
    case HighShelf => (d.amp + 1.0) - (d.amp - 1.0) * d.c
    case _ => 1.0
  }

  function Odd(k: Kind, d: Design): (t: real)
    requires d.q != 0.0 && d.amp != 0.0
  {
    match k
    case Peak => Alpha(d) / d.amp
    case LowPass => Alpha(d)
    case HighPass => Alpha(d)
    case LowShelf => 2.0 * d.root * Alpha(d)
    case HighShelf => 2.0 * d.root * Alpha(d)
  }

  /** The coefficients before the division by a0. */
  function Numerators(k: Kind, d: Design): (n: Coeffs)
    requires d.q != 0.0 && d.amp != 0.0
  {
    var a, c, t := d.amp, d.c, Odd(k, d);
    match k
    case Peak => Coeffs(1.0 + Alpha(d) * a, -2.0 * c, 1.0 - Alpha(d) * a, -2.0 * c, 1.0 - t)
    case LowPass => Coeffs((1.0 - c) * 0.5, 1.0 - c, (1.0 - c) * 0.5, -2.0 * c, 1.0 - t)
    case HighPass => Coeffs((1.0 + c) * 0.5, -(1.0 + c), (1.0 + c) * 0.5, -2.0 * c, 1.0 - t)
    case LowShelf =>
      Coeffs(a * ((a + 1.0) - (a - 1.0) * c + t), 2.0 * a * ((a - 1.0) - (a + 1.0) * c),
             a * ((a + 1.0) - (a - 1.0) * c - t),
             -2.0 * ((a - 1.0) + (a + 1.0) * c), (a + 1.0) + (a - 1.0) * c - t)
    case HighShelf =>
      Coeffs(a * ((a + 1.0) + (a - 1.0) * c + t), -2.0 * a * ((a - 1.0) + (a + 1.0) * c),
             a * ((a + 1.0) + (a - 1.0) * c - t),
             2.0 * ((a - 1.0) - (a + 1.0) * c), (a + 1.0) - (a - 1.0) * c - t)
  }

  /** `update`: the coefficients, normalised by a0, which must not vanish. */
  function Update(k: Kind, d: Design): (co: Coeffs)
    requires d.q != 0.0 && d.amp != 0.0 && Even(k, d) + Odd(k, d) != 0.0
  {
    var a0, n := Even(k, d) + Odd(k, d), Numerators(k, d);
    Coeffs(n.b0 / a0, n.b1 / a0, n.b2 / a0, n.a1 / a0, n.a2 / a0)
  }

  // ----- stability -----

  /** Both poles lie inside the unit circle. */
  predicate Stable(co: Coeffs) {
    -1.0 < co.a2 < 1.0 && -(1.0 + co.a2) < co.a1 < 1.0 + co.a2
  }

  lemma SignOf(x: real, y: real, p: real)
    requires y != 0.0 && p == x * y
    ensures p > 0.0 <==> (x > 0.0 && y > 0.0) || (x < 0.0 && y < 0.0)
    ensures p < 0.0 <==> (x > 0.0 && y < 0.0) || (x < 0.0 && y > 0.0)
  {}

  lemma NonNegative(x: real, y: real, p: real)
    requires x >= 0.0 && y >= 0.0 && p == x * y
    ensures p >= 0.0
  {}

  lemma DivMul(x: real, y: real)
    requires y != 0.0
    ensures (x / y) * y == x
  {}

  lemma Cancel(x: real, y: real, z: real)
    requires z != 0.0 && x * z == y * z
    ensures x == y
  {}

  lemma SquareSign(x: real)
    ensures Sq(x) >= 0.0 && (x != 0.0 ==> Sq(x) > 0.0)
  {
    if x != 0.0 {
      SignOf(x, x, Sq(x));
    }
  }

  lemma SquareLarge(x: real)
    ensures x >= 1.0 || x <= -1.0 ==> Sq(x) >= 1.0
  {
    if x >= 1.0 {
      assert x * x == x * (x - 1.0) + x;
    } else if x <= -1.0 {
      assert x * x == (-x) * (-x - 1.0) - x;
    }
  }

  /** The cosine of an angle that is not a multiple of pi. */
  lemma CosineInside(d: Design)
    requires d.Valid() && d.s != 0.0
    ensures -1.0 < d.c < 1.0
  {
    hide Sq;
    SquareSign(d.s);
    SquareLarge(d.c);
  }

  /** The denominator of every filter type: stable exactly when the odd part is positive. */
  lemma DenominatorStable(e: real, t: real, m: real, a0: real, co: Coeffs)
    requires e > 0.0 && -e < m < e && a0 == e + t != 0.0
    requires co.a2 * a0 == e - t && co.a1 * a0 == -2.0 * m
    ensures Stable(co) <==> t > 0.0
  {
    SignOf(1.0 + co.a2, a0, 2.0 * e);
    SignOf(1.0 - co.a2, a0, 2.0 * t);
    SignOf(1.0 + co.a2 - co.a1, a0, 2.0 * (e + m));
    SignOf(1.0 + co.a2 + co.a1, a0, 2.0 * (e - m));
  }

  /** The value the first feedback coefficient is made from. */
  function Middle(k: Kind, d: Design): (m: real) {
    match k
    case LowShelf => (d.amp - 1.0) + (d.amp + 1.0) * d.c
    case HighShelf => (d.amp + 1.0) * d.c - (d.amp - 1.0)
    case _ => d.c
  }

  lemma EvenBoundsMiddle(k: Kind, d: Design)
    requires d.Valid() && d.s != 0.0
    ensures Even(k, d) > 0.0 && -Even(k, d) < Middle(k, d) < Even(k, d)
  {
    CosineInside(d);
    SignOf(d.amp, 1.0 + d.c, d.amp + d.amp * d.c);
    SignOf(d.amp, 1.0 - d.c, d.amp - d.amp * d.c);
  }

  /** Each coefficient times a0 is its numerator. */
  lemma Scaled(k: Kind, d: Design)
    requires d.q != 0.0 && d.amp != 0.0 && Even(k, d) + Odd(k, d) != 0.0
    ensures var a0 := Even(k, d) + Odd(k, d);
            var co, n := Update(k, d), Numerators(k, d);
            && co.b0 * a0 == n.b0 && co.b1 * a0 == n.b1 && co.b2 * a0 == n.b2
            && co.a1 * a0 == n.a1 && co.a2 * a0 == n.a2
  {
    hide Even, Odd, Numerators;
    var a0 := Even(k, d) + Odd(k, d);
    var n := Numerators(k, d);
    DivMul(n.b0, a0);
    DivMul(n.b1, a0);
    DivMul(n.b2, a0);
    DivMul(n.a1, a0);
    DivMul(n.a2, a0);
  }

  lemma Feedback(k: Kind, d: Design)
    requires d.q != 0.0 && d.amp != 0.0
    ensures Numerators(k, d).a2 == Even(k, d) - Odd(k, d) && Numerators(k, d).a1 == -2.0 * Middle(k, d)
  {
    hide Alpha;
  }

  /** Sine and quality are of the same sign, and neither is zero. */
  predicate SameSign(d: Design) {
    (d.s > 0.0 && d.q > 0.0) || (d.s < 0.0 && d.q < 0.0)
  }

  lemma OddSign(k: Kind, d: Design)
    requires d.Valid()
    ensures Odd(k, d) > 0.0 <==> SameSign(d)
    ensures d.s == 0.0 ==> Odd(k, d) == 0.0
  {
    DivMul(d.s * 0.5, d.q);
    SignOf(Alpha(d), d.q, d.s * 0.5);
    DivMul(Alpha(d), d.amp);
    SignOf(Alpha(d) / d.amp, d.amp, Alpha(d));
    SignOf(2.0 * Alpha(d), d.root, 2.0 * d.root * Alpha(d));
  }

  /**
  Exact stability: the filter test of the source accepts every quality other than zero and every
  frequency from 20 to 20000 whatever the rate, and the coefficients are stable exactly when sine
  and quality have the same sign, for every filter type and gain. Below half the rate the sine is
  positive, so there the quality must be; between half the rate and the rate it must be negative.
  */
  lemma StableExactly(k: Kind, d: Design)
    requires d.Valid() && Even(k, d) + Odd(k, d) != 0.0
    ensures Stable(Update(k, d)) <==> SameSign(d)
  {
    hide Update, Even, Odd, Middle, Numerators;
    Scaled(k, d);
    Feedback(k, d);
    OddSign(k, d);
    var a0, co := Even(k, d) + Odd(k, d), Update(k, d);
    if d.s == 0.0 {
      Cancel(co.a2, 1.0, a0);
    } else {
      EvenBoundsMiddle(k, d);
      DenominatorStable(Even(k, d), Odd(k, d), Middle(k, d), a0, co);
    }
  }

  // ----- decay over runs -----

  /** The energy of the output history. */
  function Energy(co: Coeffs, y1: real, y2: real): (v: real) {
    (1.0 + co.a2) * (Sq(y1) + Sq(y2)) + 2.0 * co.a1 * y1 * y2
  }

  /** How far the energy form is from being degenerate. */
  function Margin(co: Coeffs): (m: real) {
    if co.a1 >= 0.0 then 1.0 + co.a2 - co.a1 else 1.0 + co.a2 + co.a1
  }

  /** The energy form is positive definite for stable filters. */
  lemma EnergyDefinite(co: Coeffs, y1: real, y2: real)
    requires Stable(co)
    ensures Margin(co) > 0.0
    ensures Energy(co, y1, y2) >= Margin(co) * (Sq(y1) + Sq(y2))
  {
    if co.a1 >= 0.0 {
      SquareSign(y1 + y2);
      NonNegative(co.a1, Sq(y1 + y2), co.a1 * Sq(y1 + y2));
    } else {
      SquareSign(y1 - y2);
      NonNegative(-co.a1, Sq(y1 - y2), -co.a1 * Sq(y1 - y2));
    }
  }

  /** Without input, a step takes (1 - a2)(y - y2)^2 from the energy. */
  lemma EnergyStep(co: Coeffs, y1: real, y2: real, y: real)
    requires y == -co.a1 * y1 - co.a2 * y2
    ensures Energy(co, y, y1) == Energy(co, y1, y2) - (1.0 - co.a2) * Sq(y - y2)
  {
    hide Energy, Sq;
    var slope := (1.0 + co.a2) * (y + y2) + 2.0 * co.a1 * y1;
    Slope(co, y1, y2, y, slope);
    EnergyDifference(co, y1, y2, y, slope);
    ScaleSquare(1.0 - co.a2, y - y2, slope);
  }

  lemma Slope(co: Coeffs, y1: real, y2: real, y: real, slope: real)
    requires y == -co.a1 * y1 - co.a2 * y2 && slope == (1.0 + co.a2) * (y + y2) + 2.0 * co.a1 * y1
    ensures slope == -((1.0 - co.a2) * (y - y2))
  {}

  lemma ScaleSquare(k: real, u: real, slope: real)
    requires slope == -(k * u)
    ensures slope * u == -(k * Sq(u))
  {}

  lemma EnergyDifference(co: Coeffs, y1: real, y2: real, y: real, slope: real)
    requires slope == (1.0 + co.a2) * (y + y2) + 2.0 * co.a1 * y1
    ensures Energy(co, y, y1) - Energy(co, y1, y2) == slope * (y - y2)
  {
    hide Energy, Sq;
    var k := 2.0 * co.a1 * y1;
    SquareDifference(y, y2);
    EnergyByFirst(co, y1, y2, k);
    EnergyBySecond(co, y, y1, k);
    Difference(1.0 + co.a2, k, Sq(y), Sq(y1), Sq(y2), y, y2, slope);
  }

  lemma EnergyByFirst(co: Coeffs, y1: real, y2: real, k: real)
    requires k == 2.0 * co.a1 * y1
    ensures Energy(co, y1, y2) == (1.0 + co.a2) * (Sq(y1) + Sq(y2)) + k * y2
  {}

  lemma EnergyBySecond(co: Coeffs, y1: real, y2: real, k: real)
    requires k == 2.0 * co.a1 * y2
    ensures Energy(co, y1, y2) == (1.0 + co.a2) * (Sq(y1) + Sq(y2)) + k * y1
  {
    hide Sq;
    assert 2.0 * co.a1 * y1 * y2 == 2.0 * co.a1 * y2 * y1;
  }

  lemma SquareDifference(y: real, z: real)
    ensures Sq(y) - Sq(z) == (y + z) * (y - z)
  {}

  lemma Difference(p: real, k: real, a: real, b: real, c: real, y: real, z: real, slope: real)
    requires a - c == (y + z) * (y - z) && slope == p * (y + z) + k
    ensures (p * (a + b) + k * y) - (p * (b + c) + k * z) == slope * (y - z)
  {
    CommonFactor(p, a + b, b + c, (y + z) * (y - z));
    CommonFactor(k, y, z, y - z);
    assert (p * (y + z) + k) * (y - z) == p * ((y + z) * (y - z)) + k * (y - z);
  }

  lemma CommonFactor(p: real, a: real, b: real, c: real)
    requires a - b == c
    ensures p * a - p * b == p * c
  {}

  predicate NoInput(h: History) {
    h.x1 == 0.0 && h.x2 == 0.0
  }

  /** The history after n frames of silence at the input. */
  function Silence(co: Coeffs, h: History, n: nat): (r: History) {
    if n == 0 then h else Step(co, Silence(co, h, n - 1), 0.0).1
  }

  /** That is what a run over zeros leaves. */
  lemma {:induction false} SilenceRuns(co: Coeffs, h: History, n: nat)
    ensures RunStage(co, h, Constant(0.0, n)).1 == Silence(co, h, n)
  {
    hide Step;
    if n > 0 {
      SilenceRuns(co, h, n - 1);
      assert Constant(0.0, n)[..n - 1] == Constant(0.0, n - 1);
    }
  }

  lemma SilentStep(co: Coeffs, h: History)
    requires Stable(co) && NoInput(h)
    ensures var r := Step(co, h, 0.0).1;
            NoInput(r) && Energy(co, r.y1, r.y2) <= Energy(co, h.y1, h.y2)
  {
    hide Energy, Sq;
    var y := -co.a1 * h.y1 - co.a2 * h.y2;
    assert Step(co, h, 0.0).0 == y;
    EnergyStep(co, h.y1, h.y2, y);
    SquareSign(y - h.y2);
    NonNegative(1.0 - co.a2, Sq(y - h.y2), (1.0 - co.a2) * Sq(y - h.y2));
  }

  /**
  Stability over unlimited runs: once the input and its history are zero, the energy never grows,
  so every later output stays within the bound set by the energy at that moment.
  */
  lemma {:induction false} SilenceDecays(co: Coeffs, h: History, n: nat)
    requires Stable(co) && NoInput(h)
    ensures RunStage(co, h, Constant(0.0, n)).1 == Silence(co, h, n)
    ensures var r := Silence(co, h, n);
            && NoInput(r) && Energy(co, r.y1, r.y2) <= Energy(co, h.y1, h.y2)
            && Margin(co) * (Sq(r.y1) + Sq(r.y2)) <= Energy(co, h.y1, h.y2)
  {
    hide Energy, Margin, Stable, Step, Sq, RunStage;
    SilenceRuns(co, h, n);
    if n > 0 {
      SilenceDecays(co, h, n - 1);
      SilentStep(co, Silence(co, h, n - 1));
    }
    var r := Silence(co, h, n);
    EnergyDefinite(co, r.y1, r.y2);
  }

  // ----- gain over runs -----

  function Constant(x: real, n: nat): (xs: seq<real>) {
    seq(n, _ => x)
  }

  /** A filter whose coefficient sums are in the ratio `gain` holds constants at that gain. */
  lemma {:induction false} HoldsConstant(co: Coeffs, gain: real, x: real, y: real, n: nat)
    requires co.b0 + co.b1 + co.b2 == gain * (1.0 + co.a1 + co.a2) && y == gain * x
    ensures RunStage(co, History(x, x, y, y), Constant(x, n)) == (Constant(y, n), History(x, x, y, y))
  {
    hide Step;
    if n == 0 {
      assert Constant(x, 0) == [] && Constant(y, 0) == [];
    } else {
      HoldsConstant(co, gain, x, y, n - 1);
      assert Constant(x, n)[..n - 1] == Constant(x, n - 1) && Constant(x, n)[n - 1] == x;
      assert Constant(y, n) == Constant(y, n - 1) + [y];
      Regroup(gain, 1.0 + co.a1 + co.a2, x, y, co.b0 + co.b1 + co.b2);
      BalancedStep(co, x, y);
    }
  }

  lemma BalancedStep(co: Coeffs, x: real, y: real)
    requires (co.b0 + co.b1 + co.b2) * x == (1.0 + co.a1 + co.a2) * y
    ensures Step(co, History(x, x, y, y), x) == (y, History(x, x, y, y))
  {
    assert Step(co, History(x, x, y, y), x).0 == y;
  }

  lemma Regroup(g: real, s: real, x: real, y: real, b: real)
    requires y == g * x && b == g * s
    ensures b * x == s * y
  {
    assert (g * s) * x == s * (g * x);
  }

  /** The gain of each type on constant signals. */
  function DcGain(k: Kind, d: Design): (g: real) {
    match k
    case HighPass => 0.0
    case LowShelf => d.amp * d.amp
    case _ => 1.0
  }

  lemma CoefficientSums(k: Kind, d: Design)
    requires d.Valid() && Even(k, d) + Odd(k, d) != 0.0
    ensures var co := Update(k, d); co.b0 + co.b1 + co.b2 == DcGain(k, d) * (1.0 + co.a1 + co.a2)
  {
    hide Update, Even, Odd, Numerators, DcGain;
    Scaled(k, d);
    var a0, co, n, g := Even(k, d) + Odd(k, d), Update(k, d), Numerators(k, d), DcGain(k, d);
    NumeratorSums(k, d);
    assert (co.b0 + co.b1 + co.b2) * a0 == n.b0 + n.b1 + n.b2;
    assert (1.0 + co.a1 + co.a2) * a0 == a0 + n.a1 + n.a2;
    assert (g * (1.0 + co.a1 + co.a2)) * a0 == g * ((1.0 + co.a1 + co.a2) * a0);
    Cancel(co.b0 + co.b1 + co.b2, g * (1.0 + co.a1 + co.a2), a0);
  }

  lemma NumeratorSums(k: Kind, d: Design)
    requires d.q != 0.0 && d.amp != 0.0
    ensures var n := Numerators(k, d);
            n.b0 + n.b1 + n.b2 == DcGain(k, d) * (Even(k, d) + Odd(k, d) + n.a1 + n.a2)
  {
    hide Alpha;
    var n := Numerators(k, d);
    match k
    case LowShelf =>
      assert n.b0 + n.b1 + n.b2 == 4.0 * (d.amp * d.amp) - 4.0 * (d.amp * d.amp) * d.c;
      assert Even(k, d) + Odd(k, d) + n.a1 + n.a2 == 4.0 - 4.0 * d.c;
    case _ =>
  }

  /** Constants pass every filter type at its gain, for any number of frames. */
  lemma ConstantGain(k: Kind, d: Design, x: real, y: real, n: nat)
    requires d.Valid() && Even(k, d) + Odd(k, d) != 0.0 && y == DcGain(k, d) * x
    ensures RunStage(Update(k, d), History(x, x, y, y), Constant(x, n)).0 == Constant(y, n)
  {
    hide Update, RunStage, Even, Odd, Constant;
    CoefficientSums(k, d);
    HoldsConstant(Update(k, d), DcGain(k, d), x, y, n);
  }

  /** A peak filter with gain 0 dB is transparent: from silence it puts out its input. */
  lemma {:induction false} FlatPeak(d: Design, xs: seq<real>)
    requires d.Valid() && d.amp == 1.0 && Even(Peak, d) + Odd(Peak, d) != 0.0
    ensures var r := RunStage(Update(Peak, d), SILENT, xs);
            r.0 == xs && r.1.x1 == r.1.y1 && r.1.x2 == r.1.y2
  {
    hide Update, Even, Odd, Step;
    if |xs| > 0 {
      var n := |xs| - 1;
      FlatPeak(d, xs[..n]);
      assert xs == xs[..n] + [xs[n]];
      FlatStep(d, RunStage(Update(Peak, d), SILENT, xs[..n]).1, xs[n]);
    }
  }

  lemma FlatStep(d: Design, h: History, x: real)
    requires d.Valid() && d.amp == 1.0 && Even(Peak, d) + Odd(Peak, d) != 0.0 && h.x1 == h.y1 && h.x2 == h.y2
    ensures Step(Update(Peak, d), h, x) == (x, History(x, h.x1, x, h.y1))
  {
    hide Update, Even, Odd, Step;
    FlatCoeffs(d);
    Cancels(Update(Peak, d), h, x);
  }

  lemma Cancels(co: Coeffs, h: History, x: real)
    requires co.b0 == 1.0 && co.b1 == co.a1 && co.b2 == co.a2 && h.x1 == h.y1 && h.x2 == h.y2
    ensures Step(co, h, x) == (x, History(x, h.x1, x, h.y1))
  {
    assert Step(co, h, x).0 == x;
  }

  lemma FlatCoeffs(d: Design)
    requires d.Valid() && d.amp == 1.0 && Even(Peak, d) + Odd(Peak, d) != 0.0
    ensures var co := Update(Peak, d); co.b0 == 1.0 && co.b1 == co.a1 && co.b2 == co.a2
  {
    hide Alpha;
    Scaled(Peak, d);
    var a0, co := Even(Peak, d) + Odd(Peak, d), Update(Peak, d);
    DivMul(Alpha(d), d.amp);
    Cancel(co.b0, 1.0, a0);
    Cancel(co.b2, co.a2, a0);
  }
}

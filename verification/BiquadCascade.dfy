/** Whatever signal dies out at the input of a cascade of stable sections dies out at its output. */
module BiquadCascade {
  import opened Biquad
  import opened BiquadDesign
  import opened BiquadDecay

  // ----- two frames with input -----

  /** The part of the energy of a sum that neither summand has. */
  function Cross(co: Coeffs, f1: real, f2: real, g1: real, g2: real): (b: real) {
    (1.0 + co.a2) * (f1 * g1 + f2 * g2) + co.a1 * (f1 * g2 + f2 * g1)
  }

  lemma EnergyOfSum(co: Coeffs, f1: real, f2: real, g1: real, g2: real, k: real, h1: real, h2: real)
    requires h1 == k * f1 + g1 && h2 == k * f2 + g2
    ensures Energy(co, h1, h2)
         == k * k * Energy(co, f1, f2) + 2.0 * k * Cross(co, f1, f2, g1, g2) + Energy(co, g1, g2)
  {
    hide Energy, Sq;
    var s, a := 1.0 + co.a2, co.a1;
    var w, p := Sq(f1) + Sq(f2), 2.0 * (f1 * f2);
    var w', p' := Sq(g1) + Sq(g2), 2.0 * (g1 * g2);
    var c, d := f1 * g1 + f2 * g2, f1 * g2 + f2 * g1;
    EnergyByProduct(co, f1, f2, w, p);
    EnergyByProduct(co, g1, g2, w', p');
    EnergyByProduct(co, h1, h2, Sq(h1) + Sq(h2), 2.0 * (h1 * h2));
    ScaledSquare(k, f1, g1, h1);
    ScaledSquare(k, f2, g2, h2);
    ScaledProduct(k, f1, f2, g1, g2, h1, h2);
    assert Sq(h1) + Sq(h2)
        == k * k * w + 2.0 * k * c + w' by { Factor(k * k, Sq(f1), Sq(f2)); Factor(2.0 * k, f1 * g1, f2 * g2); }
    assert 2.0 * (h1 * h2) == k * k * p + 2.0 * k * d + p' by { Twice(k * k, f1 * f2); }
    Collect(s, a, k * k, 2.0 * k, w, p, c, d, w', p');
  }

  lemma ScaledSquare(k: real, f: real, g: real, h: real)
    requires h == k * f + g
    ensures Sq(h) == k * k * Sq(f) + 2.0 * k * (f * g) + Sq(g)
  {}

  lemma ScaledProduct(k: real, f1: real, f2: real, g1: real, g2: real, h1: real, h2: real)
    requires h1 == k * f1 + g1 && h2 == k * f2 + g2
    ensures h1 * h2 == k * k * (f1 * f2) + k * (f1 * g2 + f2 * g1) + g1 * g2
  {}

  lemma Twice(k: real, x: real)
    ensures k * (2.0 * x) == 2.0 * (k * x)
  {}

  lemma Collect(s: real, a: real, k: real, m: real, w: real, p: real, c: real, d: real, w': real, p': real)
    ensures s * (k * w + m * c + w') + a * (k * p + m * d + p')
         == k * (s * w + a * p) + m * (s * c + a * d) + (s * w' + a * p')
  {}

  // The terms of the estimate, as functions so that their products stay apart.

  function Times(t: real, e: real): (r: real) {
    t * e
  }

  function Free(t: real, e: real): (r: real) {
    t * (1.0 + t) * e
  }

  function Added(t: real, e: real): (r: real) {
    (1.0 + t) * e
  }

  function Kept(t: real, e: real): (r: real) {
    t * (1.0 - Sq(t)) * e
  }

  /** The energy of a sum, weighted in favour of one summand. */
  lemma EnergyOfBoth(co: Coeffs, f1: real, f2: real, g1: real, g2: real, t: real)
    requires Stable(co) && t > 0.0
    ensures Times(t, Energy(co, f1 + g1, f2 + g2)) <= Free(t, Energy(co, f1, f2)) + Added(t, Energy(co, g1, g2))
  {
    hide Energy, Cross, Times, Free, Added;
    var e, e', c := Energy(co, f1, f2), Energy(co, g1, g2), Cross(co, f1, f2, g1, g2);
    EnergyOfSum(co, f1, f2, g1, g2, 1.0, f1 + g1, f2 + g2);
    CrossBound(co, f1, f2, g1, g2, t, -t);
    Weigh(t, e, e', c, Energy(co, f1 + g1, f2 + g2));
  }

  lemma CrossBound(co: Coeffs, f1: real, f2: real, g1: real, g2: real, t: real, k: real)
    requires Stable(co) && k == -t
    ensures 2.0 * (t * Cross(co, f1, f2, g1, g2)) <= t * t * Energy(co, f1, f2) + Energy(co, g1, g2)
  {
    hide Energy, Cross;
    var h1, h2 := k * f1 + g1, k * f2 + g2;
    EnergyOfSum(co, f1, f2, g1, g2, k, h1, h2);
    EnergyPositive(co, h1, h2);
    Negated(k, t, Energy(co, f1, f2), Cross(co, f1, f2, g1, g2));
  }

  lemma Negated(k: real, t: real, e: real, c: real)
    requires k == -t
    ensures k * k * e == t * t * e && 2.0 * k * c == -(2.0 * (t * c))
  {}

  lemma Weigh(t: real, e: real, e': real, c: real, sum: real)
    requires 2.0 * (t * c) <= t * t * e + e' && sum == e + 2.0 * c + e'
    ensures Times(t, sum) <= Free(t, e) + Added(t, e')
  {
    assert t * sum == t * e + 2.0 * (t * c) + t * e';
    assert t * (1.0 + t) * e == t * e + t * t * e;
  }

  lemma EnergyPositive(co: Coeffs, y1: real, y2: real)
    requires Stable(co)
    ensures Energy(co, y1, y2) >= 0.0
  {
    hide Energy, Margin, Sq;
    EnergyDefinite(co, y1, y2);
    SquareSign(y1);
    SquareSign(y2);
    NonNegative(Margin(co), Sq(y1) + Sq(y2), Margin(co) * (Sq(y1) + Sq(y2)));
  }

  /** Two frames with the input shares v and w: the energy shrinks, up to what the input adds. */
  lemma DrivenSteps(co: Coeffs, y1: real, y2: real, v: real, w: real, y: real, z: real)
    requires Stable(co) && y == -co.a1 * y1 - co.a2 * y2 + v && z == -co.a1 * y - co.a2 * y1 + w
    ensures Times(Loss(co), Energy(co, z, y)) <= Kept(Loss(co), Energy(co, y1, y2)) + 48.0 * (Sq(v) + Sq(w))
  {
    hide Energy, Loss, Sq, Times, Free, Added, Kept;
    var f := -co.a1 * y1 - co.a2 * y2;
    var f' := -co.a1 * f - co.a2 * y1;
    var g := w + -co.a1 * v;
    TwoSilentSteps(co, y1, y2, f, f');
    assert z == f' + g by { Superpose(co.a1, f, v, y); }
    LossInside(co);
    EnergyOfBoth(co, f', f, g, v, Loss(co));
    EnergyAtMost(co, g, v);
    Second(-co.a1, v, w, g);
    SquareSign(v);
    SquareSign(w);
    var d := Loss(co);
    FreePart(d, Energy(co, f', f), Energy(co, y1, y2));
    InputPart(d, Energy(co, g, v), Sq(v) + Sq(w));
  }

  lemma Superpose(a: real, f: real, v: real, y: real)
    requires y == f + v
    ensures -a * y == -a * f + -a * v
  {}

  lemma FreePart(d: real, free: real, e0: real)
    requires 0.0 < d < 1.0 && free <= (1.0 - d) * e0
    ensures Free(d, free) <= Kept(d, e0)
  {
    hide Sq;
    var k, bound := d * (1.0 + d), (1.0 - d) * e0;
    MulPositive(d, 1.0 + d, k);
    Together(d, e0, k, bound);
    MulMono(free, bound, k);
  }

  lemma InputPart(d: real, input: real, q: real)
    requires 0.0 < d < 1.0 && 0.0 <= q && input <= 24.0 * q
    ensures Added(d, input) <= 48.0 * q
  {
    MulMono(input, 24.0 * q, 1.0 + d);
    MulMono(1.0 + d, 2.0, 24.0 * q);
  }

  lemma Together(d: real, e: real, k: real, bound: real)
    requires k == d * (1.0 + d) && bound == (1.0 - d) * e
    ensures bound * k == d * (1.0 - Sq(d)) * e
  {
    var p := 1.0 - Sq(d);
    assert (1.0 - d) * (1.0 + d) == p;
    assert bound * k == ((1.0 - d) * (1.0 + d)) * (d * e);
    assert p * (d * e) == d * p * e;
  }

  // ----- sequences that shrink up to a bound -----

  /** From some point on the values stay below eps. */
  ghost predicate Below(v: nat -> real, n: nat, eps: real) {
    forall t: nat :: t >= n ==> v(t) <= eps
  }

  ghost predicate Settles(v: nat -> real, eps: real) {
    exists n: nat :: Below(v, n, eps)
  }

  /** The values tend to zero, from above. */
  ghost predicate Fades(v: nat -> real) {
    forall eps: real :: eps > 0.0 ==> Settles(v, eps)
  }

  lemma {:induction false} Shrinks(v: nat -> real, g: real, eps: real, start: nat, n: nat, most: real)
    requires 0.0 < g < 1.0 && most >= 0.0 && v(start) - eps <= most
    requires forall t: nat :: t >= start ==> ShrinksAt(v, g, eps, t)
    ensures (1.0 + n as real * g) * (v(start + 2 * n) - eps) <= most
    decreases n
  {
    if n > 0 {
      Shrinks(v, g, eps, start, n - 1, most);
      var t := start + 2 * (n - 1);
      assert t + 2 == start + 2 * n && ShrinksAt(v, g, eps, t);
      ShrinkOnce(v(t) - eps, v(t + 2) - eps, g, (n - 1) as real, most);
    }
  }

  lemma ShrinkOnce(x: real, x': real, g: real, n: real, most: real)
    requires 0.0 < g < 1.0 && n >= 0.0 && most >= 0.0 && x' <= (1.0 - g) * x && (1.0 + n * g) * x <= most
    ensures (1.0 + (n + 1.0) * g) * x' <= most
  {
    NonNegative(n, g, n * g);
    var k := 1.0 + (n + 1.0) * g;
    assert k == 1.0 + n * g + g;
    if x' > 0.0 {
      if x <= 0.0 {
        NonNegative(1.0 - g, -x, (1.0 - g) * -x);
        assert false;
      }
      MulMono(x', (1.0 - g) * x, k);
      NonNegative(k * g - g + g, x, (k * g) * x);
      assert (1.0 - g) * x * k == (1.0 + n * g) * x - ((k * g) * x - g * x);
      MulMono(g, k * g, x);
    } else {
      NonNegative(k, -x', k * -x');
    }
  }

  lemma Archimedes(most: real, k: real) returns (n: nat)
    requires most >= 0.0 && k > 0.0
    ensures n as real * k >= most
  {
    var r := most / k;
    assert r * k == most;
    if r < 0.0 {
      NonNegative(-r, k, -r * k);
    }
    n := r.Floor + 1;
    MulMono(r, n as real, k);
  }

  /** The value at t shrinks by the share g of its excess over eps within two frames. */
  predicate ShrinksAt(v: nat -> real, g: real, eps: real, t: nat) {
    v(t + 2) - eps <= (1.0 - g) * (v(t) - eps)
  }

  /** A value that shrinks every two frames, up to a bound, settles near the bound. */
  lemma ShrinkingSettles(v: nat -> real, g: real, eps: real, start: nat)
    requires 0.0 < g < 1.0 && eps > 0.0
    requires forall t: nat :: t >= start ==> ShrinksAt(v, g, eps, t)
    ensures Settles(v, 2.0 * eps)
  {
    hide ShrinksAt;
    var most := Positive(v(start)) + Positive(v(start + 1));
    MulPositive(g, eps, g * eps);
    var n := Archimedes(most, g * eps);
    forall t: nat | t >= start + 2 * n + 1 ensures v(t) <= 2.0 * eps {
      var from := if (t - start) % 2 == 0 then start else start + 1;
      Settled(v, g, eps, from, (t - from) / 2, n, most);
    }
    assert Below(v, start + 2 * n + 1, 2.0 * eps);
  }

  lemma Settled(v: nat -> real, g: real, eps: real, from: nat, m: nat, n: nat, most: real)
    requires 0.0 < g < 1.0 && eps > 0.0 && v(from) <= most && 0.0 <= most <= n as real * (g * eps) && m >= n
    requires forall t: nat :: t >= from ==> ShrinksAt(v, g, eps, t)
    ensures v(from + 2 * m) <= 2.0 * eps
  {
    hide ShrinksAt;
    Shrinks(v, g, eps, from, m, most);
    SmallEnough(v(from + 2 * m) - eps, m as real, n as real, g, eps, most);
  }

  function Positive(x: real): (r: real)
    ensures r >= 0.0 && r >= x
  {
    if x >= 0.0 then x else 0.0
  }

  lemma SmallEnough(x: real, m: real, n: real, g: real, eps: real, most: real)
    requires m >= n >= 0.0 && g > 0.0 && eps > 0.0 && (1.0 + m * g) * x <= most <= n * (g * eps)
    ensures x <= eps
  {
    MulMono(n, m, g);
    NonNegative(n, g, n * g);
    assert (1.0 + n * g) * eps == eps + n * (g * eps);
    if x > eps {
      MulMono(1.0 + n * g, 1.0 + m * g, x);
      MulMono(eps, x, 1.0 + n * g);
      assert false;
    }
  }

  // ----- one section -----

  function Prefix(x: nat -> real, n: nat): (xs: seq<real>)
    ensures |xs| == n
  {
    seq(n, i requires 0 <= i < n => x(i))
  }

  /** A section's history after t values of a signal. */
  function HistoryAt(co: Coeffs, h: History, x: nat -> real, t: nat): (r: History) {
    RunStage(co, h, Prefix(x, t)).1
  }

  lemma HistoryNext(co: Coeffs, h: History, x: nat -> real, t: nat)
    ensures HistoryAt(co, h, x, t + 1) == Step(co, HistoryAt(co, h, x, t), x(t)).1
  {
    assert Prefix(x, t + 1)[..t] == Prefix(x, t);
  }

  lemma HistoryHolds(co: Coeffs, h: History, x: nat -> real, t: nat)
    requires t >= 2
    ensures HistoryAt(co, h, x, t).x1 == x(t - 1) && HistoryAt(co, h, x, t).x2 == x(t - 2)
  {
    hide HistoryAt;
    HistoryNext(co, h, x, t - 1);
    HistoryNext(co, h, x, t - 2);
  }

  /** What the input adds to the output of a step. */
  function Input(co: Coeffs, h: History, x: real): (w: real) {
    co.b0 * x + co.b1 * h.x1 + co.b2 * h.x2
  }

  /** How much the section can amplify its input. */
  function Reach(co: Coeffs): (k: real)
    ensures k > 0.0
  {
    SquareSign(co.b0);
    SquareSign(co.b1);
    SquareSign(co.b2);
    var k := (1.0 + Sq(co.b0)) * (1.0 + 2.0 * (Sq(co.b1) + Sq(co.b2)));
    MulPositive(1.0 + Sq(co.b0), 1.0 + 2.0 * (Sq(co.b1) + Sq(co.b2)), k);
    k
  }

  lemma InputSmall(co: Coeffs, h: History, x: real, e: real)
    requires Sq(x) <= e && Sq(h.x1) <= e && Sq(h.x2) <= e
    ensures Sq(Input(co, h, x)) <= Reach(co) * e
  {
    hide Sq;
    var b, earlier := Sq(co.b1) + Sq(co.b2), co.b1 * h.x1 + co.b2 * h.x2;
    SquareSign(co.b1);
    SquareSign(co.b2);
    Cauchy(co.b1, co.b2, h.x1, h.x2, earlier);
    Scaled2(b, Sq(h.x1) + Sq(h.x2), 2.0 * e);
    Latest(co.b0, x, earlier, b, e, Input(co, h, x));
  }

  lemma Latest(b0: real, x: real, earlier: real, b: real, e: real, w: real)
    requires Sq(x) <= e && Sq(earlier) <= b * (2.0 * e) && w == b0 * x + earlier
    ensures Sq(w) <= (1.0 + Sq(b0)) * (1.0 + 2.0 * b) * e
  {
    hide Sq;
    Cauchy(1.0, b0, earlier, x, w);
    SquareOne();
    SquareSign(b0);
    assert b * (2.0 * e) + e == (1.0 + 2.0 * b) * e;
    Scaled2(1.0 + Sq(b0), Sq(earlier) + Sq(x), (1.0 + 2.0 * b) * e);
    Regrouped(1.0 + Sq(b0), 1.0 + 2.0 * b, e);
  }

  lemma Scaled2(k: real, a: real, b: real)
    requires k >= 0.0 && a <= b
    ensures k * a <= k * b
  {}

  lemma Regrouped(a: real, b: real, e: real)
    ensures a * (b * e) == (a * b) * e
  {}

  function EnergyOf(co: Coeffs, h: History, x: nat -> real): (v: nat -> real) {
    (t: nat) => Energy(co, HistoryAt(co, h, x, t).y1, HistoryAt(co, h, x, t).y2)
  }

  function Squares(x: nat -> real): (v: nat -> real) {
    (t: nat) => Sq(x(t))
  }

  /** The output of a section on a signal. */
  function Output(co: Coeffs, h: History, x: nat -> real): (y: nat -> real) {
    (t: nat) => HistoryAt(co, h, x, t + 1).y1
  }

  /** Once three input values are small, so is what the input adds to the next frame. */
  lemma InputAt(co: Coeffs, h: History, x: nat -> real, n: nat, e: real, t: nat)
    requires Below(Squares(x), n, e) && t >= n + 2
    ensures Sq(Input(co, HistoryAt(co, h, x, t), x(t))) <= Reach(co) * e
  {
    hide Sq, Reach, HistoryAt, Input;
    HistoryHolds(co, h, x, t);
    assert Squares(x)(t) <= e && Squares(x)(t - 1) <= e && Squares(x)(t - 2) <= e;
    InputSmall(co, HistoryAt(co, h, x, t), x(t), e);
  }

  lemma StepIs(co: Coeffs, h: History, x: real)
    ensures var r := Step(co, h, x).1; r.y1 == -co.a1 * h.y1 - co.a2 * h.y2 + Input(co, h, x) && r.y2 == h.y1
  {}

  /** The energy shrinks within two frames, up to a bound that the input keeps. */
  lemma EnergyShrinks(co: Coeffs, h: History, x: nat -> real, n: nat, e: real, bound: real, t: nat)
    requires Stable(co) && Below(Squares(x), n, e) && t >= n + 2
    requires 96.0 * (Reach(co) * e) <= Times(Loss(co), Times(Sq(Loss(co)), bound))
    ensures ShrinksAt(EnergyOf(co, h, x), Sq(Loss(co)), bound, t)
  {
    hide Sq, Reach, HistoryAt, Input, Energy, Loss, Times, Kept, Step, Below;
    var h0, h1, h2 := HistoryAt(co, h, x, t), HistoryAt(co, h, x, t + 1), HistoryAt(co, h, x, t + 2);
    HistoryNext(co, h, x, t);
    HistoryNext(co, h, x, t + 1);
    StepIs(co, h0, x(t));
    StepIs(co, h1, x(t + 1));
    InputAt(co, h, x, n, e, t);
    InputAt(co, h, x, n, e, t + 1);
    DrivenSteps(co, h0.y1, h0.y2, Input(co, h0, x(t)), Input(co, h1, x(t + 1)), h1.y1, h2.y1);
    LossInside(co);
    Divide(Loss(co), Energy(co, h2.y1, h2.y2), Energy(co, h0.y1, h0.y2), bound);
  }

  lemma Divide(d: real, e2: real, e0: real, bound: real)
    requires d > 0.0 && Times(d, e2) <= Kept(d, e0) + Times(d, Times(Sq(d), bound))
    ensures e2 - bound <= (1.0 - Sq(d)) * (e0 - bound)
  {
    var x, y := e2 - bound, (1.0 - Sq(d)) * (e0 - bound);
    assert y == (1.0 - Sq(d)) * e0 + Sq(d) * bound - bound;
    assert d * x <= d * y;
    if x > y {
      MulPositive(d, x - y, d * (x - y));
    }
  }

  /** A signal that dies out, through a stable section, dies out. */
  lemma SectionFades(co: Coeffs, h: History, x: nat -> real)
    requires Stable(co) && Fades(Squares(x))
    ensures Fades(Squares(Output(co, h, x)))
  {
    hide Sq, Reach, Energy, Loss, Margin, Settles, Squares, Output, Times, EnergyOf, ShrinksAt;
    forall eps: real | eps > 0.0 ensures Settles(Squares(Output(co, h, x)), eps) {
      OutputSettles(co, h, x, eps);
    }
  }

  lemma OutputSettles(co: Coeffs, h: History, x: nat -> real, eps: real)
    requires Stable(co) && Fades(Squares(x)) && eps > 0.0
    ensures Settles(Squares(Output(co, h, x)), eps)
  {
    hide Sq, Reach, Energy, Loss, Margin, Below, Times, Squares, Output, EnergyOf, ShrinksAt;
    MarginPositive(co);
    var bound := Times(0.5, Times(Margin(co), eps));
    var e := SmallInput(co, bound, eps);
    assert Settles(Squares(x), e);
    var n: nat :| Below(Squares(x), n, e);
    forall t: nat | t >= n + 2 ensures ShrinksAt(EnergyOf(co, h, x), Sq(Loss(co)), bound, t) {
      EnergyShrinks(co, h, x, n, e, bound, t);
    }
    LossSquared(co);
    ShrinkingSettles(EnergyOf(co, h, x), Sq(Loss(co)), bound, n + 2);
    var m: nat :| Below(EnergyOf(co, h, x), m, 2.0 * bound);
    OutputBelow(co, h, x, m, 2.0 * bound, eps);
  }

  lemma MarginPositive(co: Coeffs)
    requires Stable(co)
    ensures Margin(co) > 0.0
  {}

  lemma LossSquared(co: Coeffs)
    requires Stable(co)
    ensures 0.0 < Sq(Loss(co)) < 1.0
  {
    hide Loss;
    LossInside(co);
    SquareSign(Loss(co));
    MulMono(Loss(co), 1.0, Loss(co));
  }

  /** A bound on the input that keeps the energy near its bound. */
  lemma SmallInput(co: Coeffs, bound: real, eps: real) returns (e: real)
    requires Stable(co) && eps > 0.0 && bound == Times(0.5, Times(Margin(co), eps))
    ensures bound > 0.0 && e > 0.0 && 96.0 * (Reach(co) * e) <= Times(Loss(co), Times(Sq(Loss(co)), bound))
  {
    hide Sq, Loss, Reach, Margin;
    MarginPositive(co);
    MulPositive(Margin(co), eps, Margin(co) * eps);
    LossInside(co);
    LossSquared(co);
    MulPositive(Sq(Loss(co)), bound, Sq(Loss(co)) * bound);
    var room := Loss(co) * (Sq(Loss(co)) * bound);
    MulPositive(Loss(co), Sq(Loss(co)) * bound, room);
    e := room / 96.0 / Reach(co);
    DivMul(room / 96.0, Reach(co));
    if e <= 0.0 {
      NonNegative(-e, Reach(co), -e * Reach(co));
    }
  }

  lemma OutputBelow(co: Coeffs, h: History, x: nat -> real, m: nat, most: real, eps: real)
    requires Stable(co) && Below(EnergyOf(co, h, x), m, most) && most == 2.0 * Times(0.5, Times(Margin(co), eps))
    ensures Below(Squares(Output(co, h, x)), m, eps)
  {
    hide Sq, Energy, Margin, HistoryAt;
    forall t: nat | t >= m ensures Squares(Output(co, h, x))(t) <= eps {
      var r := HistoryAt(co, h, x, t + 1);
      assert EnergyOf(co, h, x)(t + 1) <= most;
      EnergyDefinite(co, r.y1, r.y2);
      SquareSign(r.y2);
      Smaller(Margin(co), Sq(r.y1), Sq(r.y2), eps);
    }
  }

  lemma Smaller(m: real, a: real, b: real, eps: real)
    requires m > 0.0 && b >= 0.0 && m * (a + b) <= 2.0 * Times(0.5, Times(m, eps))
    ensures a <= eps
  {
    if a > eps {
      MulPositive(m, a + b - eps, m * (a + b - eps));
    }
  }

  // ----- the cascade -----

  /** The output of a cascade on a signal. */
  function CascadeOutput(co: Coeffs, hs: seq<History>, x: nat -> real): (y: nat -> real) {
    (t: nat) => Samples(co, hs, Prefix(x, t + 1)).0[t]
  }

  lemma FadesAlike(v: nat -> real, v': nat -> real)
    requires Fades(v) && forall t: nat :: v(t) == v'(t)
    ensures Fades(v')
  {
    forall eps: real | eps > 0.0 ensures Settles(v', eps) {
      assert Settles(v, eps);
      var n: nat :| Below(v, n, eps);
      assert Below(v', n, eps);
    }
  }

  /** Earlier outputs do not depend on later inputs. */
  lemma {:induction false} OutputsSoFar(co: Coeffs, hs: seq<History>, x: nat -> real, n: nat)
    ensures Samples(co, hs, Prefix(x, n)).0 == Prefix(CascadeOutput(co, hs, x), n)
  {
    hide Through;
    if n > 0 {
      OutputsSoFar(co, hs, x, n - 1);
      assert Prefix(x, n)[..n - 1] == Prefix(x, n - 1);
      var y := CascadeOutput(co, hs, x);
      assert Prefix(y, n) == Prefix(y, n - 1) + [y(n - 1)];
    }
  }

  /** The last section runs over the output of the sections before it. */
  lemma LastSection(co: Coeffs, hs: seq<History>, x: nat -> real, t: nat)
    requires |hs| > 0
    ensures var m := |hs| - 1;
            CascadeOutput(co, hs, x)(t) == Output(co, hs[m], CascadeOutput(co, hs[..m], x))(t)
  {
    hide Samples, Step;
    var m := |hs| - 1;
    SamplesByLast(co, hs, Prefix(x, t + 1));
    OutputsSoFar(co, hs[..m], x, t + 1);
    LastOutput(co, hs[m], Prefix(CascadeOutput(co, hs[..m], x), t + 1));
  }

  lemma LastOutput(co: Coeffs, h: History, xs: seq<real>)
    requires |xs| > 0
    ensures RunStage(co, h, xs).0[|xs| - 1] == RunStage(co, h, xs).1.y1
  {}

  /**
  Stability of the whole filter: if the input dies out, so does the output, for every stable section,
  any number of sections and any histories.
  */
  lemma {:induction false} CascadeFades(co: Coeffs, hs: seq<History>, x: nat -> real)
    requires Stable(co) && Fades(Squares(x))
    ensures Fades(Squares(CascadeOutput(co, hs, x)))
  {
    hide Fades, Stable, Squares, Output, CascadeOutput;
    if |hs| == 0 {
      NoCascade(co, hs, x);
      FadesAlike(Squares(x), Squares(CascadeOutput(co, hs, x)));
    } else {
      var m := |hs| - 1;
      var front := CascadeOutput(co, hs[..m], x);
      CascadeFades(co, hs[..m], x);
      SectionFades(co, hs[m], front);
      LastSquares(co, hs, x);
      FadesAlike(Squares(Output(co, hs[m], front)), Squares(CascadeOutput(co, hs, x)));
    }
  }

  lemma NoCascade(co: Coeffs, hs: seq<History>, x: nat -> real)
    requires |hs| == 0
    ensures forall t: nat :: Squares(x)(t) == Squares(CascadeOutput(co, hs, x))(t)
  {
    hide Samples, Sq;
    assert hs == [];
    forall t: nat ensures Squares(x)(t) == Squares(CascadeOutput(co, hs, x))(t) {
      NoSections(co, Prefix(x, t + 1));
    }
  }

  lemma LastSquares(co: Coeffs, hs: seq<History>, x: nat -> real)
    requires |hs| > 0
    ensures var m := |hs| - 1;
            forall t: nat :: Squares(Output(co, hs[m], CascadeOutput(co, hs[..m], x)))(t)
                == Squares(CascadeOutput(co, hs, x))(t)
  {
    hide Output, CascadeOutput, Sq;
    var m := |hs| - 1;
    forall t: nat
      ensures Squares(Output(co, hs[m], CascadeOutput(co, hs[..m], x)))(t) == Squares(CascadeOutput(co, hs, x))(t)
    {
      LastSection(co, hs, x, t);
    }
  }
}

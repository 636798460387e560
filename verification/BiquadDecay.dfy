/**
Stable filters forget: without input the energy falls by a fixed factor every two frames, and
whatever signal dies out at the input of a cascade dies out at its output.
*/
module BiquadDecay {
  import opened Biquad
  import opened BiquadDesign

  // ----- the factor over two silent frames -----

  /** The determinant of the energy form, which is positive for stable filters. */
  function Det(co: Coeffs): (d: real) {
    Sq(1.0 + co.a2) - Sq(co.a1)
  }

  /** The share of the energy that two silent frames take at least. */
  function Loss(co: Coeffs): (r: real) {
    (1.0 - co.a2) * Sq(Det(co)) / 576.0
  }

  lemma MulMono(a: real, b: real, c: real)
    requires a <= b && c >= 0.0
    ensures a * c <= b * c
  {}

  lemma MulPositive(a: real, b: real, p: real)
    requires a > 0.0 && b > 0.0 && p == a * b
    ensures p > 0.0
  {}

  lemma SquareBelow(x: real, m: real)
    requires -m <= x <= m
    ensures Sq(x) <= m * m
  {
    NonNegative(m - x, m + x, (m - x) * (m + x));
    assert (m - x) * (m + x) == m * m - x * x;
  }

  lemma DetPositive(co: Coeffs)
    requires Stable(co)
    ensures 0.0 < Det(co) <= 4.0
  {
    var s, a := 1.0 + co.a2, co.a1;
    MulPositive(s - a, s + a, (s - a) * (s + a));
    assert (s - a) * (s + a) == Sq(s) - Sq(a);
    SquareBelow(s, 2.0);
    SquareSign(a);
  }

  lemma LossInside(co: Coeffs)
    requires Stable(co)
    ensures 0.0 < Loss(co) < 1.0
  {
    hide Det;
    DetPositive(co);
    var e := Sq(Det(co));
    SquareSign(Det(co));
    SquareBelow(Det(co), 4.0);
    MulPositive(1.0 - co.a2, e, (1.0 - co.a2) * e);
    MulMono(1.0 - co.a2, 2.0, e);
  }

  /** The two changes that make up the loss determine the history. */
  lemma Solve(a: real, s: real, y1: real, y2: real, u: real, r: real, d: real)
    requires u == -(a * y1 + s * y2) && r == -(s * y1 + a * y2) && d == Sq(s) - Sq(a)
    ensures d * y1 == a * u - s * r
    ensures d * y2 == a * r - s * u
  {
    assert a * u == -(a * (a * y1) + a * (s * y2));
    assert s * r == -(s * (s * y1) + s * (a * y2));
    assert a * r == -(a * (s * y1) + a * (a * y2));
    assert s * u == -(s * (a * y1) + s * (s * y2));
    assert a * (s * y2) == s * (a * y2) && a * (s * y1) == s * (a * y1);
    assert (s * s - a * a) * y1 == s * (s * y1) - a * (a * y1);
    assert (s * s - a * a) * y2 == s * (s * y2) - a * (a * y2);
  }

  /** (p u + q v)^2 <= (p^2 + q^2)(u^2 + v^2) */
  lemma Cauchy(p: real, q: real, u: real, v: real, c: real)
    requires c == p * u + q * v
    ensures Sq(c) <= (Sq(p) + Sq(q)) * (Sq(u) + Sq(v))
  {
    hide Sq;
    Reorder(p, q, u, v);
    FourSquares(p * u, q * v, p * v, q * u, c);
    SquareOfProduct(p, u);
    SquareOfProduct(q, v);
    SquareOfProduct(p, v);
    SquareOfProduct(q, u);
    Distribute(Sq(p), Sq(q), Sq(u), Sq(v));
  }

  lemma FourSquares(a: real, b: real, c: real, d: real, sum: real)
    requires a * b == c * d && sum == a + b
    ensures Sq(sum) <= Sq(a) + Sq(b) + Sq(c) + Sq(d)
  {
    hide Sq;
    SquareSign(c - d);
    SquareOfSum(a, b, sum);
    SquareOfDifference(c, d, c - d);
  }

  lemma SquareOfSum(a: real, b: real, c: real)
    requires c == a + b
    ensures Sq(c) == Sq(a) + 2.0 * (a * b) + Sq(b)
  {}

  lemma SquareOfDifference(a: real, b: real, c: real)
    requires c == a - b
    ensures Sq(c) == Sq(a) - 2.0 * (a * b) + Sq(b)
  {}

  lemma Reorder(p: real, q: real, u: real, v: real)
    ensures (p * u) * (q * v) == (p * v) * (q * u)
  {}

  lemma SquareOfProduct(p: real, u: real)
    ensures Sq(p * u) == Sq(p) * Sq(u)
  {}

  lemma Distribute(a: real, b: real, c: real, d: real)
    ensures (a + b) * (c + d) == a * c + a * d + b * c + b * d
  {}

  /** The changes bound the history from above. */
  lemma ChangesBound(co: Coeffs, y1: real, y2: real, u: real, v: real)
    requires Stable(co) && u == -(co.a1 * y1 + (1.0 + co.a2) * y2)
    requires v + co.a1 * u == -((1.0 + co.a2) * y1 + co.a1 * y2)
    ensures Sq(Det(co)) * (Sq(y1) + Sq(y2)) <= 144.0 * (Sq(u) + Sq(v))
  {
    hide Sq;
    var a, s, r, d := co.a1, 1.0 + co.a2, v + co.a1 * u, Det(co);
    Solve(a, s, y1, y2, u, r, d);
    Combination(a, s, u, r, d * y1);
    Combination(a, s, r, u, d * y2);
    SquareOfProduct(d, y1);
    SquareOfProduct(d, y2);
    assert Sq(d) * Sq(y1) <= 8.0 * (Sq(u) + Sq(r));
    assert Sq(d) * Sq(y2) <= 8.0 * (Sq(u) + Sq(r));
    Second(a, u, v, r);
    SquareSign(u);
    SquareSign(v);
    Factor(Sq(d), Sq(y1), Sq(y2));
    assert Sq(d) * (Sq(y1) + Sq(y2)) <= 144.0 * (Sq(u) + Sq(v));
  }

  lemma Combination(a: real, s: real, u: real, r: real, c: real)
    requires c == a * u - s * r && -2.0 <= a <= 2.0 && -2.0 <= s <= 2.0
    ensures Sq(c) <= 8.0 * (Sq(u) + Sq(r))
  {
    hide Sq;
    Cauchy(a, -s, u, r, c);
    SquareNeg(s);
    SquareBelow(a, 2.0);
    SquareBelow(s, 2.0);
    SquareSign(u);
    SquareSign(r);
    MulMono(Sq(a) + Sq(s), 8.0, Sq(u) + Sq(r));
  }

  lemma Second(a: real, u: real, v: real, r: real)
    requires -2.0 <= a <= 2.0 && r == v + a * u
    ensures Sq(r) <= 5.0 * (Sq(u) + Sq(v))
  {
    hide Sq;
    Cauchy(1.0, a, v, u, r);
    SquareOne();
    SquareBelow(a, 2.0);
    SquareSign(u);
    SquareSign(v);
    MulMono(1.0 + Sq(a), 5.0, Sq(v) + Sq(u));
  }

  lemma SquareNeg(x: real)
    ensures Sq(-x) == Sq(x)
  {}

  lemma SquareOne()
    ensures Sq(1.0) == 1.0
  {}

  lemma Factor(p: real, a: real, b: real)
    ensures p * (a + b) == p * a + p * b
  {}

  /** The energy is at most four times the square of the history. */
  lemma EnergyAtMost(co: Coeffs, y1: real, y2: real)
    requires Stable(co)
    ensures Energy(co, y1, y2) <= 4.0 * (Sq(y1) + Sq(y2))
  {
    hide Energy, Sq;
    var w, p := Sq(y1) + Sq(y2), 2.0 * (y1 * y2);
    SquareSign(y1);
    SquareSign(y2);
    SquareSign(y1 + y2);
    SquareSign(y1 - y2);
    SquareOfSum(y1, y2, y1 + y2);
    SquareOfDifference(y1, y2, y1 - y2);
    MulMono(1.0 + co.a2, 2.0, w);
    ProductWithin(co.a1, p, w);
    EnergyByProduct(co, y1, y2, w, p);
  }

  lemma EnergyByProduct(co: Coeffs, y1: real, y2: real, w: real, p: real)
    requires w == Sq(y1) + Sq(y2) && p == 2.0 * (y1 * y2)
    ensures Energy(co, y1, y2) == (1.0 + co.a2) * w + co.a1 * p
  {
    hide Sq;
    assert 2.0 * co.a1 * y1 * y2 == co.a1 * (2.0 * (y1 * y2));
  }

  lemma ProductWithin(a: real, p: real, w: real)
    requires -2.0 <= a <= 2.0 && -w <= p <= w
    ensures a * p <= 2.0 * w
  {
    if a >= 0.0 {
      NonNegative(a, w - p, a * (w - p));
      NonNegative(2.0 - a, w, (2.0 - a) * w);
      assert 2.0 * w - a * p == a * (w - p) + (2.0 - a) * w;
    } else {
      NonNegative(-a, w + p, -a * (w + p));
      NonNegative(2.0 + a, w, (2.0 + a) * w);
      assert 2.0 * w - a * p == -a * (w + p) + (2.0 + a) * w;
    }
  }

  /** Two silent frames take at least the share Loss from the energy. */
  lemma TwoSilentSteps(co: Coeffs, y1: real, y2: real, y: real, z: real)
    requires Stable(co) && y == -co.a1 * y1 - co.a2 * y2 && z == -co.a1 * y - co.a2 * y1
    ensures Energy(co, z, y) <= (1.0 - Loss(co)) * Energy(co, y1, y2)
  {
    hide Energy, Sq, Det, Loss;
    var u, v, e := y - y2, z - y1, Energy(co, y1, y2);
    EnergyStep(co, y1, y2, y);
    EnergyStep(co, y, y1, z);
    Changes(co, y1, y2, y, z);
    ChangesBound(co, y1, y2, u, v);
    EnergyAtMost(co, y1, y2);
    SquareSign(Det(co));
    var d := Sq(Det(co));
    MulMono(e, 4.0 * (Sq(y1) + Sq(y2)), d);
    LossOf(co, d, e, Sq(u) + Sq(v), Sq(y1) + Sq(y2));
    Factor(1.0 - co.a2, Sq(u), Sq(v));
  }

  lemma Changes(co: Coeffs, y1: real, y2: real, y: real, z: real)
    requires y == -co.a1 * y1 - co.a2 * y2 && z == -co.a1 * y - co.a2 * y1
    ensures y - y2 == -(co.a1 * y1 + (1.0 + co.a2) * y2)
    ensures (z - y1) + co.a1 * (y - y2) == -((1.0 + co.a2) * y1 + co.a1 * y2)
  {}

  lemma LossOf(co: Coeffs, d: real, e: real, w: real, h: real)
    requires Stable(co) && d == Sq(Det(co)) && e * d <= 4.0 * h * d && d * h <= 144.0 * w
    ensures (1.0 - co.a2) * w >= Loss(co) * e
  {
    hide Sq, Det;
    assert e * d <= 576.0 * w;
    MulMono(e * d, 576.0 * w, 1.0 - co.a2);
    Rescale(1.0 - co.a2, d, e, w);
  }

  lemma Rescale(k: real, d: real, e: real, w: real)
    requires (e * d) * k <= (576.0 * w) * k
    ensures (k * d / 576.0) * e <= k * w
  {
    assert (k * d / 576.0) * e == (e * d) * k / 576.0;
  }

  function Power(x: real, n: nat): (r: real) {
    if n == 0 then 1.0 else x * Power(x, n - 1)
  }

  lemma SilentStepIs(co: Coeffs, h: History)
    requires NoInput(h)
    ensures Step(co, h, 0.0).1 == History(0.0, 0.0, -co.a1 * h.y1 - co.a2 * h.y2, h.y1)
  {}

  /** Without input the energy falls geometrically. */
  lemma {:induction false} SilenceGeometric(co: Coeffs, h: History, n: nat)
    requires Stable(co) && NoInput(h)
    ensures var r := Silence(co, h, 2 * n);
            NoInput(r) && Energy(co, r.y1, r.y2) <= Power(1.0 - Loss(co), n) * Energy(co, h.y1, h.y2)
  {
    hide Energy, Loss, Step, Stable;
    if n > 0 {
      SilenceGeometric(co, h, n - 1);
      var r := Silence(co, h, 2 * n - 2);
      var r1 := Step(co, r, 0.0).1;
      var r2 := Step(co, r1, 0.0).1;
      assert Silence(co, h, 2 * n - 1) == r1;
      assert Silence(co, h, 2 * n) == r2;
      SilentStepIs(co, r);
      SilentStepIs(co, r1);
      TwoSilentSteps(co, r.y1, r.y2, r1.y1, r2.y1);
      LossInside(co);
      var k, p, e := 1.0 - Loss(co), Power(1.0 - Loss(co), n - 1), Energy(co, h.y1, h.y2);
      MulMono(Energy(co, r.y1, r.y2), p * e, k);
      assert (p * e) * k == (k * p) * e;
    }
  }
}

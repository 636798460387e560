/**
The frequency response of the filter types: what a section does to a sinusoid of any frequency, and
the gains of the five types at zero, at half the rate and at their own frequency, for any number of
frames. The three together determine the feed-forward coefficients.
*/
module BiquadResponse {
  import opened Biquad
  import opened BiquadDesign

  /** A sinusoid at one instant: its value u and its quadrature v. */
  datatype Phasor = Phasor(u: real, v: real)

  /** One frame later, for an angle per frame with cosine c and sine s. */
  function Turn(p: Phasor, c: real, s: real): (r: Phasor) {
    Phasor(c * p.u - s * p.v, s * p.u + c * p.v)
  }

  /** One frame earlier. */
  function Back(p: Phasor, c: real, s: real): (r: Phasor) {
    Phasor(c * p.u + s * p.v, c * p.v - s * p.u)
  }

  lemma TurnBack(p: Phasor, c: real, s: real)
    requires Sq(c) + Sq(s) == 1.0
    ensures Turn(Back(p, c, s), c, s) == p && Back(Turn(p, c, s), c, s) == p
  {
    var q, r := Back(p, c, s), Turn(p, c, s);
    Forth(c, s, p.u, p.v, q.u, q.v, Sq(c) + Sq(s));
    assert Turn(q, c, s) == p;
    AndBack(c, s, p.u, p.v, r.u, r.v, Sq(c) + Sq(s));
  }

  lemma Forth(c: real, s: real, u: real, v: real, x: real, y: real, one: real)
    requires one == c * c + s * s && one == 1.0
    requires x == c * u + s * v && y == c * v - s * u
    ensures c * x - s * y == u && s * x + c * y == v
  {
    assert c * x - s * y == (c * c + s * s) * u;
    assert s * x + c * y == (c * c + s * s) * v;
  }

  lemma AndBack(c: real, s: real, u: real, v: real, x: real, y: real, one: real)
    requires one == c * c + s * s && one == 1.0
    requires x == c * u - s * v && y == s * u + c * v
    ensures c * x + s * y == u && c * y - s * x == v
  {
    assert c * x + s * y == (c * c + s * s) * u;
    assert c * y - s * x == (c * c + s * s) * v;
  }

  function Turned(p: Phasor, c: real, s: real, n: nat): (r: Phasor) {
    if n == 0 then p else Turn(Turned(p, c, s, n - 1), c, s)
  }

  /** A complex gain g + h i on a sinusoid. */
  function Gained(p: Phasor, g: real, h: real): (y: real) {
    g * p.u - h * p.v
  }

  function Wave(p: Phasor, c: real, s: real, n: nat): (xs: seq<real>)
    ensures |xs| == n && forall i :: 0 <= i < n ==> xs[i] == Turned(p, c, s, i).u
  {
    seq(n, i requires 0 <= i < n => Turned(p, c, s, i).u)
  }

  function GainedWave(p: Phasor, c: real, s: real, g: real, h: real, n: nat): (ys: seq<real>)
    ensures |ys| == n && forall i :: 0 <= i < n ==> ys[i] == Gained(Turned(p, c, s, i), g, h)
  {
    seq(n, i requires 0 <= i < n => Gained(Turned(p, c, s, i), g, h))
  }

  /** The history of a section in which the sinusoid and its gained form have always run. */
  function Matching(p: Phasor, c: real, s: real, g: real, h: real): (r: History) {
    var p1 := Back(p, c, s);
    var p2 := Back(p1, c, s);
    History(p1.u, p2.u, Gained(p1, g, h), Gained(p2, g, h))
  }

  /** Real and imaginary part of x e^(iw) + z + y e^(-iw), for w with cosine c and sine s. */
  function Re(x: real, y: real, z: real, c: real): (r: real) {
    (x + y) * c + z
  }

  function Im(x: real, y: real, s: real): (r: real) {
    (x - y) * s
  }

  /** A numerator is the gain g + h i times a denominator. */
  predicate Times(nr: real, ni: real, g: real, h: real, dr: real, di: real) {
    nr == g * dr - h * di && ni == g * di + h * dr
  }

  /** The transfer function at the angle is g + h i. */
  predicate HasGain(co: Coeffs, c: real, s: real, g: real, h: real) {
    Times(Re(co.b0, co.b2, co.b1, c), Im(co.b0, co.b2, s), g, h, Re(1.0, co.a2, co.a1, c), Im(1.0, co.a2, s))
  }

  lemma GainStep(co: Coeffs, c: real, s: real, g: real, h: real, p: Phasor)
    requires Sq(c) + Sq(s) == 1.0 && HasGain(co, c, s, g, h)
    ensures Step(co, Matching(p, c, s, g, h), p.u) == (Gained(p, g, h), Matching(Turn(p, c, s), c, s, g, h))
  {
    hide Sq, Turn, Back, Gained, Step;
    TurnBack(p, c, s);
    var q := Back(p, c, s);
    TurnBack(q, c, s);
    Centred(co, c, s, g, h, q);
  }

  /** The same around the frame before. */
  lemma Centred(co: Coeffs, c: real, s: real, g: real, h: real, q: Phasor)
    requires HasGain(co, c, s, g, h)
    ensures var p, r := Turn(q, c, s), Back(q, c, s);
            Step(co, History(q.u, r.u, Gained(q, g, h), Gained(r, g, h)), p.u)
            == (Gained(p, g, h), History(p.u, q.u, Gained(p, g, h), Gained(q, g, h)))
  {
    hide HasGain, Step;
    var p, r := Turn(q, c, s), Back(q, c, s);
    var y1, y2, y := Gained(q, g, h), Gained(r, g, h), Gained(p, g, h);
    Balance(co, c, s, g, h, q.u, q.v, p.u, r.u, y1, y2, y);
    StepOf(co, q.u, r.u, y1, y2, p.u, y);
  }

  lemma StepOf(co: Coeffs, x1: real, x2: real, y1: real, y2: real, x: real, y: real)
    requires co.b0 * x + co.b1 * x1 + co.b2 * x2 - co.a1 * y1 - co.a2 * y2 == y
    ensures Step(co, History(x1, x2, y1, y2), x) == (y, History(x, x1, y, y1))
  {
    assert Step(co, History(x1, x2, y1, y2), x).0 == y;
  }

  lemma Balance(co: Coeffs, c: real, s: real, g: real, h: real, u: real, v: real,
                x: real, x2: real, y1: real, y2: real, y: real)
    requires HasGain(co, c, s, g, h)
    requires x == c * u - s * v && x2 == c * u + s * v && y1 == g * u - h * v
    requires y2 == g * x2 - h * (c * v - s * u) && y == g * x - h * (s * u + c * v)
    ensures co.b0 * x + co.b1 * u + co.b2 * x2 - co.a1 * y1 - co.a2 * y2 == y
  {
    var nr, ni := Re(co.b0, co.b2, co.b1, c), Im(co.b0, co.b2, s);
    var dr, di := Re(1.0, co.a2, co.a1, c), Im(1.0, co.a2, s);
    assert nr == g * dr - h * di && ni == g * di + h * dr;
    hide HasGain, Times;
    Forward(co, c, s, u, v, x, x2, nr, ni);
    Backward(co, c, s, g, h, u, v, x, x2, y1, y2, y, dr, di, nr, ni);
  }

  lemma Forward(co: Coeffs, c: real, s: real, u: real, v: real, x: real, x2: real, nr: real, ni: real)
    requires x == c * u - s * v && x2 == c * u + s * v
    requires nr == Re(co.b0, co.b2, co.b1, c) && ni == Im(co.b0, co.b2, s)
    ensures co.b0 * x + co.b1 * u + co.b2 * x2 == nr * u - ni * v
  {}

  lemma Backward(co: Coeffs, c: real, s: real, g: real, h: real, u: real, v: real,
                 x: real, x2: real, y1: real, y2: real, y: real, dr: real, di: real, nr: real, ni: real)
    requires x == c * u - s * v && x2 == c * u + s * v && y1 == g * u - h * v
    requires y2 == g * x2 - h * (c * v - s * u) && y == g * x - h * (s * u + c * v)
    requires dr == Re(1.0, co.a2, co.a1, c) && di == Im(1.0, co.a2, s)
    requires nr == g * dr - h * di && ni == g * di + h * dr
    ensures y + co.a1 * y1 + co.a2 * y2 == nr * u - ni * v
  {
    var a1, a2 := co.a1, co.a2;
    GainPart(a1, a2, c, s, u, v, x, x2, dr, di);
    QuadraturePart(a1, a2, c, s, u, v, dr, di);
    var e := x + a1 * u + a2 * x2;
    var f := (s * u + c * v) + a1 * v + a2 * (c * v - s * u);
    assert y + a1 * y1 + a2 * y2 == g * e - h * f by {
      assert a1 * y1 == g * (a1 * u) - h * (a1 * v);
      assert a2 * y2 == g * (a2 * x2) - h * (a2 * (c * v - s * u));
    }
    Cross(g, h, dr, di, u, v, e, f, nr, ni);
  }

  lemma GainPart(a1: real, a2: real, c: real, s: real, u: real, v: real, x: real, x2: real, dr: real, di: real)
    requires x == c * u - s * v && x2 == c * u + s * v
    requires dr == (1.0 + a2) * c + a1 && di == (1.0 - a2) * s
    ensures x + a1 * u + a2 * x2 == dr * u - di * v
  {}

  lemma QuadraturePart(a1: real, a2: real, c: real, s: real, u: real, v: real, dr: real, di: real)
    requires dr == (1.0 + a2) * c + a1 && di == (1.0 - a2) * s
    ensures (s * u + c * v) + a1 * v + a2 * (c * v - s * u) == di * u + dr * v
  {}

  lemma Cross(g: real, h: real, dr: real, di: real, u: real, v: real, e: real, f: real, nr: real, ni: real)
    requires e == dr * u - di * v && f == di * u + dr * v && nr == g * dr - h * di && ni == g * di + h * dr
    ensures g * e - h * f == nr * u - ni * v
  {
    assert g * (dr * u - di * v) - h * (di * u + dr * v) == (g * dr - h * di) * u - (g * di + h * dr) * v;
  }

  /** A sinusoid of any frequency passes a section at the gain of its transfer function, for any number of frames. */
  lemma {:induction false} WavePasses(co: Coeffs, c: real, s: real, g: real, h: real, p: Phasor, n: nat)
    requires Sq(c) + Sq(s) == 1.0 && HasGain(co, c, s, g, h)
    ensures RunStage(co, Matching(p, c, s, g, h), Wave(p, c, s, n))
         == (GainedWave(p, c, s, g, h, n), Matching(Turned(p, c, s, n), c, s, g, h))
  {
    hide *;
    WaveParts(p, c, s, g, h, n);
    if n == 0 {
      RunNothing(co, Matching(p, c, s, g, h));
    } else {
      WavePasses(co, c, s, g, h, p, n - 1);
      GainStep(co, c, s, g, h, Turned(p, c, s, n - 1));
      RunLast(co, Matching(p, c, s, g, h), Wave(p, c, s, n));
    }
  }

  lemma WaveParts(p: Phasor, c: real, s: real, g: real, h: real, n: nat)
    ensures n == 0 ==> Wave(p, c, s, n) == [] && GainedWave(p, c, s, g, h, n) == [] && Turned(p, c, s, n) == p
    ensures n > 0 ==> Wave(p, c, s, n)[..n - 1] == Wave(p, c, s, n - 1)
    ensures n > 0 ==> var q := Turned(p, c, s, n - 1);
              && Turned(p, c, s, n) == Turn(q, c, s) && Wave(p, c, s, n)[n - 1] == q.u
              && GainedWave(p, c, s, g, h, n) == GainedWave(p, c, s, g, h, n - 1) + [Gained(q, g, h)]
  {
    hide *;
    if n == 0 {
      TurnedNone(p, c, s);
      assert Wave(p, c, s, n) == [] && GainedWave(p, c, s, g, h, n) == [];
    } else {
      TurnedNext(p, c, s, n);
      WaveFront(p, c, s, n);
      GainedFront(p, c, s, g, h, n);
    }
  }

  lemma TurnedNone(p: Phasor, c: real, s: real)
    ensures Turned(p, c, s, 0) == p
  {}

  lemma TurnedNext(p: Phasor, c: real, s: real, n: nat)
    requires n > 0
    ensures Turned(p, c, s, n) == Turn(Turned(p, c, s, n - 1), c, s)
  {
    hide Turn;
  }

  lemma WaveFront(p: Phasor, c: real, s: real, n: nat)
    requires n > 0
    ensures Wave(p, c, s, n)[..n - 1] == Wave(p, c, s, n - 1)
  {
    hide Turned, Wave;
    var a, b := Wave(p, c, s, n), Wave(p, c, s, n - 1);
    assert forall i :: 0 <= i < n - 1 ==> a[..n - 1][i] == a[i] == b[i];
  }

  lemma GainedFront(p: Phasor, c: real, s: real, g: real, h: real, n: nat)
    requires n > 0
    ensures GainedWave(p, c, s, g, h, n)
         == GainedWave(p, c, s, g, h, n - 1) + [Gained(Turned(p, c, s, n - 1), g, h)]
  {
    hide Turned, Gained, GainedWave;
    var a, b := GainedWave(p, c, s, g, h, n), GainedWave(p, c, s, g, h, n - 1);
    assert forall i :: 0 <= i < n - 1 ==> a[i] == b[i];
  }

  lemma RunNothing(co: Coeffs, h: History)
    ensures RunStage(co, h, []) == ([], h)
  {}

  lemma RunLast(co: Coeffs, h: History, xs: seq<real>)
    requires |xs| > 0
    ensures var n := |xs| - 1;
            var front := RunStage(co, h, xs[..n]);
            var last := Step(co, front.1, xs[n]);
            RunStage(co, h, xs) == (front.0 + [last.0], last.1)
  {}

  // ----- the gains of the filter types -----

  /** The gain on the signal x, -x, x, .. at half the rate. */
  function TopGain(k: Kind, d: Design): (g: real) {
    match k
    case LowPass => 0.0
    case HighShelf => d.amp * d.amp
    case _ => 1.0
  }

  /** The gain at the filter's own frequency, real and imaginary part. */
  function OwnGain(k: Kind, d: Design): (gain: (real, real))
    requires d.q != 0.0
  {
    var a, b := d.amp - 1.0, d.root / d.q;
    match k
    case Peak => (d.amp * d.amp, 0.0)
    case LowPass => (0.0, -d.q)
    case HighPass => (0.0, d.q)
    case LowShelf => (d.amp * Tilt(a, b).0, -(d.amp * Tilt(a, b).1))
    case HighShelf => (d.amp * Tilt(a, b).0, d.amp * Tilt(a, b).1)
  }

  /** A complex number of size one: -(a - b i) squared over a squared plus b squared. */
  function Tilt(a: real, b: real): (t: (real, real)) {
    var n := Sq(a) + Sq(b);
    if n == 0.0 then (1.0, 0.0) else ((Sq(b) - Sq(a)) / n, 2.0 * a * b / n)
  }

  lemma TiltIs(a: real, b: real)
    requires b != 0.0
    ensures var t := Tilt(a, b); a * t.0 - b * t.1 == -a && b * t.0 + a * t.1 == b
  {
    hide Sq;
    SquareSign(a);
    SquareSign(b);
    var n, t := Sq(a) + Sq(b), Tilt(a, b);
    Squared(a);
    Squared(b);
    DivMul(Sq(b) - Sq(a), n);
    DivMul(2.0 * a * b, n);
    TiltScaled(a, b, t.0, t.1, n, Sq(a), Sq(b));
  }

  lemma TiltScaled(a: real, b: real, x: real, y: real, n: real, aa: real, bb: real)
    requires n != 0.0 && n == aa + bb && aa == a * a && bb == b * b && x * n == bb - aa && y * n == 2.0 * a * b
    ensures a * x - b * y == -a && b * x + a * y == b
  {
    assert (a * x - b * y) * n == a * (x * n) - b * (y * n);
    assert a * (bb - aa) - b * (2.0 * a * b) == -a * (aa + bb);
    assert (b * x + a * y) * n == b * (x * n) + a * (y * n);
    assert b * (bb - aa) + a * (2.0 * a * b) == b * (aa + bb);
    Cancel(a * x - b * y, -a, n);
    Cancel(b * x + a * y, b, n);
  }

  /** It has size one, so the gain of a shelf at its own frequency has the size of the amplitude. */
  lemma TiltSize(a: real, b: real)
    ensures Sq(Tilt(a, b).0) + Sq(Tilt(a, b).1) == 1.0
  {
    hide Sq;
    var t := Tilt(a, b);
    Squared(t.0);
    Squared(t.1);
    if b == 0.0 {
      FlatTilt(a);
    } else {
      TiltIs(a, b);
      UnitSize(a, b, t.0, t.1, t.0 * t.0 + t.1 * t.1, a * a + b * b);
    }
  }

  lemma FlatTilt(a: real)
    ensures Sq(Tilt(a, 0.0).0) + Sq(Tilt(a, 0.0).1) == 1.0
  {
    var n := Sq(a) + Sq(0.0);
    if n != 0.0 {
      DivMul(Sq(0.0) - Sq(a), n);
      assert Sq(0.0) == 0.0;
      Cancel(Tilt(a, 0.0).0, -1.0, n);
      DivMul(2.0 * a * 0.0, n);
      Cancel(Tilt(a, 0.0).1, 0.0, n);
    }
  }

  lemma Squared(x: real)
    ensures Sq(x) == x * x
  {}

  /** Multiplying by it keeps the size of a + b i. */
  lemma UnitSize(a: real, b: real, x: real, y: real, z: real, p: real)
    requires b != 0.0 && a * x - b * y == -a && b * x + a * y == b
    requires z == x * x + y * y && p == a * a + b * b
    ensures z == 1.0
  {
    Product(a, b, x, y, z, p, z * p, a * x - b * y, b * x + a * y);
    SizePositive(a, b, p);
    Cancel(z, 1.0, p);
  }

  lemma Product(a: real, b: real, x: real, y: real, z: real, p: real, zp: real, r: real, i: real)
    requires zp == z * p && z == x * x + y * y && p == a * a + b * b
    requires r == a * x - b * y && i == b * x + a * y && r == -a && i == b
    ensures zp == p
  {
    Expanded(a, b, x, y, z, p, zp, r, i);
    SameSquares(r, i, a, b, p);
  }

  lemma Expanded(a: real, b: real, x: real, y: real, z: real, p: real, zp: real, r: real, i: real)
    requires zp == z * p && z == x * x + y * y && p == a * a + b * b && r == a * x - b * y && i == b * x + a * y
    ensures zp == r * r + i * i
  {
    assert zp == (x * x + y * y) * (a * a + b * b);
  }

  lemma SameSquares(r: real, i: real, a: real, b: real, p: real)
    requires r == -a && i == b && p == a * a + b * b
    ensures r * r + i * i == p
  {}

  lemma SizePositive(a: real, b: real, p: real)
    requires b != 0.0 && p == a * a + b * b
    ensures p > 0.0
  {
    SquareSign(a);
    SquareSign(b);
  }

  /** The same on the numerators, before the division by a0. */
  predicate Balanced(n: Coeffs, a0: real, c: real, s: real, g: real, h: real) {
    Times(Re(n.b0, n.b2, n.b1, c), Im(n.b0, n.b2, s), g, h, Re(a0, n.a2, n.a1, c), Im(a0, n.a2, s))
  }

  /** A balance of the numerators is a gain of the filter. */
  lemma ScaledGain(k: Kind, d: Design, c: real, s: real, g: real, h: real)
    requires d.q != 0.0 && d.amp != 0.0 && Even(k, d) + Odd(k, d) != 0.0
    requires Balanced(Numerators(k, d), Even(k, d) + Odd(k, d), c, s, g, h)
    ensures HasGain(Update(k, d), c, s, g, h)
  {
    hide Update, Even, Odd, Numerators, Re, Im, Times;
    Scaled(k, d);
    var a0, n, co := Even(k, d) + Odd(k, d), Numerators(k, d), Update(k, d);
    DividedPart(1.0, co.a2, co.a1, a0, n.a2, n.a1, a0, c, s);
    DividedPart(co.b0, co.b2, co.b1, n.b0, n.b2, n.b1, a0, c, s);
    Cancelled(Re(co.b0, co.b2, co.b1, c), Im(co.b0, co.b2, s), Re(1.0, co.a2, co.a1, c), Im(1.0, co.a2, s), g, h, a0,
              Re(n.b0, n.b2, n.b1, c), Im(n.b0, n.b2, s), Re(a0, n.a2, n.a1, c), Im(a0, n.a2, s));
  }

  lemma DividedPart(x: real, y: real, z: real, x': real, y': real, z': real, a0: real, c: real, s: real)
    requires x * a0 == x' && y * a0 == y' && z * a0 == z'
    ensures Re(x, y, z, c) * a0 == Re(x', y', z', c) && Im(x, y, s) * a0 == Im(x', y', s)
  {
    assert ((x + y) * c + z) * a0 == (x * a0 + y * a0) * c + z * a0;
    assert ((x - y) * s) * a0 == (x * a0 - y * a0) * s;
  }

  lemma Cancelled(nr: real, ni: real, dr: real, di: real, g: real, h: real, a0: real,
                  nr': real, ni': real, dr': real, di': real)
    requires a0 != 0.0 && nr * a0 == nr' && ni * a0 == ni' && dr * a0 == dr' && di * a0 == di'
    requires Times(nr', ni', g, h, dr', di')
    ensures Times(nr, ni, g, h, dr, di)
  {
    assert (g * dr - h * di) * a0 == g * (dr * a0) - h * (di * a0);
    assert (g * di + h * dr) * a0 == g * (di * a0) + h * (dr * a0);
    Cancel(nr, g * dr - h * di, a0);
    Cancel(ni, g * di + h * dr, a0);
  }

  // ----- half the rate -----

  /** At half the rate every type has its gain. */
  lemma TopBalance(k: Kind, d: Design)
    requires d.q != 0.0 && d.amp != 0.0
    ensures Balanced(Numerators(k, d), Even(k, d) + Odd(k, d), -1.0, 0.0, TopGain(k, d), 0.0)
  {
    hide Alpha, Odd, Re, Balanced;
    var n, a0 := Numerators(k, d), Even(k, d) + Odd(k, d);
    if k == LowShelf {
      TopLowShelf(d);
    } else if k == HighShelf {
      TopHighShelf(d);
    } else {
      TopSimple(k, d);
    }
    TopOf(n, a0, TopGain(k, d));
  }

  lemma TopOf(n: Coeffs, a0: real, g: real)
    requires Re(n.b0, n.b2, n.b1, -1.0) == g * Re(a0, n.a2, n.a1, -1.0)
    ensures Balanced(n, a0, -1.0, 0.0, g, 0.0)
  {
    hide Re;
  }

  lemma TopSimple(k: Kind, d: Design)
    requires d.q != 0.0 && d.amp != 0.0 && k != LowShelf && k != HighShelf
    ensures var n := Numerators(k, d);
            Re(n.b0, n.b2, n.b1, -1.0) == TopGain(k, d) * Re(Even(k, d) + Odd(k, d), n.a2, n.a1, -1.0)
  {
    hide Alpha, Odd;
  }

  lemma TopLowShelf(d: Design)
    requires d.q != 0.0 && d.amp != 0.0
    ensures var n := Numerators(LowShelf, d);
            Re(n.b0, n.b2, n.b1, -1.0)
            == TopGain(LowShelf, d) * Re(Even(LowShelf, d) + Odd(LowShelf, d), n.a2, n.a1, -1.0)
  {
    hide Alpha, Odd;
    var n, a0, a, c := Numerators(LowShelf, d), Even(LowShelf, d) + Odd(LowShelf, d), d.amp, d.c;
    assert n.b0 + n.b2 == 2.0 * (a * ((a + 1.0) - (a - 1.0) * c));
    assert n.b1 == 2.0 * (a * ((a - 1.0) - (a + 1.0) * c));
    assert Re(n.b0, n.b2, n.b1, -1.0) == -4.0 * (a + a * c);
    assert Re(a0, n.a2, n.a1, -1.0) == -4.0 * (a + a * c);
  }

  lemma TopHighShelf(d: Design)
    requires d.q != 0.0 && d.amp != 0.0
    ensures var n := Numerators(HighShelf, d);
            Re(n.b0, n.b2, n.b1, -1.0)
            == TopGain(HighShelf, d) * Re(Even(HighShelf, d) + Odd(HighShelf, d), n.a2, n.a1, -1.0)
  {
    hide Alpha, Odd;
    var n, a0, a, c := Numerators(HighShelf, d), Even(HighShelf, d) + Odd(HighShelf, d), d.amp, d.c;
    assert n.b0 + n.b2 == 2.0 * (a * ((a + 1.0) + (a - 1.0) * c));
    assert n.b1 == -2.0 * (a * ((a - 1.0) + (a + 1.0) * c));
    assert Re(n.b0, n.b2, n.b1, -1.0) == -4.0 * ((a * a) * (1.0 + c));
    assert Re(a0, n.a2, n.a1, -1.0) == -4.0 * (1.0 + c);
  }

  /** The signal x, -x, x, .. */
  function Alternating(x: real, n: nat): (xs: seq<real>)
    ensures |xs| == n && forall i :: 0 <= i < n ==> xs[i] == if i % 2 == 0 then x else -x
  {
    seq(n, i => if i % 2 == 0 then x else -x)
  }

  lemma {:induction false} TurnedAlternates(x: real, n: nat)
    ensures Turned(Phasor(x, 0.0), -1.0, 0.0, n) == Phasor(if n % 2 == 0 then x else -x, 0.0)
  {
    hide Turn, Turned;
    if n == 0 {
      TurnedNone(Phasor(x, 0.0), -1.0, 0.0);
    } else {
      TurnedAlternates(x, n - 1);
      TurnedNext(Phasor(x, 0.0), -1.0, 0.0, n);
      Flip(if (n - 1) % 2 == 0 then x else -x);
    }
  }

  lemma Flip(x: real)
    ensures Turn(Phasor(x, 0.0), -1.0, 0.0) == Phasor(-x, 0.0)
  {}

  lemma FlipGained(x: real, y: real, g: real)
    requires y == g * x
    ensures Gained(Phasor(x, 0.0), g, 0.0) == y && Gained(Phasor(-x, 0.0), g, 0.0) == -y
  {}

  /** The signal x, -x, x, .. passes every filter type at its gain, for any number of frames. */
  lemma TopFrequency(k: Kind, d: Design, x: real, y: real, n: nat)
    requires d.q != 0.0 && d.amp != 0.0 && Even(k, d) + Odd(k, d) != 0.0 && y == TopGain(k, d) * x
    ensures RunStage(Update(k, d), History(-x, x, -y, y), Alternating(x, n)).0 == Alternating(y, n)
  {
    hide Update, Even, Odd, Numerators, HasGain, Balanced, RunStage, Alternating, TopGain, Turn, Turned, Gained, Wave,
      GainedWave, Matching;
    var p, g := Phasor(x, 0.0), TopGain(k, d);
    TopBalance(k, d);
    ScaledGain(k, d, -1.0, 0.0, g, 0.0);
    WavePasses(Update(k, d), -1.0, 0.0, g, 0.0, p, n);
    forall i | 0 <= i < n
      ensures Wave(p, -1.0, 0.0, n)[i] == Alternating(x, n)[i]
      ensures GainedWave(p, -1.0, 0.0, g, 0.0, n)[i] == Alternating(y, n)[i]
    {
      TurnedAlternates(x, i);
      FlipGained(x, y, g);
    }
    assert Wave(p, -1.0, 0.0, n) == Alternating(x, n);
    assert GainedWave(p, -1.0, 0.0, g, 0.0, n) == Alternating(y, n);
    TopHistory(x, y, g);
  }

  lemma TopHistory(x: real, y: real, g: real)
    requires y == g * x
    ensures Matching(Phasor(x, 0.0), -1.0, 0.0, g, 0.0) == History(-x, x, -y, y)
  {}

  // ----- the filter's own frequency -----

  /** The odd part and the sine: twice their product is a square over the quality. */
  lemma OddIs(k: Kind, d: Design)
    requires d.q != 0.0 && d.amp != 0.0
    ensures k == LowPass || k == HighPass ==> 2.0 * (Odd(k, d) * d.s) * d.q == Sq(d.s)
    ensures k == Peak ==> Odd(k, d) * d.amp == Alpha(d)
    ensures k == LowShelf || k == HighShelf ==> Odd(k, d) == d.root / d.q * d.s
  {
    DivMul(d.s * 0.5, d.q);
    if k == Peak {
      DivMul(Alpha(d), d.amp);
    } else if k == LowShelf || k == HighShelf {
      DivMul(d.root, d.q);
      ShelfOdd(d.root, d.s, d.q, Alpha(d), d.root / d.q);
    } else {
      PassOdd(Alpha(d), d.s, d.q);
    }
  }

  lemma PassOdd(t: real, s: real, q: real)
    requires t * q == s * 0.5
    ensures 2.0 * (t * s) * q == Sq(s)
  {
    assert 2.0 * (t * s) * q == 2.0 * (t * q) * s;
  }

  lemma ShelfOdd(root: real, s: real, q: real, alpha: real, b: real)
    requires q != 0.0 && alpha * q == s * 0.5 && b * q == root
    ensures 2.0 * root * alpha == b * s
  {
    assert (2.0 * root * alpha) * q == 2.0 * root * (alpha * q);
    assert (b * s) * q == (b * q) * s;
    Cancel(2.0 * root * alpha, b * s, q);
  }

  lemma OneMinus(c: real, s: real)
    requires Sq(c) + Sq(s) == 1.0
    ensures (1.0 - c) * (1.0 + c) == Sq(s)
  {}

  /** The parts of numerator and denominator of a low or high pass. */
  lemma PassParts(k: Kind, d: Design)
    requires d.Valid() && (k == LowPass || k == HighPass)
    ensures var n, a0 := Numerators(k, d), Even(k, d) + Odd(k, d);
            && Re(n.b0, n.b2, n.b1, d.c) == (if k == LowPass then Sq(d.s) else -Sq(d.s)) && Im(n.b0, n.b2, d.s) == 0.0
            && Re(a0, n.a2, n.a1, d.c) == 0.0 && Im(a0, n.a2, d.s) == 2.0 * (Odd(k, d) * d.s)
  {
    hide Alpha, Odd, Sq;
    OneMinus(d.c, d.s);
    var n, c := Numerators(k, d), d.c;
    if k == LowPass {
      assert Re(n.b0, n.b2, n.b1, c) == (1.0 - c) * (1.0 + c);
    } else {
      assert Re(n.b0, n.b2, n.b1, c) == -((1.0 - c) * (1.0 + c));
    }
  }

  lemma OwnPass(k: Kind, d: Design)
    requires d.Valid() && (k == LowPass || k == HighPass)
    ensures var gain := OwnGain(k, d);
            Balanced(Numerators(k, d), Even(k, d) + Odd(k, d), d.c, d.s, gain.0, gain.1)
  {
    hide Re, Im, Odd, Even, Numerators, Sq;
    PassParts(k, d);
    OddIs(k, d);
    var di := 2.0 * (Odd(k, d) * d.s);
    assert di * d.q == Sq(d.s);
    PassEnd(k == LowPass, di, d.q, Sq(d.s));
  }

  lemma PassEnd(low: bool, di: real, q: real, ss: real)
    requires di * q == ss
    ensures low ==> Times(ss, 0.0, 0.0, -q, 0.0, di)
    ensures !low ==> Times(-ss, 0.0, 0.0, q, 0.0, di)
  {}

  lemma OwnPeak(d: Design)
    requires d.Valid()
    ensures var gain := OwnGain(Peak, d);
            Balanced(Numerators(Peak, d), Even(Peak, d) + Odd(Peak, d), d.c, d.s, gain.0, gain.1)
  {
    hide Alpha, Odd;
    OddIs(Peak, d);
    var n, a0, t := Numerators(Peak, d), Even(Peak, d) + Odd(Peak, d), Odd(Peak, d);
    assert Re(n.b0, n.b2, n.b1, d.c) == 0.0 && Re(a0, n.a2, n.a1, d.c) == 0.0;
    PeakEnd(Alpha(d), t, d.amp, d.s, Im(n.b0, n.b2, d.s), Im(a0, n.a2, d.s));
  }

  lemma PeakEnd(alpha: real, t: real, a: real, s: real, ni: real, di: real)
    requires t * a == alpha && ni == ((1.0 + alpha * a) - (1.0 - alpha * a)) * s && di == ((1.0 + t) - (1.0 - t)) * s
    ensures ni == (a * a) * di
  {
    assert ni == 2.0 * (alpha * a) * s;
    assert (a * a) * di == 2.0 * ((t * a) * a) * s;
  }

  /** What numerator and denominator of both shelves are made of. */
  datatype Parts = Parts(e1: real, m1: real, f1: real, e2: real, m2: real, f2: real, t: real)

  /** What a shelf tilts by, in units of twice the squared sine. */
  predicate Units(d: Design, sa: real, sb: real)
    requires d.q != 0.0
  {
    sa == 2.0 * Sq(d.s) * (d.amp - 1.0) && sb == 2.0 * Sq(d.s) * (d.root / d.q)
  }

  predicate NumeratorOf(a: real, e: real, m: real, t: real, n: Coeffs) {
    n.b0 == a * (e + t) && n.b1 == 2.0 * (a * m) && n.b2 == a * (e - t)
  }

  predicate PartsOf(d: Design, p: Parts, sa: real, sb: real) {
    && p.f1 == p.e1 * d.c && 2.0 * (p.f1 + p.m1) == sa
    && p.f2 == p.e2 * d.c && 2.0 * (p.f2 + p.m2) == -sa
    && 2.0 * (p.t * d.s) == sb
  }

  predicate SharedBy(d: Design, p: Parts) {
    && p.e1 == (d.amp + 1.0) - (d.amp - 1.0) * d.c && p.m1 == (d.amp - 1.0) - (d.amp + 1.0) * d.c
    && p.e2 == (d.amp + 1.0) + (d.amp - 1.0) * d.c && p.m2 == -((d.amp - 1.0) + (d.amp + 1.0) * d.c)
  }

  lemma ShelfShared(d: Design, sa: real, sb: real, t: real) returns (p: Parts)
    requires d.Valid() && t == d.root / d.q * d.s && Units(d, sa, sb)
    ensures PartsOf(d, p, sa, sb) && SharedBy(d, p) && p.t == t
  {
    hide Sq;
    OneMinus(d.c, d.s);
    var a, c := d.amp, d.c;
    ShelfIm(a, t, d.s, d.root / d.q, sb, Sq(d.s));
    var e1, m1 := (a + 1.0) - (a - 1.0) * c, (a - 1.0) - (a + 1.0) * c;
    var e2, m2 := (a + 1.0) + (a - 1.0) * c, -((a - 1.0) + (a + 1.0) * c);
    ShelfRe(a, c, Sq(d.s), sa, e1, m1, e1 * c);
    Mirrored(a, c, Sq(d.s), sa, e2, m2, e2 * c);
    p := Parts(e1, m1, e1 * c, e2, m2, e2 * c, t);
  }

  /** Numerator and denominator of a shelf at its own frequency, by what it tilts. */
  lemma LowShelfParts(d: Design, p: Parts, sa: real, sb: real, ga: real, gb: real)
    requires d.q != 0.0 && d.amp != 0.0 && PartsOf(d, p, sa, sb) && SharedBy(d, p) && p.t == Odd(LowShelf, d)
    requires ga == d.amp * sa && gb == d.amp * sb
    ensures var n, a0 := Numerators(LowShelf, d), Even(LowShelf, d) + Odd(LowShelf, d);
            && Re(n.b0, n.b2, n.b1, d.c) == ga && Im(n.b0, n.b2, d.s) == gb
            && Re(a0, n.a2, n.a1, d.c) == -sa && Im(a0, n.a2, d.s) == sb
  {
    hide Alpha, Odd, Even, Numerators, Re, Im, SharedBy, NumeratorOf;
    var n := Numerators(LowShelf, d);
    LowShelfCoeffs(d, p);
    ShelfNumerator(d.amp, p.t, p.e1, p.m1, p.f1, n, d.c, d.s, sa, sb, ga, gb);
    ShelfDenominator(p.t, p.e2, p.m2, p.f2, n, Even(LowShelf, d) + p.t, d.c, d.s, -sa, sb);
  }

  lemma HighShelfParts(d: Design, p: Parts, sa: real, sb: real, ga: real, gb: real)
    requires d.q != 0.0 && d.amp != 0.0 && PartsOf(d, p, sa, sb) && SharedBy(d, p) && p.t == Odd(HighShelf, d)
    requires ga == d.amp * sa && gb == d.amp * sb
    ensures var n, a0 := Numerators(HighShelf, d), Even(HighShelf, d) + Odd(HighShelf, d);
            && Re(n.b0, n.b2, n.b1, d.c) == -ga && Im(n.b0, n.b2, d.s) == gb
            && Re(a0, n.a2, n.a1, d.c) == sa && Im(a0, n.a2, d.s) == sb
  {
    hide Alpha, Odd, Even, Numerators, Re, Im, SharedBy, NumeratorOf;
    var n := Numerators(HighShelf, d);
    HighShelfCoeffs(d, p);
    Negated(d.amp, sa, ga);
    ShelfNumerator(d.amp, p.t, p.e2, p.m2, p.f2, n, d.c, d.s, -sa, sb, -ga, gb);
    ShelfDenominator(p.t, p.e1, p.m1, p.f1, n, Even(HighShelf, d) + p.t, d.c, d.s, sa, sb);
  }

  lemma Negated(a: real, x: real, y: real)
    requires y == a * x
    ensures -y == a * -x
  {}

  lemma Mirrored(a: real, c: real, ss: real, sa: real, e: real, m: real, ec: real)
    requires (1.0 - c) * (1.0 + c) == ss && sa == 2.0 * ss * (a - 1.0) && ec == e * c
    requires e == (a + 1.0) + (a - 1.0) * c && m == -((a - 1.0) + (a + 1.0) * c)
    ensures 2.0 * (ec + m) == -sa
  {
    assert e * c + m == -((a - 1.0) * ((1.0 - c) * (1.0 + c)));
  }

  /** The coefficients of a shelf, with their common parts named. */
  lemma LowShelfCoeffs(d: Design, p: Parts)
    requires d.q != 0.0 && d.amp != 0.0 && p.t == Odd(LowShelf, d) && SharedBy(d, p)
    ensures var n, a := Numerators(LowShelf, d), d.amp;
            && NumeratorOf(a, p.e1, p.m1, p.t, n)
            && Even(LowShelf, d) == p.e2 && n.a1 == 2.0 * p.m2 && n.a2 == p.e2 - p.t
  {
    hide Alpha, Odd;
  }

  lemma HighShelfCoeffs(d: Design, p: Parts)
    requires d.q != 0.0 && d.amp != 0.0 && p.t == Odd(HighShelf, d) && SharedBy(d, p)
    ensures var n, a := Numerators(HighShelf, d), d.amp;
            && NumeratorOf(a, p.e2, p.m2, p.t, n)
            && Even(HighShelf, d) == p.e1 && n.a1 == 2.0 * p.m1 && n.a2 == p.e1 - p.t
  {
    hide Alpha, Odd;
  }

  lemma ShelfNumerator(a: real, t: real, e: real, m: real, ec: real, n: Coeffs, c: real, s: real,
                       sa: real, sb: real, ga: real, gb: real)
    requires NumeratorOf(a, e, m, t, n)
    requires ec == e * c && 2.0 * (ec + m) == sa && 2.0 * (t * s) == sb && ga == a * sa && gb == a * sb
    ensures Re(n.b0, n.b2, n.b1, c) == ga && Im(n.b0, n.b2, s) == gb
  {
    assert Re(n.b0, n.b2, n.b1, c) == 2.0 * (a * (e * c)) + 2.0 * (a * m);
    assert a * (2.0 * (ec + m)) == 2.0 * (a * ec) + 2.0 * (a * m);
    assert Im(n.b0, n.b2, s) == 2.0 * (a * (t * s));
  }

  lemma ShelfDenominator(t: real, e: real, m: real, ec: real, n: Coeffs, a0: real, c: real, s: real, sa: real, sb: real)
    requires a0 == e + t && n.a1 == 2.0 * m && n.a2 == e - t
    requires ec == e * c && 2.0 * (ec + m) == sa && 2.0 * (t * s) == sb
    ensures Re(a0, n.a2, n.a1, c) == sa && Im(a0, n.a2, s) == sb
  {
    assert Re(a0, n.a2, n.a1, c) == 2.0 * (e * c) + 2.0 * m;
    assert Im(a0, n.a2, s) == 2.0 * (t * s);
  }

  lemma ShelfIm(a: real, t: real, s: real, b: real, sb: real, ss: real)
    requires t == b * s && ss == Sq(s) && sb == 2.0 * ss * b
    ensures 2.0 * (t * s) == sb
  {}

  /** The real part that both halves of a shelf share. */
  lemma ShelfRe(a: real, c: real, ss: real, sa: real, e: real, m: real, ec: real)
    requires (1.0 - c) * (1.0 + c) == ss && sa == 2.0 * ss * (a - 1.0) && ec == e * c
    requires e == (a + 1.0) - (a - 1.0) * c && m == (a - 1.0) - (a + 1.0) * c
    ensures 2.0 * (ec + m) == sa
  {
    assert e * c + m == (a - 1.0) * ((1.0 - c) * (1.0 + c));
  }

  /** The tilt turns numerator into denominator. */
  lemma ShelfTilt(d: Design, sa: real, sb: real, t: (real, real))
    requires d.Valid() && t == Tilt(d.amp - 1.0, d.root / d.q)
    requires Units(d, sa, sb)
    ensures t.0 * sa - t.1 * sb == -sa && t.0 * sb + t.1 * sa == sb
  {
    hide Sq, Tilt;
    TiltBase(d.root, d.q, d.root / d.q);
    TiltIs(d.amp - 1.0, d.root / d.q);
    TiltScales(d.amp - 1.0, d.root / d.q, t.0, t.1, 2.0 * Sq(d.s), sa, sb);
  }

  lemma SomeUnits(d: Design) returns (sa: real, sb: real)
    requires d.q != 0.0
    ensures Units(d, sa, sb)
  {
    sa, sb := 2.0 * Sq(d.s) * (d.amp - 1.0), 2.0 * Sq(d.s) * (d.root / d.q);
  }

  lemma OwnLowShelf(d: Design)
    requires d.Valid()
    ensures var gain := OwnGain(LowShelf, d);
            Balanced(Numerators(LowShelf, d), Even(LowShelf, d) + Odd(LowShelf, d), d.c, d.s, gain.0, gain.1)
  {
    hide Re, Im, Odd, Even, Numerators, Sq, Tilt, Times, Balanced, PartsOf, SharedBy, Units;
    var sa, sb := SomeUnits(d);
    var ga, gb := d.amp * sa, d.amp * sb;
    var gain, t := OwnGain(LowShelf, d), Tilt(d.amp - 1.0, d.root / d.q);
    assert gain.0 == d.amp * t.0 && gain.1 == -(d.amp * t.1);
    hide OwnGain;
    var n, a0 := Numerators(LowShelf, d), Even(LowShelf, d) + Odd(LowShelf, d);
    OddIs(LowShelf, d);
    var p := ShelfShared(d, sa, sb, Odd(LowShelf, d));
    LowShelfParts(d, p, sa, sb, ga, gb);
    ShelfTilt(d, sa, sb, t);
    LowEnd(d.amp, sa, sb, t.0, t.1, gain.0, gain.1, ga, gb);
    BalancedBy(n, a0, d.c, d.s, gain.0, gain.1, ga, gb, -sa, sb);
  }

  lemma OwnHighShelf(d: Design)
    requires d.Valid()
    ensures var gain := OwnGain(HighShelf, d);
            Balanced(Numerators(HighShelf, d), Even(HighShelf, d) + Odd(HighShelf, d), d.c, d.s, gain.0, gain.1)
  {
    hide Re, Im, Odd, Even, Numerators, Sq, Tilt, Times, Balanced, PartsOf, SharedBy, Units;
    var sa, sb := SomeUnits(d);
    var ga, gb := d.amp * sa, d.amp * sb;
    var gain, t := OwnGain(HighShelf, d), Tilt(d.amp - 1.0, d.root / d.q);
    assert gain.0 == d.amp * t.0 && gain.1 == d.amp * t.1;
    hide OwnGain;
    var n, a0 := Numerators(HighShelf, d), Even(HighShelf, d) + Odd(HighShelf, d);
    OddIs(HighShelf, d);
    var p := ShelfShared(d, sa, sb, Odd(HighShelf, d));
    HighShelfParts(d, p, sa, sb, ga, gb);
    ShelfTilt(d, sa, sb, t);
    HighEnd(d.amp, sa, sb, t.0, t.1, gain.0, gain.1, ga, gb);
    BalancedBy(n, a0, d.c, d.s, gain.0, gain.1, -ga, gb, sa, sb);
  }

  lemma TiltBase(root: real, q: real, b: real)
    requires root > 0.0 && q != 0.0 && b == root / q
    ensures b != 0.0
  {
    DivMul(root, q);
  }

  lemma BalancedBy(n: Coeffs, a0: real, c: real, s: real, g: real, h: real, nr: real, ni: real, dr: real, di: real)
    requires nr == Re(n.b0, n.b2, n.b1, c) && ni == Im(n.b0, n.b2, s)
    requires dr == Re(a0, n.a2, n.a1, c) && di == Im(a0, n.a2, s) && Times(nr, ni, g, h, dr, di)
    ensures Balanced(n, a0, c, s, g, h)
  {
    hide Re, Im, Times;
  }

  lemma TiltScales(a: real, b: real, x: real, y: real, z: real, sa: real, sb: real)
    requires a * x - b * y == -a && b * x + a * y == b && sa == z * a && sb == z * b
    ensures x * sa - y * sb == -sa && x * sb + y * sa == sb
  {
    assert x * sa - y * sb == z * (a * x - b * y);
    assert x * sb + y * sa == z * (b * x + a * y);
  }

  lemma LowEnd(amp: real, sa: real, sb: real, x: real, y: real, g: real, h: real, ga: real, gb: real)
    requires x * sa - y * sb == -sa && x * sb + y * sa == sb && g == amp * x && h == -(amp * y)
    requires ga == amp * sa && gb == amp * sb
    ensures Times(ga, gb, g, h, -sa, sb)
  {
    assert g * -sa - h * sb == amp * -(x * sa - y * sb);
    assert g * sb + h * -sa == amp * (x * sb + y * sa);
  }

  lemma HighEnd(amp: real, sa: real, sb: real, x: real, y: real, g: real, h: real, ga: real, gb: real)
    requires x * sa - y * sb == -sa && x * sb + y * sa == sb && g == amp * x && h == amp * y
    requires ga == amp * sa && gb == amp * sb
    ensures Times(-ga, gb, g, h, sa, sb)
  {
    assert g * sa - h * sb == amp * (x * sa - y * sb);
    assert g * sb + h * sa == amp * (x * sb + y * sa);
  }

  /** At its own frequency every type has its gain, for any number of frames. */
  lemma OwnFrequency(k: Kind, d: Design, p: Phasor, n: nat)
    requires d.Valid() && Even(k, d) + Odd(k, d) != 0.0
    ensures var (g, h) := OwnGain(k, d);
            RunStage(Update(k, d), Matching(p, d.c, d.s, g, h), Wave(p, d.c, d.s, n)).0
            == GainedWave(p, d.c, d.s, g, h, n)
  {
    hide Update, Even, Odd, Numerators, HasGain, Balanced, RunStage, Turned, Wave, GainedWave, Matching, Sq, Tilt;
    var (g, h) := OwnGain(k, d);
    if k == Peak {
      OwnPeak(d);
    } else if k == LowPass || k == HighPass {
      OwnPass(k, d);
    } else if k == LowShelf {
      OwnLowShelf(d);
    } else {
      OwnHighShelf(d);
    }
    ScaledGain(k, d, d.c, d.s, g, h);
    WavePasses(Update(k, d), d.c, d.s, g, h, p, n);
  }

  /**
  The size of that gain: the quality for low and high pass, the squared amplitude for a peak, the
  amplitude for a shelf.
  */
  lemma OwnSize(k: Kind, d: Design)
    requires d.q != 0.0
    ensures var (g, h) := OwnGain(k, d);
            Sq(g) + Sq(h) == match k
              case Peak => Sq(d.amp * d.amp)
              case LowPass => Sq(d.q)
              case HighPass => Sq(d.q)
              case _ => Sq(d.amp)
  {
    hide Tilt;
    if k == LowShelf || k == HighShelf {
      TiltSize(d.amp - 1.0, d.root / d.q);
      var t := Tilt(d.amp - 1.0, d.root / d.q);
      ScaledSize(d.amp, t.0, t.1, d.amp * t.0, d.amp * t.1);
    }
  }

  lemma ScaledSize(amp: real, x: real, y: real, g: real, h: real)
    requires Sq(x) + Sq(y) == 1.0 && g == amp * x && h == amp * y
    ensures Sq(g) + Sq(h) == Sq(amp) && Sq(g) + Sq(-h) == Sq(amp)
  {
    assert Sq(g) + Sq(h) == Sq(amp) * (Sq(x) + Sq(y));
    assert Sq(-h) == Sq(h);
  }

  /** The three gains leave no choice for the feed-forward coefficients, if the frequency is inside the range. */
  lemma GainsDetermine(co: Coeffs, co': Coeffs, c: real, s: real, dc: real, top: real, g: real, h: real)
    requires s != 0.0 && co.a1 == co'.a1 && co.a2 == co'.a2
    requires HasGain(co, 1.0, 0.0, dc, 0.0) && HasGain(co', 1.0, 0.0, dc, 0.0)
    requires HasGain(co, -1.0, 0.0, top, 0.0) && HasGain(co', -1.0, 0.0, top, 0.0)
    requires HasGain(co, c, s, g, h) && HasGain(co', c, s, g, h)
    ensures co == co'
  {
    var x, y := co.b0 - co.b2, co'.b0 - co'.b2;
    assert x * s == y * s;
    Cancel(x, y, s);
  }
}

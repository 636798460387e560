/**
The other half of stability: coefficients that are not stable keep a signal alive without input,
so silence is reached from every history exactly by the stable filters.
*/
module BiquadUnstable {
  import opened Biquad
  import opened BiquadDesign
  import opened BiquadDecay
  import opened BiquadCascade

  /** The two outputs in a history, with the sign of every second one turned if `turned`. */
  function First(h: History, turned: bool, up: bool): (u: real) {
    if turned && !up then -h.y1 else h.y1
  }

  function Second(h: History, turned: bool, up: bool): (u: real) {
    if turned && up then -h.y2 else h.y2
  }

  /** The feedback coefficient that goes with the turned signs. */
  function Feedback(co: Coeffs, turned: bool): (a: real) {
    if turned then -co.a1 else co.a1
  }

  /** What an unstable filter keeps without input: growth, a sum of at least one, or its energy. */
  ghost predicate Alive(co: Coeffs, h: History, turned: bool, up: bool) {
    var a, u, v := Feedback(co, turned), First(h, turned, up), Second(h, turned, up);
    || (0.0 <= co.a2 && a <= -(1.0 + co.a2) && u >= v >= 1.0)
    || (co.a2 <= 0.0 && a <= 0.0 && a + co.a2 <= -1.0 && u >= 1.0 && v >= 1.0)
    || (1.0 <= co.a2 && -(1.0 + co.a2) < co.a1 < 1.0 + co.a2 && Energy(co, h.y1, h.y2) >= 1.0 + co.a2)
  }

  /** Every unstable filter has a history in which it is alive. */
  lemma SomeAlive(co: Coeffs) returns (h: History, turned: bool)
    requires !Stable(co)
    ensures NoInput(h) && Alive(co, h, turned, true)
  {
    turned := co.a1 > 0.0;
    if 0.0 <= co.a2 && -(1.0 + co.a2) < co.a1 < 1.0 + co.a2 {
      h := History(0.0, 0.0, 1.0, 0.0);
    } else {
      h := History(0.0, 0.0, 1.0, if turned then -1.0 else 1.0);
    }
  }

  /** One step without input, in turned signs. */
  lemma TurnedStep(co: Coeffs, h: History, turned: bool, up: bool, u: real, v: real, a: real)
    requires NoInput(h) && a == Feedback(co, turned) && u == First(h, turned, up) && v == Second(h, turned, up)
    ensures var r := Step(co, h, 0.0).1;
            NoInput(r) && First(r, turned, !up) == -a * u - co.a2 * v && Second(r, turned, !up) == u
  {
    SilentStepIs(co, h);
  }

  lemma Grows(a: real, a2: real, u: real, v: real, next: real)
    requires 0.0 <= a2 && a <= -(1.0 + a2) && u >= v >= 1.0 && next == -a * u - a2 * v
    ensures next >= u
  {
    MulMono(1.0 + a2, -a, u);
    NonNegative(a2, u - v, a2 * (u - v));
    assert (1.0 + a2) * u - a2 * v == u + a2 * (u - v);
  }

  lemma Adds(a: real, a2: real, u: real, v: real, next: real)
    requires a2 <= 0.0 && a <= 0.0 && a + a2 <= -1.0 && u >= 1.0 && v >= 1.0 && next == -a * u - a2 * v
    ensures next >= 1.0
  {
    NonNegative(-a, u - 1.0, -a * (u - 1.0));
    NonNegative(-a2, v - 1.0, -a2 * (v - 1.0));
    assert -a * u - a2 * v - 1.0 == -a * (u - 1.0) + -a2 * (v - 1.0) + (-a - a2 - 1.0);
  }

  /** Energy that a filter with a2 of at least one does not lose. */
  lemma EnergyStays(co: Coeffs, h: History)
    requires NoInput(h) && 1.0 <= co.a2
    ensures var r := Step(co, h, 0.0).1; Energy(co, r.y1, r.y2) >= Energy(co, h.y1, h.y2)
  {
    hide Energy, Sq;
    SilentStepIs(co, h);
    var y := -co.a1 * h.y1 - co.a2 * h.y2;
    EnergyStep(co, h.y1, h.y2, y);
    SquareSign(y - h.y2);
    NonNegative(co.a2 - 1.0, Sq(y - h.y2), (co.a2 - 1.0) * Sq(y - h.y2));
    assert (1.0 - co.a2) * Sq(y - h.y2) == -((co.a2 - 1.0) * Sq(y - h.y2));
  }

  lemma StaysAlive(co: Coeffs, h: History, turned: bool, up: bool)
    requires NoInput(h) && Alive(co, h, turned, up)
    ensures var r := Step(co, h, 0.0).1; NoInput(r) && Alive(co, r, turned, !up)
  {
    hide Step, Energy, First, Second;
    var a, u, v := Feedback(co, turned), First(h, turned, up), Second(h, turned, up);
    TurnedStep(co, h, turned, up, u, v, a);
    if 0.0 <= co.a2 && a <= -(1.0 + co.a2) && u >= v >= 1.0 {
      Grows(a, co.a2, u, v, First(Step(co, h, 0.0).1, turned, !up));
    } else if co.a2 <= 0.0 && a <= 0.0 && a + co.a2 <= -1.0 && u >= 1.0 && v >= 1.0 {
      Adds(a, co.a2, u, v, First(Step(co, h, 0.0).1, turned, !up));
    } else {
      EnergyStays(co, h);
    }
  }

  /** A living history has outputs that are not small. */
  lemma AliveIsLoud(co: Coeffs, h: History, turned: bool, up: bool)
    requires Alive(co, h, turned, up)
    ensures Sq(h.y1) + Sq(h.y2) >= 0.5
  {
    hide Energy, Sq;
    SquareSign(h.y1);
    SquareSign(h.y2);
    SquareLarge(h.y1);
    if !(h.y1 >= 1.0 || h.y1 <= -1.0) {
      EnergyLess(co, h.y1, h.y2);
    }
  }

  lemma EnergyLess(co: Coeffs, y1: real, y2: real)
    requires 1.0 <= co.a2 && -(1.0 + co.a2) < co.a1 < 1.0 + co.a2 && Energy(co, y1, y2) >= 1.0 + co.a2
    ensures Sq(y1) + Sq(y2) >= 0.5
  {
    hide Energy, Sq;
    var s, w, p := 1.0 + co.a2, Sq(y1) + Sq(y2), 2.0 * (y1 * y2);
    SquareSign(y1);
    SquareSign(y2);
    SquareSign(y1 + y2);
    SquareSign(y1 - y2);
    SquareOfSum(y1, y2, y1 + y2);
    SquareOfDifference(y1, y2, y1 - y2);
    EnergyByProduct(co, y1, y2, w, p);
    Within(co.a1, s, p, w);
    if w < 0.5 {
      MulPositive(s, 0.5 - w, s * (0.5 - w));
    }
  }

  lemma Within(a: real, s: real, p: real, w: real)
    requires -s < a < s && -w <= p <= w
    ensures a * p <= s * w
  {
    if a >= 0.0 {
      NonNegative(a, w - p, a * (w - p));
      NonNegative(s - a, w, (s - a) * w);
      assert s * w - a * p == a * (w - p) + (s - a) * w;
    } else {
      NonNegative(-a, w + p, -a * (w + p));
      NonNegative(s + a, w, (s + a) * w);
      assert s * w - a * p == -a * (w + p) + (s + a) * w;
    }
  }

  // ----- over runs -----

  ghost predicate Silent(x: nat -> real) {
    forall t: nat :: x(t) == 0.0
  }

  lemma {:induction false} AliveAt(co: Coeffs, h: History, x: nat -> real, turned: bool, t: nat)
    requires NoInput(h) && Alive(co, h, turned, true) && Silent(x)
    ensures NoInput(HistoryAt(co, h, x, t)) && Alive(co, HistoryAt(co, h, x, t), turned, t % 2 == 0)
  {
    hide Step, Alive, NoInput;
    if t == 0 {
      HistoryStart(co, h, x);
    } else {
      AliveAt(co, h, x, turned, t - 1);
      HistoryNext(co, h, x, t - 1);
      StaysAlive(co, HistoryAt(co, h, x, t - 1), turned, (t - 1) % 2 == 0);
    }
  }

  lemma HistoryStart(co: Coeffs, h: History, x: nat -> real)
    ensures HistoryAt(co, h, x, 0) == h
  {}

  lemma Remembers(co: Coeffs, h: History, x: nat -> real, t: nat)
    ensures HistoryAt(co, h, x, t + 1).y2 == HistoryAt(co, h, x, t).y1
  {
    hide HistoryAt;
    HistoryNext(co, h, x, t);
  }

  /** An output that is never small for two frames does not die out. */
  lemma AliveDoesNotFade(co: Coeffs, h: History, x: nat -> real, turned: bool)
    requires NoInput(h) && Alive(co, h, turned, true) && Silent(x)
    ensures !Fades(Squares(Output(co, h, x)))
  {
    hide HistoryAt, Alive, Sq, NoInput;
    var y := Squares(Output(co, h, x));
    if Fades(y) {
      assert Settles(y, 0.125);
      var n: nat :| Below(y, n, 0.125);
      assert y(n) <= 0.125 && y(n + 1) <= 0.125;
      AliveAt(co, h, x, turned, n + 2);
      AliveIsLoud(co, HistoryAt(co, h, x, n + 2), turned, (n + 2) % 2 == 0);
      Remembers(co, h, x, n + 1);
      assert false;
    }
  }

  // ----- the cascade -----

  function Nothing(): (x: nat -> real) {
    (t: nat) => 0.0
  }

  lemma NothingFades()
    ensures Fades(Squares(Nothing())) && Silent(Nothing())
  {
    var y := Squares(Nothing());
    forall t: nat ensures y(t) == 0.0 {
      assert y(t) == Sq(0.0);
    }
    forall eps: real | eps > 0.0 ensures Settles(y, eps) {
      assert Below(y, 0, eps);
    }
  }

  /** Sections at rest pass silence on. */
  lemma {:induction false} RestIsSilent(co: Coeffs, hs: seq<History>, x: nat -> real)
    requires (forall i :: 0 <= i < |hs| ==> hs[i] == SILENT) && Silent(x)
    ensures Silent(CascadeOutput(co, hs, x))
  {
    hide CascadeOutput, Output;
    if |hs| == 0 {
      forall t: nat ensures CascadeOutput(co, hs, x)(t) == 0.0 {
        Unchanged(co, hs, x, t);
      }
    } else {
      var m := |hs| - 1;
      var front := CascadeOutput(co, hs[..m], x);
      RestIsSilent(co, hs[..m], x);
      forall t: nat ensures CascadeOutput(co, hs, x)(t) == 0.0 {
        LastSection(co, hs, x, t);
        RestAt(co, front, t + 1);
        OutputIs(co, SILENT, front, t);
      }
    }
  }

  lemma Unchanged(co: Coeffs, hs: seq<History>, x: nat -> real, t: nat)
    requires |hs| == 0
    ensures CascadeOutput(co, hs, x)(t) == x(t)
  {
    hide Samples;
    assert hs == [];
    NoSections(co, Prefix(x, t + 1));
  }

  lemma OutputIs(co: Coeffs, h: History, x: nat -> real, t: nat)
    ensures Output(co, h, x)(t) == HistoryAt(co, h, x, t + 1).y1
  {}

  lemma {:induction false} RestAt(co: Coeffs, x: nat -> real, t: nat)
    requires Silent(x)
    ensures HistoryAt(co, SILENT, x, t) == SILENT
  {
    if t > 0 {
      RestAt(co, x, t - 1);
      hide HistoryAt;
      HistoryNext(co, SILENT, x, t - 1);
      SilentStepIs(co, SILENT);
    }
  }

  /**
  Exact stability of the whole filter: without input its output dies out from every history, for any
  number of sections, if and only if the coefficients are stable.
  */
  lemma FadesExactly(co: Coeffs, sections: nat)
    requires sections >= 1
    ensures (forall hs: seq<History> :: |hs| == sections ==>
             Fades(Squares(CascadeOutput(co, hs, Nothing())))) <==> Stable(co)
  {
    hide Fades, Stable, CascadeOutput, Squares, Nothing;
    NothingFades();
    if Stable(co) {
      forall hs: seq<History> | |hs| == sections ensures Fades(Squares(CascadeOutput(co, hs, Nothing()))) {
        CascadeFades(co, hs, Nothing());
      }
    } else {
      var h, turned := SomeAlive(co);
      var hs := seq(sections - 1, _ => SILENT) + [h];
      UnstableLasts(co, hs, turned);
    }
  }

  lemma UnstableLasts(co: Coeffs, hs: seq<History>, turned: bool)
    requires |hs| > 0 && (forall i :: 0 <= i < |hs| - 1 ==> hs[i] == SILENT)
    requires NoInput(hs[|hs| - 1]) && Alive(co, hs[|hs| - 1], turned, true)
    ensures !Fades(Squares(CascadeOutput(co, hs, Nothing())))
  {
    hide Fades, CascadeOutput, Squares, Output, Alive, NoInput, Nothing;
    NothingFades();
    var m := |hs| - 1;
    var front := CascadeOutput(co, hs[..m], Nothing());
    RestIsSilent(co, hs[..m], Nothing());
    AliveDoesNotFade(co, hs[m], front, turned);
    if Fades(Squares(CascadeOutput(co, hs, Nothing()))) {
      LastSquares(co, hs, Nothing());
      FadesAlike(Squares(CascadeOutput(co, hs, Nothing())), Squares(Output(co, hs[m], front)));
    }
  }

  /** A filter that the source accepts and that is not stable: at three quarters of the rate, with quality one. */
  lemma AcceptedUnstable() returns (d: Design)
    ensures d.Valid() && d.c == 0.0 && d.s == -1.0 && d.q == 1.0 && Even(LowPass, d) + Odd(LowPass, d) != 0.0
    ensures !Stable(Update(LowPass, d))
  {
    hide Update, Stable, Even, Odd;
    d := AboveHalf();
    StableExactly(LowPass, d);
  }

  lemma AboveHalf() returns (d: Design)
    ensures d.Valid() && d.c == 0.0 && d.s == -1.0 && d.q == 1.0 && Even(LowPass, d) + Odd(LowPass, d) == 0.5
  {
    d := Design(0.0, -1.0, 1.0, 1.0, 1.0);
    assert Sq(0.0) == 0.0 && Sq(-1.0) == 1.0;
    assert Alpha(d) == -0.5;
  }
}

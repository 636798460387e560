/**
Second-order filter sections over the real numbers: one section, the run of a section over a
signal, and a cascade of sections, once stage by stage as the source loops and once sample by
sample as a reader thinks of it.
*/
module Biquad {
  datatype Coeffs = Coeffs(b0: real, b1: real, b2: real, a1: real, a2: real)
  datatype History = History(x1: real, x2: real, y1: real, y2: real)

  const SILENT := History(0.0, 0.0, 0.0, 0.0)

  /** One sample through one section: the output and the new history. */
  function Step(co: Coeffs, h: History, x: real): (r: (real, History)) {
    var y := co.b0 * x + co.b1 * h.x1 + co.b2 * h.x2 - co.a1 * h.y1 - co.a2 * h.y2;
    (y, History(x, h.x1, y, h.y1))
  }

  /** A signal through one section. */
  function RunStage(co: Coeffs, h: History, xs: seq<real>): (r: (seq<real>, History))
    ensures |r.0| == |xs|
  {
    if |xs| == 0 then ([], h)
    else
      var n := |xs| - 1;
      var front := RunStage(co, h, xs[..n]);
      var last := Step(co, front.1, xs[n]);
      (front.0 + [last.0], last.1)
  }

  /** The cascade stage by stage: each section processes the whole output of the one before. */
  function Stages(co: Coeffs, hs: seq<History>, xs: seq<real>): (r: (seq<real>, seq<History>))
    ensures |r.0| == |xs| && |r.1| == |hs|
  {
    if |hs| == 0 then (xs, [])
    else
      var m := |hs| - 1;
      var front := Stages(co, hs[..m], xs);
      var last := RunStage(co, hs[m], front.0);
      (last.0, front.1 + [last.1])
  }

  /** One sample through all sections. */
  function Through(co: Coeffs, hs: seq<History>, x: real): (r: (real, seq<History>))
    ensures |r.1| == |hs|
  {
    if |hs| == 0 then (x, [])
    else
      var m := |hs| - 1;
      var front := Through(co, hs[..m], x);
      var last := Step(co, hs[m], front.0);
      (last.0, front.1 + [last.1])
  }

  /** The cascade sample by sample. */
  function Samples(co: Coeffs, hs: seq<History>, xs: seq<real>): (r: (seq<real>, seq<History>))
    ensures |r.0| == |xs| && |r.1| == |hs|
  {
    if |xs| == 0 then ([], hs)
    else
      var n := |xs| - 1;
      var front := Samples(co, hs, xs[..n]);
      var last := Through(co, front.1, xs[n]);
      (front.0 + [last.0], last.1)
  }

  /** The last section of a cascade runs over what the sections before it put out. */
  lemma {:induction false} SamplesByLast(co: Coeffs, hs: seq<History>, xs: seq<real>)
    requires |hs| > 0
    ensures var m := |hs| - 1;
            var front := Samples(co, hs[..m], xs);
            var last := RunStage(co, hs[m], front.0);
            Samples(co, hs, xs) == (last.0, front.1 + [last.1])
  {
    hide Step;
    var m := |hs| - 1;
    if |xs| == 0 {
      assert hs == hs[..m] + [hs[m]];
    } else {
      var n := |xs| - 1;
      SamplesByLast(co, hs, xs[..n]);
      var front := Samples(co, hs[..m], xs[..n]);
      var last := RunStage(co, hs[m], front.0);
      var mid := front.1 + [last.1];
      assert mid[..m] == front.1 && mid[m] == last.1;
      var sent := Through(co, front.1, xs[n]);
      assert (front.0 + [sent.0])[..n] == front.0;
    }
  }

  /** The source's stage-by-stage loops compute the sample-by-sample cascade, histories included. */
  lemma {:induction false} StagesAreSamples(co: Coeffs, hs: seq<History>, xs: seq<real>)
    ensures Stages(co, hs, xs) == Samples(co, hs, xs)
  {
    hide Step;
    if |hs| == 0 {
      NoSections(co, xs);
    } else {
      StagesAreSamples(co, hs[..|hs| - 1], xs);
      SamplesByLast(co, hs, xs);
    }
  }

  lemma {:induction false} NoSections(co: Coeffs, xs: seq<real>)
    ensures Samples(co, [], xs) == (xs, [])
  {
    if |xs| > 0 {
      NoSections(co, xs[..|xs| - 1]);
      assert xs == xs[..|xs| - 1] + [xs[|xs| - 1]];
    }
  }

  /** Streaming: a block processed in two parts gives the whole block's output and histories. */
  lemma {:induction false} SamplesSplit(co: Coeffs, hs: seq<History>, xs: seq<real>, zs: seq<real>)
    ensures var first := Samples(co, hs, xs);
            var second := Samples(co, first.1, zs);
            Samples(co, hs, xs + zs) == (first.0 + second.0, second.1)
  {
    hide Through;
    var first := Samples(co, hs, xs);
    if |zs| == 0 {
      assert xs + zs == xs;
      assert first.0 + [] == first.0;
    } else {
      var n := |zs| - 1;
      SamplesSplit(co, hs, xs, zs[..n]);
      assert (xs + zs)[..|xs| + n] == xs + zs[..n];
      var second := Samples(co, first.1, zs[..n]);
      var last := Through(co, second.1, zs[n]);
      assert first.0 + (second.0 + [last.0]) == (first.0 + second.0) + [last.0];
    }
  }
}

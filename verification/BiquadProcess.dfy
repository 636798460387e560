/**
The strided, in-place loops of the filter, proved against the signal functions of module Biquad:
every channel of the block is run through the cascade, whatever lies between the channels stays.
*/
module BiquadProcess {
  import opened Biquad
  import opened Strided

  /** A block of frames of n channels, `spacing` apart, from offset `off` on, lies in the buffer. */
  predicate Fits(frames: nat, off: nat, spacing: nat, n: nat, room: nat) {
    n <= spacing && (frames == 0 || off + Start(frames - 1, spacing) + n <= room)
  }

  lemma FitsEarlier(j: nat, frames: nat, off: nat, spacing: nat, n: nat, room: nat)
    requires j < frames && Fits(frames, off, spacing, n, room)
    ensures Fits(j + 1, off, spacing, n, room) && Fits(j, off, spacing, n, room)
    ensures off + Start(j, spacing) + n <= room
  {
    StartOrder(j, frames - 1, spacing);
    if j > 0 {
      StartOrder(j - 1, frames - 1, spacing);
    }
  }

  /** The samples of channel c in the first j frames. */
  function Column(s: seq<real>, off: nat, spacing: nat, n: nat, c: nat, j: nat): (xs: seq<real>)
    requires c < n && Fits(j, off, spacing, n, |s|)
    ensures |xs| == j
  {
    if j == 0 then []
    else
      FitsEarlier(j - 1, j, off, spacing, n, |s|);
      Column(s, off, spacing, n, c, j - 1) + [s[off + Start(j - 1, spacing) + c]]
  }

  lemma {:induction false} ColumnSame(s: seq<real>, s': seq<real>, off: nat, spacing: nat, n: nat, c: nat, j: nat)
    requires c < n && |s| == |s'| && Fits(j, off, spacing, n, |s|)
    requires forall p :: off <= p < off + Start(j, spacing) && p < |s| ==> s[p] == s'[p]
    ensures Column(s, off, spacing, n, c, j) == Column(s', off, spacing, n, c, j)
  {
    hide Start;
    if j > 0 {
      FitsEarlier(j - 1, j, off, spacing, n, |s|);
      StartOrder(j - 1, j, spacing);
      ColumnSame(s, s', off, spacing, n, c, j - 1);
    }
  }

  /** No channel of the first j frames lies at position p. */
  ghost predicate Outside(p: nat, off: nat, spacing: nat, n: nat, j: nat) {
    p < off || Between(p - off, j, spacing, n)
  }

  lemma OutsideEarlier(p: nat, off: nat, spacing: nat, n: nat, j: nat)
    requires Outside(p, off, spacing, n, j + 1)
    ensures Outside(p, off, spacing, n, j)
    ensures p < off + Start(j, spacing) || p >= off + Start(j, spacing) + n
  {
    hide Start;
    if p >= off {
      assert !(Start(j, spacing) <= p - off < Start(j, spacing) + n);
    }
  }

  lemma StepIs(co: Coeffs, h: History, x: real, acc: real)
    requires acc == 0.0 + co.b0 * x + co.b1 * h.x1 + co.b2 * h.x2 - co.a1 * h.y1 - co.a2 * h.y2
    ensures Step(co, h, x) == (acc, History(x, h.x1, acc, h.y1))
  {
    assert Step(co, h, x).0 == acc;
  }

  /** The loop over the channels of one frame. */
  method ProcessFrame(co: Coeffs, hs: seq<History>, inp: array<real>, inPtr: nat, out: array<real>, outPtr: nat)
    returns (hs': seq<History>)
    requires inPtr + |hs| <= inp.Length && outPtr + |hs| <= out.Length && (inp == out ==> inPtr == outPtr)
    modifies out
    ensures |hs'| == |hs|
    ensures forall c :: 0 <= c < |hs| ==> Step(co, hs[c], old(inp[inPtr + c])) == (out[outPtr + c], hs'[c])
    ensures forall p :: 0 <= p < out.Length && !(outPtr <= p < outPtr + |hs|) ==> out[p] == old(out[p])
  {
    hide Step;
    hs' := hs;
    for c := 0 to |hs|
      invariant |hs'| == |hs| && forall k :: c <= k < |hs| ==> hs'[k] == hs[k] && inp[inPtr + k] == old(inp[inPtr + k])
      invariant forall k :: 0 <= k < c ==> Step(co, hs[k], old(inp[inPtr + k])) == (out[outPtr + k], hs'[k])
      invariant forall p :: 0 <= p < out.Length && !(outPtr <= p < outPtr + c) ==> out[p] == old(out[p])
    {
      var h, x := hs'[c], inp[inPtr + c];
      var acc := 0.0;
      acc := acc + co.b0 * x;
      acc := acc + co.b1 * h.x1;
      acc := acc + co.b2 * h.x2;
      acc := acc - co.a1 * h.y1;
      acc := acc - co.a2 * h.y2;
      StepIs(co, h, x, acc);
      hs' := hs'[c := History(x, h.x1, acc, h.y1)];
      out[outPtr + c] := acc;
    }
  }

  /** Channel c has been run through a section for j frames. */
  ghost predicate ChannelRun(co: Coeffs, h: History, h': History, inp: seq<real>, inOff: nat, inSpacing: nat,
                             out: seq<real>, outOff: nat, outSpacing: nat, n: nat, c: nat, j: nat)
  {
    && c < n && Fits(j, inOff, inSpacing, n, |inp|) && Fits(j, outOff, outSpacing, n, |out|)
    && RunStage(co, h, Column(inp, inOff, inSpacing, n, c, j)) == (Column(out, outOff, outSpacing, n, c, j), h')
  }

  /** One more frame of a channel. */
  lemma ChannelNext(co: Coeffs, h: History, h': History, h'': History, inp: seq<real>, inOff: nat, inSpacing: nat,
                    out: seq<real>, out': seq<real>, outOff: nat, outSpacing: nat, n: nat, c: nat, j: nat)
    requires ChannelRun(co, h, h', inp, inOff, inSpacing, out, outOff, outSpacing, n, c, j)
    requires |out'| == |out| && Fits(j + 1, inOff, inSpacing, n, |inp|) && Fits(j + 1, outOff, outSpacing, n, |out|)
    requires forall p :: outOff <= p < outOff + Start(j, outSpacing) && p < |out| ==> out'[p] == out[p]
    requires Start(j, inSpacing) + inOff + c < |inp| && Start(j, outSpacing) + outOff + c < |out'|
    requires Step(co, h', inp[inOff + Start(j, inSpacing) + c]) == (out'[outOff + Start(j, outSpacing) + c], h'')
    ensures ChannelRun(co, h, h'', inp, inOff, inSpacing, out', outOff, outSpacing, n, c, j + 1)
  {
    hide Start, Step;
    ColumnSame(out, out', outOff, outSpacing, n, c, j);
    var xs := Column(inp, inOff, inSpacing, n, c, j);
    var x := inp[inOff + Start(j, inSpacing) + c];
    assert (xs + [x])[..j] == xs;
  }

  /** One section over the whole block: the two inner loops of `process`. */
  method ProcessStage(co: Coeffs, hs: seq<History>, inp: array<real>, inOff: nat, inSpacing: nat,
                      out: array<real>, outOff: nat, outSpacing: nat, frames: nat) returns (hs': seq<History>)
    requires Fits(frames, inOff, inSpacing, |hs|, inp.Length) && Fits(frames, outOff, outSpacing, |hs|, out.Length)
    requires inp == out ==> inOff == outOff && inSpacing == outSpacing
    modifies out
    ensures |hs'| == |hs|
    ensures forall c :: 0 <= c < |hs| ==>
              ChannelRun(co, hs[c], hs'[c], old(inp[..]), inOff, inSpacing, out[..], outOff, outSpacing, |hs|, c,
                         frames)
    ensures forall p :: 0 <= p < out.Length && Outside(p, outOff, outSpacing, |hs|, frames) ==> out[p] == old(out[p])
  {
    hide Step, Start, ChannelRun, Outside, Column;
    ghost var in0, n := inp[..], |hs|;
    var inPtr, outPtr := inOff, outOff;
    hs' := hs;
    NoFrames(co, hs, in0, inOff, inSpacing, out[..], outOff, outSpacing);
    for j := 0 to frames
      invariant |hs'| == n && inPtr == inOff + Start(j, inSpacing) && outPtr == outOff + Start(j, outSpacing)
      invariant forall c :: 0 <= c < n ==>
                  ChannelRun(co, hs[c], hs'[c], in0, inOff, inSpacing, out[..], outOff, outSpacing, n, c, j)
      invariant forall p :: inPtr <= p < inp.Length ==> inp[p] == in0[p]
      invariant forall p :: outPtr <= p < out.Length ==> out[p] == old(out[p])
      invariant forall p :: 0 <= p < out.Length && Outside(p, outOff, outSpacing, n, j) ==> out[p] == old(out[p])
    {
      FitsEarlier(j, frames, inOff, inSpacing, n, inp.Length);
      FitsEarlier(j, frames, outOff, outSpacing, n, out.Length);
      ghost var hs0, out0 := hs', out[..];
      hs' := ProcessFrame(co, hs', inp, inPtr, out, outPtr);
      ghost var out1 := out[..];
      forall c | 0 <= c < n
        ensures ChannelRun(co, hs[c], hs'[c], in0, inOff, inSpacing, out1, outOff, outSpacing, n, c, j + 1)
      {
        ChannelNext(co, hs[c], hs0[c], hs'[c], in0, inOff, inSpacing, out0, out1, outOff, outSpacing, n, c, j);
      }
      forall p | 0 <= p < out.Length && Outside(p, outOff, outSpacing, n, j + 1) ensures out[p] == old(out[p]) {
        OutsideEarlier(p, outOff, outSpacing, n, j);
      }
      StartNext(j, inSpacing);
      StartNext(j, outSpacing);
      inPtr := inPtr + inSpacing;
      outPtr := outPtr + outSpacing;
    }
  }

  lemma NoFrames(co: Coeffs, hs: seq<History>, inp: seq<real>, inOff: nat, inSpacing: nat,
                 out: seq<real>, outOff: nat, outSpacing: nat)
    requires |hs| <= inSpacing && |hs| <= outSpacing
    ensures Start(0, inSpacing) == 0 && Start(0, outSpacing) == 0
    ensures forall c :: 0 <= c < |hs| ==>
              ChannelRun(co, hs[c], hs[c], inp, inOff, inSpacing, out, outOff, outSpacing, |hs|, c, 0)
  {
    StartNext(0, inSpacing);
    StartNext(0, outSpacing);
  }

  /** The histories of one channel, section by section. */
  function ChannelHistory(history: seq<seq<History>>, c: nat): (hs: seq<History>)
    requires forall i :: 0 <= i < |history| ==> c < |history[i]|
    ensures |hs| == |history| && forall i :: 0 <= i < |history| ==> hs[i] == history[i][c]
  {
    seq(|history|, i requires 0 <= i < |history| => history[i][c])
  }

  /** All sections have the same number of channels. */
  predicate Rectangular(history: seq<seq<History>>, n: nat) {
    forall i :: 0 <= i < |history| ==> |history[i]| == n
  }

  /** Channel c has been run through the whole cascade. */
  ghost predicate CascadeRun(co: Coeffs, history: seq<seq<History>>, history': seq<seq<History>>, inp: seq<real>,
                             inOff: nat,
                             inSpacing: nat, out: seq<real>, outOff: nat, outSpacing: nat, n: nat, c: nat, frames: nat)
  {
    && c < n && Rectangular(history, n) && Rectangular(history', n)
    && Fits(frames, inOff, inSpacing, n, |inp|) && Fits(frames, outOff, outSpacing, n, |out|)
    && Stages(co, ChannelHistory(history, c), Column(inp, inOff, inSpacing, n, c, frames))
       == (Column(out, outOff, outSpacing, n, c, frames), ChannelHistory(history', c))
  }

  lemma CascadeFirst(co: Coeffs, h: seq<History>, h': seq<History>, inp: seq<real>, inOff: nat, inSpacing: nat,
                     out: seq<real>, outOff: nat, outSpacing: nat, n: nat, c: nat, frames: nat)
    requires |h| == |h'| == n && c < n
    requires ChannelRun(co, h[c], h'[c], inp, inOff, inSpacing, out, outOff, outSpacing, n, c, frames)
    ensures CascadeRun(co, [h], [h'], inp, inOff, inSpacing, out, outOff, outSpacing, n, c, frames)
  {
    hide RunStage, Column;
    var hs := ChannelHistory([h], c);
    assert hs == [h[c]] && hs[..0] == [] && ChannelHistory([h'], c) == [h'[c]];
    var xs := Column(inp, inOff, inSpacing, n, c, frames);
    assert Stages(co, hs[..0], xs) == (xs, []);
    assert [] + [h'[c]] == [h'[c]];
  }

  lemma CascadeNext(co: Coeffs, history: seq<seq<History>>, history': seq<seq<History>>, h: seq<History>,
                    h': seq<History>,
                    inp: seq<real>, inOff: nat, inSpacing: nat, out: seq<real>, out': seq<real>, outOff: nat,
                        outSpacing: nat,
                    n: nat, c: nat, frames: nat)
    requires |h| == |h'| == n && c < n
    requires CascadeRun(co, history, history', inp, inOff, inSpacing, out, outOff, outSpacing, n, c, frames)
    requires ChannelRun(co, h[c], h'[c], out, outOff, outSpacing, out', outOff, outSpacing, n, c, frames)
    ensures CascadeRun(co, history + [h], history' + [h'], inp, inOff, inSpacing, out', outOff, outSpacing, n, c,
                       frames)
  {
    hide RunStage, Column;
    var hs := ChannelHistory(history + [h], c);
    assert hs[..|history|] == ChannelHistory(history, c);
    assert ChannelHistory(history' + [h'], c) == ChannelHistory(history', c) + [h'[c]];
  }

  /** `TBiquad`: the coefficients and a history per section and channel. */
  class Filter {
    const channels: nat
    var coeffs: Coeffs
    var enabled: bool  // what isValid() answers for the current filter
    var history: seq<seq<History>>

    constructor (channels: nat, cascades: nat)
      ensures this.channels == channels && Valid() && !enabled
      ensures history == seq(cascades, _ => seq(channels, _ => SILENT))
    {
      this.channels := channels;
      coeffs := Coeffs(0.0, 0.0, 0.0, 0.0, 0.0);
      enabled := false;
      history := seq(cascades, _ => seq(channels, _ => SILENT));
    }

    predicate Valid()
      reads this
    {
      Rectangular(history, channels)
    }

    /** `setCascadeCount`: keeps the sections there are and adds silent ones. */
    method SetCascadeCount(count: nat)
      requires Valid()
      modifies this`history
      ensures Valid() && |history| == count
      ensures forall i :: 0 <= i < count ==>
                history[i] == if i < |old(history)| then old(history)[i] else seq(channels, _ => SILENT)
    {
      if count <= |history| {
        history := history[..count];
      } else {
        history := history + seq(count - |history|, _ => seq(channels, _ => SILENT));
      }
    }

    /**
    `process`: without a valid filter nothing happens. Otherwise every channel of the input block,
    read before the call, goes through all sections, and the output block holds the result; input
    and output may be the same block. Positions of the output that belong to no channel are kept.
    */
    method Process(inp: array<real>, inOff: nat, inSpacing: nat, out: array<real>, outOff: nat, outSpacing: nat,
                   frames: nat)
      requires Valid() && |history| >= 1
      requires Fits(frames, inOff, inSpacing, channels, inp.Length)
               && Fits(frames, outOff, outSpacing, channels, out.Length)
      requires inp == out ==> inOff == outOff && inSpacing == outSpacing
      modifies this`history, out
      ensures Valid() && |history| == |old(history)|
      ensures !enabled ==> history == old(history) && out[..] == old(out[..])
      ensures enabled ==> forall c :: 0 <= c < channels ==>
                CascadeRun(coeffs, old(history), history, old(inp[..]), inOff, inSpacing, out[..], outOff, outSpacing,
                           channels, c, frames)
      ensures forall p :: 0 <= p < out.Length && Outside(p, outOff, outSpacing, channels, frames) ==>
              out[p] == old(out[p])
    {
      hide ChannelRun, CascadeRun, Outside, Fits;
      if !enabled {
        return;
      }
      ghost var in0, before, n := inp[..], history, channels;
      var hs := ProcessStage(coeffs, history[0], inp, inOff, inSpacing, out, outOff, outSpacing, frames);
      history := history[0 := hs];
      forall c | 0 <= c < n
        ensures CascadeRun(coeffs, before[..1], history[..1], in0, inOff, inSpacing, out[..], outOff, outSpacing, n,
                           c, frames)
      {
        CascadeFirst(coeffs, before[0], hs, in0, inOff, inSpacing, out[..], outOff, outSpacing, n, c, frames);
        assert before[..1] == [before[0]] && history[..1] == [hs];
      }
      for i := 1 to |history|
        invariant Valid() && |history| == |before| && history[i..] == before[i..]
        invariant forall c :: 0 <= c < n ==>
                    CascadeRun(coeffs, before[..i], history[..i], in0, inOff, inSpacing, out[..], outOff, outSpacing,
                               n, c, frames)
        invariant forall p :: 0 <= p < out.Length && Outside(p, outOff, outSpacing, n, frames) ==> out[p] == old(out[p])
      {
        ghost var out0, history0 := out[..], history;
        assert history[i] == history[i..][0] == before[i];
        hs := ProcessStage(coeffs, history[i], out, outOff, outSpacing, out, outOff, outSpacing, frames);
        history := history[i := hs];
        ghost var before1, history1 := before[..i + 1], history[..i + 1];
        assert before1 == before[..i] + [before[i]] && history1 == history0[..i] + [hs];
        forall c | 0 <= c < n
          ensures CascadeRun(coeffs, before1, history1, in0, inOff, inSpacing, out[..], outOff, outSpacing, n, c,
                             frames)
        {
          CascadeNext(coeffs, before[..i], history0[..i], before[i], hs, in0, inOff, inSpacing, out0, out[..], outOff,
                      outSpacing, n, c, frames);
        }
        assert history[i + 1..] == before[i + 1..];
      }
      assert before[..|before|] == before && history[..|history|] == history;
    }
  }

  // ----- a block in two calls -----

  lemma FitsParts(j: nat, k: nat, off: nat, spacing: nat, n: nat, room: nat)
    requires Fits(j + k, off, spacing, n, room)
    ensures Fits(j, off, spacing, n, room) && Fits(k, off + Start(j, spacing), spacing, n, room)
  {
    if j > 0 {
      FitsEarlier(j - 1, j + k, off, spacing, n, room);
    }
    if k > 0 {
      StartSum(j, k - 1, spacing);
    }
  }

  /** The samples of a channel in a block are those in its first part and then those in its second. */
  lemma {:induction false} ColumnParts(s: seq<real>, off: nat, spacing: nat, n: nat, c: nat, j: nat, k: nat)
    requires c < n && Fits(j + k, off, spacing, n, |s|)
    ensures Fits(j, off, spacing, n, |s|) && Fits(k, off + Start(j, spacing), spacing, n, |s|)
    ensures Column(s, off, spacing, n, c, j + k)
         == Column(s, off, spacing, n, c, j) + Column(s, off + Start(j, spacing), spacing, n, c, k)
  {
    hide Start, Column, Fits;
    FitsParts(j, k, off, spacing, n, |s|);
    var off' := off + Start(j, spacing);
    if k == 0 {
      NoColumn(s, off', spacing, n, c);
    } else {
      FitsEarlier(j + k - 1, j + k, off, spacing, n, |s|);
      ColumnParts(s, off, spacing, n, c, j, k - 1);
      StartSum(j, k - 1, spacing);
      ColumnLast(s, off, spacing, n, c, j + k);
      ColumnLast(s, off', spacing, n, c, k);
    }
  }

  lemma NoColumn(s: seq<real>, off: nat, spacing: nat, n: nat, c: nat)
    requires c < n && Fits(0, off, spacing, n, |s|)
    ensures Column(s, off, spacing, n, c, 0) == []
  {}

  lemma ColumnLast(s: seq<real>, off: nat, spacing: nat, n: nat, c: nat, j: nat)
    requires c < n && j >= 1 && Fits(j, off, spacing, n, |s|)
    ensures Fits(j - 1, off, spacing, n, |s|) && off + Start(j - 1, spacing) + c < |s|
    ensures Column(s, off, spacing, n, c, j)
         == Column(s, off, spacing, n, c, j - 1) + [s[off + Start(j - 1, spacing) + c]]
  {
    FitsEarlier(j - 1, j, off, spacing, n, |s|);
  }

  /** The runs of the two parts are the run of the block. */
  lemma CascadeParts(co: Coeffs, h: seq<seq<History>>, h': seq<seq<History>>, h'': seq<seq<History>>,
                     in0: seq<real>, in1: seq<real>, inOff: nat, inSpacing: nat,
                     out1: seq<real>, out2: seq<real>, outOff: nat, outSpacing: nat, n: nat, c: nat, j: nat, k: nat)
    requires |in0| == |in1| && |out1| == |out2|
    requires Fits(j + k, inOff, inSpacing, n, |in0|) && Fits(j + k, outOff, outSpacing, n, |out1|)
    requires CascadeRun(co, h, h', in0, inOff, inSpacing, out1, outOff, outSpacing, n, c, j)
    requires CascadeRun(co, h', h'', in1, inOff + Start(j, inSpacing), inSpacing, out2, outOff + Start(j, outSpacing),
                        outSpacing, n, c, k)
    requires forall p :: inOff + Start(j, inSpacing) <= p < |in0| ==> in0[p] == in1[p]
    requires forall p :: 0 <= p < outOff + Start(j, outSpacing) && p < |out1| ==> out1[p] == out2[p]
    ensures CascadeRun(co, h, h'', in0, inOff, inSpacing, out2, outOff, outSpacing, n, c, j + k)
  {
    hide Start, Stages, Samples, Column;
    var inOff', outOff' := inOff + Start(j, inSpacing), outOff + Start(j, outSpacing);
    ColumnParts(in0, inOff, inSpacing, n, c, j, k);
    ColumnParts(out2, outOff, outSpacing, n, c, j, k);
    ColumnSame(in0, in1, inOff', inSpacing, n, c, k);
    ColumnSame(out1, out2, outOff, outSpacing, n, c, j);
    var xs, zs := Column(in0, inOff, inSpacing, n, c, j), Column(in1, inOff', inSpacing, n, c, k);
    var hs, hs' := ChannelHistory(h, c), ChannelHistory(h', c);
    StagesAreSamples(co, hs, xs);
    StagesAreSamples(co, hs', zs);
    StagesAreSamples(co, hs, xs + zs);
    SamplesSplit(co, hs, xs, zs);
  }

  /** Behind the first part no channel of it lies. */
  lemma BehindPart(p: nat, off: nat, spacing: nat, n: nat, j: nat)
    requires n <= spacing && p >= off + Start(j, spacing)
    ensures Outside(p, off, spacing, n, j)
  {
    hide Start;
    forall i: nat | i < j ensures !(Start(i, spacing) <= p - off < Start(i, spacing) + n) {
      StartOrder(i, j, spacing);
    }
  }

  /** What lies outside the block lies outside its parts. */
  lemma OutsideParts(p: nat, off: nat, spacing: nat, n: nat, j: nat, k: nat)
    requires Outside(p, off, spacing, n, j + k)
    ensures Outside(p, off, spacing, n, j) && Outside(p, off + Start(j, spacing), spacing, n, k)
  {
    hide Start;
    var off' := off + Start(j, spacing);
    if p >= off' {
      forall i: nat | i < k ensures !(Start(i, spacing) <= p - off' < Start(i, spacing) + n) {
        StartSum(j, i, spacing);
        assert !(Start(j + i, spacing) <= p - off < Start(j + i, spacing) + n);
      }
    }
  }

  /** Streaming: a block in two calls of `process`, cut anywhere, meets the contract of one call on the block. */
  method ProcessInTwo(f: Filter, inp: array<real>, inOff: nat, inSpacing: nat,
                      out: array<real>, outOff: nat, outSpacing: nat, j: nat, frames: nat)
    requires f.Valid() && |f.history| >= 1 && j <= frames
    requires Fits(frames, inOff, inSpacing, f.channels, inp.Length)
             && Fits(frames, outOff, outSpacing, f.channels, out.Length)
    requires inp == out ==> inOff == outOff && inSpacing == outSpacing
    modifies f`history, out
    ensures f.Valid() && |f.history| == |old(f.history)|
    ensures !f.enabled ==> f.history == old(f.history) && out[..] == old(out[..])
    ensures f.enabled ==> forall c :: 0 <= c < f.channels ==>
              CascadeRun(f.coeffs, old(f.history), f.history, old(inp[..]), inOff, inSpacing, out[..], outOff,
                         outSpacing, f.channels, c, frames)
    ensures forall p :: 0 <= p < out.Length && Outside(p, outOff, outSpacing, f.channels, frames) ==>
            out[p] == old(out[p])
  {
    hide Start, CascadeRun, Outside, Fits;
    ghost var n, in0, out0, h0 := f.channels, inp[..], out[..], f.history;
    var k, inOff', outOff' := frames - j, inOff + Start(j, inSpacing), outOff + Start(j, outSpacing);
    PartsOf(j, k, inOff, inOff', inSpacing, n, inp.Length);
    PartsOf(j, k, outOff, outOff', outSpacing, n, out.Length);
    f.Process(inp, inOff, inSpacing, out, outOff, outSpacing, j);
    ghost var in1, out1, h1 := inp[..], out[..], f.history;
    assert forall p :: inOff' <= p < |in0| ==> in0[p] == in1[p];
    f.Process(inp, inOff', inSpacing, out, outOff', outSpacing, k);
    ghost var out2, h2 := out[..], f.history;
    assert forall p :: 0 <= p < outOff' && p < |out1| ==> out1[p] == out2[p];
    if f.enabled {
      forall c | 0 <= c < n
        ensures CascadeRun(f.coeffs, h0, h2, in0, inOff, inSpacing, out2, outOff, outSpacing, n, c, frames)
      {
        CascadeParts(f.coeffs, h0, h1, h2, in0, in1, inOff, inSpacing, out1, out2, outOff, outSpacing, n, c, j, k);
      }
    }
    forall p | 0 <= p < out.Length && Outside(p, outOff, outSpacing, n, frames) ensures out2[p] == out0[p] {
      OutsideParts(p, outOff, outSpacing, n, j, k);
    }
  }

  lemma PartsOf(j: nat, k: nat, off: nat, off': nat, spacing: nat, n: nat, room: nat)
    requires Fits(j + k, off, spacing, n, room) && off' == off + Start(j, spacing)
    ensures Fits(j, off, spacing, n, room) && Fits(k, off', spacing, n, room)
    ensures forall p: nat :: p >= off' ==> Outside(p, off, spacing, n, j)
    ensures forall p: nat :: p < off' ==> Outside(p, off', spacing, n, k)
  {
    hide Start;
    FitsParts(j, k, off, spacing, n, room);
    forall p: nat | p >= off' ensures Outside(p, off, spacing, n, j) {
      BehindPart(p, off, spacing, n, j);
    }
  }

  /** The contract leaves nothing open: it determines every channel of the output and every history. */
  lemma OutputDetermined(co: Coeffs, h: seq<seq<History>>, h': seq<seq<History>>, h'': seq<seq<History>>,
                         inp: seq<real>, inOff: nat,
                         inSpacing: nat, out: seq<real>, out': seq<real>, outOff: nat, outSpacing: nat, n: nat,
                             c: nat, frames: nat, j: nat)
    requires CascadeRun(co, h, h', inp, inOff, inSpacing, out, outOff, outSpacing, n, c, frames)
    requires CascadeRun(co, h, h'', inp, inOff, inSpacing, out', outOff, outSpacing, n, c, frames)
    requires j < frames
    ensures ChannelHistory(h', c) == ChannelHistory(h'', c)
    ensures var p := outOff + Start(j, outSpacing) + c; p < |out| && p < |out'| && out[p] == out'[p]
  {
    hide Start, Stages;
    FitsEarlier(j, frames, outOff, outSpacing, n, |out|);
    FitsEarlier(j, frames, outOff, outSpacing, n, |out'|);
    ColumnAt(out, outOff, outSpacing, n, c, frames, j);
    ColumnAt(out', outOff, outSpacing, n, c, frames, j);
  }

  lemma {:induction false} ColumnAt(s: seq<real>, off: nat, spacing: nat, n: nat, c: nat, frames: nat, j: nat)
    requires c < n && Fits(frames, off, spacing, n, |s|) && j < frames && off + Start(j, spacing) + c < |s|
    ensures Column(s, off, spacing, n, c, frames)[j] == s[off + Start(j, spacing) + c]
  {
    hide Start;
    FitsEarlier(frames - 1, frames, off, spacing, n, |s|);
    if j < frames - 1 {
      ColumnAt(s, off, spacing, n, c, frames - 1, j);
    }
  }
}

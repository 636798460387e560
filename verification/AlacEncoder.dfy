/**
The mirror encoder of stereo frames and the end-to-end theorem: decoding the bits of an
encoded frame stores exactly the samples that were encoded, interleaved and little-endian.
*/
module AlacEncoder {
  import opened Arith
  import opened Bits
  import opened BitReader
  import opened Options
  import opened Interlace
  import opened Strided
  import opened AlacFrame
  import Rice
  import Predictor
  import opened RiceEncoder

  /** An encoder's free choices: the unused fields, the mixing and the two channels' tables. */
  datatype Choice = Choice(unused: nat, unused': nat, hasSize: bool, unBytes: nat, shift: nat, weight: nat,
                           a: Channel, b: Channel)

  predicate ValidChannel(ch: Channel) {
    && ch.kind == 0 && ch.quant < 16 && ch.riceModifier < 8 && |ch.coefs| <= Predictor.COPY_PREVIOUS
    && forall i :: 0 <= i < |ch.coefs| ==> -0x8000 <= ch.coefs[i] < 0x8000
  }

  /** The bits a mixed sample is coded with. */
  function CodedBits(cfg: Config, c: Choice): (n: int) {
    cfg.sampleSize - 8 * c.unBytes + 1
  }

  /** A channel's parameters can be used, by the decoder and by the encoder. */
  predicate Writes(cfg: Config, ch: Channel, n: nat, size: nat) {
    Usable(cfg, ch, n, size, cfg.maxSamples) && RiceParams(cfg, ch, n).Proper()
  }

  /** The frame can be written: the parameters fit their fields and the samples their size. */
  ghost predicate Writable(cfg: Config, c: Choice, left: seq<int>, right: seq<int>) {
    && ((cfg.sampleSize == 16 && c.unBytes == 0) || (cfg.sampleSize == 24 && c.unBytes <= 2))
    && c.unused < 16 && c.unused' < 4096 && c.shift < 256 && c.weight < 256 && c.weight <= Pow2(c.shift)
    && ValidChannel(c.a) && ValidChannel(c.b)
    && 1 <= |left| == |right| <= 0x1_0000 && |left| <= cfg.maxSamples && (!c.hasSize ==> |left| == cfg.maxSamples)
    && Writes(cfg, c.a, CodedBits(cfg, c), |left|) && Writes(cfg, c.b, CodedBits(cfg, c), |left|)
    && Predictor.AllInRange(left, cfg.sampleSize) && Predictor.AllInRange(right, cfg.sampleSize)
    && cfg.bytesPerSample < 0x8000
  }

  /** The entropy decoder's history stays in 32 bits. */
  predicate Fits(cfg: Config, ch: Channel, n: nat) {
    RiceParams(cfg, ch, n).Fits()
  }

  /** Nothing of a weighted difference is lost: the shift is a 32-bit one and the products fit or do not show. */
  predicate AllMixable(c: Choice, left: seq<int>, right: seq<int>)
    requires |left| == |right|
  {
    && (c.weight == 0 || c.shift < 32)
    && forall i :: 0 <= i < |left| ==> Mixable(left[i], right[i], c.shift, c.weight, c.unBytes)
  }

  /** The frame can be written and its history fits: what the decoder needs to get through it. */
  ghost predicate Encodable(cfg: Config, c: Choice, left: seq<int>, right: seq<int>) {
    && Writable(cfg, c, left, right)
    && Fits(cfg, c.a, CodedBits(cfg, c)) && Fits(cfg, c.b, CodedBits(cfg, c))
  }

  // ----- fields -----

  lemma TakeField(bits: seq<bool>, p: nat, v: nat, n: nat, rest: seq<bool>)
    requires 1 <= n <= 32 && v < Pow2(n) && At(bits, p, ToBits(v, n) + rest)
    ensures Field(bits, p, n) == Some(v) && At(bits, p + n, rest)
  {
    hide ToBits, Val, Pow2, CanRead;
    AtSplit(bits, p, ToBits(v, n), rest);
    ReadCode(bits, p, v, n);
  }

  /** A 16-bit coefficient as it is stored. */
  function CoefField(c: int): (v: nat)
    requires -0x8000 <= c < 0x8000
    ensures v < 0x1_0000 && Wrap16(v) == c
  {
    if c >= 0 then c else c + 0x1_0000
  }

  function CoefBits(coefs: seq<int>): (code: seq<bool>)
    requires forall i :: 0 <= i < |coefs| ==> -0x8000 <= coefs[i] < 0x8000
    ensures |code| == 16 * |coefs|
  {
    if |coefs| == 0 then []
    else CoefBits(coefs[..|coefs| - 1]) + ToBits(CoefField(coefs[|coefs| - 1]), 16)
  }

  lemma {:induction false} ParseCoefsInverts(bits: seq<bool>, p: nat, coefs: seq<int>)
    requires forall i :: 0 <= i < |coefs| ==> -0x8000 <= coefs[i] < 0x8000
    requires At(bits, p, CoefBits(coefs))
    ensures ParseCoefs(bits, p, |coefs|) == Some(coefs)
  {
    hide ToBits, Val, Pow2, CoefField, Wrap16, At;
    if |coefs| > 0 {
      var n := |coefs| - 1;
      AtSplit(bits, p, CoefBits(coefs[..n]), ToBits(CoefField(coefs[n]), 16));
      ParseCoefsInverts(bits, p, coefs[..n]);
      Pow2Constants();
      assert ToBits(CoefField(coefs[n]), 16) == ToBits(CoefField(coefs[n]), 16) + [];
      TakeField(bits, p + 16 * n, CoefField(coefs[n]), 16, []);
      assert coefs == coefs[..n] + [coefs[n]];
    }
  }

  function ChannelBits(ch: Channel): (code: seq<bool>)
    requires ValidChannel(ch)
  {
    ToBits(ch.kind, 4) + (ToBits(ch.quant, 4) + (ToBits(ch.riceModifier,
                                                        3) + (ToBits(|ch.coefs|, 5) + CoefBits(ch.coefs))))
  }

  lemma ParseChannelInverts(bits: seq<bool>, p: nat, ch: Channel)
    requires ValidChannel(ch) && At(bits, p, ChannelBits(ch))
    ensures ParseChannel(bits, p) == Some((ch, p + |ChannelBits(ch)|))
  {
    hide ToBits, Val, CoefBits, At, Field, ParseCoefs;
    var coefs := CoefBits(ch.coefs);
    var r3 := ToBits(|ch.coefs|, 5) + coefs;
    var r2 := ToBits(ch.riceModifier, 3) + r3;
    assert Pow2(4) == 16 && Pow2(3) == 8 && Pow2(5) == 32;
    TakeField(bits, p, ch.kind, 4, ToBits(ch.quant, 4) + r2);
    TakeField(bits, p + 4, ch.quant, 4, r2);
    TakeField(bits, p + 8, ch.riceModifier, 3, r3);
    TakeField(bits, p + 11, |ch.coefs|, 5, coefs);
    ParseCoefsInverts(bits, p + 16, ch.coefs);
  }

  /** The values fit w-bit fields. */
  predicate Fit(xs: seq<int>, w: nat) {
    forall i :: 0 <= i < |xs| ==> 0 <= xs[i] < Pow2(w)
  }

  function PairBits(a: seq<int>, b: seq<int>, w: nat): (code: seq<bool>)
    requires |a| == |b| && Fit(a, w) && Fit(b, w)
  {
    if |a| == 0 then []
    else
      var n := |a| - 1;
      PairBits(a[..n], b[..n], w) + (ToBits(a[n], w) + ToBits(b[n], w))
  }

  lemma TakePair(bits: seq<bool>, p: nat, x: nat, y: nat, w: nat)
    requires 1 <= w <= 32 && x < Pow2(w) && y < Pow2(w) && At(bits, p, ToBits(x, w) + ToBits(y, w))
    ensures Field(bits, p, w) == Some(x) && Field(bits, p + w, w) == Some(y)
  {
    hide ToBits, At, Field, Pow2;
    TakeField(bits, p, x, w, ToBits(y, w));
    assert ToBits(y, w) == ToBits(y, w) + [];
    TakeField(bits, p + w, y, w, []);
  }

  lemma {:induction false} ParsePairsInverts(bits: seq<bool>, p: nat, a: seq<int>, b: seq<int>, w: nat)
    requires 1 <= w <= 32 && |a| == |b| && Fit(a, w) && Fit(b, w)
    requires At(bits, p, PairBits(a, b, w))
    ensures ParsePairs(bits, p, w, |a|) == Some((a, b, p + |PairBits(a, b, w)|))
  {
    hide ToBits, Pow2, At, Field, ParsePairs, Fit;
    if |a| == 0 {
      ParseNoPairs(bits, p, w);
    } else {
      var n := |a| - 1;
      var a', b' := a[..n], b[..n];
      FitFront(a, w);
      FitFront(b, w);
      var front, last := PairBits(a', b', w), ToBits(a[n], w) + ToBits(b[n], w);
      AtSplit(bits, p, front, last);
      ParsePairsInverts(bits, p, a', b', w);
      TakePair(bits, p + |front|, a[n], b[n], w);
      ParsePairsStep(bits, p, w, a', b', p + |front|, a[n], b[n]);
      assert a == a' + [a[n]];
      assert b == b' + [b[n]];
    }
  }

  lemma FitFront(xs: seq<int>, w: nat)
    requires |xs| > 0 && Fit(xs, w)
    ensures Fit(xs[..|xs| - 1], w) && 0 <= xs[|xs| - 1] < Pow2(w)
  {}

  lemma ParseNoPairs(bits: seq<bool>, p: nat, w: nat)
    requires 1 <= w <= 32
    ensures ParsePairs(bits, p, w, 0) == Some(([], [], p))
  {}

  lemma ParsePairsStep(bits: seq<bool>, p: nat, w: nat, a: seq<int>, b: seq<int>, q: nat, x: nat, y: nat)
    requires 1 <= w <= 32 && |a| == |b| && ParsePairs(bits, p, w, |a|) == Some((a, b, q))
    requires Field(bits, q, w) == Some(x) && Field(bits, q + w, w) == Some(y)
    ensures ParsePairs(bits, p, w, |a| + 1) == Some((a + [x], b + [y], q + w + w))
  {
    hide Field;
  }

  // ----- one channel -----

  /** A channel with prediction type 0 whose samples fit n bits. */
  ghost predicate Codes(cfg: Config, ch: Channel, n: nat, samples: seq<int>) {
    && ch.kind == 0 && 1 <= n && 1 <= |samples| <= 0x1_0000
    && Writes(cfg, ch, n, |samples|)
    && Predictor.AllInRange(samples, n)
  }

  ghost function ChannelResiduals(cfg: Config, ch: Channel, n: nat, samples: seq<int>): (es: seq<int>)
    requires Codes(cfg, ch, n, samples)
    ensures |es| == |samples| && Codable(RiceParams(cfg, ch, n), cfg.initialHistory, 0, es)
  {
    var es := Predictor.Residuals(samples, n, ch.coefs, ch.quant).0;
    ResidualsCodable(RiceParams(cfg, ch, n), es);
    es
  }

  lemma ResidualsCodable(ps: Rice.Params, es: seq<int>)
    requires ps.Proper() && |es| <= 0x1_0000 && Predictor.AllInRange(es, ps.sampleBits)
    ensures Codable(ps, ps.initialHistory, 0, es)
  {
    assert Pow2(ps.sampleBits) == 2 * Pow2(ps.sampleBits - 1);
    forall i | 0 <= i < |es| ensures Rice.Zigzag(es[i]) < Pow2(ps.sampleBits) {
      assert InRange(es[i], ps.sampleBits);
    }
  }

  ghost function ChannelCode(cfg: Config, ch: Channel, n: nat, samples: seq<int>): (code: seq<bool>)
    requires Codes(cfg, ch, n, samples)
  {
    Encode(RiceParams(cfg, ch, n), cfg.initialHistory, 0, ChannelResiduals(cfg, ch, n, samples))
  }

  /** Entropy decoding and prediction together restore a channel, whatever the buffers held. */
  lemma ChannelTrip(cfg: Config, bits: seq<bool>, p: nat, ch: Channel, n: nat, samples: seq<int>,
                    err: seq<int>, out: seq<int>)
    requires Codes(cfg, ch, n, samples) && Fits(cfg, ch, n) && |err| == |out| == cfg.maxSamples
    requires At(bits, p, ChannelCode(cfg, ch, n, samples))
    ensures var r := DecodeChannel(cfg, bits, p, n, |samples|, ch, err, out);
            r.Some? && r.value.1[..|samples|] == samples && r.value.2 == p + |ChannelCode(cfg, ch, n, samples)|
  {
    hide Encode, Rice.Decode, Predictor.Residuals, Predictor.Decode, At;
    var ps := RiceParams(cfg, ch, n);
    var es := ChannelResiduals(cfg, ch, n, samples);
    RoundTrip(ps, bits, |samples|, |err|, Rice.Initial(ps, p), es);
    var st := Rice.Decode(ps, bits, |samples|, |err|, Rice.Initial(ps, p)).value;
    assert st.out == es;
    var err' := Overlay(es, err);
    Predictor.RoundTrip(err', samples, n, ch.coefs, ch.quant);
    var predicted := Predictor.Decode(err', |samples|, n, ch.coefs, ch.quant).out;
    assert Overlay(predicted, out)[..|samples|] == predicted[..|samples|];
  }

  // ----- mixing -----

  function High(x: int, u: nat): (h: int) {
    x / Pow2(8 * u)
  }

  function Low(x: int, u: nat): (l: nat) {
    ModSmall(x, Pow2(8 * u));
    x % Pow2(8 * u)
  }

  function Mixed(left: seq<int>, right: seq<int>, c: Choice, i: nat): (ab: (int, int))
    requires i < |left| && i < |right|
  {
    Mix(High(left[i], c.unBytes), High(right[i], c.unBytes), c.shift, c.weight)
  }

  function MixedA(left: seq<int>, right: seq<int>, c: Choice): (a: seq<int>)
    requires |left| == |right|
    ensures |a| == |left| && forall i :: 0 <= i < |left| ==> a[i] == Mixed(left, right, c, i).0
  {
    seq(|left|, i requires 0 <= i < |left| => Mixed(left, right, c, i).0)
  }

  function MixedB(left: seq<int>, right: seq<int>, c: Choice): (b: seq<int>)
    requires |left| == |right|
    ensures |b| == |left| && forall i :: 0 <= i < |left| ==> b[i] == Mixed(left, right, c, i).1
  {
    seq(|left|, i requires 0 <= i < |left| => Mixed(left, right, c, i).1)
  }

  function Lows(xs: seq<int>, u: nat): (ls: seq<int>)
    ensures |ls| == |xs| && forall i :: 0 <= i < |xs| ==> ls[i] == Low(xs[i], u)
  {
    seq(|xs|, i requires 0 <= i < |xs| => Low(xs[i], u))
  }

  lemma LowsFit(xs: seq<int>, u: nat)
    ensures Fit(Lows(xs, u), 8 * u)
  {
    forall i | 0 <= i < |xs| ensures 0 <= Lows(xs, u)[i] < Pow2(8 * u) {
      ModSmall(xs[i], Pow2(8 * u));
    }
  }

  lemma MixedCodes(cfg: Config, c: Choice, left: seq<int>, right: seq<int>)
    requires Writable(cfg, c, left, right)
    ensures Codes(cfg, c.a, CodedBits(cfg, c), MixedA(left, right, c))
    ensures Codes(cfg, c.b, CodedBits(cfg, c), MixedB(left, right, c))
  {
    hide Mix, Pow2;
    var s := cfg.sampleSize - 8 * c.unBytes;
    forall i | 0 <= i < |left|
      ensures InRange(Mixed(left, right, c, i).0, s + 1) && InRange(Mixed(left, right, c, i).1, s + 1)
    {
      assert InRange(left[i], cfg.sampleSize) && InRange(right[i], cfg.sampleSize);
      HighInRange(left[i], cfg.sampleSize, c.unBytes);
      HighInRange(right[i], cfg.sampleSize, c.unBytes);
      MixInRange(High(left[i], c.unBytes), High(right[i], c.unBytes), c.shift, c.weight, s);
    }
  }

  // ----- whole frames -----

  function Flag(b: bool): (v: nat) {
    if b then 1 else 0
  }

  function HeaderBits(c: Choice, n: nat, raw: bool): (code: seq<bool>) {
    ToBits(c.unused, 4) + (ToBits(c.unused', 12) + (ToBits(Flag(c.hasSize),
                                                           1) + (ToBits(c.unBytes, 2) + (ToBits(Flag(raw), 1) +
    (if c.hasSize then ToBits(n, 32) else [])))))
  }

  lemma ParseHeaderInverts(cfg: Config, bits: seq<bool>, c: Choice, n: nat, raw: bool)
    requires c.unused < 16 && c.unused' < 4096 && c.unBytes < 4 && n <= 0x1_0000 && (!c.hasSize ==> n == cfg.maxSamples)
    requires At(bits, 3, HeaderBits(c, n, raw))
    ensures ParseHeader(cfg, bits) == Some((Header(c.unBytes, raw, n), 3 + |HeaderBits(c, n, raw)|))
  {
    hide ToBits, Val, CanRead, At;
    var size := if c.hasSize then ToBits(n, 32) else [];
    var r4 := ToBits(Flag(raw), 1) + size;
    var r3 := ToBits(c.unBytes, 2) + r4;
    var r2 := ToBits(Flag(c.hasSize), 1) + r3;
    HeaderWidths();
    TakeField(bits, 3, c.unused, 4, ToBits(c.unused', 12) + r2);
    TakeField(bits, 7, c.unused', 12, r2);
    TakeField(bits, 19, Flag(c.hasSize), 1, r3);
    TakeField(bits, 20, c.unBytes, 2, r4);
    TakeField(bits, 22, Flag(raw), 1, size);
    if c.hasSize {
      assert size == size + [];
      TakeField(bits, 23, n, 32, []);
    }
  }

  lemma HeaderWidths()
    ensures Pow2(1) == 2 && Pow2(2) == 4 && Pow2(3) == 8 && Pow2(4) == 16 && Pow2(8) == 256 && Pow2(12) == 4096
    ensures Pow2(32) > 0x1_0000
  {
    Pow2Constants();
    Pow2Mono(17, 32);
  }

  function LowBits(c: Choice, left: seq<int>, right: seq<int>): (code: seq<bool>)
    requires |left| == |right|
  {
    if c.unBytes == 0 then []
    else
      LowsFit(left, c.unBytes);
      LowsFit(right, c.unBytes);
      PairBits(Lows(left, c.unBytes), Lows(right, c.unBytes), 8 * c.unBytes)
  }

  ghost function DataBits(cfg: Config, c: Choice, left: seq<int>, right: seq<int>): (code: seq<bool>)
    requires Writable(cfg, c, left, right)
  {
    MixedCodes(cfg, c, left, right);
    ChannelCode(cfg, c.a, CodedBits(cfg, c), MixedA(left, right, c)) +
    ChannelCode(cfg, c.b, CodedBits(cfg, c), MixedB(left, right, c))
  }

  ghost function BodyBits(cfg: Config, c: Choice, left: seq<int>, right: seq<int>): (code: seq<bool>)
    requires Writable(cfg, c, left, right)
  {
    ToBits(c.shift, 8) + (ToBits(c.weight, 8) + (ChannelBits(c.a) + (ChannelBits(c.b) +
    (LowBits(c, left, right) + DataBits(cfg, c, left, right)))))
  }

  /** The bits of a compressed stereo frame. */
  ghost function FrameBits(cfg: Config, c: Choice, left: seq<int>, right: seq<int>): (code: seq<bool>)
    requires Writable(cfg, c, left, right)
  {
    ToBits(1, 3) + (HeaderBits(c, |left|, false) + BodyBits(cfg, c, left, right))
  }

  lemma DecodeLowInverts(bits: seq<bool>, p: nat, c: Choice, left: seq<int>, right: seq<int>, buf: Buffers)
    requires |left| == |right| <= |buf.lowA| == |buf.lowB| && c.unBytes <= 2 && At(bits, p, LowBits(c, left, right))
    ensures var r := DecodeLow(bits, p, c.unBytes, |left|, buf);
            && r.Some? && r.value.1 == p + |LowBits(c, left, right)|
            && (c.unBytes != 0 ==> r.value.0.lowA[..|left|] == Lows(left, c.unBytes))
            && (c.unBytes != 0 ==> r.value.0.lowB[..|left|] == Lows(right, c.unBytes))
  {
    hide At, PairBits, ParsePairs, Pow2;
    if c.unBytes != 0 {
      var w := 8 * c.unBytes;
      LowsFit(left, c.unBytes);
      LowsFit(right, c.unBytes);
      ParsePairsInverts(bits, p, Lows(left, c.unBytes), Lows(right, c.unBytes), w);
    }
  }

  lemma ChannelsTrip(cfg: Config, bits: seq<bool>, p: nat, c: Choice, left: seq<int>, right: seq<int>, buf: Buffers)
    requires Encodable(cfg, c, left, right) && buf.Valid(cfg) && At(bits, p, DataBits(cfg, c, left, right))
    ensures var r := DecodeChannels(cfg, bits, p, CodedBits(cfg, c), |left|, c.a, c.b, buf);
            && r.Some? && r.value.lowA == buf.lowA && r.value.lowB == buf.lowB
            && r.value.outA[..|left|] == MixedA(left, right, c) && r.value.outB[..|left|] == MixedB(left, right, c)
  {
    hide At, ChannelCode, DecodeChannel, Mixed, Writes;
    MixedCodes(cfg, c, left, right);
    var n := CodedBits(cfg, c);
    var a, b := MixedA(left, right, c), MixedB(left, right, c);
    AtSplit(bits, p, ChannelCode(cfg, c.a, n, a), ChannelCode(cfg, c.b, n, b));
    ChannelTrip(cfg, bits, p, c.a, n, a, buf.errA, buf.outA);
    ChannelTrip(cfg, bits, p + |ChannelCode(cfg, c.a, n, a)|, c.b, n, b, buf.errB, buf.outB);
  }

  /** The buffers hold the mixed samples and the low bytes of the frame. */
  ghost predicate Mixes(cfg: Config, c: Choice, left: seq<int>, right: seq<int>, buf: Buffers)
    requires |left| == |right|
  {
    && buf.Valid(cfg) && |left| <= cfg.maxSamples
    && buf.outA[..|left|] == MixedA(left, right, c) && buf.outB[..|left|] == MixedB(left, right, c)
    && HoldsLows(cfg, c, left, right, buf)
  }

  /** The buffers hold the low bytes of the frame, if it keeps any aside. */
  ghost predicate HoldsLows(cfg: Config, c: Choice, left: seq<int>, right: seq<int>, buf: Buffers)
    requires |left| == |right| <= cfg.maxSamples && buf.Valid(cfg)
  {
    c.unBytes != 0 ==> buf.lowA[..|left|] == Lows(left, c.unBytes) && buf.lowB[..|left|] == Lows(right, c.unBytes)
  }

  /** The fields in front of the data. */
  lemma BodyFields(bits: seq<bool>, p: nat, c: Choice, rest: seq<bool>)
    requires c.shift < 256 && c.weight < 256 && ValidChannel(c.a) && ValidChannel(c.b)
    requires At(bits, p, ToBits(c.shift, 8) + (ToBits(c.weight, 8) + (ChannelBits(c.a) + (ChannelBits(c.b) + rest))))
    ensures Field(bits, p, 8) == Some(c.shift) && Field(bits, p + 8, 8) == Some(c.weight)
    ensures var p1 := p + 16 + |ChannelBits(c.a)|;
            var p2 := p1 + |ChannelBits(c.b)|;
            && ParseChannel(bits, p + 16) == Some((c.a, p1))
            && ParseChannel(bits, p1) == Some((c.b, p2)) && At(bits, p2, rest)
  {
    hide At, ToBits, ChannelBits, ParseChannel, Field, ValidChannel;
    var r3 := ChannelBits(c.b) + rest;
    var r2 := ChannelBits(c.a) + r3;
    HeaderWidths();
    TakeField(bits, p, c.shift, 8, ToBits(c.weight, 8) + r2);
    TakeField(bits, p + 8, c.weight, 8, r2);
    AtSplit(bits, p + 16, ChannelBits(c.a), r3);
    ParseChannelInverts(bits, p + 16, c.a);
    var p1 := p + 16 + |ChannelBits(c.a)|;
    AtSplit(bits, p1, ChannelBits(c.b), rest);
    ParseChannelInverts(bits, p1, c.b);
  }

  /** The decoder on the body of a frame, up to its data. */
  lemma BodyParse(cfg: Config, bits: seq<bool>, p: nat, c: Choice, left: seq<int>, right: seq<int>, buf: Buffers)
    returns (buf1: Buffers, at: nat)
    requires Writable(cfg, c, left, right) && buf.Valid(cfg) && At(bits, p, BodyBits(cfg, c, left, right))
    ensures buf1.Valid(cfg) && HoldsLows(cfg, c, left, right, buf1)
    ensures At(bits, at, DataBits(cfg, c, left, right))
    ensures at + |DataBits(cfg, c, left, right)| == p + |BodyBits(cfg, c, left, right)|
    ensures DecodeCompressed(cfg, bits, p, Header(c.unBytes, false, |left|), buf)
         == match DecodeChannels(cfg, bits, at, CodedBits(cfg, c), |left|, c.a, c.b, buf1) {
              case Some(buf2) => Some((buf2, c.shift, c.weight))
              case None => None
            }
  {
    hide At, ToBits, ChannelBits, LowBits, DataBits, ParseChannel, DecodeLow, DecodeChannels, Field, Lows,
      Writes, ValidChannel;
    var low, data := LowBits(c, left, right), DataBits(cfg, c, left, right);
    BodyFields(bits, p, c, low + data);
    var p2 := p + 16 + |ChannelBits(c.a)| + |ChannelBits(c.b)|;
    AtSplit(bits, p2, low, data);
    DecodeLowInverts(bits, p2, c, left, right, buf);
    buf1, at := DecodeLow(bits, p2, c.unBytes, |left|, buf).value.0, p2 + |low|;
  }

  /** The size of a stored sample, 16-bit or 24-bit. */
  function Bytes(cfg: Config): (n: nat) {
    if cfg.sampleSize == 16 then 2 else 3
  }

  /** The distance between the frames in the output. */
  function Stride(cfg: Config): (n: nat) {
    if cfg.sampleSize == 16 then 2 * cfg.numChannels else 3 * cfg.numChannels
  }

  /** The interleaved little-endian frames the output must hold. */
  function SampleFrames(left: seq<int>, right: seq<int>, bytes: nat): (frames: seq<seq<Byte>>)
    requires |left| == |right|
    ensures |frames| == |left| && forall i :: 0 <= i < |left| ==> |frames[i]| == 2 * bytes
    ensures forall i :: 0 <= i < |left| ==> frames[i] == FrameBytes((left[i], right[i]), bytes)
  {
    seq(|left|, i requires 0 <= i < |left| => FrameBytes((left[i], right[i]), bytes))
  }

  lemma Emits16(cfg: Config, c: Choice, left: seq<int>, right: seq<int>, buf: Buffers)
    requires Encodable(cfg, c, left, right) && Mixes(cfg, c, left, right, buf) && cfg.sampleSize == 16
    ensures Frames16(buf.outA, buf.outB, |left|, c.shift, c.weight) == SampleFrames(left, right, 2)
    ensures forall i :: 0 <= i < |left| ==> Mixable(left[i], right[i], c.shift, c.weight, c.unBytes)
  {
    hide FrameBytes, Unmix16, Mix, Pow2, Writes;
    forall i | 0 <= i < |left|
      ensures Unmix16(buf.outA[i], buf.outB[i], c.shift, c.weight) == (left[i], right[i])
      ensures Mixable(left[i], right[i], c.shift, c.weight, c.unBytes)
    {
      assert buf.outA[i] == buf.outA[..|left|][i] && buf.outB[i] == buf.outB[..|left|][i];
      assert InRange(left[i], 16) && InRange(right[i], 16);
      HighZero(left[i]);
      HighZero(right[i]);
      Unmix16Inverts(left[i], right[i], c.shift, c.weight);
      ProductFitsOf(left[i], right[i], c.weight, 16);
    }
  }

  lemma HighZero(x: int)
    ensures High(x, 0) == x
  {
    assert Pow2(0) == 1;
  }

  /** The stored 24-bit frames are the samples exactly where nothing is lost. */
  lemma Emits24(cfg: Config, c: Choice, left: seq<int>, right: seq<int>, buf: Buffers, i: nat)
    requires Encodable(cfg, c, left, right) && Mixes(cfg, c, left, right, buf) && cfg.sampleSize == 24
    requires i < |left| && c.shift < 32
    ensures Frames24(buf.outA, buf.outB, |left|, c.shift, c.weight, c.unBytes, buf.lowA, buf.lowB)[i]
         == SampleFrames(left, right, 3)[i]
       <==> Mixable(left[i], right[i], c.shift, c.weight, c.unBytes)
  {
    hide FrameBytes, Mix, Low, High, Unmix24, Unmixed24, Mixable, Writes;
    assert buf.outA[i] == buf.outA[..|left|][i] && buf.outB[i] == buf.outB[..|left|][i];
    assert c.unBytes != 0 ==> buf.lowA[i] == buf.lowA[..|left|][i] && buf.lowB[i] == buf.lowB[..|left|][i];
    Emit24(left[i], right[i], c, buf.lowA[i], buf.lowB[i]);
    assert InRange(left[i], 24) && InRange(right[i], 24);
    Unmix24Exactly(left[i], right[i], c.shift, c.weight, c.unBytes);
  }

  lemma Emit24(left: int, right: int, c: Choice, lowA: int, lowB: int)
    requires c.unBytes != 0 ==> lowA == Low(left, c.unBytes) && lowB == Low(right, c.unBytes)
    ensures var (a, b) := Mix(High(left, c.unBytes), High(right, c.unBytes), c.shift, c.weight);
            Unmix24(a, b, c.shift, c.weight, c.unBytes, lowA, lowB)
                == Unmixed24(left, right, c.shift, c.weight, c.unBytes)
  {
    hide Mix, Pow2, Share;
  }

  /** The frames that the output stage stores. */
  function StoredFrames(cfg: Config, c: Choice, buf: Buffers, n: nat): (frames: seq<seq<Byte>>)
    requires buf.Valid(cfg) && n <= cfg.maxSamples
    ensures |frames| == n && forall i :: 0 <= i < n ==> |frames[i]| == 2 * Bytes(cfg)
  {
    if cfg.sampleSize == 16 then Frames16(buf.outA, buf.outB, n, c.shift, c.weight)
    else Frames24(buf.outA, buf.outB, n, c.shift, c.weight, c.unBytes, buf.lowA, buf.lowB)
  }

  /** The stored frames are those of the samples exactly if nothing of a product is lost. */
  lemma StoredExactly(cfg: Config, c: Choice, left: seq<int>, right: seq<int>, buf: Buffers)
    requires Encodable(cfg, c, left, right) && Mixes(cfg, c, left, right, buf) && (c.weight == 0 || c.shift < 32)
    ensures StoredFrames(cfg, c, buf, |left|) == SampleFrames(left, right, Bytes(cfg)) <==> AllMixable(c, left, right)
  {
    hide Frames16, Frames24, SampleFrames, Writes, MixedA, MixedB, Lows, Mixable;
    if cfg.sampleSize == 16 {
      Emits16(cfg, c, left, right, buf);
    } else {
      var stored, wanted := StoredFrames(cfg, c, buf, |left|), SampleFrames(left, right, 3);
      forall i | 0 <= i < |left|
        ensures stored[i] == wanted[i] <==> Mixable(left[i], right[i], c.shift, c.weight, c.unBytes)
      {
        if c.weight == 0 && c.shift >= 32 {
          Emits24Plain(cfg, c, left, right, buf, i);
        } else {
          Emits24(cfg, c, left, right, buf, i);
        }
      }
      assert stored == wanted <==> forall i :: 0 <= i < |left| ==> stored[i] == wanted[i];
    }
  }

  /** Plain frames do not depend on the shift. */
  lemma Emits24Plain(cfg: Config, c: Choice, left: seq<int>, right: seq<int>, buf: Buffers, i: nat)
    requires Encodable(cfg, c, left, right) && Mixes(cfg, c, left, right, buf) && cfg.sampleSize == 24
    requires i < |left| && c.weight == 0
    ensures Frames24(buf.outA, buf.outB, |left|, c.shift, c.weight, c.unBytes, buf.lowA, buf.lowB)[i]
         == SampleFrames(left, right, 3)[i]
    ensures Mixable(left[i], right[i], c.shift, c.weight, c.unBytes)
  {
    hide FrameBytes, Mix, Low, High, Unmix24, Unmixed24, Writes;
    assert buf.outA[i] == buf.outA[..|left|][i] && buf.outB[i] == buf.outB[..|left|][i];
    assert c.unBytes != 0 ==> buf.lowA[i] == buf.lowA[..|left|][i] && buf.lowB[i] == buf.lowB[..|left|][i];
    Emit24(left[i], right[i], c, buf.lowA[i], buf.lowB[i]);
    PlainUnmixed24(left[i], right[i], c.shift, c.unBytes);
  }

  /** The output after a frame of samples was stored. */
  function Stored(cfg: Config, left: seq<int>, right: seq<int>, out: seq<Byte>): (r: seq<Byte>)
    requires |left| == |right| && Room(|left|, Stride(cfg), 2 * Bytes(cfg), |out|)
  {
    Layout(out, SampleFrames(left, right, Bytes(cfg)), Stride(cfg), 2 * Bytes(cfg))
  }

  /** The decoder stores the samples in their interleaved places and reports the size of the frame. */
  ghost predicate Restores(cfg: Config, bits: seq<bool>, left: seq<int>, right: seq<int>, buf: Buffers, out: seq<Byte>)
    requires |left| == |right| && buf.Valid(cfg) && Room(|left|, Stride(cfg), 2 * Bytes(cfg), |out|)
  {
    var r := DecodeFrame(cfg, bits, buf, out);
    && r.Some? && r.value.outputSize == |left| * cfg.bytesPerSample
    && r.value.out == Stored(cfg, left, right, out)
  }

  /** What becomes of a frame once its channels are decoded. */
  function Finish(cfg: Config, c: Choice, n: nat, channels: Option<Buffers>, out: seq<Byte>): (r: Option<Result>)
    requires channels.Some? ==> channels.value.Valid(cfg)
  {
    var buf :- channels;
    var emitted :- Emit(cfg, buf, n, c.unBytes, c.shift, c.weight, out);
    Some(Result(buf, emitted, n * cfg.bytesPerSample))
  }

  /** The decoder on a frame, up to the data of its channels. */
  lemma FrameParse(cfg: Config, bits: seq<bool>, c: Choice, left: seq<int>, right: seq<int>, buf: Buffers,
                   out: seq<Byte>)
    returns (buf1: Buffers, at: nat)
    requires Writable(cfg, c, left, right) && buf.Valid(cfg)
    requires At(bits, 0, FrameBits(cfg, c, left, right))
    ensures buf1.Valid(cfg) && HoldsLows(cfg, c, left, right, buf1)
    ensures At(bits, at, DataBits(cfg, c, left, right))
    ensures at + |DataBits(cfg, c, left, right)| == |FrameBits(cfg, c, left, right)|
    ensures DecodeFrame(cfg, bits, buf, out)
         == Finish(cfg, c, |left|, DecodeChannels(cfg, bits, at, CodedBits(cfg, c), |left|, c.a, c.b, buf1), out)
  {
    hide At, ToBits, HeaderBits, BodyBits, DataBits, ParseHeader, DecodeCompressed, DecodeChannels, DecodeRaw,
        DecodeMono, Emit,
      Writes, ValidChannel, HoldsLows, Val, CanRead, Pow2;
    HeaderWidths();
    TakeField(bits, 0, 1, 3, HeaderBits(c, |left|, false) + BodyBits(cfg, c, left, right));
    AtSplit(bits, 3, HeaderBits(c, |left|, false), BodyBits(cfg, c, left, right));
    ParseHeaderInverts(cfg, bits, c, |left|, false);
    buf1, at := BodyParse(cfg, bits, 3 + |HeaderBits(c, |left|, false)|, c, left, right, buf);
    SizeSmall(cfg, |left|);
  }

  /** The decoder on a frame it gets through: the buffers, and the output stage on them. */
  lemma FrameTrip(cfg: Config, bits: seq<bool>, c: Choice, left: seq<int>, right: seq<int>, buf: Buffers,
                  out: seq<Byte>)
    returns (buf2: Buffers)
    requires Encodable(cfg, c, left, right) && buf.Valid(cfg)
    requires At(bits, 0, FrameBits(cfg, c, left, right))
    ensures Mixes(cfg, c, left, right, buf2)
    ensures DecodeFrame(cfg, bits, buf, out) == Finish(cfg, c, |left|, Some(buf2), out)
  {
    hide At, FrameBits, DataBits, DecodeFrame, DecodeChannels, Finish, Writes, ValidChannel, Fits, MixedA, MixedB, Lows;
    var buf1, at := FrameParse(cfg, bits, c, left, right, buf, out);
    ChannelsTrip(cfg, bits, at, c, left, right, buf1);
    buf2 := DecodeChannels(cfg, bits, at, CodedBits(cfg, c), |left|, c.a, c.b, buf1).value;
  }

  lemma SizeSmall(cfg: Config, n: nat)
    requires n <= 0x1_0000 && cfg.bytesPerSample < 0x8000
    ensures SizeOf(cfg, n) == n * cfg.bytesPerSample
  {
    Rice.MulBound(n, 0x1_0000, cfg.bytesPerSample, 0x7FFF);
  }

  /**
  Lossless frames: for every encodable stereo frame, 16-bit or 24-bit with zero to two
  uncompressed low bytes, of which no weighted difference loses visible bits, the decoder stores
  the encoded samples in their interleaved places, whatever its buffers held before.
  */
  lemma LosslessFrame(cfg: Config, bits: seq<bool>, c: Choice, left: seq<int>, right: seq<int>, buf: Buffers,
                      out: seq<Byte>)
    requires Encodable(cfg, c, left, right) && AllMixable(c, left, right) && buf.Valid(cfg)
    requires Room(|left|, Stride(cfg), 2 * Bytes(cfg), |out|)
    requires At(bits, 0, FrameBits(cfg, c, left, right))
    ensures Restores(cfg, bits, left, right, buf, out)
  {
    hide At, FrameBits, DecodeFrame, Layout, Writes, Room, SampleFrames, Frames16, Frames24, Mixes, Writable, Mixable;
    var buf1 := FrameTrip(cfg, bits, c, left, right, buf, out);
    MixesSizes(cfg, c, left, right, buf1);
    StoredExactly(cfg, c, left, right, buf1);
  }

  /** The same with both directions: a frame is restored exactly if no weighted difference loses visible bits. */
  lemma LosslessExactly(cfg: Config, bits: seq<bool>, c: Choice, left: seq<int>, right: seq<int>, buf: Buffers,
                        out: seq<Byte>)
    requires Encodable(cfg, c, left, right) && buf.Valid(cfg) && cfg.numChannels >= 2
    requires Room(|left|, Stride(cfg), 2 * Bytes(cfg), |out|)
    requires At(bits, 0, FrameBits(cfg, c, left, right))
    ensures Restores(cfg, bits, left, right, buf, out) <==> AllMixable(c, left, right)
  {
    hide At, FrameBits, DecodeFrame, Layout, Writes, Room, SampleFrames, Frames16, Frames24, Mixes, Writable, Mixable;
    var buf1 := FrameTrip(cfg, bits, c, left, right, buf, out);
    MixesSizes(cfg, c, left, right, buf1);
    if c.weight == 0 || c.shift < 32 {
      StoredExactly(cfg, c, left, right, buf1);
      if Restores(cfg, bits, left, right, buf, out) {
        LayoutInjective(out, StoredFrames(cfg, c, buf1, |left|), SampleFrames(left, right, Bytes(cfg)), Stride(cfg),
                        2 * Bytes(cfg));
      }
    }
  }

  lemma MixesSizes(cfg: Config, c: Choice, left: seq<int>, right: seq<int>, buf: Buffers)
    requires Encodable(cfg, c, left, right) && Mixes(cfg, c, left, right, buf)
    ensures buf.Valid(cfg) && 1 <= |left| == |right| <= cfg.maxSamples && (cfg.sampleSize == 16 || cfg.sampleSize == 24)
  {}

  // ----- uncompressed frames -----

  /** The samples fit an uncompressed frame. */
  ghost predicate EncodableRaw(cfg: Config, c: Choice, left: seq<int>, right: seq<int>) {
    && (cfg.sampleSize == 16 || cfg.sampleSize == 24)
    && c.unused < 16 && c.unused' < 4096 && c.unBytes < 4
    && |left| == |right| <= 0x1_0000 && |left| <= cfg.maxSamples && (!c.hasSize ==> |left| == cfg.maxSamples)
    && Predictor.AllInRange(left, cfg.sampleSize) && Predictor.AllInRange(right, cfg.sampleSize)
    && cfg.bytesPerSample < 0x8000
  }

  /** The low n bits of each sample. */
  function Masked(xs: seq<int>, n: nat): (ms: seq<int>)
    ensures |ms| == |xs| && forall i :: 0 <= i < |xs| ==> ms[i] == xs[i] % Pow2(n)
  {
    seq(|xs|, i requires 0 <= i < |xs| => xs[i] % Pow2(n))
  }

  lemma MaskedInverts(xs: seq<int>, n: nat)
    requires n >= 1 && Predictor.AllInRange(xs, n)
    ensures Fit(Masked(xs, n), n) && ExtendAll(Masked(xs, n), n) == xs
  {
    hide SignExtend, Pow2;
    forall i | 0 <= i < |xs| ensures 0 <= xs[i] % Pow2(n) < Pow2(n) && SignExtend(xs[i] % Pow2(n), n) == xs[i] {
      assert InRange(xs[i], n);
      DivMod(xs[i], Pow2(n));
      SignExtendUnique(xs[i] % Pow2(n), xs[i], -(xs[i] / Pow2(n)), n);
    }
  }

  function RawBody(cfg: Config, left: seq<int>, right: seq<int>): (code: seq<bool>)
    requires |left| == |right| && cfg.sampleSize >= 1
    requires Predictor.AllInRange(left, cfg.sampleSize) && Predictor.AllInRange(right, cfg.sampleSize)
  {
    MaskedInverts(left, cfg.sampleSize);
    MaskedInverts(right, cfg.sampleSize);
    PairBits(Masked(left, cfg.sampleSize), Masked(right, cfg.sampleSize), cfg.sampleSize)
  }

  /** The bits of an uncompressed stereo frame. */
  ghost function RawFrameBits(cfg: Config, c: Choice, left: seq<int>, right: seq<int>): (code: seq<bool>)
    requires EncodableRaw(cfg, c, left, right)
  {
    ToBits(1, 3) + (HeaderBits(c, |left|, true) + RawBody(cfg, left, right))
  }

  lemma RawBodyTrip(cfg: Config, bits: seq<bool>, p: nat, c: Choice, left: seq<int>, right: seq<int>, buf: Buffers)
    requires EncodableRaw(cfg, c, left, right) && buf.Valid(cfg) && At(bits, p, RawBody(cfg, left, right))
    ensures var r := DecodeRaw(cfg, bits, p, Header(c.unBytes, true, |left|), buf);
            r.Some? && r.value.outA[..|left|] == left && r.value.outB[..|left|] == right
  {
    hide At, PairBits, ParsePairs, Masked, ExtendAll, SignExtend, Fit, InRange;
    var s := cfg.sampleSize;
    MaskedInverts(left, s);
    MaskedInverts(right, s);
    ParsePairsInverts(bits, p, Masked(left, s), Masked(right, s), s);
    assert RawBits(cfg) == s;
    assert Overlay(left, buf.outA)[..|left|] == left && Overlay(right, buf.outB)[..|right|] == right;
  }

  lemma EmitsRaw(cfg: Config, c: Choice, left: seq<int>, right: seq<int>, buf: Buffers, out: seq<Byte>)
    requires EncodableRaw(cfg, c, left, right) && buf.Valid(cfg)
    requires buf.outA[..|left|] == left && buf.outB[..|left|] == right
    requires Room(|left|, Stride(cfg), 2 * Bytes(cfg), |out|)
    ensures Emit(cfg, buf, |left|, 0, 0, 0, out) == Some(Stored(cfg, left, right, out))
  {
    hide Layout, Room, FrameBytes, Share, Pow2;
    Pow2Limits();
    forall i | 0 <= i < |left| ensures buf.outA[i] == left[i] && buf.outB[i] == right[i] {
      assert buf.outA[i] == buf.outA[..|left|][i] && buf.outB[i] == buf.outB[..|left|][i];
    }
    if cfg.sampleSize == 16 {
      forall i | 0 <= i < |left| ensures Unmix16(left[i], right[i], 0, 0) == (left[i], right[i]) {
        assert InRange(left[i], 16) && InRange(right[i], 16);
      }
      assert Frames16(buf.outA, buf.outB, |left|, 0, 0) == SampleFrames(left, right, 2);
    } else {
      assert Frames24(buf.outA, buf.outB, |left|, 0, 0, 0, buf.lowA, buf.lowB) == SampleFrames(left, right, 3);
    }
  }

  /** Uncompressed frames are lossless as well, for any frame length up to the limit. */
  lemma LosslessRawFrame(cfg: Config, bits: seq<bool>, c: Choice, left: seq<int>, right: seq<int>, buf: Buffers,
                         out: seq<Byte>)
    requires EncodableRaw(cfg, c, left, right) && buf.Valid(cfg)
    requires Room(|left|, Stride(cfg), 2 * Bytes(cfg), |out|)
    requires At(bits, 0, RawFrameBits(cfg, c, left, right))
    ensures Restores(cfg, bits, left, right, buf, out)
  {
    hide At, ToBits, HeaderBits, RawBody, ParseHeader, DecodeCompressed, DecodeRaw, DecodeMono, Emit, SampleFrames,
      Layout, Room, Val, CanRead, Pow2;
    SizeSmall(cfg, |left|);
    HeaderWidths();
    TakeField(bits, 0, 1, 3, HeaderBits(c, |left|, true) + RawBody(cfg, left, right));
    AtSplit(bits, 3, HeaderBits(c, |left|, true), RawBody(cfg, left, right));
    ParseHeaderInverts(cfg, bits, c, |left|, true);
    var p := 3 + |HeaderBits(c, |left|, true)|;
    RawBodyTrip(cfg, bits, p, c, left, right, buf);
    EmitsRaw(cfg, c, left, right, DecodeRaw(cfg, bits, p, Header(c.unBytes, true, |left|), buf).value, out);
  }

  /** Both samples of every frame can be read back from the output. */
  lemma SamplesInPlace(left: seq<int>, right: seq<int>, bytes: nat, stride: nat, out: seq<Byte>, i: nat)
    requires |left| == |right| && i < |left| && 1 <= bytes && 2 * bytes <= stride
    requires Room(|left|, stride, 2 * bytes, |out|)
    requires InRange(left[i], 8 * bytes) && InRange(right[i], 8 * bytes)
    ensures var r := Layout(out, SampleFrames(left, right, bytes), stride, 2 * bytes);
            var at := Start(i, stride);
            && at + 2 * bytes <= |out|
            && SignExtend(FromLe(r[at..at + bytes]), 8 * bytes) == left[i]
            && SignExtend(FromLe(r[at + bytes..at + 2 * bytes]), 8 * bytes) == right[i]
  {
    hide Layout, FromLe, SignExtend, Start, LeBytes, InRange;
    var frames := SampleFrames(left, right, bytes);
    var r, at := Layout(out, frames, stride, 2 * bytes), Start(i, stride);
    RoomEarlier(i, |left|, stride, 2 * bytes, |out|);
    forall j | 0 <= j < 2 * bytes ensures r[at + j] == frames[i][j] {
      LayoutPlaces(out, frames, stride, 2 * bytes, i, j);
    }
    assert r[at..at + 2 * bytes] == frames[i];
    assert r[at..at + bytes] == frames[i][..bytes] == LeBytes(left[i], bytes);
    assert r[at + bytes..at + 2 * bytes] == frames[i][bytes..] == LeBytes(right[i], bytes);
    SampleFromBytes(left[i], bytes);
    SampleFromBytes(right[i], bytes);
  }
}

/** The mirror encoder of mono frames: decoding them stores exactly the samples that were encoded. */
module AlacMono {
  import opened Arith
  import opened Bits
  import opened BitReader
  import opened Options
  import opened Interlace
  import opened AlacFrame
  import opened AlacEncoder
  import opened RiceEncoder
  import Predictor

  /** The bits a sample is coded with. */
  function MonoBits(cfg: Config, c: Choice): (n: int) {
    cfg.sampleSize - 8 * c.unBytes
  }

  /** The mono frame can be written. Shift and weight are written and skipped; there is no second channel. */
  ghost predicate WritableMono(cfg: Config, c: Choice, xs: seq<int>) {
    && ((cfg.sampleSize == 16 && c.unBytes == 0) || (cfg.sampleSize == 24 && c.unBytes <= 2))
    && c.unused < 16 && c.unused' < 4096 && c.shift < 256 && c.weight < 256 && ValidChannel(c.a)
    && 1 <= |xs| <= 0x1_0000 && |xs| <= cfg.maxSamples && (!c.hasSize ==> |xs| == cfg.maxSamples)
    && Writes(cfg, c.a, MonoBits(cfg, c), |xs|)
    && Predictor.AllInRange(xs, cfg.sampleSize) && cfg.bytesPerSample < 0x8000
  }

  /** It can be written and its history fits. */
  ghost predicate EncodableMono(cfg: Config, c: Choice, xs: seq<int>) {
    WritableMono(cfg, c, xs) && Fits(cfg, c.a, MonoBits(cfg, c))
  }

  function Highs(xs: seq<int>, u: nat): (hs: seq<int>)
    ensures |hs| == |xs| && forall i :: 0 <= i < |xs| ==> hs[i] == High(xs[i], u)
  {
    seq(|xs|, i requires 0 <= i < |xs| => High(xs[i], u))
  }

  lemma HighsCode(cfg: Config, c: Choice, xs: seq<int>)
    requires WritableMono(cfg, c, xs)
    ensures Codes(cfg, c.a, MonoBits(cfg, c), Highs(xs, c.unBytes))
  {
    hide Pow2, InRange, Writes, Fits;
    forall i | 0 <= i < |xs| ensures InRange(High(xs[i], c.unBytes), MonoBits(cfg, c)) {
      assert InRange(xs[i], cfg.sampleSize);
      HighInRange(xs[i], cfg.sampleSize, c.unBytes);
    }
  }

  // ----- the frame's bits -----

  function ValueBits(xs: seq<int>, w: nat): (code: seq<bool>)
    requires Fit(xs, w)
  {
    if |xs| == 0 then []
    else
      var n := |xs| - 1;
      ValueBits(xs[..n], w) + ToBits(xs[n], w)
  }

  lemma {:induction false} ParseValuesInverts(bits: seq<bool>, p: nat, xs: seq<int>, w: nat)
    requires 1 <= w <= 32 && Fit(xs, w) && At(bits, p, ValueBits(xs, w))
    ensures ParseValues(bits, p, w, |xs|) == Some((xs, p + |ValueBits(xs, w)|))
  {
    hide ToBits, Pow2, At, Field, ParseValues, Fit;
    if |xs| == 0 {
      ParseNoValues(bits, p, w);
    } else {
      var n := |xs| - 1;
      var front, last := xs[..n], xs[n];
      FitFront(xs, w);
      AtSplit(bits, p, ValueBits(front, w), ToBits(last, w));
      ParseValuesInverts(bits, p, front, w);
      assert ToBits(last, w) == ToBits(last, w) + [];
      TakeField(bits, p + |ValueBits(front, w)|, last, w, []);
      ParseValuesStep(bits, p, w, front, p + |ValueBits(front, w)|, last);
      assert xs == front + [last];
    }
  }

  lemma ParseNoValues(bits: seq<bool>, p: nat, w: nat)
    requires 1 <= w <= 32
    ensures ParseValues(bits, p, w, 0) == Some(([], p))
  {}

  lemma ParseValuesStep(bits: seq<bool>, p: nat, w: nat, xs: seq<int>, q: nat, x: nat)
    requires 1 <= w <= 32 && ParseValues(bits, p, w, |xs|) == Some((xs, q)) && Field(bits, q, w) == Some(x)
    ensures ParseValues(bits, p, w, |xs| + 1) == Some((xs + [x], q + w))
  {
    hide Field;
  }

  function LowMonoBits(c: Choice, xs: seq<int>): (code: seq<bool>) {
    if c.unBytes == 0 then []
    else
      LowsFit(xs, c.unBytes);
      ValueBits(Lows(xs, c.unBytes), 8 * c.unBytes)
  }

  ghost function MonoData(cfg: Config, c: Choice, xs: seq<int>): (code: seq<bool>)
    requires WritableMono(cfg, c, xs)
  {
    HighsCode(cfg, c, xs);
    ChannelCode(cfg, c.a, MonoBits(cfg, c), Highs(xs, c.unBytes))
  }

  ghost function MonoBody(cfg: Config, c: Choice, xs: seq<int>): (code: seq<bool>)
    requires WritableMono(cfg, c, xs)
  {
    ToBits(c.shift, 8) + (ToBits(c.weight, 8) + (ChannelBits(c.a) + (LowMonoBits(c, xs) + MonoData(cfg, c, xs))))
  }

  /** The bits of a compressed mono frame. */
  ghost function MonoFrameBits(cfg: Config, c: Choice, xs: seq<int>): (code: seq<bool>)
    requires WritableMono(cfg, c, xs)
  {
    ToBits(0, 3) + (HeaderBits(c, |xs|, false) + MonoBody(cfg, c, xs))
  }

  // ----- decoding it -----

  lemma DecodeLowMonoInverts(bits: seq<bool>, p: nat, c: Choice, xs: seq<int>, buf: Buffers)
    requires |xs| <= |buf.lowA| && c.unBytes <= 2 && At(bits, p, LowMonoBits(c, xs))
    ensures var r := DecodeLowMono(bits, p, c.unBytes, |xs|, buf);
            && r.Some? && r.value.1 == p + |LowMonoBits(c, xs)|
            && (c.unBytes != 0 ==> r.value.0.lowA[..|xs|] == Lows(xs, c.unBytes))
  {
    hide At, ValueBits, ParseValues, Pow2;
    if c.unBytes != 0 {
      LowsFit(xs, c.unBytes);
      ParseValuesInverts(bits, p, Lows(xs, c.unBytes), 8 * c.unBytes);
    }
  }

  /** The buffers hold the two parts of the samples. */
  ghost predicate Parts(cfg: Config, c: Choice, xs: seq<int>, buf: Buffers) {
    && buf.Valid(cfg) && |xs| <= cfg.maxSamples && buf.outA[..|xs|] == Highs(xs, c.unBytes)
    && HoldsLow(cfg, c, xs, buf)
  }

  ghost predicate HoldsLow(cfg: Config, c: Choice, xs: seq<int>, buf: Buffers)
    requires buf.Valid(cfg) && |xs| <= cfg.maxSamples
  {
    c.unBytes != 0 ==> buf.lowA[..|xs|] == Lows(xs, c.unBytes)
  }

  /** The buffers after the channel of a mono frame was decoded. */
  function WithChannel(buf: Buffers, channel: Option<(seq<int>, seq<int>, nat)>): (r: Option<Buffers>) {
    var (errA, outA, _) :- channel;
    Some(buf.(errA := errA, outA := outA))
  }

  /** The decoder on the body of a mono frame, up to its data. */
  lemma MonoBodyParse(cfg: Config, bits: seq<bool>, p: nat, c: Choice, xs: seq<int>, buf: Buffers)
    returns (buf1: Buffers, at: nat)
    requires WritableMono(cfg, c, xs) && buf.Valid(cfg) && At(bits, p, MonoBody(cfg, c, xs))
    ensures buf1.Valid(cfg) && HoldsLow(cfg, c, xs, buf1) && At(bits, at, MonoData(cfg, c, xs))
    ensures at + |MonoData(cfg, c, xs)| == p + |MonoBody(cfg, c, xs)|
    ensures DecodeCompressedMono(cfg, bits, p, Header(c.unBytes, false, |xs|), buf)
         == WithChannel(buf1, DecodeChannel(cfg, bits, at, MonoBits(cfg, c), |xs|, c.a, buf1.errA, buf1.outA))
  {
    hide At, ToBits, ChannelBits, LowMonoBits, ChannelCode, ParseChannel, DecodeLowMono, DecodeChannel, Field, Lows,
        Highs,
      Writes, ValidChannel, InRange, Pow2;
    HeaderWidths();
    var low, data := LowMonoBits(c, xs), MonoData(cfg, c, xs);
    TakeField(bits, p, c.shift, 8, ToBits(c.weight, 8) + (ChannelBits(c.a) + (low + data)));
    TakeField(bits, p + 8, c.weight, 8, ChannelBits(c.a) + (low + data));
    AtSplit(bits, p + 16, ChannelBits(c.a), low + data);
    ParseChannelInverts(bits, p + 16, c.a);
    var p1 := p + 16 + |ChannelBits(c.a)|;
    AtSplit(bits, p1, low, data);
    DecodeLowMonoInverts(bits, p1, c, xs, buf);
    buf1, at := DecodeLowMono(bits, p1, c.unBytes, |xs|, buf).value.0, p1 + |low|;
  }

  /** The stored samples, one a frame. */
  function MonoSamples(xs: seq<int>, bytes: nat): (frames: seq<seq<Byte>>)
    ensures |frames| == |xs| && forall i :: 0 <= i < |xs| ==> |frames[i]| == bytes
    ensures forall i :: 0 <= i < |xs| ==> frames[i] == LeBytes(xs[i], bytes)
  {
    seq(|xs|, i requires 0 <= i < |xs| => LeBytes(xs[i], bytes))
  }

  lemma EmitsMono(cfg: Config, c: Choice, xs: seq<int>, buf: Buffers, out: seq<Byte>)
    requires Parts(cfg, c, xs, buf) && (cfg.sampleSize == 16 || cfg.sampleSize == 24)
    requires cfg.sampleSize == 16 ==> c.unBytes == 0
    requires Room(|xs|, Stride(cfg), Bytes(cfg), |out|)
    ensures EmitMono(cfg, buf, |xs|, c.unBytes, out)
            == Some(Layout(out, MonoSamples(xs, Bytes(cfg)), Stride(cfg), Bytes(cfg)))
  {
    hide Layout, LeBytes, Append, High, Low, Room, Pow2;
    forall i | 0 <= i < |xs| ensures Append(buf.outA[i], buf.lowA[i], c.unBytes) == xs[i] {
      assert buf.outA[i] == buf.outA[..|xs|][i];
      assert c.unBytes != 0 ==> buf.lowA[i] == buf.lowA[..|xs|][i];
      Together(xs[i], buf.lowA[i], c.unBytes);
    }
    assert MonoFrames(buf.outA, |xs|, c.unBytes, buf.lowA, Bytes(cfg)) == MonoSamples(xs, Bytes(cfg));
  }

  lemma Together(x: int, low: int, u: nat)
    requires u != 0 ==> low == Low(x, u)
    ensures Append(High(x, u), low, u) == x
  {
    Shifted(x, 0, u);
  }

  /** The decoder stores the samples in their places and reports the size of the frame. */
  ghost predicate RestoresMono(cfg: Config, bits: seq<bool>, xs: seq<int>, buf: Buffers, out: seq<Byte>)
    requires buf.Valid(cfg) && Room(|xs|, Stride(cfg), Bytes(cfg), |out|)
  {
    var r := DecodeFrame(cfg, bits, buf, out);
    && r.Some? && r.value.outputSize == |xs| * cfg.bytesPerSample
    && r.value.out == Layout(out, MonoSamples(xs, Bytes(cfg)), Stride(cfg), Bytes(cfg))
  }

  /** What becomes of a mono frame once its channel is decoded. */
  function FinishMono(cfg: Config, c: Choice, n: nat, channel: Option<Buffers>, out: seq<Byte>): (r: Option<Result>)
    requires channel.Some? ==> channel.value.Valid(cfg)
  {
    var buf :- channel;
    var emitted :- EmitMono(cfg, buf, n, c.unBytes, out);
    Some(Result(buf, emitted, n * cfg.bytesPerSample))
  }

  /** The decoder on a mono frame, up to the data of its channel. */
  lemma MonoParse(cfg: Config, bits: seq<bool>, c: Choice, xs: seq<int>, buf: Buffers, out: seq<Byte>)
    returns (buf1: Buffers, at: nat)
    requires WritableMono(cfg, c, xs) && buf.Valid(cfg) && At(bits, 0, MonoFrameBits(cfg, c, xs))
    ensures buf1.Valid(cfg) && HoldsLow(cfg, c, xs, buf1) && At(bits, at, MonoData(cfg, c, xs))
    ensures at + |MonoData(cfg, c, xs)| == |MonoFrameBits(cfg, c, xs)|
    ensures var channel := DecodeChannel(cfg, bits, at, MonoBits(cfg, c), |xs|, c.a, buf1.errA, buf1.outA);
            DecodeFrame(cfg, bits, buf, out) == FinishMono(cfg, c, |xs|, WithChannel(buf1, channel), out)
  {
    hide At, ToBits, HeaderBits, MonoBody, MonoData, ParseHeader, DecodeCompressedMono, DecodeChannel, DecodeRawMono,
      DecodeStereo, EmitMono, Writes, Val, CanRead, Pow2, HoldsLow;
    HeaderWidths();
    TakeField(bits, 0, 0, 3, HeaderBits(c, |xs|, false) + MonoBody(cfg, c, xs));
    AtSplit(bits, 3, HeaderBits(c, |xs|, false), MonoBody(cfg, c, xs));
    ParseHeaderInverts(cfg, bits, c, |xs|, false);
    buf1, at := MonoBodyParse(cfg, bits, 3 + |HeaderBits(c, |xs|, false)|, c, xs, buf);
    SizeSmall(cfg, |xs|);
  }

  /** Compressed mono frames are lossless. */
  lemma LosslessMonoFrame(cfg: Config, bits: seq<bool>, c: Choice, xs: seq<int>, buf: Buffers, out: seq<Byte>)
    requires EncodableMono(cfg, c, xs) && buf.Valid(cfg) && Room(|xs|, Stride(cfg), Bytes(cfg), |out|)
    requires At(bits, 0, MonoFrameBits(cfg, c, xs))
    ensures RestoresMono(cfg, bits, xs, buf, out)
  {
    hide At, MonoFrameBits, ChannelCode, DecodeFrame, DecodeChannel, EmitMono, MonoSamples, Layout, Writes, Room,
        Fits, Highs, Lows;
    var buf1, at := MonoParse(cfg, bits, c, xs, buf, out);
    HighsCode(cfg, c, xs);
    var n, highs := MonoBits(cfg, c), Highs(xs, c.unBytes);
    ChannelTrip(cfg, bits, at, c.a, n, highs, buf1.errA, buf1.outA);
    var channel := DecodeChannel(cfg, bits, at, n, |xs|, c.a, buf1.errA, buf1.outA);
    EmitsMono(cfg, c, xs, WithChannel(buf1, channel).value, out);
  }

  // ----- uncompressed frames -----

  ghost predicate EncodableRawMono(cfg: Config, c: Choice, xs: seq<int>) {
    && (cfg.sampleSize == 16 || cfg.sampleSize == 24)
    && c.unused < 16 && c.unused' < 4096 && c.unBytes < 4
    && |xs| <= 0x1_0000 && |xs| <= cfg.maxSamples && (!c.hasSize ==> |xs| == cfg.maxSamples)
    && Predictor.AllInRange(xs, cfg.sampleSize) && cfg.bytesPerSample < 0x8000
  }

  function RawMonoBody(cfg: Config, xs: seq<int>): (code: seq<bool>)
    requires cfg.sampleSize >= 1 && Predictor.AllInRange(xs, cfg.sampleSize)
  {
    MaskedInverts(xs, cfg.sampleSize);
    ValueBits(Masked(xs, cfg.sampleSize), cfg.sampleSize)
  }

  ghost function RawMonoFrameBits(cfg: Config, c: Choice, xs: seq<int>): (code: seq<bool>)
    requires EncodableRawMono(cfg, c, xs)
  {
    ToBits(0, 3) + (HeaderBits(c, |xs|, true) + RawMonoBody(cfg, xs))
  }

  lemma RawMonoTrip(cfg: Config, bits: seq<bool>, p: nat, c: Choice, xs: seq<int>, buf: Buffers)
    requires EncodableRawMono(cfg, c, xs) && buf.Valid(cfg) && At(bits, p, RawMonoBody(cfg, xs))
    ensures var r := DecodeRawMono(cfg, bits, p, Header(c.unBytes, true, |xs|), buf);
            r.Some? && Parts(cfg, c.(unBytes := 0), xs, r.value)
  {
    hide At, ValueBits, ParseValues, Masked, ExtendAll, SignExtend, Fit, InRange, Pow2;
    var s := cfg.sampleSize;
    MaskedInverts(xs, s);
    ParseValuesInverts(bits, p, Masked(xs, s), s);
    assert RawBits(cfg) == s;
    assert Overlay(xs, buf.outA)[..|xs|] == xs;
    forall i | 0 <= i < |xs| ensures Highs(xs, 0)[i] == xs[i] {
      HighZero(xs[i]);
    }
    assert Highs(xs, 0) == xs;
  }

  /** Uncompressed mono frames are lossless. */
  lemma LosslessRawMonoFrame(cfg: Config, bits: seq<bool>, c: Choice, xs: seq<int>, buf: Buffers, out: seq<Byte>)
    requires EncodableRawMono(cfg, c, xs) && buf.Valid(cfg) && Room(|xs|, Stride(cfg), Bytes(cfg), |out|)
    requires At(bits, 0, RawMonoFrameBits(cfg, c, xs))
    ensures RestoresMono(cfg, bits, xs, buf, out)
  {
    hide At, ToBits, HeaderBits, RawMonoBody, ParseHeader, DecodeCompressedMono, DecodeRawMono, DecodeStereo, EmitMono,
      MonoSamples, Layout, Room, Val, CanRead, Pow2, Parts;
    HeaderWidths();
    TakeField(bits, 0, 0, 3, HeaderBits(c, |xs|, true) + RawMonoBody(cfg, xs));
    AtSplit(bits, 3, HeaderBits(c, |xs|, true), RawMonoBody(cfg, xs));
    ParseHeaderInverts(cfg, bits, c, |xs|, true);
    var p := 3 + |HeaderBits(c, |xs|, true)|;
    RawMonoTrip(cfg, bits, p, c, xs, buf);
    EmitsMono(cfg, c.(unBytes := 0), xs, DecodeRawMono(cfg, bits, p, Header(c.unBytes, true, |xs|), buf).value, out);
    SizeSmall(cfg, |xs|);
  }
}

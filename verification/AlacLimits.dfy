/**
Which parameters restore every frame. If a channel's multiplier is too large, the entropy
decoder's history wraps around on loud frames and it reads wrong residuals behind them, so the
condition of the lossless theorems cannot be weakened: it is necessary for a channel and for mono
frames with every predictor table, and for plain stereo frames.
*/
module AlacLimits {
  import opened Arith
  import opened Bits
  import opened Options
  import opened Interlace
  import opened AlacFrame
  import opened AlacEncoder
  import opened AlacMono
  import opened RiceEncoder
  import Strided
  import Rice
  import Predictor
  import RiceHistory

  // ----- one channel -----

  lemma ZigzagInRange(e: int, n: nat)
    requires n >= 1
    ensures Rice.Zigzag(e) < Pow2(n) <==> InRange(e, n)
  {
    assert Pow2(n) == 2 * Pow2(n - 1);
  }

  lemma AllZigzagInRange(es: seq<int>, n: nat)
    requires n >= 1
    ensures (forall i :: 0 <= i < |es| ==> Rice.Zigzag(es[i]) < Pow2(n)) <==> Predictor.AllInRange(es, n)
  {
    hide InRange, Pow2;
    forall i | 0 <= i < |es| ensures Rice.Zigzag(es[i]) < Pow2(n) <==> InRange(es[i], n) {
      ZigzagInRange(es[i], n);
    }
  }

  /** A decoded channel that is not the one that was coded. */
  ghost predicate Wrong(ch: Channel, n: nat, samples: seq<int>, out: seq<int>)
    requires n >= 1
  {
    && |samples| <= |out| && out[..|samples|] != samples && Predictor.AllInRange(out[..|samples|], n)
    && (|ch.coefs| == 0 ==> exists i :: 0 <= i < |samples| && samples[i] == -1 && out[i] == 0)
  }

  /** A channel whose residuals break the entropy decoder comes out wrong, if at all. */
  lemma ChannelFails(cfg: Config, bits: seq<bool>, p: nat, ch: Channel, n: nat, samples: seq<int>, err: seq<int>,
                     out: seq<int>)
    requires Codes(cfg, ch, n, samples) && |err| == |out| == cfg.maxSamples
    requires RiceHistory.Breaking(RiceParams(cfg, ch, n), ChannelResiduals(cfg, ch, n, samples))
    requires At(bits, p, ChannelCode(cfg, ch, n, samples))
    requires RiceHistory.SilentBehind(RiceParams(cfg, ch, n), ChannelResiduals(cfg, ch, n, samples), bits, p)
    ensures var r := DecodeChannel(cfg, bits, p, n, |samples|, ch, err, out); r.Some? ==>
            Wrong(ch, n, samples, r.value.1)
  {
    hide Encode, Rice.Decode, Predictor.Residuals, Predictor.Decode, At, RiceHistory.SilentBehind, Pow2, InRange;
    var ps, es := RiceParams(cfg, ch, n), ChannelResiduals(cfg, ch, n, samples);
    assert RiceHistory.NotRestored(ps, es, bits, p, |err|);
    var decoded := Rice.Decode(ps, bits, |samples|, |err|, Rice.Initial(ps, p));
    if decoded.Some? {
      var found := decoded.value.out;
      var err' := Overlay(found, err);
      assert err'[..|es|] == found;
      AllZigzagInRange(found, n);
      Predictor.DecodeDiffers(err', es, samples, n, ch.coefs, ch.quant);
      var predicted := Predictor.Decode(err', |es|, n, ch.coefs, ch.quant).out;
      var r := Overlay(predicted, out);
      assert r[..|es|] == predicted[..|es|];
      if |ch.coefs| == 0 {
        NoTable(samples, err', n, ch.quant);
        var i :| 0 <= i < |es| && es[i] == -1 && found[i] == 0;
        assert samples[i] == -1 && r[i] == r[..|es|][i] == err'[..|es|][i] == 0;
      }
    }
  }

  /** Without a table the residuals are the samples. */
  lemma NoTable(samples: seq<int>, err: seq<int>, n: nat, q: nat)
    requires n >= 1 && Predictor.AllInRange(samples, n) && 1 <= |samples| <= |err|
    ensures Predictor.Residuals(samples, n, [], q).0 == samples
    ensures Predictor.Decode(err, |samples|, n, [], q).out[..|samples|] == err[..|samples|]
  {}

  /** Samples that a channel's decoder cannot restore. */
  lemma ChannelBreaks(cfg: Config, ch: Channel, n: nat) returns (samples: seq<int>)
    requires n >= 1 && Writes(cfg, ch, n, 1) && ch.kind == 0 && !Fits(cfg, ch, n)
             && RiceHistory.ENOUGH <= cfg.maxSamples
    ensures Codes(cfg, ch, n, samples) && |samples| <= RiceHistory.ENOUGH
    ensures RiceHistory.Breaking(RiceParams(cfg, ch, n), ChannelResiduals(cfg, ch, n, samples))
    ensures |ch.coefs| == 0 ==> forall i :: 0 <= i < |samples| ==> -0x8000 <= samples[i] < 0x8000
  {
    hide RiceHistory.Breaking, Predictor.Residuals, Predictor.Rebuilt, Pow2, InRange;
    var ps := RiceParams(cfg, ch, n);
    var es := RiceHistory.Breaks(ps);
    AllZigzagInRange(es, n);
    samples := Predictor.Rebuilt(es, n, ch.coefs, ch.quant);
    Predictor.RebuiltInverts(es, n, ch.coefs, ch.quant);
    if |ch.coefs| == 0 {
      NoTable(samples, samples, n, ch.quant);
    }
  }

  /** A channel is restored from its code, whatever the buffers held. */
  ghost predicate ChannelRestored(cfg: Config, ch: Channel, n: nat, samples: seq<int>)
    requires Codes(cfg, ch, n, samples)
  {
    forall err: seq<int>, out: seq<int> :: |err| == |out| == cfg.maxSamples ==>
      Restored(cfg, ch, n, samples, err, out)
  }

  ghost predicate Restored(cfg: Config, ch: Channel, n: nat, samples: seq<int>, err: seq<int>, out: seq<int>)
    requires Codes(cfg, ch, n, samples) && |err| == |out| == cfg.maxSamples
  {
    var r := DecodeChannel(cfg, Padded(ChannelCode(cfg, ch, n, samples)), 0, n, |samples|, ch, err, out);
    r.Some? && r.value.1[..|samples|] == samples
  }

  /** With every predictor table, a channel's samples are all restored if and only if the history fits. */
  lemma ChannelExactly(cfg: Config, ch: Channel, n: nat, limit: nat)
    requires n >= 1 && Writes(cfg, ch, n, 1) && ch.kind == 0 && RiceHistory.ENOUGH <= limit
             && RiceHistory.ENOUGH <= cfg.maxSamples
    ensures (forall samples :: Codes(cfg, ch, n, samples) && |samples| <= limit ==>
             ChannelRestored(cfg, ch, n, samples))
       <==> Fits(cfg, ch, n)
  {
    hide Codes, ChannelRestored, Fits;
    if Fits(cfg, ch, n) {
      forall samples | Codes(cfg, ch, n, samples) && |samples| <= limit ensures ChannelRestored(cfg, ch, n, samples) {
        ChannelFits(cfg, ch, n, samples);
      }
    } else {
      var samples := ChannelBreaks(cfg, ch, n);
      ChannelLost(cfg, ch, n, samples);
    }
  }

  lemma ChannelFits(cfg: Config, ch: Channel, n: nat, samples: seq<int>)
    requires Codes(cfg, ch, n, samples) && Fits(cfg, ch, n)
    ensures ChannelRestored(cfg, ch, n, samples)
  {
    hide ChannelCode, DecodeChannel, Codes, Fits, Padded;
    PaddedShows(ChannelCode(cfg, ch, n, samples));
    forall err: seq<int>, out: seq<int> | |err| == |out| == cfg.maxSamples
      ensures Restored(cfg, ch, n, samples, err, out)
    {
      ChannelTrip(cfg, Padded(ChannelCode(cfg, ch, n, samples)), 0, ch, n, samples, err, out);
    }
  }

  lemma ChannelLost(cfg: Config, ch: Channel, n: nat, samples: seq<int>)
    requires Codes(cfg, ch, n, samples)
    requires RiceHistory.Breaking(RiceParams(cfg, ch, n), ChannelResiduals(cfg, ch, n, samples))
    ensures !ChannelRestored(cfg, ch, n, samples)
  {
    hide DecodeChannel, Codes, RiceHistory.Breaking, At, Encode;
    var code := ChannelCode(cfg, ch, n, samples);
    PaddedShows(code);
    var blank := seq(cfg.maxSamples, _ => 0);
    CodesBits(cfg, ch, n, samples);
    ChannelFails(cfg, Padded(code), 0, ch, n, samples, blank, blank);
    assert !Restored(cfg, ch, n, samples, blank, blank);
  }

  lemma CodesBits(cfg: Config, ch: Channel, n: nat, samples: seq<int>)
    requires Codes(cfg, ch, n, samples)
    ensures n >= 1
  {}

  // ----- samples from coded values -----

  /** Samples with the given high parts and no low ones. */
  function Raised(xs: seq<int>, u: nat): (r: seq<int>)
    ensures |r| == |xs| && forall i :: 0 <= i < |xs| ==> r[i] == xs[i] * Pow2(8 * u)
  {
    seq(|xs|, i requires 0 <= i < |xs| => xs[i] * Pow2(8 * u))
  }

  lemma RaisedHigh(x: int, u: nat)
    ensures High(x * Pow2(8 * u), u) == x && Low(x * Pow2(8 * u), u) == 0
  {
    DivModUnique(x * Pow2(8 * u), Pow2(8 * u), x, 0);
  }

  lemma RaisedInRange(x: int, n: nat, u: nat)
    requires n >= 1 && InRange(x, n)
    ensures InRange(x * Pow2(8 * u), n + 8 * u)
  {
    hide Pow2;
    var unit, half := Pow2(8 * u), Pow2(n - 1);
    Pow2Add(n - 1, 8 * u);
    assert (n + 8 * u) - 1 == (n - 1) + 8 * u;
    if x < half {
      MulLess(x, half, unit);
    }
    if -half < x {
      MulLess(-half, x, unit);
    }
  }

  /** Two values of n bits that differ are stored differently, low bytes or not. */
  lemma StoredDiffer(x: int, y: int, n: nat, u: nat, low: int, bytes: nat)
    requires n >= 1 && InRange(x, n) && InRange(y, n) && x != y && n + 8 * u <= 8 * bytes && (u != 0 ==> low == 0)
    ensures LeBytes(Append(x, low, u), bytes) != LeBytes(y * Pow2(8 * u), bytes)
  {
    hide Pow2, LeBytes, InRange;
    var unit := Pow2(8 * u);
    AppendNone(x, low, u);
    Spread(x, y, n);
    Pow2Add(n, 8 * u);
    Pow2Mono(n + 8 * u, 8 * bytes);
    MulDist(x - y, y, unit);
    Away(x - y, Pow2(n), unit);
    if LeBytes(x * unit, bytes) == LeBytes(y * unit, bytes) {
      LeBytesShow(y * unit, (x - y) * unit, bytes);
    }
  }

  lemma AppendNone(x: int, low: int, u: nat)
    requires u != 0 ==> low == 0
    ensures Append(x, low, u) == x * Pow2(8 * u)
  {
    if u == 0 {
      assert Pow2(0) == 1;
    } else {
      ModSmall(0, Pow2(8 * u));
    }
  }

  lemma Spread(x: int, y: int, n: nat)
    requires n >= 1 && InRange(x, n) && InRange(y, n)
    ensures -Pow2(n) < x - y < Pow2(n)
  {}

  lemma Away(d: int, p: int, unit: int)
    requires -p < d < p && d != 0 && unit > 0
    ensures -(p * unit) < d * unit < p * unit && d * unit != 0
  {
    MulLess(d, p, unit);
    MulLess(-p, d, unit);
    MultipleApart(d, unit);
  }

  /** The bits of a padded code end in silence. */
  lemma PaddingSilent(code: seq<bool>)
    ensures forall i :: |code| <= i < |Padded(code)| ==> !Padded(code)[i]
  {}

  // ----- mono frames -----

  /** The parameters of mono frames, with any predictor table. */
  ghost predicate MonoSetup(cfg: Config, c: Choice) {
    && ((cfg.sampleSize == 16 && c.unBytes == 0) || (cfg.sampleSize == 24 && c.unBytes <= 2))
    && c.unused < 16 && c.unused' < 4096 && c.shift < 256 && c.weight < 256 && c.hasSize
    && ValidChannel(c.a) && Writes(cfg, c.a, MonoBits(cfg, c), 1)
    && RiceHistory.ENOUGH <= cfg.maxSamples && 1 <= cfg.numChannels && cfg.bytesPerSample < 0x8000
  }

  ghost predicate MonoRestored(cfg: Config, c: Choice, xs: seq<int>)
    requires WritableMono(cfg, c, xs)
  {
    forall buf: Buffers, out: seq<Byte> :: buf.Valid(cfg) && Room(|xs|, Stride(cfg), Bytes(cfg), |out|) ==>
      RestoresMono(cfg, Padded(MonoFrameBits(cfg, c, xs)), xs, buf, out)
  }

  /** A wrong channel leaves a wrong output. */
  lemma MonoWrong(cfg: Config, c: Choice, samples: seq<int>, buf: Buffers, out: seq<Byte>)
    requires MonoSetup(cfg, c) && buf.Valid(cfg) && |samples| <= cfg.maxSamples
    requires Predictor.AllInRange(samples, MonoBits(cfg, c)) && Wrong(c.a, MonoBits(cfg, c), samples, buf.outA)
    requires HoldsLow(cfg, c, Raised(samples, c.unBytes), buf)
    requires Room(|samples|, Stride(cfg), Bytes(cfg), |out|)
    ensures EmitMono(cfg, buf, |samples|, c.unBytes, out)
         != Some(Layout(out, MonoSamples(Raised(samples, c.unBytes), Bytes(cfg)), Stride(cfg), Bytes(cfg)))
  {
    hide Layout, LeBytes, Append, High, Low, Room, Pow2, InRange, Writes;
    var u, n, xs := c.unBytes, MonoBits(cfg, c), Raised(samples, c.unBytes);
    var found := buf.outA[..|samples|];
    var i :| 0 <= i < |samples| && found[i] != samples[i];
    assert InRange(found[i], n) && InRange(samples[i], n);
    if u != 0 {
      assert buf.lowA[i] == buf.lowA[..|xs|][i] == Low(xs[i], u);
      RaisedHigh(samples[i], u);
    }
    StoredDiffer(buf.outA[i], samples[i], n, u, buf.lowA[i], Bytes(cfg));
    var stored, meant := MonoFrames(buf.outA, |xs|, u, buf.lowA, Bytes(cfg)), MonoSamples(xs, Bytes(cfg));
    assert stored[i] != meant[i];
    if Layout(out, stored, Stride(cfg), Bytes(cfg)) == Layout(out, meant, Stride(cfg), Bytes(cfg)) {
      LayoutInjective(out, stored, meant, Stride(cfg), Bytes(cfg));
    }
  }

  /** A mono frame that is not restored. */
  lemma MonoBreaks(cfg: Config, c: Choice) returns (xs: seq<int>)
    requires MonoSetup(cfg, c) && !Fits(cfg, c.a, MonoBits(cfg, c))
    ensures WritableMono(cfg, c, xs) && |xs| <= RiceHistory.ENOUGH && !MonoRestored(cfg, c, xs)
  {
    hide Fits, MonoRestored, RiceHistory.Breaking, InRange, Pow2;
    var samples := ChannelBreaks(cfg, c.a, MonoBits(cfg, c));
    xs := Raised(samples, c.unBytes);
    RaisedMono(cfg, c, samples);
    MonoLost(cfg, c, samples);
  }

  lemma RaisedMono(cfg: Config, c: Choice, samples: seq<int>)
    requires MonoSetup(cfg, c) && Codes(cfg, c.a, MonoBits(cfg, c), samples) && |samples| <= RiceHistory.ENOUGH
    ensures WritableMono(cfg, c, Raised(samples, c.unBytes)) && Highs(Raised(samples, c.unBytes), c.unBytes) == samples
  {
    hide InRange, Pow2, High;
    var u, xs := c.unBytes, Raised(samples, c.unBytes);
    forall i | 0 <= i < |samples| ensures InRange(xs[i], cfg.sampleSize) && High(xs[i], u) == samples[i] {
      assert InRange(samples[i], MonoBits(cfg, c));
      RaisedInRange(samples[i], MonoBits(cfg, c), u);
      RaisedHigh(samples[i], u);
    }
  }

  lemma MonoLost(cfg: Config, c: Choice, samples: seq<int>)
    requires MonoSetup(cfg, c) && Codes(cfg, c.a, MonoBits(cfg, c), samples)
    requires WritableMono(cfg, c, Raised(samples, c.unBytes)) && Highs(Raised(samples, c.unBytes), c.unBytes) == samples
    requires RiceHistory.Breaking(RiceParams(cfg, c.a, MonoBits(cfg, c)),
                                  ChannelResiduals(cfg, c.a, MonoBits(cfg, c), samples))
    ensures !MonoRestored(cfg, c, Raised(samples, c.unBytes))
  {
    hide WritableMono, Writes, MonoFrameBits, DecodeFrame, DecodeChannel, EmitMono, HoldsLow, Wrong, Layout, Padded,
      RiceHistory.Breaking, Highs, MonoSamples, At;
    var xs := Raised(samples, c.unBytes);
    var blank := seq(cfg.maxSamples, _ => 0);
    var buf := Buffers(blank, blank, blank, blank, blank, blank);
    var out: seq<Byte> := seq(Strided.Start(|xs|, Stride(cfg)) + Bytes(cfg), _ => 0);
    Strided.StartOrder(|xs| - 1, |xs|, Stride(cfg));
    var code := MonoFrameBits(cfg, c, xs);
    var bits := Padded(code);
    PaddedShows(code);
    PaddingSilent(code);
    MonoNotRestored(cfg, c, samples, bits, buf, out);
    assert !RestoresMono(cfg, bits, xs, buf, out);
  }

  lemma MonoNotRestored(cfg: Config, c: Choice, samples: seq<int>, bits: seq<bool>, buf: Buffers, out: seq<Byte>)
    requires MonoSetup(cfg, c) && Codes(cfg, c.a, MonoBits(cfg, c), samples) && buf.Valid(cfg)
    requires WritableMono(cfg, c, Raised(samples, c.unBytes)) && Highs(Raised(samples, c.unBytes), c.unBytes) == samples
    requires RiceHistory.Breaking(RiceParams(cfg, c.a, MonoBits(cfg, c)),
                                  ChannelResiduals(cfg, c.a, MonoBits(cfg, c), samples))
    requires At(bits, 0, MonoFrameBits(cfg, c, Raised(samples, c.unBytes)))
    requires forall i :: |MonoFrameBits(cfg, c, Raised(samples, c.unBytes))| <= i < |bits| ==> !bits[i]
    requires Room(|samples|, Stride(cfg), Bytes(cfg), |out|)
    ensures !RestoresMono(cfg, bits, Raised(samples, c.unBytes), buf, out)
  {
    hide MonoFrameBits, DecodeFrame, DecodeChannel, EmitMono, HoldsLow, Wrong, Layout, RiceHistory.Breaking, Highs,
        MonoSamples,
      At, Encode, Room, Raised, Writes, InRange;
    var n, xs := MonoBits(cfg, c), Raised(samples, c.unBytes);
    var buf1, at := MonoParse(cfg, bits, c, xs, buf, out);
    assert |MonoData(cfg, c, xs)| == |ChannelCode(cfg, c.a, n, samples)|;
    ChannelFails(cfg, bits, at, c.a, n, samples, buf1.errA, buf1.outA);
    var channel := DecodeChannel(cfg, bits, at, n, |xs|, c.a, buf1.errA, buf1.outA);
    if channel.Some? {
      var buf2 := buf1.(errA := channel.value.0, outA := channel.value.1);
      SameLow(cfg, c, xs, buf1, buf2);
      MonoWrong(cfg, c, samples, buf2, out);
    }
  }

  lemma SameLow(cfg: Config, c: Choice, xs: seq<int>, buf: Buffers, buf': Buffers)
    requires buf.Valid(cfg) && buf'.Valid(cfg) && |xs| <= cfg.maxSamples && buf.lowA == buf'.lowA
             && HoldsLow(cfg, c, xs, buf)
    ensures HoldsLow(cfg, c, xs, buf')
  {}

  /**
  With every predictor table, mono frames are all restored, with any limit on their length from 164
  samples on, if and only if the history fits.
  */
  lemma MonoRestoredExactly(cfg: Config, c: Choice, limit: nat)
    requires MonoSetup(cfg, c) && RiceHistory.ENOUGH <= limit
    ensures (forall xs :: WritableMono(cfg, c, xs) && |xs| <= limit ==> MonoRestored(cfg, c, xs))
       <==> Fits(cfg, c.a, MonoBits(cfg, c))
  {
    hide WritableMono, MonoRestored, Fits, Writes;
    if Fits(cfg, c.a, MonoBits(cfg, c)) {
      forall xs | WritableMono(cfg, c, xs) && |xs| <= limit ensures MonoRestored(cfg, c, xs) {
        MonoFits(cfg, c, xs);
      }
    } else {
      var xs := MonoBreaks(cfg, c);
    }
  }

  lemma MonoFits(cfg: Config, c: Choice, xs: seq<int>)
    requires WritableMono(cfg, c, xs) && Fits(cfg, c.a, MonoBits(cfg, c))
    ensures MonoRestored(cfg, c, xs)
  {
    hide MonoFrameBits, RestoresMono, Room, Fits, WritableMono, Padded;
    var bits := Padded(MonoFrameBits(cfg, c, xs));
    PaddedShows(MonoFrameBits(cfg, c, xs));
    forall buf: Buffers, out: seq<Byte> | buf.Valid(cfg) && Room(|xs|, Stride(cfg), Bytes(cfg), |out|)
      ensures RestoresMono(cfg, bits, xs, buf, out)
    {
      LosslessMonoFrame(cfg, bits, c, xs, buf, out);
    }
  }

  // ----- stereo frames -----

  /** The parameters of stereo frames that are not weighted and whose channels have no predictor table. */
  ghost predicate Plain(cfg: Config, c: Choice) {
    && ((cfg.sampleSize == 16 && c.unBytes == 0) || (cfg.sampleSize == 24 && c.unBytes <= 2))
    && c.unused < 16 && c.unused' < 4096 && c.hasSize && c.shift < 256 && c.weight == 0
    && ValidChannel(c.a) && ValidChannel(c.b) && |c.a.coefs| == |c.b.coefs| == 0
    && Writes(cfg, c.a, CodedBits(cfg, c), 1) && Writes(cfg, c.b, CodedBits(cfg, c), 1)
    && RiceHistory.ENOUGH <= cfg.maxSamples && 2 <= cfg.numChannels && cfg.bytesPerSample < 0x8000
  }

  /** Coded values of a plain frame: they leave one bit of their size unused. */
  ghost predicate Narrow(cfg: Config, c: Choice, xs: seq<int>) {
    cfg.sampleSize > 8 * c.unBytes && Predictor.AllInRange(xs, cfg.sampleSize - 8 * c.unBytes)
  }

  lemma PlainFrame(cfg: Config, c: Choice, a: seq<int>, b: seq<int>)
    requires Plain(cfg, c) && 1 <= |a| == |b| <= RiceHistory.ENOUGH && Narrow(cfg, c, a) && Narrow(cfg, c, b)
    ensures var left, right := Raised(a, c.unBytes), Raised(b, c.unBytes);
            && Writable(cfg, c, left, right)
            && MixedA(left, right, c) == a && MixedB(left, right, c) == b
  {
    hide InRange, Pow2, High;
    var u, n := c.unBytes, cfg.sampleSize - 8 * c.unBytes;
    var left, right := Raised(a, u), Raised(b, u);
    forall i | 0 <= i < |a|
      ensures InRange(left[i], cfg.sampleSize) && High(left[i], u) == a[i]
      ensures InRange(right[i], cfg.sampleSize) && High(right[i], u) == b[i]
    {
      assert InRange(a[i], n) && InRange(b[i], n);
      RaisedInRange(a[i], n, u);
      RaisedInRange(b[i], n, u);
      RaisedHigh(a[i], u);
      RaisedHigh(b[i], u);
    }
    Positive(c.shift);
  }

  lemma Positive(n: nat)
    ensures Pow2(n) >= 1
  {}

  /** Small values fit, and so do 16-bit values where a multiplier does not fit. */
  lemma NarrowValues(cfg: Config, c: Choice, xs: seq<int>, small: bool)
    requires Plain(cfg, c)
    requires forall i :: 0 <= i < |xs| ==> if small then xs[i] == 0 || xs[i] == -1 else -0x8000 <= xs[i] < 0x8000
    requires !small ==> CodedBits(cfg, c) >= 14
    ensures Narrow(cfg, c, xs)
  {
    hide Pow2;
    var n := cfg.sampleSize - 8 * c.unBytes;
    Pow2Limits();
    assert Pow2(0) == 1 by { One(); }
    Pow2Mono(if small then 0 else 15, n - 1);
  }

  lemma One()
    ensures Pow2(0) == 1
  {}

  /** One of the decoded channels holds a zero where minus one was coded. */
  ghost predicate Lost(a: seq<int>, b: seq<int>, buf: Buffers, i: nat)
    requires i < |a| == |b| <= |buf.outA| == |buf.outB|
  {
    (a[i] == -1 && buf.outA[i] == 0) || (b[i] == -1 && buf.outB[i] == 0)
  }

  /** Silence in both low bytes and a lost value leave a wrong output. */
  lemma PlainWrong(cfg: Config, c: Choice, a: seq<int>, b: seq<int>, buf: Buffers, out: seq<Byte>, i: nat)
    requires Plain(cfg, c) && buf.Valid(cfg) && i < |a| == |b| <= cfg.maxSamples && Lost(a, b, buf, i)
    requires HoldsLows(cfg, c, Raised(a, c.unBytes), Raised(b, c.unBytes), buf)
    requires Room(|a|, Stride(cfg), 2 * Bytes(cfg), |out|)
    ensures Emit(cfg, buf, |a|, c.unBytes, c.shift, c.weight, out)
         != Some(Stored(cfg, Raised(a, c.unBytes), Raised(b, c.unBytes), out))
  {
    hide Layout, LeBytes, Append, Low, Room, Pow2, Writes, Share, Wrap16;
    var u, left, right := c.unBytes, Raised(a, c.unBytes), Raised(b, c.unBytes);
    var bytes := Bytes(cfg);
    if u != 0 {
      assert buf.lowA[i] == buf.lowA[..|a|][i] == Low(left[i], u);
      assert buf.lowB[i] == buf.lowB[..|a|][i] == Low(right[i], u);
      RaisedHigh(a[i], u);
      RaisedHigh(b[i], u);
    }
    SmallInRange();
    var stored, meant := StoredFrames(cfg, c, buf, |a|), SampleFrames(left, right, bytes);
    if a[i] == -1 && buf.outA[i] == 0 {
      StoredDiffer(0, -1, 1, u, buf.lowA[i], bytes);
      ZeroStored(u, buf.lowA[i]);
      LeftDiffers(stored[i], meant[i], 0, left[i], bytes);
    } else {
      StoredDiffer(0, -1, 1, u, buf.lowB[i], bytes);
      ZeroStored(u, buf.lowB[i]);
      RightDiffers(stored[i], meant[i], 0, right[i], bytes);
    }
    if Layout(out, stored, Stride(cfg), 2 * bytes) == Layout(out, meant, Stride(cfg), 2 * bytes) {
      LayoutInjective(out, stored, meant, Stride(cfg), 2 * bytes);
    }
  }

  lemma SmallInRange()
    ensures InRange(0, 1) && InRange(-1, 1)
  {
    One();
  }

  lemma ZeroStored(u: nat, low: int)
    requires u != 0 ==> low == 0
    ensures Wrap16(0) == 0 && Append(0, low, u) == 0
  {
    AppendNone(0, low, u);
  }

  lemma LeftDiffers(x: seq<Byte>, y: seq<Byte>, left: int, left': int, bytes: nat)
    requires |x| == |y| == 2 * bytes && x[..bytes] == LeBytes(left, bytes) && y[..bytes] == LeBytes(left', bytes)
    requires LeBytes(left, bytes) != LeBytes(left', bytes)
    ensures x != y
  {}

  lemma RightDiffers(x: seq<Byte>, y: seq<Byte>, right: int, right': int, bytes: nat)
    requires |x| == |y| == 2 * bytes && x[bytes..] == LeBytes(right, bytes) && y[bytes..] == LeBytes(right', bytes)
    requires LeBytes(right, bytes) != LeBytes(right', bytes)
    ensures x != y
  {}

  /** A plain frame breaks in one channel: in the first, in front of a silent one, or in the second. */
  ghost predicate BreaksIn(cfg: Config, c: Choice, a: seq<int>, b: seq<int>)
    requires CodedBits(cfg, c) >= 1
    requires Codes(cfg, c.a, CodedBits(cfg, c), a) && Codes(cfg, c.b, CodedBits(cfg, c), b)
  {
    var n := CodedBits(cfg, c);
    || (&& RiceHistory.Breaking(RiceParams(cfg, c.a, n), ChannelResiduals(cfg, c.a, n, a))
        && RiceHistory.NoBits(ChannelCode(cfg, c.b, n, b)))
    || (Fits(cfg, c.a, n) && RiceHistory.Breaking(RiceParams(cfg, c.b, n), ChannelResiduals(cfg, c.b, n, b)))
  }

  lemma ChannelsFail(cfg: Config, bits: seq<bool>, p: nat, c: Choice, a: seq<int>, b: seq<int>,
                     buf: Buffers) returns (i: nat)
    requires Plain(cfg, c) && buf.Valid(cfg) && |a| == |b|
    requires Codes(cfg, c.a, CodedBits(cfg, c), a) && Codes(cfg, c.b, CodedBits(cfg, c), b) && BreaksIn(cfg, c, a, b)
    requires At(bits, p, ChannelCode(cfg, c.a, CodedBits(cfg, c), a) + ChannelCode(cfg, c.b, CodedBits(cfg, c), b))
    requires forall j ::
               p + |ChannelCode(cfg, c.a, CodedBits(cfg, c), a)| + |ChannelCode(cfg, c.b, CodedBits(cfg, c),
                                                                                b)| <= j < |bits|
               ==> !bits[j]
    ensures var r := DecodeChannels(cfg, bits, p, CodedBits(cfg, c), |a|, c.a, c.b, buf);
            r.Some? ==> i < |a| && Lost(a, b, r.value, i) && r.value.lowA == buf.lowA && r.value.lowB == buf.lowB
  {
    hide Encode, DecodeChannel, Writes, Fits, RiceHistory.Breaking, Predictor.Residuals, InRange;
    var n := CodedBits(cfg, c);
    var codeA, codeB := ChannelCode(cfg, c.a, n, a), ChannelCode(cfg, c.b, n, b);
    AtSplit(bits, p, codeA, codeB);
    i := 0;
    var first := DecodeChannel(cfg, bits, p, n, |a|, c.a, buf.errA, buf.outA);
    if RiceHistory.Breaking(RiceParams(cfg, c.a, n), ChannelResiduals(cfg, c.a, n, a)) && RiceHistory.NoBits(codeB) {
      SilentCodeBehind(bits, p + |codeA|, codeB);
      ChannelFails(cfg, bits, p, c.a, n, a, buf.errA, buf.outA);
      if first.Some? {
        i :| 0 <= i < |a| && a[i] == -1 && first.value.1[i] == 0;
      }
    } else {
      ChannelTrip(cfg, bits, p, c.a, n, a, buf.errA, buf.outA);
      var q := p + |codeA|;
      ChannelFails(cfg, bits, q, c.b, n, b, buf.errB, buf.outB);
      var second := DecodeChannel(cfg, bits, q, n, |a|, c.b, buf.errB, buf.outB);
      if second.Some? {
        i :| 0 <= i < |b| && b[i] == -1 && second.value.1[i] == 0;
      }
    }
  }

  lemma SilentCodeBehind(bits: seq<bool>, p: nat, code: seq<bool>)
    requires At(bits, p, code) && RiceHistory.NoBits(code) && forall j :: p + |code| <= j < |bits| ==> !bits[j]
    ensures forall j :: p <= j < |bits| ==> !bits[j]
  {
    forall j | p <= j < |bits| ensures !bits[j] {
      if j < p + |code| {
        assert bits[j] == bits[p..p + |code|][j - p];
      }
    }
  }

  /** The frame is restored from its bytes, whatever the buffers and the output held. */
  ghost predicate AlwaysRestored(cfg: Config, c: Choice, left: seq<int>, right: seq<int>)
    requires Writable(cfg, c, left, right)
  {
    forall buf: Buffers, out: seq<Byte> :: buf.Valid(cfg) && Room(|left|, Stride(cfg), 2 * Bytes(cfg), |out|) ==>
      Restores(cfg, Padded(FrameBits(cfg, c, left, right)), left, right, buf, out)
  }

  lemma FrameNotRestored(cfg: Config, c: Choice, a: seq<int>, b: seq<int>, bits: seq<bool>, buf: Buffers,
                         out: seq<Byte>)
    requires Plain(cfg, c) && buf.Valid(cfg) && |a| == |b|
    requires Codes(cfg, c.a, CodedBits(cfg, c), a) && Codes(cfg, c.b, CodedBits(cfg, c), b) && BreaksIn(cfg, c, a, b)
    requires var left, right := Raised(a, c.unBytes), Raised(b, c.unBytes);
             && Writable(cfg, c, left, right) && MixedA(left, right, c) == a && MixedB(left, right, c) == b
             && At(bits, 0, FrameBits(cfg, c, left, right))
             && forall i :: |FrameBits(cfg, c, left, right)| <= i < |bits| ==> !bits[i]
    requires Room(|a|, Stride(cfg), 2 * Bytes(cfg), |out|)
    ensures !Restores(cfg, bits, Raised(a, c.unBytes), Raised(b, c.unBytes), buf, out)
  {
    hide FrameBits, DecodeFrame, DecodeChannels, Emit, HoldsLows, Layout, BreaksIn, MixedA, MixedB, SampleFrames,
        Raised,
      At, ChannelCode, Room, Writes, InRange, Pow2;
    var left, right := Raised(a, c.unBytes), Raised(b, c.unBytes);
    var buf1, at := FrameParse(cfg, bits, c, left, right, buf, out);
    var i := ChannelsFail(cfg, bits, at, c, a, b, buf1);
    var channels := DecodeChannels(cfg, bits, at, CodedBits(cfg, c), |a|, c.a, c.b, buf1);
    if channels.Some? {
      SameLows(cfg, c, left, right, buf1, channels.value);
      PlainWrong(cfg, c, a, b, channels.value, out, i);
    }
  }

  lemma SameLows(cfg: Config, c: Choice, left: seq<int>, right: seq<int>, buf: Buffers, buf': Buffers)
    requires buf.Valid(cfg) && buf'.Valid(cfg) && |left| == |right| <= cfg.maxSamples
    requires buf.lowA == buf'.lowA && buf.lowB == buf'.lowB && HoldsLows(cfg, c, left, right, buf)
    ensures HoldsLows(cfg, c, left, right, buf')
  {}

  lemma FrameLost(cfg: Config, c: Choice, a: seq<int>, b: seq<int>)
    requires Plain(cfg, c) && 1 <= |a| == |b| <= RiceHistory.ENOUGH && Narrow(cfg, c, a) && Narrow(cfg, c, b)
    requires Codes(cfg, c.a, CodedBits(cfg, c), a) && Codes(cfg, c.b, CodedBits(cfg, c), b) && BreaksIn(cfg, c, a, b)
    ensures var left, right := Raised(a, c.unBytes), Raised(b, c.unBytes);
            Writable(cfg, c, left, right) && !AlwaysRestored(cfg, c, left, right)
  {
    hide Writable, FrameBits, DecodeFrame, BreaksIn, Restores, MixedA, MixedB, Padded, Pow2, InRange, Narrow, Writes;
    PlainFrame(cfg, c, a, b);
    var left, right := Raised(a, c.unBytes), Raised(b, c.unBytes);
    var blank := seq(cfg.maxSamples, _ => 0);
    var buf := Buffers(blank, blank, blank, blank, blank, blank);
    var out: seq<Byte> := seq(Strided.Start(|left|, Stride(cfg)) + 2 * Bytes(cfg), _ => 0);
    Strided.StartOrder(|left| - 1, |left|, Stride(cfg));
    var code := FrameBits(cfg, c, left, right);
    PaddedShows(code);
    PaddingSilent(code);
    FrameNotRestored(cfg, c, a, b, Padded(code), buf, out);
    assert !Restores(cfg, Padded(code), left, right, buf, out);
  }

  /** A channel of silence, and its code. */
  lemma SilentChannel(cfg: Config, c: Choice, size: nat) returns (b: seq<int>)
    requires Plain(cfg, c) && 1 <= size <= RiceHistory.ENOUGH
    ensures |b| == size && Narrow(cfg, c, b) && Codes(cfg, c.b, CodedBits(cfg, c), b)
    ensures RiceHistory.NoBits(ChannelCode(cfg, c.b, CodedBits(cfg, c), b))
  {
    hide RiceHistory.Silent, RiceHistory.NoBits, Encode, Pow2, InRange;
    var n := CodedBits(cfg, c);
    var ps := RiceParams(cfg, c.b, n);
    b := RiceHistory.Silent(ps, cfg.initialHistory, 0, size);
    NarrowValues(cfg, c, b, true);
    AllZigzagInRange(b, n);
    NoTable(b, b, n, c.b.quant);
    RiceHistory.SilentCode(ps, cfg.initialHistory, 0, size);
  }

  /** Silence for the first channel, which fits. */
  lemma QuietChannel(cfg: Config, c: Choice, size: nat) returns (a: seq<int>)
    requires Plain(cfg, c) && 1 <= size <= RiceHistory.ENOUGH
    ensures |a| == size && Narrow(cfg, c, a) && Codes(cfg, c.a, CodedBits(cfg, c), a)
  {
    hide Pow2, InRange;
    a := seq(size, _ => 0);
    NarrowValues(cfg, c, a, true);
    forall i | 0 <= i < size ensures Rice.Zigzag(a[i]) < Pow2(CodedBits(cfg, c)) {
      ZigzagZero(CodedBits(cfg, c));
    }
    AllZigzagInRange(a, CodedBits(cfg, c));
  }

  lemma ZigzagZero(n: nat)
    ensures Rice.Zigzag(0) < Pow2(n)
  {}

  /** A plain frame that is not restored. */
  lemma FrameBreaks(cfg: Config, c: Choice) returns (left: seq<int>, right: seq<int>)
    requires Plain(cfg, c) && !(Fits(cfg, c.a, CodedBits(cfg, c)) && Fits(cfg, c.b, CodedBits(cfg, c)))
    ensures Writable(cfg, c, left, right) && |left| <= RiceHistory.ENOUGH && !AlwaysRestored(cfg, c, left, right)
  {
    hide RiceHistory.Breaking, RiceHistory.NoBits, Encode, Pow2, InRange, AlwaysRestored, Writable, Narrow;
    var n := CodedBits(cfg, c);
    var a, b;
    if !Fits(cfg, c.a, n) {
      a := ChannelBreaks(cfg, c.a, n);
      RiceHistory.TooLarge(RiceParams(cfg, c.a, n));
      NarrowValues(cfg, c, a, false);
      b := SilentChannel(cfg, c, |a|);
    } else {
      b := ChannelBreaks(cfg, c.b, n);
      RiceHistory.TooLarge(RiceParams(cfg, c.b, n));
      NarrowValues(cfg, c, b, false);
      a := QuietChannel(cfg, c, |b|);
    }
    FrameLost(cfg, c, a, b);
    left, right := Raised(a, c.unBytes), Raised(b, c.unBytes);
  }

  /**
  Plain stereo frames are all restored, with any limit on their length from 164 samples on, if and
  only if the history fits in both channels.
  */
  lemma FramesRestoredExactly(cfg: Config, c: Choice, limit: nat)
    requires Plain(cfg, c) && RiceHistory.ENOUGH <= limit
    ensures (forall left, right :: Writable(cfg, c, left, right) && |left| <= limit ==>
             AlwaysRestored(cfg, c, left, right))
       <==> Fits(cfg, c.a, CodedBits(cfg, c)) && Fits(cfg, c.b, CodedBits(cfg, c))
  {
    hide Writable, AlwaysRestored, Fits, Writes;
    if Fits(cfg, c.a, CodedBits(cfg, c)) && Fits(cfg, c.b, CodedBits(cfg, c)) {
      forall left, right | Writable(cfg, c, left, right) && |left| <= limit
        ensures AlwaysRestored(cfg, c, left, right)
      {
        FrameFits(cfg, c, left, right);
      }
    } else {
      var left, right := FrameBreaks(cfg, c);
    }
  }

  lemma FrameFits(cfg: Config, c: Choice, left: seq<int>, right: seq<int>)
    requires Encodable(cfg, c, left, right) && c.weight == 0
    ensures AlwaysRestored(cfg, c, left, right)
  {
    hide FrameBits, Restores, Room, Writes, Pow2, InRange, Padded, Fits;
    PaddedShows(FrameBits(cfg, c, left, right));
    forall buf: Buffers, out: seq<Byte> | buf.Valid(cfg) && Room(|left|, Stride(cfg), 2 * Bytes(cfg), |out|)
      ensures Restores(cfg, Padded(FrameBits(cfg, c, left, right)), left, right, buf, out)
    {
      LosslessFrame(cfg, Padded(FrameBits(cfg, c, left, right)), c, left, right, buf, out);
    }
  }
}

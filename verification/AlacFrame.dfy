/**
What `alac_decode_frame` does with a frame, as a function of the frame's bits, the contents of
the decoder's buffers and the output buffer. None means that the source would leave its buffers,
shift by an impossible amount, or that module Rice leaves the entropy decoder undefined.
*/
module AlacFrame {
  import opened Arith
  import opened Bits
  import opened BitReader
  import opened Options
  import opened Interlace
  import Rice
  import Predictor

  /** The stream's parameters from `alac_set_info` and `alac_create`. */
  datatype Config = Config(maxSamples: nat, sampleSize: nat, historyMult: nat, initialHistory: nat,
                           kModifier: nat, numChannels: nat, bytesPerSample: nat)

  datatype Header = Header(unBytes: nat, raw: bool, samples: int)
  datatype Channel = Channel(kind: nat, quant: nat, riceModifier: nat, coefs: seq<int>)

  /** The six sample buffers. */
  datatype Buffers = Buffers(errA: seq<int>, errB: seq<int>, outA: seq<int>, outB: seq<int>,
                             lowA: seq<int>, lowB: seq<int>) {
    predicate Valid(cfg: Config) {
      && |errA| == |errB| == |outA| == |outB| == |lowA| == |lowB| == cfg.maxSamples
    }
  }

  // ----- fields -----

  function Field(bits: seq<bool>, p: nat, n: nat): (r: Option<nat>)
    requires 1 <= n <= 32
    ensures r.Some? ==> CanRead(bits, p, n) && r.value == Val(bits[p..p + n]) && r.value < Pow2(n)
  {
    if CanRead(bits, p, n) then
      ValBound(bits[p..p + n]);
      Some(Val(bits[p..p + n]))
    else None
  }

  /** The fields behind the three-bit channel tag, and where they end. */
  function ParseHeader(cfg: Config, bits: seq<bool>): (r: Option<(Header, nat)>)
    ensures r.Some? ==> r.value.0.unBytes <= 3
  {
    if !(CanRead(bits, 3, 4) && CanRead(bits, 7, 12) && CanRead(bits, 19, 1) && CanRead(bits, 20, 2)
         && CanRead(bits, 22, 1))
    then None
    else
      assert Pow2(2) == 4;
      ValBound(bits[20..22]);
      var unBytes, raw := Val(bits[20..22]), Val(bits[22..23]) != 0;
      if Val(bits[19..20]) != 0 then
        var size :- Field(bits, 23, 32);
        Some((Header(unBytes, raw, Wrap32(size)), 55))
      else Some((Header(unBytes, raw, Wrap32(cfg.maxSamples)), 23))
  }

  function ParseCoefs(bits: seq<bool>, p: nat, num: nat): (r: Option<seq<int>>)
    ensures r.Some? ==> |r.value| == num
  {
    if num == 0 then Some([])
    else
      var coefs :- ParseCoefs(bits, p, num - 1);
      var v :- Field(bits, p + 16 * (num - 1), 16);
      Some(coefs + [Wrap16(v)])
  }

  function ParseChannel(bits: seq<bool>, p: nat): (r: Option<(Channel, nat)>)
    ensures r.Some? ==> |r.value.0.coefs| <= Predictor.COPY_PREVIOUS
  {
    var kind :- Field(bits, p, 4);
    var quant :- Field(bits, p + 4, 4);
    var riceModifier :- Field(bits, p + 8, 3);
    var num :- Field(bits, p + 11, 5);
    assert Pow2(5) == 32;
    var coefs :- ParseCoefs(bits, p + 16, num);
    Some((Channel(kind, quant, riceModifier, coefs), p + 16 + 16 * num))
  }

  /** n values of w bits, and where they end. */
  function ParseValues(bits: seq<bool>, p: nat, w: nat, n: nat): (r: Option<(seq<int>, nat)>)
    requires 1 <= w <= 32
    ensures r.Some? ==> |r.value.0| == n
  {
    if n == 0 then Some(([], p))
    else
      var (xs, p1) :- ParseValues(bits, p, w, n - 1);
      var x :- Field(bits, p1, w);
      Some((xs + [x], p1 + w))
  }

  /** n pairs of w-bit values, and where they end. */
  function ParsePairs(bits: seq<bool>, p: nat, w: nat, n: nat): (r: Option<(seq<int>, seq<int>, nat)>)
    requires 1 <= w <= 32
    ensures r.Some? ==> |r.value.0| == |r.value.1| == n
  {
    if n == 0 then Some(([], [], p))
    else
      var (a, b, p1) :- ParsePairs(bits, p, w, n - 1);
      var x :- Field(bits, p1, w);
      var y :- Field(bits, p1 + w, w);
      Some((a + [x], b + [y], p1 + w + w))
  }

  // ----- one channel -----

  /** The first entries of a buffer replaced. */
  function Overlay(front: seq<int>, buffer: seq<int>): (r: seq<int>)
    requires |front| <= |buffer|
    ensures |r| == |buffer| && r[..|front|] == front && r[|front|..] == buffer[|front|..]
  {
    front + buffer[|front|..]
  }

  function RiceParams(cfg: Config, ch: Channel, n: nat): (ps: Rice.Params) {
    Rice.Params(n, cfg.initialHistory, cfg.kModifier, ch.riceModifier * cfg.historyMult / 4)
  }

  /** The decoder's arithmetic is defined for this channel; the predictor runs for type 0 only. */
  predicate Usable(cfg: Config, ch: Channel, n: nat, size: nat, capacity: nat) {
    && RiceParams(cfg, ch, n).Valid() && size <= capacity
    && (ch.kind == 0 ==> Predictable(ch, capacity))
  }

  predicate Predictable(ch: Channel, capacity: nat) {
    && 1 <= capacity && |ch.coefs| <= Predictor.COPY_PREVIOUS
    && (1 <= |ch.coefs| < Predictor.COPY_PREVIOUS ==> ch.quant >= 1 && |ch.coefs| < capacity)
  }

  /** Entropy decoding into err, then prediction into out. */
  function DecodeChannel(cfg: Config, bits: seq<bool>, p: nat, n: nat, size: nat, ch: Channel,
                         err: seq<int>, out: seq<int>): (r: Option<(seq<int>, seq<int>, nat)>)
    requires |err| == |out|
    ensures r.Some? ==> |r.value.0| == |r.value.1| == |err|
  {
    if !Usable(cfg, ch, n, size, |err|) then None
    else
      var ps := RiceParams(cfg, ch, n);
      var st :- Rice.Decode(ps, bits, size, |err|, Rice.Initial(ps, p));
      var err' := Overlay(st.out, err);
      if ch.kind == 0 then
        Some((err', Overlay(Predictor.Decode(err', size, n, ch.coefs, ch.quant).out, out), st.pos))
      else Some((err', out, st.pos))
  }

  // ----- stereo frames -----

  /** The uncompressed low bytes of a compressed frame, if it has any. */
  function DecodeLow(bits: seq<bool>, p: nat, unBytes: nat, n: nat, buf: Buffers): (r: Option<(Buffers, nat)>)
    requires |buf.lowA| == |buf.lowB| && unBytes <= 3
    ensures r.Some? ==> r.value.0 == buf.(lowA := r.value.0.lowA, lowB := r.value.0.lowB)
    ensures r.Some? ==> |r.value.0.lowA| == |r.value.0.lowB| == |buf.lowA|
  {
    if unBytes == 0 then Some((buf, p))
    else if n > |buf.lowA| then None
    else
      var (a, b, p1) :- ParsePairs(bits, p, 8 * unBytes, n);
      Some((buf.(lowA := Overlay(a, buf.lowA), lowB := Overlay(b, buf.lowB)), p1))
  }

  /** The two compressed channels, one behind the other. */
  function DecodeChannels(cfg: Config, bits: seq<bool>, p: nat, n: nat, size: nat, a: Channel, b: Channel, buf: Buffers)
    : (r: Option<Buffers>)
    requires buf.Valid(cfg)
    ensures r.Some? ==> r.value.Valid(cfg)
  {
    var (errA, outA, p1) :- DecodeChannel(cfg, bits, p, n, size, a, buf.errA, buf.outA);
    var (errB, outB, p2) :- DecodeChannel(cfg, bits, p1, n, size, b, buf.errB, buf.outB);
    Some(buf.(errA := errA, outA := outA, errB := errB, outB := outB))
  }

  /** A compressed stereo frame from position p on: the buffers, the shift and the weight. */
  function DecodeCompressed(cfg: Config, bits: seq<bool>, p: nat, h: Header,
                            buf: Buffers): (r: Option<(Buffers, nat, nat)>)
    requires buf.Valid(cfg) && h.unBytes <= 3
    ensures r.Some? ==> r.value.0.Valid(cfg)
  {
    var shift :- Field(bits, p, 8);
    var weight :- Field(bits, p + 8, 8);
    var (a, p1) :- ParseChannel(bits, p + 16);
    var (b, p2) :- ParseChannel(bits, p1);
    var size := Predictor.Max(h.samples, 0);
    var n := cfg.sampleSize - 8 * h.unBytes + 1;
    if n < 1 then None
    else
      var (buf1, p3) :- DecodeLow(bits, p2, h.unBytes, size, buf);
      var buf2 :- DecodeChannels(cfg, bits, p3, n, size, a, b, buf1);
      Some((buf2, shift, weight))
  }

  /** The bits an uncompressed sample is sign-extended from. */
  function RawBits(cfg: Config): (n: nat) {
    if cfg.sampleSize <= 16 then cfg.sampleSize else 24
  }

  function ExtendAll(xs: seq<int>, n: nat): (r: seq<int>)
    requires n >= 1
    ensures |r| == |xs| && forall i :: 0 <= i < |xs| ==> r[i] == SignExtend(xs[i], n)
  {
    seq(|xs|, i requires 0 <= i < |xs| => SignExtend(xs[i], n))
  }

  /** An uncompressed stereo frame from position p on. */
  function DecodeRaw(cfg: Config, bits: seq<bool>, p: nat, h: Header, buf: Buffers): (r: Option<Buffers>)
    requires buf.Valid(cfg)
    ensures r.Some? ==> r.value.Valid(cfg)
  {
    var size := Predictor.Max(h.samples, 0);
    if !(1 <= cfg.sampleSize <= 32) || size > cfg.maxSamples then None
    else
      var (a, b, p1) :- ParsePairs(bits, p, cfg.sampleSize, size);
      Some(buf.(outA := Overlay(ExtendAll(a, RawBits(cfg)), buf.outA),
                outB := Overlay(ExtendAll(b, RawBits(cfg)), buf.outB)))
  }

  /** The output stage, chosen by the sample size. */
  function Emit(cfg: Config, buf: Buffers, n: nat, unBytes: nat, shift: nat, weight: nat,
                out: seq<Byte>): (r: Option<seq<Byte>>)
    requires buf.Valid(cfg)
  {
    if cfg.sampleSize == 16 then
      if n <= cfg.maxSamples && Room(n, 2 * cfg.numChannels, 4, |out|) && Shiftable(n, shift, weight) then
        Some(Layout(out, Frames16(buf.outA, buf.outB, n, shift, weight), 2 * cfg.numChannels, 4))
      else None
    else if cfg.sampleSize == 24 then
      if n <= cfg.maxSamples && Room(n, 3 * cfg.numChannels, 6, |out|) && Shiftable(n, shift, weight) then
        Some(Layout(out, Frames24(buf.outA, buf.outB, n, shift, weight, unBytes, buf.lowA, buf.lowB),
                    3 * cfg.numChannels, 6))
      else None
    else Some(out)
  }

  datatype Result = Result(buf: Buffers, out: seq<Byte>, outputSize: int)

  /** The reported size, a 32-bit product. */
  function SizeOf(cfg: Config, samples: int): (size: int) {
    Wrap32(samples * cfg.bytesPerSample)
  }

  /** A frame whose channel tag is 1. */
  function DecodeStereo(cfg: Config, bits: seq<bool>, buf: Buffers, out: seq<Byte>): (r: Option<Result>)
    requires buf.Valid(cfg)
  {
    var (h, p) :- ParseHeader(cfg, bits);
    var n := Predictor.Max(h.samples, 0);
    if h.raw then
      var buf1 :- DecodeRaw(cfg, bits, p, h, buf);
      var out1 :- Emit(cfg, buf1, n, 0, 0, 0, out);
      Some(Result(buf1, out1, SizeOf(cfg, h.samples)))
    else
      var (buf1, shift, weight) :- DecodeCompressed(cfg, bits, p, h, buf);
      var out1 :- Emit(cfg, buf1, n, h.unBytes, shift, weight, out);
      Some(Result(buf1, out1, SizeOf(cfg, h.samples)))
  }

  // ----- mono frames -----

  function DecodeLowMono(bits: seq<bool>, p: nat, unBytes: nat, n: nat, buf: Buffers): (r: Option<(Buffers, nat)>)
    requires unBytes <= 3
    ensures r.Some? ==> r.value.0 == buf.(lowA := r.value.0.lowA) && |r.value.0.lowA| == |buf.lowA|
  {
    if unBytes == 0 then Some((buf, p))
    else if n > |buf.lowA| then None
    else
      var (xs, p1) :- ParseValues(bits, p, 8 * unBytes, n);
      Some((buf.(lowA := Overlay(xs, buf.lowA)), p1))
  }

  /** A compressed mono frame from position p on; sixteen bits are skipped where a stereo frame has its mixing. */
  function DecodeCompressedMono(cfg: Config, bits: seq<bool>, p: nat, h: Header, buf: Buffers): (r: Option<Buffers>)
    requires buf.Valid(cfg) && h.unBytes <= 3
    ensures r.Some? ==> r.value.Valid(cfg)
  {
    var skipped :- Field(bits, p, 8);
    var skipped' :- Field(bits, p + 8, 8);
    var (ch, p1) :- ParseChannel(bits, p + 16);
    var size := Predictor.Max(h.samples, 0);
    var n := cfg.sampleSize - 8 * h.unBytes;
    if n < 1 then None
    else
      var (buf1, p2) :- DecodeLowMono(bits, p1, h.unBytes, size, buf);
      var (errA, outA, p3) :- DecodeChannel(cfg, bits, p2, n, size, ch, buf1.errA, buf1.outA);
      Some(buf1.(errA := errA, outA := outA))
  }

  function DecodeRawMono(cfg: Config, bits: seq<bool>, p: nat, h: Header, buf: Buffers): (r: Option<Buffers>)
    requires buf.Valid(cfg)
    ensures r.Some? ==> r.value.Valid(cfg)
  {
    var size := Predictor.Max(h.samples, 0);
    if !(1 <= cfg.sampleSize <= 32) || size > cfg.maxSamples then None
    else
      var (xs, p1) :- ParseValues(bits, p, cfg.sampleSize, size);
      Some(buf.(outA := Overlay(ExtendAll(xs, RawBits(cfg)), buf.outA)))
  }

  function EmitMono(cfg: Config, buf: Buffers, n: nat, unBytes: nat, out: seq<Byte>): (r: Option<seq<Byte>>)
    requires buf.Valid(cfg)
  {
    if cfg.sampleSize == 16 then
      if n <= cfg.maxSamples && Room(n, 2 * cfg.numChannels, 2, |out|) then
        Some(Layout(out, MonoFrames(buf.outA, n, 0, buf.lowA, 2), 2 * cfg.numChannels, 2))
      else None
    else if cfg.sampleSize == 24 then
      if n <= cfg.maxSamples && Room(n, 3 * cfg.numChannels, 3, |out|) then
        Some(Layout(out, MonoFrames(buf.outA, n, unBytes, buf.lowA, 3), 3 * cfg.numChannels, 3))
      else None
    else Some(out)
  }

  /** A frame whose channel tag is 0. */
  function DecodeMono(cfg: Config, bits: seq<bool>, buf: Buffers, out: seq<Byte>): (r: Option<Result>)
    requires buf.Valid(cfg)
  {
    var (h, p) :- ParseHeader(cfg, bits);
    var n := Predictor.Max(h.samples, 0);
    if h.raw then
      var buf1 :- DecodeRawMono(cfg, bits, p, h, buf);
      var out1 :- EmitMono(cfg, buf1, n, 0, out);
      Some(Result(buf1, out1, SizeOf(cfg, h.samples)))
    else
      var buf1 :- DecodeCompressedMono(cfg, bits, p, h, buf);
      var out1 :- EmitMono(cfg, buf1, n, h.unBytes, out);
      Some(Result(buf1, out1, SizeOf(cfg, h.samples)))
  }

  /** A channel of another prediction type is entropy decoded, and its samples stay as they were. */
  lemma OtherTypes(cfg: Config, bits: seq<bool>, p: nat, n: nat, size: nat, ch: Channel, err: seq<int>, out: seq<int>)
    requires |err| == |out| && ch.kind != 0
    ensures var r := DecodeChannel(cfg, bits, p, n, size, ch, err, out);
            && (r.Some? ==> r.value.1 == out)
            && (r.Some? ==> r.value.0[..size] == DecodedResiduals(cfg, bits, p, n, size, ch, |err|)[..size])
  {
    var r := DecodeChannel(cfg, bits, p, n, size, ch, err, out);
    if r.Some? {
      var found := DecodedResiduals(cfg, bits, p, n, size, ch, |err|);
      assert r.value.0 == Overlay(found, err);
      assert r.value.0[..|found|] == found;
    }
  }

  /** What the entropy decoder finds at p. */
  function DecodedResiduals(cfg: Config, bits: seq<bool>, p: nat, n: nat, size: nat, ch: Channel, capacity: nat)
    : (es: seq<int>)
    requires Usable(cfg, ch, n, size, capacity)
    requires var ps := RiceParams(cfg, ch, n); Rice.Decode(ps, bits, size, capacity, Rice.Initial(ps, p)).Some?
    ensures size <= |es| <= capacity
  {
    var ps := RiceParams(cfg, ch, n);
    Rice.Decode(ps, bits, size, capacity, Rice.Initial(ps, p)).value.out
  }

  /** `alac_decode_frame`: frames with other channel tags decode nothing. */
  function DecodeFrame(cfg: Config, bits: seq<bool>, buf: Buffers, out: seq<Byte>): (r: Option<Result>)
    requires buf.Valid(cfg)
  {
    var tag :- Field(bits, 0, 3);
    if tag == 0 then DecodeMono(cfg, bits, buf, out)
    else if tag == 1 then DecodeStereo(cfg, bits, buf, out)
    else Some(Result(buf, out, SizeOf(cfg, Wrap32(cfg.maxSamples))))
  }

  /** Frames that are neither mono nor stereo change nothing and report the size of a full frame. */
  lemma OtherTags(cfg: Config, bits: seq<bool>, buf: Buffers, out: seq<Byte>)
    requires buf.Valid(cfg) && CanRead(bits, 0, 3) && Val(bits[0..3]) >= 2
    requires cfg.maxSamples * cfg.bytesPerSample < 0x8000_0000 && cfg.maxSamples < 0x8000_0000
    ensures DecodeFrame(cfg, bits, buf, out) == Some(Result(buf, out, cfg.maxSamples * cfg.bytesPerSample))
  {
    hide Val, CanRead, DecodeMono, DecodeStereo;
  }
}

/** The frame decoder in the source's form, proved against module AlacFrame. */
module AlacFile {
  import opened Arith
  import opened Bits
  import opened BitReader
  import opened Options
  import opened AlacFrame
  import Interlace
  import Predictor
  import Rice
  import RiceDecoder

  /** `alac_file`: the stream's parameters, the bit reader and the sample buffers. */
  class Decoder {
    const cfg: Config
    const reader: Reader
    const errorA: array<int>
    const errorB: array<int>
    const samplesA: array<int>
    const samplesB: array<int>
    const lowA: array<int>
    const lowB: array<int>

    /** `alac_create`, `alac_set_info` and `alac_allocate_buffers` */
    constructor (cfg: Config)
      ensures Valid() && this.cfg == cfg
      ensures fresh(reader) && fresh(errorA) && fresh(errorB) && fresh(samplesA) && fresh(samplesB)
      ensures fresh(lowA) && fresh(lowB)
    {
      this.cfg := cfg;
      reader := new Reader();
      errorA, errorB := new int[cfg.maxSamples], new int[cfg.maxSamples];
      samplesA, samplesB := new int[cfg.maxSamples], new int[cfg.maxSamples];
      lowA, lowB := new int[cfg.maxSamples], new int[cfg.maxSamples];
    }

    ghost predicate Valid()
      reads this, reader
    {
      && reader.Valid()
      && errorA.Length == errorB.Length == samplesA.Length == samplesB.Length == cfg.maxSamples
      && lowA.Length == lowB.Length == cfg.maxSamples
      && errorA != errorB && errorA != samplesA && errorA != samplesB && errorA != lowA && errorA != lowB
      && errorB != samplesA && errorB != samplesB && errorB != lowA && errorB != lowB
      && samplesA != samplesB && samplesA != lowA && samplesA != lowB
      && samplesB != lowA && samplesB != lowB && lowA != lowB
    }

    ghost function Contents(): (buf: Buffers)
      requires Valid()
      reads this, reader, errorA, errorB, samplesA, samplesB, lowA, lowB
      ensures buf.Valid(cfg)
    {
      Buffers(errorA[..], errorB[..], samplesA[..], samplesB[..], lowA[..], lowB[..])
    }

    /** The header fields of a frame, behind the channel tag. */
    method ReadHeader() returns (h: Header)
      requires Valid() && reader.Pos() == 3 && ParseHeader(cfg, reader.bits).Some?
      modifies reader`ptr, reader`acc
      ensures Valid()
      ensures ParseHeader(cfg, reader.bits) == Some((h, reader.Pos()))
    {
      hide Val, Pow2, Shows, CanRead;
      var unused := reader.ReadBits(4);
      unused := reader.ReadBits(12);
      var hasSize := reader.ReadBits(1);
      var unBytes := reader.ReadBits(2);
      var raw := reader.ReadBits(1);
      var samples := Wrap32(cfg.maxSamples);
      if hasSize != 0 {
        var size := reader.ReadBits(32);
        samples := Wrap32(size);
      }
      h := Header(unBytes, raw != 0, samples);
    }

    /** The low bytes that a compressed frame carries uncompressed. */
    method ReadLow(unBytes: nat, n: nat)
      requires Valid() && unBytes <= 3 && DecodeLow(reader.bits, reader.Pos(), unBytes, n, Contents()).Some?
      modifies reader`ptr, reader`acc, lowA, lowB
      ensures Valid()
      ensures old(DecodeLow(reader.bits, reader.Pos(), unBytes, n, Contents())) == Some((Contents(), reader.Pos()))
    {
      hide ParsePairs, Shows;
      if unBytes != 0 {
        ghost var a0, b0 := lowA[..], lowB[..];
        ReadPairs(reader, 8 * unBytes, n, lowA, lowB);
        OverlayIs(lowA[..], lowA[..n], a0);
        OverlayIs(lowB[..], lowB[..n], b0);
      }
    }

    /** The compressed branch: both channels, and the mixing parameters. */
    method DecodeCompressedFrame(h: Header) returns (shift: nat, weight: nat)
      requires Valid() && h.unBytes <= 3
      requires DecodeCompressed(cfg, reader.bits, reader.Pos(), h, Contents()).Some?
      modifies reader`ptr, reader`acc, errorA, errorB, samplesA, samplesB, lowA, lowB
      ensures Valid()
      ensures old(DecodeCompressed(cfg, reader.bits, reader.Pos(), h, Contents())) == Some((Contents(), shift, weight))
    {
      hide ParseChannel, DecodeLow, DecodeChannel, Shows, CanRead, Val, Pow2;
      var n := cfg.sampleSize - 8 * h.unBytes + 1;
      var size := Predictor.Max(h.samples, 0);
      shift := reader.ReadBits(8);
      weight := reader.ReadBits(8);
      var kindA, quantA, modifierA, numA, coefsA := ReadChannel(reader);
      var kindB, quantB, modifierB, numB, coefsB := ReadChannel(reader);
      ReadLow(h.unBytes, size);
      DecodeInto(reader, cfg, n, size, kindA, quantA, modifierA, numA, coefsA, errorA, samplesA);
      DecodeInto(reader, cfg, n, size, kindB, quantB, modifierB, numB, coefsB, errorB, samplesB);
    }

    /** The uncompressed branch. */
    method DecodeRawFrame(h: Header)
      requires Valid() && DecodeRaw(cfg, reader.bits, reader.Pos(), h, Contents()).Some?
      modifies reader`ptr, reader`acc, samplesA, samplesB
      ensures Valid()
      ensures old(DecodeRaw(cfg, reader.bits, reader.Pos(), h, Contents())) == Some(Contents())
    {
      hide ParsePairs, Shows, SignExtend;
      var size := Predictor.Max(h.samples, 0);
      ghost var a0, b0 := samplesA[..], samplesB[..];
      ReadPairs(reader, cfg.sampleSize, size, samplesA, samplesB);
      ExtendArray(samplesA, size, RawBits(cfg));
      ExtendArray(samplesB, size, RawBits(cfg));
      OverlayIs(samplesA[..], samplesA[..size], a0);
      OverlayIs(samplesB[..], samplesB[..size], b0);
    }

    /** A frame with the stereo tag, behind the tag. */
    method DecodeStereoFrame(out: array<Byte>) returns (outputSize: int)
      requires Valid() && reader.Pos() == 3
      requires DecodeStereo(cfg, reader.bits, Contents(), out[..]).Some?
      modifies reader`ptr, reader`acc, errorA, errorB, samplesA, samplesB, lowA, lowB, out
      ensures Valid()
      ensures old(DecodeStereo(cfg, reader.bits, Contents(), out[..])) == Some(Result(Contents(), out[..], outputSize))
    {
      hide DecodeRaw, DecodeCompressed, ParseHeader, Shows, Val, Pow2;
      var h := ReadHeader();
      var n := Predictor.Max(h.samples, 0);
      outputSize := Wrap32(h.samples * cfg.bytesPerSample);
      var unBytes, shift, weight := 0, 0, 0;
      if h.raw {
        DecodeRawFrame(h);
      } else {
        unBytes := h.unBytes;
        shift, weight := DecodeCompressedFrame(h);
      }
      match cfg.sampleSize {
        case 16 => Interlace.Deinterlace16(samplesA, samplesB, out, cfg.numChannels, n, shift, weight);
        case 24 => Interlace.Deinterlace24(samplesA, samplesB, unBytes, lowA, lowB, out, cfg.numChannels, n, shift,
                                           weight);
        case _ =>
      }
    }

    /** The low bytes of a compressed mono frame. */
    method ReadLowMono(unBytes: nat, n: nat)
      requires Valid() && unBytes <= 3 && DecodeLowMono(reader.bits, reader.Pos(), unBytes, n, Contents()).Some?
      modifies reader`ptr, reader`acc, lowA
      ensures Valid()
      ensures old(DecodeLowMono(reader.bits, reader.Pos(), unBytes, n, Contents())) == Some((Contents(), reader.Pos()))
    {
      hide ParseValues, Shows;
      if unBytes != 0 {
        ghost var a0 := lowA[..];
        ReadValues(reader, 8 * unBytes, n, lowA);
        OverlayIs(lowA[..], lowA[..n], a0);
      }
    }

    /** The compressed branch of a mono frame. */
    method DecodeCompressedMonoFrame(h: Header)
      requires Valid() && h.unBytes <= 3
      requires DecodeCompressedMono(cfg, reader.bits, reader.Pos(), h, Contents()).Some?
      modifies reader`ptr, reader`acc, errorA, samplesA, lowA
      ensures Valid()
      ensures old(DecodeCompressedMono(cfg, reader.bits, reader.Pos(), h, Contents())) == Some(Contents())
    {
      hide ParseChannel, DecodeLowMono, DecodeChannel, Shows, CanRead, Val, Pow2;
      var n := cfg.sampleSize - 8 * h.unBytes;
      var size := Predictor.Max(h.samples, 0);
      var skipped := reader.ReadBits(8);
      skipped := reader.ReadBits(8);
      var kind, quant, modifier, num, coefs := ReadChannel(reader);
      ReadLowMono(h.unBytes, size);
      DecodeInto(reader, cfg, n, size, kind, quant, modifier, num, coefs, errorA, samplesA);
    }

    /** The uncompressed branch of a mono frame. */
    method DecodeRawMonoFrame(h: Header)
      requires Valid() && DecodeRawMono(cfg, reader.bits, reader.Pos(), h, Contents()).Some?
      modifies reader`ptr, reader`acc, samplesA
      ensures Valid()
      ensures old(DecodeRawMono(cfg, reader.bits, reader.Pos(), h, Contents())) == Some(Contents())
    {
      hide ParseValues, Shows, SignExtend;
      var size := Predictor.Max(h.samples, 0);
      ghost var a0 := samplesA[..];
      ReadValues(reader, cfg.sampleSize, size, samplesA);
      ExtendArray(samplesA, size, RawBits(cfg));
      OverlayIs(samplesA[..], samplesA[..size], a0);
    }

    /** A frame with the mono tag, behind the tag. */
    method DecodeMonoFrame(out: array<Byte>) returns (outputSize: int)
      requires Valid() && reader.Pos() == 3
      requires DecodeMono(cfg, reader.bits, Contents(), out[..]).Some?
      modifies reader`ptr, reader`acc, errorA, samplesA, lowA, out
      ensures Valid()
      ensures old(DecodeMono(cfg, reader.bits, Contents(), out[..])) == Some(Result(Contents(), out[..], outputSize))
    {
      hide DecodeRawMono, DecodeCompressedMono, ParseHeader, Shows, Val, Pow2;
      var h := ReadHeader();
      var n := Predictor.Max(h.samples, 0);
      outputSize := Wrap32(h.samples * cfg.bytesPerSample);
      var unBytes := 0;
      if h.raw {
        DecodeRawMonoFrame(h);
      } else {
        unBytes := h.unBytes;
        DecodeCompressedMonoFrame(h);
      }
      match cfg.sampleSize {
        case 16 => Interlace.StoreMono(samplesA, 0, lowA, out, cfg.numChannels, n, 2);
        case 24 => Interlace.StoreMono(samplesA, unBytes, lowA, out, cfg.numChannels, n, 3);
        case _ =>
      }
    }

    /** `alac_decode_frame` */
    method DecodeFrame(inbuffer: seq<Byte>, ghost bits: seq<bool>, out: array<Byte>) returns (outputSize: int)
      requires Valid() && Shows(inbuffer, bits)
      requires AlacFrame.DecodeFrame(cfg, bits, Contents(), out[..]).Some?
      modifies reader, errorA, errorB, samplesA, samplesB, lowA, lowB, out
      ensures Valid()
      ensures old(AlacFrame.DecodeFrame(cfg, bits, Contents(), out[..]))
              == Some(Result(Contents(), out[..], outputSize))
    {
      hide DecodeMono, DecodeStereo, Shows, Val, Pow2;
      reader.Open(inbuffer, bits);
      var channels := reader.ReadBits(3);
      outputSize := Wrap32(Wrap32(cfg.maxSamples) * cfg.bytesPerSample);
      match channels {
        case 0 => outputSize := DecodeMonoFrame(out);
        case 1 => outputSize := DecodeStereoFrame(out);
        case _ =>
      }
    }
  }

  /** Sign-extends the first size entries in place. */
  method ExtendArray(a: array<int>, size: nat, n: nat)
    requires size <= a.Length && n >= 1
    modifies a
    ensures a[..size] == ExtendAll(old(a[..size]), n) && a[size..] == old(a[size..])
  {
    hide SignExtend;
    for i := 0 to size
      invariant forall j :: 0 <= j < i ==> a[j] == SignExtend(old(a[j]), n)
      invariant forall j :: i <= j < a.Length ==> a[j] == old(a[j])
    {
      a[i] := SignExtend(a[i], n);
    }
  }

  /** A channel's predictor table. */
  method ReadCoefs(r: Reader, num: nat) returns (coefs: array<int>)
    requires r.Valid() && num < 32 && ParseCoefs(r.bits, r.Pos(), num).Some?
    modifies r`ptr, r`acc
    ensures r.Valid() && fresh(coefs) && coefs.Length == 32
    ensures r.Pos() == old(r.Pos()) + 16 * num
    ensures old(ParseCoefs(r.bits, r.Pos(), num)) == Some(coefs[..num])
  {
    hide Val, Pow2, Wrap16, Shows, CanRead;
    coefs := new int[32];
    ghost var p := r.Pos();
    for i := 0 to num
      invariant r.Valid() && r.Pos() == p + 16 * i
      invariant ParseCoefs(r.bits, p, i) == Some(coefs[..i])
    {
      CoefsPrefix(r.bits, p, i + 1, num);
      var v := r.ReadBits(16);
      coefs[i] := Wrap16(v);
      assert coefs[..i + 1] == coefs[..i] + [Wrap16(v)];
    }
  }

  /** A channel's prediction and Rice parameters. */
  method ReadChannel(r: Reader) returns (kind: nat, quant: nat, riceModifier: nat, num: nat, coefs: array<int>)
    requires r.Valid() && ParseChannel(r.bits, r.Pos()).Some?
    modifies r`ptr, r`acc
    ensures r.Valid() && fresh(coefs) && coefs.Length == 32 && num < 32
    ensures old(ParseChannel(r.bits, r.Pos()))
         == Some((Channel(kind, quant, riceModifier, coefs[..num]), r.Pos()))
  {
    hide Val, ParseCoefs, Shows, CanRead;
    kind := r.ReadBits(4);
    quant := r.ReadBits(4);
    riceModifier := r.ReadBits(3);
    num := r.ReadBits(5);
    assert Pow2(5) == 32;
    coefs := ReadCoefs(r, num);
  }

  /** Values of w bits, one behind the other. */
  method ReadValues(r: Reader, w: nat, n: nat, a: array<int>)
    requires r.Valid() && 1 <= w <= 32 && n <= a.Length
    requires ParseValues(r.bits, r.Pos(), w, n).Some?
    modifies r`ptr, r`acc, a
    ensures r.Valid()
    ensures old(ParseValues(r.bits, r.Pos(), w, n)) == Some((a[..n], r.Pos()))
    ensures a[n..] == old(a[n..])
  {
    hide Val, Pow2, Shows, CanRead, ParseValues;
    ghost var p := r.Pos();
    NoValues(r.bits, p, w);
    assert a[..0] == [];
    for i := 0 to n
      invariant r.Valid() && ParseValues(r.bits, p, w, i) == Some((a[..i], r.Pos()))
      invariant a[n..] == old(a[n..])
    {
      ValuesPrefix(r.bits, p, w, i + 1, n);
      NextValue(r.bits, p, w, i);
      ghost var front := a[..i];
      var x := r.ReadBits(w);
      a[i] := x;
      assert a[..i + 1] == front + [x];
    }
  }

  /** Alternating w-bit values for the two channels. */
  method ReadPairs(r: Reader, w: nat, n: nat, a: array<int>, b: array<int>)
    requires r.Valid() && 1 <= w <= 32 && a != b && n <= a.Length && n <= b.Length
    requires ParsePairs(r.bits, r.Pos(), w, n).Some?
    modifies r`ptr, r`acc, a, b
    ensures r.Valid()
    ensures old(ParsePairs(r.bits, r.Pos(), w, n)) == Some((a[..n], b[..n], r.Pos()))
    ensures a[n..] == old(a[n..]) && b[n..] == old(b[n..])
  {
    hide Val, Pow2, Shows, CanRead, ParsePairs;
    ghost var p := r.Pos();
    NoValues(r.bits, p, w);
    assert a[..0] == [] && b[..0] == [];
    for i := 0 to n
      invariant r.Valid() && ParsePairs(r.bits, p, w, i) == Some((a[..i], b[..i], r.Pos()))
      invariant a[n..] == old(a[n..]) && b[n..] == old(b[n..])
    {
      PairsPrefix(r.bits, p, w, i + 1, n);
      NextPair(r.bits, p, w, i);
      ghost var front, front' := a[..i], b[..i];
      var x := r.ReadBits(w);
      var y := r.ReadBits(w);
      a[i], b[i] := x, y;
      assert a[..i + 1] == front + [x];
      assert b[..i + 1] == front' + [y];
    }
  }

  lemma NoValues(bits: seq<bool>, p: nat, w: nat)
    requires 1 <= w <= 32
    ensures ParseValues(bits, p, w, 0) == Some(([], p)) && ParsePairs(bits, p, w, 0) == Some(([], [], p))
  {}

  /** The value behind the first i ones. */
  lemma NextValue(bits: seq<bool>, p: nat, w: nat, i: nat)
    requires 1 <= w <= 32 && ParseValues(bits, p, w, i + 1).Some?
    ensures ParseValues(bits, p, w, i).Some?
    ensures var (xs, p1) := ParseValues(bits, p, w, i).value;
            && CanRead(bits, p1, w)
            && ParseValues(bits, p, w, i + 1) == Some((xs + [Val(bits[p1..p1 + w])], p1 + w))
  {
    hide Val, CanRead, Pow2;
  }

  lemma NextPair(bits: seq<bool>, p: nat, w: nat, i: nat)
    requires 1 <= w <= 32 && ParsePairs(bits, p, w, i + 1).Some?
    ensures ParsePairs(bits, p, w, i).Some?
    ensures var (xs, ys, p1) := ParsePairs(bits, p, w, i).value;
            && CanRead(bits, p1, w) && CanRead(bits, p1 + w, w)
            && ParsePairs(bits, p, w, i + 1)
               == Some((xs + [Val(bits[p1..p1 + w])], ys + [Val(bits[p1 + w..p1 + w + w])], p1 + w + w))
  {
    hide Val, CanRead, Pow2;
  }

  /** Decodes one channel: residuals into err, samples into out. */
  method DecodeInto(r: Reader, cfg: Config, n: nat, size: nat, kind: nat, quant: nat, riceModifier: nat,
                    num: nat, coefs: array<int>, err: array<int>, out: array<int>)
    requires r.Valid() && err != out && err != coefs && out != coefs && err.Length == out.Length
    requires num < 32 == coefs.Length
    requires DecodeChannel(cfg, r.bits, r.Pos(), n, size, Channel(kind, quant, riceModifier, coefs[..num]), err[..],
                           out[..]).Some?
    modifies r`ptr, r`acc, err, out, coefs
    ensures r.Valid()
    ensures old(DecodeChannel(cfg, r.bits, r.Pos(), n, size, Channel(kind, quant, riceModifier, coefs[..num]),
                              err[..], out[..]))
         == Some((err[..], out[..], r.Pos()))
  {
    hide Rice.Decode, Predictor.Decode, Rice.Initial, Shows;
    ghost var ch := Channel(kind, quant, riceModifier, coefs[..num]);
    ghost var err0, out0 := err[..], out[..];
    var ps := Rice.Params(n, cfg.initialHistory, cfg.kModifier, riceModifier * cfg.historyMult / 4);
    assert ps == RiceParams(cfg, ch, n);
    ghost var st := Rice.Decode(ps, r.bits, size, err.Length, Rice.Initial(ps, r.Pos())).value;
    RiceDecoder.EntropyRiceDecode(r, err, size, ps);
    OverlayIs(err[..], st.out, err0);
    if kind == 0 {
      ghost var predicted := Predictor.Decode(err[..], size, n, ch.coefs, quant).out;
      Predictor.FirAdapt(err, out, size, n, coefs, num, quant);
      OverlayIs(out[..], predicted, out0);
    }
  }

  lemma OverlayIs(s: seq<int>, front: seq<int>, buffer: seq<int>)
    requires |front| <= |s| == |buffer| && s[..|front|] == front && s[|front|..] == buffer[|front|..]
    ensures s == Overlay(front, buffer)
  {
    assert s == s[..|front|] + s[|front|..];
  }

  lemma {:induction false} CoefsPrefix(bits: seq<bool>, p: nat, i: nat, n: nat)
    requires i <= n && ParseCoefs(bits, p, n).Some?
    ensures ParseCoefs(bits, p, i).Some?
  {
    if i < n {
      CoefsPrefix(bits, p, i, n - 1);
    }
  }

  lemma {:induction false} ValuesPrefix(bits: seq<bool>, p: nat, w: nat, i: nat, n: nat)
    requires 1 <= w <= 32 && i <= n && ParseValues(bits, p, w, n).Some?
    ensures ParseValues(bits, p, w, i).Some?
  {
    hide Field;
    if i < n {
      ValuesPrefix(bits, p, w, i, n - 1);
    }
  }

  lemma {:induction false} PairsPrefix(bits: seq<bool>, p: nat, w: nat, i: nat, n: nat)
    requires 1 <= w <= 32 && i <= n && ParsePairs(bits, p, w, n).Some?
    ensures ParsePairs(bits, p, w, i).Some?
  {
    hide Field;
    if i < n {
      PairsPrefix(bits, p, w, i, n - 1);
    }
  }
}

/** Encoder and decoder together, down to the bytes of the frame and of the output. */
module AlacRoundTrip {
  import opened Arith
  import opened Bits
  import opened Strided
  import opened Interlace
  import opened AlacFrame
  import opened AlacEncoder
  import opened RiceEncoder
  import AlacFile
  import Predictor
  import RiceHistory

  /** The parameters an AirPlay sender announces. */
  const ANNOUNCED := Config(0x1000, 0x10, 0x28, 0x0a, 0x0e, 2, 4)

  /** A channel's table as a sender may choose it. */
  predicate Choosable(ch: Channel) {
    && ValidChannel(ch) && ch.riceModifier >= 1
    && (1 <= |ch.coefs| < Predictor.COPY_PREVIOUS ==> ch.quant >= 1)
  }

  /** With these parameters the history fits for every modifier but the largest. */
  lemma AnnouncedFits(ch: Channel)
    requires Choosable(ch)
    ensures Fits(ANNOUNCED, ch, 17) <==> ch.riceModifier <= 6
  {
    Pow2Constants();
    RiceHistory.FitsIs64(RiceParams(ANNOUNCED, ch, 17));
  }

  /** Every 16-bit stereo frame of up to 4096 samples can be encoded with them, and is restored. */
  lemma EveryFrameEncodable(c: Choice, left: seq<int>, right: seq<int>)
    requires 1 <= |left| == |right| <= 0x1000 && c.hasSize && c.unBytes == 0
    requires Predictor.AllInRange(left, 16) && Predictor.AllInRange(right, 16)
    requires c.unused < 16 && c.unused' < 4096 && c.shift < 32 && c.weight < 256 && c.weight <= Pow2(c.shift)
    requires Choosable(c.a) && Choosable(c.b) && c.a.riceModifier <= 6 && c.b.riceModifier <= 6
    ensures Encodable(ANNOUNCED, c, left, right) && AllMixable(c, left, right)
  {
    hide InRange, Pow2, Fits;
    ChoosableUsable(c.a, |left|);
    ChoosableUsable(c.b, |left|);
    AnnouncedFits(c.a);
    AnnouncedFits(c.b);
    forall i | 0 <= i < |left| ensures Mixable(left[i], right[i], c.shift, c.weight, c.unBytes) {
      assert InRange(left[i], 16) && InRange(right[i], 16);
      HighZero(left[i]);
      HighZero(right[i]);
      ProductFitsOf(left[i], right[i], c.weight, 16);
    }
  }

  lemma ChoosableUsable(ch: Channel, size: nat)
    requires Choosable(ch) && size <= 0x1000
    ensures Writes(ANNOUNCED, ch, 17, size)
  {
    assert 10 <= ch.riceModifier * 0x28 / 4 <= 70;
  }

  /** Sample i of both channels can be read from the output. */
  ghost predicate Readable(cfg: Config, left: seq<int>, right: seq<int>, out: seq<Byte>, i: nat)
    requires i < |left| == |right|
  {
    var at, bytes := Start(i, Stride(cfg)), Bytes(cfg);
    && at + 2 * bytes <= |out|
    && SignExtend(FromLe(out[at..at + bytes]), 8 * bytes) == left[i]
    && SignExtend(FromLe(out[at + bytes..at + 2 * bytes]), 8 * bytes) == right[i]
  }

  /**
  The decoder on the bytes of an encoded frame: the output holds every sample of both channels
  in its place, and the reported size is that of the frame.
  */
  method DecodeEncoded(d: AlacFile.Decoder, inbuffer: seq<Byte>, out: array<Byte>,
                       ghost c: Choice, ghost left: seq<int>, ghost right: seq<int>) returns (outputSize: int)
    requires d.Valid() && Encodable(d.cfg, c, left, right) && AllMixable(c, left, right) && d.cfg.numChannels >= 2
    requires inbuffer == Pack(Padded(FrameBits(d.cfg, c, left, right)))
    requires Room(|left|, Stride(d.cfg), 2 * Bytes(d.cfg), out.Length)
    modifies d.reader, d.errorA, d.errorB, d.samplesA, d.samplesB, d.lowA, d.lowB, out
    ensures d.Valid() && outputSize == |left| * d.cfg.bytesPerSample
    ensures forall i :: 0 <= i < |left| ==> Readable(d.cfg, left, right, out[..], i)
  {
    hide FrameBits, Padded, Pack, DecodeFrame, Layout, Room, SampleFrames, Shows, Readable;
    ghost var bits := Padded(FrameBits(d.cfg, c, left, right));
    PaddedShows(FrameBits(d.cfg, c, left, right));
    ghost var buf, out0 := d.Contents(), out[..];
    LosslessFrame(d.cfg, bits, c, left, right, buf, out0);
    outputSize := d.DecodeFrame(inbuffer, bits, out);
    ghost var result := out[..];
    forall i | 0 <= i < |left| ensures Readable(d.cfg, left, right, result, i) {
      InPlace(d.cfg, c, left, right, out0, i);
    }
  }

  lemma InPlace(cfg: Config, c: Choice, left: seq<int>, right: seq<int>, out: seq<Byte>, i: nat)
    requires Encodable(cfg, c, left, right) && cfg.numChannels >= 2 && i < |left|
    requires Room(|left|, Stride(cfg), 2 * Bytes(cfg), |out|)
    ensures Readable(cfg, left, right, Stored(cfg, left, right, out), i)
  {
    hide Layout, SampleFrames, Room, Writes, ValidChannel, FromLe, SignExtend, Start, Pow2;
    assert InRange(left[i], cfg.sampleSize) && InRange(right[i], cfg.sampleSize);
    SamplesInPlace(left, right, Bytes(cfg), Stride(cfg), out, i);
  }
}

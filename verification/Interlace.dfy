/**
Stereo de-interlacing: the mid and difference values become left and right samples, stored
little-endian and channel-interleaved. `Mix` is the encoder's side of each transformation.
*/
module Interlace {
  import opened Arith
  import opened Bits
  import opened Strided

  // ----- little-endian stores -----

  function LeBytes(v: int, n: nat): (bytes: seq<Byte>)
    ensures |bytes| == n
    decreases n
  {
    if n == 0 then [] else [v % 256] + LeBytes(v / 256, n - 1)
  }

  function FromLe(bytes: seq<Byte>): (v: nat) {
    if |bytes| == 0 then 0 else bytes[0] + 256 * FromLe(bytes[1..])
  }

  /** The stored bytes determine the sample. */
  lemma SampleFromBytes(v: int, n: nat)
    requires n >= 1 && InRange(v, 8 * n)
    ensures SignExtend(FromLe(LeBytes(v, n)), 8 * n) == v
  {
    hide FromLe, LeBytes, SignExtend, Pow2;
    var m := LeCongruent(v, n);
    SignExtendUnique(FromLe(LeBytes(v, n)), v, -m, 8 * n);
  }

  lemma {:induction false} LeCongruent(v: int, n: nat) returns (m: int)
    ensures v == FromLe(LeBytes(v, n)) + m * Pow2(8 * n)
    decreases n
  {
    if n == 0 {
      m := v;
    } else {
      m := LeCongruent(v / 256, n - 1);
      assert LeBytes(v, n)[1..] == LeBytes(v / 256, n - 1);
      Pow2Constants();
      Pow2Add(8, 8 * (n - 1));
      MulAssoc(m, 256, Pow2(8 * (n - 1)));
      MulAssoc(256, m, Pow2(8 * (n - 1)));
      DivMod(v, 256);
    }
  }

  function Write(out: seq<Byte>, at: nat, bytes: seq<Byte>): (r: seq<Byte>)
    requires at + |bytes| <= |out|
    ensures |r| == |out|
    ensures forall j :: 0 <= j < |out| ==> r[j] == if at <= j < at + |bytes| then bytes[j - at] else out[j]
  {
    out[..at] + bytes + out[at + |bytes|..]
  }

  lemma WriteTwice(out: seq<Byte>, at: nat, a: seq<Byte>, b: seq<Byte>)
    requires at + |a| + |b| <= |out|
    ensures Write(Write(out, at, a), at + |a|, b) == Write(out, at, a + b)
  {
    var r, s := Write(Write(out, at, a), at + |a|, b), Write(out, at, a + b);
    assert forall j :: 0 <= j < |out| ==> r[j] == s[j];
  }

  /** n frames of `width` bytes fit into the room. */
  predicate Room(n: nat, stride: nat, width: nat, room: nat) {
    n == 0 || Start(n - 1, stride) + width <= room
  }

  lemma RoomEarlier(i: nat, n: nat, stride: nat, width: nat, room: nat)
    requires i < n && Room(n, stride, width, room)
    ensures Room(i, stride, width, room) && Start(i, stride) + width <= room
  {
    StartOrder(i, n - 1, stride);
    if i > 0 {
      StartOrder(i - 1, n - 1, stride);
    }
  }

  /** The output after all frames were stored. */
  function Layout(out: seq<Byte>, frames: seq<seq<Byte>>, stride: nat, width: nat): (r: seq<Byte>)
    requires forall i :: 0 <= i < |frames| ==> |frames[i]| == width
    requires Room(|frames|, stride, width, |out|)
    ensures |r| == |out|
  {
    if |frames| == 0 then out
    else
      var n := |frames| - 1;
      RoomEarlier(n, n + 1, stride, width, |out|);
      Write(Layout(out, frames[..n], stride, width), Start(n, stride), frames[n])
  }

  /** Frames that do not overlap lie in their interleaved places. */
  lemma {:induction false} LayoutPlaces(out: seq<Byte>, frames: seq<seq<Byte>>, stride: nat, width: nat, i: nat, j: nat)
    requires forall i :: 0 <= i < |frames| ==> |frames[i]| == width
    requires Room(|frames|, stride, width, |out|) && width <= stride
    requires i < |frames| && j < width
    ensures Start(i, stride) + j < |out| && Layout(out, frames, stride, width)[Start(i, stride) + j] == frames[i][j]
  {
    hide Start, Layout, Room, Write;
    var n := |frames| - 1;
    var front := frames[..n];
    RoomEarlier(i, n + 1, stride, width, |out|);
    LayoutNext(out, front, stride, width, frames);
    if i < n {
      LayoutPlaces(out, front, stride, width, i, j);
      StartOrder(i, n, stride);
    }
  }

  /** The output shows all frames: different frames leave different outputs. */
  lemma LayoutInjective(out: seq<Byte>, frames: seq<seq<Byte>>, frames': seq<seq<Byte>>, stride: nat, width: nat)
    requires |frames| == |frames'| && width <= stride && Room(|frames|, stride, width, |out|)
    requires forall i :: 0 <= i < |frames| ==> |frames[i]| == width
    requires forall i :: 0 <= i < |frames| ==> |frames'[i]| == width
    requires Layout(out, frames, stride, width) == Layout(out, frames', stride, width)
    ensures frames == frames'
  {
    hide Start, Layout, Room;
    forall i | 0 <= i < |frames| ensures frames[i] == frames'[i] {
      forall j | 0 <= j < width ensures frames[i][j] == frames'[i][j] {
        LayoutPlaces(out, frames, stride, width, i, j);
        LayoutPlaces(out, frames', stride, width, i, j);
      }
    }
  }

  /** The bytes between the frames and behind the last one are untouched. */
  lemma {:induction false} LayoutKeeps(out: seq<Byte>, frames: seq<seq<Byte>>, stride: nat, width: nat, x: nat)
    requires forall i :: 0 <= i < |frames| ==> |frames[i]| == width
    requires Room(|frames|, stride, width, |out|) && x < |out| && Between(x, |frames|, stride, width)
    ensures Layout(out, frames, stride, width)[x] == out[x]
  {
    hide Start;
    if |frames| > 0 {
      var n := |frames| - 1;
      RoomEarlier(n, n + 1, stride, width, |out|);
      LayoutKeeps(out, frames[..n], stride, width, x);
    }
  }

  // ----- the sample transformations -----

  /** The weighted share of the difference that the mid value carries, with a 32-bit product. */
  function Share(difference: int, weight: nat, shift: nat): (s: int) {
    Wrap32(difference * weight) / Pow2(shift)
  }

  /** `deinterlace_16` on one frame: left and right. */
  function Unmix16(a: int, b: int, shift: nat, weight: nat): (lr: (int, int)) {
    if weight != 0 then
      var right := Wrap16(a - Share(b, weight, shift));
      (Wrap16(right + b), right)
    else (Wrap16(a), Wrap16(b))
  }

  /** Puts the uncompressed low bytes under a value. */
  function Append(high: int, low: int, unBytes: nat): (v: int) {
    if unBytes != 0 then high * Pow2(8 * unBytes) + low % Pow2(8 * unBytes) else high
  }

  /** `deinterlace_24` on one frame. */
  function Unmix24(a: int, b: int, shift: nat, weight: nat, unBytes: nat, lowA: int, lowB: int): (lr: (int, int)) {
    var right := if weight != 0 then a - Share(b, weight, shift) else b;
    var left := if weight != 0 then right + b else a;
    (Append(left, lowA, unBytes), Append(right, lowB, unBytes))
  }

  /** The share as an encoder means it, without a limit on the product. */
  function IdealShare(difference: int, weight: nat, shift: nat): (s: int) {
    difference * weight / Pow2(shift)
  }

  /** The encoder's side: mid and difference, or the plain channels. */
  function Mix(left: int, right: int, shift: nat, weight: nat): (ab: (int, int)) {
    if weight != 0 then (right + IdealShare(left - right, weight, shift), left - right) else (left, right)
  }

  /** A share with weight at most one lies between zero and the difference. */
  lemma ShareBetween(d: int, weight: nat, shift: nat)
    requires weight <= Pow2(shift)
    ensures d >= 0 ==> 0 <= IdealShare(d, weight, shift) <= d
    ensures d <= 0 ==> d <= IdealShare(d, weight, shift) <= 0
  {
    var p := Pow2(shift);
    ProductBetween(d, weight, p);
    DivBetween(d * weight, d, p);
  }

  lemma ProductBetween(d: int, w: nat, p: int)
    requires w <= p
    ensures d >= 0 ==> 0 <= d * w <= d * p
    ensures d <= 0 ==> d * p <= d * w <= 0
  {}

  lemma DivBetween(x: int, d: int, p: int)
    requires p > 0
    requires (0 <= x <= d * p) || (d * p <= x <= 0)
    ensures 0 <= x <= d * p ==> 0 <= x / p <= d
    ensures d * p <= x <= 0 ==> d <= x / p <= 0
  {
    DivMod(x, p);
    var q := x / p;
    MulDist(d - q, q, p);
    MultipleApart(d - q, p);
    MultipleApart(q, p);
  }

  /** Mixing keeps samples of n bits within n + 1 bits. */
  lemma MixInRange(left: int, right: int, shift: nat, weight: nat, n: nat)
    requires n >= 1 && InRange(left, n) && InRange(right, n) && weight <= Pow2(shift)
    ensures InRange(Mix(left, right, shift, weight).0, n + 1)
    ensures InRange(Mix(left, right, shift, weight).1, n + 1)
  {
    ShareBetween(left - right, weight, shift);
    assert Pow2(n) == 2 * Pow2(n - 1);
  }

  // ----- what the 32-bit product loses -----

  /** The product of difference and weight is a 32-bit number. */
  predicate ProductFits(difference: int, weight: nat) {
    -0x8000_0000 <= difference * weight < 0x8000_0000
  }

  /** The product of 16-bit samples with any weight fits, and so does that of 24-bit samples with weights up to 128. */
  lemma ProductFitsOf(left: int, right: int, weight: nat, n: nat)
    requires 1 <= n <= 24 && InRange(left, n) && InRange(right, n) && weight < 256 && (n <= 16 || weight <= 128)
    ensures ProductFits(left - right, weight)
  {
    hide Pow2;
    var limit, most := if n <= 16 then 0x8000 else 0x80_0000, if n <= 16 then 255 else 128;
    Pow2Limits();
    Pow2Mono(n - 1, if n <= 16 then 15 else 23);
    var d := left - right;
    assert -2 * limit < d < 2 * limit;
    ProductBetween(d, weight, most);
  }

  /** What is lost is a multiple of 2^(32 - shift), and of 1 at most in either direction for 24-bit samples. */
  lemma ShareLoss(d: int, weight: nat, shift: nat) returns (m: int)
    requires shift < 32 && -0x100_0000 < d < 0x100_0000 && weight < 256
    ensures IdealShare(d, weight, shift) == Share(d, weight, shift) + m * Pow2(32 - shift)
    ensures -1 <= m <= 1 && (m == 0 <==> ProductFits(d, weight))
  {
    hide Pow2;
    var product, p := d * weight, Pow2(shift);
    ProductBetween(d, weight, 256);
    m := (product + 0x8000_0000) / 0x1_0000_0000;
    var rest := Wrap32(product);
    DivMod(product + 0x8000_0000, 0x1_0000_0000);
    assert product == rest + m * 0x1_0000_0000;
    Pow2Add(32 - shift, shift);
    Pow2Limits();
    DivMod(rest, p);
    MulAssoc(m, Pow2(32 - shift), p);
    MulDist(rest / p, m * Pow2(32 - shift), p);
    DivModUnique(product, p, rest / p + m * Pow2(32 - shift), rest % p);
  }

  /** Mid/side round trip for 16-bit samples. */
  lemma Unmix16Inverts(left: int, right: int, shift: nat, weight: nat)
    requires InRange(left, 16) && InRange(right, 16) && weight < 256
    ensures var (a, b) := Mix(left, right, shift, weight); Unmix16(a, b, shift, weight) == (left, right)
  {
    hide Pow2;
    Pow2Limits();
    ProductFitsOf(left, right, weight, 16);
  }

  /** The frame is stored as these samples. */
  predicate StoredAs(lr: (int, int), left: int, right: int, bytes: nat) {
    FrameBytes(lr, bytes) == FrameBytes((left, right), bytes)
  }

  /** The high parts of two 24-bit samples are mixed, the low bytes kept aside, and both unmixed again. */
  function Unmixed24(left: int, right: int, shift: nat, weight: nat, unBytes: nat): (lr: (int, int)) {
    var unit := Pow2(8 * unBytes);
    var (a, b) := Mix(left / unit, right / unit, shift, weight);
    Unmix24(a, b, shift, weight, unBytes, left % unit, right % unit)
  }

  /** The product of a frame's weighted difference fits, or what is lost lies above the stored bytes. */
  predicate Mixable(left: int, right: int, shift: nat, weight: nat, unBytes: nat) {
    weight == 0 || shift <= 8 || ProductFits(left / Pow2(8 * unBytes) - right / Pow2(8 * unBytes), weight)
  }

  /** Unmixing shifts both samples by what the product lost. */
  lemma Unmixed24Is(left: int, right: int, shift: nat, weight: nat, unBytes: nat) returns (m: int)
    requires InRange(left, 24) && InRange(right, 24) && shift < 32 && 0 < weight < 256 && unBytes <= 2
    ensures var loss := m * Pow2(32 - shift + 8 * unBytes);
            Unmixed24(left, right, shift, weight, unBytes) == (left + loss, right + loss)
    ensures m == 0 <==> ProductFits(left / Pow2(8 * unBytes) - right / Pow2(8 * unBytes), weight)
    ensures -1 <= m <= 1 && (m != 0 ==> unBytes == 0)
  {
    hide Share, IdealShare, Pow2, InRange, Unmixed24, Append, ProductFits;
    var unit := Pow2(8 * unBytes);
    HighInRange(left, 24, unBytes);
    HighInRange(right, 24, unBytes);
    var d := left / unit - right / unit;
    DifferenceOf24(left / unit, right / unit, 24 - 8 * unBytes);
    m := ShareLoss(d, weight, shift);
    if unBytes > 0 {
      ProductFitsOf(left / unit, right / unit, weight, 24 - 8 * unBytes);
    }
    var k := Pow2(32 - shift);
    UnmixedByParts(left, right, shift, weight, unBytes, m * k);
    Pow2Add(32 - shift, 8 * unBytes);
    MulAssoc(m, k, unit);
    Shifted(left, m * k, unBytes);
    Shifted(right, m * k, unBytes);
  }

  /** Both high parts come out shifted by the same amount. */
  lemma UnmixedByParts(left: int, right: int, shift: nat, weight: nat, unBytes: nat, off: int)
    requires weight > 0
    requires var d := left / Pow2(8 * unBytes) - right / Pow2(8 * unBytes);
             IdealShare(d, weight, shift) == Share(d, weight, shift) + off
    ensures var unit := Pow2(8 * unBytes);
            Unmixed24(left, right, shift, weight, unBytes)
            == (Append(left / unit + off, left % unit, unBytes), Append(right / unit + off, right % unit, unBytes))
  {
    hide Share, IdealShare, Pow2, Append;
  }

  lemma DifferenceOf24(left: int, right: int, n: nat)
    requires 1 <= n <= 24 && InRange(left, n) && InRange(right, n)
    ensures -0x100_0000 < left - right < 0x100_0000
  {
    hide Pow2;
    Pow2Limits();
    Pow2Mono(n - 1, 23);
  }

  /** The parts of a sample put together, with the high part shifted. */
  lemma Shifted(x: int, off: int, unBytes: nat)
    ensures Append(x / Pow2(8 * unBytes) + off, x % Pow2(8 * unBytes), unBytes) == x + off * Pow2(8 * unBytes)
  {
    var unit := Pow2(8 * unBytes);
    DivMod(x, unit);
    ModSmall(x % unit, unit);
    MulDist(x / unit, off, unit);
  }

  /** The high part of an s-bit sample above u bytes has 8 * u bits less. */
  lemma HighInRange(x: int, s: nat, u: nat)
    requires 8 * u < s && InRange(x, s)
    ensures InRange(x / Pow2(8 * u), s - 8 * u)
  {
    hide Pow2;
    var unit, half := Pow2(8 * u), Pow2(s - 8 * u - 1);
    Pow2Add(s - 8 * u - 1, 8 * u);
    DivMod(x, unit);
    var q := x / unit;
    MulDist(half - 1 - q, q + 1, unit);
    MulDist(q, 1, unit);
    MultipleApart(q + 1 - half, unit);
    MulDist(q + 1 - half, half, unit);
    MulDist(q + half, -half, unit);
    MultipleApart(q + half, unit);
  }

  /** n stored bytes do not show multiples of 2^(8n). */
  lemma {:induction false} LeBytesPeriodic(v: int, k: int, n: nat)
    ensures LeBytes(v + k * Pow2(8 * n), n) == LeBytes(v, n)
    decreases n
  {
    if n > 0 {
      var p := Pow2(8 * (n - 1));
      Pow2Constants();
      Pow2Add(8, 8 * (n - 1));
      MulAssoc(k, 256, p);
      MulAssoc(256, k, p);
      assert v + k * Pow2(8 * n) == v + 256 * (k * p);
      DivMod(v, 256);
      DivModUnique(v + 256 * (k * p), 256, v / 256 + k * p, v % 256);
      LeBytesPeriodic(v / 256, k, n - 1);
    }
  }

  /** They show everything else. */
  lemma LeBytesShow(v: int, off: int, n: nat)
    requires LeBytes(v + off, n) == LeBytes(v, n) && -Pow2(8 * n) < off < Pow2(8 * n)
    ensures off == 0
  {
    hide LeBytes, FromLe, Pow2;
    var a := LeCongruent(v + off, n);
    var b := LeCongruent(v, n);
    MulDist(a - b, b, Pow2(8 * n));
    MultipleApart(a - b, Pow2(8 * n));
  }

  /** Mid/side round trip for 24-bit samples: the stored bytes are right exactly if nothing visible was lost. */
  lemma Unmix24Exactly(left: int, right: int, shift: nat, weight: nat, unBytes: nat)
    requires InRange(left, 24) && InRange(right, 24) && shift < 32 && weight < 256 && unBytes <= 2
    ensures StoredAs(Unmixed24(left, right, shift, weight, unBytes), left, right, 3)
       <==> Mixable(left, right, shift, weight, unBytes)
  {
    hide Unmixed24, LeBytes, Pow2, InRange;
    if weight == 0 {
      PlainUnmixed24(left, right, shift, unBytes);
    } else {
      var m := Unmixed24Is(left, right, shift, weight, unBytes);
      if shift <= 8 {
        var k := Pow2(8 - shift + 8 * unBytes);
        Pow2Add(8 - shift + 8 * unBytes, 24);
        MulAssoc(m, k, Pow2(24));
        LeBytesPeriodic(left, m * k, 3);
        LeBytesPeriodic(right, m * k, 3);
      } else if m != 0 {
        Pow2Strict(32 - shift, 24);
        var lr := Unmixed24(left, right, shift, weight, unBytes);
        assert lr.1 == right + m * Pow2(32 - shift);
        if LeBytes(lr.1, 3) == LeBytes(right, 3) {
          LeBytesShow(right, m * Pow2(32 - shift), 3);
          assert false;
        }
        FramesDiffer(lr, left, right, 3);
      }
    }
  }

  lemma Pow2Strict(a: nat, b: nat)
    requires a < b
    ensures 0 < Pow2(a) < Pow2(b)
  {
    Pow2Mono(a + 1, b);
  }

  lemma PlainUnmixed24(left: int, right: int, shift: nat, unBytes: nat)
    ensures Unmixed24(left, right, shift, 0, unBytes) == (left, right)
  {
    hide Pow2;
    Shifted(left, 0, unBytes);
    Shifted(right, 0, unBytes);
  }

  lemma FramesDiffer(lr: (int, int), left: int, right: int, bytes: nat)
    requires LeBytes(lr.1, bytes) != LeBytes(right, bytes)
    ensures !StoredAs(lr, left, right, bytes)
  {
    hide LeBytes;
    assert FrameBytes(lr, bytes)[bytes..] == LeBytes(lr.1, bytes);
    assert FrameBytes((left, right), bytes)[bytes..] == LeBytes(right, bytes);
  }

  /** Which mixing parameters restore all 24-bit samples. */
  lemma MixExactly(shift: nat, weight: nat, unBytes: nat)
    requires shift < 32 && weight < 256 && unBytes <= 2
    ensures (forall left, right :: InRange(left, 24) && InRange(right, 24)
              ==> StoredAs(Unmixed24(left, right, shift, weight, unBytes), left, right, 3))
       <==> weight <= 128 || shift <= 8 || unBytes > 0
  {
    hide Unmixed24, StoredAs, Pow2, InRange;
    if weight <= 128 || shift <= 8 || unBytes > 0 {
      forall left, right | InRange(left, 24) && InRange(right, 24)
        ensures StoredAs(Unmixed24(left, right, shift, weight, unBytes), left, right, 3)
      {
        MixSafe(left, right, shift, weight, unBytes);
      }
    } else {
      MixUnsafe(shift, weight);
      Extremes();
    }
  }

  lemma MixSafe(left: int, right: int, shift: nat, weight: nat, unBytes: nat)
    requires InRange(left, 24) && InRange(right, 24) && shift < 32 && weight < 256 && unBytes <= 2
    requires weight <= 128 || shift <= 8 || unBytes > 0
    ensures StoredAs(Unmixed24(left, right, shift, weight, unBytes), left, right, 3)
  {
    hide Unmixed24, StoredAs, Pow2, InRange;
    HighInRange(left, 24, unBytes);
    HighInRange(right, 24, unBytes);
    if weight <= 128 || unBytes > 0 {
      ProductFitsOf(left / Pow2(8 * unBytes), right / Pow2(8 * unBytes), weight, 24 - 8 * unBytes);
    }
    Unmix24Exactly(left, right, shift, weight, unBytes);
  }

  lemma MixUnsafe(shift: nat, weight: nat)
    requires 8 < shift < 32 && 128 < weight < 256
    ensures !StoredAs(Unmixed24(0x7F_FFFF, -0x80_0000, shift, weight, 0), 0x7F_FFFF, -0x80_0000, 3)
  {
    hide Unmixed24, StoredAs, Pow2, InRange;
    Extremes();
    Unmix24Exactly(0x7F_FFFF, -0x80_0000, shift, weight, 0);
  }

  lemma Extremes()
    ensures InRange(0x7F_FFFF, 24) && InRange(-0x80_0000, 24) && Pow2(0) == 1
  {
    Pow2Limits();
  }

  /** A frame that is not restored: the lowest right sample comes out as zero. */
  lemma WeightedLoss()
    ensures Unmixed24(0x7F_FFFF, -0x80_0000, 9, 255, 0) == (0xFF_FFFF, 0)
  {
    assert Pow2(0) == 1 && Pow2(9) == 512;
    assert Wrap32(0xFF_FFFF * 255) == 0xFF_FFFF * 255 - 0x1_0000_0000;
  }

  // ----- the source's loops -----

  /** A weighted frame shifts 32-bit numbers, by less than 32. */
  predicate Shiftable(n: nat, shift: nat, weight: nat) {
    n == 0 || weight == 0 || shift < 32
  }

  function FrameBytes(lr: (int, int), bytes: nat): (frame: seq<Byte>)
    ensures |frame| == 2 * bytes
  {
    LeBytes(lr.0, bytes) + LeBytes(lr.1, bytes)
  }

  function Frames16(a: seq<int>, b: seq<int>, n: nat, shift: nat, weight: nat): (frames: seq<seq<Byte>>)
    requires n <= |a| && n <= |b|
    ensures |frames| == n && forall i :: 0 <= i < n ==> |frames[i]| == 4
    ensures forall i :: 0 <= i < n ==> frames[i] == FrameBytes(Unmix16(a[i], b[i], shift, weight), 2)
  {
    seq(n, i requires 0 <= i < n => FrameBytes(Unmix16(a[i], b[i], shift, weight), 2))
  }

  function Frames24(a: seq<int>, b: seq<int>, n: nat, shift: nat, weight: nat,
                    unBytes: nat, lowA: seq<int>, lowB: seq<int>): (frames: seq<seq<Byte>>)
    requires n <= |a| && n <= |b| && n <= |lowA| && n <= |lowB|
    ensures |frames| == n && forall i :: 0 <= i < n ==> |frames[i]| == 6
    ensures forall i :: 0 <= i < n ==>
              frames[i] == FrameBytes(Unmix24(a[i], b[i], shift, weight, unBytes, lowA[i], lowB[i]), 3)
  {
    seq(n, i requires 0 <= i < n => FrameBytes(Unmix24(a[i], b[i], shift, weight, unBytes, lowA[i], lowB[i]), 3))
  }

  function MonoFrames(a: seq<int>, n: nat, unBytes: nat, low: seq<int>, bytes: nat): (frames: seq<seq<Byte>>)
    requires n <= |a| && n <= |low|
    ensures |frames| == n && forall i :: 0 <= i < n ==> |frames[i]| == bytes
    ensures forall i :: 0 <= i < n ==> frames[i] == LeBytes(Append(a[i], low[i], unBytes), bytes)
  {
    seq(n, i requires 0 <= i < n => LeBytes(Append(a[i], low[i], unBytes), bytes))
  }

  /** Stores the n low bytes of v, least significant first. */
  method Store(out: array<Byte>, at: nat, v: int, n: nat)
    requires at + n <= out.Length
    modifies out
    ensures out[..] == Write(old(out[..]), at, LeBytes(v, n))
  {
    var rest := v;
    for i := 0 to n
      invariant LeBytes(v, n)[i..] == LeBytes(rest, n - i)
      invariant out[..] == Write(old(out[..]), at, LeBytes(v, n)[..i])
    {
      out[at + i] := rest % 256;
      rest := rest / 256;
    }
  }

  /** Stores both samples of a frame next to each other. */
  method StoreFrame(out: array<Byte>, at: nat, left: int, right: int, n: nat)
    requires at + 2 * n <= out.Length
    modifies out
    ensures out[..] == Write(old(out[..]), at, FrameBytes((left, right), n))
  {
    hide LeBytes, Write;
    WriteTwice(out[..], at, LeBytes(left, n), LeBytes(right, n));
    Store(out, at, left, n);
    Store(out, at + n, right, n);
  }

  /** One more frame on top of the frames stored so far. */
  lemma LayoutNext(out: seq<Byte>, frames: seq<seq<Byte>>, stride: nat, width: nat, next: seq<seq<Byte>>)
    requires |next| == |frames| + 1 && next[..|frames|] == frames
    requires forall i :: 0 <= i < |next| ==> |next[i]| == width
    requires Room(|next|, stride, width, |out|)
    ensures Room(|frames|, stride, width, |out|) && Start(|frames|, stride) + width <= |out|
    ensures Layout(out, next, stride, width)
         == Write(Layout(out, frames, stride, width), Start(|frames|, stride), next[|frames|])
  {
    RoomEarlier(|frames|, |next|, stride, width, |out|);
  }

  lemma LayoutNone(out: seq<Byte>, stride: nat, width: nat)
    ensures Layout(out, [], stride, width) == out
  {}

  /** `deinterlace_16` */
  method Deinterlace16(a: array<int>, b: array<int>, out: array<Byte>, numChannels: nat, numSamples: nat,
                       shift: nat, weight: nat)
    requires numSamples <= a.Length && numSamples <= b.Length
    requires Room(numSamples, 2 * numChannels, 4, out.Length) && Shiftable(numSamples, shift, weight)
    modifies out
    ensures out[..] == Layout(old(out[..]), Frames16(a[..], b[..], numSamples, shift, weight), 2 * numChannels, 4)
  {
    hide Write, LeBytes, FrameBytes, Share, Wrap16, Start, Layout;
    ghost var before, stride := out[..], 2 * numChannels;
    LayoutNone(before, stride, 4);
    for i := 0 to numSamples
      invariant Room(i, stride, 4, out.Length)
      invariant out[..] == Layout(before, Frames16(a[..], b[..], i, shift, weight), stride, 4)
    {
      RoomEarlier(i, numSamples, stride, 4, out.Length);
      StartOrder(i, i + 1, stride);
      var left, right;
      if weight != 0 {
        right := Wrap16(a[i] - Share(b[i], weight, shift));
        left := Wrap16(right + b[i]);
      } else {
        left, right := Wrap16(a[i]), Wrap16(b[i]);
      }
      var at := Start(i, 2 * numChannels);
      LayoutNext(before, Frames16(a[..], b[..], i, shift, weight), stride, 4,
                 Frames16(a[..], b[..], i + 1, shift, weight));
      StoreFrame(out, at, left, right, 2);
    }
  }

  /** `deinterlace_24` */
  method Deinterlace24(a: array<int>, b: array<int>, unBytes: nat, lowA: array<int>, lowB: array<int>,
                       out: array<Byte>, numChannels: nat, numSamples: nat, shift: nat, weight: nat)
    requires numSamples <= a.Length && numSamples <= b.Length
    requires numSamples <= lowA.Length && numSamples <= lowB.Length
    requires Room(numSamples, 3 * numChannels, 6, out.Length) && Shiftable(numSamples, shift, weight)
    modifies out
    ensures out[..] == Layout(old(out[..]), Frames24(a[..], b[..], numSamples, shift, weight, unBytes, lowA[..],
                                                     lowB[..]),
                              3 * numChannels, 6)
  {
    hide Write, LeBytes, FrameBytes, Share, Append, Start, Layout;
    ghost var before, stride := out[..], 3 * numChannels;
    LayoutNone(before, stride, 6);
    for i := 0 to numSamples
      invariant Room(i, stride, 6, out.Length)
      invariant out[..] == Layout(before, Frames24(a[..], b[..], i, shift, weight, unBytes, lowA[..], lowB[..]),
                                  stride, 6)
    {
      RoomEarlier(i, numSamples, stride, 6, out.Length);
      StartOrder(i, i + 1, stride);
      var left, right;
      if weight != 0 {
        right := a[i] - Share(b[i], weight, shift);
        left := right + b[i];
      } else {
        left, right := a[i], b[i];
      }
      left := Append(left, lowA[i], unBytes);
      right := Append(right, lowB[i], unBytes);
      var at := Start(i, 3 * numChannels);
      LayoutNext(before, Frames24(a[..], b[..], i, shift, weight, unBytes, lowA[..], lowB[..]), stride, 6,
                 Frames24(a[..], b[..], i + 1, shift, weight, unBytes, lowA[..], lowB[..]));
      StoreFrame(out, at, left, right, 3);
    }
  }

  /** The output loops of a mono frame, for two or three bytes a sample. */
  method StoreMono(a: array<int>, unBytes: nat, low: array<int>, out: array<Byte>, numChannels: nat, numSamples: nat,
                   bytes: nat)
    requires numSamples <= a.Length && numSamples <= low.Length
    requires Room(numSamples, bytes * numChannels, bytes, out.Length)
    modifies out
    ensures out[..] == Layout(old(out[..]), MonoFrames(a[..], numSamples, unBytes, low[..], bytes),
                              bytes * numChannels, bytes)
  {
    hide Write, LeBytes, Append, Start;
    ghost var before := out[..];
    var stride := bytes * numChannels;
    for i := 0 to numSamples
      invariant Room(i, stride, bytes, out.Length)
      invariant out[..] == Layout(before, MonoFrames(a[..], i, unBytes, low[..], bytes), stride, bytes)
    {
      RoomEarlier(i, numSamples, stride, bytes, out.Length);
      StartOrder(i, i + 1, stride);
      LayoutNext(before, MonoFrames(a[..], i, unBytes, low[..], bytes), stride, bytes,
                 MonoFrames(a[..], i + 1, unBytes, low[..], bytes));
      var sample := Append(a[i], low[i], unBytes);
      Store(out, Start(i, stride), sample, bytes);
    }
  }
}

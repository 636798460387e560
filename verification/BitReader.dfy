/**
The bit reader of the ALAC decoder: a byte pointer and a bit accumulator that together
denote one position in the bit stream. Every operation is proved against that position.
*/
module BitReader {
  import opened Arith
  import opened Bits

  /** The three bytes that `readbits_16` loads at position p exist. */
  predicate Window(bits: seq<bool>, p: nat) {
    p / 8 * 8 + 24 <= |bits|
  }

  /** `readbits` of n bits at position p loads only bytes that exist. */
  predicate CanRead(bits: seq<bool>, p: nat, n: nat)
    requires 1 <= n <= 32
    ensures CanRead(bits, p, n) ==> p + n <= |bits|
  {
    Window(bits, if n > 16 then p + 16 else p)
  }

  /** Positions inside a stream that is followed by two more bytes can be read. */
  lemma WindowInside(bits: seq<bool>, p: nat, end: nat)
    requires p < end && end + 16 <= |bits| && |bits| % 8 == 0
    ensures Window(bits, p)
  {}

  /** All positions of a stream can be read exactly if two whole bytes follow the byte of its last bit. */
  lemma PaddingExactly(bits: seq<bool>, end: nat)
    requires 1 <= end <= |bits| && |bits| % 8 == 0
    ensures (forall p :: 0 <= p < end ==> Window(bits, p)) <==> (end + 7) / 8 * 8 + 16 <= |bits|
  {
    if !((end + 7) / 8 * 8 + 16 <= |bits|) {
      assert !Window(bits, end - 1);
    }
  }

  /** Reading a + b bits is reading a bits, then b bits. */
  lemma ReadSplit(bits: seq<bool>, p: nat, a: nat, b: nat)
    requires p + a + b <= |bits|
    ensures Val(bits[p..p + a + b]) == Val(bits[p..p + a]) * Pow2(b) + Val(bits[p + a..p + a + b])
  {
    assert bits[p..p + a + b] == bits[p..p + a] + bits[p + a..p + a + b];
    ValConcat(bits[p..p + a], bits[p + a..p + a + b]);
  }

  /** The 24-bit window loaded from three consecutive bytes. */
  lemma LoadWindow(data: seq<Byte>, s: seq<bool>, ptr: nat)
    requires Shows(data, s) && ptr + 3 <= |data|
    ensures Val(s[8 * ptr..8 * ptr + 24])
         == data[ptr] as int * 65536 + data[ptr + 1] as int * 256 + data[ptr + 2]
  {
    hide Val, Pow2;
    var p := 8 * ptr;
    Pow2Constants();
    assert Val(s[8 * (ptr + 1)..8 * (ptr + 1) + 8]) == data[ptr + 1];
    assert Val(s[8 * (ptr + 2)..8 * (ptr + 2) + 8]) == data[ptr + 2];
    ReadSplit(s, p, 8, 8);
    ReadSplit(s, p, 16, 8);
  }

  lemma SliceOfSlice(s: seq<bool>, p: nat, n: nat, a: nat, b: nat)
    requires p + n <= |s| && a + b <= n
    ensures s[p..p + n][a..a + b] == s[p + a..p + a + b]
  {
    var x, y := s[p..p + n][a..a + b], s[p + a..p + a + b];
    assert |x| == |y|;
    assert forall i :: 0 <= i < b ==> x[i] == y[i];
  }

  /** Shift left over the bits already read, mask to 24 bits, shift right: the next bits. */
  lemma ReadWindow(data: seq<Byte>, s: seq<bool>, ptr: nat, acc: nat, bits: nat, loaded: int)
    requires Shows(data, s) && ptr + 3 <= |data| && acc < 8 && bits <= 16
    requires loaded == data[ptr] as int * 65536 + data[ptr + 1] as int * 256 + data[ptr + 2]
    ensures loaded * Pow2(acc) % 0x100_0000 / Pow2(24 - bits)
         == Val(s[8 * ptr + acc..8 * ptr + acc + bits])
  {
    hide Val, Pow2;
    var p := 8 * ptr;
    var w := s[p..p + 24];
    LoadWindow(data, s, ptr);
    WindowExtract(w, acc, bits);
    Pow2Constants();
    SliceOfSlice(s, p, 24, acc, bits);
  }

  class Reader {
    var data: seq<Byte>
    var ptr: nat  // input_buffer, as an offset into data
    var acc: int  // input_buffer_bitaccumulator
    ghost var bits: seq<bool>

    constructor ()
      ensures Valid() && data == [] && Pos() == 0
    {
      data, ptr, acc, bits := [], 0, 0, [];
    }

    ghost predicate Valid()
      reads this
    {
      0 <= acc < 8 && Shows(data, bits)
    }

    ghost function Pos(): nat
      requires 0 <= acc
      reads this`ptr, this`acc
    {
      8 * ptr + acc
    }

    /** Points the reader at the start of a frame. */
    method Open(inbuffer: seq<Byte>, ghost stream: seq<bool>)
      requires Shows(inbuffer, stream)
      modifies this
      ensures Valid() && data == inbuffer && bits == stream && Pos() == 0
    {
      data, ptr, acc, bits := inbuffer, 0, 0, stream;
    }

    /** `readbits_16` */
    method ReadBits16(n: nat) returns (result: nat)
      requires Valid() && 1 <= n <= 16
      requires Window(bits, Pos())
      modifies this`ptr, this`acc
      ensures Valid() && Pos() == old(Pos()) + n
      ensures result == Val(bits[old(Pos())..Pos()])
    {
      assert Pos() / 8 == ptr;
      var loaded := data[ptr] as int * 65536 + data[ptr + 1] as int * 256 + data[ptr + 2];
      ReadWindow(data, bits, ptr, acc, n, loaded);
      result := loaded * Pow2(acc) % 0x100_0000 / Pow2(24 - n);
      var newAccumulator := acc + n;
      ptr := ptr + newAccumulator / 8;
      acc := newAccumulator % 8;
    }

    /** `readbits` */
    method ReadBits(n: nat) returns (result: nat)
      requires Valid() && 1 <= n <= 32
      requires CanRead(bits, Pos(), n)
      modifies this`ptr, this`acc
      ensures Valid() && Pos() == old(Pos()) + n
      ensures result == Val(bits[old(Pos())..Pos()])
      ensures result < Pow2(n)
    {
      ghost var p := Pos();
      if n > 16 {
        var high := ReadBits16(16);
        var low := ReadBits16(n - 16);
        result := Join(high, low, n - 16);
        ReadSplit(bits, p, 16, n - 16);
        assert Pos() == p + 16 + (n - 16);
      } else {
        result := ReadBits16(n);
      }
      ValBound(bits[p..Pos()]);
    }

    /** `readbit` */
    method ReadBit() returns (result: bool)
      requires Valid() && Pos() < |bits|
      modifies this`ptr, this`acc
      ensures Valid() && Pos() == old(Pos()) + 1
      ensures result == old(bits[Pos()])
    {
      assert Pos() / 8 == ptr && Pos() % 8 == acc;
      result := data[ptr] * Pow2(acc) / 128 % 2 == 1;
      ShiftedBit(data[ptr], acc);
      ShowsBit(data, bits, ptr, acc);
      var newAccumulator := acc + 1;
      ptr := ptr + newAccumulator / 8;
      acc := newAccumulator % 8;
    }

    /** `unreadbits`: moves back over any number of byte borders. */
    method UnreadBits(n: nat)
      requires Valid() && n <= Pos()
      modifies this`ptr, this`acc
      ensures Valid() && Pos() == old(Pos()) - n
    {
      var newAccumulator := acc - n;
      ptr := ptr + newAccumulator / 8;
      acc := newAccumulator % 8;  // never negative, so the source's sign correction never applies
    }
  }

  /** `high << n | low`, for an n-bit low part. */
  function Join(high: nat, low: nat, n: nat): (r: nat)
    ensures r == high * Pow2(n) + low
  {
    MulLess(-1, high, Pow2(n));
    high * Pow2(n) + low
  }

  /** Shifting a byte left by a and right by seven leaves bit a at the bottom. */
  lemma ShiftedBit(b: Byte, a: nat)
    requires a < 8
    ensures b * Pow2(a) / 128 % 2 == 1 <==> BitAt(b, a)
  {
    hide Pow2;
    Pow2Constants();
    Pow2Add(7 - a, a);
    DivMod(b, Pow2(7 - a));
    var q, r := b / Pow2(7 - a), b % Pow2(7 - a);
    MulDist(q * Pow2(7 - a), r, Pow2(a));
    MulAssoc(q, Pow2(7 - a), Pow2(a));
    MulLess(r, Pow2(7 - a), Pow2(a));
    DivModUnique(b * Pow2(a), 128, q, r * Pow2(a));
  }
}

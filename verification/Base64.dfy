/**
Base64 (section 4 of RFC 4648). `Encode` and `Decode` are the source's group-wise rules,
`EncodeLoop` and `DecodeLoop` its loops. `EncodesBits` states independently what the text means:
its six-bit values spell the bits of the data, filled up with zeros.
*/
module Base64 {
  import opened Arith
  import opened Bits

  const UPPER := "ABCDEFGHIJKLMNOPQRSTUVWXYZ"
  const LOWER := "abcdefghijklmnopqrstuvwxyz"
  const DIGITS := "0123456789"
  const SIGNS := "+/"

  /** base64Chars */
  const TABLE := UPPER + LOWER + DIGITS + SIGNS

  /** `pos_of_char`: characters outside the alphabet count as zero. */
  function PosOf(c: char): (p: nat)
    ensures p < 64
  {
    if 'A' <= c <= 'Z' then c as int - 'A' as int
    else if 'a' <= c <= 'z' then c as int - 'a' as int + 26
    else if '0' <= c <= '9' then c as int - '0' as int + 52
    else if c == '+' then 62
    else if c == '/' then 63
    else 0
  }

  function CharOf(v: nat): (c: char)
    requires v < 64
  {
    TABLE[v]
  }

  predicate InAlphabet(c: char) {
    'A' <= c <= 'Z' || 'a' <= c <= 'z' || '0' <= c <= '9' || c == '+' || c == '/'
  }

  lemma UpperAt(v: nat)
    requires v < 26
    ensures UPPER[v] as int == 'A' as int + v
  {}

  lemma LowerAt(v: nat)
    requires v < 26
    ensures LOWER[v] as int == 'a' as int + v
  {}

  lemma DigitAt(v: nat)
    requires v < 10
    ensures DIGITS[v] as int == '0' as int + v
  {}

  /** The table and the position function are inverse to each other on the alphabet. */
  lemma TablePosition(v: nat)
    requires v < 64
    ensures InAlphabet(CharOf(v)) && PosOf(CharOf(v)) == v
  {
    hide CharOf, PosOf, InAlphabet;
    CharOfIs(v);
    if v < 26 {
      UpperAt(v);
    } else if v < 52 {
      LowerAt(v - 26);
    } else if v < 62 {
      DigitAt(v - 52);
    } else {
      SignAt(v - 62);
    }
    PositionOf(CharOf(v), v);
  }

  /** The position of a character, by its code. */
  lemma PositionOf(c: char, v: nat)
    requires v < 64
    requires v < 26 ==> c as int == 'A' as int + v
    requires 26 <= v < 52 ==> c as int == 'a' as int + v - 26
    requires 52 <= v < 62 ==> c as int == '0' as int + v - 52
    requires 62 <= v ==> c == if v == 62 then '+' else '/'
    ensures InAlphabet(c) && PosOf(c) == v
  {}

  lemma SignAt(v: nat)
    requires v < 2
    ensures SIGNS[v] == if v == 0 then '+' else '/'
  {}

  /** The parts of the table. */
  lemma CharOfIs(v: nat)
    requires v < 64
    ensures |UPPER| == 26 && |LOWER| == 26 && |DIGITS| == 10 && |SIGNS| == 2
    ensures CharOf(v) == if v < 26 then UPPER[v] else if v < 52 then LOWER[v - 26]
                         else if v < 62 then DIGITS[v - 52] else SIGNS[v - 62]
  {
    Widths();
    Joined(UPPER, LOWER, DIGITS, SIGNS, v);
  }

  lemma Widths()
    ensures |UPPER| == 26 && |LOWER| == 26 && |DIGITS| == 10 && |SIGNS| == 2
  {}

  lemma Joined(a: string, b: string, c: string, d: string, v: nat)
    requires |a| == 26 && |b| == 26 && |c| == 10 && |d| == 2 && v < 64
    ensures (a + b + c + d)[v] == if v < 26 then a[v] else if v < 52 then b[v - 26]
                                  else if v < 62 then c[v - 52] else d[v - 62]
  {}

  lemma PositionTable(c: char)
    requires InAlphabet(c)
    ensures CharOf(PosOf(c)) == c
  {
    hide CharOf;
    TablePosition(PosOf(c));
  }

  // ----- the rules -----

  /** The text of up to three bytes. */
  function Group(data: seq<Byte>, padding: bool): (text: string)
    requires 1 <= |data| <= 3
  {
    if |data| == 1 then
      [CharOf(data[0] / 4), CharOf(data[0] % 4 * 16)] + (if padding then "==" else "")
    else if |data| == 2 then
      [CharOf(data[0] / 4), CharOf(data[0] % 4 * 16 + data[1] / 16),
          CharOf(data[1] % 16 * 4)] + (if padding then "=" else "")
    else
      [CharOf(data[0] / 4), CharOf(data[0] % 4 * 16 + data[1] / 16), CharOf(data[1] % 16 * 4 + data[2] / 64),
          CharOf(data[2] % 64)]
  }

  /** `base64Encode` */
  function Encode(data: seq<Byte>, padding: bool): (text: string) {
    if |data| == 0 then ""
    else
      var n := Min(|data|, 3);
      Group(data[..n], padding) + Encode(data[n..], padding)
  }

  /** The bytes of four characters. */
  function Ungroup(c0: char, c1: char, c2: char, c3: char): (data: seq<Byte>) {
    var p0, p1, p2, p3 := PosOf(c0), PosOf(c1), PosOf(c2), PosOf(c3);
    [p0 * 4 + p1 / 16] +
    (if c2 == '=' then []
     else [p1 % 16 * 16 + p2 / 4] + (if c3 == '=' || c3 == '.' then [] else [p2 % 4 * 64 + p3]))
  }

  /** `base64Decode` */
  function Decode(text: string): (data: seq<Byte>)
    requires |text| % 4 == 0
  {
    if |text| == 0 then [] else Ungroup(text[0], text[1], text[2], text[3]) + Decode(text[4..])
  }

  /** The lengths that the decoder can read: a string shows a zero character behind its end, and nothing further. */
  predicate Readable(text: string) {
    |text| % 4 == 0 || |text| % 4 == 3
  }

  /** The text as the decoder reads it. */
  function Terminated(text: string): (t: string)
    requires Readable(text)
    ensures |t| % 4 == 0
  {
    if |text| % 4 == 0 then text else text + ['\0']
  }

  /** A full stop in the last place ends the data like an equals sign. */
  lemma StopEnds(c0: char, c1: char, c2: char)
    ensures Ungroup(c0, c1, c2, '.') == Ungroup(c0, c1, c2, '=')
    ensures c2 != '=' ==> |Ungroup(c0, c1, c2, '.')| == 2
  {}

  /** Other characters count as the first one of the table. */
  lemma ForeignIsFirst(c: char)
    requires !InAlphabet(c)
    ensures PosOf(c) == PosOf('A') == 0
  {}

  // ----- round trips -----

  /** Three eight-bit values as four six-bit values and back. */
  lemma SixAndEight(b0: Byte, b1: Byte, b2: Byte, p1: int, p2: int)
    requires p1 == b0 as int % 4 * 16 + b1 as int / 16 && p2 == b1 as int % 16 * 4 + b2 as int / 64
    ensures b0 / 4 * 4 + p1 / 16 == b0 && p1 % 16 * 16 + p2 / 4 == b1 && p2 % 4 * 64 + b2 % 64 == b2
  {}

  lemma UngroupOne(b0: Byte)
    ensures Ungroup(CharOf(b0 / 4), CharOf(b0 % 4 * 16), '=', '=') == [b0]
  {
    hide CharOf, InAlphabet, PosOf;
    TablePosition(b0 / 4);
    TablePosition(b0 % 4 * 16);
  }

  lemma UngroupTwo(b0: Byte, b1: Byte, p1: nat, p2: nat)
    requires p1 == b0 as int % 4 * 16 + b1 as int / 16 && p2 == b1 as int % 16 * 4
    ensures p1 < 64 && p2 < 64 && Ungroup(CharOf(b0 / 4), CharOf(p1), CharOf(p2), '=') == [b0, b1]
  {
    hide CharOf, InAlphabet, PosOf;
    SixAndEight(b0, b1, 0, p1, p2);
    TablePosition(b0 / 4);
    TablePosition(p1);
    TablePosition(p2);
    SignsOutside(CharOf(p2));
  }

  lemma UngroupThree(b0: Byte, b1: Byte, b2: Byte, p1: nat, p2: nat)
    requires p1 == b0 as int % 4 * 16 + b1 as int / 16 && p2 == b1 as int % 16 * 4 + b2 as int / 64
    ensures p1 < 64 && p2 < 64 && Ungroup(CharOf(b0 / 4), CharOf(p1), CharOf(p2), CharOf(b2 % 64)) == [b0, b1, b2]
  {
    hide CharOf, InAlphabet, PosOf;
    SixAndEight(b0, b1, b2, p1, p2);
    TablePosition(b0 / 4);
    TablePosition(p1);
    TablePosition(p2);
    TablePosition(b2 % 64);
    SignsOutside(CharOf(p2));
    SignsOutside(CharOf(b2 % 64));
  }

  lemma UngroupGroup(data: seq<Byte>)
    requires 1 <= |data| <= 3
    ensures |Group(data, true)| == 4
    ensures var t := Group(data, true); Ungroup(t[0], t[1], t[2], t[3]) == data
  {
    hide CharOf, Ungroup;
    if |data| == 1 {
      UngroupOne(data[0]);
    } else if |data| == 2 {
      UngroupTwo(data[0], data[1], data[0] as int % 4 * 16 + data[1] as int / 16, data[1] as int % 16 * 4);
    } else {
      UngroupThree(data[0], data[1], data[2],
                   data[0] as int % 4 * 16 + data[1] as int / 16, data[1] as int % 16 * 4 + data[2] as int / 64);
    }
  }

  lemma SignsOutside(c: char)
    requires InAlphabet(c)
    ensures c != '=' && c != '.'
  {}

  /** Decoding restores what was encoded with padding, whose length is four per three bytes begun. */
  lemma {:induction false} DecodeEncode(data: seq<Byte>)
    ensures |Encode(data, true)| == (|data| + 2) / 3 * 4
    ensures |Encode(data, true)| % 4 == 0 && Decode(Encode(data, true)) == data
  {
    hide Group, Ungroup, Encode, Decode;
    if |data| == 0 {
      EncodeNothing(true);
      NothingDecoded();
    } else {
      var n := Min(|data|, 3);
      var g, rest := Group(data[..n], true), Encode(data[n..], true);
      EncodeStep(data, true);
      UngroupGroup(data[..n]);
      DecodeEncode(data[n..]);
      DecodeFirst(g, rest);
      assert data[..n] + data[n..] == data;
    }
  }

  /** Two bytes without padding are followed by the byte that the character behind the end adds. */
  lemma UngroupUnpadded(b0: Byte, b1: Byte, p1: nat, p2: nat)
    requires p1 == b0 as int % 4 * 16 + b1 as int / 16 && p2 == b1 as int % 16 * 4
    ensures p1 < 64 && p2 < 64 && Ungroup(CharOf(b0 / 4), CharOf(p1), CharOf(p2), '\0') == [b0, b1, 0]
  {
    hide CharOf, InAlphabet;
    SixAndEight(b0, b1, 0, p1, p2);
    TablePosition(b0 / 4);
    TablePosition(p1);
    TablePosition(p2);
    SignsOutside(CharOf(p2));
  }

  lemma GroupWhole(data: seq<Byte>)
    requires |data| == 3
    ensures Group(data, true) == Group(data, false)
  {}

  /**
  What decoding makes of text without padding: it can be read unless one byte is left over, and is
  restored exactly if none is; two bytes left over are followed by a zero byte.
  */
  lemma {:induction false} DecodeUnpadded(data: seq<Byte>)
    ensures Readable(Encode(data, false)) <==> |data| % 3 != 1
    ensures |data| % 3 != 1 ==> Decode(Terminated(Encode(data, false))) == if |data| % 3 == 0 then data else data + [0]
  {
    hide Ungroup, Decode, Group, Encode;
    if |data| < 3 {
      UnpaddedTail(data);
    } else {
      var n := |data|;
      var g, rest := Group(data[..3], false), Encode(data[3..], false);
      assert Encode(data, false) == g + rest by { EncodeFirst(data); }
      GroupWhole(data[..3]);
      UngroupGroup(data[..3]);
      DecodeUnpadded(data[3..]);
      assert data[..3] + data[3..] == data;
      if n % 3 != 1 {
        assert Terminated(g + rest) == g + Terminated(rest);
        DecodeFirst(g, Terminated(rest));
      }
    }
  }

  lemma EncodeFirst(data: seq<Byte>)
    requires |data| >= 3
    ensures Encode(data, false) == Group(data[..3], false) + Encode(data[3..], false)
  {}

  lemma DecodeFirst(g: string, rest: string)
    requires |g| == 4 && |rest| % 4 == 0
    ensures Decode(g + rest) == Ungroup(g[0], g[1], g[2], g[3]) + Decode(rest)
  {
    hide Ungroup;
    assert (g + rest)[4..] == rest;
  }

  lemma UnpaddedTail(data: seq<Byte>)
    requires |data| < 3
    ensures Readable(Encode(data, false)) <==> |data| != 1
    ensures |data| != 1 ==> Decode(Terminated(Encode(data, false))) == if |data| == 0 then data else data + [0]
  {
    hide CharOf, Ungroup, Encode, Group, Decode;
    if |data| == 0 {
      NothingDecoded();
    } else {
      LastGroup(data);
      TailGroup(data);
      if |data| == 2 {
        TailDecoded(data[0], data[1], Encode(data, false));
        assert data + [0] == [data[0], data[1], 0];
      }
    }
  }

  lemma NothingDecoded()
    ensures Encode([], false) == "" && Decode("") == []
  {}

  /** The text of the last one or two bytes. */
  lemma TailGroup(data: seq<Byte>)
    requires 1 <= |data| <= 2
    ensures |Group(data, false)| == |data| + 1
    ensures |data| == 2 ==> Group(data, false)
                            == [CharOf(data[0] / 4), CharOf(data[0] % 4 * 16 + data[1] / 16), CharOf(data[1] % 16 * 4)]
  {
    hide CharOf;
  }

  lemma TailDecoded(b0: Byte, b1: Byte, text: string)
    requires text == [CharOf(b0 / 4), CharOf(b0 % 4 * 16 + b1 / 16), CharOf(b1 % 16 * 4)]
    ensures Decode(Terminated(text)) == [b0, b1, 0]
  {
    hide CharOf, Ungroup, Decode;
    UngroupUnpadded(b0, b1, b0 as int % 4 * 16 + b1 as int / 16, b1 as int % 16 * 4);
    var t := Terminated(text);
    assert t == t + "";
    DecodeFirst(t, "");
    NothingDecoded();
  }

  lemma LastGroup(data: seq<Byte>)
    requires 1 <= |data| <= 2
    ensures Encode(data, false) == Group(data, false)
  {
    assert data[..|data|] == data && Encode(data[|data|..], false) == "";
  }

  /** A group as the encoder writes it: no stray bits, and signs only where bytes are missing. */
  predicate CanonicalGroup(c0: char, c1: char, c2: char, c3: char, last: bool) {
    && InAlphabet(c0) && InAlphabet(c1)
    && (|| (InAlphabet(c2) && InAlphabet(c3))
        || (last && InAlphabet(c2) && c3 == '=' && PosOf(c2) % 4 == 0)
        || (last && c2 == '=' && c3 == '=' && PosOf(c1) % 16 == 0))
  }

  predicate Canonical(text: string) {
    && |text| % 4 == 0
    && (|text| > 0 ==> CanonicalGroup(text[0], text[1], text[2], text[3], |text| == 4) && Canonical(text[4..]))
  }

  lemma GroupOfOne(p0: nat, p1: nat)
    requires p0 < 64 && p1 < 64 && p1 % 16 == 0
    ensures Group([p0 * 4 + p1 / 16], true) == [CharOf(p0), CharOf(p1), '=', '=']
  {
    hide CharOf;
    var b0 := p0 * 4 + p1 / 16;
    assert b0 / 4 == p0 && b0 % 4 * 16 == p1;
  }

  lemma GroupOfTwo(p0: nat, p1: nat, p2: nat)
    requires p0 < 64 && p1 < 64 && p2 < 64 && p2 % 4 == 0
    ensures Group([p0 * 4 + p1 / 16, p1 % 16 * 16 + p2 / 4], true) == [CharOf(p0), CharOf(p1), CharOf(p2), '=']
  {
    hide CharOf;
    var b0, b1 := p0 * 4 + p1 / 16, p1 % 16 * 16 + p2 / 4;
    assert b0 / 4 == p0 && b0 % 4 * 16 + b1 / 16 == p1 && b1 % 16 * 4 == p2;
  }

  lemma GroupOfThree(p0: nat, p1: nat, p2: nat, p3: nat)
    requires p0 < 64 && p1 < 64 && p2 < 64 && p3 < 64
    ensures Group([p0 * 4 + p1 / 16, p1 % 16 * 16 + p2 / 4, p2 % 4 * 64 + p3], true)
         == [CharOf(p0), CharOf(p1), CharOf(p2), CharOf(p3)]
  {
    hide CharOf;
    var b0, b1, b2 := p0 * 4 + p1 / 16, p1 % 16 * 16 + p2 / 4, p2 % 4 * 64 + p3;
    assert b0 / 4 == p0 && b0 % 4 * 16 + b1 / 16 == p1 && b1 % 16 * 4 + b2 / 64 == p2 && b2 % 64 == p3;
  }

  lemma GroupUngroup(c0: char, c1: char, c2: char, c3: char, last: bool)
    requires CanonicalGroup(c0, c1, c2, c3, last)
    ensures 1 <= |Ungroup(c0, c1, c2, c3)| <= 3 && (!last ==> |Ungroup(c0, c1, c2, c3)| == 3)
    ensures Group(Ungroup(c0, c1, c2, c3), true) == [c0, c1, c2, c3]
  {
    hide CharOf, PosOf, InAlphabet, Group;
    var p0, p1, p2, p3 := PosOf(c0), PosOf(c1), PosOf(c2), PosOf(c3);
    PositionTable(c0);
    PositionTable(c1);
    if c2 == '=' {
      SignsApart();
      GroupOfOne(p0, p1);
      assert Ungroup(c0, c1, c2, c3) == [p0 * 4 + p1 / 16];
    } else {
      PositionTable(c2);
      if c3 == '=' {
        SignsApart();
        GroupOfTwo(p0, p1, p2);
        assert Ungroup(c0, c1, c2, c3) == [p0 * 4 + p1 / 16, p1 % 16 * 16 + p2 / 4];
      } else {
        PositionTable(c3);
        SignsOutside(c3);
        GroupOfThree(p0, p1, p2, p3);
        assert Ungroup(c0, c1, c2, c3) == [p0 * 4 + p1 / 16, p1 % 16 * 16 + p2 / 4, p2 % 4 * 64 + p3];
      }
    }
  }

  lemma SignsApart()
    ensures !InAlphabet('=')
  {}

  /** Encoding restores every canonical padded text from what it decodes to. */
  lemma {:induction false} EncodeDecode(text: string)
    requires Canonical(text)
    ensures Encode(Decode(text), true) == text
  {
    hide Group, Ungroup, CanonicalGroup, Encode, Decode;
    if |text| == 0 {
      assert text == "";
      NothingDecoded();
      EncodeNothing(true);
    } else {
      var g, rest := Ungroup(text[0], text[1], text[2], text[3]), Decode(text[4..]);
      assert text == text[..4] + text[4..];
      DecodeFirst(text[..4], text[4..]);
      GroupUngroup(text[0], text[1], text[2], text[3], |text| == 4);
      EncodeStep(g + rest, true);
      EncodeDecode(text[4..]);
      if |text| == 4 {
        assert text[4..] == "";
        NothingDecoded();
        EncodeNothing(true);
        assert rest == [] && g + rest == g && g[..|g|] == g && g[|g|..] == [];
      } else {
        assert (g + rest)[..3] == g && (g + rest)[3..] == rest;
      }
      assert text == [text[0], text[1], text[2], text[3]] + text[4..];
    }
  }

  /** The text of the first group, and of the others. */
  lemma EncodeStep(data: seq<Byte>, padding: bool)
    requires |data| > 0
    ensures var n := Min(|data|, 3);
            Encode(data, padding) == Group(data[..n], padding) + Encode(data[n..], padding)
  {
    hide Group;
  }

  /** A group is written canonically, and with signs only where it is short. */
  lemma GroupCanonical(data: seq<Byte>)
    requires 1 <= |data| <= 3
    ensures |Group(data, true)| == 4
    ensures var t := Group(data, true); CanonicalGroup(t[0], t[1], t[2], t[3], true)
    ensures |data| == 3 ==> var t := Group(data, true); CanonicalGroup(t[0], t[1], t[2], t[3], false)
  {
    hide CharOf, InAlphabet, PosOf;
    var b0 := data[0] as int;
    TablePosition(b0 / 4);
    if |data| == 1 {
      TablePosition(b0 % 4 * 16);
    } else {
      var b1 := data[1] as int;
      TablePosition(b0 % 4 * 16 + b1 / 16);
      if |data| == 2 {
        TablePosition(b1 % 16 * 4);
      } else {
        var b2 := data[2] as int;
        TablePosition(b1 % 16 * 4 + b2 / 64);
        TablePosition(b2 % 64);
      }
    }
  }

  /** Everything the encoder writes is canonical. */
  lemma {:induction false} EncodeCanonical(data: seq<Byte>)
    ensures Canonical(Encode(data, true))
  {
    hide Group, CanonicalGroup;
    if |data| > 0 {
      var n := Min(|data|, 3);
      var g, rest := Group(data[..n], true), Encode(data[n..], true);
      GroupCanonical(data[..n]);
      EncodeCanonical(data[n..]);
      assert (g + rest)[4..] == rest;
      if |data| > 3 {
        EncodeNotEmpty(data[n..]);
      } else {
        assert data[n..] == [];
      }
    }
  }

  lemma EncodeNotEmpty(data: seq<Byte>)
    requires |data| > 0
    ensures |Encode(data, true)| > 0
  {
    hide CharOf;
  }

  /** Exactly the canonical texts are restored. */
  lemma EncodeDecodeExactly(text: string)
    requires |text| % 4 == 0
    ensures Encode(Decode(text), true) == text <==> Canonical(text)
  {
    hide Encode, Decode, Canonical;
    EncodeCanonical(Decode(text));
    if Canonical(text) {
      EncodeDecode(text);
    }
  }

  // ----- padding -----

  function WithoutSigns(text: string): (r: string) {
    if |text| == 0 then ""
    else (if text[0] == '=' then "" else [text[0]]) + WithoutSigns(text[1..])
  }

  lemma {:induction false} WithoutSignsConcat(a: string, b: string)
    ensures WithoutSigns(a + b) == WithoutSigns(a) + WithoutSigns(b)
  {
    if |a| == 0 {
      assert a + b == b;
    } else {
      var rest := a[1..];
      WithoutSignsConcat(rest, b);
      assert (a + b)[1..] == rest + b && (a + b)[0] == a[0];
    }
  }

  /** The unpadded text is the padded one without its signs. */
  lemma {:induction false} UnpaddedIs(data: seq<Byte>)
    ensures Encode(data, false) == WithoutSigns(Encode(data, true))
  {
    hide Group, WithoutSigns;
    if |data| == 0 {
      assert WithoutSigns("") == "" by { NoText(); }
    } else {
      var n := Min(|data|, 3);
      GroupUnpadded(data[..n]);
      UnpaddedIs(data[n..]);
      WithoutSignsConcat(Group(data[..n], true), Encode(data[n..], true));
    }
  }

  lemma NoText()
    ensures WithoutSigns("") == ""
  {}

  lemma {:induction false} AlphabetKept(text: string)
    requires forall i :: 0 <= i < |text| ==> InAlphabet(text[i])
    ensures WithoutSigns(text) == text
  {
    if |text| > 0 {
      AlphabetKept(text[1..]);
      assert text == [text[0]] + text[1..];
    }
  }

  lemma SignsDropped()
    ensures WithoutSigns("=") == "" && WithoutSigns("==") == "" && WithoutSigns("") == ""
  {
    assert "=="[1..] == "=" && "="[1..] == "";
  }

  lemma GroupUnpadded(data: seq<Byte>)
    requires 1 <= |data| <= 3
    ensures Group(data, false) == WithoutSigns(Group(data, true))
  {
    hide CharOf, InAlphabet, WithoutSigns;
    var text := Group(data, false);
    forall i | 0 <= i < |text| ensures InAlphabet(text[i]) {
      GroupAlphabet(data, i);
    }
    AlphabetKept(text);
    SignsDropped();
    var signs := if |data| == 1 then "==" else if |data| == 2 then "=" else "";
    assert Group(data, true) == text + signs;
    WithoutSignsConcat(text, signs);
    assert text + "" == text;
  }

  lemma GroupAlphabet(data: seq<Byte>, i: nat)
    requires 1 <= |data| <= 3 && i < |Group(data, false)|
    ensures InAlphabet(Group(data, false)[i])
  {
    hide CharOf, InAlphabet;
    forall v: nat | v < 64 ensures InAlphabet(CharOf(v)) {
      TablePosition(v);
    }
  }

  // ----- the meaning of the text -----

  /** The six-bit values of a text without padding, as bits. */
  function TextBits(text: string): (bs: seq<bool>) {
    if |text| == 0 then [] else ToBits(PosOf(text[0]), 6) + TextBits(text[1..])
  }

  function DataBits(data: seq<Byte>): (bs: seq<bool>) {
    if |data| == 0 then [] else ToBits(data[0], 8) + DataBits(data[1..])
  }

  lemma {:induction false} TextBitsConcat(a: string, b: string)
    ensures TextBits(a + b) == TextBits(a) + TextBits(b)
  {
    hide ToBits, PosOf;
    if |a| == 0 {
      assert a + b == b;
    } else {
      TextBitsConcat(a[1..], b);
      assert (a + b)[1..] == a[1..] + b && (a + b)[0] == a[0];
      assert TextBits(a + b) == ToBits(PosOf(a[0]), 6) + (TextBits(a[1..]) + TextBits(b));
    }
  }

  lemma {:induction false} DataBitsConcat(a: seq<Byte>, b: seq<Byte>)
    ensures DataBits(a + b) == DataBits(a) + DataBits(b)
  {
    hide ToBits;
    if |a| == 0 {
      assert a + b == b;
    } else {
      DataBitsConcat(a[1..], b);
      assert (a + b)[1..] == a[1..] + b && (a + b)[0] == a[0];
      assert DataBits(a + b) == ToBits(a[0], 8) + (DataBits(a[1..]) + DataBits(b));
    }
  }

  /** Bit strings of one length with one value are equal. */
  lemma {:induction false} ValInjective(x: seq<bool>, y: seq<bool>)
    requires |x| == |y| && Val(x) == Val(y)
    ensures x == y
  {
    if |x| > 0 {
      var n := |x| - 1;
      ValInjective(x[..n], y[..n]);
      assert x == x[..n] + [x[n]] && y == y[..n] + [y[n]];
    }
  }

  /** Appending the k bits of v to a bit string. */
  lemma ValAppend(x: seq<bool>, v: nat, k: nat)
    requires v < Pow2(k)
    ensures Val(x + ToBits(v, k)) == Val(x) * Pow2(k) + v
  {
    ValConcat(x, ToBits(v, k));
    ValToBits(v, k);
  }

  lemma SixBits(c0: char, c1: char, c2: char, c3: char)
    ensures TextBits([c0, c1, c2, c3]) == ToBits(PosOf(c0), 6) + ToBits(PosOf(c1), 6) + ToBits(PosOf(c2),
            6) + ToBits(PosOf(c3), 6)
    ensures TextBits([c0, c1, c2]) == ToBits(PosOf(c0), 6) + ToBits(PosOf(c1), 6) + ToBits(PosOf(c2), 6)
    ensures TextBits([c0, c1]) == ToBits(PosOf(c0), 6) + ToBits(PosOf(c1), 6)
  {
    hide ToBits, PosOf;
    TextOne(c0);
    TextOne(c1);
    TextOne(c2);
    TextOne(c3);
    TextBitsConcat([c0], [c1]);
    TextBitsConcat([c0, c1], [c2]);
    TextBitsConcat([c0, c1, c2], [c3]);
    assert [c0] + [c1] == [c0, c1] && [c0, c1] + [c2] == [c0, c1, c2] && [c0, c1, c2] + [c3] == [c0, c1, c2, c3];
  }

  lemma TextOne(c: char)
    ensures TextBits([c]) == ToBits(PosOf(c), 6)
  {
    assert TextBits([c][1..]) == [];
  }

  lemma DataOne(b: Byte)
    ensures DataBits([b]) == ToBits(b, 8)
  {
    assert DataBits([b][1..]) == [];
  }

  lemma EightBits(b0: Byte, b1: Byte, b2: Byte)
    ensures DataBits([b0, b1, b2]) == ToBits(b0, 8) + ToBits(b1, 8) + ToBits(b2, 8)
    ensures DataBits([b0, b1]) == ToBits(b0, 8) + ToBits(b1, 8)
  {
    hide ToBits;
    DataOne(b0);
    DataOne(b1);
    DataOne(b2);
    DataBitsConcat([b0], [b1]);
    DataBitsConcat([b0, b1], [b2]);
    assert [b0] + [b1] == [b0, b1] && [b0, b1] + [b2] == [b0, b1, b2];
  }

  /** The zero bits that fill up the last character of n bytes. */
  function Fill(n: nat): (k: nat) {
    if n % 3 == 1 then 4 else if n % 3 == 2 then 2 else 0
  }

  /** The value of 6-bit or 8-bit pieces strung together. */
  lemma ValPieces(x: nat, y: nat, k: nat)
    requires x < Pow2(k) && y < Pow2(k)
    ensures Val(ToBits(x, k) + ToBits(y, k)) == x * Pow2(k) + y
  {
    hide Pow2, Val, ToBits;
    ValToBits(x, k);
    ValAppend(ToBits(x, k), y, k);
  }

  lemma BitsThree(b0: Byte, b1: Byte, b2: Byte, p1: nat, p2: nat)
    requires p1 == b0 as int % 4 * 16 + b1 as int / 16 && p2 == b1 as int % 16 * 4 + b2 as int / 64
    ensures ToBits(b0 / 4, 6) + ToBits(p1, 6) + ToBits(p2, 6) + ToBits(b2 % 64, 6)
            == ToBits(b0, 8) + ToBits(b1, 8) + ToBits(b2, 8)
  {
    hide Val, ToBits;
    assert Pow2(6) == 64 && Pow2(8) == 256;
    ValPieces(b0 / 4, p1, 6);
    ValAppend(ToBits(b0 / 4, 6) + ToBits(p1, 6), p2, 6);
    ValAppend(ToBits(b0 / 4, 6) + ToBits(p1, 6) + ToBits(p2, 6), b2 % 64, 6);
    ValPieces(b0, b1, 8);
    ValAppend(ToBits(b0, 8) + ToBits(b1, 8), b2, 8);
    ValInjective(ToBits(b0 / 4, 6) + ToBits(p1, 6) + ToBits(p2, 6) + ToBits(b2 % 64, 6),
                 ToBits(b0, 8) + ToBits(b1, 8) + ToBits(b2, 8));
  }

  lemma BitsTwo(b0: Byte, b1: Byte, p1: nat, p2: nat)
    requires p1 == b0 as int % 4 * 16 + b1 as int / 16 && p2 == b1 as int % 16 * 4
    ensures ToBits(b0 / 4, 6) + ToBits(p1, 6) + ToBits(p2, 6) == ToBits(b0, 8) + ToBits(b1, 8) + Repeat(false, 2)
  {
    hide Val, ToBits;
    assert Pow2(6) == 64 && Pow2(8) == 256 && Pow2(2) == 4;
    ValPieces(b0 / 4, p1, 6);
    ValAppend(ToBits(b0 / 4, 6) + ToBits(p1, 6), p2, 6);
    ValPieces(b0, b1, 8);
    ValConcat(ToBits(b0, 8) + ToBits(b1, 8), Repeat(false, 2));
    ValZeros(2);
    ValInjective(ToBits(b0 / 4, 6) + ToBits(p1, 6) + ToBits(p2, 6), ToBits(b0, 8) + ToBits(b1, 8) + Repeat(false, 2));
  }

  lemma BitsOne(b0: Byte)
    ensures ToBits(b0 / 4, 6) + ToBits(b0 % 4 * 16, 6) == ToBits(b0, 8) + Repeat(false, 4)
  {
    hide Val, ToBits;
    assert Pow2(6) == 64 && Pow2(8) == 256 && Pow2(4) == 16;
    ValPieces(b0 / 4, b0 % 4 * 16, 6);
    ValToBits(b0, 8);
    ValConcat(ToBits(b0, 8), Repeat(false, 4));
    ValZeros(4);
    ValInjective(ToBits(b0 / 4, 6) + ToBits(b0 % 4 * 16, 6), ToBits(b0, 8) + Repeat(false, 4));
  }

  lemma GroupBitsOne(b0: Byte)
    ensures TextBits(Group([b0], false)) == DataBits([b0]) + Repeat(false, 4)
  {
    hide ToBits, PosOf, CharOf, InAlphabet, TextBits, DataBits, Repeat;
    TablePosition(b0 / 4);
    TablePosition(b0 % 4 * 16);
    SixBits(CharOf(b0 / 4), CharOf(b0 % 4 * 16), '=', '=');
    DataOne(b0);
    BitsOne(b0);
    assert Group([b0], false) == [CharOf(b0 / 4), CharOf(b0 % 4 * 16)];
  }

  lemma GroupBitsTwo(b0: Byte, b1: Byte, p1: nat, p2: nat)
    requires p1 == b0 as int % 4 * 16 + b1 as int / 16 && p2 == b1 as int % 16 * 4
    ensures TextBits(Group([b0, b1], false)) == DataBits([b0, b1]) + Repeat(false, 2)
  {
    hide ToBits, PosOf, CharOf, InAlphabet, TextBits, DataBits, Repeat;
    TablePosition(b0 / 4);
    TablePosition(p1);
    TablePosition(p2);
    SixBits(CharOf(b0 / 4), CharOf(p1), CharOf(p2), '=');
    EightBits(b0, b1, 0);
    BitsTwo(b0, b1, p1, p2);
    assert Group([b0, b1], false) == [CharOf(b0 / 4), CharOf(p1), CharOf(p2)];
  }

  lemma GroupBitsThree(b0: Byte, b1: Byte, b2: Byte, p1: nat, p2: nat)
    requires p1 == b0 as int % 4 * 16 + b1 as int / 16 && p2 == b1 as int % 16 * 4 + b2 as int / 64
    ensures TextBits(Group([b0, b1, b2], false)) == DataBits([b0, b1, b2])
  {
    hide ToBits, PosOf, CharOf, InAlphabet, TextBits, DataBits, Group;
    TablePosition(b0 / 4);
    TablePosition(p1);
    TablePosition(p2);
    TablePosition(b2 % 64);
    SixBits(CharOf(b0 / 4), CharOf(p1), CharOf(p2), CharOf(b2 % 64));
    EightBits(b0, b1, b2);
    BitsThree(b0, b1, b2, p1, p2);
    GroupThree(b0, b1, b2, p1, p2);
  }

  lemma GroupThree(b0: Byte, b1: Byte, b2: Byte, p1: nat, p2: nat)
    requires p1 == b0 as int % 4 * 16 + b1 as int / 16 && p2 == b1 as int % 16 * 4 + b2 as int / 64
    ensures p1 < 64 && p2 < 64
    ensures Group([b0, b1, b2], false) == [CharOf(b0 / 4), CharOf(p1), CharOf(p2), CharOf(b2 % 64)]
  {
    hide CharOf;
  }

  lemma GroupBits(data: seq<Byte>)
    requires 1 <= |data| <= 3
    ensures TextBits(Group(data, false)) == DataBits(data) + Repeat(false, Fill(|data|))
  {
    hide TextBits, DataBits, Group;
    if |data| == 1 {
      GroupBitsOne(data[0]);
      assert data == [data[0]];
    } else if |data| == 2 {
      GroupBitsTwo(data[0], data[1], data[0] as int % 4 * 16 + data[1] as int / 16, data[1] as int % 16 * 4);
      assert data == [data[0], data[1]];
    } else {
      GroupBitsThree(data[0], data[1], data[2],
                     data[0] as int % 4 * 16 + data[1] as int / 16, data[1] as int % 16 * 4 + data[2] as int / 64);
      assert data == [data[0], data[1], data[2]];
      assert DataBits(data) + Repeat(false, 0) == DataBits(data);
    }
  }

  /** The unpadded text spells the bits of the data, filled up with zeros to the last character. */
  lemma {:induction false} EncodesBits(data: seq<Byte>)
    ensures TextBits(Encode(data, false)) == DataBits(data) + Repeat(false, Fill(|data|))
  {
    hide Group, TextBits, DataBits, Encode, Fill;
    if |data| == 0 {
      NoBits();
      EncodeNothing(false);
      NoFill(0);
    } else if |data| < 3 {
      LastGroup(data);
      GroupBits(data);
    } else {
      var a, b := data[..3], data[3..];
      assert data == a + b;
      EncodeFirst(data);
      GroupBits(a);
      EncodesBits(b);
      TextBitsConcat(Group(a, false), Encode(b, false));
      DataBitsConcat(a, b);
      NoFill(|data|);
      Joins(DataBits(a), DataBits(b), Repeat(false, Fill(|b|)));
    }
  }

  lemma NoFill(n: nat)
    ensures Fill(0) == Fill(3) == 0 && (n >= 3 ==> Fill(n - 3) == Fill(n))
  {}

  lemma Joins(a: seq<bool>, b: seq<bool>, c: seq<bool>)
    ensures (a + Repeat(false, 0)) + (b + c) == (a + b) + c
  {
    assert a + Repeat(false, 0) == a;
  }

  lemma NoBits()
    ensures TextBits("") == [] && DataBits([]) == [] && Encode([], false) == ""
  {}

  // ----- the source's loops -----

  lemma EncodeRest(data: seq<Byte>, pos: nat, padding: bool)
    requires pos < |data|
    ensures var n := Min(|data|, pos + 3);
            Encode(data[pos..], padding) == Group(data[pos..n], padding) + Encode(data[n..], padding)
  {
    hide Group;
    var n := Min(|data|, pos + 3);
    assert data[pos..][..n - pos] == data[pos..n] && data[pos..][n - pos..] == data[n..];
  }

  /** The body of the encoder's loop: appends the text of the group at pos. */
  method EncodeGroup(data: seq<Byte>, pos: nat, padding: bool, text: string) returns (out: string)
    requires pos < |data|
    ensures out == text + Group(data[pos..Min(|data|, pos + 3)], padding)
  {
    hide CharOf;
    out := text + [CharOf(data[pos] / 4)];
    if pos + 1 < |data| {
      out := out + [CharOf(data[pos] % 4 * 16 + data[pos + 1] / 16)];
      if pos + 2 < |data| {
        out := out + [CharOf(data[pos + 1] % 16 * 4 + data[pos + 2] / 64)];
        out := out + [CharOf(data[pos + 2] % 64)];
      } else {
        out := out + [CharOf(data[pos + 1] % 16 * 4)];
        if padding {
          out := out + ['='];
        }
      }
    } else {
      out := out + [CharOf(data[pos] % 4 * 16)];
      if padding {
        out := out + ['='];
        out := out + ['='];
      }
    }
  }

  /** The loop of `base64Encode` */
  method EncodeLoop(data: seq<Byte>, padding: bool) returns (out: string)
    ensures out == Encode(data, padding)
  {
    hide Encode, Group;
    out := "";
    var pos := 0;
    assert data[0..] == data;
    while pos < |data|
      invariant out + Encode(data[Min(pos, |data|)..], padding) == Encode(data, padding)
    {
      EncodeRest(data, pos, padding);
      ghost var before, n := out, Min(|data|, pos + 3);
      out := EncodeGroup(data, pos, padding, out);
      assert out + Encode(data[n..], padding) == before + (Group(data[pos..n], padding) + Encode(data[n..], padding));
      pos := pos + 3;
    }
    assert data[|data|..] == [];
    EncodeNothing(padding);
  }

  lemma EncodeNothing(padding: bool)
    ensures Encode([], padding) == ""
  {}

  /** The subscript of a string: behind the last character lies a zero. */
  function CharAt(text: string, i: nat): (c: char)
    requires i <= |text|
  {
    if i < |text| then text[i] else '\0'
  }

  /** The body of the decoder's loop: appends the bytes of the group at pos. */
  method DecodeGroup(text: string, pos: nat, data: seq<Byte>) returns (out: seq<Byte>)
    requires pos + 3 <= |text|
    ensures out == data + Ungroup(text[pos], text[pos + 1], text[pos + 2], CharAt(text, pos + 3))
  {
    hide PosOf;
    var p1 := PosOf(CharAt(text, pos + 1));
    out := data + [PosOf(CharAt(text, pos)) * 4 + p1 / 16];
    if CharAt(text, pos + 2) != '=' {
      var p2 := PosOf(CharAt(text, pos + 2));
      out := out + [p1 % 16 * 16 + p2 / 4];
      if CharAt(text, pos + 3) != '=' && CharAt(text, pos + 3) != '.' {
        out := out + [p2 % 4 * 64 + PosOf(CharAt(text, pos + 3))];
      }
    }
  }

  /** The loop of `base64Decode` */
  method DecodeLoop(text: string) returns (out: seq<Byte>)
    requires Readable(text)
    ensures out == Decode(Terminated(text))
  {
    hide Ungroup, Decode;
    ghost var t := Terminated(text);
    out := [];
    var pos := 0;
    assert t[0..] == t;
    NothingDecoded();
    while pos < |text|
      invariant pos <= |t| && pos % 4 == 0
      invariant out + Decode(t[pos..]) == Decode(t)
    {
      ghost var g := t[pos..pos + 4];
      assert t[pos..] == g + t[pos + 4..];
      DecodeFirst(g, t[pos + 4..]);
      out := DecodeGroup(text, pos, out);
      pos := pos + 4;
    }
    assert t[pos..] == "";
  }
}

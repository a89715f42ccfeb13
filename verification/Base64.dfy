/** Base64 with the standard alphabet and canonical padding (RFC 4648 section 4). */
module Base64 {
  import opened Utf8
  import opened Wrappers

  type sextet = x: int | 0 <= x < 64

  function Letter(v: sextet): (c: char)
    ensures SextetOf(c) == Some(v) && c != '='
  {
    if v < 26 then 'A' + v as char
    else if v < 52 then 'a' + (v - 26) as char
    else if v < 62 then '0' + (v - 52) as char
    else if v == 62 then '+'
    else '/'
  }

  function SextetOf(c: char): Option<sextet>
  {
    if 'A' <= c <= 'Z' then Some((c - 'A') as int)
    else if 'a' <= c <= 'z' then Some((c - 'a') as int + 26)
    else if '0' <= c <= '9' then Some((c - '0') as int + 52)
    else if c == '+' then Some(62)
    else if c == '/' then Some(63)
    else None
  }

  lemma LetterOfSextet(c: char)
    requires SextetOf(c).Some?
    ensures Letter(SextetOf(c).value) == c
  {
  }

  // ----- three bytes as four sextets -----

  function Sextet0(b0: int): (v: sextet)
    requires 0 <= b0 < 256
  {
    b0 / 4
  }

  function Sextet1(b0: int, b1: int): (v: sextet)
    requires 0 <= b0 < 256 && 0 <= b1 < 256
  {
    b0 % 4 * 16 + b1 / 16
  }

  function Sextet2(b1: int, b2: int): (v: sextet)
    requires 0 <= b1 < 256 && 0 <= b2 < 256
  {
    b1 % 16 * 4 + b2 / 64
  }

  function Sextet3(b2: int): (v: sextet)
    requires 0 <= b2 < 256
  {
    b2 % 64
  }

  function Byte0(v0: int, v1: int): (b: byte)
    requires 0 <= v0 < 64 && 0 <= v1 < 64
  {
    v0 * 4 + v1 / 16
  }

  function Byte1(v1: int, v2: int): (b: byte)
    requires 0 <= v1 < 64 && 0 <= v2 < 64
  {
    v1 % 16 * 16 + v2 / 4
  }

  function Byte2(v2: int, v3: int): (b: byte)
    requires 0 <= v2 < 64 && 0 <= v3 < 64
  {
    v2 % 4 * 64 + v3
  }

  lemma BytesThere(b0: byte, b1: byte, b2: byte)
    ensures Byte0(Sextet0(b0), Sextet1(b0, b1)) == b0
    ensures Byte1(Sextet1(b0, b1), Sextet2(b1, b2)) == b1
    ensures Byte2(Sextet2(b1, b2), Sextet3(b2)) == b2
    ensures Sextet1(b0, 0) % 16 == 0 && Sextet2(b1, 0) % 4 == 0
  {
  }

  lemma SextetsThere(v0: sextet, v1: sextet, v2: sextet, v3: sextet)
    ensures Sextet0(Byte0(v0, v1)) == v0
    ensures Sextet1(Byte0(v0, v1), Byte1(v1, v2)) == v1
    ensures Sextet2(Byte1(v1, v2), Byte2(v2, v3)) == v2
    ensures Sextet3(Byte2(v2, v3)) == v3
    ensures v1 % 16 == 0 ==> Sextet1(Byte0(v0, v1), 0) == v1
    ensures v2 % 4 == 0 ==> Sextet2(Byte1(v1, v2), 0) == v2
  {
  }

  // ----- encoding and decoding -----

  function Encode(b: seq<byte>): string
  {
    if b == [] then ""
    else if |b| == 1 then [Letter(Sextet0(b[0])), Letter(Sextet1(b[0], 0)), '=', '=']
    else if |b| == 2 then [Letter(Sextet0(b[0])), Letter(Sextet1(b[0], b[1])), Letter(Sextet2(b[1], 0)), '=']
    else
      [Letter(Sextet0(b[0])), Letter(Sextet1(b[0], b[1])), Letter(Sextet2(b[1], b[2])), Letter(Sextet3(b[2]))]
      + Encode(b[3..])
  }

  /** Refuses a length that is no multiple of four, a character outside the
      alphabet, misplaced padding, and padding bits that are not zero. */
  function Decode(text: string): Option<seq<byte>>
  {
    if text == "" then Some([])
    else if |text| < 4 || SextetOf(text[0]).None? || SextetOf(text[1]).None? then None
    else if |text| == 4 && text[3] == '=' then DecodePadded(text)
    else if SextetOf(text[2]).None? || SextetOf(text[3]).None? then None
    else
      var rest :- Decode(text[4..]);
      Some(Group(text) + rest)
  }

  function DecodePadded(text: string): Option<seq<byte>>
    requires |text| == 4 && SextetOf(text[0]).Some? && SextetOf(text[1]).Some?
  {
    var v0, v1 := SextetOf(text[0]).value, SextetOf(text[1]).value;
    if text[2] == '=' then
      if v1 % 16 == 0 then Some([Byte0(v0, v1)]) else None
    else
      var v2 :- SextetOf(text[2]);
      if v2 % 4 == 0 then Some([Byte0(v0, v1), Byte1(v1, v2)]) else None
  }

  function Group(text: string): (b: seq<byte>)
    requires |text| >= 4 && SextetOf(text[0]).Some? && SextetOf(text[1]).Some?
    requires SextetOf(text[2]).Some? && SextetOf(text[3]).Some?
  {
    var v0, v1 := SextetOf(text[0]).value, SextetOf(text[1]).value;
    var v2, v3 := SextetOf(text[2]).value, SextetOf(text[3]).value;
    [Byte0(v0, v1), Byte1(v1, v2), Byte2(v2, v3)]
  }

  lemma DecodeOne(v0: sextet, v1: sextet)
    requires v1 % 16 == 0
    ensures Decode([Letter(v0), Letter(v1), '=', '=']) == Some([Byte0(v0, v1)])
  {
    var text := [Letter(v0), Letter(v1), '=', '='];
    assert SextetOf(text[0]) == Some(v0) && SextetOf(text[1]) == Some(v1);
    assert Decode(text) == DecodePadded(text);
  }

  lemma OneByte(b: byte)
    ensures Decode(Encode([b])) == Some([b])
  {
    BytesThere(b, 0, 0);
    DecodeOne(Sextet0(b), Sextet1(b, 0));
  }

  lemma TwoBytes(b0: byte, b1: byte)
    ensures Decode(Encode([b0, b1])) == Some([b0, b1])
  {
    BytesThere(b0, b1, 0);
  }

  lemma GroupOfLetters(v0: sextet, v1: sextet, v2: sextet, v3: sextet, rest: string)
    ensures
      var text := [Letter(v0), Letter(v1), Letter(v2), Letter(v3)] + rest;
      && SextetOf(text[0]).Some? && SextetOf(text[1]).Some?
      && SextetOf(text[2]).Some? && SextetOf(text[3]).Some?
      && Group(text) == [Byte0(v0, v1), Byte1(v1, v2), Byte2(v2, v3)]
      && text[4..] == rest
      && text[3] != '='
  {
  }

  lemma {:induction false} DecodeOfEncode(b: seq<byte>)
    ensures Decode(Encode(b)) == Some(b)
  {
    if |b| == 1 {
      OneByte(b[0]);
      assert b == [b[0]];
    } else if |b| == 2 {
      TwoBytes(b[0], b[1]);
      assert b == [b[0], b[1]];
    } else if |b| > 2 {
      BytesThere(b[0], b[1], b[2]);
      DecodeOfEncode(b[3..]);
      GroupOfLetters(
        Sextet0(b[0]), Sextet1(b[0], b[1]), Sextet2(b[1], b[2]), Sextet3(b[2]), Encode(b[3..]));
      assert b == [b[0], b[1], b[2]] + b[3..];
    }
  }

  lemma OneIsCanonical(v0: sextet, v1: sextet)
    requires v1 % 16 == 0
    ensures Encode([Byte0(v0, v1)]) == [Letter(v0), Letter(v1), '=', '=']
  {
    SextetsThere(v0, v1, 0, 0);
  }

  lemma TwoIsCanonical(v0: sextet, v1: sextet, v2: sextet)
    requires v2 % 4 == 0
    ensures Encode([Byte0(v0, v1), Byte1(v1, v2)]) == [Letter(v0), Letter(v1), Letter(v2), '=']
  {
    SextetsThere(v0, v1, v2, 0);
  }

  lemma PaddedIsCanonical(text: string)
    requires |text| == 4 && text[3] == '=' && Decode(text).Some?
    ensures Encode(Decode(text).value) == text
  {
    assert Decode(text) == DecodePadded(text);
    var v0, v1 := SextetOf(text[0]).value, SextetOf(text[1]).value;
    LetterOfSextet(text[0]);
    LetterOfSextet(text[1]);
    if text[2] == '=' {
      OneIsCanonical(v0, v1);
    } else {
      LetterOfSextet(text[2]);
      TwoIsCanonical(v0, v1, SextetOf(text[2]).value);
    }
  }

  lemma GroupIsCanonical(text: string, rest: seq<byte>)
    requires |text| >= 4 && forall i | 0 <= i < 4 :: SextetOf(text[i]).Some?
    ensures Encode(Group(text) + rest) == text[..4] + Encode(rest)
  {
    var v0, v1 := SextetOf(text[0]).value, SextetOf(text[1]).value;
    var v2, v3 := SextetOf(text[2]).value, SextetOf(text[3]).value;
    SextetsThere(v0, v1, v2, v3);
    LetterOfSextet(text[0]);
    LetterOfSextet(text[1]);
    LetterOfSextet(text[2]);
    LetterOfSextet(text[3]);
    assert (Group(text) + rest)[3..] == rest;
  }

  /** What decodes at all is the one canonical encoding of what it decodes to. */
  lemma {:induction false} EncodeOfDecode(text: string)
    requires Decode(text).Some?
    ensures Encode(Decode(text).value) == text
  {
    if text == "" {
    } else if |text| == 4 && text[3] == '=' {
      PaddedIsCanonical(text);
    } else {
      EncodeOfDecode(text[4..]);
      GroupIsCanonical(text, Decode(text[4..]).value);
    }
  }
}

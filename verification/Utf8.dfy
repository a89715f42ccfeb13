/** UTF-8, as `str::as_bytes` writes it and `str::from_utf8` accepts it. */
module Utf8 {
  import opened Text
  import opened Wrappers

  type byte = x: int | 0 <= x < 256

  function EncodeChar(c: char): (b: seq<byte>)
    ensures 1 <= |b| <= 4
  {
    var x := c as int;
    if x < 0x80 then [x]
    else if x < 0x800 then [0xC0 + x / 64, 0x80 + x % 64]
    else if x < 0x1_0000 then [0xE0 + x / 4096, 0x80 + x / 64 % 64, 0x80 + x % 64]
    else [0xF0 + x / 262144, 0x80 + x / 4096 % 64, 0x80 + x / 64 % 64, 0x80 + x % 64]
  }

  function Encode(s: string): (b: seq<byte>)
    ensures |s| <= |b|
    ensures s == [] <==> b == []
  {
    if s == [] then [] else EncodeChar(s[0]) + Encode(s[1..])
  }

  predicate Continuation(x: byte)
  {
    0x80 <= x < 0xC0
  }

  predicate Scalar(x: int)
  {
    0 <= x < 0xD800 || 0xE000 <= x < 0x11_0000
  }

  function TwoBytes(b0: int, b1: int): int
  {
    (b0 - 0xC0) * 64 + (b1 - 0x80)
  }

  lemma TwoBytesInvert(x: int)
    requires 0x80 <= x < 0x800
    ensures 0xC2 <= 0xC0 + x / 64 < 0xE0
    ensures TwoBytes(0xC0 + x / 64, 0x80 + x % 64) == x
  {
  }

  lemma TwoBytesSplit(b0: int, b1: int)
    requires 0xC2 <= b0 < 0xE0 && 0x80 <= b1 < 0xC0
    ensures var x := TwoBytes(b0, b1); 0x80 <= x < 0x800 && b0 == 0xC0 + x / 64 && b1 == 0x80 + x % 64
  {
  }

  function ThreeBytes(b0: int, b1: int, b2: int): int
  {
    (b0 - 0xE0) * 4096 + (b1 - 0x80) * 64 + (b2 - 0x80)
  }

  lemma ThreeBytesInvert(x: int)
    requires 0x800 <= x < 0x1_0000
    ensures ThreeBytes(0xE0 + x / 4096, 0x80 + x / 64 % 64, 0x80 + x % 64) == x
  {
    assert x / 4096 == (x / 64) / 64;
  }

  lemma ThreeBytesSplit(b0: int, b1: int, b2: int)
    requires 0xE0 <= b0 < 0xF0 && 0x80 <= b1 < 0xC0 && 0x80 <= b2 < 0xC0
    ensures var x := ThreeBytes(b0, b1, b2);
      0 <= x < 0x1_0000 && b0 == 0xE0 + x / 4096 && b1 == 0x80 + x / 64 % 64 && b2 == 0x80 + x % 64
  {
    var x := ThreeBytes(b0, b1, b2);
    assert x / 64 == (b0 - 0xE0) * 64 + (b1 - 0x80);
    assert x / 4096 == (x / 64) / 64;
  }

  function FourBytes(b0: int, b1: int, b2: int, b3: int): int
  {
    (b0 - 0xF0) * 262144 + ThreeBytes(0xE0 + (b1 - 0x80), b2, b3)
  }

  lemma FourBytesInvert(x: int)
    requires 0x1_0000 <= x < 0x11_0000
    ensures FourBytes(0xF0 + x / 262144, 0x80 + x / 4096 % 64, 0x80 + x / 64 % 64, 0x80 + x % 64) == x
  {
    assert x / 4096 == (x / 64) / 64;
    assert x / 262144 == (x / 4096) / 64;
  }

  lemma FourBytesSplit(b0: int, b1: int, b2: int, b3: int)
    requires 0xF0 <= b0 < 0xF8 && 0x80 <= b1 < 0xC0 && 0x80 <= b2 < 0xC0 && 0x80 <= b3 < 0xC0
    ensures var x := FourBytes(b0, b1, b2, b3);
      && 0 <= x && b0 == 0xF0 + x / 262144 && b1 == 0x80 + x / 4096 % 64
      && b2 == 0x80 + x / 64 % 64 && b3 == 0x80 + x % 64
  {
    var x := FourBytes(b0, b1, b2, b3);
    assert x / 64 == ((b0 - 0xF0) * 64 + (b1 - 0x80)) * 64 + (b2 - 0x80);
    assert x / 4096 == (x / 64) / 64 == (b0 - 0xF0) * 64 + (b1 - 0x80);
    assert x / 262144 == (x / 4096) / 64;
  }

  /** The scalar at the head of `b` and how many bytes hold it. Overlong forms,
      surrogates and values past U+10FFFF are refused. */
  function DecodeHead(b: seq<byte>): (r: Option<(char, nat)>)
    requires b != []
    ensures r.Some? ==> 1 <= r.value.1 <= |b|
  {
    if b[0] < 0x80 then Some((b[0] as char, 1))
    else if 0xC2 <= b[0] < 0xE0 && |b| >= 2 && Continuation(b[1]) then
      TwoBytesSplit(b[0], b[1]);
      Some((TwoBytes(b[0], b[1]) as char, 2))
    else if 0xE0 <= b[0] < 0xF0 && |b| >= 3 && Continuation(b[1]) && Continuation(b[2]) then
      var x := ThreeBytes(b[0], b[1], b[2]);
      if 0x800 <= x && Scalar(x) then Some((x as char, 3)) else None
    else if 0xF0 <= b[0] < 0xF8 && |b| >= 4 && Continuation(b[1]) && Continuation(b[2]) && Continuation(b[3]) then
      var x := FourBytes(b[0], b[1], b[2], b[3]);
      if 0x1_0000 <= x && Scalar(x) then Some((x as char, 4)) else None
    else None
  }

  lemma EncodeOfDecodeHead(b: seq<byte>)
    requires b != [] && DecodeHead(b).Some?
    ensures var (c, n) := DecodeHead(b).value; EncodeChar(c) == b[..n]
  {
    if b[0] < 0x80 {
    } else if b[0] < 0xE0 {
      TwoBytesSplit(b[0], b[1]);
    } else if b[0] < 0xF0 {
      ThreeBytesSplit(b[0], b[1], b[2]);
    } else {
      FourBytesSplit(b[0], b[1], b[2], b[3]);
    }
  }

  /** `str::from_utf8`. */
  function Decode(b: seq<byte>): (r: Option<string>)
  {
    if b == [] then Some([])
    else
      var (c, n) :- DecodeHead(b);
      var rest :- Decode(b[n..]);
      Some([c] + rest)
  }

  lemma EncodeCons(c: char, rest: string)
    ensures Encode([c] + rest) == EncodeChar(c) + Encode(rest)
  {
    assert ([c] + rest)[1..] == rest;
  }

  lemma {:induction false} DecodeCons(b: seq<byte>)
    requires b != [] && Decode(b).Some?
    ensures DecodeHead(b).Some?
    ensures var (c, n) := DecodeHead(b).value;
      Decode(b[n..]).Some? && Decode(b).value == [c] + Decode(b[n..]).value
  {
  }

  lemma EncodeOneMore(c: char, rest: string, head: seq<byte>, tail: seq<byte>)
    requires EncodeChar(c) == head && Encode(rest) == tail
    ensures Encode([c] + rest) == head + tail
  {
    EncodeCons(c, rest);
  }

  lemma HeadAndTail<T>(b: seq<T>, n: nat)
    requires n <= |b|
    ensures b[..n] + b[n..] == b
  {
  }

  lemma {:induction false} EncodeOfDecode(b: seq<byte>)
    requires Decode(b).Some?
    ensures Encode(Decode(b).value) == b
    decreases |b|
  {
    if b != [] {
      DecodeCons(b);
      var (c, n) := DecodeHead(b).value;
      EncodeOfDecodeHead(b);
      EncodeOfDecode(b[n..]);
      EncodeOneMore(c, Decode(b[n..]).value, b[..n], b[n..]);
      HeadAndTail(b, n);
    }
  }

  lemma {:induction false} DecodeHeadOfEncodeChar(c: char, rest: seq<byte>)
    ensures DecodeHead(EncodeChar(c) + rest) == Some((c, |EncodeChar(c)|))
  {
    var x := c as int;
    var b := EncodeChar(c) + rest;
    if 0x80 <= x < 0x800 {
      TwoBytesInvert(x);
      assert b[1] == 0x80 + x % 64;
    } else if 0x800 <= x < 0x1_0000 {
      ThreeBytesInvert(x);
      assert b[1] == 0x80 + x / 64 % 64 && b[2] == 0x80 + x % 64;
    } else if 0x1_0000 <= x {
      FourBytesInvert(x);
      assert b[1] == 0x80 + x / 4096 % 64 && b[2] == 0x80 + x / 64 % 64 && b[3] == 0x80 + x % 64;
    }
  }

  lemma {:induction false} DecodeOfEncode(s: string)
    ensures Decode(Encode(s)) == Some(s)
  {
    if s != [] {
      DecodeOfEncode(s[1..]);
      DecodeOneMore(s[0], Encode(s[1..]), s[1..]);
      assert s == [s[0]] + s[1..];
    }
  }

  lemma DecodeOneMore(c: char, b: seq<byte>, rest: string)
    requires Decode(b) == Some(rest)
    ensures Decode(EncodeChar(c) + b) == Some([c] + rest)
  {
    DecodeHeadOfEncodeChar(c, b);
    Behind(EncodeChar(c), b);
  }

  lemma Behind<T>(a: seq<T>, b: seq<T>)
    ensures (a + b)[|a|..] == b
  {
  }

  lemma {:induction false} EncodeAppend(s: string, t: string)
    ensures Encode(s + t) == Encode(s) + Encode(t)
  {
    if s == [] {
      assert s + t == t;
    } else {
      EncodeAppend(s[1..], t);
      assert (s + t)[0] == s[0] && (s + t)[1..] == s[1..] + t;
      Associative(EncodeChar(s[0]), Encode(s[1..]), Encode(t));
    }
  }
}

/** The text formats by their published tables and examples: UTF-8 (RFC 3629),
    base64 (RFC 4648), percent encoding (RFC 3986), decimal and hexadecimal. */
module TextFormats {
  import Base64
  import Decimal
  import Files
  import Segments
  import opened Utf8
  import opened Wrappers

  // ----- UTF-8 -----

  /** Six more bits from a byte. */
  function More(high: int, low: int): int
  {
    64 * high + (low - 0x80)
  }

  /** The bytes of a character say its number, in one of the four forms of section
      3 of RFC 3629, and the shortest that will do. */
  lemma CharacterBytes(c: char)
    ensures
      var b, n := EncodeChar(c), c as int;
      var first: int := b[0];
      && (forall i | 1 <= i < |b| :: Continues(b[i]))
      && if n < 0x80 then |b| == 1 && n == first
         else if n < 0x800 then |b| == 2 && 0xC0 <= first < 0xE0 && n == More(first - 0xC0, b[1])
         else if n < 0x1_0000 then |b| == 3 && 0xE0 <= first < 0xF0 && n == More(More(first - 0xE0, b[1]), b[2])
         else |b| == 4 && 0xF0 <= first < 0xF8 && n == More(More(More(first - 0xF0, b[1]), b[2]), b[3])
  {
    var n := c as int;
    assert n / 4096 == n / 64 / 64 && n / 262144 == n / 4096 / 64;
  }

  predicate Continues(b: byte)
  {
    0x80 <= b < 0xC0
  }

  /** A text is encoded character by character. */
  lemma TextBytes(c: char, rest: string)
    ensures Encode("") == [] && Encode([c] + rest) == EncodeChar(c) + Encode(rest)
  {
    EncodeCons(c, rest);
  }

  // ----- base64 -----

  const ROW_0 := "ABCDEFGHIJKLMNOP"
  const ROW_1 := "QRSTUVWXYZabcdef"
  const ROW_2 := "ghijklmnopqrstuv"
  const ROW_3 := "wxyz0123456789+/"

  /** The base64 alphabet (RFC 4648, table 1). */
  function InTheAlphabet(v: int): char
    requires 0 <= v < 64
  {
    if v < 16 then ROW_0[v] else if v < 32 then ROW_1[v - 16] else if v < 48 then ROW_2[v - 32] else ROW_3[v - 48]
  }

  lemma LetterIsInTheAlphabet(v: Base64.sextet)
    ensures Base64.Letter(v) == InTheAlphabet(v)
  {
    if v < 16 {
      FirstRow(v);
    } else if v < 32 {
      SecondRow(v);
    } else if v < 48 {
      ThirdRow(v);
    } else {
      FourthRow(v);
    }
  }

  lemma FirstRow(v: Base64.sextet)
    requires v < 16
    ensures Base64.Letter(v) == ROW_0[v]
  {
  }

  lemma SecondRow(v: Base64.sextet)
    requires 16 <= v < 32
    ensures Base64.Letter(v) == ROW_1[v - 16]
  {
  }

  lemma ThirdRow(v: Base64.sextet)
    requires 32 <= v < 48
    ensures Base64.Letter(v) == ROW_2[v - 32]
  {
  }

  lemma FourthRow(v: Base64.sextet)
    requires 48 <= v
    ensures Base64.Letter(v) == ROW_3[v - 48]
  {
  }

  /** Six more bits from a letter. */
  function AndSix(high: int, low: int): int
  {
    64 * high + low
  }

  function Letters(v: seq<Base64.sextet>): string
  {
    seq(|v|, i requires 0 <= i < |v| => InTheAlphabet(v[i]))
  }

  /** Three bytes are four letters: the same 24 bits (RFC 4648, section 4). */
  lemma ThreeBytes(b0: byte, b1: byte, b2: byte) returns (v: seq<Base64.sextet>)
    ensures |v| == 4 && Base64.Encode([b0, b1, b2]) == Letters(v)
    ensures Number(b0, b1, b2) == AndSix(AndSix(AndSix(v[0], v[1]), v[2]), v[3])
  {
    v := [Base64.Sextet0(b0), Base64.Sextet1(b0, b1), Base64.Sextet2(b1, b2), Base64.Sextet3(b2)];
    LettersOf(v);
    assert [b0, b1, b2][3..] == [];
  }

  function Number(b0: int, b1: int, b2: int): int
  {
    b0 * 65536 + b1 * 256 + b2
  }

  lemma LettersOf(v: seq<Base64.sextet>)
    ensures forall i | 0 <= i < |v| :: Base64.Letter(v[i]) == InTheAlphabet(v[i])
  {
    forall i | 0 <= i < |v| ensures Base64.Letter(v[i]) == InTheAlphabet(v[i]) {
      LetterIsInTheAlphabet(v[i]);
    }
  }

  /** Two bytes are three letters and one `=`: their bits, then zeros. */
  lemma TwoBytes(b0: byte, b1: byte) returns (v: seq<Base64.sextet>)
    ensures |v| == 3 && Base64.Encode([b0, b1]) == Letters(v) + "="
    ensures Number(0, b0, b1) * 4 == AndSix(AndSix(v[0], v[1]), v[2])
  {
    v := [Base64.Sextet0(b0), Base64.Sextet1(b0, b1), Base64.Sextet2(b1, 0)];
    LettersOf(v);
  }

  /** One byte is two letters and two of them. */
  lemma OneByte(b0: byte) returns (v: seq<Base64.sextet>)
    ensures |v| == 2 && Base64.Encode([b0]) == Letters(v) + "=="
    ensures Number(0, 0, b0) * 16 == AndSix(v[0], v[1])
  {
    v := [Base64.Sextet0(b0), Base64.Sextet1(b0, 0)];
    LettersOf(v);
  }

  /** Longer data is encoded three bytes at a time. */
  lemma GroupByGroup(b0: byte, b1: byte, b2: byte, rest: seq<byte>)
    ensures Base64.Encode([b0, b1, b2] + rest) == Base64.Encode([b0, b1, b2]) + Base64.Encode(rest)
  {
    var all := [b0, b1, b2] + rest;
    assert all[3..] == rest && [b0, b1, b2][3..] == [];
  }

  // ----- decimal and hexadecimal -----

  const DIGITS := "0123456789"

  /** A number's text is the text of its tenth and one more digit. */
  lemma DecimalDigits(n: nat, d: nat)
    requires d < 10
    ensures Decimal.ToText(10 * n + d) == (if n == 0 then "" else Decimal.ToText(n)) + [DIGITS[d]]
  {
    assert (10 * n + d) / 10 == n && (10 * n + d) % 10 == d;
  }

  /** A number in as many hexadecimal digits as wanted. */
  function Hex(n: nat, width: nat, digits: string): (text: string)
    requires |digits| == 16
    ensures |text| == width
  {
    if width == 0 then "" else Hex(n / 16, width - 1, digits) + [digits[n % 16]]
  }

  function Power16(width: nat): nat
  {
    if width == 0 then 1 else 16 * Power16(width - 1)
  }

  const SMALL := "0123456789abcdef"
  const CAPITAL := "0123456789ABCDEF"

  predicate AreDigits(digits: string)
  {
    |digits| == 16 && forall d | 0 <= d < 16 :: Segments.HexDigit(digits[d]) == Some(d)
  }

  lemma HexDigitIsRead(d: nat, digits: string)
    requires d < 16 && digits in {SMALL, CAPITAL}
    ensures Segments.HexDigit(digits[d]) == Some(d)
  {
  }

  lemma BothAreDigits(digits: string)
    requires digits in {SMALL, CAPITAL}
    ensures AreDigits(digits)
  {
    forall d | 0 <= d < 16 ensures Segments.HexDigit(digits[d]) == Some(d) {
      HexDigitIsRead(d, digits);
    }
  }

  lemma {:induction false} HexIsRead(n: nat, width: nat, digits: string)
    requires n < Power16(width) && AreDigits(digits)
    ensures Segments.HexValue(Hex(n, width, digits)) == Some(n)
  {
    if width > 0 {
      Sixteenth(n, Power16(width - 1));
      HexIsRead(n / 16, width - 1, digits);
      LastDigitIsRead(n, width, digits);
    }
  }

  lemma Sixteenth(n: nat, m: nat)
    requires n < 16 * m
    ensures n / 16 < m
  {
  }

  lemma LastDigitIsRead(n: nat, width: nat, digits: string)
    requires width > 0 && AreDigits(digits)
    requires Segments.HexValue(Hex(n / 16, width - 1, digits)) == Some(n / 16)
    ensures Segments.HexValue(Hex(n, width, digits)) == Some(n)
  {
    var text := Hex(n, width, digits);
    assert text[..width - 1] == Hex(n / 16, width - 1, digits) && text[width - 1] == digits[n % 16];
  }

  /** Segment `n` of a log is a file named by `n` in eight hexadecimal digits, plain
      or compressed. */
  lemma SegmentIsRecognised(n: nat, digits: string)
    requires n < 0x1_0000_0000 && digits in {SMALL, CAPITAL}
    ensures Segments.CopyOf(Segments.DirEntry(Hex(n, 8, digits) + ".jsonl", true)) == Some(Segments.Copy(n, false))
    ensures Segments.CopyOf(Segments.DirEntry(Hex(n, 8, digits) + ".jsonl.gz", true)) == Some(Segments.Copy(n, true))
  {
    assert Power16(8) == 0x1_0000_0000 by {
      assert Power16(4) == 0x1_0000;
    }
    BothAreDigits(digits);
    HexIsRead(n, 8, digits);
    var text := Hex(n, 8, digits);
    assert (text + ".jsonl")[8..] == ".jsonl" && (text + ".jsonl")[..8] == text;
    assert (text + ".jsonl.gz")[8..] == ".jsonl.gz" && (text + ".jsonl.gz")[..8] == text;
    NotPacked(text);
  }

  lemma NotPacked(text: string)
    ensures Segments.StripSuffix(text + ".jsonl", ".jsonl.gz") == None
  {
    var name, suffix := text + ".jsonl", ".jsonl.gz";
    if |name| >= |suffix| {
      assert name[|name| - |suffix|..][|suffix| - 1] == name[|name| - 1] == 'l';
    }
  }

  // ----- percent encoding -----

  predicate IsPlain(b: byte)
  {
    var c := b as char;
    'a' <= c <= 'z' || 'A' <= c <= 'Z' || '0' <= c <= '9' || c in "-_.!~*'()"
  }

  /** A letter, a digit or one of nine marks stands for itself; any other byte is a
      `%` and two capital hexadecimal digits. */
  lemma ByteIsEscaped(b: byte)
    ensures Files.AsciiText(Files.Escaped([b]))
      == if IsPlain(b) then [b as char] else ['%', CAPITAL[b / 16], CAPITAL[b % 16]]
  {
    assert [b][1..] == [];
  }

  lemma {:induction false} BytesAreEscaped(a: seq<byte>, b: seq<byte>)
    ensures Files.Escaped(a + b) == Files.Escaped(a) + Files.Escaped(b)
  {
    if a == [] {
      assert a + b == b;
    } else {
      assert (a + b)[1..] == a[1..] + b;
      BytesAreEscaped(a[1..], b);
    }
  }

  /** A `%` and two hexadecimal digits, in either case, stand for one byte. */
  lemma EscapedByteIsRead(b: byte, digits: string)
    requires digits in {SMALL, CAPITAL}
    ensures Files.HexByte(digits[b / 16] as int, digits[b % 16] as int) == Some(b)
  {
    EscapedDigit(b / 16, digits);
    EscapedDigit(b % 16, digits);
  }

  lemma EscapedDigit(d: nat, digits: string)
    requires d < 16 && digits in {SMALL, CAPITAL}
    ensures digits[d] as int < 128 && Files.HexDigit(digits[d] as int) == Some(d) && digits[d] != '+'
  {
  }

  /** A number may have a plus sign, or zeros, in front. */
  lemma SignedAndPadded(n: nat, max: nat)
    ensures Decimal.Parse("+" + Decimal.ToText(n), max) == Decimal.Parse("0" + Decimal.ToText(n), max)
    ensures Decimal.Parse("0" + Decimal.ToText(n), max) == if n <= max then Some(n) else None
  {
    var text := Decimal.ToText(n);
    Decimal.ValueOfText(n);
    ZeroInFront(text);
    assert ("+" + text)[1..] == text;
  }

  lemma {:induction false} ZeroInFront(text: string)
    ensures Decimal.Value("0" + text) == Decimal.Value(text)
  {
    var more := "0" + text;
    if text == "" {
      assert more[..0] == "";
    } else {
      var init := text[..|text| - 1];
      assert more[..|more| - 1] == "0" + init && more[|more| - 1] == text[|text| - 1];
      ZeroInFront(init);
    }
  }
}

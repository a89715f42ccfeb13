/** WebSocket frames as bytes (`tools/ws.py`; RFC 6455, sections 5.2 to 5.5). */
module Frames {
  import Utf8
  import opened Wrappers

  type byte = Utf8.byte
  type Mask = m: seq<byte> | |m| == 4 witness [0, 0, 0, 0]

  const CONTINUATION := 0
  const TEXT := 1
  const BINARY := 2
  const CLOSE := 8
  const PING := 9
  const PONG := 10

  // ----- exclusive or, and masking -----

  function Pow2(width: nat): (p: nat)
    ensures p > 0
  {
    if width == 0 then 1 else 2 * Pow2(width - 1)
  }

  function XorBits(a: nat, b: nat, width: nat): nat
  {
    if width == 0 then 0 else 2 * XorBits(a / 2, b / 2, width - 1) + (a + b) % 2
  }

  lemma {:induction false} XorFits(a: nat, b: nat, width: nat)
    ensures XorBits(a, b, width) < Pow2(width)
  {
    if width > 0 {
      XorFits(a / 2, b / 2, width - 1);
    }
  }

  lemma ParityTwice(a: nat, b: nat, x: nat)
    requires x % 2 == (a + b) % 2
    ensures (x + b) % 2 == a % 2
  {
  }

  lemma {:induction false} XorStep(q: nat, a: nat, b: nat, width: nat)
    requires width > 0
    ensures var x := 2 * q + (a + b) % 2;
      XorBits(x, b, width) == 2 * XorBits(q, b / 2, width - 1) + a % 2
  {
    var x := 2 * q + (a + b) % 2;
    assert x / 2 == q;
    ParityTwice(a, b, x);
  }

  lemma {:induction false} XorTwice(a: nat, b: nat, width: nat)
    requires a < Pow2(width)
    ensures XorBits(XorBits(a, b, width), b, width) == a
  {
    if width > 0 {
      XorTwice(a / 2, b / 2, width - 1);
      XorStep(XorBits(a / 2, b / 2, width - 1), a, b, width);
    }
  }

  lemma EightBits()
    ensures Pow2(8) == 256
  {
    assert Pow2(4) == 16;
  }

  function Xor(a: byte, b: byte): byte
  {
    XorFits(a, b, 8);
    EightBits();
    XorBits(a, b, 8)
  }

  lemma XorUndoes(a: byte, b: byte)
    ensures Xor(Xor(a, b), b) == a
  {
    EightBits();
    XorTwice(a, b, 8);
  }

  /** Each byte of the payload against the mask in turn. */
  function Masked(payload: seq<byte>, mask: Mask): (m: seq<byte>)
    ensures |m| == |payload|
  {
    seq(|payload|, i requires 0 <= i < |payload| => Xor(payload[i], mask[i % 4]))
  }

  lemma MaskingTwice(payload: seq<byte>, mask: Mask)
    ensures Masked(Masked(payload, mask), mask) == payload
  {
    forall i | 0 <= i < |payload| ensures Masked(Masked(payload, mask), mask)[i] == payload[i] {
      XorUndoes(payload[i], mask[i % 4]);
    }
  }

  // ----- lengths -----

  function Power(width: nat): (p: nat)
    ensures p > 0
  {
    if width == 0 then 1 else 256 * Power(width - 1)
  }

  function BigEndian(n: nat, width: nat): (b: seq<byte>)
    ensures |b| == width
  {
    if width == 0 then [] else BigEndian(n / 256, width - 1) + [n % 256]
  }

  function FromBigEndian(b: seq<byte>): nat
  {
    if b == [] then 0 else 256 * FromBigEndian(b[..|b| - 1]) + b[|b| - 1]
  }

  lemma {:induction false} BigEndianBack(n: nat, width: nat)
    requires n < Power(width)
    ensures FromBigEndian(BigEndian(n, width)) == n
  {
    if width > 0 {
      BigEndianBack(n / 256, width - 1);
      assert BigEndian(n, width)[..width - 1] == BigEndian(n / 256, width - 1);
    }
  }

  lemma Widths()
    ensures Power(2) == 0x1_0000 && Power(8) == 0x1_0000_0000_0000_0000
  {
    assert Power(4) == 256 * Power(3) == 256 * (256 * Power(2));
    assert Power(6) == 256 * Power(5) == 256 * (256 * Power(4));
    assert Power(8) == 256 * Power(7) == 256 * (256 * Power(6));
  }

  const MAX_LENGTH := 0x1_0000_0000_0000_0000

  /** A length in the shortest of its three forms; the flag says masked. */
  function LengthBytes(masked: bool, length: nat): seq<byte>
    requires length < MAX_LENGTH
  {
    var flag: byte := if masked then 0x80 else 0;
    if length < 126 then [flag + length]
    else if length < 0x1_0000 then [flag + 126] + BigEndian(length, 2)
    else [flag + 127] + BigEndian(length, 8)
  }

  // ----- reading -----

  datatype Header = Header(final: bool, opcode: nat, masked: bool, length: nat, size: nat)

  function ReadHeader(stream: seq<byte>): (h: Option<Header>)
    ensures h.Some? ==> 2 <= h.value.size <= |stream|
  {
    if |stream| < 2 then None
    else
      var final, opcode, masked, short := stream[0] >= 0x80, stream[0] % 16, stream[1] >= 0x80, stream[1] % 128;
      if short == 126 then
        if |stream| < 4 then None else Some(Header(final, opcode, masked, FromBigEndian(stream[2..4]), 4))
      else if short == 127 then
        if |stream| < 10 then None else Some(Header(final, opcode, masked, FromBigEndian(stream[2..10]), 10))
      else Some(Header(final, opcode, masked, short, 2))
  }

  datatype Frame = Frame(final: bool, opcode: nat, payload: seq<byte>)

  datatype Read = Short | MaskedByServer | Got(frame: Frame, rest: seq<byte>)

  /** The next frame from a server: unmasked, or nothing after it can be
      trusted. */
  function ReadServerFrame(stream: seq<byte>): (r: Read)
    ensures r.Got? ==> |r.rest| < |stream|
  {
    var header := ReadHeader(stream);
    if header.None? then Short
    else
      var Header(final, opcode, masked, length, size) := header.value;
      if masked then MaskedByServer
      else if |stream| < size + length then Short
      else Got(Frame(final, opcode, stream[size..size + length]), stream[size + length..])
  }

  /** The next frame from a client, as the server it is sent to reads it. */
  function ReadClientFrame(stream: seq<byte>): Option<(Frame, seq<byte>)>
  {
    var header := ReadHeader(stream);
    if header.None? then None
    else
      var Header(final, opcode, masked, length, size) := header.value;
      if !masked || |stream| < size + 4 + length then None
      else
        Some((Frame(final, opcode, Masked(stream[size + 4..size + 4 + length], stream[size..size + 4])),
              stream[size + 4 + length..]))
  }

  // ----- writing -----

  function FirstByte(final: bool, opcode: nat): byte
    requires opcode < 16
  {
    (if final then 0x80 else 0) + opcode
  }

  /** What a server writes. */
  function ServerFrame(frame: Frame): seq<byte>
    requires frame.opcode < 16 && |frame.payload| < MAX_LENGTH
  {
    [FirstByte(frame.final, frame.opcode)] + LengthBytes(false, |frame.payload|) + frame.payload
  }

  /** What `send_text` writes. */
  function TextFrame(payload: seq<byte>, mask: Mask): seq<byte>
    requires |payload| < MAX_LENGTH
  {
    [FirstByte(true, TEXT)] + LengthBytes(true, |payload|) + mask + Masked(payload, mask)
  }

  /** What `_send_control` writes: its length is always one byte, with the mask
      bit set on top of it. */
  function ControlFrame(opcode: nat, payload: seq<byte>, mask: Mask): seq<byte>
    requires opcode < 16 && |payload| < 256
  {
    [FirstByte(true, opcode)] + [if |payload| < 0x80 then 0x80 + |payload| else |payload|]
    + mask + Masked(payload, mask)
  }

  lemma HeaderRead(first: byte, second: byte, long: seq<byte>, rest: seq<byte>)
    requires |long| == if second % 128 == 126 then 2 else if second % 128 == 127 then 8 else 0
    ensures ReadHeader([first, second] + long + rest)
      == Some(Header(first >= 0x80, first % 16, second >= 0x80,
                     if long == [] then second % 128 else FromBigEndian(long), 2 + |long|))
  {
    var stream := [first, second] + long + rest;
    assert stream[2..2 + |long|] == long;
  }

  lemma HeaderBack(final: bool, opcode: nat, masked: bool, length: nat, rest: seq<byte>)
    requires opcode < 16 && length < MAX_LENGTH
    ensures
      var bytes := [FirstByte(final, opcode)] + LengthBytes(masked, length);
      ReadHeader(bytes + rest) == Some(Header(final, opcode, masked, length, |bytes|))
  {
    var first := FirstByte(final, opcode);
    var second, long := LengthRead(masked, length);
    HeaderRead(first, second, long, rest);
    assert [first] + LengthBytes(masked, length) == [first, second] + long;
  }

  /** The second byte of a frame, and the longer form of its length if that is
      used. */
  lemma LengthRead(masked: bool, length: nat) returns (second: byte, long: seq<byte>)
    requires length < MAX_LENGTH
    ensures LengthBytes(masked, length) == [second] + long && (second >= 0x80 <==> masked)
    ensures |long| == if second % 128 == 126 then 2 else if second % 128 == 127 then 8 else 0
    ensures length == if long == [] then second % 128 else FromBigEndian(long)
  {
    Widths();
    var flag := if masked then 0x80 else 0;
    if length < 126 {
      second, long := flag + length, [];
    } else if length < 0x1_0000 {
      second, long := flag + 126, BigEndian(length, 2);
      BigEndianBack(length, 2);
    } else {
      second, long := flag + 127, BigEndian(length, 8);
      BigEndianBack(length, 8);
    }
  }

  lemma Pieces(head: seq<byte>, middle: seq<byte>, tail: seq<byte>)
    ensures
      var s := head + (middle + tail);
      && s[|head|..|head| + |middle|] == middle && s[|head| + |middle|..] == tail
  {
  }

  lemma ServerFrameBack(frame: Frame, rest: seq<byte>)
    requires frame.opcode < 16 && |frame.payload| < MAX_LENGTH
    ensures ReadServerFrame(ServerFrame(frame) + rest) == Got(frame, rest)
  {
    var head := [FirstByte(frame.final, frame.opcode)] + LengthBytes(false, |frame.payload|);
    assert ServerFrame(frame) + rest == head + (frame.payload + rest);
    HeaderBack(frame.final, frame.opcode, false, |frame.payload|, frame.payload + rest);
    Pieces(head, frame.payload, rest);
  }

  lemma MaskedFrameBack(head: seq<byte>, header: Header, payload: seq<byte>, mask: Mask, rest: seq<byte>)
    requires header.masked && header.length == |payload| && header.size == |head|
    requires ReadHeader(head + (mask + (Masked(payload, mask) + rest))) == Some(header)
    ensures ReadClientFrame(head + (mask + (Masked(payload, mask) + rest)))
      == Some((Frame(header.final, header.opcode, payload), rest))
  {
    var stream := head + (mask + (Masked(payload, mask) + rest));
    Pieces(head, mask, Masked(payload, mask) + rest);
    assert stream == (head + mask) + (Masked(payload, mask) + rest);
    Pieces(head + mask, Masked(payload, mask), rest);
    MaskingTwice(payload, mask);
  }

  /** A sent text unmasks to its payload, whatever the mask, in all three length
      encodings, and whatever follows it is untouched. */
  lemma TextFrameBack(payload: seq<byte>, mask: Mask, rest: seq<byte>)
    requires |payload| < MAX_LENGTH
    ensures ReadClientFrame(TextFrame(payload, mask) + rest) == Some((Frame(true, TEXT, payload), rest))
  {
    var head := [FirstByte(true, TEXT)] + LengthBytes(true, |payload|);
    assert TextFrame(payload, mask) + rest == head + (mask + (Masked(payload, mask) + rest));
    HeaderBack(true, TEXT, true, |payload|, mask + (Masked(payload, mask) + rest));
    MaskedFrameBack(head, Header(true, TEXT, true, |payload|, |head|), payload, mask, rest);
  }

  /** A control frame says what it was given exactly when its payload has at most
      125 bytes, which is all that section 5.5 of RFC 6455 allows. */
  lemma ControlFrameBack(opcode: nat, payload: seq<byte>, mask: Mask)
    requires opcode < 16 && |payload| < 256
    ensures ReadClientFrame(ControlFrame(opcode, payload, mask)) == Some((Frame(true, opcode, payload), []))
      <==> |payload| < 126
  {
    if |payload| < 126 {
      var head := [FirstByte(true, opcode)] + LengthBytes(true, |payload|);
      assert ControlFrame(opcode, payload, mask) == head + (mask + (Masked(payload, mask) + []));
      HeaderBack(true, opcode, true, |payload|, mask + (Masked(payload, mask) + []));
      MaskedFrameBack(head, Header(true, opcode, true, |payload|, |head|), payload, mask, []);
    } else {
      LongControlFrame(opcode, payload, mask);
    }
  }

  lemma LongControlFrame(opcode: nat, payload: seq<byte>, mask: Mask)
    requires opcode < 16 && 126 <= |payload| < 256
    ensures var read := ReadClientFrame(ControlFrame(opcode, payload, mask));
      read.Some? && read.value.1 == [] ==> |read.value.0.payload| != |payload|
  {
    var stream := ControlFrame(opcode, payload, mask);
    assert |stream| == 6 + |payload|;
    assert stream[1] == if |payload| < 0x80 then 0x80 + |payload| else |payload|;
  }
}

/** WebSocket frames byte by byte (`tools/ws.py`; RFC 6455, section 5.2), with the
    numbers written out. */
module FrameBytes {
  import opened Frames
  import opened WebSockets
  import opened Wrappers

  // ----- exclusive or -----

  function Bit(n: nat, k: nat): nat
    decreases k
  {
    if k == 0 then n % 2 else Bit(n / 2, k - 1)
  }

  lemma Halved(m: nat, r: nat)
    requires r < 2
    ensures (2 * m + r) / 2 == m && (2 * m + r) % 2 == r
  {
  }

  /** Bit for bit, what is in one of two numbers and not in the other. */
  lemma {:induction false} XorBitsAreOdd(a: nat, b: nat, width: nat, k: nat)
    requires k < width
    ensures Bit(XorBits(a, b, width), k) == (Bit(a, k) + Bit(b, k)) % 2
    decreases k
  {
    Halved(XorBits(a / 2, b / 2, width - 1), (a + b) % 2);
    if k > 0 {
      XorBitsAreOdd(a / 2, b / 2, width - 1, k - 1);
    } else {
      SumsAreOdd(a, b);
    }
  }

  lemma SumsAreOdd(a: nat, b: nat)
    ensures (a + b) % 2 == (a % 2 + b % 2) % 2
  {
  }

  lemma MaskedBits(payload: seq<byte>, mask: Mask, i: nat, k: nat)
    requires i < |payload| && k < 8
    ensures Bit(Masked(payload, mask)[i], k) == (Bit(payload[i], k) + Bit(mask[i % 4], k)) % 2
  {
    XorBitsAreOdd(payload[i], mask[i % 4], 8, k);
  }

  // ----- numbers in network order -----

  /** A 16-bit length, its high byte first. */
  lemma TwoByteLength(n: nat)
    requires n < 65536
    ensures BigEndian(n, 2) == [n / 256, n % 256]
    ensures FromBigEndian([n / 256, n % 256]) == n
  {
    assert BigEndian(n / 256, 1) == BigEndian(n / 256 / 256, 0) + [n / 256 % 256];
    Widths();
    BigEndianBack(n, 2);
  }

  /** A longer one: eight bytes, each worth 256 times the next. */
  lemma LongerLength(n: nat, width: nat)
    requires width > 0
    ensures BigEndian(n, width)[width - 1] == n % 256
    ensures BigEndian(n, width)[..width - 1] == BigEndian(n / 256, width - 1)
  {
  }

  // ----- what is sent -----

  /** A text is sent as 0x81, its length with the top bit set, the mask, and the
      masked payload. */
  lemma TextFrameBytes(payload: seq<byte>, mask: Mask)
    requires |payload| < MAX_LENGTH
    ensures
      var n, masked := |payload|, Masked(payload, mask);
      TextFrame(payload, mask)
      == if n < 126 then [0x81, 0x80 + n] + mask + masked
         else if n < 65536 then [0x81, 0xFE, n / 256, n % 256] + mask + masked
         else [0x81, 0xFF] + BigEndian(n, 8) + mask + masked
  {
    var n := |payload|;
    if n < 126 {
      assert [0x81] + [0x80 + n] == [0x81, 0x80 + n];
    } else if n < 65536 {
      TwoByteLength(n);
      assert [0x81] + ([0xFE] + [n / 256, n % 256]) == [0x81, 0xFE, n / 256, n % 256];
    } else {
      assert [0x81] + ([0xFF] + BigEndian(n, 8)) == [0x81, 0xFF] + BigEndian(n, 8);
    }
  }

  /** The pong for a ping is 0x8A, the length with the top bit set, the mask, and
      the masked payload. */
  lemma PongBytes(payload: seq<byte>, mask: Mask)
    requires |payload| < 126
    ensures ControlFrame(PONG, payload, mask) == [0x8A, 0x80 + |payload|] + mask + Masked(payload, mask)
  {
    assert [0x8A] + [0x80 + |payload|] == [0x8A, 0x80 + |payload|];
  }

  // ----- what is read -----

  /** A frame of at most 125 bytes from a server. */
  function ShortFrame(first: byte, payload: seq<byte>): seq<byte>
    requires |payload| < 126
  {
    [first, |payload|] + payload
  }

  lemma ShortFrameIsRead(first: byte, payload: seq<byte>, rest: seq<byte>)
    requires |payload| < 126
    ensures ReadServerFrame(ShortFrame(first, payload) + rest)
      == Got(Frame(first >= 0x80, first % 16, payload), rest)
  {
    var stream := ShortFrame(first, payload) + rest;
    assert stream == [first, |payload|] + [] + (payload + rest);
    HeaderRead(first, |payload|, [], payload + rest);
    assert stream[2..2 + |payload|] == payload && stream[2 + |payload|..] == rest;
  }

  /** A conversation with some pings already answered. */
  function After(pongs: seq<seq<byte>>, later: Outcome): Outcome
  {
    later.(pongs := pongs + later.pongs)
  }

  lemma AfterNothing(later: Outcome)
    ensures After([], later) == later
  {
    assert [] + later.pongs == later.pongs;
  }

  lemma TurnIsTaken(first: byte, payload: seq<byte>, rest: seq<byte>, message: seq<byte>, turn: Turn)
    requires |payload| < 126 && turn == TurnOf(Frame(first >= 0x80, first % 16, payload), message)
    ensures
      Conversation(ShortFrame(first, payload) + rest, message)
      == if turn.Over? then Outcome(turn.reply, [], rest)
         else After(Answered(turn.pong), Conversation(rest, turn.message))
  {
    ShortFrameIsRead(first, payload, rest);
  }

  /** 0x81 is a whole text and 0x80 the end of one begun: either is the reply. */
  lemma TextEndsTheMessage(first: byte, payload: seq<byte>, rest: seq<byte>, message: seq<byte>)
    requires |payload| < 126 && first in {0x81, 0x80}
    ensures Conversation(ShortFrame(first, payload) + rest, message) == Outcome(Text(message + payload), [], rest)
  {
    TurnIsTaken(first, payload, rest, message, Over(Text(message + payload)));
  }

  /** 0x01 begins a text and 0x00 goes on with it. */
  lemma FragmentGoesOn(first: byte, payload: seq<byte>, rest: seq<byte>, message: seq<byte>)
    requires |payload| < 126 && first in {0x01, 0x00}
    ensures Conversation(ShortFrame(first, payload) + rest, message) == Conversation(rest, message + payload)
  {
    TurnIsTaken(first, payload, rest, message, Onward(message + payload, None));
    AfterNothing(Conversation(rest, message + payload));
  }

  /** 0x89 is a ping, whose payload is what the next pong answers. */
  lemma PingIsAnswered(payload: seq<byte>, rest: seq<byte>, message: seq<byte>)
    requires |payload| < 126
    ensures Conversation(ShortFrame(0x89, payload) + rest, message) == After([payload], Conversation(rest, message))
  {
    TurnIsTaken(0x89, payload, rest, message, Onward(message, Some(payload)));
  }

  /** 0x8A is a pong, passed over. */
  lemma PongIsPassedOver(payload: seq<byte>, rest: seq<byte>, message: seq<byte>)
    requires |payload| < 126
    ensures Conversation(ShortFrame(0x8A, payload) + rest, message) == Conversation(rest, message)
  {
    TurnIsTaken(0x8A, payload, rest, message, Onward(message, None));
    AfterNothing(Conversation(rest, message));
  }

  /** 0x88 closes, and 0x82, a binary frame, is an error. */
  lemma CloseEndsTheConversation(payload: seq<byte>, rest: seq<byte>, message: seq<byte>)
    requires |payload| < 126
    ensures Conversation(ShortFrame(0x88, payload) + rest, message) == Outcome(Closed, [], rest)
    ensures Conversation(ShortFrame(0x82, payload) + rest, message) == Outcome(Failed(BinaryFrame), [], rest)
  {
    TurnIsTaken(0x88, payload, rest, message, Over(Closed));
    TurnIsTaken(0x82, payload, rest, message, Over(Failed(BinaryFrame)));
  }
}

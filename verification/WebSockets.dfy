/** The WebSocket client's side of a conversation (`tools/ws.py`). Everything is
    stated on the byte stream: how it was cut into chunks on the way has no say. */
module WebSockets {
  import opened Frames
  import opened Wrappers

  datatype Failure = ServerClosed | ServerMasked | BinaryFrame | PongTooLong | Refused

  datatype Reply = Text(message: seq<byte>) | Closed | Failed(why: Failure)

  /** What reading a message comes to: the reply, the pings answered on the way,
      and the bytes left for the next one. */
  datatype Outcome = Outcome(reply: Reply, pongs: seq<seq<byte>>, rest: seq<byte>)

  /** What one frame means to a message being read. */
  datatype Turn = Over(reply: Reply) | Onward(message: seq<byte>, pong: Option<seq<byte>>)

  function TurnOf(frame: Frame, message: seq<byte>): Turn
  {
    var Frame(final, opcode, payload) := frame;
    if opcode == CLOSE then Over(Closed)
    else if opcode == PING then if |payload| >= 256 then Over(Failed(PongTooLong)) else Onward(message, Some(payload))
    else if opcode == PONG then Onward(message, None)
    else if opcode == BINARY then Over(Failed(BinaryFrame))
    else if final then Over(Text(message + payload))
    else Onward(message + payload, None)
  }

  function Answered(pong: Option<seq<byte>>): seq<seq<byte>>
  {
    if pong.Some? then [pong.value] else []
  }

  function Conversation(stream: seq<byte>, message: seq<byte>): Outcome
    decreases |stream|
  {
    match ReadServerFrame(stream)
    case Short => Outcome(Failed(ServerClosed), [], [])
    case MaskedByServer => Outcome(Failed(ServerMasked), [], [])
    case Got(frame, rest) =>
      match TurnOf(frame, message)
      case Over(reply) => Outcome(reply, [], rest)
      case Onward(more, pong) =>
        var later := Conversation(rest, more);
        later.(pongs := Answered(pong) + later.pongs)
  }

  /** What is left of a conversation, once some of it is behind. */
  predicate Continues(whole: Outcome, pongs: seq<seq<byte>>, stream: seq<byte>, message: seq<byte>)
  {
    var later := Conversation(stream, message);
    whole.reply == later.reply && whole.rest == later.rest && whole.pongs == pongs + later.pongs
  }

  lemma {:induction false} ContinuesOnward(
    whole: Outcome, pongs: seq<seq<byte>>, stream: seq<byte>, message: seq<byte>, read: Read, turn: Turn)
    requires Continues(whole, pongs, stream, message)
    requires ReadServerFrame(stream) == read && read.Got? && TurnOf(read.frame, message) == turn && turn.Onward?
    ensures Continues(whole, pongs + Answered(turn.pong), read.rest, turn.message)
  {
    var later := Conversation(read.rest, turn.message);
    assert Conversation(stream, message).pongs == Answered(turn.pong) + later.pongs;
    assert pongs + (Answered(turn.pong) + later.pongs) == pongs + Answered(turn.pong) + later.pongs;
  }

  lemma {:induction false} ContinuesToTheEnd(
    whole: Outcome, pongs: seq<seq<byte>>, stream: seq<byte>, message: seq<byte>, reply: Reply, rest: seq<byte>)
    requires Continues(whole, pongs, stream, message)
    requires
      match ReadServerFrame(stream)
      case Short => reply == Failed(ServerClosed)
      case MaskedByServer => reply == Failed(ServerMasked)
      case Got(frame, after) => TurnOf(frame, message) == Over(reply) && rest == after
    ensures whole.reply == reply && whole.pongs == pongs && (!reply.Failed? ==> whole.rest == rest)
  {
    assert pongs + [] == pongs;
  }

  // ----- the handshake -----

  const LINE_END: seq<byte> := [13, 10]
  const HEADERS_END: seq<byte> := [13, 10, 13, 10]

  /** Where a pattern first occurs. */
  function Occurrence(s: seq<byte>, pattern: seq<byte>): (at: Option<nat>)
    ensures at.Some? ==> at.value + |pattern| <= |s| && s[at.value..at.value + |pattern|] == pattern
  {
    if pattern <= s then Some(0)
    else if s == [] then None
    else
      var later := Occurrence(s[1..], pattern);
      if later.Some? then Some(later.value + 1) else None
  }

  /** More bytes never move the first occurrence. */
  lemma {:induction false} OccurrenceStays(s: seq<byte>, more: seq<byte>, pattern: seq<byte>)
    requires Occurrence(s, pattern).Some?
    ensures Occurrence(s + more, pattern) == Occurrence(s, pattern)
  {
    if pattern <= s {
      assert pattern <= s + more;
    } else {
      OccurrenceStays(s[1..], more, pattern);
      assert (s + more)[1..] == s[1..] + more;
      var at := Occurrence(s, pattern).value;
      assert (s + more)[..|pattern|] == s[..|pattern|];
    }
  }

  const STATUS_101: seq<byte> := [49, 48, 49]

  /** `split` at a pattern, the part before its first occurrence. */
  function Before(s: seq<byte>, pattern: seq<byte>): seq<byte>
  {
    var at := Occurrence(s, pattern);
    if at.Some? then s[..at.value] else s
  }

  /** The handshake's outcome: the bytes after the headers, if the server agreed
      to switch protocols. */
  function Upgraded(stream: seq<byte>): Result<seq<byte>, Failure>
  {
    var at := Occurrence(stream, HEADERS_END);
    if at.None? then Err(ServerClosed)
    else if Occurrence(Before(stream[..at.value], LINE_END), STATUS_101).None? then Err(Refused)
    else Ok(stream[at.value + 4..])
  }

  // ----- the client -----

  function Concat(chunks: seq<seq<byte>>): seq<byte>
  {
    if chunks == [] then [] else chunks[0] + Concat(chunks[1..])
  }

  lemma TakeFront(buffer: seq<byte>, more: seq<byte>, count: nat)
    requires count <= |buffer|
    ensures (buffer + more)[..count] == buffer[..count] && (buffer + more)[count..] == buffer[count..] + more
  {
  }

  /** What has arrived up to the end of the headers settles the handshake. */
  lemma UpgradedInFront(buffer: seq<byte>, more: seq<byte>)
    requires Occurrence(buffer, HEADERS_END).Some?
    ensures
      var at := Occurrence(buffer, HEADERS_END).value;
      Upgraded(buffer + more)
      == if Occurrence(Before(buffer[..at], LINE_END), STATUS_101).None? then Err(Refused)
         else Ok(buffer[at + 4..] + more)
  {
    var at := Occurrence(buffer, HEADERS_END).value;
    OccurrenceStays(buffer, more, HEADERS_END);
    TakeFront(buffer, more, at);
    TakeFront(buffer, more, at + 4);
  }

  class WebSocket {
    var buffer: seq<byte>
    /** What the socket still has to deliver, one `recv` at a time; after that it
        is closed. */
    var incoming: seq<seq<byte>>
    /** What was sent, one `sendall` at a time. */
    var sent: seq<seq<byte>>
    const random: nat -> Mask
    var drawn: nat

    constructor (incoming: seq<seq<byte>>, random: nat -> Mask)
      ensures Stream() == Concat(incoming) && sent == []
    {
      this.incoming := incoming;
      this.random := random;
      buffer, sent, drawn := [], [], 0;
    }

    /** All the bytes still to be read. */
    function Stream(): seq<byte>
      reads this
    {
      buffer + Concat(incoming)
    }

    /** One `recv`, appended to the buffer. */
    method Fill() returns (open: bool)
      modifies this`buffer, this`incoming
      ensures open == (old(incoming) != [])
      ensures Stream() == old(Stream())
      ensures if open then |incoming| < |old(incoming)| else buffer == old(buffer) && incoming == []
    {
      if incoming == [] {
        return false;
      }
      assert buffer + (incoming[0] + Concat(incoming[1..])) == buffer + incoming[0] + Concat(incoming[1..]);
      buffer, incoming := buffer + incoming[0], incoming[1..];
      return true;
    }

    /** `_recv_exactly`. */
    method RecvExactly(count: nat) returns (taken: Option<seq<byte>>)
      modifies this`buffer, this`incoming
      ensures |old(Stream())| >= count ==>
        taken == Some(old(Stream())[..count]) && Stream() == old(Stream())[count..]
      ensures |old(Stream())| < count ==> taken == None
    {
      while |buffer| < count
        invariant Stream() == old(Stream())
        decreases |incoming|
      {
        var open := Fill();
        if !open {
          assert Stream() == buffer;
          return None;
        }
      }
      TakeFront(buffer, Concat(incoming), count);
      taken := Some(buffer[..count]);
      buffer := buffer[count..];
    }

    /** `_handshake`, from the request's answer on. */
    method Handshake() returns (refused: Option<Failure>)
      modifies this`buffer, this`incoming
      ensures match Upgraded(old(Stream()))
              case Ok(rest) => refused == None && Stream() == rest
              case Err(why) => refused == Some(why)
    {
      while Occurrence(buffer, HEADERS_END).None?
        invariant Stream() == old(Stream())
        decreases |incoming|
      {
        var open := Fill();
        if !open {
          assert Stream() == buffer;
          return Some(ServerClosed);
        }
      }
      var at := Occurrence(buffer, HEADERS_END).value;
      var headers := buffer[..at];
      UpgradedInFront(buffer, Concat(incoming));
      buffer := buffer[at + 4..];
      if Occurrence(Before(headers, LINE_END), STATUS_101).None? {
        return Some(Refused);
      }
      return None;
    }

    method FreshMask() returns (mask: Mask)
      modifies this`drawn
    {
      mask := random(drawn);
      drawn := drawn + 1;
    }

    /** `send_text`. */
    method SendText(payload: seq<byte>)
      requires |payload| < MAX_LENGTH
      modifies this`sent, this`drawn
      ensures |sent| == |old(sent)| + 1 && sent[..|old(sent)|] == old(sent)
      ensures ReadClientFrame(sent[|old(sent)|]) == Some((Frame(true, TEXT, payload), []))
    {
      var header: seq<byte> := [0x80 + TEXT];
      var length := |payload|;
      if length < 126 {
        header := header + [0x80 + length];
      } else if length < 0x1_0000 {
        header := header + [0x80 + 126];
        header := header + BigEndian(length, 2);
      } else {
        header := header + [0x80 + 127];
        header := header + BigEndian(length, 8);
      }
      var mask := FreshMask();
      var frame := header + mask + Masked(payload, mask);
      assert header == [FirstByte(true, TEXT)] + LengthBytes(true, |payload|);
      TextFrameBack(payload, mask, []);
      assert frame + [] == frame;
      sent := sent + [frame];
    }

    /** `_send_control`; a length that does not fit a byte is an error. */
    method SendControl(opcode: nat, payload: seq<byte>) returns (ok: bool)
      requires opcode < 16
      modifies this`sent, this`drawn
      ensures ok == (|payload| < 256)
      ensures ok ==> |sent| == |old(sent)| + 1 && sent[..|old(sent)|] == old(sent)
                     && (exists mask :: sent[|old(sent)|] == ControlFrame(opcode, payload, mask))
      ensures !ok ==> sent == old(sent)
    {
      var mask := FreshMask();
      if |payload| >= 256 {
        return false;
      }
      sent := sent + [ControlFrame(opcode, payload, mask)];
      return true;
    }

    /** The fixed and the variable part of a frame's header. */
    method RecvHeader() returns (header: Option<Header>)
      modifies this`buffer, this`incoming
      ensures header == ReadHeader(old(Stream()))
      ensures header.Some? ==> Stream() == old(Stream())[header.value.size..]
    {
      ghost var stream := Stream();
      var start := RecvExactly(2);
      if start.None? {
        return None;
      }
      var first, second := start.value[0], start.value[1];
      var final, opcode, masked, length := first >= 0x80, first % 16, second >= 0x80, second % 128;
      if length == 126 || length == 127 {
        var width := if length == 126 then 2 else 8;
        var long := RecvExactly(width);
        if long.None? {
          return None;
        }
        LaterPiece(stream, 2, 2 + width);
        return Some(Header(final, opcode, masked, FromBigEndian(long.value), 2 + width));
      }
      return Some(Header(final, opcode, masked, length, 2));
    }

    /** One frame off the stream, piece by piece. */
    method RecvFrame() returns (read: Read)
      modifies this`buffer, this`incoming
      ensures read == ReadServerFrame(old(Stream()))
      ensures read.Got? ==> Stream() == read.rest
    {
      ghost var stream := Stream();
      var header := RecvHeader();
      if header.None? {
        return Short;
      }
      var Header(final, opcode, masked, length, size) := header.value;
      if masked {
        return MaskedByServer;
      }
      var payload := RecvExactly(length);
      if payload.None? {
        return Short;
      }
      LaterPiece(stream, size, size + length);
      return Got(Frame(final, opcode, payload.value), Stream());
    }

    /** Acts on one frame: a ping is answered at once. */
    method TakeTurn(frame: Frame, message: seq<byte>) returns (turn: Turn)
      modifies this`sent, this`drawn
      ensures turn == TurnOf(frame, message)
      ensures Answers(old(sent), sent, if turn.Onward? then Answered(turn.pong) else [])
    {
      var Frame(final, opcode, payload) := frame;
      if opcode == CLOSE {
        return Over(Closed);
      }
      if opcode == PING {
        var ok := SendControl(PONG, payload);
        return if ok then Onward(message, Some(payload)) else Over(Failed(PongTooLong));
      }
      if opcode == PONG {
        return Onward(message, None);
      }
      if opcode == BINARY {
        return Over(Failed(BinaryFrame));
      }
      return if final then Over(Text(message + payload)) else Onward(message + payload, None);
    }

    /** `recv_text`, before the bytes are decoded. */
    method RecvText() returns (reply: Reply)
      modifies this`buffer, this`incoming, this`sent, this`drawn
      ensures
        var outcome := Conversation(old(Stream()), []);
        && reply == outcome.reply
        && (!reply.Failed? ==> Stream() == outcome.rest)
        && Answers(old(sent), sent, outcome.pongs)
    {
      var message: seq<byte> := [];
      ghost var pongs: seq<seq<byte>> := [];
      ghost var whole := Conversation(Stream(), []);
      while true
        invariant Continues(whole, pongs, Stream(), message) && Answers(old(sent), sent, pongs)
        decreases |Stream()|
      {
        ghost var stream := Stream();
        var read := RecvFrame();
        if !read.Got? {
          reply := Failed(if read.Short? then ServerClosed else ServerMasked);
          ContinuesToTheEnd(whole, pongs, stream, message, reply, []);
          return;
        }
        ghost var before := sent;
        var turn := TakeTurn(read.frame, message);
        if turn.Over? {
          ContinuesToTheEnd(whole, pongs, stream, message, turn.reply, read.rest);
          return turn.reply;
        }
        ContinuesOnward(whole, pongs, stream, message, read, turn);
        AnswersMore(old(sent), before, sent, pongs, Answered(turn.pong));
        assert |read.rest| < |stream|;
        pongs := pongs + Answered(turn.pong);
        message := turn.message;
      }
    }
  }

  lemma AnswersMore(
    first: seq<seq<byte>>, second: seq<seq<byte>>, third: seq<seq<byte>>, a: seq<seq<byte>>, b: seq<seq<byte>>)
    requires Answers(first, second, a) && Answers(second, third, b)
    ensures Answers(first, third, a + b)
  {
    forall i | 0 <= i < |a + b| ensures IsPong(third[|first| + i], (a + b)[i]) {
      if i >= |a| {
        assert third[|second| + (i - |a|)] == third[|first| + i];
      }
    }
  }

  lemma LaterPiece(stream: seq<byte>, from: nat, to: nat)
    requires from <= to <= |stream|
    ensures stream[from..][..to - from] == stream[from..to] && stream[from..][to - from..] == stream[to..]
  {
  }

  /** One pong for each ping, in order and with its payload, and nothing else. */
  ghost predicate Answers(before: seq<seq<byte>>, after: seq<seq<byte>>, pings: seq<seq<byte>>)
  {
    && |after| == |before| + |pings| && before <= after
    && forall i | 0 <= i < |pings| :: IsPong(after[|before| + i], pings[i])
  }

  ghost predicate IsPong(bytes: seq<byte>, payload: seq<byte>)
  {
    |payload| < 256 && exists mask :: bytes == ControlFrame(PONG, payload, mask)
  }
}

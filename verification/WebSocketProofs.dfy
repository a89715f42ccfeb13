/** What a server may put on the wire, and what the client makes of it. */
module WebSocketProofs {
  import opened Frames
  import opened Text
  import opened WebSockets
  import opened Wrappers

  /** A message on its way: pieces of text, and control frames between them. */
  datatype Item = Part(payload: seq<byte>) | Ping(payload: seq<byte>) | Pong(payload: seq<byte>)

  /** Section 5.5 of RFC 6455 limits control frames to 125 bytes. */
  predicate Legal(item: Item)
  {
    |item.payload| < if item.Part? then MAX_LENGTH else 126
  }

  function FrameOf(item: Item, started: bool): Frame
  {
    match item
    case Part(payload) => Frame(false, if started then CONTINUATION else TEXT, payload)
    case Ping(payload) => Frame(true, PING, payload)
    case Pong(payload) => Frame(true, PONG, payload)
  }

  predicate AllLegal(items: seq<Item>)
  {
    forall i | i in items :: Legal(i)
  }

  predicate AnyPart(items: seq<Item>)
  {
    exists i | i in items :: i.Part?
  }

  /** The frames of a message up to its last piece. */
  function Wire(items: seq<Item>, started: bool): seq<byte>
    requires AllLegal(items)
  {
    if items == [] then []
    else
      assert Legal(items[0]);
      ServerFrame(FrameOf(items[0], started)) + Wire(items[1..], started || items[0].Part?)
  }

  function LastFrame(started: bool, last: seq<byte>): Frame
  {
    Frame(true, if started then CONTINUATION else TEXT, last)
  }

  function Parts(items: seq<Item>): seq<byte>
  {
    if items == [] then [] else (if items[0].Part? then items[0].payload else []) + Parts(items[1..])
  }

  function Pings(items: seq<Item>): seq<seq<byte>>
  {
    if items == [] then [] else (if items[0].Ping? then [items[0].payload] else []) + Pings(items[1..])
  }

  lemma ItemTurn(item: Item, started: bool, message: seq<byte>)
    requires Legal(item)
    ensures TurnOf(FrameOf(item, started), message)
      == Onward(message + (if item.Part? then item.payload else []), if item.Ping? then Some(item.payload) else None)
  {
    assert message + [] == message;
  }

  lemma ConversationStep(frame: Frame, after: seq<byte>, message: seq<byte>, turn: Turn)
    requires frame.opcode < 16 && |frame.payload| < MAX_LENGTH && TurnOf(frame, message) == turn
    ensures Conversation(ServerFrame(frame) + after, message)
      == if turn.Over? then Outcome(turn.reply, [], after)
         else
           var later := Conversation(after, turn.message);
           later.(pongs := Answered(turn.pong) + later.pongs)
  {
    ServerFrameBack(frame, after);
  }

  lemma {:induction false} PiecesThenTheEnd(
    items: seq<Item>, started: bool, message: seq<byte>, end: Frame, reply: Reply, rest: seq<byte>)
    requires AllLegal(items) && end.opcode < 16 && |end.payload| < MAX_LENGTH
    requires TurnOf(end, message + Parts(items)) == Over(reply)
    ensures Conversation(Wire(items, started) + (ServerFrame(end) + rest), message)
      == Outcome(reply, Pings(items), rest)
  {
    if items == [] {
      assert message + Parts(items) == message;
      ConversationStep(end, rest, message, Over(reply));
      assert Wire(items, started) + (ServerFrame(end) + rest) == ServerFrame(end) + rest;
    } else {
      var item, more := items[0], items[1..];
      assert Legal(item) && AllLegal(more);
      var next := started || item.Part?;
      var after := Wire(more, next) + (ServerFrame(end) + rest);
      var piece := if item.Part? then item.payload else [];
      var pong := if item.Ping? then Some(item.payload) else None;
      Associative(message, piece, Parts(more));
      PiecesThenTheEnd(more, next, message + piece, end, reply, rest);
      ItemTurn(item, started, message);
      ConversationStep(FrameOf(item, started), after, message, Onward(message + piece, pong));
      Associative(ServerFrame(FrameOf(item, started)), Wire(more, next), ServerFrame(end) + rest);
    }
  }

  /** However a text is cut into pieces, and whatever pings and pongs come between
      them, reading it gives the whole text, answers each ping with its own
      payload in order, and leaves what follows untouched. */
  lemma MessageIsRead(items: seq<Item>, last: seq<byte>, rest: seq<byte>)
    requires AllLegal(items) && |last| < MAX_LENGTH
    ensures
      Conversation(Wire(items, false) + (ServerFrame(LastFrame(AnyPart(items), last)) + rest), [])
      == Outcome(Text(Parts(items) + last), Pings(items), rest)
  {
    assert [] + Parts(items) == Parts(items);
    PiecesThenTheEnd(items, false, [], LastFrame(AnyPart(items), last), Text(Parts(items) + last), rest);
  }

  /** A close ends the conversation wherever it comes, even within a message, with
      every ping before it answered; a binary frame is an error there. */
  lemma CloseAndBinaryEndIt(items: seq<Item>, end: Frame, rest: seq<byte>)
    requires AllLegal(items) && end.opcode in {CLOSE, BINARY} && |end.payload| < MAX_LENGTH
    ensures Conversation(Wire(items, false) + (ServerFrame(end) + rest), [])
      == Outcome(if end.opcode == CLOSE then Closed else Failed(BinaryFrame), Pings(items), rest)
  {
    var reply := if end.opcode == CLOSE then Closed else Failed(BinaryFrame);
    PiecesThenTheEnd(items, false, [], end, reply, rest);
  }

  /** Two messages in a row are read one after the other. */
  lemma NextMessageIsRead(
    first: seq<Item>, firstLast: seq<byte>, second: seq<Item>, secondLast: seq<byte>, rest: seq<byte>)
    requires AllLegal(first) && |firstLast| < MAX_LENGTH && AllLegal(second) && |secondLast| < MAX_LENGTH
    ensures
      var behind := Wire(second, false) + (ServerFrame(LastFrame(AnyPart(second), secondLast)) + rest);
      var one := Conversation(Wire(first, false) + (ServerFrame(LastFrame(AnyPart(first), firstLast)) + behind), []);
      Conversation(one.rest, []) == Outcome(Text(Parts(second) + secondLast), Pings(second), rest)
  {
    var behind := Wire(second, false) + (ServerFrame(LastFrame(AnyPart(second), secondLast)) + rest);
    MessageIsRead(first, firstLast, behind);
    MessageIsRead(second, secondLast, rest);
  }

  /** Whatever a server sends right behind its headers is still there for the
      first read. */
  lemma HandshakeLeavesFrames(headers: seq<byte>, frames: seq<byte>)
    requires Occurrence(headers + HEADERS_END, HEADERS_END) == Some(|headers|)
    ensures Upgraded(headers + HEADERS_END + frames)
      == if Occurrence(Before(headers, LINE_END), STATUS_101).Some? then Ok(frames) else Err(Refused)
  {
    OccurrenceStays(headers + HEADERS_END, frames, HEADERS_END);
    CutAround(headers, HEADERS_END, frames);
  }

  lemma CutAround<T>(a: seq<T>, b: seq<T>, c: seq<T>)
    ensures (a + b + c)[..|a|] == a && (a + b + c)[|a| + |b|..] == c
  {
  }
}

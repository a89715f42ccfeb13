/** Names in a DNS message (`server/src/matter/mdns_browser.rs`; RFC 1035
    sections 3.1 and 4.1.4). */
module DnsNames {
  import opened Text
  import opened Utf8
  import opened Wrappers

  const MAX_JUMPS := 16

  // ----- what an encoded name means -----

  /** One move of a reader through an encoded name. */
  datatype Hop = Label(text: string) | Pointer(target: nat)

  /** The 14-bit offset of a compression pointer. */
  function PointerAt(message: seq<byte>, offset: nat): nat
    requires offset + 1 < |message| && message[offset] >= 0xC0
  {
    var high: int := message[offset];
    (high - 0xC0) * 256 + message[offset + 1]
  }

  /** Following `path` from `offset` leads to a terminating zero. */
  ghost predicate Walks(message: seq<byte>, offset: nat, path: seq<Hop>)
    decreases |path|
  {
    offset < |message| &&
    if path == [] then message[offset] == 0
    else
      match path[0]
      case Label(text) =>
        var end := offset + 1 + message[offset];
        && 0 < message[offset] < 0xC0
        && end <= |message|
        && Decode(message[offset + 1..end]) == Some(text)
        && Walks(message, end, path[1..])
      case Pointer(target) =>
        && message[offset] >= 0xC0
        && offset + 1 < |message|
        && target == PointerAt(message, offset)
        && Walks(message, target, path[1..])
  }

  function Jumps(path: seq<Hop>): nat
  {
    if path == [] then 0 else (if path[0].Pointer? then 1 else 0) + Jumps(path[1..])
  }

  function LabelsOf(path: seq<Hop>): seq<string>
  {
    if path == [] then []
    else (if path[0].Label? then [path[0].text] else []) + LabelsOf(path[1..])
  }

  /** Where the encoded form of a name ends: after its zero, or after its first
      pointer. */
  function EndOf(offset: nat, path: seq<Hop>): nat
    decreases |path|
  {
    if path == [] then offset + 1
    else
      match path[0]
      case Label(text) => EndOf(offset + 1 + |Encode(text)|, path[1..])
      case Pointer(_) => offset + 2
  }

  // ----- the parser -----

  /** What stands at one offset: nothing readable, the end of a name, a pointer,
      or a text that ends at `end`. */
  datatype Move = Broken | Stop | Jump(target: nat) | Read(text: string, end: nat)

  function MoveAt(message: seq<byte>, offset: nat): (move: Move)
    ensures move.Jump? || move.Stop? ==> offset < |message|
    ensures move.Read? ==> offset < move.end <= |message|
  {
    if offset >= |message| then Broken
    else if message[offset] >= 0xC0 then
      if offset + 1 < |message| then Jump(PointerAt(message, offset)) else Broken
    else if message[offset] == 0 then Stop
    else
      var end := offset + 1 + message[offset];
      if end > |message| then Broken
      else
        var text := Decode(message[offset + 1..end]);
        if text.Some? then Read(text.value, end) else Broken
  }

  function After(read: seq<string>, rest: Option<seq<string>>): Option<seq<string>>
  {
    if rest.Some? then Some(read + rest.value) else None
  }

  function BytesLeft(message: seq<byte>, offset: nat): nat
  {
    if offset < |message| then |message| - offset else 0
  }

  /** The labels read from `offset` on, when `jumps` pointers have been followed. */
  function Labels(message: seq<byte>, offset: nat, jumps: nat): Option<seq<string>>
    requires jumps <= MAX_JUMPS
    decreases MAX_JUMPS - jumps, BytesLeft(message, offset)
  {
    match MoveAt(message, offset)
    case Broken => None
    case Stop => Some([])
    case Jump(target) => if jumps < MAX_JUMPS then Labels(message, target, jumps + 1) else None
    case Read(text, end) => After([text], Labels(message, end, jumps))
  }

  function NameEnd(message: seq<byte>, offset: nat): (end: nat)
    ensures offset < end
    decreases BytesLeft(message, offset)
  {
    match MoveAt(message, offset)
    case Broken => offset + 1
    case Stop => offset + 1
    case Jump(_) => offset + 2
    case Read(_, end) => NameEnd(message, end)
  }

  /** The name at `offset` and the offset just past its encoded form. */
  function Name(message: seq<byte>, offset: nat): Option<(string, nat)>
  {
    var labels :- Labels(message, offset, 0);
    Some((Join(labels, '.'), NameEnd(message, offset)))
  }

  lemma AfterNothing(rest: Option<seq<string>>)
    ensures After([], rest) == rest
  {
    if rest.Some? {
      assert [] + rest.value == rest.value;
    }
  }

  lemma AfterOne(read: seq<string>, text: string, rest: Option<seq<string>>)
    ensures After(read + [text], rest) == After(read, After([text], rest))
  {
    if rest.Some? {
      Associative(read, [text], rest.value);
    }
  }

  /** One look at the message. */
  method Look(message: seq<byte>, offset: nat) returns (move: Move)
    ensures move == MoveAt(message, offset)
  {
    if offset >= |message| {
      return Broken;
    }
    var length := message[offset];
    if length >= 0xC0 {
      if offset + 1 >= |message| {
        return Broken;
      }
      return Jump(PointerAt(message, offset));
    }
    if length == 0 {
      return Stop;
    }
    var end := offset + 1 + length;
    if end > |message| {
      return Broken;
    }
    var text := Decode(message[offset + 1..end]);
    return if text.Some? then Read(text.value, end) else Broken;
  }

  /** `parse_name`: it always ends, because every turn either follows one of at
      most sixteen pointers or moves forward. */
  method ParseName(message: seq<byte>, start: nat) returns (name: Option<(string, nat)>)
    ensures name == Name(message, start)
  {
    var offset: nat := start;
    var labels: seq<string> := [];
    var endOfName: Option<nat> := None;
    var jumps := 0;
    ghost var whole := Labels(message, start, 0);
    AfterNothing(whole);
    while true
      invariant 0 <= jumps <= MAX_JUMPS
      invariant whole == After(labels, Labels(message, offset, jumps))
      invariant NameEnd(message, start) == if endOfName.Some? then endOfName.value else NameEnd(message, offset)
      decreases MAX_JUMPS - jumps, BytesLeft(message, offset)
    {
      var move := Look(message, offset);
      match move
      case Broken =>
        return None;
      case Stop =>
        if endOfName.None? {
          endOfName := Some(offset + 1);
        }
        break;
      case Jump(target) =>
        if endOfName.None? {
          endOfName := Some(offset + 2);
        }
        if jumps + 1 > MAX_JUMPS {
          return None;
        }
        jumps := jumps + 1;
        offset := target;
      case Read(text, end) =>
        AfterOne(labels, text, Labels(message, end, jumps));
        labels := labels + [text];
        offset := end;
    }
    assert labels + [] == labels;
    return Some((Join(labels, '.'), endOfName.value));
  }

  // ----- the parser finds exactly the names that are there -----

  function Expected(path: seq<Hop>, jumps: nat): Option<seq<string>>
  {
    if jumps + Jumps(path) <= MAX_JUMPS then Some(LabelsOf(path)) else None
  }

  lemma ExpectedAfterLabel(path: seq<Hop>, jumps: nat)
    requires path != [] && path[0].Label?
    ensures Expected(path, jumps) == After([path[0].text], Expected(path[1..], jumps))
  {
  }

  lemma ExpectedAfterPointer(path: seq<Hop>, jumps: nat)
    requires path != [] && path[0].Pointer?
    ensures Expected(path, jumps) == Expected(path[1..], jumps + 1)
  {
    assert LabelsOf(path) == LabelsOf(path[1..]);
  }

  /** The first hop of a walk is the move that the reader makes. */
  lemma HopIsMove(message: seq<byte>, offset: nat, path: seq<Hop>)
    requires Walks(message, offset, path)
    ensures path == [] ==> MoveAt(message, offset) == Stop
    ensures path != [] && path[0].Pointer? ==> MoveAt(message, offset) == Jump(path[0].target)
    ensures path != [] && path[0].Label? ==>
      MoveAt(message, offset) == Read(path[0].text, offset + 1 + |Encode(path[0].text)|)
  {
    if path != [] && path[0].Label? {
      EncodeOfDecode(message[offset + 1..offset + 1 + message[offset]]);
    }
  }

  /** After its first hop a walk is a walk from where that leads. */
  lemma WalkGoesOn(message: seq<byte>, offset: nat, path: seq<Hop>)
    requires Walks(message, offset, path) && path != []
    ensures path[0].Pointer? ==> Walks(message, path[0].target, path[1..])
    ensures path[0].Label? ==> Walks(message, offset + 1 + |Encode(path[0].text)|, path[1..])
  {
    if path[0].Label? {
      EncodeOfDecode(message[offset + 1..offset + 1 + message[offset]]);
    }
  }

  lemma {:induction false} WalkIsRead(message: seq<byte>, offset: nat, path: seq<Hop>, jumps: nat)
    requires Walks(message, offset, path) && jumps <= MAX_JUMPS
    ensures Labels(message, offset, jumps) == Expected(path, jumps)
    ensures NameEnd(message, offset) == EndOf(offset, path)
    decreases |path|
  {
    HopIsMove(message, offset, path);
    if path != [] {
      WalkGoesOn(message, offset, path);
      if path[0].Label? {
        ExpectedAfterLabel(path, jumps);
        WalkIsRead(message, offset + 1 + |Encode(path[0].text)|, path[1..], jumps);
      } else {
        ExpectedAfterPointer(path, jumps);
        if jumps < MAX_JUMPS {
          WalkIsRead(message, path[0].target, path[1..], jumps + 1);
        }
      }
    }
  }

  lemma {:induction false} ReadIsAWalk(message: seq<byte>, offset: nat, jumps: nat) returns (path: seq<Hop>)
    requires jumps <= MAX_JUMPS && Labels(message, offset, jumps).Some?
    ensures Walks(message, offset, path) && jumps + Jumps(path) <= MAX_JUMPS
    decreases MAX_JUMPS - jumps, BytesLeft(message, offset)
  {
    match MoveAt(message, offset)
    case Stop =>
      path := [];
    case Jump(target) =>
      var rest := ReadIsAWalk(message, target, jumps + 1);
      path := [Pointer(target)] + rest;
    case Read(text, end) =>
      var rest := ReadIsAWalk(message, end, jumps);
      path := [Label(text)] + rest;
  }

  ghost predicate NamedBy(message: seq<byte>, offset: nat, path: seq<Hop>, text: string, end: nat)
  {
    && Walks(message, offset, path)
    && Jumps(path) <= MAX_JUMPS
    && text == Join(LabelsOf(path), '.')
    && end == EndOf(offset, path)
  }

  /** A name is read exactly when some walk with at most sixteen pointers leads
      from `offset` to a zero; it is that walk's labels, and it ends just past
      the first pointer of the walk, or past the zero when there is none. */
  lemma NamesAreWalks(message: seq<byte>, offset: nat, text: string, end: nat)
    ensures Name(message, offset) == Some((text, end)) <==> exists path :: NamedBy(message, offset, path, text, end)
  {
    if Name(message, offset) == Some((text, end)) {
      var path := ReadIsAWalk(message, offset, 0);
      WalkIsRead(message, offset, path, 0);
      assert NamedBy(message, offset, path, text, end);
    }
    if path :| NamedBy(message, offset, path, text, end) {
      WalkIsRead(message, offset, path, 0);
    }
  }

  lemma {:induction false} NameEndIsInside(message: seq<byte>, offset: nat, jumps: nat)
    requires jumps <= MAX_JUMPS && Labels(message, offset, jumps).Some?
    ensures offset < NameEnd(message, offset) <= |message|
    decreases BytesLeft(message, offset)
  {
    if MoveAt(message, offset).Read? {
      NameEndIsInside(message, MoveAt(message, offset).end, jumps);
    }
  }

  /** A parsed name lies inside the message and is not empty on the wire. */
  lemma ParsingAdvances(message: seq<byte>, offset: nat)
    requires Name(message, offset).Some?
    ensures offset < Name(message, offset).value.1 <= |message|
  {
    NameEndIsInside(message, offset, 0);
  }

  // ----- encoding -----

  const MAX_LABEL := 63

  /** `trim_end_matches('.')`. */
  function TrimDots(name: string): string
  {
    if name != "" && name[|name| - 1] == '.' then TrimDots(name[..|name| - 1]) else name
  }

  function Truncated(text: string): (b: seq<byte>)
    ensures |b| <= MAX_LABEL
  {
    var bytes := Encode(text);
    if |bytes| <= MAX_LABEL then bytes else bytes[..MAX_LABEL]
  }

  function EncodedLabels(labels: seq<string>): seq<byte>
  {
    if labels == [] then [] else [|Truncated(labels[0])|] + Truncated(labels[0]) + EncodedLabels(labels[1..])
  }

  function Encoded(name: string): seq<byte>
  {
    EncodedLabels(Split(TrimDots(name), '.')) + [0]
  }

  lemma {:induction false} EncodedLabelsAppend(labels: seq<string>, text: string)
    ensures EncodedLabels(labels + [text]) == EncodedLabels(labels) + ([|Truncated(text)|] + Truncated(text))
  {
    if labels == [] {
      assert [text][1..] == [];
    } else {
      assert (labels + [text])[1..] == labels[1..] + [text];
      EncodedLabelsAppend(labels[1..], text);
    }
  }

  lemma EncodedLabelsNext(labels: seq<string>, i: nat)
    requires i < |labels|
    ensures EncodedLabels(labels[..i + 1])
      == EncodedLabels(labels[..i]) + ([|Truncated(labels[i])|] + Truncated(labels[i]))
  {
    EncodedLabelsAppend(labels[..i], labels[i]);
    assert labels[..i + 1] == labels[..i] + [labels[i]];
  }

  /** `encode_name`, onto the end of a message under construction. */
  method EncodeName(message: seq<byte>, name: string) returns (out: seq<byte>)
    ensures out == message + Encoded(name)
  {
    var labels := Split(TrimDots(name), '.');
    out := message;
    for i := 0 to |labels|
      invariant out == message + EncodedLabels(labels[..i])
    {
      Associative(message, EncodedLabels(labels[..i]), [|Truncated(labels[i])|] + Truncated(labels[i]));
      EncodedLabelsNext(labels, i);
      out := PushLabel(out, labels[i]);
    }
    assert labels[..|labels|] == labels;
    Associative(message, EncodedLabels(labels), [0]);
    out := out + [0];
  }

  method PushLabel(message: seq<byte>, text: string) returns (out: seq<byte>)
    ensures out == message + ([|Truncated(text)|] + Truncated(text))
  {
    var bytes := Encode(text);
    var kept := if |bytes| <= MAX_LABEL then |bytes| else MAX_LABEL;
    assert bytes[..kept] == Truncated(text);
    out := message + [kept];
    out := out + bytes[..kept];
  }

  // ----- parsing what was encoded -----

  /** An encoded label: its size, and its text unless the cut broke a character. */
  datatype Chunk = Chunk(size: nat, text: Option<string>)

  function ChunkOf(text: string): Chunk
  {
    Chunk(|Truncated(text)|, Decode(Truncated(text)))
  }

  function ChunksOf(labels: seq<string>): (chunks: seq<Chunk>)
    ensures |chunks| == |labels|
  {
    if labels == [] then [] else [ChunkOf(labels[0])] + ChunksOf(labels[1..])
  }

  /** What the parser makes of encoded labels: nothing from the first empty one
      on, and nothing at all when a broken one comes before it. */
  function Reading(chunks: seq<Chunk>): Option<seq<string>>
  {
    if chunks == [] || chunks[0].size == 0 then Some([])
    else if chunks[0].text.None? then None
    else After([chunks[0].text.value], Reading(chunks[1..]))
  }

  /** How many bytes it takes doing so. */
  function ReadingSize(chunks: seq<Chunk>): nat
  {
    if chunks == [] || chunks[0].size == 0 then 1 else 1 + chunks[0].size + ReadingSize(chunks[1..])
  }

  /** The moves a reader finds in encoded labels. */
  ghost predicate Shows(message: seq<byte>, offset: nat, chunks: seq<Chunk>)
    decreases |chunks|
  {
    if chunks == [] || chunks[0].size == 0 then MoveAt(message, offset) == Stop
    else if chunks[0].text.None? then MoveAt(message, offset) == Broken
    else
      var end := offset + 1 + chunks[0].size;
      MoveAt(message, offset) == Read(chunks[0].text.value, end) && Shows(message, end, chunks[1..])
  }

  lemma {:induction false} ReadsWhatItShows(message: seq<byte>, offset: nat, chunks: seq<Chunk>)
    requires Shows(message, offset, chunks)
    ensures Labels(message, offset, 0) == Reading(chunks)
    ensures Reading(chunks).Some? ==> NameEnd(message, offset) == offset + ReadingSize(chunks)
    decreases |chunks|
  {
    if chunks != [] && chunks[0].size != 0 && chunks[0].text.Some? {
      ReadsWhatItShows(message, offset + 1 + chunks[0].size, chunks[1..]);
    }
  }

  ghost predicate Placed(message: seq<byte>, offset: nat, labels: seq<string>, after: seq<byte>)
  {
    offset <= |message| && message[offset..] == EncodedLabels(labels) + [0] + after
  }

  lemma {:induction false} PlacedShows(message: seq<byte>, offset: nat, labels: seq<string>, after: seq<byte>)
    requires Placed(message, offset, labels, after)
    ensures Shows(message, offset, ChunksOf(labels))
    decreases |labels|
  {
    if labels == [] || labels[0] == "" {
      PlacedEnd(message, offset, labels, after);
    } else {
      var end := PlacedMove(message, offset, labels, after);
      PlacedShows(message, end, labels[1..], after);
      ChunksHead(labels, ChunksOf(labels)[0]);
    }
  }

  lemma PlacedMove(message: seq<byte>, offset: nat, labels: seq<string>, after: seq<byte>) returns (end: nat)
    requires Placed(message, offset, labels, after) && labels != [] && labels[0] != ""
    ensures Placed(message, end, labels[1..], after)
    ensures var chunk := ChunksOf(labels)[0];
      && chunk.size != 0 && end == offset + 1 + chunk.size
      && MoveAt(message, offset) == if chunk.text.Some? then Read(chunk.text.value, end) else Broken
  {
    var chunk := ChunkOf(labels[0]);
    end := offset + 1 + chunk.size;
    PlacedHead(message, offset, labels, after, Truncated(labels[0]));
    PlacedLabel(message, offset, labels, after);
    ChunksHead(labels, chunk);
  }

  lemma PlacedLabel(message: seq<byte>, offset: nat, labels: seq<string>, after: seq<byte>)
    requires Placed(message, offset, labels, after) && labels != [] && labels[0] != ""
    ensures var chunk := ChunkOf(labels[0]);
      && chunk.size != 0
      && MoveAt(message, offset)
         == if chunk.text.Some? then Read(chunk.text.value, offset + 1 + chunk.size) else Broken
  {
    PlacedHead(message, offset, labels, after, Truncated(labels[0]));
    MoveAtLabel(message, offset, labels[0], ChunkOf(labels[0]));
  }

  lemma ChunksHead(labels: seq<string>, chunk: Chunk)
    requires labels != [] && (chunk == ChunkOf(labels[0]) || chunk == ChunksOf(labels)[0])
    ensures ChunksOf(labels)[0] == chunk && ChunksOf(labels)[1..] == ChunksOf(labels[1..])
  {
  }

  lemma PlacedEnd(message: seq<byte>, offset: nat, labels: seq<string>, after: seq<byte>)
    requires Placed(message, offset, labels, after) && (labels == [] || labels[0] == "")
    ensures MoveAt(message, offset) == Stop
    ensures labels != [] ==> ChunksOf(labels)[0].size == 0
  {
    EncodedEnd(labels, after);
    assert message[offset] == message[offset..][0];
  }

  lemma PlacedHead(message: seq<byte>, offset: nat, labels: seq<string>, after: seq<byte>, b: seq<byte>)
    requires Placed(message, offset, labels, after) && labels != [] && b == Truncated(labels[0])
    ensures Placed(message, offset + 1 + |b|, labels[1..], after)
    ensures message[offset] == |b| && message[offset + 1..offset + 1 + |b|] == b
  {
    EncodedHead(labels, after);
    HeadLabel(message, offset, b, EncodedLabels(labels[1..]) + [0] + after);
  }

  lemma MoveAtLabel(message: seq<byte>, offset: nat, text: string, chunk: Chunk)
    requires text != "" && chunk == ChunkOf(text) && offset + 1 + chunk.size <= |message|
    requires message[offset] == chunk.size && message[offset + 1..offset + 1 + chunk.size] == Truncated(text)
    ensures chunk.size != 0
    ensures MoveAt(message, offset)
      == if chunk.text.Some? then Read(chunk.text.value, offset + 1 + chunk.size) else Broken
  {
  }

  lemma EncodedEnd(labels: seq<string>, after: seq<byte>)
    requires labels == [] || labels[0] == ""
    ensures (EncodedLabels(labels) + [0] + after)[0] == 0
  {
  }

  lemma EncodedHead(labels: seq<string>, after: seq<byte>)
    requires labels != []
    ensures EncodedLabels(labels) + [0] + after
      == [|Truncated(labels[0])|] + Truncated(labels[0]) + (EncodedLabels(labels[1..]) + [0] + after)
  {
    var b, rest := Truncated(labels[0]), EncodedLabels(labels[1..]);
    Associative([|b|] + b + rest, [0], after);
    Associative([|b|] + b, rest, [0] + after);
    Associative(rest, [0], after);
  }

  lemma HeadLabel(message: seq<byte>, offset: nat, b: seq<byte>, rest: seq<byte>)
    requires |b| < 256 && offset <= |message| && message[offset..] == [|b|] + b + rest
    ensures offset + 1 + |b| <= |message| && message[offset] == |b|
    ensures message[offset + 1..offset + 1 + |b|] == b && message[offset + 1 + |b|..] == rest
  {
    var end := offset + 1 + |b|;
    assert message[offset] == message[offset..][0];
    assert message[offset + 1..end] == message[offset..][1..1 + |b|];
    assert message[end..] == message[offset..][1 + |b|..];
  }

  function Bytes(labels: seq<string>): nat
  {
    if labels == [] then 0 else |Encode(labels[0])| + Bytes(labels[1..])
  }

  lemma {:induction false} BytesOfJoin(labels: seq<string>)
    requires labels != []
    ensures |Encode(Join(labels, '.'))| == Bytes(labels) + |labels| - 1
  {
    if |labels| > 1 {
      BytesOfJoin(labels[1..]);
      EncodeAppend(labels[0] + ".", Join(labels[1..], '.'));
      EncodeAppend(labels[0], ".");
      assert Encode(".") == EncodeChar('.') + Encode("");
    }
  }

  /** The labels RFC 1035 allows: 1 to 63 bytes each. */
  predicate Legal(labels: seq<string>)
  {
    forall text | text in labels :: 1 <= |Encode(text)| <= MAX_LABEL
  }

  lemma {:induction false} LegalLabelsAreReadBack(labels: seq<string>)
    requires Legal(labels)
    ensures Reading(ChunksOf(labels)) == Some(labels)
    ensures ReadingSize(ChunksOf(labels)) == |EncodedLabels(labels)| + 1
  {
    if labels != [] {
      LegalCons(labels);
      LegalLabelsAreReadBack(labels[1..]);
      LegalChunk(labels[0]);
      ChunksHead(labels, Chunk(|Encode(labels[0])|, Some(labels[0])));
      assert labels == [labels[0]] + labels[1..];
    }
  }

  lemma LegalChunk(text: string)
    requires 1 <= |Encode(text)| <= MAX_LABEL
    ensures ChunkOf(text) == Chunk(|Encode(text)|, Some(text))
  {
    DecodeOfEncode(text);
  }

  /** A label of no other size survives: cut, it comes back shorter. */
  lemma OtherChunk(text: string, chunk: Chunk)
    requires chunk == ChunkOf(text) && chunk.text.Some?
    ensures |Encode(chunk.text.value)| == chunk.size <= |Encode(text)|
    ensures |Encode(text)| > MAX_LABEL ==> chunk.size < |Encode(text)|
  {
    EncodeOfDecode(Truncated(text));
  }

  /** Labels that are not all legal are lost: an empty one ends the name early, a
      long one makes it shorter. */
  lemma {:induction false} OtherLabelsAreNot(labels: seq<string>)
    ensures
      var chunks := ChunksOf(labels);
      var read := Reading(chunks);
      && ReadingSize(chunks) <= |EncodedLabels(labels)| + 1
      && (ReadingSize(chunks) == |EncodedLabels(labels)| + 1 && read.Some? ==>
            && |read.value| == |labels|
            && Bytes(read.value) <= Bytes(labels)
            && (!Legal(labels) ==> Bytes(read.value) < Bytes(labels)))
  {
    if labels == [] {
    } else if labels[0] == "" {
      assert ChunksOf(labels)[0].size == 0;
      assert |EncodedLabels(labels)| >= 1;
    } else {
      var rest, chunk := labels[1..], ChunkOf(labels[0]);
      OtherLabelsAreNot(rest);
      LegalCons(labels);
      ChunksHead(labels, chunk);
      var read := Reading(ChunksOf(labels));
      if read.Some? {
        OtherChunk(labels[0], chunk);
        assert read.value == [chunk.text.value] + Reading(ChunksOf(rest)).value;
        assert read.value[1..] == Reading(ChunksOf(rest)).value;
      }
    }
  }

  lemma LegalCons(labels: seq<string>)
    requires labels != []
    ensures Legal(labels) <==> 1 <= |Encode(labels[0])| <= MAX_LABEL && Legal(labels[1..])
  {
    assert forall text :: text in labels <==> text == labels[0] || text in labels[1..];
  }

  /** Parsing undoes encoding, wherever the encoded name stands in a message:
      the name without its final dots comes back, with the exact offset of its
      end, if and only if each of its labels has 1 to 63 bytes. */
  lemma ParsingUndoesEncoding(before: seq<byte>, name: string, after: seq<byte>)
    ensures
      Name(before + Encoded(name) + after, |before|) == Some((TrimDots(name), |before| + |Encoded(name)|))
      <==> Legal(Split(TrimDots(name), '.'))
  {
    var labels := Split(TrimDots(name), '.');
    var chunks := ChunksOf(labels);
    EncodedInPlace(before, labels, after);
    JoinOfSplit(TrimDots(name), '.');
    if Legal(labels) {
      LegalLabelsAreReadBack(labels);
    } else {
      OtherNamesAreNot(labels);
    }
  }

  /** If the size is right, the name is too short. */
  lemma OtherNamesAreNot(labels: seq<string>)
    requires labels != [] && !Legal(labels)
    ensures
      var chunks := ChunksOf(labels);
      Reading(chunks).Some? && ReadingSize(chunks) == |EncodedLabels(labels)| + 1 ==>
        Join(Reading(chunks).value, '.') != Join(labels, '.')
  {
    OtherLabelsAreNot(labels);
    var chunks := ChunksOf(labels);
    var read := Reading(chunks);
    if read.Some? && ReadingSize(chunks) == |EncodedLabels(labels)| + 1 {
      BytesOfJoin(labels);
      BytesOfJoin(read.value);
    }
  }

  lemma EncodedInPlace(before: seq<byte>, labels: seq<string>, after: seq<byte>)
    ensures
      var message, chunks := before + (EncodedLabels(labels) + [0]) + after, ChunksOf(labels);
      && Labels(message, |before|, 0) == Reading(chunks)
      && (Reading(chunks).Some? ==> NameEnd(message, |before|) == |before| + ReadingSize(chunks))
  {
    var message := before + (EncodedLabels(labels) + [0]) + after;
    DropHead(before, EncodedLabels(labels) + [0], after);
    PlacedShows(message, |before|, labels, after);
    ReadsWhatItShows(message, |before|, ChunksOf(labels));
  }
}

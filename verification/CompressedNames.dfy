/** Compressed names byte by byte (`server/src/matter/mdns_browser.rs`; RFC 1035,
    section 4.1.4): what stands in a message, and what is read there. */
module CompressedNames {
  import opened DnsNames
  import opened Text
  import opened Utf8
  import opened Wrappers

  /** A label of 1 to 63 bytes: its length, then its bytes. */
  predicate LabelStands(message: seq<byte>, offset: nat, text: string)
  {
    var size := |Encode(text)|;
    && 1 <= size <= 63 && offset + 1 + size <= |message|
    && message[offset] == size && message[offset + 1..offset + 1 + size] == Encode(text)
  }

  /** Labels, one behind the other, up to an offset. */
  predicate LabelsStand(message: seq<byte>, offset: nat, labels: seq<string>, end: nat)
    decreases |labels|
  {
    if labels == [] then offset == end
    else
      LabelStands(message, offset, labels[0])
      && LabelsStand(message, offset + 1 + |Encode(labels[0])|, labels[1..], end)
  }

  /** Two bytes: two set bits, and fourteen that are an offset. */
  predicate PointerStands(message: seq<byte>, offset: nat, target: nat)
  {
    && target < 0x4000 && offset + 1 < |message|
    && message[offset] == 0xC0 + target / 256 && message[offset + 1] == target % 256
  }

  /** A run of labels up to `end`, and where the next one stands. */
  datatype Part = Part(labels: seq<string>, end: nat)

  /** The first part stands at the offset, each part ends in a pointer to the next,
      and the last in a zero. */
  ghost predicate ChainStands(message: seq<byte>, offset: nat, parts: seq<Part>)
    requires parts != []
    decreases |parts|
  {
    && LabelsStand(message, offset, parts[0].labels, parts[0].end)
    && if |parts| == 1 then parts[0].end < |message| && message[parts[0].end] == 0
       else exists target ::
         PointerStands(message, parts[0].end, target) && ChainStands(message, target, parts[1..])
  }

  function AllLabels(parts: seq<Part>): seq<string>
  {
    if parts == [] then [] else parts[0].labels + AllLabels(parts[1..])
  }

  lemma LabelIsRead(message: seq<byte>, offset: nat, text: string)
    requires LabelStands(message, offset, text)
    ensures MoveAt(message, offset) == Read(text, offset + 1 + |Encode(text)|)
  {
    DecodeOfEncode(text);
  }

  /** What reading from two places comes to, when one is behind some labels. */
  ghost predicate ReadsBefore(message: seq<byte>, offset: nat, labels: seq<string>, end: nat, jumps: nat)
    requires jumps <= 16
  {
    && Labels(message, offset, jumps) == After(labels, Labels(message, end, jumps))
    && NameEnd(message, offset) == NameEnd(message, end)
  }

  lemma FirstIsRead(message: seq<byte>, offset: nat, labels: seq<string>, end: nat, jumps: nat) returns (next: nat)
    requires LabelsStand(message, offset, labels, end) && labels != [] && jumps <= 16
    ensures LabelsStand(message, next, labels[1..], end) && ReadsBefore(message, offset, labels[..1], next, jumps)
  {
    next := offset + 1 + |Encode(labels[0])|;
    LabelIsRead(message, offset, labels[0]);
    assert labels[..1] == [labels[0]];
  }

  lemma NothingBefore(message: seq<byte>, offset: nat, jumps: nat)
    requires jumps <= 16
    ensures ReadsBefore(message, offset, [], offset, jumps)
  {
    AfterNothing(Labels(message, offset, jumps));
  }

  lemma BothBefore(
    message: seq<byte>, first: nat, a: seq<string>, second: nat, b: seq<string>, third: nat, jumps: nat)
    requires jumps <= 16
    requires ReadsBefore(message, first, a, second, jumps) && ReadsBefore(message, second, b, third, jumps)
    ensures ReadsBefore(message, first, a + b, third, jumps)
  {
    AfterBoth(a, b, Labels(message, third, jumps));
  }

  lemma {:induction false} LabelsAreRead(
    message: seq<byte>, offset: nat, labels: seq<string>, end: nat, jumps: nat)
    requires LabelsStand(message, offset, labels, end) && jumps <= 16
    ensures ReadsBefore(message, offset, labels, end, jumps)
    decreases |labels|
  {
    if labels == [] {
      NothingBefore(message, offset, jumps);
    } else {
      var next := FirstIsRead(message, offset, labels, end, jumps);
      LabelsAreRead(message, next, labels[1..], end, jumps);
      BothBefore(message, offset, labels[..1], next, labels[1..], end, jumps);
      Whole(labels);
    }
  }

  lemma Whole<T>(s: seq<T>)
    requires s != []
    ensures s[..1] + s[1..] == s
  {
  }

  lemma AfterBoth(a: seq<string>, b: seq<string>, rest: Option<seq<string>>)
    ensures After(a, After(b, rest)) == After(a + b, rest)
  {
    if rest.Some? {
      Associative(a, b, rest.value);
    }
  }

  lemma PointerIsFollowed(message: seq<byte>, offset: nat, target: nat, jumps: nat)
    requires PointerStands(message, offset, target) && jumps <= 16
    ensures Labels(message, offset, jumps) == if jumps < 16 then Labels(message, target, jumps + 1) else None
    ensures NameEnd(message, offset) == offset + 2
  {
    var high: int, low: int := message[offset], message[offset + 1];
    assert (high - 0xC0) * 256 + low == target;
    assert MoveAt(message, offset) == Jump(target);
  }

  lemma {:induction false} PartsAreRead(message: seq<byte>, offset: nat, parts: seq<Part>, jumps: nat)
    requires parts != [] && ChainStands(message, offset, parts) && jumps <= 16
    ensures Labels(message, offset, jumps) == if jumps + |parts| <= 17 then Some(AllLabels(parts)) else None
    ensures NameEnd(message, offset) == parts[0].end + if |parts| == 1 then 1 else 2
    decreases |parts|
  {
    var Part(labels, end) := parts[0];
    LabelsAreRead(message, offset, labels, end, jumps);
    if |parts| == 1 {
      assert MoveAt(message, end) == Stop && AllLabels(parts[1..]) == [];
    } else {
      var target :| PointerStands(message, end, target) && ChainStands(message, target, parts[1..]);
      PointerIsFollowed(message, end, target, jumps);
      if jumps < 16 {
        PartsAreRead(message, target, parts[1..], jumps + 1);
      }
    }
  }

  /** A chain of labels and pointers is read as all its labels, joined, if and only
      if it has at most sixteen pointers; the name ends behind the zero, or behind
      the first pointer if there is one. */
  lemma ChainIsRead(message: seq<byte>, offset: nat, parts: seq<Part>)
    requires parts != [] && ChainStands(message, offset, parts)
    ensures Name(message, offset)
      == if |parts| <= 17
         then Some((Join(AllLabels(parts), '.'), parts[0].end + if |parts| == 1 then 1 else 2))
         else None
  {
    PartsAreRead(message, offset, parts, 0);
  }

  /** A pointer alone stands for the name it points to. */
  lemma PointerStandsForItsTarget(message: seq<byte>, offset: nat, target: nat)
    requires PointerStands(message, offset, target)
    ensures Name(message, offset).Some? ==>
      Name(message, target).Some? && Name(message, offset).value == (Name(message, target).value.0, offset + 2)
  {
    PointerIsFollowed(message, offset, target, 0);
    if Labels(message, target, 1).Some? {
      FewerJumps(message, target, 0);
    }
  }

  /** What is read with less room for pointers is read with more. */
  lemma {:induction false} FewerJumps(message: seq<byte>, offset: nat, jumps: nat)
    requires jumps < 16 && Labels(message, offset, jumps + 1).Some?
    ensures Labels(message, offset, jumps) == Labels(message, offset, jumps + 1)
    decreases 16 - jumps, BytesLeft(message, offset)
  {
    match MoveAt(message, offset)
    case Jump(target) => FewerJumps(message, target, jumps + 1);
    case Read(_, end) => FewerJumps(message, end, jumps);
    case _ =>
  }

  /** A label may be written if it has 1 to 63 bytes. */
  lemma LegalInNumbers(labels: seq<string>)
    ensures Legal(labels) <==> forall text | text in labels :: 1 <= |Encode(text)| <= 63
  {
  }

  /** Every dot at a name's end is left out, and nothing else. */
  lemma FinalDots(name: string)
    ensures TrimDots(name + ".") == TrimDots(name)
    ensures name == "" || name[|name| - 1] != '.' ==> TrimDots(name) == name
  {
    assert (name + ".")[..|name|] == name;
  }
}

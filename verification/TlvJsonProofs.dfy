/** Encoding a payload and reading it back gives the payload by tag. */
module TlvJsonProofs {
  import Base64
  import Decimal
  import opened FieldKinds
  import opened Json
  import opened Tlv
  import opened TlvJson
  import opened Wrappers

  // ----- what a written node reads as -----

  function ElementOf(node: Node): Element
    decreases node, 1
  {
    match node
    case NullNode => Single(Nothing)
    case BoolNode(flag) => Single(Boolean(flag))
    case U64Node(n) => Single(Unsigned(n))
    case I64Node(n) => Single(Signed(n))
    case F64Node(bits) => Single(Floating(bits))
    case Utf8Node(text) => Single(Utf8String(text))
    case BytesNode(bytes) => Single(OctetString(bytes))
    case StructNode(members) => Container(false, MemberElements(members))
    case ArrayNode(items) => Container(true, ItemElements(items))
  }

  function MemberElements(members: seq<Tagged>): (children: seq<Child>)
    ensures |children| == |members|
    decreases members, 0
  {
    if members == [] then []
    else
      var head := members[0];
      assert head.node < head;
      [Child(Context(head.tag), ElementOf(head.node))] + MemberElements(members[1..])
  }

  function ItemElements(items: seq<Node>): (children: seq<Child>)
    ensures |children| == |items|
    decreases items, 0
  {
    if items == [] then [] else [Child(Anonymous, ElementOf(items[0]))] + ItemElements(items[1..])
  }

  /** Reading a written node back takes exactly its tokens. */
  lemma {:induction false} WrittenIsRead(node: Node, tag: Tag, rest: seq<Token>)
    ensures ReadElement(Written(node, tag) + rest) == Some((Child(tag, ElementOf(node)), rest))
    decreases node, 1
  {
    match node
    case StructNode(members) =>
      MembersAreRead(members, rest);
      var inside := WrittenMembers(members) + [Close] + rest;
      assert Written(node, tag) + rest == [Open(tag, false)] + inside;
    case ArrayNode(items) =>
      ItemsAreRead(items, rest);
      var inside := WrittenItems(items) + [Close] + rest;
      assert Written(node, tag) + rest == [Open(tag, true)] + inside;
    case _ =>
      assert (Written(node, tag) + rest)[1..] == rest;
  }

  lemma ReadMore(tokens: seq<Token>, child: Child, between: seq<Token>, children: seq<Child>, rest: seq<Token>)
    requires tokens != [] && tokens[0] != Close && ReadElement(tokens) == Some((child, between))
    requires ReadChildren(between) == Some((children, rest))
    ensures ReadChildren(tokens) == Some(([child] + children, rest))
  {
  }

  lemma WrittenStart(node: Node, tag: Tag)
    ensures Written(node, tag) != [] && Written(node, tag)[0] != Close
  {
  }

  lemma {:induction false} MembersAreRead(members: seq<Tagged>, rest: seq<Token>)
    ensures ReadChildren(WrittenMembers(members) + [Close] + rest) == Some((MemberElements(members), rest))
    decreases members, 0
  {
    var tokens := WrittenMembers(members) + [Close] + rest;
    if members == [] {
      assert tokens[1..] == rest;
    } else {
      var head := members[0];
      assert head.node < head;
      var between := WrittenMembers(members[1..]) + [Close] + rest;
      var first := Written(head.node, Context(head.tag));
      assert tokens == first + between;
      WrittenStart(head.node, Context(head.tag));
      WrittenIsRead(head.node, Context(head.tag), between);
      MembersAreRead(members[1..], rest);
      ReadMore(tokens, Child(Context(head.tag), ElementOf(head.node)), between, MemberElements(members[1..]), rest);
    }
  }

  lemma {:induction false} ItemsAreRead(items: seq<Node>, rest: seq<Token>)
    ensures ReadChildren(WrittenItems(items) + [Close] + rest) == Some((ItemElements(items), rest))
    decreases items, 0
  {
    var tokens := WrittenItems(items) + [Close] + rest;
    if items == [] {
      assert tokens[1..] == rest;
    } else {
      var between := WrittenItems(items[1..]) + [Close] + rest;
      assert tokens == Written(items[0], Anonymous) + between;
      WrittenStart(items[0], Anonymous);
      WrittenIsRead(items[0], Anonymous, between);
      ItemsAreRead(items[1..], rest);
      ReadMore(tokens, Child(Anonymous, ElementOf(items[0])), between, ItemElements(items[1..]), rest);
    }
  }

  // ----- a payload by tag -----

  /** The payload with every key, at every depth, replaced by its tag. Of members
      that address the same tag the last one stands. */
  function ByTag(value: Json, kind: FieldKind): Json
    decreases value, 1
  {
    match value
    case Arr(items) => Arr(ItemsByTag(items, ElementKind(kind)))
    case Obj(members) => Obj(Collect(MembersByTag(members, kind)))
    case _ => value
  }

  function ItemsByTag(items: seq<Json>, kind: FieldKind): (r: seq<Json>)
    ensures |r| == |items|
    decreases items, 0
  {
    if items == [] then []
    else ItemsByTag(items[..|items| - 1], kind) + [ByTag(items[|items| - 1], kind)]
  }

  function MembersByTag(members: seq<Member>, kind: FieldKind): (r: seq<Member>)
    ensures |r| == |members|
    decreases members, 0
  {
    if members == [] then []
    else
      var last := members[|members| - 1];
      assert last.value < last;
      var tag := ResolveKey(last.key, kind);
      MembersByTag(members[..|members| - 1], kind)
      + [if tag.Ok? then Member(Decimal.ToText(tag.value), ByTag(last.value, MemberKind(kind, tag.value))) else last]
  }

  /** Members under their decimal tags, each shown as `show` has it. */
  function Shown(show: Node -> Json, members: seq<Tagged>): (r: seq<Member>)
    ensures |r| == |members|
  {
    seq(|members|, i requires 0 <= i < |members| => Member(Decimal.ToText(members[i].tag), show(members[i].node)))
  }

  function Reading(): Node -> Json
  {
    (node: Node) => Decoded(ElementOf(node), map[])
  }

  /** What members read as, in their own order. */
  function Rendered(members: seq<Tagged>): (r: seq<Member>)
    ensures |r| == |members|
  {
    Shown(Reading(), members)
  }

  lemma MemberElementsAt(members: seq<Tagged>, i: nat)
    requires i < |members|
    ensures MemberElements(members)[i] == Child(Context(members[i].tag), ElementOf(members[i].node))
  {
    if i > 0 {
      MemberElementsAt(members[1..], i - 1);
    }
  }

  /** The names are for the keys of the top level: whatever they are, each member
      reads as it would without any, and so does everything inside it. */
  lemma {:induction false} DecodedMembersAt(children: seq<Child>, i: nat, names: map<nat, string>)
    requires i < |children|
    ensures DecodedMembers(children, names)[i]
      == Member(ChildKey(children[i].tag, i, names), Decoded(children[i].element, map[]))
    decreases |children|
  {
    if i < |children| - 1 {
      DecodedMembersAt(children[..|children| - 1], i, names);
    }
  }

  lemma MembersReadAsRendered(members: seq<Tagged>)
    ensures DecodedMembers(MemberElements(members), map[]) == Rendered(members)
  {
    forall i | 0 <= i < |members| ensures DecodedMembers(MemberElements(members), map[])[i] == Rendered(members)[i] {
      MemberElementsAt(members, i);
      DecodedMembersAt(MemberElements(members), i, map[]);
    }
  }

  // ----- sorting by tag does not change what is read -----

  lemma {:induction false} FieldsWithLaterKeys(before: seq<Member>, member: Member, after: seq<Member>)
    requires forall m | m in after :: m.key != member.key
    ensures Fields(before + [member] + after) == Fields(before + after)[member.key := member.value]
    decreases |after|
  {
    if after == [] {
      assert before + [member] + after == before + [member];
      assert before + after == before;
      assert (before + [member])[..|before|] == before;
    } else {
      var n := |after| - 1;
      var left, right := before + [member] + after, before + after;
      assert left[..|left| - 1] == before + [member] + after[..n];
      assert right[..|right| - 1] == before + after[..n];
      assert after[n] in after;
      FieldsWithLaterKeys(before, member, after[..n]);
    }
  }

  /** Where a member goes: after some, before only greater tags. */
  lemma {:induction false} InsertedBetween(members: seq<Tagged>, member: Tagged) returns (n: nat)
    ensures n <= |members| && InsertByTag(members, member) == members[..n] + [member] + members[n..]
    ensures forall i | n <= i < |members| :: members[i].tag > member.tag
    decreases |members|
  {
    if members == [] || members[|members| - 1].tag <= member.tag {
      n := |members|;
      assert members[..n] + [member] + members[n..] == members + [member];
    } else {
      var init := members[..|members| - 1];
      n := InsertedBetween(init, member);
      assert members == init + [members[|members| - 1]];
    }
  }

  lemma ShownAppend(show: Node -> Json, a: seq<Tagged>, b: seq<Tagged>)
    ensures Shown(show, a + b) == Shown(show, a) + Shown(show, b)
  {
  }

  lemma OtherTagsOtherKeys(show: Node -> Json, after: seq<Tagged>, tag: nat)
    requires forall i | 0 <= i < |after| :: after[i].tag != tag
    ensures forall m | m in Shown(show, after) :: m.key != Decimal.ToText(tag)
  {
    forall m | m in Shown(show, after) ensures m.key != Decimal.ToText(tag) {
      var i :| 0 <= i < |after| && Shown(show, after)[i] == m;
      if m.key == Decimal.ToText(tag) {
        Decimal.TextIsInjective(after[i].tag, tag);
      }
    }
  }

  lemma FieldsOneMore(members: seq<Member>, member: Member)
    ensures Fields(members + [member]) == Fields(members)[member.key := member.value]
  {
    assert (members + [member])[..|members|] == members;
  }

  lemma InsertedReadsAlike(show: Node -> Json, sorted: seq<Tagged>, last: Tagged)
    ensures Fields(Shown(show, InsertByTag(sorted, last)))
      == Fields(Shown(show, sorted))[Decimal.ToText(last.tag) := show(last.node)]
  {
    var n := InsertedBetween(sorted, last);
    var before, after := sorted[..n], sorted[n..];
    var member := Member(Decimal.ToText(last.tag), show(last.node));
    OtherTagsOtherKeys(show, after, last.tag);
    ShownAppend(show, before + [last], after);
    ShownAppend(show, before, [last]);
    assert Shown(show, [last]) == [member];
    FieldsWithLaterKeys(Shown(show, before), member, Shown(show, after));
    ShownAppend(show, before, after);
    assert sorted == before + after;
  }

  lemma {:induction false} SortedReadsAlike(show: Node -> Json, members: seq<Tagged>)
    ensures Fields(Shown(show, SortByTag(members))) == Fields(Shown(show, members))
    decreases |members|
  {
    if members != [] {
      var init, last := members[..|members| - 1], members[|members| - 1];
      SortedReadsAlike(show, init);
      InsertedReadsAlike(show, SortByTag(init), last);
      assert members == init + [last];
      ShownAppend(show, init, [last]);
      var member := Member(Decimal.ToText(last.tag), show(last.node));
      assert Shown(show, [last]) == [member];
      FieldsOneMore(Shown(show, init), member);
    }
  }

  lemma CollectedAlike(a: seq<Member>, b: seq<Member>)
    requires Fields(a) == Fields(b)
    ensures Collect(a) == Collect(b)
  {
    CollectGathersFields(a);
    CollectGathersFields(b);
    FieldsDetermine(Collect(a), Collect(b));
  }

  // ----- the round trip -----

  lemma {:induction false} ItemElementsAppend(items: seq<Node>, item: Node)
    ensures ItemElements(items + [item]) == ItemElements(items) + [Child(Anonymous, ElementOf(item))]
    decreases |items|
  {
    if items == [] {
      assert [item][1..] == [];
    } else {
      assert (items + [item])[1..] == items[1..] + [item];
      ItemElementsAppend(items[1..], item);
    }
  }

  lemma StructReadsAsRendered(tagged: seq<Tagged>)
    ensures Decoded(ElementOf(StructNode(SortByTag(tagged))), map[]) == Obj(Collect(Rendered(tagged)))
  {
    MembersReadAsRendered(SortByTag(tagged));
    SortedReadsAlike(Reading(), tagged);
    CollectedAlike(Rendered(SortByTag(tagged)), Rendered(tagged));
  }

  lemma {:induction false} BytesDecoded(text: string)
    requires Base64.Decode(text).Some?
    ensures ScalarJson(OctetString(Base64.Decode(text).value)) == Str(text)
  {
    Base64.EncodeOfDecode(text);
  }

  lemma {:induction false} ScalarDecoded(value: Json, kind: FieldKind)
    requires !value.Arr? && !value.Obj? && Resolved(value, kind).Ok?
    ensures Decoded(ElementOf(Resolved(value, kind).value), map[]) == value
  {
    match value
    case Str(text) => TextDecoded(text, kind);
    case Num(number) =>
    case Bool(_) =>
    case Null =>
  }

  lemma {:induction false} TextDecoded(text: string, kind: FieldKind)
    requires Resolved(Str(text), kind).Ok?
    ensures Decoded(ElementOf(Resolved(Str(text), kind).value), map[]) == Str(text)
  {
    if kind == BytesKind {
      BytesDecoded(text);
      assert Resolved(Str(text), kind).value == BytesNode(Base64.Decode(text).value);
    } else {
      assert Resolved(Str(text), kind).value == Utf8Node(text);
    }
  }

  /** Decoding what a payload resolves to gives the payload by tag. */
  lemma {:induction false} DecodedIsByTag(value: Json, kind: FieldKind)
    requires Resolved(value, kind).Ok?
    ensures Decoded(ElementOf(Resolved(value, kind).value), map[]) == ByTag(value, kind)
    decreases value, 1
  {
    if value.Arr? {
      ItemsDecodedByTag(value.items, ElementKind(kind));
    } else if value.Obj? {
      MembersDecodedByTag(value.members, kind);
      StructReadsAsRendered(ResolvedMembers(value.members, kind).value);
    } else {
      ScalarDecoded(value, kind);
    }
  }

  lemma {:induction false} ItemsDecodedByTag(items: seq<Json>, kind: FieldKind)
    requires ResolvedItems(items, kind).Ok?
    ensures DecodedItems(ItemElements(ResolvedItems(items, kind).value)) == ItemsByTag(items, kind)
    decreases items, 0
  {
    if items != [] {
      var init, last := items[..|items| - 1], items[|items| - 1];
      ItemsDecodedByTag(init, kind);
      DecodedIsByTag(last, kind);
      var nodes, node := ResolvedItems(init, kind).value, Resolved(last, kind).value;
      ItemElementsAppend(nodes, node);
      var children := ItemElements(nodes) + [Child(Anonymous, ElementOf(node))];
      assert children[..|children| - 1] == ItemElements(nodes);
    }
  }

  lemma {:induction false} MembersDecodedByTag(members: seq<Member>, kind: FieldKind)
    requires ResolvedMembers(members, kind).Ok?
    ensures Rendered(ResolvedMembers(members, kind).value) == MembersByTag(members, kind)
    decreases members, 0
  {
    if members != [] {
      var init, last := members[..|members| - 1], members[|members| - 1];
      assert last.value < last;
      MembersDecodedByTag(init, kind);
      var tag := ResolveKey(last.key, kind).value;
      DecodedIsByTag(last.value, MemberKind(kind, tag));
    }
  }

  /** A payload resolved, written and read back from anywhere in a stream is the
      payload by tag, and the rest of the stream is untouched. */
  lemma PayloadSurvivesTheWire(value: Json, kind: FieldKind, tag: Tag, rest: seq<Token>)
    requires Resolved(value, kind).Ok?
    ensures
      var read := ReadElement(Written(Resolved(value, kind).value, tag) + rest);
      && read.Some? && read.value.0.tag == tag && read.value.1 == rest
      && Decoded(read.value.0.element, map[]) == ByTag(value, kind)
  {
    WrittenIsRead(Resolved(value, kind).value, tag, rest);
    DecodedIsByTag(value, kind);
  }
}

/** JSON to TLV by schema, and TLV back to JSON by tag
    (`server/src/matter/tlv_json.rs`). */
module TlvJson {
  import Base64
  import Decimal
  import opened FieldKinds
  import opened Json
  import opened Text
  import opened Tlv
  import opened Utf8
  import WireNames
  import opened Wrappers

  const MAX_U8 := 255
  const MAX_U32 := 0xFFFF_FFFF

  datatype Error =
    | BadBase64
    | NotATag(key: string)
    | UnknownField(key: string, of: string)
    | TagOutOfRange(key: string)
    | NotAnObject

  // ----- JSON resolved against the schema -----

  /** A JSON value ready to write. */
  datatype Node =
    | NullNode
    | BoolNode(flag: bool)
    | U64Node(unsigned: u64)
    | I64Node(signed: NegativeI64)
    | F64Node(bits: u64)
    | Utf8Node(text: string)
    | BytesNode(bytes: seq<byte>)
    | StructNode(members: seq<Tagged>)
    | ArrayNode(items: seq<Node>)

  datatype Tagged = Tagged(tag: u8, node: Node)

  /** The tag a key addresses: by name where the schema has names, by number
      otherwise. */
  function ResolveKey(key: string, kind: FieldKind): Result<u8, Error>
  {
    match kind
    case StructKind(meta) =>
      var named := WireNames.Tag(meta.fields, key);
      var tag := if named.Some? then named else Decimal.Parse(key, MAX_U32);
      if tag.None? then Err(UnknownField(key, meta.name))
      else if tag.value > MAX_U8 then Err(TagOutOfRange(key))
      else Ok(tag.value)
    case _ =>
      var tag := Decimal.Parse(key, MAX_U8);
      if tag.None? then Err(NotATag(key)) else Ok(tag.value)
  }

  function MemberKind(kind: FieldKind, tag: nat): FieldKind
  {
    if kind.StructKind? then KindOf(kind.meta, tag) else OtherKind
  }

  /** Placed after every member whose tag is no greater: a stable sort, one
      member at a time. */
  function InsertByTag(members: seq<Tagged>, member: Tagged): seq<Tagged>
  {
    if members == [] || members[|members| - 1].tag <= member.tag then members + [member]
    else InsertByTag(members[..|members| - 1], member) + [members[|members| - 1]]
  }

  /** `sort_by_key` on the tag. */
  function SortByTag(members: seq<Tagged>): seq<Tagged>
  {
    if members == [] then [] else InsertByTag(SortByTag(members[..|members| - 1]), members[|members| - 1])
  }

  function Resolved(value: Json, kind: FieldKind): Result<Node, Error>
    decreases value, 1
  {
    match value
    case Null => Ok(NullNode)
    case Bool(flag) => Ok(BoolNode(flag))
    case Num(PosInt(n)) => Ok(U64Node(n))
    case Num(NegInt(n)) => Ok(I64Node(n))
    case Num(Float(bits)) => Ok(F64Node(bits))
    case Str(text) =>
      if kind == BytesKind then
        var bytes := Base64.Decode(text);
        if bytes.Some? then Ok(BytesNode(bytes.value)) else Err(BadBase64)
      else Ok(Utf8Node(text))
    case Arr(items) =>
      var nodes :- ResolvedItems(items, ElementKind(kind));
      Ok(ArrayNode(nodes))
    case Obj(members) =>
      var tagged :- ResolvedMembers(members, kind);
      Ok(StructNode(SortByTag(tagged)))
  }

  function ResolvedItems(items: seq<Json>, kind: FieldKind): (r: Result<seq<Node>, Error>)
    ensures r.Ok? ==> |r.value| == |items|
    decreases items, 0
  {
    if items == [] then Ok([])
    else
      var nodes :- ResolvedItems(items[..|items| - 1], kind);
      var node :- Resolved(items[|items| - 1], kind);
      Ok(nodes + [node])
  }

  function ResolvedMembers(members: seq<Member>, kind: FieldKind): (r: Result<seq<Tagged>, Error>)
    ensures r.Ok? ==> |r.value| == |members|
    decreases members, 0
  {
    if members == [] then Ok([])
    else
      var earlier :- ResolvedMembers(members[..|members| - 1], kind);
      var last := members[|members| - 1];
      var tag :- ResolveKey(last.key, kind);
      var node :- Resolved(last.value, MemberKind(kind, tag));
      Ok(earlier + [Tagged(tag, node)])
  }

  lemma {:induction false} ItemsFailEarly(items: seq<Json>, kind: FieldKind, n: nat)
    requires n <= |items| && ResolvedItems(items[..n], kind).Err?
    ensures ResolvedItems(items, kind) == ResolvedItems(items[..n], kind)
    decreases |items|
  {
    if n < |items| {
      assert items[..|items| - 1][..n] == items[..n];
      ItemsFailEarly(items[..|items| - 1], kind, n);
    } else {
      assert items[..n] == items;
    }
  }

  lemma {:induction false} MembersFailEarly(members: seq<Member>, kind: FieldKind, n: nat)
    requires n <= |members| && ResolvedMembers(members[..n], kind).Err?
    ensures ResolvedMembers(members, kind) == ResolvedMembers(members[..n], kind)
    decreases |members|
  {
    if n < |members| {
      assert members[..|members| - 1][..n] == members[..n];
      MembersFailEarly(members[..|members| - 1], kind, n);
    } else {
      assert members[..n] == members;
    }
  }

  lemma ItemsOneMore(items: seq<Json>, kind: FieldKind, i: nat)
    requires i < |items| && ResolvedItems(items[..i], kind).Ok?
    ensures
      var node := Resolved(items[i], kind);
      ResolvedItems(items[..i + 1], kind)
      == if node.Ok? then Ok(ResolvedItems(items[..i], kind).value + [node.value]) else Err(node.error)
  {
    assert items[..i + 1][..i] == items[..i];
  }

  /** What one member resolves to. */
  function ResolvedMember(member: Member, kind: FieldKind): Result<Tagged, Error>
  {
    var tag :- ResolveKey(member.key, kind);
    var node :- Resolved(member.value, MemberKind(kind, tag));
    Ok(Tagged(tag, node))
  }

  lemma MembersOneMore(members: seq<Member>, kind: FieldKind, i: nat)
    requires i < |members| && ResolvedMembers(members[..i], kind).Ok?
    ensures
      var member := ResolvedMember(members[i], kind);
      ResolvedMembers(members[..i + 1], kind)
      == if member.Ok? then Ok(ResolvedMembers(members[..i], kind).value + [member.value]) else Err(member.error)
  {
    assert members[..i + 1][..i] == members[..i];
  }

  /** `from_json`: the first thing that cannot be resolved is the error. */
  method FromJson(value: Json, kind: FieldKind) returns (node: Result<Node, Error>)
    ensures node == Resolved(value, kind)
    decreases value, 1
  {
    match value
    case Null => return Ok(NullNode);
    case Bool(flag) => return Ok(BoolNode(flag));
    case Num(PosInt(n)) => return Ok(U64Node(n));
    case Num(NegInt(n)) => return Ok(I64Node(n));
    case Num(Float(bits)) => return Ok(F64Node(bits));
    case Str(text) =>
      if kind == BytesKind {
        var bytes := Base64.Decode(text);
        return if bytes.Some? then Ok(BytesNode(bytes.value)) else Err(BadBase64);
      }
      return Ok(Utf8Node(text));
    case Arr(items) =>
      node := ArrayFromJson(items, ElementKind(kind));
    case Obj(members) =>
      node := StructFromJson(members, kind);
  }

  method ArrayFromJson(items: seq<Json>, kind: FieldKind) returns (node: Result<Node, Error>)
    ensures node ==
      var nodes := ResolvedItems(items, kind);
      if nodes.Ok? then Ok(ArrayNode(nodes.value)) else Err(nodes.error)
    decreases items, 0
  {
    var nodes: seq<Node> := [];
    for i := 0 to |items|
      invariant ResolvedItems(items[..i], kind) == Ok(nodes)
    {
      ItemsOneMore(items, kind, i);
      var item := FromJson(items[i], kind);
      if item.Err? {
        ItemsFailEarly(items, kind, i + 1);
        return Err(item.error);
      }
      nodes := nodes + [item.value];
    }
    assert items[..|items|] == items;
    return Ok(ArrayNode(nodes));
  }

  /** `struct_from_json` where the schema has names, and its counterpart by
      number elsewhere. */
  method StructFromJson(members: seq<Member>, kind: FieldKind) returns (node: Result<Node, Error>)
    ensures node ==
      var tagged := ResolvedMembers(members, kind);
      if tagged.Ok? then Ok(StructNode(SortByTag(tagged.value))) else Err(tagged.error)
    decreases members, 0
  {
    var resolved: seq<Tagged> := [];
    for i := 0 to |members|
      invariant ResolvedMembers(members[..i], kind) == Ok(resolved)
    {
      MembersOneMore(members, kind, i);
      var tag := ResolveKey(members[i].key, kind);
      if tag.Err? {
        MembersFailEarly(members, kind, i + 1);
        return Err(tag.error);
      }
      var member := FromJson(members[i].value, MemberKind(kind, tag.value));
      if member.Err? {
        MembersFailEarly(members, kind, i + 1);
        return Err(member.error);
      }
      resolved := resolved + [Tagged(tag.value, member.value)];
    }
    assert members[..|members|] == members;
    return Ok(StructNode(SortByTag(resolved)));
  }

  /** The meaning of a `device_command` payload. */
  function ResolvedPayload(command: StructMeta, payload: Json): Result<Node, Error>
  {
    if payload.Null? then Ok(StructNode([]))
    else if payload.Obj? then Resolved(payload, StructKind(command))
    else Err(NotAnObject)
  }

  /** `command_payload_from_json`. */
  method CommandPayloadFromJson(command: StructMeta, payload: Json) returns (node: Result<Node, Error>)
    ensures node == ResolvedPayload(command, payload)
  {
    match payload
    case Null => return Ok(StructNode([]));
    case Obj(members) => node := StructFromJson(members, StructKind(command));
    case _ => return Err(NotAnObject);
  }

  // ----- writing -----

  function Written(node: Node, tag: Tag): seq<Token>
    decreases node, 1
  {
    match node
    case NullNode => [Leaf(tag, Nothing)]
    case BoolNode(flag) => [Leaf(tag, Boolean(flag))]
    case U64Node(n) => [Leaf(tag, Unsigned(n))]
    case I64Node(n) => [Leaf(tag, Signed(n))]
    case F64Node(bits) => [Leaf(tag, Floating(bits))]
    case Utf8Node(text) => [Leaf(tag, Utf8String(text))]
    case BytesNode(bytes) => [Leaf(tag, OctetString(bytes))]
    case StructNode(members) => [Open(tag, false)] + WrittenMembers(members) + [Close]
    case ArrayNode(items) => [Open(tag, true)] + WrittenItems(items) + [Close]
  }

  function WrittenMembers(members: seq<Tagged>): seq<Token>
    decreases members, 0
  {
    if members == [] then []
    else
      var head := members[0];
      assert head.node < head;
      Written(head.node, Context(head.tag)) + WrittenMembers(members[1..])
  }

  function WrittenItems(items: seq<Node>): seq<Token>
    decreases items, 0
  {
    if items == [] then [] else Written(items[0], Anonymous) + WrittenItems(items[1..])
  }

  lemma {:induction false} WrittenMembersAppend(members: seq<Tagged>, member: Tagged)
    ensures WrittenMembers(members + [member]) == WrittenMembers(members) + Written(member.node, Context(member.tag))
    decreases |members|
  {
    if members == [] {
      assert [member][1..] == [];
    } else {
      assert (members + [member])[1..] == members[1..] + [member];
      WrittenMembersAppend(members[1..], member);
    }
  }

  lemma {:induction false} WrittenItemsAppend(items: seq<Node>, item: Node)
    ensures WrittenItems(items + [item]) == WrittenItems(items) + Written(item, Anonymous)
    decreases |items|
  {
    if items == [] {
      assert [item][1..] == [];
    } else {
      assert (items + [item])[1..] == items[1..] + [item];
      WrittenItemsAppend(items[1..], item);
    }
  }

  class Writer {
    var tokens: seq<Token>

    constructor ()
      ensures tokens == []
    {
      tokens := [];
    }

    /** `TlvNode::write`. */
    method Write(node: Node, tag: Tag)
      modifies this
      ensures tokens == old(tokens) + Written(node, tag)
      decreases node
    {
      match node
      case NullNode => tokens := tokens + [Leaf(tag, Nothing)];
      case BoolNode(flag) => tokens := tokens + [Leaf(tag, Boolean(flag))];
      case U64Node(n) => tokens := tokens + [Leaf(tag, Unsigned(n))];
      case I64Node(n) => tokens := tokens + [Leaf(tag, Signed(n))];
      case F64Node(bits) => tokens := tokens + [Leaf(tag, Floating(bits))];
      case Utf8Node(text) => tokens := tokens + [Leaf(tag, Utf8String(text))];
      case BytesNode(bytes) => tokens := tokens + [Leaf(tag, OctetString(bytes))];
      case StructNode(members) =>
        tokens := tokens + [Open(tag, false)];
        WriteMembers(members);
        tokens := tokens + [Close];
      case ArrayNode(items) =>
        tokens := tokens + [Open(tag, true)];
        WriteItems(items);
        tokens := tokens + [Close];
    }

    method WriteMembers(members: seq<Tagged>)
      modifies this
      ensures tokens == old(tokens) + WrittenMembers(members)
      decreases members
    {
      for i := 0 to |members|
        invariant tokens == old(tokens) + WrittenMembers(members[..i])
      {
        var member := members[i];
        assert member.node < member;
        WrittenMembersAppend(members[..i], member);
        assert members[..i + 1] == members[..i] + [member];
        Associative(old(tokens), WrittenMembers(members[..i]), Written(member.node, Context(member.tag)));
        Write(member.node, Context(member.tag));
      }
      assert members[..|members|] == members;
    }

    method WriteItems(items: seq<Node>)
      modifies this
      ensures tokens == old(tokens) + WrittenItems(items)
      decreases items
    {
      for i := 0 to |items|
        invariant tokens == old(tokens) + WrittenItems(items[..i])
      {
        WrittenItemsAppend(items[..i], items[i]);
        assert items[..i + 1] == items[..i] + [items[i]];
        Associative(old(tokens), WrittenItems(items[..i]), Written(items[i], Anonymous));
        Write(items[i], Anonymous);
      }
      assert items[..|items|] == items;
    }
  }

  // ----- reading -----

  function ScalarJson(value: Scalar): Json
  {
    match value
    case Signed(n) =>
      if 0 <= n < 0x1_0000_0000_0000_0000 then Num(PosInt(n))
      else if -0x8000_0000_0000_0000 <= n < 0 then Num(NegInt(n))
      else Null
    case Unsigned(n) => Num(PosInt(n))
    case Boolean(flag) => Bool(flag)
    case Floating(bits) => Num(Float(bits))
    case Utf8String(text) => Str(text)
    case OctetString(bytes) => Str(Base64.Encode(bytes))
    case Nothing => Json.Null
  }

  /** The key a member is reported under: its name, its tag, or its position. */
  function ChildKey(tag: Tag, index: nat, names: map<nat, string>): string
  {
    match tag
    case Context(number) => if number in names then names[number] else Decimal.ToText(number)
    case Anonymous => Decimal.ToText(index)
  }

  function Decoded(element: Element, names: map<nat, string>): Json
    decreases element, 1
  {
    match element
    case Single(value) => ScalarJson(value)
    case Container(positional, children) =>
      if positional then Arr(DecodedItems(children)) else Obj(Collect(DecodedMembers(children, names)))
  }

  function DecodedItems(children: seq<Child>): (items: seq<Json>)
    ensures |items| == |children|
    decreases children, 0
  {
    if children == [] then []
    else
      var last := children[|children| - 1];
      assert last.element < last;
      DecodedItems(children[..|children| - 1]) + [Decoded(last.element, map[])]
  }

  /** The members in the order they are read, each under its key. */
  function DecodedMembers(children: seq<Child>, names: map<nat, string>): (members: seq<Member>)
    ensures |members| == |children|
    decreases children, 0
  {
    if children == [] then []
    else
      var last := children[|children| - 1];
      assert last.element < last;
      DecodedMembers(children[..|children| - 1], names)
      + [Member(ChildKey(last.tag, |children| - 1, names), Decoded(last.element, map[]))]
  }

  /** `decode`: the names apply to the top level only. */
  method Decode(element: Element, names: map<nat, string>) returns (json: Json)
    ensures json == Decoded(element, names)
    decreases element
  {
    match element
    case Single(value) => return ScalarJson(value);
    case Container(positional, children) =>
      if positional {
        var items: seq<Json> := [];
        for i := 0 to |children|
          invariant items == DecodedItems(children[..i])
        {
          assert children[..i + 1][..i] == children[..i];
          var item := Decode(children[i].element, map[]);
          items := items + [item];
        }
        assert children[..|children|] == children;
        return Arr(items);
      }
      var gathered: seq<Member> := [];
      for i := 0 to |children|
        invariant gathered == Collect(DecodedMembers(children[..i], names))
      {
        ghost var before := DecodedMembers(children[..i], names);
        assert children[..i + 1][..i] == children[..i];
        var value := Decode(children[i].element, map[]);
        var member := Member(ChildKey(children[i].tag, i, names), value);
        assert DecodedMembers(children[..i + 1], names) == before + [member];
        assert (before + [member])[..i] == before;
        gathered := Insert(gathered, member);
      }
      assert children[..|children|] == children;
      return Obj(gathered);
  }
}

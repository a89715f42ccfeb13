/** Which tokens a payload is sent as (`server/src/matter/tlv_json.rs`), from the
    JSON a client wrote to what the device reads. */
module PayloadTokens {
  import Base64
  import Decimal
  import opened FieldKinds
  import opened Json
  import PayloadKeys
  import opened Text
  import opened Tlv
  import opened TlvJson
  import opened Utf8
  import WireNames
  import opened Wrappers

  /** The tokens a JSON value of some kind is sent as, or why it is refused. */
  function Sent(value: Json, kind: FieldKind, tag: Tag): Result<seq<Token>, Error>
  {
    var node :- Resolved(value, kind);
    Ok(Written(node, tag))
  }

  // ----- strings -----

  /** A bytes field is sent as an octet string of the bytes its text stands for. */
  lemma BytesAreSent(b: seq<byte>, tag: Tag)
    ensures Resolved(Str(Base64.Encode(b)), BytesKind) == Ok(BytesNode(b))
    ensures Sent(Str(Base64.Encode(b)), BytesKind, tag) == Ok([Leaf(tag, OctetString(b))])
  {
    Base64.DecodeOfEncode(b);
  }

  /** A text that stands for no bytes is refused in a bytes field. */
  lemma OnlyBase64IsBytes(text: string)
    ensures Resolved(Str(text), BytesKind) == Err(BadBase64) <==> forall b :: Base64.Encode(b) != text
  {
    if Base64.Decode(text).Some? {
      Base64.EncodeOfDecode(text);
    }
    forall b | Base64.Encode(b) == text ensures Base64.Decode(text).Some? {
      Base64.DecodeOfEncode(b);
    }
  }

  /** Everywhere else a text is sent as it is. */
  lemma TextIsSent(text: string, kind: FieldKind, tag: Tag)
    requires kind != BytesKind
    ensures Sent(Str(text), kind, tag) == Ok([Leaf(tag, Utf8String(text))])
  {
  }

  /** Numbers, truth values and null do not need a schema. */
  lemma ScalarsAreSent(kind: FieldKind, tag: Tag, n: u64, m: NegativeI64, flag: bool)
    ensures Sent(Num(PosInt(n)), kind, tag) == Ok([Leaf(tag, Unsigned(n))])
    ensures Sent(Num(NegInt(m)), kind, tag) == Ok([Leaf(tag, Signed(m))])
    ensures Sent(Num(Float(n)), kind, tag) == Ok([Leaf(tag, Floating(n))])
    ensures Sent(Bool(flag), kind, tag) == Ok([Leaf(tag, Boolean(flag))])
    ensures Sent(Json.Null, kind, tag) == Ok([Leaf(tag, Nothing)])
  {
  }

  /** A device's integer is reported as that integer, signed or not. */
  lemma IntegersAreReported(n: int)
    ensures 0 <= n < 0x1_0000_0000_0000_0000 ==> ScalarJson(Unsigned(n)) == Num(PosInt(n))
    ensures 0 <= n < 0x8000_0000_0000_0000 ==> ScalarJson(Signed(n)) == Num(PosInt(n))
    ensures -0x8000_0000_0000_0000 <= n < 0 ==> ScalarJson(Signed(n)) == Num(NegInt(n))
  {
  }

  // ----- arrays -----

  function Concat(parts: seq<seq<Token>>): seq<Token>
  {
    if parts == [] then [] else Concat(parts[..|parts| - 1]) + parts[|parts| - 1]
  }

  lemma {:induction false} ItemsAreSent(items: seq<Json>, kind: FieldKind, parts: seq<seq<Token>>)
    requires |parts| == |items|
    requires forall i | 0 <= i < |items| :: Sent(items[i], kind, Anonymous) == Ok(parts[i])
    ensures ResolvedItems(items, kind).Ok?
    ensures WrittenItems(ResolvedItems(items, kind).value) == Concat(parts)
    decreases |items|
  {
    if items != [] {
      var n := |items| - 1;
      ItemsAreSent(items[..n], kind, parts[..n]);
      assert Sent(items[n], kind, Anonymous) == Ok(parts[n]);
      WrittenItemsAppend(ResolvedItems(items[..n], kind).value, Resolved(items[n], kind).value);
    }
  }

  /** A list is sent as its items in their order, each as a value of the item
      kind. */
  lemma ListIsSent(items: seq<Json>, item: FieldKind, tag: Tag, parts: seq<seq<Token>>)
    requires |parts| == |items|
    requires forall i | 0 <= i < |items| :: Sent(items[i], item, Anonymous) == Ok(parts[i])
    ensures Sent(Arr(items), ListKind(item), tag) == Ok([Open(tag, true)] + Concat(parts) + [Close])
  {
    ItemsAreSent(items, item, parts);
  }

  /** Where no list was declared, the items are of whatever kind was. */
  lemma UndeclaredListIsSent(items: seq<Json>, kind: FieldKind, tag: Tag, parts: seq<seq<Token>>)
    requires !kind.ListKind? && |parts| == |items|
    requires forall i | 0 <= i < |items| :: Sent(items[i], kind, Anonymous) == Ok(parts[i])
    ensures Sent(Arr(items), kind, tag) == Ok([Open(tag, true)] + Concat(parts) + [Close])
  {
    ItemsAreSent(items, kind, parts);
  }

  function AsTexts(list: seq<seq<byte>>): seq<Json>
  {
    seq(|list|, i requires 0 <= i < |list| => Str(Base64.Encode(list[i])))
  }

  function AsTokens(list: seq<seq<byte>>): seq<Token>
  {
    seq(|list|, i requires 0 <= i < |list| => Leaf(Anonymous, OctetString(list[i])))
  }

  /** A list of bytes is sent as octet strings. */
  lemma ListOfBytesIsSent(list: seq<seq<byte>>, tag: Tag)
    ensures Sent(Arr(AsTexts(list)), ListKind(BytesKind), tag) == Ok([Open(tag, true)] + AsTokens(list) + [Close])
  {
    var parts := seq(|list|, i requires 0 <= i < |list| => [Leaf(Anonymous, OctetString(list[i]))]);
    forall i | 0 <= i < |list| ensures Sent(AsTexts(list)[i], BytesKind, Anonymous) == Ok(parts[i]) {
      BytesAreSent(list[i], Anonymous);
    }
    ListIsSent(AsTexts(list), BytesKind, tag, parts);
    SingleTokens(AsTokens(list), parts);
  }

  lemma {:induction false} SingleTokens(tokens: seq<Token>, parts: seq<seq<Token>>)
    requires |parts| == |tokens| && forall i | 0 <= i < |tokens| :: parts[i] == [tokens[i]]
    ensures Concat(parts) == tokens
    decreases |tokens|
  {
    if tokens != [] {
      var n := |tokens| - 1;
      SingleTokens(tokens[..n], parts[..n]);
      assert tokens == tokens[..n] + [tokens[n]];
    }
  }

  // ----- structs -----

  /** A key is a field's name, in any spelling with the same letters and digits, or
      else the decimal number of its tag, from 0 to 255. */
  lemma KeysAreNamesOrTags(meta: StructMeta, key: string, n: nat)
    ensures
      var named, kind := WireNames.Tag(meta.fields, key), StructKind(meta);
      && (named.Some? && named.value < 256 ==> ResolveKey(key, kind) == Ok(named.value))
      && (named.Some? && named.value >= 256 ==> ResolveKey(key, kind) == Err(TagOutOfRange(key)))
      && (named.None? && key == Decimal.ToText(n) ==>
            ResolveKey(key, kind)
            == if n < 256 then Ok(n)
               else if n < 0x1_0000_0000 then Err(TagOutOfRange(key))
               else Err(UnknownField(key, meta.name)))
  {
    if key == Decimal.ToText(n) {
      Decimal.ParseOfText(n, MAX_U32);
    }
  }

  /** Without a struct in the schema only a number will do. */
  lemma PlainKeysAreTags(kind: FieldKind, n: nat)
    requires !kind.StructKind?
    ensures
      var key := Decimal.ToText(n);
      ResolveKey(key, kind) == if n < 256 then Ok(n) else Err(NotATag(key))
  {
    Decimal.ParseOfText(n, MAX_U8);
  }

  /** A struct's only member is sent under its tag, as a value of its field's kind,
      or of no kind in particular if the schema does not say. */
  lemma MemberIsSent(meta: StructMeta, key: string, value: Json, tag: Tag, number: nat, tokens: seq<Token>)
    requires WireNames.Tag(meta.fields, key) == Some(number) && number < 256
    requires
      Sent(value, if number in meta.kinds then meta.kinds[number] else OtherKind, Context(number)) == Ok(tokens)
    ensures Sent(Obj([Member(key, value)]), StructKind(meta), tag) == Ok([Open(tag, false)] + tokens + [Close])
  {
    var kind := StructKind(meta);
    var node := Resolved(value, if number in meta.kinds then meta.kinds[number] else OtherKind).value;
    KeysAreNamesOrTags(meta, key, 0);
    var members := [Member(key, value)];
    assert members[..0] == [];
    assert ResolvedMembers(members, kind) == Ok([] + [Tagged(number, node)]);
    var tagged := [Tagged(number, node)];
    assert tagged[..0] == [] && tagged[1..] == [];
    assert SortByTag(tagged) == tagged;
    assert WrittenMembers(tagged) == tokens + [] == tokens;
  }

  /** A named bytes member is sent as an octet string. */
  lemma BytesMemberIsSent(meta: StructMeta, key: string, b: seq<byte>, tag: Tag, number: nat)
    requires WireNames.Tag(meta.fields, key) == Some(number) && number < 256
    requires number in meta.kinds && meta.kinds[number] == BytesKind
    ensures Sent(Obj([Member(key, Str(Base64.Encode(b)))]), StructKind(meta), tag)
      == Ok([Open(tag, false), Leaf(Context(number), OctetString(b)), Close])
  {
    BytesAreSent(b, Context(number));
    MemberIsSent(meta, key, Str(Base64.Encode(b)), tag, number, [Leaf(Context(number), OctetString(b))]);
    assert [Open(tag, false)] + [Leaf(Context(number), OctetString(b))] + [Close]
      == [Open(tag, false), Leaf(Context(number), OctetString(b)), Close];
  }

  lemma {:induction false} SortingKeeps(members: seq<Tagged>, member: Tagged)
    ensures member in SortByTag(members) <==> member in members
  {
    if members != [] {
      var init, last := members[..|members| - 1], members[|members| - 1];
      assert members == init + [last];
      SortingKeeps(init, member);
      InsertingKeeps(SortByTag(init), last, member);
    }
  }

  lemma {:induction false} InsertingKeeps(members: seq<Tagged>, added: Tagged, member: Tagged)
    ensures member in InsertByTag(members, added) <==> member == added || member in members
  {
    if members != [] {
      assert members == members[..|members| - 1] + [members[|members| - 1]];
      InsertingKeeps(members[..|members| - 1], added, member);
    }
  }

  lemma {:induction false} MemberIsWritten(members: seq<Tagged>, number: u8, b: seq<byte>)
    requires Tagged(number, BytesNode(b)) in members
    ensures Leaf(Context(number), OctetString(b)) in WrittenMembers(members)
  {
    if members[0] == Tagged(number, BytesNode(b)) {
      assert Written(members[0].node, Context(members[0].tag)) == [Leaf(Context(number), OctetString(b))];
    } else {
      assert members == [members[0]] + members[1..];
      MemberIsWritten(members[1..], number, b);
    }
  }

  lemma BytesMemberIsAmong(meta: StructMeta, members: seq<Member>, i: nat, b: seq<byte>, number: nat)
    requires i < |members| && members[i].value == Str(Base64.Encode(b))
    requires WireNames.Tag(meta.fields, members[i].key) == Some(number)
    requires number in meta.kinds && meta.kinds[number] == BytesKind
    requires ResolvedMembers(members, StructKind(meta)).Ok?
    ensures number < 256
    ensures ResolvedMembers(members, StructKind(meta)).value[i] == Tagged(number, BytesNode(b))
  {
    PayloadKeys.ResolvedMemberAt(members, StructKind(meta), i);
    KeysAreNamesOrTags(meta, members[i].key, 0);
    BytesAreSent(b, Context(number));
  }

  /** Among any other members, too: if the payload is accepted, a named bytes member
      is in it as an octet string of its bytes. */
  lemma BytesAmongMembersAreSent(
    meta: StructMeta, members: seq<Member>, i: nat, b: seq<byte>, tag: Tag, number: nat)
    requires i < |members| && members[i].value == Str(Base64.Encode(b))
    requires WireNames.Tag(meta.fields, members[i].key) == Some(number)
    requires number in meta.kinds && meta.kinds[number] == BytesKind
    requires Sent(Obj(members), StructKind(meta), tag).Ok?
    ensures number < 256 && Leaf(Context(number), OctetString(b)) in Sent(Obj(members), StructKind(meta), tag).value
  {
    var tagged := ResolvedMembers(members, StructKind(meta)).value;
    BytesMemberIsAmong(meta, members, i, b, number);
    assert tagged[i] in tagged;
    SortingKeeps(tagged, Tagged(number, BytesNode(b)));
    MemberIsWritten(SortByTag(tagged), number, b);
  }

  // ----- the keys that are reported -----

  /** A member is reported under its name if the schema has one, else under its tag,
      and one without a tag under its position. */
  lemma KeysReported(number: u8, index: nat, names: map<nat, string>)
    ensures number in names ==> ChildKey(Context(number), index, names) == names[number]
    ensures number !in names ==> ChildKey(Context(number), index, names) == Decimal.ToText(number)
    ensures ChildKey(Anonymous, index, names) == Decimal.ToText(index)
  {
  }
}

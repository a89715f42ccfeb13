/** When a payload keyed by names and the same payload keyed by tags encode alike
    (`server/src/matter/tlv_json.rs`). */
module PayloadKeys {
  import Decimal
  import opened FieldKinds
  import opened Json
  import opened Text
  import opened TlvJson
  import opened TlvJsonProofs
  import WireNames
  import opened Wrappers

  // ----- sorting by tag -----

  ghost predicate TagsDiffer(members: seq<Tagged>)
  {
    forall i, j | 0 <= i < j < |members| :: members[i].tag != members[j].tag
  }

  ghost predicate TagsAscend(members: seq<Tagged>)
  {
    forall i, j | 0 <= i < j < |members| :: members[i].tag < members[j].tag
  }

  lemma {:induction false} SortedByTag(members: seq<Tagged>)
    requires TagsDiffer(members)
    ensures TagsAscend(SortByTag(members)) && forall m :: m in SortByTag(members) <==> m in members
    decreases |members|
  {
    if members != [] {
      var init, last := members[..|members| - 1], members[|members| - 1];
      SortedByTag(init);
      assert members == init + [last];
      var sorted := SortByTag(init);
      forall m | m in sorted ensures m.tag != last.tag {
      }
      InsertedInOrder(sorted, last);
    }
  }

  lemma {:induction false} InsertedInOrder(sorted: seq<Tagged>, member: Tagged)
    requires TagsAscend(sorted) && forall m | m in sorted :: m.tag != member.tag
    ensures TagsAscend(InsertByTag(sorted, member))
    ensures forall m :: m in InsertByTag(sorted, member) <==> m in sorted || m == member
    decreases |sorted|
  {
    if sorted != [] {
      var init, last := sorted[..|sorted| - 1], sorted[|sorted| - 1];
      assert sorted == init + [last];
      assert last.tag != member.tag;
      if last.tag > member.tag {
        InsertedInOrder(init, member);
        forall m | m in InsertByTag(init, member) ensures m.tag < last.tag {
        }
      } else {
        forall m | m in sorted ensures m.tag < member.tag {
        }
      }
    }
  }

  lemma {:induction false} AscendingIsUnique(a: seq<Tagged>, b: seq<Tagged>)
    requires TagsAscend(a) && TagsAscend(b) && forall m :: m in a <==> m in b
    ensures a == b
    decreases |a|
  {
    assert b != [] ==> b[0] in b;
    if a != [] {
      assert a[0] in b;
      assert b[0] in a;
      assert a[0] == b[0];
      RestAgrees(a, b);
      RestAgrees(b, a);
      AscendingIsUnique(a[1..], b[1..]);
    }
  }

  lemma RestAgrees(a: seq<Tagged>, b: seq<Tagged>)
    requires TagsAscend(a) && a != [] && b != [] && a[0] == b[0] && forall m | m in a :: m in b
    ensures forall m | m in a[1..] :: m in b[1..]
  {
    forall m | m in a[1..] ensures m in b[1..] {
      var i :| 0 <= i < |a[1..]| && a[1..][i] == m;
      assert a[i + 1] == m && m in a && m != b[0];
      var j :| 0 <= j < |b| && b[j] == m;
      assert b[1..][j - 1] == m;
    }
  }

  /** Of members with different tags only the set matters to the encoding. */
  lemma SortForgetsOrder(a: seq<Tagged>, b: seq<Tagged>)
    requires TagsDiffer(a) && TagsDiffer(b) && forall m :: m in a <==> m in b
    ensures SortByTag(a) == SortByTag(b)
  {
    SortedByTag(a);
    SortedByTag(b);
    AscendingIsUnique(SortByTag(a), SortByTag(b));
  }

  // ----- members and their resolution, one by one -----

  lemma {:induction false} ResolvedMemberAt(members: seq<Member>, kind: FieldKind, i: nat)
    requires i < |members| && ResolvedMembers(members, kind).Ok?
    ensures
      var tagged := ResolvedMembers(members, kind).value[i];
      && ResolveKey(members[i].key, kind) == Ok(tagged.tag)
      && Resolved(members[i].value, MemberKind(kind, tagged.tag)) == Ok(tagged.node)
    decreases |members|
  {
    if i < |members| - 1 {
      ResolvedMemberAt(members[..|members| - 1], kind, i);
    }
  }

  ghost predicate ResolvesTo(member: Member, kind: FieldKind, tagged: Tagged)
  {
    && ResolveKey(member.key, kind) == Ok(tagged.tag)
    && Resolved(member.value, MemberKind(kind, tagged.tag)) == Ok(tagged.node)
  }

  lemma {:induction false} MembersResolve(members: seq<Member>, kind: FieldKind, tagged: seq<Tagged>)
    requires |members| == |tagged| && forall i | 0 <= i < |members| :: ResolvesTo(members[i], kind, tagged[i])
    ensures ResolvedMembers(members, kind) == Ok(tagged)
    decreases |members|
  {
    if members != [] {
      var n := |members| - 1;
      MembersResolve(members[..n], kind, tagged[..n]);
      assert ResolvesTo(members[n], kind, tagged[n]);
      assert tagged == tagged[..n] + [tagged[n]];
    }
  }

  lemma {:induction false} MemberByTag(members: seq<Member>, kind: FieldKind, i: nat)
    requires i < |members| && ResolvedMembers(members, kind).Ok?
    ensures
      var tag := ResolvedMembers(members, kind).value[i].tag;
      MembersByTag(members, kind)[i] == Member(Decimal.ToText(tag), ByTag(members[i].value, MemberKind(kind, tag)))
    decreases |members|
  {
    if i < |members| - 1 {
      MemberByTag(members[..|members| - 1], kind, i);
    }
  }

  // ----- gathered members -----

  ghost predicate KeysDiffer(members: seq<Member>)
  {
    forall i, j | 0 <= i < j < |members| :: members[i].key != members[j].key
  }

  lemma {:induction false} FieldsKeys(members: seq<Member>)
    ensures forall key :: key in Fields(members) <==> exists i | 0 <= i < |members| :: members[i].key == key
    decreases |members|
  {
    if members != [] {
      var n := |members| - 1;
      FieldsKeys(members[..n]);
      forall key ensures key in Fields(members) <==> exists i | 0 <= i < |members| :: members[i].key == key {
        if key in Fields(members[..n]) {
          var i :| 0 <= i < n && members[..n][i].key == key;
          assert members[i].key == key;
        } else if i :| 0 <= i < |members| && members[i].key == key {
          assert i < n ==> members[..n][i].key == key;
        }
      }
    }
  }

  lemma LastKeyIsNew(members: seq<Member>)
    requires members != []
    ensures var n := |members| - 1;
      KeysDiffer(members) <==> KeysDiffer(members[..n]) && members[n].key !in Fields(members[..n])
  {
    var n := |members| - 1;
    FieldsKeys(members[..n]);
    if members[n].key in Fields(members[..n]) {
      var i :| 0 <= i < n && members[..n][i].key == members[n].key;
      assert members[i].key == members[n].key;
    } else {
      forall i | 0 <= i < n ensures members[i].key != members[n].key {
        assert members[..n][i].key == members[i].key;
      }
      if KeysDiffer(members[..n]) {
        forall i, j | 0 <= i < j < |members| ensures members[i].key != members[j].key {
          assert j < n ==> members[..n][i].key != members[..n][j].key;
        }
      }
    }
  }

  lemma {:induction false} FieldsCount(members: seq<Member>)
    ensures |Fields(members)| <= |members|
    ensures |Fields(members)| == |members| <==> KeysDiffer(members)
    decreases |members|
  {
    if members != [] {
      var n := |members| - 1;
      FieldsCount(members[..n]);
      LastKeyIsNew(members);
      var before := Fields(members[..n]);
      assert Fields(members).Keys == before.Keys + {members[n].key};
      if members[n].key in before {
        assert before.Keys + {members[n].key} == before.Keys;
      }
      assert |Fields(members)| == |Fields(members).Keys|;
    }
  }

  lemma {:induction false} FieldsValues(members: seq<Member>)
    requires KeysDiffer(members)
    ensures forall i | 0 <= i < |members| ::
      members[i].key in Fields(members) && Fields(members)[members[i].key] == members[i].value
    decreases |members|
  {
    if members != [] {
      var n := |members| - 1;
      LastKeyIsNew(members);
      FieldsValues(members[..n]);
      forall i | 0 <= i < |members|
        ensures members[i].key in Fields(members) && Fields(members)[members[i].key] == members[i].value
      {
        if i < n {
          assert members[..n][i] == members[i];
        }
      }
    }
  }

  lemma AscendingKeysDiffer(members: seq<Member>)
    requires KeysAscending(members)
    ensures KeysDiffer(members)
  {
    forall i, j | 0 <= i < j < |members| ensures members[i].key != members[j].key {
      LessTotal(members[i].key, members[i].key);
    }
  }

  /** Members with different keys are all still there once gathered. */
  lemma CollectKeepsDistinct(members: seq<Member>)
    ensures KeysDiffer(Collect(members)) && |Collect(members)| <= |members|
    ensures |Collect(members)| == |members| <==> KeysDiffer(members)
    ensures KeysDiffer(members) ==> forall m :: m in Collect(members) <==> m in members
  {
    var gathered := Collect(members);
    CollectGathersFields(members);
    AscendingKeysDiffer(gathered);
    FieldsCount(members);
    FieldsCount(gathered);
    if KeysDiffer(members) {
      SameFieldsSameMembers(gathered, members);
      SameFieldsSameMembers(members, gathered);
    }
  }

  lemma SameFieldsSameMembers(a: seq<Member>, b: seq<Member>)
    requires KeysDiffer(a) && KeysDiffer(b) && Fields(a) == Fields(b)
    ensures forall m | m in a :: m in b
  {
    FieldsValues(a);
    FieldsValues(b);
    FieldsKeys(b);
    forall m | m in a ensures m in b {
      var i :| 0 <= i < |a| && a[i] == m;
      assert a[i].key in Fields(b);
      var j :| 0 <= j < |b| && b[j].key == m.key;
    }
  }

  // ----- names and tags -----

  /** No field of any struct goes by the decimal of a tag other than its own. */
  ghost predicate WellNamed(kind: FieldKind)
  {
    match kind
    case ListKind(item) => WellNamed(item)
    case StructKind(meta) =>
      && (forall tag: nat | tag <= MAX_U8 :: NamesNoOther(meta, tag))
      && (forall tag | tag in meta.kinds :: WellNamed(meta.kinds[tag]))
    case _ => true
  }

  predicate NamesNoOther(meta: StructMeta, tag: nat)
  {
    WireNames.Tag(meta.fields, Decimal.ToText(tag)) in {None, Some(tag)}
  }

  lemma TagsResolveToThemselves(kind: FieldKind, tag: nat)
    requires WellNamed(kind) && tag <= MAX_U8
    ensures ResolveKey(Decimal.ToText(tag), kind) == Ok(tag)
    ensures WellNamed(MemberKind(kind, tag)) && WellNamed(ElementKind(kind))
  {
    Decimal.ParseOfText(tag, MAX_U8);
    Decimal.ParseOfText(tag, MAX_U32);
    if kind.StructKind? {
      assert NamesNoOther(kind.meta, tag);
    }
  }

  /** At every depth, the keys of an object address different tags. */
  ghost predicate Unambiguous(value: Json, kind: FieldKind)
    requires Resolved(value, kind).Ok?
    decreases value, 1
  {
    match value
    case Arr(items) => UnambiguousItems(items, ElementKind(kind))
    case Obj(members) =>
      TagsDiffer(ResolvedMembers(members, kind).value) && UnambiguousMembers(members, kind)
    case _ => true
  }

  ghost predicate UnambiguousItems(items: seq<Json>, kind: FieldKind)
    requires ResolvedItems(items, kind).Ok?
    decreases items, 0
  {
    items == [] ||
    (UnambiguousItems(items[..|items| - 1], kind) && Unambiguous(items[|items| - 1], kind))
  }

  ghost predicate UnambiguousMembers(members: seq<Member>, kind: FieldKind)
    requires ResolvedMembers(members, kind).Ok?
    decreases members, 0
  {
    members == [] ||
    var last := members[|members| - 1];
    assert last.value < last;
    && UnambiguousMembers(members[..|members| - 1], kind)
    && Unambiguous(last.value, MemberKind(kind, ResolveKey(last.key, kind).value))
  }

  /** Replacing a member by its tag leaves what it resolves to unchanged. */
  ghost predicate Stable(value: Json, kind: FieldKind)
  {
    Resolved(ByTag(value, kind), kind) == Resolved(value, kind)
  }

  ghost predicate StableMembers(members: seq<Member>, kind: FieldKind)
  {
    forall i | 0 <= i < |members| :: StableMember(members[i], kind)
  }

  ghost predicate StableMember(member: Member, kind: FieldKind)
  {
    var tag := ResolveKey(member.key, kind);
    tag.Ok? && Stable(member.value, MemberKind(kind, tag.value))
  }

  lemma KeysDifferAsTags(members: seq<Member>, kind: FieldKind)
    requires ResolvedMembers(members, kind).Ok?
    ensures KeysDiffer(MembersByTag(members, kind)) <==> TagsDiffer(ResolvedMembers(members, kind).value)
  {
    var tagged, byTag := ResolvedMembers(members, kind).value, MembersByTag(members, kind);
    forall i, j | 0 <= i < j < |members|
      ensures byTag[i].key == byTag[j].key <==> tagged[i].tag == tagged[j].tag
    {
      KeyIsItsTag(members, kind, i);
      KeyIsItsTag(members, kind, j);
      SameTextSameTag(tagged[i].tag, tagged[j].tag);
    }
  }

  lemma KeyIsItsTag(members: seq<Member>, kind: FieldKind, i: nat)
    requires ResolvedMembers(members, kind).Ok? && i < |members|
    ensures MembersByTag(members, kind)[i].key == Decimal.ToText(ResolvedMembers(members, kind).value[i].tag)
  {
    MemberByTag(members, kind, i);
  }

  lemma SameTextSameTag(a: nat, b: nat)
    ensures Decimal.ToText(a) == Decimal.ToText(b) <==> a == b
  {
    if Decimal.ToText(a) == Decimal.ToText(b) {
      Decimal.TextIsInjective(a, b);
    }
  }

  /** A member by its tag resolves to what the member it stands for resolved to. */
  lemma MemberResolvesAgain(members: seq<Member>, kind: FieldKind, m: Member) returns (t: Tagged)
    requires WellNamed(kind) && ResolvedMembers(members, kind).Ok? && StableMembers(members, kind)
    requires m in MembersByTag(members, kind)
    ensures t in ResolvedMembers(members, kind).value
    ensures ResolvesTo(m, kind, t) && m.key == Decimal.ToText(t.tag)
  {
    var tagged, byTag := ResolvedMembers(members, kind).value, MembersByTag(members, kind);
    var i :| 0 <= i < |byTag| && byTag[i] == m;
    t := tagged[i];
    MemberByTag(members, kind, i);
    ResolvedMemberAt(members, kind, i);
    TagsResolveToThemselves(kind, t.tag);
    assert StableMember(members[i], kind);
  }

  ghost predicate Stands(m: Member, kind: FieldKind, t: Tagged, among: seq<Tagged>)
  {
    t in among && ResolvesTo(m, kind, t) && m.key == Decimal.ToText(t.tag)
  }

  lemma {:induction false} AllResolveAgain(members: seq<Member>, kind: FieldKind, some: seq<Member>)
    returns (again: seq<Tagged>)
    requires WellNamed(kind) && ResolvedMembers(members, kind).Ok? && StableMembers(members, kind)
    requires forall i | 0 <= i < |some| :: some[i] in MembersByTag(members, kind)
    ensures |again| == |some|
    ensures forall i | 0 <= i < |some| :: Stands(some[i], kind, again[i], ResolvedMembers(members, kind).value)
    decreases |some|
  {
    if some == [] {
      again := [];
    } else {
      var n := |some| - 1;
      var init := AllResolveAgain(members, kind, some[..n]);
      var t := MemberResolvesAgain(members, kind, some[n]);
      again := init + [t];
    }
  }

  lemma KeysDifferSoTagsDiffer(some: seq<Member>, kind: FieldKind, again: seq<Tagged>, among: seq<Tagged>)
    requires |again| == |some| && KeysDiffer(some)
    requires forall i | 0 <= i < |some| :: Stands(some[i], kind, again[i], among)
    ensures TagsDiffer(again)
  {
    forall i, j | 0 <= i < j < |again| ensures again[i].tag != again[j].tag {
      assert Stands(some[i], kind, again[i], among) && Stands(some[j], kind, again[j], among);
    }
  }

  /** The tag members of an object, looked up and resolved again. */
  lemma GatheredResolve(members: seq<Member>, kind: FieldKind) returns (again: seq<Tagged>)
    requires WellNamed(kind) && ResolvedMembers(members, kind).Ok?
    requires TagsDiffer(ResolvedMembers(members, kind).value) && StableMembers(members, kind)
    ensures ResolvedMembers(Collect(MembersByTag(members, kind)), kind) == Ok(again)
    ensures TagsDiffer(again) && forall m :: m in again <==> m in ResolvedMembers(members, kind).value
  {
    var tagged, byTag := ResolvedMembers(members, kind).value, MembersByTag(members, kind);
    var gathered := Collect(byTag);
    KeysDifferAsTags(members, kind);
    CollectKeepsDistinct(byTag);
    again := AllResolveAgain(members, kind, gathered);
    forall i | 0 <= i < |gathered| ensures ResolvesTo(gathered[i], kind, again[i]) && again[i] in tagged {
      assert Stands(gathered[i], kind, again[i], tagged);
    }
    MembersResolve(gathered, kind, again);
    KeysDifferSoTagsDiffer(gathered, kind, again, tagged);
    forall m | m in tagged ensures m in again {
      var i :| 0 <= i < |tagged| && tagged[i] == m;
      MemberByTag(members, kind, i);
      assert byTag[i] in gathered;
      var j :| 0 <= j < |gathered| && gathered[j] == byTag[i];
      assert Stands(gathered[j], kind, again[j], tagged);
      SameTag(again[j], m, tagged);
    }
  }

  lemma SameTag(a: Tagged, b: Tagged, members: seq<Tagged>)
    requires TagsDiffer(members) && a in members && b in members
    requires Decimal.ToText(a.tag) == Decimal.ToText(b.tag)
    ensures a == b
  {
    Decimal.TextIsInjective(a.tag, b.tag);
    var i :| 0 <= i < |members| && members[i] == a;
    var j :| 0 <= j < |members| && members[j] == b;
  }

  lemma {:induction false} UnambiguousIsStable(value: Json, kind: FieldKind)
    requires WellNamed(kind) && Resolved(value, kind).Ok? && Unambiguous(value, kind)
    ensures Stable(value, kind)
    decreases value, 1
  {
    if value.Arr? {
      TagsResolveToThemselves(kind, 0);
      ItemsAreStable(value.items, ElementKind(kind));
    } else if value.Obj? {
      MembersAreStable(value.members, kind);
      ObjectIsStable(value.members, kind);
    }
  }

  lemma ObjectIsStable(members: seq<Member>, kind: FieldKind)
    requires WellNamed(kind) && ResolvedMembers(members, kind).Ok?
    requires TagsDiffer(ResolvedMembers(members, kind).value) && StableMembers(members, kind)
    ensures Stable(Obj(members), kind)
  {
    var again := GatheredResolve(members, kind);
    SortForgetsOrder(again, ResolvedMembers(members, kind).value);
  }

  lemma {:induction false} ItemsAreStable(items: seq<Json>, kind: FieldKind)
    requires WellNamed(kind) && ResolvedItems(items, kind).Ok? && UnambiguousItems(items, kind)
    ensures ResolvedItems(ItemsByTag(items, kind), kind) == ResolvedItems(items, kind)
    decreases items, 0
  {
    if items != [] {
      var init, last := items[..|items| - 1], items[|items| - 1];
      ItemsAreStable(init, kind);
      UnambiguousIsStable(last, kind);
      assert ItemsByTag(items, kind)[..|items| - 1] == ItemsByTag(init, kind);
    }
  }

  lemma {:induction false} MemberIsStable(members: seq<Member>, kind: FieldKind, i: nat)
    requires WellNamed(kind) && ResolvedMembers(members, kind).Ok? && UnambiguousMembers(members, kind)
    requires i < |members|
    ensures StableMember(members[i], kind)
    decreases members, 0
  {
    var n := |members| - 1;
    var last := members[n];
    var tag := LastMember(members, kind);
    if i < n {
      MemberIsStable(members[..n], kind, i);
    } else {
      assert last.value < last;
      TagsResolveToThemselves(kind, tag);
      UnambiguousIsStable(last.value, MemberKind(kind, tag));
    }
  }

  lemma LastMember(members: seq<Member>, kind: FieldKind) returns (tag: nat)
    requires members != [] && ResolvedMembers(members, kind).Ok? && UnambiguousMembers(members, kind)
    ensures
      var n := |members| - 1;
      && ResolvedMembers(members[..n], kind).Ok? && UnambiguousMembers(members[..n], kind)
      && tag <= MAX_U8 && ResolveKey(members[n].key, kind) == Ok(tag)
      && Resolved(members[n].value, MemberKind(kind, tag)).Ok?
      && Unambiguous(members[n].value, MemberKind(kind, tag))
  {
    tag := ResolveKey(members[|members| - 1].key, kind).value;
  }

  lemma MembersAreStable(members: seq<Member>, kind: FieldKind)
    requires WellNamed(kind) && ResolvedMembers(members, kind).Ok? && UnambiguousMembers(members, kind)
    ensures StableMembers(members, kind)
    decreases members, 1
  {
    forall i | 0 <= i < |members| ensures StableMember(members[i], kind) {
      MemberIsStable(members, kind, i);
    }
  }

  /** Two payloads that differ only in whether their keys are names or tags are
      encoded alike. */
  lemma NamesAndTagsEncodeAlike(a: Json, b: Json, kind: FieldKind)
    requires WellNamed(kind)
    requires Resolved(a, kind).Ok? && Unambiguous(a, kind)
    requires Resolved(b, kind).Ok? && Unambiguous(b, kind)
    ensures ByTag(a, kind) == ByTag(b, kind) <==> Resolved(a, kind) == Resolved(b, kind)
  {
    UnambiguousIsStable(a, kind);
    UnambiguousIsStable(b, kind);
    DecodedIsByTag(a, kind);
    DecodedIsByTag(b, kind);
  }
}

/** `serde_json::Value`. An object is a `BTreeMap`, so its members are kept in
    ascending key order; a float is carried as its bit pattern. */
module Json {
  import opened Text
  import opened Wrappers

  type u64 = x: int | 0 <= x < 0x1_0000_0000_0000_0000
  type NegativeI64 = x: int | -0x8000_0000_0000_0000 <= x < 0 witness -1

  datatype Number = PosInt(value: u64) | NegInt(negative: NegativeI64) | Float(bits: u64)

  datatype Member = Member(key: string, value: Json)

  datatype Json =
    | Null
    | Bool(flag: bool)
    | Num(number: Number)
    | Str(text: string)
    | Arr(items: seq<Json>)
    | Obj(members: seq<Member>)

  predicate KeysAscending(members: seq<Member>)
  {
    forall i, j | 0 <= i < j < |members| :: Less(members[i].key, members[j].key)
  }

  function Find(members: seq<Member>, key: string): (found: Option<Json>)
    ensures found.Some? ==> Member(key, found.value) in members
  {
    if members == [] then None
    else if members[0].key == key then Some(members[0].value)
    else Find(members[1..], key)
  }

  /** `Value::get` with a string index: only an object has fields. */
  function Get(json: Json, field: string): Option<Json>
  {
    if json.Obj? then Find(json.members, field) else None
  }

  /** `Value::as_str` on an optional value. */
  function AsText(json: Option<Json>): Option<string>
  {
    if json.Some? && json.value.Str? then Some(json.value.text) else None
  }

  /** An object's fields as a map; a repeated field keeps its last value. */
  function Fields(members: seq<Member>): map<string, Json>
  {
    if members == [] then map[]
    else
      var last := members[|members| - 1];
      Fields(members[..|members| - 1])[last.key := last.value]
  }

  /** `Map::insert`: in its place, or in the place of the same key. */
  function Insert(members: seq<Member>, member: Member): seq<Member>
  {
    if members == [] then [member]
    else if member.key == members[0].key then [member] + members[1..]
    else if Less(member.key, members[0].key) then [member] + members
    else [members[0]] + Insert(members[1..], member)
  }

  /** An object filled with members one after another. */
  function Collect(members: seq<Member>): seq<Member>
  {
    if members == [] then [] else Insert(Collect(members[..|members| - 1]), members[|members| - 1])
  }

  lemma {:induction false} InsertKeepsOrder(members: seq<Member>, member: Member)
    requires KeysAscending(members)
    ensures KeysAscending(Insert(members, member))
    ensures forall m :: m in Insert(members, member) <==> m == member || (m in members && m.key != member.key)
  {
    if members != [] {
      var rest := members[1..];
      LessTotal(member.key, members[0].key);
      assert forall m :: m in members <==> m == members[0] || m in rest;
      forall m | m in rest ensures Less(members[0].key, m.key) && m.key != members[0].key {
        LessTotal(m.key, m.key);
      }
      if member.key == members[0].key {
      } else if Less(member.key, members[0].key) {
        forall m | m in rest ensures Less(member.key, m.key) && m.key != member.key {
          LessTransitive(member.key, members[0].key, m.key);
          LessTotal(m.key, m.key);
        }
      } else {
        InsertKeepsOrder(rest, member);
        var more := Insert(rest, member);
        forall j | 0 <= j < |more| ensures Less(members[0].key, more[j].key) {
          assert more[j] in more;
        }
      }
    }
  }

  lemma {:induction false} FieldsAreMembers(members: seq<Member>)
    requires KeysAscending(members)
    ensures forall key :: key in Fields(members) <==> exists m | m in members :: m.key == key
    ensures forall m | m in members :: m.key in Fields(members) && Fields(members)[m.key] == m.value
    decreases |members|
  {
    if members != [] {
      var init, last := members[..|members| - 1], members[|members| - 1];
      assert members == init + [last];
      FieldsAreMembers(init);
      assert last in members;
      forall m | m in init ensures m.key != last.key {
        LessTotal(last.key, last.key);
      }
      forall key ensures key in Fields(members) <==> exists m | m in members :: m.key == key {
        if key in Fields(init) {
          var m :| m in init && m.key == key;
          assert m in members;
        }
      }
    }
  }

  lemma FieldsOfInsert(members: seq<Member>, member: Member)
    requires KeysAscending(members)
    ensures Fields(Insert(members, member)) == Fields(members)[member.key := member.value]
  {
    InsertKeepsOrder(members, member);
    FieldsAreMembers(members);
    var after := Insert(members, member);
    FieldsAreMembers(after);
    var left, right := Fields(after), Fields(members)[member.key := member.value];
    forall key ensures key in left <==> key in right {
      if key in right && key != member.key {
        var m :| m in members && m.key == key;
        assert m in after;
      }
      assert member in after;
    }
    forall key | key in left ensures left[key] == right[key] {
      var m :| m in after && m.key == key;
    }
  }

  lemma {:induction false} CollectGathersFields(members: seq<Member>)
    ensures KeysAscending(Collect(members)) && Fields(Collect(members)) == Fields(members)
    decreases |members|
  {
    if members != [] {
      var init, last := members[..|members| - 1], members[|members| - 1];
      CollectGathersFields(init);
      InsertKeepsOrder(Collect(init), last);
      FieldsOfInsert(Collect(init), last);
    }
  }

  lemma LastIsNew(a: seq<Member>)
    requires a != [] && KeysAscending(a)
    ensures KeysAscending(a[..|a| - 1]) && a[|a| - 1].key !in Fields(a[..|a| - 1])
  {
    var init, last := a[..|a| - 1], a[|a| - 1];
    FieldsAreMembers(init);
    forall m | m in init ensures m.key != last.key {
      LessTotal(last.key, last.key);
    }
  }

  lemma LastKeyIsGreatest(a: seq<Member>, key: string)
    requires a != [] && KeysAscending(a) && key in Fields(a)
    ensures key == a[|a| - 1].key || Less(key, a[|a| - 1].key)
  {
    FieldsAreMembers(a);
    var m :| m in a && m.key == key;
  }

  /** An object is determined by its fields. */
  lemma {:induction false} FieldsDetermine(a: seq<Member>, b: seq<Member>)
    requires KeysAscending(a) && KeysAscending(b) && Fields(a) == Fields(b)
    ensures a == b
    decreases |a|
  {
    assert a == [] <==> Fields(a) == map[] by {
      assert a != [] ==> a[|a| - 1].key in Fields(a);
    }
    assert b == [] <==> Fields(b) == map[] by {
      assert b != [] ==> b[|b| - 1].key in Fields(b);
    }
    if a != [] && b != [] {
      var i, j := |a| - 1, |b| - 1;
      LastKeyIsGreatest(a, b[j].key);
      LastKeyIsGreatest(b, a[i].key);
      LessTotal(a[i].key, b[j].key);
      LastIsNew(a);
      LastIsNew(b);
      assert Fields(a[..i]) == Fields(a) - {a[i].key};
      assert Fields(b[..j]) == Fields(b) - {b[j].key};
      FieldsDetermine(a[..i], b[..j]);
      assert a == a[..i] + [a[i]] && b == b[..j] + [b[j]];
    }
  }
}

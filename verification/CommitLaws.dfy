/** What a line of the log does to the values one can look up
    (`server/src/migrate/store.rs`), from its JSON text form to the answers. */
module CommitLaws {
  import opened Json
  import opened Namespaces
  import opened Replay
  import opened Store
  import opened Text
  import opened Wrappers

  // ----- reading an object -----

  /** An object with that field, as its text spells it. */
  predicate Has(json: Json, field: string, value: Json)
  {
    json.Obj? && KeysAscending(json.members) && Member(field, value) in json.members
  }

  predicate Lacks(json: Json, field: string)
  {
    json.Obj? ==> forall m | m in json.members :: m.key != field
  }

  lemma {:induction false} FoundOnce(members: seq<Member>, field: string, value: Json)
    requires KeysAscending(members) && Member(field, value) in members
    ensures Find(members, field) == Some(value)
  {
    var i :| 0 <= i < |members| && members[i] == Member(field, value);
    if i > 0 {
      LessTotal(members[0].key, field);
      assert Less(members[0].key, members[i].key);
      LessTotal(field, field);
      assert members[0].key != field;
      assert members[1..][i - 1] == members[i];
      FoundOnce(members[1..], field, value);
    }
  }

  lemma {:induction false} NotFound(members: seq<Member>, field: string)
    requires forall m | m in members :: m.key != field
    ensures Find(members, field) == None
  {
    if members != [] {
      assert members[0] in members;
      NotFound(members[1..], field);
    }
  }

  lemma Got(json: Json, field: string, value: Json)
    requires Has(json, field, value)
    ensures Get(json, field) == Some(value)
  {
    FoundOnce(json.members, field, value);
  }

  lemma GotNothing(json: Json, field: string)
    requires Lacks(json, field)
    ensures Get(json, field) == None
  {
    if json.Obj? {
      NotFound(json.members, field);
    }
  }

  /** Written values are found as they were written. */
  lemma {:induction false} FieldsAsWritten(members: seq<Member>, name: string)
    requires KeysAscending(members)
    ensures name in Fields(members) <==> exists m | m in members :: m.key == name
    ensures forall m | m in members && m.key == name :: name in Fields(members) && Fields(members)[name] == m.value
  {
    if members != [] {
      var init, last := members[..|members| - 1], members[|members| - 1];
      assert members == init + [last];
      FieldsAsWritten(init, name);
      forall m | m in init ensures m.key != last.key {
        var i :| 0 <= i < |init| && init[i] == m;
        assert Less(members[i].key, members[|members| - 1].key);
        LessTotal(m.key, m.key);
      }
    }
  }

  // ----- lines -----

  /** A line that is a list of operations, alone or under `ops`. */
  predicate Holds(commit: Json, items: seq<Json>)
  {
    commit == Arr(items) || Has(commit, "ops", Arr(items))
  }

  lemma LineHolds(commit: Json, items: seq<Json>)
    requires Holds(commit, items)
    ensures CommitItems(commit) == items
  {
    if commit.Obj? {
      Got(commit, "ops", Arr(items));
    }
  }

  /** Both forms of a line do the same: its operations, one after the other. */
  lemma LineByLine(contexts: Contexts, commit: Json, first: seq<Json>, last: Json)
    requires Holds(commit, first + [last])
    ensures Committed(contexts, commit) == Committed(Committed(contexts, Arr(first)), Arr([last]))
  {
    LineHolds(commit, first + [last]);
    assert DecodeOps(first + [last]) == DecodeOps(first) + DecodeOps([last]);
    RunAppend(Apply, contexts, DecodeOps(first), DecodeOps([last]));
  }

  /** A line without operations, or without a list of them, does nothing. */
  lemma OtherLinesDoNothing(contexts: Contexts, commit: Json)
    requires
      || Holds(commit, [])
      || (!commit.Arr? && Lacks(commit, "ops"))
      || exists other: Json :: !other.Arr? && Has(commit, "ops", other)
    ensures Committed(contexts, commit) == contexts
  {
    if Holds(commit, []) {
      LineHolds(commit, []);
    } else if !commit.Arr? && Lacks(commit, "ops") {
      GotNothing(commit, "ops");
    } else {
      var other: Json :| !other.Arr? && Has(commit, "ops", other);
      Got(commit, "ops", other);
    }
  }

  /** The line stands in the log like any other. */
  lemma LoggedLine(contexts: Contexts, at: CommitId, commit: Json)
    ensures Replayed(contexts, [Entry(at, Commit(commit))]) == Committed(contexts, commit)
  {
    ReplayOne(contexts, Entry(at, Commit(commit)), None);
    assert Unseen([Entry(at, Commit(commit))], None) == [Entry(at, Commit(commit))];
  }

  lemma OneOperation(contexts: Contexts, commit: Json, op: Json)
    requires Holds(commit, [op])
    ensures Committed(contexts, commit) == Apply(contexts, DecodeOp(op))
  {
    LineHolds(commit, [op]);
    assert DecodeOps([op]) == [DecodeOp(op)];
    RunOneMore(Apply, contexts, [DecodeOp(op)], 0);
    assert [DecodeOp(op)][..1] == [DecodeOp(op)];
  }

  /** The context an operation is about; one without a text for it is about the
      unnamed one. */
  ghost predicate About(op: Json, key: string)
  {
    || Has(op, "key", Str(key))
    || (key == "" && (Lacks(op, "key") || exists other: Json :: !other.Str? && Has(op, "key", other)))
  }

  lemma AboutIsKey(op: Json, key: string)
    requires About(op, key)
    ensures (if AsText(Get(op, "key")).Some? then AsText(Get(op, "key")).value else "") == key
  {
    if Has(op, "key", Str(key)) {
      Got(op, "key", Str(key));
    } else if Lacks(op, "key") {
      GotNothing(op, "key");
    } else {
      var other: Json :| !other.Str? && Has(op, "key", other);
      Got(op, "key", other);
    }
  }

  // ----- what each operation does -----

  /** After an update every written name is found with its value, and every other
      look-up is as before; the context is there even if nothing was written. */
  lemma UpdateWrites(contexts: Contexts, commit: Json, op: Json, key: string, values: seq<Member>)
    requires Holds(commit, [op]) && Has(op, "op", Str("upd")) && About(op, key)
    requires Has(op, "values", Obj(values)) && KeysAscending(values)
    ensures
      var after := Committed(contexts, commit);
      && (forall m | m in values :: Lookup(after, key, m.key) == Some(m.value))
      && (forall path, name | path != key || !(exists m | m in values :: m.key == name) ::
            Lookup(after, path, name) == Lookup(contexts, path, name))
      && forall path :: path in after <==> path in contexts || path == key
  {
    OneOperation(contexts, commit, op);
    Got(op, "op", Str("upd"));
    Got(op, "values", Obj(values));
    AboutIsKey(op, key);
    forall path, name {
      UpdateIsSeen(contexts, key, values, path, name);
    }
  }

  lemma UpdateIsSeen(contexts: Contexts, key: string, values: seq<Member>, path: string, name: string)
    requires KeysAscending(values)
    ensures
      var after := Apply(contexts, Update(key, values));
      && (path in after <==> path in contexts || path == key)
      && (path == key ==> forall m | m in values && m.key == name :: Lookup(after, path, name) == Some(m.value))
      && (path != key || !(exists m | m in values :: m.key == name) ==>
            Lookup(after, path, name) == Lookup(contexts, path, name))
  {
    FieldsAsWritten(values, name);
  }

  /** After a deletion by names exactly those names of that one context are gone;
      the context stays. */
  lemma NamesAreDeleted(contexts: Contexts, commit: Json, op: Json, key: string, items: seq<Json>)
    requires Holds(commit, [op]) && Has(op, "op", Str("del")) && About(op, key) && Has(op, "values", Arr(items))
    ensures
      var after := Committed(contexts, commit);
      && (forall path, name ::
            Lookup(after, path, name)
            == if path == key && Str(name) in items then None else Lookup(contexts, path, name))
      && forall path :: path in after <==> path in contexts
  {
    OneOperation(contexts, commit, op);
    Got(op, "op", Str("del"));
    Got(op, "values", Arr(items));
    AboutIsKey(op, key);
    forall path, name {
      DeletionIsSeen(contexts, key, items, path, name);
    }
  }

  lemma DeletionIsSeen(contexts: Contexts, key: string, items: seq<Json>, path: string, name: string)
    ensures
      var after := Apply(contexts, RemoveNames(key, Texts(items)));
      && (path in after <==> path in contexts)
      && Lookup(after, path, name)
         == if path == key && Str(name) in items then None else Lookup(contexts, path, name)
  {
    TextsOfItems(items, name);
  }

  lemma {:induction false} TextsOfItems(items: seq<Json>, name: string)
    ensures name in Texts(items) <==> Str(name) in items
  {
    if items != [] {
      assert items == [items[0]] + items[1..];
      TextsOfItems(items[1..], name);
    }
  }

  /** After a deletion without names exactly the contexts are gone whose segments
      begin with the key's, and with no key every one. */
  lemma TreeIsDeleted(contexts: Contexts, commit: Json, op: Json, key: string)
    requires Holds(commit, [op]) && Has(op, "op", Str("del")) && About(op, key)
    requires Lacks(op, "values") || exists other: Json :: !other.Arr? && Has(op, "values", other)
    ensures
      var after := Committed(contexts, commit);
      && (forall path ::
            path in after <==> path in contexts && key != "" && !(Split(key, '.') <= Split(path, '.')))
      && forall path, name | path in after :: Lookup(after, path, name) == Lookup(contexts, path, name)
  {
    OneOperation(contexts, commit, op);
    Got(op, "op", Str("del"));
    NoListOf(op, "values");
    AboutIsKey(op, key);
    forall path {
      DeletionIsBySegments(contexts, key, path);
    }
  }

  lemma NoListOf(op: Json, field: string)
    requires Lacks(op, field) || exists other: Json :: !other.Arr? && Has(op, field, other)
    ensures Get(op, field).None? || !Get(op, field).value.Arr?
  {
    if Lacks(op, field) {
      GotNothing(op, field);
    } else {
      var other: Json :| !other.Arr? && Has(op, field, other);
      Got(op, field, other);
    }
  }

  /** Any other operation changes nothing, and neither does an update without an
      object of values. */
  lemma OthersChangeNothing(contexts: Contexts, commit: Json, op: Json)
    requires Holds(commit, [op])
    requires
      || Lacks(op, "op")
      || (exists kind: Json :: kind !in {Str("upd"), Str("del")} && Has(op, "op", kind))
      || (Has(op, "op", Str("upd")) && Lacks(op, "values"))
      || (Has(op, "op", Str("upd")) && exists other: Json :: !other.Obj? && Has(op, "values", other))
    ensures Committed(contexts, commit) == contexts
  {
    OneOperation(contexts, commit, op);
    if Lacks(op, "op") {
      GotNothing(op, "op");
    } else if kind: Json :| kind !in {Str("upd"), Str("del")} && Has(op, "op", kind) {
      Got(op, "op", kind);
    } else {
      Got(op, "op", Str("upd"));
      if Lacks(op, "values") {
        GotNothing(op, "values");
      } else {
        var other: Json :| !other.Obj? && Has(op, "values", other);
        Got(op, "values", other);
      }
    }
  }

  // ----- which lines are applied -----

  /** Of a log, exactly the lines of later segments than the recorded one are left,
      and those of the same segment that come after the recorded line. */
  lemma {:induction false} LeftAfter(log: seq<Entry>, segment: nat, offset: nat, e: Entry)
    ensures e in Unseen(log, Some((segment, offset)))
      <==> e in log && (e.at.0 > segment || (e.at.0 == segment && e.at.1 > offset))
    ensures Unseen(log, None) == log
  {
    if log != [] {
      LeftAfter(log[1..], segment, offset, e);
      assert log == [log[0]] + log[1..];
    }
  }

  /** A line's position is its segment's number and its own, counted from zero. */
  lemma LinePosition(segment: Segment, i: nat)
    requires i < |segment.lines|
    ensures Entries(segment)[i] == Entry((segment.id, i), segment.lines[i])
  {
  }

  // ----- the stored object -----

  /** The object of the `json` driver, and a snapshot's data, as they spell it: a
      context for each member that is an object, with its values. */
  lemma {:induction false} ObjectIsRead(members: seq<Member>, path: string)
    requires KeysAscending(members)
    ensures path in StoreContexts(members) <==> exists m | m in members :: m.key == path && m.value.Obj?
    ensures forall m | m in members && m.key == path && m.value.Obj? ::
      path in StoreContexts(members) && StoreContexts(members)[path] == Fields(m.value.members)
  {
    if members != [] {
      var init, last := members[..|members| - 1], members[|members| - 1];
      assert members == init + [last];
      ObjectIsRead(init, path);
      forall m | m in init ensures m.key != last.key {
        var i :| 0 <= i < |init| && init[i] == m;
        assert Less(members[i].key, members[|members| - 1].key);
        LessTotal(m.key, m.key);
      }
      if path == last.key {
        assert path !in StoreContexts(init);
        if last.value.Obj? {
          var fields := Fields(last.value.members);
          assert ContextOr(StoreContexts(init), path) + fields == fields;
        }
      }
    }
  }
}

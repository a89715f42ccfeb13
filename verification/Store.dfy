/** Reading a matter.js storage namespace (`server/src/migrate/store.rs`).

    A namespace is a map of dotted context paths to key/value pairs. The `wal`
    driver keeps it as a snapshot plus a positioned log of commits, the `json`
    driver as one object, the `file` driver as one file per key. Values are
    carried as the JSON they were stored as. */
module Store {
  import opened Json
  import opened Replay
  import opened Text
  import opened Wrappers

  type Values = map<string, Json>
  type Contexts = map<string, Values>

  // ----- operations of a commit -----

  datatype Op =
    | Update(key: string, values: seq<Member>)
    | RemoveNames(key: string, names: seq<string>)
    | RemoveTree(key: string)
    | Ignored

  function ContextOr(contexts: Contexts, key: string): Values
  {
    if key in contexts then contexts[key] else map[]
  }

  /** Whether deleting `key` deletes `path`, as the string test decides it. */
  predicate Beneath(path: string, key: string)
  {
    path == key || StartsWith(path, key + ".")
  }

  function Apply(contexts: Contexts, op: Op): Contexts
  {
    match op
    case Update(key, values) => contexts[key := ContextOr(contexts, key) + Fields(values)]
    case RemoveNames(key, names) =>
      if key in contexts then contexts[key := contexts[key] - Names(names)] else contexts
    case RemoveTree(key) =>
      if key == "" then map[] else map path | path in contexts && !Beneath(path, key) :: contexts[path]
    case Ignored => contexts
  }

  function Names(names: seq<string>): set<string>
  {
    set name | name in names
  }

  function Texts(items: seq<Json>): seq<string>
  {
    if items == [] then []
    else (if items[0].Str? then [items[0].text] else []) + Texts(items[1..])
  }

  function DecodeOp(op: Json): Op
  {
    var text := AsText(Get(op, "key"));
    var key := if text.Some? then text.value else "";
    var kind := AsText(Get(op, "op"));
    var values := Get(op, "values");
    if kind == Some("upd") then
      if values.Some? && values.value.Obj? then Update(key, values.value.members) else Ignored
    else if kind == Some("del") then
      if values.Some? && values.value.Arr? then RemoveNames(key, Texts(values.value.items)) else RemoveTree(key)
    else Ignored
  }

  function DecodeOps(items: seq<Json>): (ops: seq<Op>)
    ensures |ops| == |items|
  {
    seq(|items|, i requires 0 <= i < |items| => DecodeOp(items[i]))
  }

  /** The operations of a commit: `{ts, ops}`, or a bare array of them. */
  function CommitItems(commit: Json): seq<Json>
  {
    var ops := Get(commit, "ops");
    var list := if ops.Some? then ops.value else commit;
    if list.Arr? then list.items else []
  }

  /** The contexts after one line of the log. */
  function Committed(contexts: Contexts, commit: Json): Contexts
  {
    Run(Apply, contexts, DecodeOps(CommitItems(commit)))
  }

  // ----- lines, segments and positions -----

  /** One line of a segment: blank, not JSON (torn), or a commit. */
  datatype Line = Blank | Torn | Commit(json: Json)

  datatype Segment = Segment(id: nat, lines: seq<Line>)

  /** The segment and the line within it; blank and torn lines count. */
  type CommitId = (nat, nat)

  predicate AtOrBefore(a: CommitId, b: CommitId)
  {
    a.0 < b.0 || (a.0 == b.0 && a.1 <= b.1)
  }

  datatype Entry = Entry(at: CommitId, line: Line)

  function Entries(segment: Segment): (entries: seq<Entry>)
    ensures |entries| == |segment.lines|
  {
    seq(|segment.lines|, i requires 0 <= i < |segment.lines| => Entry((segment.id, i), segment.lines[i]))
  }

  /** Every line of every segment, in replay order. */
  function Log(segments: seq<Segment>): seq<Entry>
  {
    if segments == [] then [] else Entries(segments[0]) + Log(segments[1..])
  }

  function LineOps(line: Line): seq<Op>
  {
    if line.Commit? then DecodeOps(CommitItems(line.json)) else []
  }

  function LogOps(log: seq<Entry>): seq<Op>
  {
    if log == [] then [] else LineOps(log[0].line) + LogOps(log[1..])
  }

  /** The contexts after a stretch of log. */
  function Replayed(contexts: Contexts, log: seq<Entry>): Contexts
  {
    Run(Apply, contexts, LogOps(log))
  }

  predicate Skipped(at: CommitId, after: Option<CommitId>)
  {
    after.Some? && AtOrBefore(at, after.value)
  }

  /** What the skip test leaves of a log. */
  function Unseen(log: seq<Entry>, after: Option<CommitId>): seq<Entry>
  {
    if log == [] then []
    else (if Skipped(log[0].at, after) then [] else [log[0]]) + Unseen(log[1..], after)
  }

  datatype Snapshot = Snapshot(contexts: Contexts, commitId: Option<CommitId>)

  /** What the `wal` driver's directory means. */
  function WalState(snapshot: Option<Snapshot>, segments: seq<Segment>): Contexts
  {
    match snapshot
    case None => Replayed(map[], Unseen(Log(segments), None))
    case Some(s) => Replayed(s.contexts, Unseen(Log(segments), s.commitId))
  }

  lemma {:induction false} LogOpsAppend(a: seq<Entry>, b: seq<Entry>)
    ensures LogOps(a + b) == LogOps(a) + LogOps(b)
  {
    if a == [] {
      assert a + b == b;
    } else {
      assert (a + b)[1..] == a[1..] + b;
      LogOpsAppend(a[1..], b);
      Associative(LineOps(a[0].line), LogOps(a[1..]), LogOps(b));
    }
  }

  lemma {:induction false} UnseenAppend(a: seq<Entry>, b: seq<Entry>, after: Option<CommitId>)
    ensures Unseen(a + b, after) == Unseen(a, after) + Unseen(b, after)
  {
    if a == [] {
      assert a + b == b;
    } else {
      assert (a + b)[1..] == a[1..] + b;
      UnseenAppend(a[1..], b, after);
      Associative(if Skipped(a[0].at, after) then [] else [a[0]], Unseen(a[1..], after), Unseen(b, after));
    }
  }

  lemma {:induction false} LogAppend(a: seq<Segment>, b: seq<Segment>)
    ensures Log(a + b) == Log(a) + Log(b)
  {
    if a == [] {
      assert a + b == b;
    } else {
      assert (a + b)[1..] == a[1..] + b;
      LogAppend(a[1..], b);
    }
  }

  // ----- replaying in place -----

  class ContextMap {
    var contexts: Contexts

    constructor ()
      ensures contexts == map[]
    {
      contexts := map[];
    }

    method ApplyCommit(commit: Json)
      modifies this
      ensures contexts == Committed(old(contexts), commit)
    {
      var ops := CommitItems(commit);
      ghost var all := DecodeOps(ops);
      for i := 0 to |ops|
        invariant contexts == Run(Apply, old(contexts), all[..i])
      {
        RunOneMore(Apply, old(contexts), all, i);
        ApplyOp(ops[i]);
      }
      assert all[..|ops|] == all;
    }

    method ApplyOp(op: Json)
      modifies this
      ensures contexts == Apply(old(contexts), DecodeOp(op))
    {
      var kind := AsText(Get(op, "op"));
      var text := AsText(Get(op, "key"));
      var key := if text.Some? then text.value else "";
      var values := Get(op, "values");
      if kind == Some("upd") {
        if values.Some? && values.value.Obj? {
          Insert(key, values.value.members);
        }
      } else if kind == Some("del") {
        if values.Some? && values.value.Arr? {
          RemoveKeys(key, values.value.items);
        } else if key == "" {
          contexts := map[];
        } else {
          var prefix := key + ".";
          contexts := contexts - {key};
          contexts := map path | path in contexts && !StartsWith(path, prefix) :: contexts[path];
          assert contexts == Apply(old(contexts), RemoveTree(key));
        }
      }
    }

    /** The lines of one segment that the skip test leaves. */
    method ReplaySegment(segment: Segment, after: Option<CommitId>)
      modifies this
      ensures contexts == Replayed(old(contexts), Unseen(Entries(segment), after))
    {
      ghost var entries := Entries(segment);
      for offset := 0 to |segment.lines|
        invariant contexts == Replayed(old(contexts), Unseen(entries[..offset], after))
      {
        assert entries[..offset + 1] == entries[..offset] + [entries[offset]];
        ReplayMore(old(contexts), entries[..offset], [entries[offset]], after);
        ReplayOne(contexts, entries[offset], after);
        if after.Some? && AtOrBefore((segment.id, offset), after.value) {
          continue;
        }
        if segment.lines[offset].Commit? {
          ApplyCommit(segment.lines[offset].json);
        }
      }
      assert entries[..|segment.lines|] == entries;
    }

    /** `contexts.entry(key).or_default()`, then one insertion per value. */
    method Insert(key: string, values: seq<Member>)
      modifies this
      ensures contexts == Apply(old(contexts), Update(key, values))
    {
      ghost var held := ContextOr(contexts, key);
      if key !in contexts {
        contexts := contexts[key := map[]];
      }
      assert values[..0] == [] && held + Fields([]) == held;
      for i := 0 to |values|
        invariant contexts == old(contexts)[key := held + Fields(values[..i])]
      {
        FieldsMore(held, values, i);
        contexts := contexts[key := contexts[key][values[i].key := values[i].value]];
      }
      assert values[..|values|] == values;
    }

    method RemoveKeys(key: string, items: seq<Json>)
      modifies this
      ensures contexts == Apply(old(contexts), RemoveNames(key, Texts(items)))
    {
      if key in contexts {
        ghost var held := contexts[key];
        assert items[..0] == [] && held - Names(Texts([])) == held;
        for i := 0 to |items|
          invariant contexts == old(contexts)[key := held - Names(Texts(items[..i]))]
        {
          TextsAppend(items[..i], items[i]);
          assert items[..i + 1] == items[..i] + [items[i]];
          if items[i].Str? {
            contexts := contexts[key := contexts[key] - {items[i].text}];
          }
          assert contexts[key] == held - Names(Texts(items[..i + 1]));
        }
        assert items[..|items|] == items;
      }
    }
  }

  lemma FieldsMore(held: Values, values: seq<Member>, i: nat)
    requires i < |values|
    ensures held + Fields(values[..i + 1]) == (held + Fields(values[..i]))[values[i].key := values[i].value]
  {
    var fields, last := Fields(values[..i]), values[i];
    var more := values[..i + 1];
    assert more[..|more| - 1] == values[..i] && more[|more| - 1] == last;
    assert Fields(more) == fields[last.key := last.value];
    assert held + fields[last.key := last.value] == (held + fields)[last.key := last.value];
  }

  lemma {:induction false} TextsAppend(items: seq<Json>, item: Json)
    ensures Texts(items + [item]) == Texts(items) + (if item.Str? then [item.text] else [])
  {
    if items == [] {
      assert items + [item] == [item];
    } else {
      assert (items + [item])[1..] == items[1..] + [item];
      TextsAppend(items[1..], item);
      Associative(
        if items[0].Str? then [items[0].text] else [], Texts(items[1..]), if item.Str? then [item.text] else []);
    }
  }

  /** Opening a `wal` directory: its snapshot brought up to date from its log. */
  method ReadWal(snapshot: Option<Snapshot>, segments: seq<Segment>) returns (contexts: Contexts)
    ensures contexts == WalState(snapshot, segments)
  {
    var store := new ContextMap();
    var after: Option<CommitId> := None;
    if snapshot.Some? {
      store.contexts := snapshot.value.contexts;
      after := snapshot.value.commitId;
    }
    ghost var base := store.contexts;
    for i := 0 to |segments|
      invariant store.contexts == Replayed(base, Unseen(Log(segments[..i]), after))
    {
      LogOneMore(segments, i);
      ReplayMore(base, Log(segments[..i]), Entries(segments[i]), after);
      store.ReplaySegment(segments[i], after);
    }
    assert segments[..|segments|] == segments;
    contexts := store.contexts;
  }

  lemma LogOneMore(segments: seq<Segment>, i: nat)
    requires i < |segments|
    ensures Log(segments[..i + 1]) == Log(segments[..i]) + Entries(segments[i])
  {
    assert segments[..i + 1] == segments[..i] + [segments[i]];
    LogAppend(segments[..i], [segments[i]]);
    assert [segments[i]][1..] == [];
  }

  lemma ReplayMore(base: Contexts, seen: seq<Entry>, more: seq<Entry>, after: Option<CommitId>)
    ensures Replayed(base, Unseen(seen + more, after))
      == Replayed(Replayed(base, Unseen(seen, after)), Unseen(more, after))
  {
    UnseenAppend(seen, more, after);
    LogOpsAppend(Unseen(seen, after), Unseen(more, after));
    RunAppend(Apply, base, LogOps(Unseen(seen, after)), LogOps(Unseen(more, after)));
  }

  lemma ReplayOne(base: Contexts, entry: Entry, after: Option<CommitId>)
    ensures Replayed(base, Unseen([entry], after))
      == if Skipped(entry.at, after) then base else Run(Apply, base, LineOps(entry.line))
  {
    assert [entry][1..] == [];
    assert Unseen([entry], after) == if Skipped(entry.at, after) then [] else [entry];
    assert LogOps([entry]) == LineOps(entry.line) + [] == LineOps(entry.line);
  }
}

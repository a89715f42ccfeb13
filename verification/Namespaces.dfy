/** Looking contexts up, and the tree that their dotted paths form
    (`server/src/migrate/store.rs`). */
module Namespaces {
  import opened Json
  import opened Store
  import opened Text
  import opened Wrappers

  function Lookup(contexts: Contexts, path: string, key: string): Option<Json>
  {
    if path in contexts && key in contexts[path] then Some(contexts[path][key]) else None
  }

  function Segments(path: string): seq<string>
  {
    Split(path, '.')
  }

  /** Deleting a context removes exactly the paths whose segments start with its
      own, so `peer10` survives the deletion of `peer1`; the empty key stands for
      everything. */
  lemma DeletionIsBySegments(contexts: Contexts, key: string, path: string)
    ensures
      path in Apply(contexts, RemoveTree(key))
      <==> path in contexts && key != "" && !(Segments(key) <= Segments(path))
    ensures path in Apply(contexts, RemoveTree(key)) ==> Apply(contexts, RemoveTree(key))[path] == contexts[path]
  {
    StartsWithParts(path, key, '.');
    JoinOfSplit(path, '.');
    JoinOfSplit(key, '.');
    assert key + "." == key + ['.'];
    assert Segments(key) <= Segments(path) && !(Segments(key) < Segments(path)) ==> Segments(key) == Segments(path);
  }

  /** `name` is the next segment of `path` under the given context. */
  predicate NextSegment(path: string, under: seq<string>, name: string)
  {
    var above := if under == [] then [] else Segments(Join(under, '.'));
    above < Segments(path) && Segments(path)[|above|] == name
  }

  lemma NextSegmentByPrefix(path: string, under: seq<string>)
    ensures
      var prefix := if under == [] then "" else Join(under, '.') + ".";
      && (StartsWith(path, prefix) <==> exists name :: NextSegment(path, under, name))
      && (StartsWith(path, prefix) ==> NextSegment(path, under, Segments(path[|prefix|..])[0]))
  {
    if under == [] {
      assert path[0..] == path;
      assert NextSegment(path, under, Segments(path)[0]);
    } else {
      var above := Join(under, '.');
      StartsWithParts(path, above, '.');
      if Segments(above) < Segments(path) {
        assert NextSegment(path, under, Segments(path)[|Segments(above)|]);
      }
    }
  }

  /** The immediate children of a context: each distinct non-empty next segment
      once, in order. */
  method ChildContexts(contexts: Contexts, under: seq<string>) returns (children: seq<string>)
    ensures Ascending(children)
    ensures forall name ::
      name in children <==> name != "" && exists path | path in contexts :: NextSegment(path, under, name)
  {
    var prefix := if under == [] then "" else Join(under, '.') + ".";
    var names: seq<string> := [];
    var rest := contexts.Keys;
    while rest != {}
      invariant rest <= contexts.Keys
      invariant forall name ::
        name in names <==> name != "" && exists path | path in contexts.Keys - rest :: NextSegment(path, under, name)
    {
      var path :| path in rest;
      ghost var seen := contexts.Keys - rest;
      NextSegmentByPrefix(path, under);
      rest := rest - {path};
      assert contexts.Keys - rest == seen + {path};
      if StartsWith(path, prefix) && !(prefix == "" && path == "") {
        var name := Split(path[|prefix|..], '.')[0];
        if name != "" {
          names := names + [name];
        }
      }
    }
    children := SortDedup(names);
  }

  // ----- the `json` driver and the snapshot -----

  /** `{context: {key: value}}`; a context that is not an object is skipped. */
  function StoreContexts(members: seq<Member>): Contexts
  {
    if members == [] then map[]
    else
      var earlier, last := StoreContexts(members[..|members| - 1]), members[|members| - 1];
      if last.value.Obj?
      then earlier[last.key := ContextOr(earlier, last.key) + Fields(last.value.members)]
      else earlier
  }

  function StoreState(raw: Json): Contexts
  {
    if raw.Obj? then StoreContexts(raw.members) else map[]
  }

  method StoreData(raw: Json) returns (contexts: Contexts)
    ensures contexts == StoreState(raw)
  {
    var store := new ContextMap();
    if raw.Obj? {
      for i := 0 to |raw.members|
        invariant store.contexts == StoreContexts(raw.members[..i])
      {
        var member := raw.members[i];
        assert raw.members[..i + 1][..i] == raw.members[..i];
        if member.value.Obj? {
          store.Insert(member.key, member.value.members);
        }
      }
      assert raw.members[..|raw.members|] == raw.members;
    }
    contexts := store.contexts;
  }

  /** A snapshot file, refused when it has no data. A segment that cannot be read
      leaves it without a position; an offset that cannot be read counts as 0. */
  function ParseSnapshot(raw: Json): Option<Snapshot>
  {
    var data :- Get(raw, "data");
    Some(Snapshot(StoreState(data), SnapshotPosition(raw)))
  }

  function SnapshotPosition(raw: Json): Option<CommitId>
  {
    var id :- Get(raw, "commitId");
    var segment :- Get(id, "segment");
    var s :- AsU64(segment);
    var offset :- Get(id, "offset");
    var o := AsU64(offset);
    Some((s, if o.Some? then o.value else 0))
  }

  function AsU64(json: Json): Option<u64>
  {
    if json.Num? && json.number.PosInt? then Some(json.number.value) else None
  }
}

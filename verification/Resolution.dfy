/** The memoising resolver of struct definitions (`server/src/matter/clusters.rs`).
    It ends on every table, cyclic or not. */
module Resolution {
  import opened FieldKinds
  import opened StructTables
  import opened Text
  import opened WireNames
  import opened Wrappers

  type Memo = map<string, StructMeta>

  /** A struct kind may fall back to the bare JSON shape only where the struct it
      names has no definition or is on a cycle. */
  ghost predicate MayFallBack(table: Table, kind: string)
  {
    var name := Reference(kind);
    name.Some? ==> name.value !in table || OnCycle(table, name.value)
  }

  /** A resolved kind either shares the memoised struct or has fallen back. */
  ghost predicate Admits(table: Table, done: Memo, kind: string, resolved: FieldKind)
  {
    var name := Reference(kind);
    || (MayFallBack(table, kind) && resolved == Shaped(kind, None))
    || (name.Some? && name.value in done && resolved == Shaped(kind, Some(done[name.value])))
  }

  /** Of the entries with a tag the last one stands. */
  function LastEntry(types: seq<KindEntry>, tag: nat): (entry: Option<KindEntry>)
    ensures entry.Some? ==> entry.value in types && TagOf(entry.value) == Some(tag)
    ensures entry.None? ==> forall e | e in types :: TagOf(e) != Some(tag)
  {
    if types == [] then None
    else
      var init, last := types[..|types| - 1], types[|types| - 1];
      assert types == init + [last];
      if TagOf(last) == Some(tag) then Some(last) else LastEntry(init, tag)
  }

  lemma LastEntryOneMore(types: seq<KindEntry>, entry: KindEntry, tag: nat)
    ensures LastEntry(types + [entry], tag) == if TagOf(entry) == Some(tag) then Some(entry) else LastEntry(types, tag)
  {
    assert (types + [entry])[..|types|] == types;
  }

  /** A tag has a kind exactly if it has an entry, and then the last one's. */
  ghost predicate KindExplained(
    table: Table, done: Memo, types: seq<KindEntry>, kinds: map<nat, FieldKind>, tag: nat)
  {
    && (tag in kinds <==> LastEntry(types, tag).Some?)
    && (tag in kinds ==> Admits(table, done, LastEntry(types, tag).value.kind, kinds[tag]))
  }

  ghost predicate KindsExplained(table: Table, done: Memo, types: seq<KindEntry>, kinds: map<nat, FieldKind>)
  {
    forall tag: nat :: KindExplained(table, done, types, kinds, tag)
  }

  ghost predicate Explained(table: Table, done: Memo, name: string, meta: StructMeta)
  {
    && name in table
    && meta.name == WireFieldName(name)
    && meta.fields == WireTable(table[name].fields)
    && KindsExplained(table, done, table[name].types, meta.kinds)
  }

  ghost predicate Keeps(before: Memo, after: Memo)
  {
    forall name | name in before :: name in after && after[name] == before[name]
  }

  lemma StillExplained(table: Table, before: Memo, after: Memo, name: string, meta: StructMeta)
    requires Explained(table, before, name, meta) && Keeps(before, after)
    ensures Explained(table, after, name, meta)
  {
    forall tag: nat ensures KindExplained(table, after, table[name].types, meta.kinds, tag) {
      assert KindExplained(table, before, table[name].types, meta.kinds, tag);
    }
  }

  lemma KindsOneMore(
    table: Table, before: Memo, after: Memo, types: seq<KindEntry>, kinds: map<nat, FieldKind>, entry: KindEntry,
    resolved: FieldKind)
    requires KindsExplained(table, before, types, kinds) && Keeps(before, after)
    requires Admits(table, after, entry.kind, resolved) && TagOf(entry).Some?
    ensures KindsExplained(table, after, types + [entry], kinds[TagOf(entry).value := resolved])
  {
    var all, grown := types + [entry], kinds[TagOf(entry).value := resolved];
    forall tag: nat ensures KindExplained(table, after, all, grown, tag) {
      LastEntryOneMore(types, entry, tag);
      assert KindExplained(table, before, types, kinds, tag);
    }
  }

  lemma KindsSkipOne(
    table: Table, done: Memo, types: seq<KindEntry>, kinds: map<nat, FieldKind>, entry: KindEntry)
    requires KindsExplained(table, done, types, kinds) && TagOf(entry).None?
    ensures KindsExplained(table, done, types + [entry], kinds)
  {
    forall tag: nat ensures KindExplained(table, done, types + [entry], kinds, tag) {
      LastEntryOneMore(types, entry, tag);
      assert KindExplained(table, done, types, kinds, tag);
    }
  }

  ghost predicate AllExplained(table: Table, done: Memo)
  {
    forall name | name in done :: Explained(table, done, name, done[name])
  }

  lemma AllExplainedOneMore(table: Table, done: Memo, name: string, meta: StructMeta)
    requires AllExplained(table, done) && name !in done && Explained(table, done, name, meta)
    ensures AllExplained(table, done[name := meta])
  {
    var grown := done[name := meta];
    forall n | n in grown ensures Explained(table, grown, n, grown[n]) {
      StillExplained(table, done, grown, n, grown[n]);
    }
  }

  /** The memo holds the plain unfolding of every ranked name it holds. */
  ghost predicate Settled(table: Table, rank: map<string, nat>, done: Memo)
    requires Ranked(table, rank)
  {
    forall name | name in done && name in rank :: Unfolded(table, rank, name) == Some(done[name])
  }

  ghost predicate Distinct(names: seq<string>)
  {
    forall i, j | 0 <= i < j < |names| :: names[i] != names[j]
  }

  ghost function Waiting(table: Table, active: seq<string>): nat
  {
    |table.Keys - set name | name in active|
  }

  lemma OneFewerWaits(table: Table, active: seq<string>, name: string)
    requires name in table && name !in active
    ensures Waiting(table, active + [name]) < Waiting(table, active)
  {
    var before := table.Keys - set n | n in active;
    var after := table.Keys - set n | n in active + [name];
    assert after == before - {name};
  }

  lemma CutShort(table: Table, rank: map<string, nat>, active: seq<string>, name: string)
    requires Ranked(table, rank) && Walk(table, active + [name]) && name in active
    ensures OnCycle(table, name) && name !in rank
  {
    RepeatClosesCycle(table, active, name);
    if name in rank {
      RankedIsOnNoCycle(table, rank, name);
    }
  }

  method WireFields(spec: seq<Field>) returns (fields: seq<Field>)
    ensures fields == WireTable(spec)
  {
    fields := [];
    for i := 0 to |spec|
      invariant fields == WireTable(spec)[..i]
    {
      var wire := ToWireFieldName(spec[i].name);
      OneMore(WireTable(spec), i);
      fields := fields + [Field(wire, spec[i].tag)];
    }
    All(WireTable(spec));
  }

  lemma OneMore<T>(s: seq<T>, i: nat)
    requires i < |s|
    ensures s[..i + 1] == s[..i] + [s[i]]
  {
  }

  lemma All<T>(s: seq<T>)
    ensures s[..|s|] == s
  {
  }

  method WireStruct(name: string, spec: seq<Field>, kinds: map<nat, FieldKind>) returns (meta: StructMeta)
    ensures meta == StructMeta(WireFieldName(name), WireTable(spec), kinds)
  {
    var fields := WireFields(spec);
    var wire := ToWireFieldName(name);
    return StructMeta(wire, fields, kinds);
  }

  class Resolver {
    var done: Memo
    /** Definitions currently being resolved. */
    var active: seq<string>
    /** The names in the order they were inserted. */
    ghost var inserted: seq<string>

    ghost predicate Valid(table: Table)
      reads this
    {
      && Distinct(inserted)
      && (forall name :: name in done <==> name in inserted)
      && (forall name | name in active :: name !in done)
      && AllExplained(table, done)
    }

    constructor ()
      ensures done == map[] && active == [] && inserted == []
    {
      done, active, inserted := map[], [], [];
    }

    /** What resolving leaves behind: nothing on the stack that was not there, and
        every earlier result as it was. */
    twostate predicate OnlyAdds()
      reads this
    {
      && active == old(active)
      && old(inserted) <= inserted
      && Keeps(old(done), done)
    }

    /** `Resolver::resolve`. */
    method Resolve(name: string, table: Table, ghost rank: map<string, nat>) returns (meta: Option<StructMeta>)
      requires Valid(table) && Walk(table, active + [name])
      requires Ranked(table, rank) && Settled(table, rank, done)
      modifies this
      ensures Valid(table) && OnlyAdds()
      ensures meta.Some? ==> name in done && done[name] == meta.value
      ensures meta.None? ==> name !in table || OnCycle(table, name)
      ensures Settled(table, rank, done)
      ensures name in rank ==> meta == Unfolded(table, rank, name)
      decreases Waiting(table, active), 0, 0
    {
      if name in done {
        return Some(done[name]);
      }
      if name in active {
        CutShort(table, rank, active, name);
        return None;
      }
      if name !in table {
        return None;
      }
      OneFewerWaits(table, active, name);
      active := active + [name];
      var kinds := ResolveKinds(name, table, rank);
      var found := Record(name, kinds, table, rank);
      return Some(found);
    }

    /** Takes the name off the stack and its struct into the memo. */
    method Record(name: string, kinds: map<nat, FieldKind>, table: Table, ghost rank: map<string, nat>)
      returns (meta: StructMeta)
      requires Valid(table) && name in table
      requires active != [] && active[|active| - 1] == name && name !in active[..|active| - 1]
      requires KindsExplained(table, done, table[name].types, kinds)
      requires Ranked(table, rank) && Settled(table, rank, done)
      requires UnfoldedSoFar(table, rank, name, |table[name].types|, kinds)
      modifies this
      ensures Valid(table) && active == old(active[..|active| - 1])
      ensures inserted == old(inserted) + [name] && done == old(done)[name := meta] && name !in old(done)
      ensures Settled(table, rank, done)
      ensures name in rank ==> Unfolded(table, rank, name) == Some(meta)
    {
      active := active[..|active| - 1];
      meta := WireStruct(name, table[name].fields, kinds);
      assert table[name].types[..|table[name].types|] == table[name].types;
      AllExplainedOneMore(table, done, name, meta);
      done := done[name := meta];
      inserted := inserted + [name];
    }

    /** The kinds of one definition, entry by entry. */
    method ResolveKinds(owner: string, table: Table, ghost rank: map<string, nat>) returns (kinds: map<nat, FieldKind>)
      requires Valid(table) && Walk(table, active) && active != [] && active[|active| - 1] == owner
      requires owner in table
      requires Ranked(table, rank) && Settled(table, rank, done)
      modifies this
      ensures Valid(table) && OnlyAdds()
      ensures KindsExplained(table, done, table[owner].types, kinds)
      ensures Settled(table, rank, done)
      ensures UnfoldedSoFar(table, rank, owner, |table[owner].types|, kinds)
      decreases Waiting(table, active), 3, 0
    {
      kinds := map[];
      var types := table[owner].types;
      for i := 0 to |types|
        invariant Valid(table) && OnlyAdds()
        invariant KindsExplained(table, done, types[..i], kinds)
        invariant Settled(table, rank, done)
        invariant UnfoldedSoFar(table, rank, owner, i, kinds)
      {
        kinds := ResolveEntry(owner, i, kinds, table, rank);
      }
      assert types[..|types|] == types;
    }

    method ResolveEntry(
      owner: string, i: nat, before: map<nat, FieldKind>, table: Table, ghost rank: map<string, nat>)
      returns (kinds: map<nat, FieldKind>)
      requires Valid(table) && Walk(table, active) && active != [] && active[|active| - 1] == owner
      requires owner in table && i < |table[owner].types|
      requires Ranked(table, rank) && Settled(table, rank, done)
      requires KindsExplained(table, done, table[owner].types[..i], before)
      requires UnfoldedSoFar(table, rank, owner, i, before)
      modifies this
      ensures Valid(table) && OnlyAdds()
      ensures KindsExplained(table, done, table[owner].types[..i + 1], kinds)
      ensures Settled(table, rank, done)
      ensures UnfoldedSoFar(table, rank, owner, i + 1, kinds)
      decreases Waiting(table, active), 2, 0
    {
      var entry := table[owner].types[i];
      assert table[owner].types[..i] + [entry] == table[owner].types[..i + 1];
      UnfoldedOneMore(table, rank, owner, i, before);
      var tag := TagOf(entry);
      if tag.None? {
        KindsSkipOne(table, done, table[owner].types[..i], before, entry);
        return before;
      }
      ParsedEntryIsNamed(table, active, owner, i);
      var kind := ParseKind(entry.kind, table, rank);
      kinds := before[tag.value := kind];
      KindsOneMore(table, old(done), done, table[owner].types[..i], before, entry, kind);
    }

    /** `FieldKind::parse`. */
    method ParseKind(raw: string, table: Table, ghost rank: map<string, nat>) returns (kind: FieldKind)
      requires Valid(table)
      requires Reference(raw).Some? ==> Walk(table, active + [Reference(raw).value])
      requires Ranked(table, rank) && Settled(table, rank, done)
      modifies this
      ensures Valid(table) && OnlyAdds()
      ensures Admits(table, done, raw, kind)
      ensures Settled(table, rank, done)
      ensures Reference(raw).Some? && Reference(raw).value in rank ==>
        kind == Shaped(raw, Unfolded(table, rank, Reference(raw).value))
      ensures Reference(raw).None? ==> kind == Shaped(raw, None)
      decreases Waiting(table, active), 1, |raw|
    {
      if StartsWith(raw, "list:") {
        var item := ParseKind(raw[5..], table, rank);
        return ListKind(item);
      }
      if StartsWith(raw, "struct:") {
        var meta := Resolve(raw[7..], table, rank);
        return if meta.Some? then StructKind(meta.value) else OtherKind;
      }
      return ScalarKind(raw);
    }
  }

  lemma ParsedEntryIsNamed(table: Table, active: seq<string>, owner: string, i: nat)
    requires owner in table && Walk(table, active) && active != [] && active[|active| - 1] == owner
    requires i < |table[owner].types| && TagOf(table[owner].types[i]).Some?
    ensures
      var name := Reference(table[owner].types[i].kind);
      name.Some? ==> Step(table, owner, name.value) && Walk(table, active + [name.value])
  {
    var name := Reference(table[owner].types[i].kind);
    if name.Some? {
      assert table[owner].types[i] in table[owner].types;
      WalkOn(table, active, name.value);
    }
  }

  ghost predicate UnfoldedSoFar(
    table: Table, rank: map<string, nat>, owner: string, n: nat, kinds: map<nat, FieldKind>)
    requires Ranked(table, rank) && owner in table && n <= |table[owner].types|
  {
    owner in rank ==>
      && NamesBelow(rank, table[owner].types[..n], rank[owner])
      && kinds == UnfoldedKinds(table, rank, table[owner].types[..n], rank[owner])
  }

  /** What the next entry adds to a ranked owner's kinds. */
  lemma UnfoldedOneMore(table: Table, rank: map<string, nat>, owner: string, i: nat, kinds: map<nat, FieldKind>)
    requires Ranked(table, rank) && owner in table && i < |table[owner].types|
    requires UnfoldedSoFar(table, rank, owner, i, kinds)
    ensures
      var entry := table[owner].types[i];
      var name := Reference(entry.kind);
      if TagOf(entry).None? then UnfoldedSoFar(table, rank, owner, i + 1, kinds)
      else
        owner in rank ==>
          && (name.Some? ==> name.value in rank)
          && UnfoldedSoFar(table, rank, owner, i + 1, kinds[TagOf(entry).value :=
               Shaped(entry.kind, if name.Some? then Unfolded(table, rank, name.value) else None)])
  {
    if owner in rank {
      var types := table[owner].types;
      PrefixBelow(table, rank, owner, i + 1);
      assert types[..i + 1][..i] == types[..i] && types[i] in types[..i + 1];
    }
  }

  lemma PrefixBelow(table: Table, rank: map<string, nat>, owner: string, n: nat)
    requires Ranked(table, rank) && owner in table && owner in rank && n <= |table[owner].types|
    ensures NamesBelow(rank, table[owner].types[..n], rank[owner])
  {
    var types := table[owner].types;
    forall next | Names(types[..n], next) ensures next in rank && rank[next] < rank[owner] {
      var e :| e in types[..n] && TagOf(e).Some? && Reference(e.kind) == Some(next);
      assert e in types;
      assert Step(table, owner, next);
    }
  }
}

/** Struct tables: kind strings, the structs they name, and cycles among them
    (`server/src/matter/clusters.rs`, `tools/build_registry.py`). */
module StructTables {
  import Decimal
  import opened FieldKinds
  import opened Text
  import opened WireNames
  import opened Wrappers

  const MAX_TAG := 0xFFFF_FFFF

  /** A field's tag, written as text, and its kind string. */
  datatype KindEntry = KindEntry(tag: string, kind: string)

  datatype RawStruct = RawStruct(fields: seq<Field>, types: seq<KindEntry>)

  type Table = map<string, RawStruct>

  /** The struct at the bottom of a kind string, if it has one: lists do not hide
      it. */
  function Reference(kind: string): Option<string>
  {
    if StartsWith(kind, "list:") then Reference(kind[5..])
    else if StartsWith(kind, "struct:") then Some(kind[7..])
    else None
  }

  function ScalarKind(kind: string): FieldKind
  {
    if kind == "bytes" then BytesKind
    else if kind == "string" then StringKind
    else if kind == "int" then IntKind
    else if kind == "float" then FloatKind
    else if kind == "bool" then BoolKind
    else OtherKind
  }

  /** What a kind string stands for once the struct it names is known, or known
      not to be available. */
  function Shaped(kind: string, named: Option<StructMeta>): FieldKind
  {
    if StartsWith(kind, "list:") then ListKind(Shaped(kind[5..], named))
    else if StartsWith(kind, "struct:") then (if named.Some? then StructKind(named.value) else OtherKind)
    else ScalarKind(kind)
  }

  lemma StructKindNamesIt(name: string, named: Option<StructMeta>)
    ensures Reference("struct:" + name) == Some(name)
    ensures Shaped("struct:" + name, named) == if named.Some? then StructKind(named.value) else OtherKind
  {
    var kind := "struct:" + name;
    assert kind[0] == 's' && kind[..5][0] == 's' && "list:"[0] == 'l';
    assert kind[..7] == "struct:" && kind[7..] == name;
  }

  function TagOf(entry: KindEntry): Option<nat>
  {
    Decimal.Parse(entry.tag, MAX_TAG)
  }

  /** The structs that resolving an entry list asks for. */
  predicate Names(types: seq<KindEntry>, name: string)
  {
    exists e | e in types :: TagOf(e).Some? && Reference(e.kind) == Some(name)
  }

  predicate Step(table: Table, name: string, next: string)
  {
    name in table && Names(table[name].types, next)
  }

  /** Each name on the walk is defined and names the one after it. */
  ghost predicate Walk(table: Table, walk: seq<string>)
  {
    forall i | 0 <= i < |walk| - 1 :: Step(table, walk[i], walk[i + 1])
  }

  /** Following references leads from one name to the other. */
  ghost predicate Reaches(table: Table, name: string, other: string)
  {
    exists walk :: |walk| > 1 && walk[0] == name && walk[|walk| - 1] == other && Walk(table, walk)
  }

  /** Following references from the name comes back to it. */
  ghost predicate OnCycle(table: Table, name: string)
  {
    Reaches(table, name, name)
  }

  lemma WalkOn(table: Table, walk: seq<string>, next: string)
    requires Walk(table, walk) && (walk != [] ==> Step(table, walk[|walk| - 1], next))
    ensures Walk(table, walk + [next])
  {
  }

  lemma WalkFrom(table: Table, walk: seq<string>, n: nat)
    requires Walk(table, walk) && n <= |walk|
    ensures Walk(table, walk[n..])
  {
    var rest := walk[n..];
    forall i | 0 <= i < |rest| - 1 ensures Step(table, rest[i], rest[i + 1]) {
      assert rest[i] == walk[n + i] && rest[i + 1] == walk[n + i + 1];
    }
  }

  lemma RepeatClosesCycle(table: Table, active: seq<string>, name: string)
    requires Walk(table, active + [name]) && name in active
    ensures OnCycle(table, name)
  {
    var i :| 0 <= i < |active| && active[i] == name;
    WalkFrom(table, active + [name], i);
  }

  // ----- names that lead to no cycle -----

  /** The ranked names: each only names structs of a lower rank. */
  ghost predicate Ranked(table: Table, rank: map<string, nat>)
  {
    forall name, next | name in rank && Step(table, name, next) :: next in rank && rank[next] < rank[name]
  }

  lemma {:induction false} RankFalls(table: Table, rank: map<string, nat>, walk: seq<string>, i: nat)
    requires Ranked(table, rank) && Walk(table, walk) && i < |walk| && walk[0] in rank
    ensures walk[i] in rank && rank[walk[i]] <= rank[walk[0]] - i
  {
    if i > 0 {
      RankFalls(table, rank, walk, i - 1);
      assert Step(table, walk[i - 1], walk[i - 1 + 1]);
    }
  }

  lemma RankedIsOnNoCycle(table: Table, rank: map<string, nat>, name: string)
    requires Ranked(table, rank) && name in rank
    ensures !OnCycle(table, name)
  {
    forall walk | |walk| > 1 && walk[0] == name && Walk(table, walk)
      ensures walk[|walk| - 1] != name
    {
      RankFalls(table, rank, walk, |walk| - 1);
    }
  }

  lemma StepReaches(table: Table, name: string, next: string)
    requires Step(table, name, next)
    ensures Reaches(table, name, next)
  {
    assert Walk(table, [name, next]);
    assert [name, next][0] == name;
  }

  lemma ReachesThrough(table: Table, name: string, next: string, other: string)
    requires Step(table, name, next) && Reaches(table, next, other)
    ensures Reaches(table, name, other)
  {
    var walk :| |walk| > 1 && walk[0] == next && walk[|walk| - 1] == other && Walk(table, walk);
    var longer := [name] + walk;
    forall i | 0 <= i < |longer| - 1 ensures Step(table, longer[i], longer[i + 1]) {
      if i > 0 {
        assert longer[i] == walk[i - 1] && longer[i + 1] == walk[i - 1 + 1];
      }
    }
    assert longer[0] == name && longer[|longer| - 1] == other && Walk(table, longer);
  }

  /** The definitions that a name leads to. */
  ghost function Ahead(table: Table, name: string): set<string>
  {
    set other | other in table && Reaches(table, name, other)
  }

  lemma LessIsAhead(table: Table, name: string, next: string)
    requires Step(table, name, next) && next in table && !OnCycle(table, next)
    ensures |Ahead(table, next)| < |Ahead(table, name)|
  {
    StepReaches(table, name, next);
    forall other | other in Ahead(table, next) ensures other in Ahead(table, name) {
      ReachesThrough(table, name, next, other);
    }
    SmallerSet(Ahead(table, next), Ahead(table, name), next);
  }

  lemma SmallerSet<T>(a: set<T>, b: set<T>, x: T)
    requires a <= b && x in b && x !in a
    ensures |a| < |b|
  {
    assert b == a + (b - a) && x in b - a;
  }

  /** The names a table speaks of. */
  ghost function AllNames(table: Table): set<string>
  {
    table.Keys + set name, e | name in table && e in table[name].types && Reference(e.kind).Some?
      :: Reference(e.kind).value
  }

  /** What a name leads to, itself included. */
  ghost predicate LeadsTo(table: Table, name: string, other: string)
  {
    name == other || Reaches(table, name, other)
  }

  /** Nothing that the name leads to contains itself. */
  ghost predicate NoCycleAhead(table: Table, name: string)
  {
    forall loop | loop in table && LeadsTo(table, name, loop) :: !OnCycle(table, loop)
  }

  lemma NoCycleAheadOfNext(table: Table, name: string, next: string)
    requires NoCycleAhead(table, name) && Step(table, name, next)
    ensures NoCycleAhead(table, next)
  {
    forall loop | loop in table && LeadsTo(table, next, loop) ensures !OnCycle(table, loop) {
      if next == loop {
        StepReaches(table, name, next);
      } else {
        ReachesThrough(table, name, next, loop);
      }
      assert LeadsTo(table, name, loop);
    }
  }

  /** A ranking of some names and of all names that lead to no cycle. */
  ghost function Ranking(table: Table, some: set<string>): map<string, nat>
  {
    map name | name in some + AllNames(table) && NoCycleAhead(table, name)
      :: if name in table then |Ahead(table, name)| + 1 else 0
  }

  lemma RankingIsOne(table: Table, some: set<string>)
    ensures Ranked(table, Ranking(table, some))
  {
    var rank := Ranking(table, some);
    forall name, next | name in rank && Step(table, name, next) ensures next in rank && rank[next] < rank[name] {
      NoCycleAheadOfNext(table, name, next);
      if next in table {
        assert LeadsTo(table, next, next);
        LessIsAhead(table, name, next);
      }
    }
  }

  lemma RankedLeadsNowhere(table: Table, rank: map<string, nat>, name: string)
    requires Ranked(table, rank) && name in rank
    ensures NoCycleAhead(table, name)
  {
    forall loop | loop in table && LeadsTo(table, name, loop) ensures !OnCycle(table, loop) {
      if name != loop {
        var walk :| |walk| > 1 && walk[0] == name && walk[|walk| - 1] == loop && Walk(table, walk);
        RankFalls(table, rank, walk, |walk| - 1);
      }
      RankedIsOnNoCycle(table, rank, loop);
    }
  }

  /** A name can be ranked exactly when it leads to no struct that contains itself,
      whatever else the table holds. */
  lemma RankedWithoutCyclesAhead(table: Table, name: string)
    ensures (exists rank :: Ranked(table, rank) && name in rank) <==> NoCycleAhead(table, name)
  {
    if rank :| Ranked(table, rank) && name in rank {
      RankedLeadsNowhere(table, rank, name);
    }
    if NoCycleAhead(table, name) {
      RankingIsOne(table, {name});
      assert name in Ranking(table, {name});
    }
  }

  /** A table can be ranked exactly when no struct contains itself. */
  lemma RankedWithoutCycles(table: Table)
    ensures (exists rank :: Ranked(table, rank) && table.Keys <= rank.Keys)
      <==> forall name | name in table :: !OnCycle(table, name)
  {
    if forall name | name in table :: !OnCycle(table, name) {
      RankingIsOne(table, {});
      assert table.Keys <= Ranking(table, {}).Keys;
    }
    if rank :| Ranked(table, rank) && table.Keys <= rank.Keys {
      forall name | name in table ensures !OnCycle(table, name) {
        RankedIsOnNoCycle(table, rank, name);
      }
    }
  }

  // ----- the plain unfolding -----

  /** What a ranked name stands for: its definition, unfolded without limit. */
  ghost function Unfolded(table: Table, rank: map<string, nat>, name: string): Option<StructMeta>
    requires Ranked(table, rank) && name in rank
    decreases rank[name], 1, 0
  {
    if name !in table then None
    else
      assert forall next | Names(table[name].types, next) :: Step(table, name, next);
      Some(StructMeta(WireFieldName(name), WireTable(table[name].fields),
                      UnfoldedKinds(table, rank, table[name].types, rank[name])))
  }

  ghost predicate NamesBelow(rank: map<string, nat>, types: seq<KindEntry>, bound: nat)
  {
    forall next | Names(types, next) :: next in rank && rank[next] < bound
  }

  lemma NamesOneMore(types: seq<KindEntry>, i: nat, next: string)
    requires i < |types|
    ensures Names(types[..i], next) ==> Names(types, next)
    ensures TagOf(types[i]).Some? && Reference(types[i].kind) == Some(next) ==> Names(types, next)
  {
    if Names(types[..i], next) {
      var e :| e in types[..i] && TagOf(e).Some? && Reference(e.kind) == Some(next);
      assert e in types;
    }
  }

  /** The kinds by tag; of entries with the same tag the last one stands. */
  ghost function UnfoldedKinds(table: Table, rank: map<string, nat>, types: seq<KindEntry>, bound: nat)
    : map<nat, FieldKind>
    requires Ranked(table, rank) && NamesBelow(rank, types, bound)
    decreases bound, 0, |types|
  {
    if types == [] then map[]
    else
      var init, last := types[..|types| - 1], types[|types| - 1];
      assert NamesBelow(rank, init, bound) by {
        forall next | Names(init, next) ensures Names(types, next) {
          NamesOneMore(types, |types| - 1, next);
        }
      }
      assert last in types;
      var kinds := UnfoldedKinds(table, rank, init, bound);
      if TagOf(last).None? then kinds
      else kinds[TagOf(last).value := UnfoldedKind(table, rank, last.kind, bound)]
  }

  ghost function UnfoldedKind(table: Table, rank: map<string, nat>, kind: string, bound: nat): FieldKind
    requires Ranked(table, rank)
    requires Reference(kind).Some? ==> Reference(kind).value in rank && rank[Reference(kind).value] < bound
    decreases bound, 0, 0
  {
    Shaped(kind, if Reference(kind).Some? then Unfolded(table, rank, Reference(kind).value) else None)
  }

  /** The kinds by their names. */
  lemma KindsByName(named: Option<StructMeta>, kind: string)
    ensures Shaped("bytes", named) == BytesKind && Shaped("string", named) == StringKind
    ensures Shaped("int", named) == IntKind && Shaped("float", named) == FloatKind
    ensures Shaped("bool", named) == BoolKind && Shaped("other", named) == OtherKind
    ensures Shaped("list:" + kind, named) == ListKind(Shaped(kind, named))
  {
    assert ("list:" + kind)[..5] == "list:" && ("list:" + kind)[5..] == kind;
    ScalarsHaveNoPrefix("bytes");
    ScalarsHaveNoPrefix("string");
    ScalarsHaveNoPrefix("int");
    ScalarsHaveNoPrefix("float");
    ScalarsHaveNoPrefix("bool");
    ScalarsHaveNoPrefix("other");
  }

  lemma ScalarsHaveNoPrefix(kind: string)
    requires |kind| <= 6 && kind[0..] != "" && kind[0] != 'l'
    ensures !StartsWith(kind, "list:") && !StartsWith(kind, "struct:")
  {
    assert "list:"[0] == 'l';
    assert |kind| >= 5 ==> kind[..5][0] == kind[0];
  }

  /** A field's tag is any 32-bit number, in decimal. */
  lemma TagsByNumber(n: nat, kind: string)
    ensures TagOf(KindEntry(Decimal.ToText(n), kind)) == if n < 0x1_0000_0000 then Some(n) else None
  {
    Decimal.ParseOfText(n, MAX_TAG);
  }
}

/** Where resolving a struct falls back to the bare JSON shape: exactly where the
    struct leads to one that contains itself (`server/src/matter/clusters.rs`). */
module Cycles {
  import Decimal
  import opened FieldKinds
  import opened Resolution
  import opened StructTables
  import opened Text
  import opened Wrappers

  // ----- entries that stand -----

  /** The entries that are the last of their tags among all. */
  function Standing(types: seq<KindEntry>, all: seq<KindEntry>): (kept: seq<KindEntry>)
    ensures forall e :: e in kept <==> e in types && TagOf(e).Some? && LastEntry(all, TagOf(e).value) == Some(e)
  {
    if types == [] then []
    else
      var init, last := types[..|types| - 1], types[|types| - 1];
      assert types == init + [last];
      Standing(init, all)
      + if TagOf(last).Some? && LastEntry(all, TagOf(last).value) == Some(last) then [last] else []
  }

  /** The table without the entries that a later one of the same tag replaces. They
      are resolved all the same, and then thrown away. */
  function Kept(table: Table): Table
  {
    map name | name in table :: RawStruct(table[name].fields, Standing(table[name].types, table[name].types))
  }

  lemma KeptStep(table: Table, name: string, next: string)
    ensures Step(Kept(table), name, next)
      <==> name in table && exists tag: nat :: KeptAt(table, name, next, tag)
  {
    if Step(Kept(table), name, next) {
      var e :| e in Kept(table)[name].types && TagOf(e).Some? && Reference(e.kind) == Some(next);
      assert KeptAt(table, name, next, TagOf(e).value);
    }
    if tag: nat :| name in table && KeptAt(table, name, next, tag) {
      var e := LastEntry(table[name].types, tag).value;
      assert e in Kept(table)[name].types;
    }
  }

  predicate KeptAt(table: Table, name: string, next: string, tag: nat)
    requires name in table
  {
    var entry := LastEntry(table[name].types, tag);
    entry.Some? && Reference(entry.value.kind) == Some(next)
  }

  // ----- falling back -----

  /** Every struct in the memo has its kinds as resolving found them. */
  ghost predicate KindsResolved(table: Table, done: Memo)
  {
    forall name | name in done :: name in table && KindsExplained(table, done, table[name].types, done[name].kinds)
  }

  /** A resolver's memo is always like that. */
  lemma ResolverResolvesKinds(table: Table, done: Memo)
    requires AllExplained(table, done)
    ensures KindsResolved(table, done)
  {
    forall name | name in done
      ensures name in table && KindsExplained(table, done, table[name].types, done[name].kinds)
    {
      assert Explained(table, done, name, done[name]);
    }
  }

  /** Some field of the resolved struct has lost the struct that it names, although
      that is defined. */
  ghost predicate FellBack(table: Table, done: Memo, name: string)
    requires name in done && name in table
  {
    exists tag: nat :: FellBackAt(table, done, name, tag)
  }

  ghost predicate FellBackAt(table: Table, done: Memo, name: string, tag: nat)
    requires name in done && name in table
  {
    var entry := LastEntry(table[name].types, tag);
    && entry.Some? && Reference(entry.value.kind).Some? && Reference(entry.value.kind).value in table
    && tag in done[name].kinds && done[name].kinds[tag] == Shaped(entry.value.kind, None)
  }

  lemma {:induction false} ShapeShows(kind: string, meta: StructMeta)
    requires Reference(kind).Some?
    ensures Shaped(kind, Some(meta)) != Shaped(kind, None)
    ensures meta < Shaped(kind, Some(meta))
    decreases |kind|
  {
    if StartsWith(kind, "list:") {
      ShapeShows(kind[5..], meta);
    }
  }

  /** A standing step to a defined struct leads on inside the memo, to something
      smaller, unless it fell back. */
  lemma StepGoesDown(table: Table, done: Memo, name: string, next: string)
    requires KindsResolved(table, done) && name in done && name in table && next in table
    requires Step(Kept(table), name, next) && !FellBack(table, done, name)
    ensures next in done && done[next] < done[name]
  {
    KeptStep(table, name, next);
    var tag: nat :| KeptAt(table, name, next, tag);
    var e := LastEntry(table[name].types, tag).value;
    assert KindsExplained(table, done, table[name].types, done[name].kinds);
    assert KindExplained(table, done, table[name].types, done[name].kinds, tag);
    assert !FellBackAt(table, done, name, tag);
    ShapeShows(e.kind, done[next]);
    assert done[name].kinds[tag] < done[name];
  }

  /** Defined, and nothing of it lost. */
  ghost predicate Whole(table: Table, done: Memo, name: string)
  {
    name in table && (name in done ==> !FellBack(table, done, name))
  }

  ghost predicate AllWhole(table: Table, done: Memo, walk: seq<string>)
  {
    forall i | 0 <= i < |walk| :: Whole(table, done, walk[i])
  }

  lemma WalkStep(table: Table, done: Memo, walk: seq<string>, i: nat)
    requires KindsResolved(table, done) && Walk(Kept(table), walk) && AllWhole(table, done, walk)
    requires i + 1 < |walk| && walk[i] in done
    ensures walk[i + 1] in done && done[walk[i + 1]] < done[walk[i]]
  {
    var name, next := walk[i], walk[i + 1];
    assert Step(Kept(table), name, next) && Whole(table, done, name) && Whole(table, done, next);
    StepGoesDown(table, done, name, next);
  }

  lemma WalkStepInside(table: Table, done: Memo, walk: seq<string>, i: nat)
    requires KindsResolved(table, done) && Walk(Kept(table), walk) && AllWhole(table, done, walk)
    requires i + 1 < |walk| && walk[i] in done
    ensures walk[i + 1] in done
  {
    WalkStep(table, done, walk, i);
  }

  lemma {:induction false} StaysInside(done: Memo, walk: seq<string>, j: nat)
    requires j < |walk| && walk[0] in done
    requires forall i | 0 <= i < |walk| - 1 && walk[i] in done :: walk[i + 1] in done
    ensures walk[j] in done
  {
    if j > 0 {
      StaysInside(done, walk, j - 1);
      assert walk[j - 1 + 1] in done;
    }
  }

  /** Nothing gets smaller and smaller and is itself again. */
  lemma {:induction false} Descent(metas: seq<StructMeta>, i: nat, j: nat)
    requires i < j < |metas| && forall k | 0 <= k < |metas| - 1 :: metas[k + 1] < metas[k]
    ensures metas[j] < metas[i]
  {
    if i + 1 < j {
      Descent(metas, i, j - 1);
      assert metas[j - 1 + 1] < metas[j - 1];
    }
  }

  /** So a walk on which nothing fell back never comes back to a struct. */
  lemma WalkNeverReturns(table: Table, done: Memo, walk: seq<string>, i: nat, j: nat)
    requires KindsResolved(table, done) && Walk(Kept(table), walk) && AllWhole(table, done, walk)
    requires i < j < |walk| && walk[0] in done
    ensures walk[i] != walk[j]
  {
    forall k | 0 <= k < |walk| - 1 && walk[k] in done ensures walk[k + 1] in done {
      WalkStepInside(table, done, walk, k);
    }
    forall k | 0 <= k < |walk| ensures walk[k] in done {
      StaysInside(done, walk, k);
    }
    var metas := seq(|walk|, k requires 0 <= k < |walk| => done[walk[k]]);
    forall k | 0 <= k < |metas| - 1 ensures metas[k + 1] < metas[k] {
      WalkStep(table, done, walk, k);
    }
    Descent(metas, i, j);
    SmallerDiffers(metas[j], metas[i]);
  }

  lemma SmallerDiffers(a: StructMeta, b: StructMeta)
    requires a < b
    ensures a != b
  {
  }

  lemma WalkLeads(table: Table, walk: seq<string>, i: nat)
    requires Walk(table, walk) && i < |walk|
    ensures LeadsTo(table, walk[0], walk[i])
  {
    if i > 0 {
      var start := walk[..i + 1];
      forall k | 0 <= k < |start| - 1 ensures Step(table, start[k], start[k + 1]) {
        assert Step(table, walk[k], walk[k + 1]);
      }
      assert start[0] == walk[0] && start[|start| - 1] == walk[i] && Walk(table, start);
    }
  }

  lemma Joined(table: Table, a: seq<string>, b: seq<string>)
    requires Walk(table, a) && Walk(table, b) && a != [] && b != [] && a[|a| - 1] == b[0]
    ensures Walk(table, a + b[1..])
  {
    var all := a + b[1..];
    forall k | 0 <= k < |all| - 1 ensures Step(table, all[k], all[k + 1]) {
      if k < |a| - 1 {
        assert Step(table, a[k], a[k + 1]);
      } else {
        var m := k - (|a| - 1);
        assert all[k] == b[m] && all[k + 1] == b[m + 1];
        assert Step(table, b[m], b[m + 1]);
      }
    }
  }

  lemma WalkIsDefined(table: Table, walk: seq<string>)
    requires Walk(table, walk) && walk != [] && walk[|walk| - 1] in table
    ensures forall n | n in walk :: n in table
  {
    forall i | 0 <= i < |walk| ensures walk[i] in table {
      assert i < |walk| - 1 ==> Step(table, walk[i], walk[i + 1]);
    }
  }

  /** A walk to a struct, and once around its cycle. */
  lemma WalkAround(table: Table, name: string, loop: string) returns (walk: seq<string>, k: nat)
    requires LeadsTo(table, name, loop) && OnCycle(table, loop)
    ensures Walk(table, walk) && k < |walk| - 1 && walk[0] == name && walk[k] == walk[|walk| - 1] == loop
  {
    var around :| |around| > 1 && around[0] == loop && around[|around| - 1] == loop && Walk(table, around);
    if name == loop {
      walk, k := around, 0;
    } else {
      var there :| |there| > 1 && there[0] == name && there[|there| - 1] == loop && Walk(table, there);
      Joined(table, there, around);
      walk, k := there + around[1..], |there| - 1;
    }
  }

  // ----- the theorems -----

  ghost predicate LeadsToFallback(table: Table, done: Memo, name: string)
  {
    exists m :: m in done && m in table && LeadsTo(Kept(table), name, m) && FellBack(table, done, m)
  }

  ghost predicate LeadsToCycle(table: Table, name: string)
  {
    exists loop :: loop in table && LeadsTo(Kept(table), name, loop) && OnCycle(table, loop)
  }

  ghost predicate LeadsToKeptCycle(table: Table, name: string)
  {
    exists loop :: loop in table && LeadsTo(Kept(table), name, loop) && OnCycle(Kept(table), loop)
  }

  /** Where a resolved struct leads to a cycle of entries that stand, some struct on
      the way has lost one that it names; and where one has, there is a cycle, if
      perhaps only by way of entries that were replaced. */
  lemma FallsBackBetweenCycles(table: Table, done: Memo, name: string)
    requires KindsResolved(table, done) && name in done
    ensures LeadsToKeptCycle(table, name) ==> LeadsToFallback(table, done, name)
    ensures LeadsToFallback(table, done, name) ==> LeadsToCycle(table, name)
  {
    assert KindsExplained(table, done, table[name].types, done[name].kinds);
    if m :| m in done && m in table && LeadsTo(Kept(table), name, m) && FellBack(table, done, m) {
      FallBackIsOnCycle(table, done, name, m);
    }
    if loop :| loop in table && LeadsTo(Kept(table), name, loop) && OnCycle(Kept(table), loop) {
      CycleFallsBack(table, done, name, loop);
    }
  }

  /** No replaced entry names a struct that the standing ones do not. */
  ghost predicate StepsStand(table: Table)
  {
    forall name, next | Step(table, name, next) :: Step(Kept(table), name, next)
  }

  lemma StandingCycle(table: Table, loop: string)
    requires StepsStand(table) && OnCycle(table, loop)
    ensures OnCycle(Kept(table), loop)
  {
    var walk :| |walk| > 1 && walk[0] == loop && walk[|walk| - 1] == loop && Walk(table, walk);
    assert Walk(Kept(table), walk);
  }

  /** Then a resolved struct leads to one that has lost a struct it names exactly if
      it leads to one that contains itself. */
  lemma FallsBackExactlyOnCycles(table: Table, done: Memo, name: string)
    requires KindsResolved(table, done) && name in done && StepsStand(table)
    ensures LeadsToFallback(table, done, name) <==> LeadsToCycle(table, name)
  {
    FallsBackBetweenCycles(table, done, name);
    if loop :| loop in table && LeadsTo(Kept(table), name, loop) && OnCycle(table, loop) {
      StandingCycle(table, loop);
    }
  }

  /** What a struct has lost is on a cycle. */
  lemma LostIsOnCycle(table: Table, done: Memo, m: string) returns (loop: string)
    requires KindsResolved(table, done) && m in done && m in table && FellBack(table, done, m)
    ensures loop in table && Step(Kept(table), m, loop) && OnCycle(table, loop)
  {
    var tag: nat :| FellBackAt(table, done, m, tag);
    var e := LastEntry(table[m].types, tag).value;
    loop := Reference(e.kind).value;
    assert KindExplained(table, done, table[m].types, done[m].kinds, tag);
    if loop in done {
      ShapeShows(e.kind, done[loop]);
    }
    assert KeptAt(table, m, loop, tag);
    KeptStep(table, m, loop);
  }

  lemma FallBackIsOnCycle(table: Table, done: Memo, name: string, m: string)
    requires KindsResolved(table, done) && m in done && m in table && LeadsTo(Kept(table), name, m)
    requires FellBack(table, done, m)
    ensures LeadsToCycle(table, name)
  {
    var loop := LostIsOnCycle(table, done, m);
    ReachesOneMore(Kept(table), name, m, loop);
  }

  lemma ReachesOneMore(table: Table, name: string, m: string, next: string)
    requires LeadsTo(table, name, m) && Step(table, m, next)
    ensures LeadsTo(table, name, next)
  {
    StepReaches(table, m, next);
    if name != m {
      var walk :| |walk| > 1 && walk[0] == name && walk[|walk| - 1] == m && Walk(table, walk);
      WalkOn(table, walk, next);
      assert (walk + [next])[0] == name && (walk + [next])[|walk|] == next;
    }
  }

  lemma CycleFallsBack(table: Table, done: Memo, name: string, loop: string)
    requires KindsResolved(table, done) && name in done && name in table
    requires loop in table && LeadsTo(Kept(table), name, loop) && OnCycle(Kept(table), loop)
    ensures LeadsToFallback(table, done, name)
  {
    var walk, k := WalkAround(Kept(table), name, loop);
    if AllWhole(table, done, walk) {
      WalkNeverReturns(table, done, walk, k, |walk| - 1);
      assert false;
    } else {
      var i :| 0 <= i < |walk| && !Whole(table, done, walk[i]);
      WalkIsDefined(Kept(table), walk);
      assert walk[i] in walk;
      WalkLeads(Kept(table), walk, i);
    }
  }

  // ----- replaced entries matter -----

  const FIRST_OF_A := KindEntry("01", "struct:B")
  const LAST_OF_A := KindEntry("1", "int")
  const ONE_OF_B := KindEntry("0", "struct:A")

  /** Two structs, of which one names the other only by an entry that a later one
      of the same tag replaces. */
  const TWICE: Table := map[
    "A" := RawStruct([], [FIRST_OF_A, LAST_OF_A]), "B" := RawStruct([], [ONE_OF_B])]

  const META_OF_A := StructMeta("a", [], map[1 := IntKind])

  lemma EntriesOfTwice()
    ensures TagOf(FIRST_OF_A) == Some(1) && Reference(FIRST_OF_A.kind) == Some("B")
    ensures TagOf(LAST_OF_A) == Some(1) && Reference(LAST_OF_A.kind) == None
    ensures TagOf(ONE_OF_B) == Some(0) && Reference(ONE_OF_B.kind) == Some("A")
  {
    assert Decimal.Value("01"[..1]) == Some(0) && Decimal.Value("0") == Some(0) && Decimal.Value("1") == Some(1);
    assert Decimal.Value("01") == Some(1);
    assert "struct:B" == "struct:" + "B" && "struct:A" == "struct:" + "A";
    StructKindNamesIt("A", None);
    StructKindNamesIt("B", None);
  }

  lemma LastOfTwice(tag: nat)
    ensures LastEntry(TWICE["A"].types, tag) == if tag == 1 then Some(LAST_OF_A) else None
    ensures LastEntry(TWICE["B"].types, tag) == if tag == 0 then Some(ONE_OF_B) else None
  {
    EntriesOfTwice();
    LastEntryOneMore([FIRST_OF_A], LAST_OF_A, tag);
    LastEntryOneMore([], FIRST_OF_A, tag);
    LastEntryOneMore([], ONE_OF_B, tag);
    assert [FIRST_OF_A] + [LAST_OF_A] == TWICE["A"].types;
    assert [] + [FIRST_OF_A] == [FIRST_OF_A] && [] + [ONE_OF_B] == [ONE_OF_B];
  }

  lemma TwiceIsCyclic()
    ensures OnCycle(TWICE, "A") && OnCycle(TWICE, "B")
  {
    EntriesOfTwice();
    assert FIRST_OF_A in TWICE["A"].types && ONE_OF_B in TWICE["B"].types;
    assert Step(TWICE, "A", "B") && Step(TWICE, "B", "A");
    StepReaches(TWICE, "A", "B");
    StepReaches(TWICE, "B", "A");
    ReachesThrough(TWICE, "A", "B", "A");
    ReachesThrough(TWICE, "B", "A", "B");
  }

  function TwiceMemo(fieldOfB: FieldKind): Memo
  {
    map["A" := META_OF_A, "B" := StructMeta("b", [], map[0 := fieldOfB])]
  }

  lemma ShapesOfTwice()
    ensures Shaped(LAST_OF_A.kind, None) == IntKind
    ensures Shaped(ONE_OF_B.kind, None) == OtherKind
    ensures Shaped(ONE_OF_B.kind, Some(META_OF_A)) == StructKind(META_OF_A)
  {
    assert "struct:A" == "struct:" + "A";
    StructKindNamesIt("A", None);
    StructKindNamesIt("A", Some(META_OF_A));
  }

  lemma TwiceIsResolved(fieldOfB: FieldKind)
    requires fieldOfB == OtherKind || fieldOfB == StructKind(META_OF_A)
    ensures KindsResolved(TWICE, TwiceMemo(fieldOfB))
  {
    var done := TwiceMemo(fieldOfB);
    TwiceIsCyclic();
    EntriesOfTwice();
    ShapesOfTwice();
    forall tag: nat ensures KindExplained(TWICE, done, TWICE["A"].types, done["A"].kinds, tag) {
      LastOfTwice(tag);
    }
    forall tag: nat ensures KindExplained(TWICE, done, TWICE["B"].types, done["B"].kinds, tag) {
      LastOfTwice(tag);
    }
  }

  /** What such a table comes to is a matter of order: both are results that the
      resolver may have, the first when it is asked for A, the second when it is
      asked for B. */
  lemma OrderDecides()
    ensures KindsResolved(TWICE, TwiceMemo(OtherKind)) && FellBack(TWICE, TwiceMemo(OtherKind), "B")
    ensures
      var whole := TwiceMemo(StructKind(META_OF_A));
      KindsResolved(TWICE, whole) && !FellBack(TWICE, whole, "A") && !FellBack(TWICE, whole, "B")
  {
    TwiceIsResolved(OtherKind);
    TwiceIsResolved(StructKind(META_OF_A));
    LostInTwice();
    NotLostInTwice();
  }

  lemma LostInTwice()
    ensures FellBack(TWICE, TwiceMemo(OtherKind), "B")
  {
    LastOfTwice(0);
    EntriesOfTwice();
    ShapesOfTwice();
    assert FellBackAt(TWICE, TwiceMemo(OtherKind), "B", 0);
  }

  lemma NotLostInTwice()
    ensures
      var whole := TwiceMemo(StructKind(META_OF_A));
      !FellBack(TWICE, whole, "A") && !FellBack(TWICE, whole, "B")
  {
    var whole := TwiceMemo(StructKind(META_OF_A));
    EntriesOfTwice();
    ShapesOfTwice();
    forall tag: nat ensures !FellBackAt(TWICE, whole, "A", tag) && !FellBackAt(TWICE, whole, "B", tag) {
      LastOfTwice(tag);
    }
  }
}

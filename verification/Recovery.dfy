/** Why a snapshot plus a log recovers the state exactly, whatever part of the
    log the snapshot already holds. */
module Recovery {
  import opened Json
  import opened Namespaces
  import opened Replay
  import opened Store
  import opened Wrappers

  // ----- the two laws of a commit's operations -----

  function At(contexts: Contexts, path: string): Option<Values>
  {
    if path in contexts then Some(contexts[path]) else None
  }

  /** What one operation does to the one context at `path`. */
  function Effect(op: Op, path: string, held: Option<Values>): Option<Values>
  {
    match op
    case Update(key, values) =>
      if path == key then Some((if held.Some? then held.value else map[]) + Fields(values)) else held
    case RemoveNames(key, names) =>
      if path == key && held.Some? then Some(held.value - Names(names)) else held
    case RemoveTree(key) =>
      if key == "" || Beneath(path, key) then None else held
    case Ignored => held
  }

  lemma ApplyAt(contexts: Contexts, op: Op, path: string)
    ensures At(Apply(contexts, op), path) == Effect(op, path, At(contexts, path))
  {
  }

  lemma SameEverywhere(a: Contexts, b: Contexts)
    requires forall path :: At(a, path) == At(b, path)
    ensures a == b
  {
    forall path ensures path in a <==> path in b {
      assert At(a, path) == At(b, path);
    }
    forall path | path in a ensures a[path] == b[path] {
      assert At(a, path) == At(b, path);
    }
  }

  lemma ValuesLaws(v: Values, a: Values, b: Values, m: set<string>, n: set<string>)
    ensures (v + a) + a == v + a && (v - m) - m == v - m
    ensures ((v + a) + b) + a == (v + b) + a
    ensures ((v + a) - m) + a == (v - m) + a
    ensures ((v - m) + a) - m == (v + a) - m
    ensures ((v - m) - n) - m == (v - n) - m
  {
  }

  lemma EffectTwice(held: Option<Values>, f: Op, path: string)
    ensures Effect(f, path, Effect(f, path, held)) == Effect(f, path, held)
  {
    var v := if held.Some? then held.value else map[];
    match f
    case Update(_, values) => ValuesLaws(v, Fields(values), map[], {}, {});
    case RemoveNames(_, names) => ValuesLaws(v, map[], map[], Names(names), {});
    case _ =>
  }

  lemma EffectAcross(held: Option<Values>, f: Op, g: Op, path: string)
    ensures Effect(f, path, Effect(g, path, Effect(f, path, held))) == Effect(f, path, Effect(g, path, held))
  {
    EffectTwice(held, f, path);
    var v: Values := if held.Some? then held.value else map[];
    match (f, g)
    case (Update(_, a), Update(_, b)) => ValuesLaws(v, Fields(a), Fields(b), {}, {});
    case (Update(_, a), RemoveNames(_, n)) =>
      ValuesLaws(v, Fields(a), map[], Names(n), {});
      assert held.None? ==> v - Names(n) == v;
    case (RemoveNames(_, m), Update(_, b)) => ValuesLaws(v, Fields(b), map[], Names(m), {});
    case (RemoveNames(_, m), RemoveNames(_, n)) => ValuesLaws(v, map[], map[], Names(m), Names(n));
    case _ =>
  }

  lemma ApplyTwice(state: Contexts, f: Op)
    ensures Apply(Apply(state, f), f) == Apply(state, f)
  {
    forall path ensures At(Apply(Apply(state, f), f), path) == At(Apply(state, f), path) {
      ApplyAt(state, f, path);
      ApplyAt(Apply(state, f), f, path);
      EffectTwice(At(state, path), f, path);
    }
    SameEverywhere(Apply(Apply(state, f), f), Apply(state, f));
  }

  lemma ApplyAcross(state: Contexts, f: Op, g: Op)
    ensures Apply(Apply(Apply(state, f), g), f) == Apply(Apply(state, g), f)
  {
    var left, right := Apply(Apply(Apply(state, f), g), f), Apply(Apply(state, g), f);
    forall path ensures At(left, path) == At(right, path) {
      ApplyAt(state, f, path);
      ApplyAt(Apply(state, f), g, path);
      ApplyAt(Apply(Apply(state, f), g), f, path);
      ApplyAt(state, g, path);
      ApplyAt(Apply(state, g), f, path);
      EffectAcross(At(state, path), f, g, path);
    }
    SameEverywhere(left, right);
  }

  lemma CommitsAbsorb()
    ensures Absorbing(Apply)
  {
    forall state, f ensures Apply(Apply(state, f), f) == Apply(state, f) {
      ApplyTwice(state, f);
    }
    forall state, f, g ensures Apply(Apply(Apply(state, f), g), f) == Apply(Apply(state, g), f) {
      ApplyAcross(state, f, g);
    }
  }

  // ----- positions -----

  predicate IdsAscend(segments: seq<Segment>)
  {
    forall i, j | 0 <= i < j < |segments| :: segments[i].id < segments[j].id
  }

  /** How many entries at the front of a log the skip test drops. */
  function Covered(log: seq<Entry>, at: CommitId): (n: nat)
    ensures n <= |log|
    ensures forall i | 0 <= i < n :: AtOrBefore(log[i].at, at)
    ensures n < |log| ==> !AtOrBefore(log[n].at, at)
  {
    if log == [] || !AtOrBefore(log[0].at, at) then 0 else 1 + Covered(log[1..], at)
  }

  predicate Ordered(log: seq<Entry>)
  {
    forall i, j | 0 <= i < j < |log| :: AtOrBefore(log[i].at, log[j].at)
  }

  lemma {:induction false} LogIsOrdered(segments: seq<Segment>)
    requires IdsAscend(segments)
    ensures Ordered(Log(segments))
    ensures forall e | e in Log(segments) :: exists s | s in segments :: e.at.0 == s.id
  {
    if segments != [] {
      LogIsOrdered(segments[1..]);
      forall e | e in Log(segments) ensures exists s | s in segments :: e.at.0 == s.id {
        if e in Entries(segments[0]) {
          assert segments[0] in segments;
        } else {
          var s :| s in segments[1..] && e.at.0 == s.id;
          assert s in segments;
        }
      }
      var head, log := Entries(segments[0]), Log(segments);
      forall i, j | 0 <= i < j < |log| ensures AtOrBefore(log[i].at, log[j].at) {
        if i < |head| <= j {
          assert log[j] in Log(segments[1..]);
        }
      }
    }
  }

  /** On an ordered log the skip test leaves exactly the rest of it. */
  lemma {:induction false} SkipTestIsASuffix(log: seq<Entry>, at: CommitId)
    requires Ordered(log)
    ensures Unseen(log, Some(at)) == log[Covered(log, at)..]
  {
    if log == [] {
    } else if AtOrBefore(log[0].at, at) {
      var rest := log[1..];
      forall i, j | 0 <= i < j < |rest| ensures AtOrBefore(rest[i].at, rest[j].at) {
        assert rest[i] == log[i + 1] && rest[j] == log[j + 1];
      }
      SkipTestIsASuffix(rest, at);
      assert Unseen(log, Some(at)) == Unseen(rest, Some(at));
    } else {
      forall e | e in log ensures !AtOrBefore(e.at, at) {
        var j :| 0 <= j < |log| && log[j] == e;
        assert j == 0 || AtOrBefore(log[0].at, log[j].at);
      }
      NothingSkipped(log, at);
    }
  }

  lemma {:induction false} NothingSkipped(log: seq<Entry>, at: CommitId)
    requires forall e | e in log :: !AtOrBefore(e.at, at)
    ensures Unseen(log, Some(at)) == log
  {
    if log != [] {
      NothingSkipped(log[1..], at);
    }
  }

  // ----- the recovery theorems -----

  /** A state holding the first `taken` lines is brought up to date by replaying
      from any line up to the next one: going over covered lines again is
      harmless, even where they undo one another. */
  lemma RestartFromAnyEarlierLine(base: Contexts, log: seq<Entry>, taken: nat, start: nat)
    requires start <= taken <= |log|
    ensures Replayed(Replayed(base, log[..taken]), log[start..]) == Replayed(base, log)
  {
    CommitsAbsorb();
    var ops, before, done := LogOps(log), LogOps(log[..start]), LogOps(log[..taken]);
    LogOpsSplit(log, taken);
    LogOpsSplit(log, start);
    LogOpsSplit(log[..taken], start);
    assert log[..taken][..start] == log[..start];
    assert ops[..|done|] == done && ops[|before|..] == LogOps(log[start..]);
    RestartAnywhere(Apply, base, ops, |done|, |before|);
  }

  lemma LogOpsSplit(log: seq<Entry>, n: nat)
    requires n <= |log|
    ensures LogOps(log) == LogOps(log[..n]) + LogOps(log[n..])
  {
    assert log == log[..n] + log[n..];
    LogOpsAppend(log[..n], log[n..]);
  }

  /** What the `wal` driver reads is the whole history replayed from nothing,
      when the snapshot was taken at `at`, the segments before `kept` are gone
      and held nothing later, and the position recorded in the snapshot is any
      at or before `at`, or is missing. */
  lemma RecoveryIsExact(history: seq<Segment>, kept: nat, at: CommitId, recorded: Option<CommitId>)
    requires IdsAscend(history) && kept <= |history|
    requires recorded.Some? ==> AtOrBefore(recorded.value, at)
    requires |Log(history[..kept])| <= Covered(Log(history), at)
    ensures
      var log := Log(history);
      var snapshot := Snapshot(Replayed(map[], log[..Covered(log, at)]), recorded);
      WalState(Some(snapshot), history[kept..]) == Replayed(map[], log)
  {
    var gone, disk, log := Log(history[..kept]), Log(history[kept..]), Log(history);
    assert history == history[..kept] + history[kept..];
    LogAppend(history[..kept], history[kept..]);
    LogIsOrdered(history[kept..]);
    var start := RestartPoint(gone, disk, at, recorded);
    RestartFromAnyEarlierLine(map[], log, Covered(log, at), start);
  }

  /** What the skip test leaves of the segments still there is the rest of the
      whole log from some covered line, or the next one, on. */
  lemma RestartPoint(gone: seq<Entry>, disk: seq<Entry>, at: CommitId, recorded: Option<CommitId>) returns (start: nat)
    requires recorded.Some? ==> AtOrBefore(recorded.value, at)
    requires Ordered(disk) && |gone| <= Covered(gone + disk, at)
    ensures start <= Covered(gone + disk, at) && Unseen(disk, recorded) == (gone + disk)[start..]
  {
    if recorded.Some? {
      var skipped := Covered(disk, recorded.value);
      SkipTestIsASuffix(disk, recorded.value);
      SkippedIsCovered(gone, disk, at, recorded.value);
      start := |gone| + skipped;
      assert disk[skipped..] == (gone + disk)[start..];
    } else {
      NothingRecorded(disk);
      start := |gone|;
      assert disk == (gone + disk)[start..];
    }
  }

  lemma SkippedIsCovered(gone: seq<Entry>, disk: seq<Entry>, at: CommitId, recorded: CommitId)
    requires AtOrBefore(recorded, at)
    requires |gone| <= Covered(gone + disk, at)
    ensures |gone| + Covered(disk, recorded) <= Covered(gone + disk, at)
  {
    var log := gone + disk;
    assert forall i | |gone| <= i < |log| :: log[i] == disk[i - |gone|];
  }

  lemma {:induction false} NothingRecorded(log: seq<Entry>)
    ensures Unseen(log, None) == log
  {
    if log != [] {
      NothingRecorded(log[1..]);
    }
  }

  predicate HoldsNothingAfter(segment: Segment, at: CommitId)
  {
    forall i | 0 <= i < |segment.lines| :: AtOrBefore((segment.id, i), at)
  }

  /** Segments that hold nothing after the recorded position may be missing from
      anywhere in the directory, not only from its start. */
  lemma {:induction false} CoveredSegmentsAreNotNeeded(history: seq<Segment>, disk: seq<Segment>, at: CommitId)
    requires IdsAscend(history) && IdsAscend(disk)
    requires forall s | s in disk :: s in history
    requires forall s | s in history :: s in disk || HoldsNothingAfter(s, at)
    ensures Unseen(Log(disk), Some(at)) == Unseen(Log(history), Some(at))
  {
    assert disk != [] ==> disk[0] in history;
    if history != [] {
      var head, rest := history[0], history[1..];
      UnseenAppend(Entries(head), Log(rest), Some(at));
      forall s | s in rest ensures s.id > head.id {
      }
      if head in disk {
        var k :| 0 <= k < |disk| && disk[k] == head;
        assert k == 0;
        forall s | s in disk[1..] ensures s in rest {
          var i :| 0 <= i < |disk[1..]| && disk[1..][i] == s;
          assert disk[i + 1] == s && s in history;
        }
        forall s | s in rest ensures s in disk[1..] || HoldsNothingAfter(s, at) {
          assert s in history && s != head;
        }
        CoveredSegmentsAreNotNeeded(rest, disk[1..], at);
        UnseenAppend(Entries(head), Log(disk[1..]), Some(at));
      } else {
        AllSkipped(Entries(head), at);
        CoveredSegmentsAreNotNeeded(rest, disk, at);
      }
    }
  }

  lemma {:induction false} AllSkipped(log: seq<Entry>, at: CommitId)
    requires forall e | e in log :: AtOrBefore(e.at, at)
    ensures Unseen(log, Some(at)) == []
  {
    if log != [] {
      AllSkipped(log[1..], at);
    }
  }

  /** The directory read back after any such pruning is still the whole history. */
  lemma RecoveryAfterPruning(history: seq<Segment>, disk: seq<Segment>, at: CommitId)
    requires IdsAscend(history) && IdsAscend(disk)
    requires forall s | s in disk :: s in history
    requires forall s | s in history :: s in disk || HoldsNothingAfter(s, at)
    ensures
      var log := Log(history);
      WalState(Some(Snapshot(Replayed(map[], log[..Covered(log, at)]), Some(at))), disk) == Replayed(map[], log)
  {
    CoveredSegmentsAreNotNeeded(history, disk, at);
    RecoveryIsExact(history, 0, at, Some(at));
    assert history[0..] == history;
  }

  /** A snapshot whose offset is not a number counts as taken at offset 0, and
      one whose segment is not a number, or that lacks either, as taken at no
      position. None of it costs anything: the commits replayed twice are
      absorbed. */
  lemma DamagedPositionStillRecovers(history: seq<Segment>, kept: nat, at: CommitId, raw: Json, id: Json)
    requires IdsAscend(history) && kept <= |history|
    requires |Log(history[..kept])| <= Covered(Log(history), at)
    requires Get(raw, "commitId") == Some(id) && Get(raw, "data").Some?
    requires StoreState(Get(raw, "data").value) == Replayed(map[], Log(history)[..Covered(Log(history), at)])
    requires var segment := Get(id, "segment");
      segment.None? || AsU64(segment.value).None? || AsU64(segment.value).value == at.0
    requires var offset := Get(id, "offset");
      offset.None? || AsU64(offset.value).None? || AsU64(offset.value).value == at.1
    ensures ParseSnapshot(raw).Some?
    ensures WalState(ParseSnapshot(raw), history[kept..]) == Replayed(map[], Log(history))
  {
    RecoveryIsExact(history, kept, at, SnapshotPosition(raw));
  }
}

/** What every interleaving of collections keeps, and what a waiter finds. */
module DiagnosticsProofs {
  import opened Diagnostics
  import opened DiagnosticsRuns
  import opened Wrappers

  /** What one run announced, in order. */
  function ToldBy(log: seq<Notice>, r: nat): seq<Batch>
  {
    if log == [] then []
    else
      var init, last := ToldBy(log[..|log| - 1], r), log[|log| - 1];
      if last.run == r then init + [last.batch] else init
  }

  lemma ToldOneMore(log: seq<Notice>, notice: Notice, r: nat)
    ensures ToldBy(log + [notice], r)
      == if notice.run == r then ToldBy(log, r) + [notice.batch] else ToldBy(log, r)
  {
    assert (log + [notice])[..|log|] == log;
  }

  /** Exactly the runs that have not left the map are in it, each under its own
      network. */
  ghost predicate MapSound(s: System)
  {
    && (forall network | network in s.inFlight ::
          var r := s.inFlight[network];
          r < |s.runs| && s.runs[r].network == network && Listed(s.runs[r].phase))
    && forall r | 0 <= r < |s.runs| && Listed(s.runs[r].phase) ::
         s.runs[r].network in s.inFlight && s.inFlight[s.runs[r].network] == r
  }

  ghost predicate RunsSound(s: System)
  {
    && (forall r | 0 <= r < |s.runs| :: RunSound(s.runs[r], ToldBy(s.log, r)))
    && forall n | n in s.log :: n.run < |s.runs|
  }

  /** The final batch of a run that has stored it. */
  ghost predicate FinalOf(run: Run, batch: Batch)
  {
    (run.phase.Stored? || run.phase.Announced? || run.phase.Closed?) && run.state.batch == batch
  }

  ghost predicate CacheSound(s: System)
  {
    forall network | network in s.cache ::
      var batch := s.cache[network];
      && batch.network == network && MacsDiffer(batch.nodes)
      && (IsReport(batch) || exists r :: 0 <= r < |s.runs| && FinalOf(s.runs[r], batch))
  }

  ghost predicate Sound(s: System)
  {
    MapSound(s) && RunsSound(s) && CacheSound(s)
  }

  // ----- an asker's step -----

  lemma {:induction false} NothingToldYet(log: seq<Notice>, r: nat)
    requires forall n | n in log :: n.run < r
    ensures ToldBy(log, r) == []
  {
    if log != [] {
      assert log[|log| - 1] in log;
      NothingToldYet(log[..|log| - 1], r);
    }
  }

  lemma AskKeepsSound(s: System, network: string, name: string, now: nat)
    requires Sound(s)
    ensures Sound(Next(s, Ask(network, name, now)).value)
  {
    var next := Next(s, Ask(network, name, now)).value;
    if network !in s.inFlight {
      NothingToldYet(s.log, |s.runs|);
      forall r | 0 <= r < |next.runs| ensures RunSound(next.runs[r], ToldBy(next.log, r)) {
        if r < |s.runs| {
          assert next.runs[r] == s.runs[r];
        }
      }
      forall n | n in next.cache && !IsReport(next.cache[n])
        ensures exists r :: 0 <= r < |next.runs| && FinalOf(next.runs[r], next.cache[n])
      {
        var r :| 0 <= r < |s.runs| && FinalOf(s.runs[r], s.cache[n]);
        assert next.runs[r] == s.runs[r];
      }
    }
  }

  // ----- a run's step -----

  lemma ActKeepsMap(s: System, r: nat, action: Action)
    requires MapSound(s) && Next(s, Act(r, action)).Some?
    ensures MapSound(Next(s, Act(r, action)).value)
  {
    var run, moved := s.runs[r], Moved(s.runs[r], action).value;
    var next := Next(s, Act(r, action)).value;
    assert moved.network == run.network;
    assert Listed(moved.phase) <==> Listed(run.phase) && !action.Unlist?;
    assert Listed(moved.phase) ==> Listed(run.phase);
  }

  lemma ActKeepsRuns(s: System, r: nat, action: Action)
    requires RunsSound(s) && Next(s, Act(r, action)).Some?
    ensures RunsSound(Next(s, Act(r, action)).value)
  {
    var next := Next(s, Act(r, action)).value;
    StepKeepsRunSound(s.runs[r], action, ToldBy(s.log, r));
    forall q | 0 <= q < |next.runs| ensures RunSound(next.runs[q], ToldBy(next.log, q)) {
      ActTells(s, r, action, q);
    }
  }

  /** A step changes and tells of its own run only. */
  lemma ActTells(s: System, r: nat, action: Action, q: nat)
    requires Next(s, Act(r, action)).Some? && q < |s.runs|
    ensures
      var next := Next(s, Act(r, action)).value;
      && |next.runs| == |s.runs|
      && next.runs[q] == (if q == r then Moved(s.runs[r], action).value else s.runs[q])
      && ToldBy(next.log, q)
         == if q == r then Appended(ToldBy(s.log, r), Announces(s.runs[r], action)) else ToldBy(s.log, q)
  {
    var shown := Announces(s.runs[r], action);
    if shown.Some? {
      ToldOneMore(s.log, Notice(r, shown.value), q);
    }
  }

  lemma KeptBatch(run: Run, action: Action, batches: seq<Batch>)
    requires RunSound(run, batches) && Moved(run, action).Some? && Caches(run, action).Some?
    ensures
      var batch := Caches(run, action).value;
      && batch.network == run.network && MacsDiffer(batch.nodes)
      && (IsReport(batch) || FinalOf(Moved(run, action).value, batch))
  {
  }

  lemma FinalStays(run: Run, action: Action, batch: Batch)
    requires FinalOf(run, batch) && Moved(run, action).Some?
    ensures FinalOf(Moved(run, action).value, batch)
  {
  }

  lemma ActKeepsCache(s: System, r: nat, action: Action)
    requires Sound(s) && Next(s, Act(r, action)).Some?
    ensures CacheSound(Next(s, Act(r, action)).value)
  {
    var next, kept := Next(s, Act(r, action)).value, Caches(s.runs[r], action);
    if kept.Some? {
      KeptBatch(s.runs[r], action, ToldBy(s.log, r));
      assert next.runs[r] == Moved(s.runs[r], action).value;
    }
    forall n | n in next.cache && !(kept.Some? && n == kept.value.network) && !IsReport(next.cache[n])
      ensures exists q :: 0 <= q < |next.runs| && FinalOf(next.runs[q], next.cache[n])
    {
      var q :| 0 <= q < |s.runs| && FinalOf(s.runs[q], s.cache[n]);
      if q == r {
        FinalStays(s.runs[r], action, s.cache[n]);
      }
      assert FinalOf(next.runs[q], next.cache[n]);
    }
  }

  lemma {:induction false} EveryStateIsSound(events: seq<Event>)
    requires After(events).Some?
    ensures Sound(After(events).value)
  {
    if events != [] {
      var init, last := events[..|events| - 1], events[|events| - 1];
      EveryStateIsSound(init);
      var s := After(init).value;
      match last
      case Ask(network, name, now) => AskKeepsSound(s, network, name, now);
      case Act(r, action) =>
        ActKeepsMap(s, r, action);
        ActKeepsRuns(s, r, action);
        ActKeepsCache(s, r, action);
    }
  }

  // ----- the theorems -----

  /** At most one run per network has not left the map, and an asker joins it. */
  lemma OneRunPerNetwork(events: seq<Event>, q: nat, r: nat)
    requires After(events).Some?
    requires q < |After(events).value.runs| && r < |After(events).value.runs|
    requires Listed(After(events).value.runs[q].phase) && Listed(After(events).value.runs[r].phase)
    requires After(events).value.runs[q].network == After(events).value.runs[r].network
    ensures q == r == Joined(After(events).value, After(events).value.runs[r].network)
  {
    EveryStateIsSound(events);
  }

  /** A run that takes its network out of the map takes out itself. */
  lemma RunRemovesItself(events: seq<Event>, r: nat)
    requires After(events).Some? && Next(After(events).value, Act(r, Unlist)).Some?
    ensures
      var s, next := After(events).value, Next(After(events).value, Act(r, Unlist)).value;
      var network := s.runs[r].network;
      && network in s.inFlight && s.inFlight[network] == r
      && next.inFlight == s.inFlight - {network}
      && Joined(next, network) == |s.runs|
  {
    EveryStateIsSound(events);
    UnlistRemovesItself(After(events).value, r);
  }

  lemma UnlistRemovesItself(s: System, r: nat)
    requires MapSound(s) && Next(s, Act(r, Unlist)).Some?
    ensures
      var next, network := Next(s, Act(r, Unlist)).value, s.runs[r].network;
      && network in s.inFlight && s.inFlight[network] == r
      && next.inFlight == s.inFlight - {network} && |next.runs| == |s.runs|
  {
    assert Listed(s.runs[r].phase);
  }

  /** A waiter woken by the close finds the run finished, its entry gone, its
      snapshot final whatever the time, and that batch announced once, after all
      of the run's reports, which never lose a node on the way. */
  lemma WokenWaiterFindsTheEnd(events: seq<Event>, r: nat, now: nat)
    requires After(events).Some? && r < |After(events).value.runs| && After(events).value.runs[r].phase.Closed?
    ensures
      var s := After(events).value;
      var run, told := s.runs[r], ToldBy(s.log, r);
      && run.state.finished && IsFinal(Snapshot(run.state, now))
      && (run.network in s.inFlight ==> s.inFlight[run.network] != r)
      && Joined(s, run.network) != r
      && told != [] && told[|told| - 1] == Snapshot(run.state, now)
      && (forall i | 0 <= i < |told| - 1 :: IsReport(told[i]))
      && Growing(told)
  {
    EveryStateIsSound(events);
    var s := After(events).value;
    var told := ToldBy(s.log, r);
    forall i | 0 <= i < |told| - 1 ensures IsReport(told[i]) {
      assert told[i] in told[..|told| - 1];
    }
  }

  lemma {:induction false} ToldBatchIsLogged(log: seq<Notice>, i: nat)
    requires i < |log|
    ensures log[i].batch in ToldBy(log, log[i].run)
  {
    if i < |log| - 1 {
      ToldBatchIsLogged(log[..|log| - 1], i);
    }
  }

  /** No batch ever held, stored or announced has two nodes with one extended
      address. */
  lemma NoBatchRepeatsAMac(events: seq<Event>)
    requires After(events).Some?
    ensures
      var s := After(events).value;
      && (forall run | run in s.runs :: MacsDiffer(run.state.batch.nodes))
      && (forall network | network in s.cache :: MacsDiffer(s.cache[network].nodes))
      && (forall n | n in s.log :: MacsDiffer(n.batch.nodes))
  {
    EveryStateIsSound(events);
    var s := After(events).value;
    forall n | n in s.log ensures MacsDiffer(n.batch.nodes) {
      var i :| 0 <= i < |s.log| && s.log[i] == n;
      ToldBatchIsLogged(s.log, i);
      ToldIsApart(s.runs[n.run], ToldBy(s.log, n.run), n.batch);
    }
  }

  lemma ToldIsApart(run: Run, batches: seq<Batch>, batch: Batch)
    requires RunSound(run, batches) && batch in batches
    ensures MacsDiffer(batch.nodes)
  {
    var i :| 0 <= i < |batches| && batches[i] == batch;
    if i < |batches| - 1 || AllReports(run, batches) {
      assert AllReports(run, batches) || batch in batches[..|batches| - 1];
      assert Earlier(run, batch);
    }
  }

  const TTL_MILLIS := 3_600_000

  /** `ThreadDiagnosticsCache::fresh`. */
  function Fresh(s: System, network: string, now: nat): Option<Batch>
  {
    if network !in s.cache || s.cache[network].partial.Some? then None
    else
      var age := now - s.cache[network].collectedAt;
      if 0 <= age < TTL_MILLIS then Some(s.cache[network]) else None
  }

  /** A cache hit is the final batch of a collection that saw everything, never a
      report from the middle of one. */
  lemma HitsAreComplete(events: seq<Event>, network: string, now: nat)
    requires After(events).Some? && Fresh(After(events).value, network, now).Some?
    ensures
      var s, batch := After(events).value, Fresh(After(events).value, network, now).value;
      && batch.network == network && 0 <= now - batch.collectedAt < 60 * 60 * 1000
      && exists r :: 0 <= r < |s.runs| && FinalOf(s.runs[r], batch) && s.runs[r].state.finished
  {
    EveryStateIsSound(events);
    var s := After(events).value;
    var batch := s.cache[network];
    var r :| 0 <= r < |s.runs| && FinalOf(s.runs[r], batch);
    assert RunSound(s.runs[r], ToldBy(s.log, r));
  }

  // ----- every run comes to its end -----

  lemma ActIsPossible(s: System, r: nat, action: Action)
    requires r < |s.runs| && Moved(s.runs[r], action).Some?
    ensures Next(s, Act(r, action)).Some?
  {
  }

  lemma RunCanMove(run: Run) returns (action: Action)
    requires PhaseSound(run) && !run.phase.Closed?
    ensures Moved(run, action).Some? && !action.NodeArrived?
  {
    action :=
      match run.phase
      case Probing => ProbeMissed
      case Collecting(calling, Idle) => if calling == 0 then CollectionOver(None) else TooSoon
      case Collecting(_, Taken(_)) => KeepReport
      case Collecting(_, Kept(_)) => AnnounceReport
      case Ending(_, _) => Finish(0)
      case Finished => Unlist
      case Unlisted => StoreFinal
      case Stored => AnnounceFinal
      case _ => Wake;
  }

  /** How many steps a run has made, and how many of them were nodes arriving. */
  function StepsOf(events: seq<Event>, r: nat): nat
  {
    if events == [] then 0
    else
      var last := events[|events| - 1];
      StepsOf(events[..|events| - 1], r) + if last.Act? && last.run == r then 1 else 0
  }

  function ArrivalsOf(events: seq<Event>, r: nat): nat
  {
    if events == [] then 0
    else
      var last := events[|events| - 1];
      ArrivalsOf(events[..|events| - 1], r)
      + if last.Act? && last.run == r && last.action.NodeArrived? then 1 else 0
  }

  function WorkOf(s: System, r: nat): nat
  {
    if r < |s.runs| then Work(s.runs[r]) else 7
  }

  lemma EventWorksOff(s: System, event: Event, r: nat)
    requires RunsSound(s) && Next(s, event).Some?
    ensures
      var mine := event.Act? && event.run == r;
      WorkOf(Next(s, event).value, r) + (if mine then 1 else 0)
      <= WorkOf(s, r) + if mine && event.action.NodeArrived? then 4 else 0
  {
    if event.Act? && event.run < |s.runs| {
      assert RunSound(s.runs[event.run], ToldBy(s.log, event.run));
      StepWorksOff(s.runs[event.run], event.action);
    }
  }

  lemma {:induction false} StepsAreBounded(events: seq<Event>, r: nat)
    requires After(events).Some?
    ensures StepsOf(events, r) + WorkOf(After(events).value, r) <= 7 + 4 * ArrivalsOf(events, r)
  {
    if events != [] {
      var init := events[..|events| - 1];
      EveryStateIsSound(init);
      StepsAreBounded(init, r);
      EventWorksOff(After(init).value, events[|events| - 1], r);
    }
  }

  /** No run is ever stuck: until it is closed, a step is possible that brings it
      nearer to its end. */
  lemma NoRunIsStuck(events: seq<Event>, r: nat)
    requires After(events).Some? && r < |After(events).value.runs| && !After(events).value.runs[r].phase.Closed?
    ensures exists action: Action :: !action.NodeArrived? && Next(After(events).value, Act(r, action)).Some?
  {
    EveryStateIsSound(events);
    var s := After(events).value;
    assert RunSound(s.runs[r], ToldBy(s.log, r));
    var action := RunCanMove(s.runs[r]);
    ActIsPossible(s, r, action);
  }

  /** A run makes at most seven steps and four for each node that arrives, and is
      closed when it has made as many: it comes to its end once no more arrive. */
  lemma RunsComeToAnEnd(events: seq<Event>, r: nat)
    requires After(events).Some? && r < |After(events).value.runs|
    ensures StepsOf(events, r) <= 7 + 4 * ArrivalsOf(events, r)
    ensures StepsOf(events, r) == 7 + 4 * ArrivalsOf(events, r) ==> After(events).value.runs[r].phase.Closed?
  {
    StepsAreBounded(events, r);
    EveryStateIsSound(events);
    assert RunSound(After(events).value.runs[r], ToldBy(After(events).value.log, r));
  }
}

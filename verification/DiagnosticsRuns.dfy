/** Collections as concurrent runs: every interleaving of askers, of the threads
    that collect, and of the workers inside each
    (`server/src/api/thread_diagnostics.rs`). A step is what one thread does
    between taking a lock and letting it go. */
module DiagnosticsRuns {
  import opened Diagnostics
  import opened Wrappers

  /** A progress announcement on its way: taken, then stored, then announced, by
      the one worker that holds the clock. */
  datatype Report = Idle | Taken(batch: Batch) | Kept(batch: Batch)

  datatype Phase =
    | Probing
    | Collecting(calling: nat, report: Report)
    | Ending(source: Source, partial: Option<Partial>)
    | Finished
    | Unlisted
    | Stored
    | Announced
    | Closed

  datatype Run = Run(network: string, state: Progress, phase: Phase)

  datatype Action =
    | ProbeMissed
    | ProbeFound
    | NodeArrived(node: Node)
    | TooSoon
    | TakeReport(now: nat)
    | KeepReport
    | AnnounceReport
    | CollectionOver(error: Option<Partial>)
    | Finish(now: nat)
    | Unlist
    | StoreFinal
    | AnnounceFinal
    | Wake

  /** One run's step, where the run allows it. */
  function Moved(run: Run, action: Action): Option<Run>
  {
    match (action, run.phase)
    case (ProbeMissed, Probing) => Some(run.(phase := Ending(NoSource, Some(NoCredentials))))
    case (ProbeFound, Probing) =>
      Some(Run(run.network, run.state.(batch := run.state.batch.(source := OtbrRest)), Collecting(0, Idle)))
    case (NodeArrived(node), Collecting(calling, report)) =>
      var nodes := Added(run.state.batch.nodes, node);
      Some(Run(run.network, run.state.(batch := run.state.batch.(nodes := nodes)), Collecting(calling + 1, report)))
    case (TooSoon, Collecting(calling, report)) =>
      if calling == 0 || report != Idle then None else Some(run.(phase := Collecting(calling - 1, report)))
    case (TakeReport(now), Collecting(calling, report)) =>
      if calling == 0 || report != Idle then None
      else Some(run.(phase := Collecting(calling, Taken(Snapshot(run.state, now)))))
    case (KeepReport, Collecting(calling, Taken(batch))) => Some(run.(phase := Collecting(calling, Kept(batch))))
    case (AnnounceReport, Collecting(calling, Kept(_))) =>
      if calling == 0 then None else Some(run.(phase := Collecting(calling - 1, Idle)))
    case (CollectionOver(error), Collecting(calling, report)) =>
      // The workers are joined before the collection is over.
      if calling != 0 || error !in {None, Some(RestUnreachable), Some(RestProtocol)} then None
      else Some(run.(phase := Ending(OtbrRest, error)))
    case (Finish(now), Ending(source, partial)) =>
      Some(Run(run.network, Ended(run.state, source, partial, now), Finished))
    case (Unlist, Finished) => Some(run.(phase := Unlisted))
    case (StoreFinal, Unlisted) => Some(run.(phase := Stored))
    case (AnnounceFinal, Stored) => Some(run.(phase := Announced))
    case (Wake, Announced) => Some(run.(phase := Closed))
    case _ => None
  }

  /** The batch a step puts into the cache, if it does. */
  function Caches(run: Run, action: Action): Option<Batch>
  {
    match action
    case KeepReport => if run.phase.Collecting? && run.phase.report.Taken? then Some(run.phase.report.batch) else None
    case StoreFinal => Some(run.state.batch)
    case _ => None
  }

  /** The batch a step announces, if it does. */
  function Announces(run: Run, action: Action): Option<Batch>
  {
    match action
    case AnnounceReport =>
      if run.phase.Collecting? && run.phase.report.Kept? then Some(run.phase.report.batch) else None
    case AnnounceFinal => Some(run.state.batch)
    case _ => None
  }

  datatype Notice = Notice(run: nat, batch: Batch)

  datatype System = System(runs: seq<Run>, inFlight: map<string, nat>, cache: map<string, Batch>, log: seq<Notice>)

  const INITIAL := System([], map[], map[], [])

  datatype Event = Ask(network: string, name: string, now: nat) | Act(run: nat, action: Action)

  /** The run an asker ends up with. */
  function Joined(s: System, network: string): nat
  {
    if network in s.inFlight then s.inFlight[network] else |s.runs|
  }

  function Next(s: System, event: Event): Option<System>
  {
    match event
    case Ask(network, name, now) =>
      if network in s.inFlight then Some(s)
      else
        var run := Run(network, Begun(network, name, now), Probing);
        Some(s.(runs := s.runs + [run], inFlight := s.inFlight[network := |s.runs|]))
    case Act(r, action) =>
      if r >= |s.runs| then None
      else
        var run := s.runs[r];
        var moved :- Moved(run, action);
        var kept, shown := Caches(run, action), Announces(run, action);
        Some(System(
               s.runs[r := moved],
               if action.Unlist? then s.inFlight - {run.network} else s.inFlight,
               if kept.Some? then s.cache[kept.value.network := kept.value] else s.cache,
               if shown.Some? then s.log + [Notice(r, shown.value)] else s.log))
  }

  /** The state after some events, where each was possible in its turn. */
  function After(events: seq<Event>): Option<System>
  {
    if events == [] then Some(INITIAL)
    else
      var s :- After(events[..|events| - 1]);
      Next(s, events[|events| - 1])
  }

  // ----- what one run keeps -----

  predicate IsReport(batch: Batch)
  {
    batch.partial in {Some(InProgress), Some(RestNoResponsesYet)}
  }

  predicate IsFinal(batch: Batch)
  {
    batch.partial in {None, Some(NoCredentials), Some(RestUnreachable), Some(RestProtocol)}
  }

  predicate Listed(phase: Phase)
  {
    phase.Probing? || phase.Collecting? || phase.Ending? || phase.Finished?
  }

  predicate Over(phase: Phase)
  {
    phase.Finished? || phase.Unlisted? || phase.Stored? || phase.Announced? || phase.Closed?
  }

  /** A batch of this run, no further than the run has come. */
  predicate Earlier(run: Run, batch: Batch)
  {
    && batch.network == run.network
    && MacsDiffer(batch.nodes)
    && |batch.nodes| <= |run.state.batch.nodes|
  }

  predicate PhaseSound(run: Run)
  {
    match run.phase
    case Collecting(calling, report) =>
      report.Idle? || (calling > 0 && IsReport(report.batch) && Earlier(run, report.batch))
    case Ending(_, partial) => partial in {None, Some(NoCredentials), Some(RestUnreachable), Some(RestProtocol)}
    case _ => true
  }

  predicate StateSound(run: Run)
  {
    && run.state.batch.network == run.network
    && MacsDiffer(run.state.batch.nodes)
    && run.state.finished == Over(run.phase)
    && (Over(run.phase) ==> IsFinal(run.state.batch))
  }

  predicate AllReports(run: Run, batches: seq<Batch>)
  {
    forall b | b in batches :: IsReport(b) && Earlier(run, b)
  }

  /** Reports only, until the final batch, which comes once and last. */
  predicate Told(run: Run, batches: seq<Batch>)
  {
    if run.phase.Announced? || run.phase.Closed? then
      && batches != [] && batches[|batches| - 1] == run.state.batch
      && AllReports(run, batches[..|batches| - 1])
    else AllReports(run, batches)
  }

  predicate Growing(batches: seq<Batch>)
  {
    forall i, j | 0 <= i < j < |batches| :: |batches[i].nodes| <= |batches[j].nodes|
  }

  /** Nothing announced holds more nodes than the report on its way. */
  predicate ReportFollows(run: Run, batches: seq<Batch>)
  {
    run.phase.Collecting? && !run.phase.report.Idle? ==>
      forall b | b in batches :: |b.nodes| <= |run.phase.report.batch.nodes|
  }

  predicate RunSound(run: Run, batches: seq<Batch>)
  {
    && PhaseSound(run) && StateSound(run)
    && Told(run, batches) && Growing(batches) && ReportFollows(run, batches)
  }

  function Appended(batches: seq<Batch>, more: Option<Batch>): seq<Batch>
  {
    if more.Some? then batches + [more.value] else batches
  }

  lemma NodeArrivedKeeps(run: Run, node: Node, batches: seq<Batch>)
    requires RunSound(run, batches) && run.phase.Collecting?
    ensures RunSound(Moved(run, NodeArrived(node)).value, batches)
  {
    AddedKeepsMacsApart(run.state.batch.nodes, node);
    var moved := Moved(run, NodeArrived(node)).value;
    forall b | Earlier(run, b) ensures Earlier(moved, b) {
    }
  }

  lemma AnnouncingKeeps(run: Run, action: Action, batches: seq<Batch>)
    requires RunSound(run, batches) && Moved(run, action).Some? && Announces(run, action).Some?
    ensures RunSound(Moved(run, action).value, Appended(batches, Announces(run, action)))
  {
    var moved, shown := Moved(run, action).value, Announces(run, action).value;
    var all := batches + [shown];
    assert all[..|all| - 1] == batches;
    forall b | b in batches ensures IsReport(b) && Earlier(moved, b) && |b.nodes| <= |shown.nodes| {
      assert Earlier(run, b);
    }
  }

  lemma StepKeepsRunSound(run: Run, action: Action, batches: seq<Batch>)
    requires RunSound(run, batches) && Moved(run, action).Some?
    ensures RunSound(Moved(run, action).value, Appended(batches, Announces(run, action)))
    ensures Moved(run, action).value.network == run.network
  {
    var moved := Moved(run, action).value;
    match action
    case NodeArrived(node) => NodeArrivedKeeps(run, node, batches);
    case AnnounceReport => AnnouncingKeeps(run, action, batches);
    case AnnounceFinal => AnnouncingKeeps(run, action, batches);
    case _ =>
      assert forall b | Earlier(run, b) :: Earlier(moved, b);
  }

  // ----- how far a run is from its end -----

  /** The most steps a run has left while nothing more arrives. */
  function Work(run: Run): nat
  {
    match run.phase
    case Probing => 7
    case Collecting(calling, report) =>
      6 + 3 * calling - if report.Idle? || calling == 0 then 0 else if report.Taken? then 1 else 2
    case Ending(_, _) => 5
    case Finished => 4
    case Unlisted => 3
    case Stored => 2
    case Announced => 1
    case Closed => 0
  }

  lemma StepWorksOff(run: Run, action: Action)
    requires PhaseSound(run) && Moved(run, action).Some?
    ensures Work(Moved(run, action).value) + 1 <= Work(run) + if action.NodeArrived? then 4 else 0
  {
  }
}

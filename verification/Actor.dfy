/** The Matter actor's loop against its callers (`server/src/matter/actor.rs`), in
    every interleaving. A request is known by the order it was sent in. */
module Actor {
  import opened Wrappers

  const CAPACITY := 8

  datatype Reply<O> = Reply(id: nat, outcome: O)

  datatype Phase = Running | Draining | Stopped

  /** `inFlight` holds accepted requests, with their outcome once they have been
      executed; `waiting` the callers that have not timed out. */
  datatype System<O> = System(
    sent: nat, open: bool, queue: seq<nat>, inFlight: map<nat, Option<O>>, executed: seq<Reply<O>>,
    answered: seq<Reply<O>>, waiting: set<nat>, received: map<nat, O>, phase: Phase)

  function Initial<O>(): System<O>
  {
    System(0, true, [], map[], [], [], {}, map[], Running)
  }

  datatype Step<O> =
    | Send
    | TimeOut(id: nat)
    | Close
    | Accept
    | Execute(id: nat, outcome: O)
    | Answer(id: nat)
    | Break
    | Stop

  function Next<O>(s: System<O>, step: Step<O>): Option<System<O>>
  {
    match step
    case Send =>
      // A full channel makes its sender wait.
      if s.open && |s.queue| < CAPACITY then
        Some(s.(sent := s.sent + 1, queue := s.queue + [s.sent], waiting := s.waiting + {s.sent}))
      else None
    case TimeOut(id) => if id in s.waiting then Some(s.(waiting := s.waiting - {id})) else None
    case Close => Some(s.(open := false))
    case Accept =>
      if s.phase.Running? && s.queue != [] then
        Some(s.(queue := s.queue[1..], inFlight := s.inFlight[s.queue[0] := None]))
      else None
    case Execute(id, outcome) =>
      if !s.phase.Stopped? && id in s.inFlight && s.inFlight[id].None? then
        Some(s.(inFlight := s.inFlight[id := Some(outcome)], executed := s.executed + [Reply(id, outcome)]))
      else None
    case Answer(id) =>
      // A caller that is gone is answered all the same, to nobody.
      if !s.phase.Stopped? && id in s.inFlight && s.inFlight[id].Some? then
        var outcome := s.inFlight[id].value;
        Some(s.(inFlight := s.inFlight - {id},
                answered := s.answered + [Reply(id, outcome)],
                received := if id in s.waiting then s.received[id := outcome] else s.received,
                waiting := s.waiting - {id}))
      else None
    case Break =>
      // The channel reports its end only once it has been emptied.
      if s.phase.Running? && s.queue == [] && !s.open then Some(s.(phase := Draining)) else None
    case Stop => if s.phase.Draining? && s.inFlight == map[] then Some(s.(phase := Stopped)) else None
  }

  function After<O>(steps: seq<Step<O>>): Option<System<O>>
  {
    if steps == [] then Some(Initial())
    else
      var s :- After(steps[..|steps| - 1]);
      Next(s, steps[|steps| - 1])
  }

  // ----- what every step keeps -----

  ghost predicate Has<O>(replies: seq<Reply<O>>, id: nat)
  {
    exists r | r in replies :: r.id == id
  }

  predicate Once<O>(replies: seq<Reply<O>>)
  {
    forall i, j | 0 <= i < j < |replies| :: replies[i].id != replies[j].id
  }

  lemma OneMoreReply<O>(replies: seq<Reply<O>>, reply: Reply<O>)
    requires Once(replies) && !Has(replies, reply.id)
    ensures Once(replies + [reply])
    ensures forall id: nat :: Has(replies + [reply], id) <==> Has(replies, id) || id == reply.id
  {
    forall r | r in replies ensures r.id != reply.id {
    }
    forall id: nat ensures Has(replies + [reply], id) <==> Has(replies, id) || id == reply.id {
      if Has(replies, id) {
        var r :| r in replies && r.id == id;
        assert r in replies + [reply];
      }
      assert reply in replies + [reply];
    }
  }

  /** The channel keeps the order: what is queued is what was sent last. */
  ghost predicate Queued<O>(s: System<O>)
  {
    |s.queue| <= s.sent && forall i | 0 <= i < |s.queue| :: s.queue[i] == s.sent - |s.queue| + i
  }

  /** What was sent before is in flight or answered, and only one of them. */
  ghost predicate Conserved<O>(s: System<O>)
  {
    && Queued(s)
    && (forall id: nat :: id < s.sent - |s.queue| <==> id in s.inFlight || Has(s.answered, id))
    && forall id | id in s.inFlight :: !Has(s.answered, id)
  }

  /** Executed and answered at most once, answered with what the execution gave,
      and whoever waited got that. */
  ghost predicate Honest<O>(s: System<O>)
  {
    && Once(s.executed) && Once(s.answered)
    && (forall id: nat :: Has(s.executed, id) <==> Has(s.answered, id) || (id in s.inFlight && s.inFlight[id].Some?))
    && (forall id | id in s.inFlight && s.inFlight[id].Some? :: Reply(id, s.inFlight[id].value) in s.executed)
    && (forall r | r in s.answered :: r in s.executed)
    && forall id | id in s.received :: Reply(id, s.received[id]) in s.answered
  }

  ghost predicate Sound<O>(s: System<O>)
  {
    && Conserved(s) && Honest(s)
    && (!s.phase.Running? ==> s.queue == [] && !s.open)
    && (s.phase.Stopped? ==> s.inFlight == map[])
  }

  lemma SendKeepsSound<O>(s: System<O>)
    requires Sound(s) && Next(s, Send).Some?
    ensures Sound(Next(s, Send).value)
  {
  }

  lemma AcceptKeepsSound<O>(s: System<O>)
    requires Sound(s) && Next(s, Accept).Some?
    ensures Sound(Next(s, Accept).value)
  {
    AcceptKeepsConserved(s);
    AcceptKeepsHonest(s);
  }

  lemma AcceptKeepsConserved<O>(s: System<O>)
    requires Conserved(s) && Next(s, Accept).Some?
    ensures Conserved(Next(s, Accept).value)
  {
    assert s.queue[0] == s.sent - |s.queue|;
    assert !Has(s.answered, s.queue[0]);
  }

  lemma AcceptKeepsHonest<O>(s: System<O>)
    requires Conserved(s) && Honest(s) && Next(s, Accept).Some?
    ensures Honest(Next(s, Accept).value)
  {
    var first, next := s.queue[0], Next(s, Accept).value;
    assert first == s.sent - |s.queue| && !Has(s.executed, first);
    forall id | id in next.inFlight && next.inFlight[id].Some? ensures id in s.inFlight && s.inFlight[id].Some? {
    }
  }

  lemma ExecuteKeepsSound<O>(s: System<O>, id: nat, outcome: O)
    requires Sound(s) && Next(s, Execute(id, outcome)).Some?
    ensures Sound(Next(s, Execute(id, outcome)).value)
  {
    OneMoreReply(s.executed, Reply(id, outcome));
  }

  lemma AnswerKeepsSound<O>(s: System<O>, id: nat)
    requires Sound(s) && Next(s, Answer(id)).Some?
    ensures Sound(Next(s, Answer(id)).value)
  {
    OneMoreReply(s.answered, Reply(id, s.inFlight[id].value));
  }

  lemma {:induction false} EveryStateIsSound<O>(steps: seq<Step<O>>)
    requires After(steps).Some?
    ensures Sound(After(steps).value)
  {
    if steps != [] {
      var init, last := steps[..|steps| - 1], steps[|steps| - 1];
      EveryStateIsSound(init);
      var s := After(init).value;
      match last
      case Send => SendKeepsSound(s);
      case Accept => AcceptKeepsSound(s);
      case Execute(id, outcome) => ExecuteKeepsSound(s, id, outcome);
      case Answer(id) => AnswerKeepsSound(s, id);
      case _ =>
    }
  }

  // ----- the theorems -----

  /** Requests are conserved: what was sent is queued, in flight or answered, and
      never two of these at once. */
  lemma RequestsAreConserved<O>(steps: seq<Step<O>>, id: nat)
    requires After(steps).Some?
    ensures
      var s := After(steps).value;
      var queued, running, answered := id in s.queue, id in s.inFlight, Has(s.answered, id);
      && (id < s.sent <==> queued || running || answered)
      && !(queued && running) && !(queued && answered) && !(running && answered)
  {
    EveryStateIsSound(steps);
    InTheQueue(After(steps).value, id);
  }

  lemma InTheQueue<O>(s: System<O>, id: nat)
    requires Queued(s)
    ensures id in s.queue <==> s.sent - |s.queue| <= id < s.sent
  {
    if s.sent - |s.queue| <= id < s.sent {
      assert s.queue[id - (s.sent - |s.queue|)] == id;
    }
  }

  /** Nothing is executed or answered twice, and each answer is the outcome of its
      own request's execution. */
  lemma AnsweredOnceAsExecuted<O>(steps: seq<Step<O>>)
    requires After(steps).Some?
    ensures
      var s := After(steps).value;
      && Once(s.executed) && Once(s.answered)
      && (forall r | r in s.answered :: r in s.executed)
      && forall id | id in s.received :: Reply(id, s.received[id]) in s.executed
  {
    EveryStateIsSound(steps);
  }

  /** When the loop has returned, every request that was ever sent has been
      answered, its caller still waiting or not. */
  lemma NothingIsLeftBehind<O>(steps: seq<Step<O>>, id: nat)
    requires After(steps).Some? && After(steps).value.phase.Stopped?
    ensures id < After(steps).value.sent <==> Has(After(steps).value.answered, id)
  {
    EveryStateIsSound(steps);
  }

  /** The loop is never stuck: with work at hand, or its channel closed, a step of
      its own is possible until it returns. */
  lemma ActorIsNotStuck<O>(steps: seq<Step<O>>, outcome: O)
    requires After(steps).Some? && !After(steps).value.phase.Stopped?
    ensures
      var s := After(steps).value;
      (s.open && s.queue == [] && s.inFlight == map[])
      || exists step :: step != Close && !step.Send? && !step.TimeOut? && Next(s, step).Some?
  {
    EveryStateIsSound(steps);
    var s := After(steps).value;
    if s.queue != [] {
      assert Next(s, Accept).Some?;
    } else if s.inFlight != map[] {
      var id :| id in s.inFlight;
      var step := if s.inFlight[id].None? then Execute(id, outcome) else Answer(id);
      assert Next(s, step).Some?;
    } else if !s.open {
      var step: Step<O> := if s.phase.Running? then Break else Stop;
      assert Next(s, step).Some?;
    }
  }

  // ----- the loop's own steps -----

  /** What the actor does itself, apart from its callers and its channel. */
  predicate IsOwn<O>(step: Step<O>)
  {
    !step.Send? && !step.TimeOut? && !step.Close?
  }

  function OwnSteps<O>(steps: seq<Step<O>>): nat
  {
    if steps == [] then 0
    else OwnSteps(steps[..|steps| - 1]) + if IsOwn(steps[|steps| - 1]) then 1 else 0
  }

  ghost function Unexecuted<O>(inFlight: map<nat, Option<O>>): set<nat>
  {
    set id | id in inFlight && inFlight[id].None?
  }

  /** Two steps for an accepted request, one for an executed one. */
  ghost function Pending<O>(inFlight: map<nat, Option<O>>): nat
  {
    |inFlight.Keys| + |Unexecuted(inFlight)|
  }

  lemma AcceptedIsPending<O>(inFlight: map<nat, Option<O>>, id: nat)
    requires id !in inFlight
    ensures Pending(inFlight[id := None]) == Pending(inFlight) + 2
  {
    assert inFlight[id := None].Keys == inFlight.Keys + {id};
    assert Unexecuted(inFlight[id := None]) == Unexecuted(inFlight) + {id};
    WithOneMore(inFlight.Keys, id);
    WithOneMore(Unexecuted(inFlight), id);
  }

  lemma WithOneMore(s: set<nat>, id: nat)
    requires id !in s
    ensures |s + {id}| == |s| + 1
  {
  }

  lemma ExecutedIsPending<O>(inFlight: map<nat, Option<O>>, id: nat, outcome: O)
    requires id in inFlight && inFlight[id].None?
    ensures Pending(inFlight[id := Some(outcome)]) + 1 == Pending(inFlight)
  {
    assert inFlight[id := Some(outcome)].Keys == inFlight.Keys;
    assert Unexecuted(inFlight[id := Some(outcome)]) == Unexecuted(inFlight) - {id};
  }

  lemma AnsweredIsNotPending<O>(inFlight: map<nat, Option<O>>, id: nat)
    requires id in inFlight && inFlight[id].Some?
    ensures Pending(inFlight - {id}) + 1 == Pending(inFlight)
  {
    assert (inFlight - {id}).Keys == inFlight.Keys - {id};
    assert Unexecuted(inFlight - {id}) == Unexecuted(inFlight);
  }

  /** Three steps for a queued request, and two to return. */
  ghost function Remaining<O>(s: System<O>): nat
  {
    3 * |s.queue| + Pending(s.inFlight) + match s.phase case Running => 2 case Draining => 1 case Stopped => 0
  }

  lemma QueuedIsNotInFlight<O>(s: System<O>)
    requires Conserved(s) && s.queue != []
    ensures s.queue[0] !in s.inFlight
  {
    assert s.queue[0] == s.sent - |s.queue|;
  }

  lemma AcceptIsAccountedFor<O>(s: System<O>)
    requires Next(s, Accept).Some? && s.queue[0] !in s.inFlight
    ensures Remaining(Next(s, Accept).value) + 1 == Remaining(s)
  {
    AcceptedIsPending(s.inFlight, s.queue[0]);
  }

  lemma StepsAreAccountedFor<O>(s: System<O>, step: Step<O>)
    requires Next(s, step).Some? && (s.queue != [] ==> s.queue[0] !in s.inFlight)
    ensures
      var next := Next(s, step).value;
      Remaining(next) + (if IsOwn(step) then 1 else 0) == Remaining(s) + 3 * (next.sent - s.sent)
  {
    match step
    case Accept => AcceptIsAccountedFor(s);
    case Execute(id, outcome) => ExecutedIsPending(s.inFlight, id, outcome);
    case Answer(id) => AnsweredIsNotPending(s.inFlight, id);
    case _ =>
  }

  /** The actor's own steps and those that remain to be made are three for each
      request ever sent and two more: it can make no others, and when it has
      returned it has made them all. */
  lemma {:induction false} ThreeStepsPerRequest<O>(steps: seq<Step<O>>)
    requires After(steps).Some?
    ensures OwnSteps(steps) + Remaining(After(steps).value) == 3 * After(steps).value.sent + 2
    ensures After(steps).value.phase.Stopped? ==> OwnSteps(steps) == 3 * After(steps).value.sent + 2
  {
    EveryStateIsSound(steps);
    if steps == [] {
      assert Unexecuted(After(steps).value.inFlight) == {};
    } else {
      var init := steps[..|steps| - 1];
      EveryStateIsSound(init);
      ThreeStepsPerRequest(init);
      if After(init).value.queue != [] {
        QueuedIsNotInFlight(After(init).value);
      }
      StepsAreAccountedFor(After(init).value, steps[|steps| - 1]);
    }
    if After(steps).value.phase.Stopped? {
      assert Unexecuted(After(steps).value.inFlight) == {};
    }
  }

  /** No more than eight requests ever wait in the channel. */
  lemma {:induction false} EightWaitAtMost<O>(steps: seq<Step<O>>)
    requires After(steps).Some?
    ensures |After(steps).value.queue| <= 8
  {
    if steps != [] {
      EightWaitAtMost(steps[..|steps| - 1]);
    }
  }
}

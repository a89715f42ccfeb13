/** When the monitor visits a node (`server/src/monitor.rs`), among everything that
    happens to subscriptions meanwhile. */
module Monitor {
  import opened Subscriptions
  import opened Wrappers

  /** How often a reachable node, and one that does not answer, is visited. */
  datatype Config = Config(interval: nat, offlineInterval: nat)

  /** A node as the pass finds it in the store. */
  datatype StoredNode = StoredNode(id: nat, available: bool, isTest: bool)

  /** What happens, in one order: to subscriptions, and by the monitor. */
  datatype Event =
    | Heard(happening: Happening)
    | Visited(node: StoredNode, at: nat)
    | PassEnded(stored: set<nat>)

  function IntervalFor(config: Config, node: StoredNode): nat
  {
    if node.available then config.interval else config.offlineInterval
  }

  // ----- times -----

  function TimeOf(event: Event): Option<nat>
  {
    match event
    case Heard(Established(_, _, _, at)) => Some(at)
    case Heard(Reported(_, at)) => Some(at)
    case Visited(_, at) => Some(at)
    case _ => None
  }

  predicate NoLaterThan(log: seq<Event>, clock: nat)
  {
    forall i | 0 <= i < |log| && TimeOf(log[i]).Some? :: TimeOf(log[i]).value <= clock
  }

  predicate Nondecreasing(log: seq<Event>)
  {
    forall i, j | 0 <= i < j < |log| && TimeOf(log[i]).Some? && TimeOf(log[j]).Some? ::
      TimeOf(log[i]).value <= TimeOf(log[j]).value
  }

  // ----- visits are spaced -----

  /** The last visit to a node, after one more event. */
  function Remembered(before: Option<nat>, event: Event, id: nat): Option<nat>
  {
    match event
    case Heard(_) => before
    case Visited(node, at) => if node.id == id then Some(at) else before
    case PassEnded(stored) => if id in stored then before else None
  }

  /** When a node was last visited, unless it has left the store since. */
  function LastVisit(log: seq<Event>, id: nat): Option<nat>
  {
    if log == [] then None else Remembered(LastVisit(log[..|log| - 1], id), log[|log| - 1], id)
  }

  lemma LastVisitOneMore(log: seq<Event>, event: Event, id: nat)
    ensures LastVisit(log + [event], id) == Remembered(LastVisit(log, id), event, id)
  {
    assert (log + [event])[..|log|] == log;
  }

  /** The node was in the store whenever a pass ended between the two points. */
  predicate StaysStored(log: seq<Event>, id: nat, from: nat, to: nat)
    requires to <= |log|
  {
    forall k | from < k < to && log[k].PassEnded? :: id in log[k].stored
  }

  lemma {:induction false} VisitIsRemembered(log: seq<Event>, i: nat)
    requires i < |log| && log[i].Visited? && Nondecreasing(log) && StaysStored(log, log[i].node.id, i, |log|)
    ensures LastVisit(log, log[i].node.id).Some? && LastVisit(log, log[i].node.id).value >= log[i].at
    decreases |log|
  {
    var n := |log| - 1;
    if i < n {
      var init := log[..n];
      assert StaysStored(init, log[i].node.id, i, n);
      VisitIsRemembered(init, i);
    }
  }

  /** Visits to a node that stays stored are an interval apart: the one for the
      availability it has at the later visit. */
  ghost predicate Spaced(config: Config, log: seq<Event>)
  {
    forall i, j | 0 <= i < j < |log| && log[i].Visited? && log[j].Visited? ::
      log[i].node.id == log[j].node.id && StaysStored(log, log[i].node.id, i, j) ==>
        log[j].at - log[i].at >= IntervalFor(config, log[j].node)
  }

  lemma StayedStored(log: seq<Event>, event: Event, id: nat, from: nat, to: nat)
    requires to <= |log| && StaysStored(log + [event], id, from, to)
    ensures StaysStored(log, id, from, to)
  {
    forall k | from < k < to && log[k].PassEnded? ensures id in log[k].stored {
      assert (log + [event])[k] == log[k];
    }
  }

  /** A visit that is due keeps any two visits to a node that stays stored apart:
      over any number of passes none comes too soon. */
  lemma SpacedOneMore(config: Config, log: seq<Event>, event: Event)
    requires Spaced(config, log) && Nondecreasing(log)
    requires event.Visited? ==>
      var last := LastVisit(log, event.node.id);
      last.Some? ==> event.at - last.value >= IntervalFor(config, event.node)
    ensures Spaced(config, log + [event])
  {
    var more := log + [event];
    forall i, j | 0 <= i < j < |more| && more[i].Visited? && more[j].Visited?
                  && more[i].node.id == more[j].node.id && StaysStored(more, more[i].node.id, i, j)
      ensures more[j].at - more[i].at >= IntervalFor(config, more[j].node)
    {
      StayedStored(log, event, more[i].node.id, i, j);
      if j == |log| {
        VisitIsRemembered(log, i);
      }
    }
  }

  /** In numbers: two visits to a node that stays stored are at least the interval
      apart if it is available at the later one, and the offline interval if not. */
  lemma VisitsKeepTheirInterval(config: Config, log: seq<Event>, i: nat, j: nat)
    requires Spaced(config, log) && i < j < |log| && log[i].Visited? && log[j].Visited?
    requires log[i].node.id == log[j].node.id && StaysStored(log, log[i].node.id, i, j)
    ensures log[j].node.available ==> log[j].at >= log[i].at + config.interval
    ensures !log[j].node.available ==> log[j].at >= log[i].at + config.offlineInterval
  {
  }

  // ----- no node is visited while it reports -----

  /** What the log says about subscriptions. */
  function Told(log: seq<Event>): seq<Happening>
  {
    if log == [] then []
    else
      var before, last := Told(log[..|log| - 1]), log[|log| - 1];
      if last.Heard? then before + [last.happening] else before
  }

  lemma ToldOneMore(log: seq<Event>, event: Event)
    ensures Told(log + [event]) == if event.Heard? then Told(log) + [event.happening] else Told(log)
  {
    assert (log + [event])[..|log|] == log;
  }

  /** There is no subscription, or it has been silent for twice its interval. */
  predicate Silent(entry: Option<Entry>, now: nat)
  {
    entry.None? || !Live(entry.value, now)
  }

  /** Whenever the monitor visited a node, there was a device behind it, and it was
      not reporting. */
  ghost predicate OnlySilentVisited(log: seq<Event>)
  {
    forall i | 0 <= i < |log| && log[i].Visited? ::
      !log[i].node.isTest && Silent(EntryAfter(Told(log[..i]), log[i].node.id), log[i].at)
  }

  lemma OnlySilentOneMore(log: seq<Event>, event: Event)
    requires OnlySilentVisited(log)
    requires event.Visited? ==> !event.node.isTest && Silent(EntryAfter(Told(log), event.node.id), event.at)
    ensures OnlySilentVisited(log + [event])
  {
    var more := log + [event];
    forall i | 0 <= i < |more| && more[i].Visited?
      ensures !more[i].node.isTest && Silent(EntryAfter(Told(more[..i]), more[i].node.id), more[i].at)
    {
      assert more[..i] == log[..i];
      assert log[..|log|] == log;
    }
  }

  /** From a sign of life on, and until the subscription is replaced or forgotten,
      its entry is there and is no older. */
  lemma {:induction false} SignOfLifeLasts(log: seq<Event>, start: nat, sign: nat, end: nat, node: nat)
    requires start <= sign < end <= |log| && Nondecreasing(log)
    requires log[start].Heard? && log[start].happening.Established? && log[start].happening.node == node
    requires log[sign].Heard? && log[sign].happening.node == node && TimeOf(log[sign]).Some?
    requires forall k | start < k < end && log[k].Heard? && log[k].happening.node == node :: log[k].happening.Reported?
    ensures
      var entry := EntryAfter(Told(log[..end]), node);
      && entry.Some? && entry.value.maxInterval == log[start].happening.maxInterval
      && TimeOf(log[sign]).value <= entry.value.lastReport
    decreases end
  {
    var last := end - 1;
    assert log[..end] == log[..last] + [log[last]];
    ToldOneMore(log[..last], log[last]);
    if log[last].Heard? {
      EntryAfterOneMore(Told(log[..last]), log[last].happening, node);
    }
    if start < last {
      SignOfLifeLasts(log, start, if sign < last then sign else start, last, node);
    }
  }

  /** After a subscription is established there is no visit to its node for twice
      its interval, counted from any sign of life since, unless it is forgotten or
      replaced. */
  lemma NoVisitWhileReporting(log: seq<Event>, start: nat, sign: nat, visit: nat)
    requires start <= sign < visit < |log| && Nondecreasing(log) && OnlySilentVisited(log)
    requires log[start].Heard? && log[start].happening.Established? && log[visit].Visited?
    requires log[sign].Heard? && TimeOf(log[sign]).Some?
    requires log[visit].node.id == log[start].happening.node == log[sign].happening.node
    requires forall k | start < k < visit && log[k].Heard? && log[k].happening.node == log[visit].node.id ::
      log[k].happening.Reported?
    ensures log[visit].at >= TimeOf(log[sign]).value + 2 * log[start].happening.maxInterval
  {
    SignOfLifeLasts(log, start, sign, visit, log[visit].node.id);
  }

  /** The node's subscription has been silent for twice its interval. */
  predicate GoneSilent(log: seq<Event>, node: nat, now: nat)
  {
    var entry := EntryAfter(Told(log), node);
    entry.Some? && !Live(entry.value, now)
  }

  /** An id stands exactly if the node's entry has it. */
  lemma JudgedByItsEntry(history: seq<Happening>, node: nat, under: Option<nat>)
    ensures
      under.Some? && (exists i :: Standing(history, node, under.value, i))
      <==> EntryAfter(history, node).Some? && under == Some(EntryAfter(history, node).value.id)
  {
    if under.Some? {
      LastEstablishedCounts(history, node, under.value);
    }
  }

  // ----- all of it at once -----

  ghost predicate Orderly(config: Config, log: seq<Event>, clock: nat)
  {
    NoLaterThan(log, clock) && Nondecreasing(log) && Spaced(config, log) && OnlySilentVisited(log)
  }

  /** What the monitor remembers is what happened. */
  ghost predicate Agrees(log: seq<Event>, lastPolled: map<nat, nat>)
  {
    forall id :: LastVisit(log, id) == if id in lastPolled then Some(lastPolled[id]) else None
  }

  predicate IsDue(config: Config, lastPolled: map<nat, nat>, node: StoredNode, now: nat)
  {
    node.id !in lastPolled || now - lastPolled[node.id] >= IntervalFor(config, node)
  }

  lemma OrderlyOneMore(config: Config, log: seq<Event>, clock: nat, event: Event, now: nat)
    requires Orderly(config, log, clock) && clock <= now
    requires TimeOf(event).Some? ==> TimeOf(event).value == now
    requires event.Visited? ==>
      var last := LastVisit(log, event.node.id);
      && (last.Some? ==> now - last.value >= IntervalFor(config, event.node))
      && !event.node.isTest && Silent(EntryAfter(Told(log), event.node.id), now)
    ensures Orderly(config, log + [event], now)
  {
    SpacedOneMore(config, log, event);
    OnlySilentOneMore(log, event);
    TimesOneMore(log, clock, event, now);
  }

  lemma TimesOneMore(log: seq<Event>, clock: nat, event: Event, now: nat)
    requires NoLaterThan(log, clock) && Nondecreasing(log) && clock <= now
    requires TimeOf(event).Some? ==> TimeOf(event).value == now
    ensures NoLaterThan(log + [event], now) && Nondecreasing(log + [event])
  {
  }

  lemma AgreesAfterVisit(log: seq<Event>, lastPolled: map<nat, nat>, node: StoredNode, now: nat)
    requires Agrees(log, lastPolled)
    ensures Agrees(log + [Visited(node, now)], lastPolled[node.id := now])
  {
    forall id {
      LastVisitOneMore(log, Visited(node, now), id);
    }
  }

  lemma AgreesAfterPass(log: seq<Event>, lastPolled: map<nat, nat>, stored: set<nat>)
    requires Agrees(log, lastPolled)
    ensures Agrees(log + [PassEnded(stored)], map id | id in lastPolled && id in stored :: lastPolled[id])
  {
    forall id {
      LastVisitOneMore(log, PassEnded(stored), id);
    }
  }

  lemma AgreesAfterHearing(log: seq<Event>, lastPolled: map<nat, nat>, happening: Happening)
    requires Agrees(log, lastPolled)
    ensures Agrees(log + [Heard(happening)], lastPolled)
  {
    forall id {
      LastVisitOneMore(log, Heard(happening), id);
    }
  }

  function AllHeard(happenings: seq<Happening>): seq<Event>
  {
    seq(|happenings|, i requires 0 <= i < |happenings| => Heard(happenings[i]))
  }

  lemma VisitKeeps(config: Config, log: seq<Event>, now: nat, lastPolled: map<nat, nat>, node: StoredNode)
    requires Orderly(config, log, now) && Agrees(log, lastPolled) && IsDue(config, lastPolled, node, now)
    requires !node.isTest && Silent(EntryAfter(Told(log), node.id), now)
    ensures
      var more := log + [Visited(node, now)];
      Orderly(config, more, now) && Agrees(more, lastPolled[node.id := now]) && Told(more) == Told(log)
  {
    assert LastVisit(log, node.id) == if node.id in lastPolled then Some(lastPolled[node.id]) else None;
    OrderlyOneMore(config, log, now, Visited(node, now), now);
    AgreesAfterVisit(log, lastPolled, node, now);
    ToldOneMore(log, Visited(node, now));
  }

  lemma AllHeardOneMore(nodes: seq<nat>)
    requires nodes != []
    ensures
      var init, last := nodes[..|nodes| - 1], nodes[|nodes| - 1];
      && AllForgotten(nodes) == AllForgotten(init) + [Forgotten(last)]
      && AllHeard(AllForgotten(nodes)) == AllHeard(AllForgotten(init)) + [Heard(Forgotten(last))]
  {
  }

  lemma ForgottenOneMore(config: Config, log: seq<Event>, clock: nat, lastPolled: map<nat, nat>, node: nat)
    requires Orderly(config, log, clock) && Agrees(log, lastPolled)
    ensures
      var more := log + [Heard(Forgotten(node))];
      && Orderly(config, more, clock) && Agrees(more, lastPolled)
      && Told(more) == Told(log) + [Forgotten(node)]
  {
    OrderlyOneMore(config, log, clock, Heard(Forgotten(node)), clock);
    AgreesAfterHearing(log, lastPolled, Forgotten(node));
    ToldOneMore(log, Heard(Forgotten(node)));
  }

  /** Forgetting any number of subscriptions at once. */
  lemma {:induction false} ForgettingKeeps(
    config: Config, log: seq<Event>, clock: nat, lastPolled: map<nat, nat>, nodes: seq<nat>)
    requires Orderly(config, log, clock) && Agrees(log, lastPolled)
    ensures
      var more := log + AllHeard(AllForgotten(nodes));
      && Orderly(config, more, clock) && Agrees(more, lastPolled)
      && Told(more) == Told(log) + AllForgotten(nodes)
  {
    if nodes == [] {
      assert log + AllHeard(AllForgotten(nodes)) == log;
    } else {
      var init, last := nodes[..|nodes| - 1], nodes[|nodes| - 1];
      ForgettingKeeps(config, log, clock, lastPolled, init);
      var before := log + AllHeard(AllForgotten(init));
      ForgottenOneMore(config, before, clock, lastPolled, last);
      AllHeardOneMore(nodes);
      assert log + AllHeard(AllForgotten(nodes)) == before + [Heard(Forgotten(last))];
    }
  }

  // ----- the monitor -----

  /** What others do to subscriptions: the device confirms one, reports on one, or
      one is torn down. */
  datatype Doing =
    | Establish(node: nat, id: nat, maxInterval: nat)
    | Report(node: nat, under: Option<nat>)
    | Forget(node: nat)

  /** What comes next during a pass: something elsewhere, or a look at the next
      node. */
  datatype Turn = Elsewhere(doing: Doing, at: nat) | Look(at: nat)

  predicate TimePasses(turns: seq<Turn>, start: nat)
  {
    && (forall t | t in turns :: start <= t.at)
    && forall i, j | 0 <= i < j < |turns| :: turns[i].at <= turns[j].at
  }

  function Looks(turns: seq<Turn>): nat
  {
    if turns == [] then 0 else Looks(turns[..|turns| - 1]) + if turns[|turns| - 1].Look? then 1 else 0
  }

  lemma {:induction false} LooksGrow(turns: seq<Turn>, i: nat)
    requires i <= |turns|
    ensures Looks(turns[..i]) <= Looks(turns)
    decreases |turns| - i
  {
    if i < |turns| {
      assert turns[..i + 1][..i] == turns[..i];
      LooksGrow(turns, i + 1);
    } else {
      assert turns[..i] == turns;
    }
  }

  /** What something elsewhere adds to the log; a report is judged by the
      subscription its node has then. */
  function Noted(log: seq<Event>, doing: Doing, now: nat): seq<Event>
  {
    match doing
    case Establish(node, id, maxInterval) => [Heard(Established(node, id, maxInterval, now))]
    case Report(node, under) =>
      var entry := EntryAfter(Told(log), node);
      if entry.Some? && under == Some(entry.value.id) then [Heard(Reported(node, now))] else []
    case Forget(node) => [Heard(Forgotten(node))]
  }

  /** Whether enough time has passed since the last visit. */
  predicate DueBy(config: Config, log: seq<Event>, node: StoredNode, now: nat)
  {
    var last := LastVisit(log, node.id);
    last.Some? ==> now - last.value >= IntervalFor(config, node)
  }

  /** What a look at a node adds: a visit, if there is a device that is not
      reporting and has not been visited lately. */
  function Looked(config: Config, log: seq<Event>, node: StoredNode, now: nat): seq<Event>
  {
    if !node.isTest && Silent(EntryAfter(Told(log), node.id), now) && DueBy(config, log, node, now)
    then [Visited(node, now)]
    else []
  }

  /** What a turn adds; a look is at the node whose turn it is. */
  function Added(config: Config, log: seq<Event>, nodes: seq<StoredNode>, next: nat, turn: Turn): seq<Event>
    requires turn.Look? ==> next < |nodes|
  {
    match turn
    case Elsewhere(doing, at) => Noted(log, doing, at)
    case Look(at) => Looked(config, log, nodes[next], at)
  }

  /** The log after the turns of a pass over some nodes, each in its order. */
  function LogAfter(config: Config, log: seq<Event>, nodes: seq<StoredNode>, turns: seq<Turn>): seq<Event>
    requires Looks(turns) <= |nodes|
  {
    if turns == [] then log
    else
      var n := |turns| - 1;
      var sofar := LogAfter(config, log, nodes, turns[..n]);
      sofar + Added(config, sofar, nodes, Looks(turns[..n]), turns[n])
  }

  lemma LogOneMore(config: Config, log: seq<Event>, nodes: seq<StoredNode>, turns: seq<Turn>, i: nat)
    requires Looks(turns) <= |nodes| && i < |turns|
    ensures Looks(turns[..i + 1]) == Looks(turns[..i]) + (if turns[i].Look? then 1 else 0) <= |nodes|
    ensures
      var sofar := LogAfter(config, log, nodes, turns[..i]);
      LogAfter(config, log, nodes, turns[..i + 1])
      == sofar + Added(config, sofar, nodes, Looks(turns[..i]), turns[i])
  {
    assert turns[..i + 1][..i] == turns[..i];
    LooksGrow(turns, i + 1);
  }

  /** What a pass has noted stays in the log. */
  lemma {:induction false} LogGrows(
    config: Config, log: seq<Event>, nodes: seq<StoredNode>, turns: seq<Turn>, i: nat)
    requires Looks(turns) <= |nodes| && i <= |turns|
    ensures Looks(turns[..i]) <= |nodes|
    ensures log <= LogAfter(config, log, nodes, turns[..i]) <= LogAfter(config, log, nodes, turns)
  {
    LooksGrow(turns, i);
    if i < |turns| {
      var init := turns[..|turns| - 1];
      assert init[..i] == turns[..i];
      LogGrows(config, log, nodes, init, i);
    } else {
      assert turns[..i] == turns;
      if turns != [] {
        LogGrows(config, log, nodes, turns[..i - 1], 0);
      }
    }
  }

  /** What a turn of a pass adds stands in the log from then on, right where the
      turns before it ended. */
  lemma TurnIsLogged(config: Config, log: seq<Event>, nodes: seq<StoredNode>, turns: seq<Turn>, i: nat)
    requires Looks(turns) <= |nodes| && i < |turns|
    ensures Looks(turns[..i]) <= |nodes| && (turns[i].Look? ==> Looks(turns[..i]) < |nodes|)
    ensures
      var sofar := LogAfter(config, log, nodes, turns[..i]);
      sofar + Added(config, sofar, nodes, Looks(turns[..i]), turns[i]) <= LogAfter(config, log, nodes, turns)
  {
    LogOneMore(config, log, nodes, turns, i);
    LogGrows(config, log, nodes, turns, i + 1);
  }

  class Monitor {
    const config: Config
    const registry: Registry
    var lastPolled: map<nat, nat>
    ghost var log: seq<Event>
    ghost var clock: nat

    ghost predicate Valid()
      reads this, registry
    {
      && registry.Valid() && registry.history == Told(log)
      && Agrees(log, lastPolled) && Orderly(config, log, clock)
    }

    constructor (config: Config, registry: Registry)
      requires registry.Valid() && registry.history == []
      ensures Valid() && log == [] && this.config == config && this.registry == registry
    {
      this.config, this.registry := config, registry;
      lastPolled := map[];
      log, clock := [], 0;
    }

    ghost method Hear(happening: Happening, now: nat)
      requires Agrees(log, lastPolled) && Orderly(config, log, clock) && clock <= now
      requires TimeOf(Heard(happening)).Some? ==> TimeOf(Heard(happening)).value == now
      modifies this`log, this`clock
      ensures log == old(log) + [Heard(happening)] && clock == now && Told(log) == old(Told(log)) + [happening]
      ensures Agrees(log, lastPolled) && Orderly(config, log, clock)
    {
      OrderlyOneMore(config, log, clock, Heard(happening), now);
      AgreesAfterHearing(log, lastPolled, happening);
      ToldOneMore(log, Heard(happening));
      log, clock := log + [Heard(happening)], now;
    }

    /** Something that happens to a subscription meanwhile; a report counts only
        if it is accepted. */
    method Meanwhile(doing: Doing, now: nat)
      requires Valid() && clock <= now
      modifies this`log, this`clock, registry
      ensures Valid() && clock == now && log == old(log) + Noted(old(log), doing, now)
    {
      match doing
      case Establish(node, id, maxInterval) =>
        registry.Establish(node, id, maxInterval, now);
        Hear(Established(node, id, maxInterval, now), now);
      case Report(node, under) =>
        var verdict := registry.Judge(node, under);
        JudgedByItsEntry(registry.history, node, under);
        clock := now;
        if verdict == Accept {
          registry.NoteReport(node, now);
          Hear(Reported(node, now), now);
        }
      case Forget(node) =>
        registry.Forget(node);
        Hear(Forgotten(node), now);
    }

    /** The start of a pass drops what has gone silent; what is left is live. */
    method Sweep(now: nat) returns (silent: seq<nat>)
      requires Valid() && clock <= now
      modifies this`log, this`clock, registry
      ensures Valid() && clock == now && log == old(log) + AllHeard(AllForgotten(silent))
      ensures forall node :: node in silent <==> GoneSilent(old(log), node, now)
      ensures forall node | node in registry.entries :: registry.IsLive(node, now)
      ensures forall node :: node in registry.entries <==> old(registry.IsLive(node, now))
    {
      silent := registry.ForgetSilent(now);
      clock := now;
      ForgettingKeeps(config, log, now, lastPolled, silent);
      log := log + AllHeard(AllForgotten(silent));
    }

    /** One node's turn in a pass; what a visit does comes afterwards. */
    method Consider(node: StoredNode, now: nat) returns (visit: bool)
      requires Valid() && clock <= now
      modifies this`lastPolled, this`log, this`clock
      ensures Valid() && clock == now
      ensures visit <==> !node.isTest && !registry.IsLive(node.id, now) && IsDue(config, old(lastPolled), node, now)
      ensures log == old(log) + Looked(config, old(log), node, now)
      ensures visit <==> Looked(config, old(log), node, now) != []
      ensures !node.isTest && !registry.IsLive(node.id, now) ==>
        (visit <==> node.id !in old(lastPolled)
                    || (node.available && now >= old(lastPolled)[node.id] + config.interval)
                    || (!node.available && now >= old(lastPolled)[node.id] + config.offlineInterval))
    {
      clock := now;
      if node.isTest {
        return false;
      }
      if registry.IsLive(node.id, now) {
        return false;
      }
      var due := node.id !in lastPolled || now - lastPolled[node.id] >= IntervalFor(config, node);
      if !due {
        return false;
      }
      Visit(node, now);
      return true;
    }

    method Visit(node: StoredNode, now: nat)
      requires Valid() && clock == now && IsDue(config, lastPolled, node, now)
      requires !node.isTest && !registry.IsLive(node.id, now)
      modifies this`lastPolled, this`log
      ensures Valid() && log == old(log) + [Visited(node, now)]
    {
      VisitKeeps(config, log, now, lastPolled, node);
      lastPolled := lastPolled[node.id := now];
      log := log + [Visited(node, now)];
    }

    /** The end of a pass forgets nodes that are gone. */
    method EndPass(stored: set<nat>)
      requires Valid()
      modifies this`lastPolled, this`log
      ensures Valid() && log == old(log) + [PassEnded(stored)]
      ensures lastPolled == map id | id in old(lastPolled) && id in stored :: old(lastPolled)[id]
    {
      OrderlyOneMore(config, log, clock, PassEnded(stored), clock);
      AgreesAfterPass(log, lastPolled, stored);
      ToldOneMore(log, PassEnded(stored));
      lastPolled := map id | id in lastPolled && id in stored :: lastPolled[id];
      log := log + [PassEnded(stored)];
    }

    /** One pass of `run` over the nodes as they were when it began, with whatever
        happens between its looks. */
    method Pass(nodes: seq<StoredNode>, turns: seq<Turn>, start: nat, stored: set<nat>) returns (silent: seq<nat>)
      requires Valid() && clock <= start && TimePasses(turns, start) && Looks(turns) == |nodes|
      modifies this`lastPolled, this`log, this`clock, registry
      ensures Valid() && lastPolled.Keys <= stored
      ensures forall node :: node in silent <==> GoneSilent(old(log), node, start)
      ensures log
        == LogAfter(config, old(log) + AllHeard(AllForgotten(silent)), nodes, turns) + [PassEnded(stored)]
    {
      silent := Sweep(start);
      ghost var swept := log;
      var next := 0;
      for i := 0 to |turns|
        invariant Valid()
        invariant next == Looks(turns[..i]) <= |nodes| && log == LogAfter(config, swept, nodes, turns[..i])
        invariant forall j | i <= j < |turns| :: clock <= turns[j].at
      {
        LogOneMore(config, swept, nodes, turns, i);
        Take(nodes, next, turns[i]);
        next := if turns[i].Look? then next + 1 else next;
      }
      assert turns[..|turns|] == turns;
      EndPass(stored);
    }

    method Take(nodes: seq<StoredNode>, next: nat, turn: Turn)
      requires Valid() && clock <= turn.at && (turn.Look? ==> next < |nodes|)
      modifies this`lastPolled, this`log, this`clock, registry
      ensures Valid() && clock == turn.at && log == old(log) + Added(config, old(log), nodes, next, turn)
    {
      match turn
      case Elsewhere(doing, at) => Meanwhile(doing, at);
      case Look(at) =>
        var visit := Consider(nodes[next], at);
    }
  }
}

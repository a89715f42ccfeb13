/** The topology watcher against everybody who changes the store
    (`server/src/api/network.rs`), in every interleaving. */
module Watcher {
  import opened EventBus
  import opened Topology
  import opened TopologyBuild
  import opened TopologyTheorems
  import opened Wrappers

  type Store = seq<MatterNode>

  /** The part of the graph that clients are told about when it changes. */
  datatype Shape = Shape(nodes: seq<GraphNode>, connections: seq<Connection>)

  function ShapeOf(store: Store): Shape
  {
    Shape(Gathered(Introduced(store)), AllDrawn(Reported(store)))
  }

  /** How the watcher sees the store; `ShapeOf` is the way it does. */
  type View = Store -> Shape

  datatype Event = NodeEvent | TopologyUpdated(shape: Shape) | OtherEvent

  datatype Phase = Waiting | Draining | Reading | Comparing(shape: Shape) | Announcing(shape: Shape) | Stopped

  /** `owed` counts the changes whose node event is still to come, `seen` is the
      store as the watcher last read it, `quiet` says that a change without any
      event came after that, and `announced` is every shape clients were sent. */
  datatype System = System(
    store: Store, seen: Store, quiet: bool, changed: bool, owed: nat, feed: Feed<Event>, phase: Phase,
    published: Option<Shape>, announced: seq<Shape>)

  predicate Initial(s: System)
  {
    && !s.quiet && !s.changed && s.owed == 0
    && s.feed == Feed([], true) && s.phase == Waiting && s.published == None && s.announced == []
  }

  datatype Step =
    /** Somebody changes the store, and owes an event for it. */
    | Change(store: Store)
    /** A refresh on request writes what it read and sends no event. */
    | QuietChange(store: Store)
    /** A node event, for any number of the changes before it. */
    | AnnounceNode(covers: nat)
    | AnnounceOther
    | WatcherMoves

  /** `EventBus::publish`, as far as the watcher's feed goes. */
  function Publish(s: System, event: Event): System
  {
    s.(feed := Offered(s.feed, !s.phase.Stopped?, event))
  }

  function WatcherStep(view: View, s: System): Option<System>
  {
    var queue := s.feed.queue;
    match s.phase
    case Waiting =>
      if queue != [] then
        Some(s.(feed := s.feed.(queue := queue[1..]), phase := if queue[0].NodeEvent? then Draining else Waiting))
      else if s.feed.open then None
      else Some(s.(phase := Stopped))
    case Draining =>
      if queue != [] then Some(s.(feed := s.feed.(queue := queue[1..]))) else Some(s.(phase := Reading))
    case Reading => Some(s.(seen := s.store, quiet := false, phase := Comparing(view(s.store))))
    case Comparing(shape) =>
      if s.published == Some(shape) then Some(s.(phase := Waiting))
      else Some(s.(published := Some(shape), phase := Announcing(shape)))
    case Announcing(shape) =>
      Some(Publish(s, TopologyUpdated(shape)).(phase := Waiting, announced := s.announced + [shape]))
    case Stopped => None
  }

  function Next(view: View, s: System, step: Step): Option<System>
  {
    match step
    case Change(store) => Some(s.(store := store, changed := true, owed := s.owed + 1))
    case QuietChange(store) => Some(s.(store := store, quiet := true))
    case AnnounceNode(covers) =>
      if covers <= s.owed then Some(Publish(s, NodeEvent).(owed := s.owed - covers)) else None
    case AnnounceOther => Some(Publish(s, OtherEvent))
    case WatcherMoves => WatcherStep(view, s)
  }

  /** The state after some steps, where each was possible in its turn. */
  function After(view: View, start: System, steps: seq<Step>): Option<System>
  {
    if steps == [] then Some(start)
    else
      var s :- After(view, start, steps[..|steps| - 1]);
      Next(view, s, steps[|steps| - 1])
  }

  // ----- what every step keeps -----

  /** What the watcher compares, and what it published, is the store it last read. */
  predicate ShowsWhatWasSeen(view: View, s: System)
  {
    match s.phase
    case Comparing(shape) => shape == view(s.seen)
    case Announcing(shape) => shape == view(s.seen)
    case _ => s.published.Some? ==> s.published.value == view(s.seen)
  }

  /** What the watcher saw is the store as it is, but for quiet changes since. */
  predicate UpToDate(s: System)
  {
    match s.phase
    case Waiting => s.changed ==> s.published.Some? && (s.quiet || s.seen == s.store)
    case Comparing(_) => s.quiet || s.seen == s.store
    case Announcing(_) => s.quiet || s.seen == s.store
    case _ => true
  }

  /** While its feed is open the watcher is up to date, or a node event that will
      make it look again is owed or queued. */
  predicate WillCatchUp(s: System)
  {
    s.feed.open ==> s.owed > 0 || NodeEvent in s.feed.queue || UpToDate(s)
  }

  /** Consecutive announcements differ, and the watcher remembers the last. */
  predicate NeverRepeats(s: System)
  {
    && (forall i | 0 < i < |s.announced| :: s.announced[i] != s.announced[i - 1])
    && if s.phase.Announcing? then
         s.published == Some(s.phase.shape) && (s.announced != [] ==> s.announced[|s.announced| - 1] != s.phase.shape)
       else
         s.published == if s.announced == [] then None else Some(s.announced[|s.announced| - 1])
  }

  predicate Sound(view: View, s: System)
  {
    && ShowsWhatWasSeen(view, s) && WillCatchUp(s) && NeverRepeats(s)
    && |s.feed.queue| <= CAPACITY
    && (s.phase.Stopped? ==> !s.feed.open)
    && (s.changed || s.owed == 0)
  }

  lemma QueueKeepsNodeEvent(queue: seq<Event>)
    requires NodeEvent in queue && queue[0] != NodeEvent
    ensures NodeEvent in queue[1..]
  {
    assert queue == [queue[0]] + queue[1..];
  }

  lemma PublishingKeepsSound(view: View, s: System, event: Event)
    requires Sound(view, s)
    ensures Sound(view, Publish(s, event))
    ensures Publish(s, event).feed.open && event == NodeEvent ==> NodeEvent in Publish(s, event).feed.queue
  {
  }

  lemma WatcherKeepsSound(view: View, s: System)
    requires Sound(view, s) && WatcherStep(view, s).Some?
    ensures Sound(view, WatcherStep(view, s).value)
  {
    if s.phase.Waiting? {
      WaitingKeepsSound(view, s);
    } else if s.phase.Draining? {
      DrainingKeepsSound(view, s);
    } else if s.phase.Reading? {
      ReadingKeepsSound(view, s);
    } else if s.phase.Comparing? {
      ComparingKeepsSound(view, s);
    } else {
      AnnouncingKeepsSound(view, s);
    }
  }

  lemma DrainingKeepsSound(view: View, s: System)
    requires Sound(view, s) && s.phase.Draining?
    ensures Sound(view, WatcherStep(view, s).value)
  {
  }

  lemma ReadingKeepsSound(view: View, s: System)
    requires Sound(view, s) && s.phase.Reading?
    ensures Sound(view, WatcherStep(view, s).value)
  {
  }

  lemma ComparingKeepsSound(view: View, s: System)
    requires Sound(view, s) && s.phase.Comparing?
    ensures Sound(view, WatcherStep(view, s).value)
  {
  }

  lemma WaitingKeepsSound(view: View, s: System)
    requires Sound(view, s) && s.phase.Waiting? && WatcherStep(view, s).Some?
    ensures Sound(view, WatcherStep(view, s).value)
  {
    if s.feed.queue != [] && !s.feed.queue[0].NodeEvent? && NodeEvent in s.feed.queue {
      QueueKeepsNodeEvent(s.feed.queue);
    }
  }

  lemma AnnouncingKeepsSound(view: View, s: System)
    requires Sound(view, s) && s.phase.Announcing?
    ensures Sound(view, WatcherStep(view, s).value)
  {
    var queue := s.feed.queue;
    assert NodeEvent in queue ==> NodeEvent in queue + [TopologyUpdated(s.phase.shape)];
  }

  lemma StepKeepsSound(view: View, s: System, step: Step)
    requires Sound(view, s) && Next(view, s, step).Some?
    ensures Sound(view, Next(view, s, step).value)
  {
    match step
    case Change(_) =>
    case QuietChange(_) =>
    case AnnounceNode(_) => PublishingKeepsSound(view, s, NodeEvent);
    case AnnounceOther => PublishingKeepsSound(view, s, OtherEvent);
    case WatcherMoves => WatcherKeepsSound(view, s);
  }

  lemma {:induction false} EveryStateIsSound(view: View, start: System, steps: seq<Step>)
    requires Initial(start) && After(view, start, steps).Some?
    ensures Sound(view, After(view, start, steps).value)
  {
    if steps != [] {
      EveryStateIsSound(view, start, steps[..|steps| - 1]);
      StepKeepsSound(view, After(view, start, steps[..|steps| - 1]).value, steps[|steps| - 1]);
    }
  }

  predicate ShowsItsLastRead(view: View, s: System)
  {
    s.announced != [] && s.announced[|s.announced| - 1] == view(s.seen)
  }

  /** Nothing is queued, and no node event is owed, to a subscribed watcher that
      waits. */
  predicate Idle(s: System)
  {
    s.feed.open && s.phase.Waiting? && s.feed.queue == [] && s.owed == 0
  }

  lemma WaitingShowsItsLastRead(view: View, s: System)
    requires Sound(view, s) && s.phase.Waiting?
    ensures s.announced != [] ==> ShowsItsLastRead(view, s)
    ensures Idle(s) && s.changed ==> ShowsItsLastRead(view, s) && (s.quiet || s.seen == s.store)
  {
  }

  /** A waiting watcher, with or without a feed, has sent the shape of the store as
      it last read it. */
  lemma IdleWatcherShowsItsLastRead(start: System, steps: seq<Step>)
    requires Initial(start) && After(ShapeOf, start, steps).Some?
    ensures
      var s := After(ShapeOf, start, steps).value;
      s.phase.Waiting? && s.announced != [] ==> ShowsItsLastRead(ShapeOf, s)
  {
    EveryStateIsSound(ShapeOf, start, steps);
    var s := After(ShapeOf, start, steps).value;
    if s.phase.Waiting? {
      WaitingShowsItsLastRead(ShapeOf, s);
    }
  }

  /** While the watcher stays subscribed: idle with nothing queued, and every
      event sent that is owed, it has read the store since the last change but
      for quiet ones, and has sent what it read. */
  lemma IdleWatcherMatchesTheStore(start: System, steps: seq<Step>)
    requires Initial(start) && After(ShapeOf, start, steps).Some?
    ensures
      var s := After(ShapeOf, start, steps).value;
      Idle(s) && s.changed ==> ShowsItsLastRead(ShapeOf, s) && (s.quiet || s.seen == s.store)
  {
    EveryStateIsSound(ShapeOf, start, steps);
    var s := After(ShapeOf, start, steps).value;
    if s.phase.Waiting? {
      WaitingShowsItsLastRead(ShapeOf, s);
    }
  }

  /** A quiet change is not looked at before the next node event: an idle
      watcher stays idle, and what it sent is out of date exactly if the change
      shows in the shape. */
  lemma QuietChangeGoesUnseen(view: View, s: System, store: Store)
    requires Sound(view, s) && Idle(s) && s.announced != []
    ensures
      var quietly := Next(view, s, QuietChange(store));
      && quietly.Some?
      && WatcherStep(view, quietly.value).None?
      && quietly.value.announced != []
      && (quietly.value.announced[|quietly.value.announced| - 1] == view(quietly.value.store) <==>
          view(store) == view(s.seen))
  {
    WaitingShowsItsLastRead(view, s);
  }

  lemma AfterOneMore(view: View, start: System, steps: seq<Step>, step: Step)
    requires After(view, start, steps).Some?
    ensures After(view, start, steps + [step]) == Next(view, After(view, start, steps).value, step)
  {
    assert (steps + [step])[..|steps|] == steps;
  }

  function Moves(n: nat): seq<Step>
  {
    seq(n, _ => WatcherMoves)
  }

  /** The watcher on its own, for a number of moves. */
  function Alone(view: View, s: System, n: nat): Option<System>
    decreases n
  {
    if n == 0 then Some(s)
    else
      var next :- WatcherStep(view, s);
      Alone(view, next, n - 1)
  }

  lemma {:induction false} AfterMoves(view: View, start: System, steps: seq<Step>, n: nat)
    requires After(view, start, steps).Some? && Alone(view, After(view, start, steps).value, n).Some?
    ensures After(view, start, steps + Moves(n)) == Alone(view, After(view, start, steps).value, n)
    decreases n
  {
    if n == 0 {
      assert steps + Moves(0) == steps;
    } else {
      AfterOneMore(view, start, steps, WatcherMoves);
      AfterMoves(view, start, steps + [WatcherMoves], n - 1);
      assert steps + Moves(n) == steps + [WatcherMoves] + Moves(n - 1);
    }
  }

  /** Four moves from a node event to the shape it leads to, two more to its
      announcement and past it. */
  lemma OneRound(view: View, s: System)
    requires s.feed == Feed([NodeEvent], true) && s.phase.Waiting? && s.published.None?
    ensures Alone(view, s, 6) == Some(s.(
      seen := s.store, quiet := false, feed := Feed([], true), published := Some(view(s.store)),
      announced := s.announced + [view(s.store)]))
  {
    var shape := view(s.store);
    var drained := s.(feed := Feed([], true), phase := Draining);
    assert [NodeEvent][1..] == [];
    assert WatcherStep(view, s) == Some(drained);
    var compared := drained.(seen := s.store, quiet := false, phase := Comparing(shape));
    assert WatcherStep(view, drained.(phase := Reading)) == Some(compared);
    var sent := compared.(published := Some(shape), phase := Announcing(shape));
    assert Alone(view, compared, 3) == Alone(view, sent, 2);
    var heard := sent.(
      feed := Feed([TopologyUpdated(shape)], true), phase := Waiting, announced := s.announced + [shape]);
    assert [] + [TopologyUpdated(shape)] == [TopologyUpdated(shape)];
    assert WatcherStep(view, sent) == Some(heard);
    assert [TopologyUpdated(shape)][1..] == [];
    assert Alone(view, heard, 1) == Some(heard.(feed := Feed([], true)));
  }

  function StaleRun(first: Store, second: Store): seq<Step>
  {
    [Change(first), AnnounceNode(1)] + Moves(6) + [QuietChange(second)]
  }

  /** A watcher can be left with a graph that is out of date, and nothing to do:
      the store gets one shape by a change that is announced, and then another by
      a quiet one. */
  lemma IdleOnAnOldShape(view: View, start: System, first: Store, second: Store)
    requires Initial(start)
    ensures
      var end := After(view, start, StaleRun(first, second));
      && end.Some? && Idle(end.value) && end.value.changed
      && end.value.store == second && end.value.announced == [view(first)]
  {
    var one: seq<Step> := [Change(first)];
    AfterOneMore(view, start, [], Change(first));
    assert [] + [Change(first)] == one;
    AfterOneMore(view, start, one, AnnounceNode(1));
    var two := [Change(first), AnnounceNode(1)];
    assert one + [AnnounceNode(1)] == two;
    assert [] + [NodeEvent] == [NodeEvent];
    var s := After(view, start, two).value;
    OneRound(view, s);
    AfterMoves(view, start, two, 6);
    AfterOneMore(view, start, two + Moves(6), QuietChange(second));
  }

  /** A node that has joined a Wi-Fi network has another graph than before. */
  lemma ShapesDiffer(node: MatterNode, bssid: string)
    requires node.bssid.None? && node.neighbours == [] && node.routes == []
    ensures ShapeOf([node]) != ShapeOf([node.(bssid := Some(bssid))])
  {
    var joined, id := node.(bssid := Some(bssid)), AccessPointId(bssid);
    GraphHoldsWhoBelongs([node]);
    GraphHoldsWhoBelongs([joined]);
    assert Brings(joined)[1].id == id && HasId(Brings(joined), id);
    assert joined in [joined] && Belongs([joined], id);
    IdsOfKindsDiffer(node, node, bssid, "");
    assert !Belongs([node], id);
    assert HasId(ShapeOf([joined]).nodes, id) && !HasId(ShapeOf([node]).nodes, id);
  }

  /** For example when a refresh finds a node on a Wi-Fi network. */
  lemma OldGraphIsPossible(start: System, node: MatterNode, bssid: string)
    requires Initial(start) && node.bssid.None? && node.neighbours == [] && node.routes == []
    ensures
      var end := After(ShapeOf, start, StaleRun([node], [node.(bssid := Some(bssid))]));
      && end.Some? && Idle(end.value) && end.value.announced != []
      && end.value.announced[|end.value.announced| - 1] != ShapeOf(end.value.store)
  {
    IdleOnAnOldShape(ShapeOf, start, [node], [node.(bssid := Some(bssid))]);
    ShapesDiffer(node, bssid);
  }

  /** Clients are never sent the same graph twice in a row. */
  lemma OnlyChangesAreAnnounced(start: System, steps: seq<Step>, i: nat)
    requires Initial(start) && After(ShapeOf, start, steps).Some?
    requires 0 < i < |After(ShapeOf, start, steps).value.announced|
    ensures After(ShapeOf, start, steps).value.announced[i] != After(ShapeOf, start, steps).value.announced[i - 1]
  {
    EveryStateIsSound(ShapeOf, start, steps);
  }

  // ----- coming to rest -----

  function Weight(queue: seq<Event>): nat
  {
    if queue == [] then 0 else (if queue[0].NodeEvent? then 20 else 1) + Weight(queue[1..])
  }

  lemma {:induction false} WeightOneMore(queue: seq<Event>, event: Event)
    ensures Weight(queue + [event]) == Weight(queue) + if event.NodeEvent? then 20 else 1
  {
    if queue == [] {
      assert [event][1..] == [];
    } else {
      assert (queue + [event])[1..] == queue[1..] + [event];
      WeightOneMore(queue[1..], event);
    }
  }

  function Work(s: System): nat
  {
    Weight(s.feed.queue) +
    match s.phase
    case Waiting => 1
    case Draining => 11
    case Reading => 10
    case Comparing(_) => 9
    case Announcing(_) => 8
    case Stopped => 0
  }

  lemma AnnouncingWorksOff(view: View, s: System)
    requires s.phase.Announcing?
    ensures Work(WatcherStep(view, s).value) < Work(s)
  {
    WeightOneMore(s.feed.queue, TopologyUpdated(s.phase.shape));
  }

  /** Left alone, the watcher comes to rest, although its own announcements reach
      its feed too: each move leaves it less to do, and it only stands still on
      an empty feed. */
  lemma WatcherComesToRest(view: View, s: System)
    requires Sound(view, s)
    ensures WatcherStep(view, s).Some? ==> Work(WatcherStep(view, s).value) < Work(s)
    ensures WatcherStep(view, s).None? <==> s.phase.Stopped? || (s.phase.Waiting? && s.feed == Feed([], true))
  {
    if s.phase.Announcing? {
      AnnouncingWorksOff(view, s);
    }
  }
}

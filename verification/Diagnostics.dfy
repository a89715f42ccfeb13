/** One network's diagnostics collection: its batch, and how nodes enter it
    (`server/src/api/thread_diagnostics.rs`). */
module Diagnostics {
  import opened Wrappers

  datatype Source = OtbrRest | NoSource

  datatype Partial = NoCredentials | RestUnreachable | RestProtocol | InProgress | RestNoResponsesYet

  /** A node by what identifies it; `data` stands for everything it reported. */
  datatype Node = Node(extMac: Option<string>, rloc16: Option<nat>, data: nat)

  datatype Batch = Batch(network: string, name: string, collectedAt: nat, source: Source, nodes: seq<Node>,
                         partial: Option<Partial>)

  /** Whether a node is a newer view of one already held. */
  predicate Same(existing: Node, node: Node)
  {
    || (node.extMac.Some? && existing.extMac == node.extMac)
    || (node.extMac.None? && node.rloc16.Some? && existing.rloc16 == node.rloc16)
  }

  function FirstSame(nodes: seq<Node>, node: Node): (i: nat)
    ensures i <= |nodes| && (i < |nodes| ==> Same(nodes[i], node))
    ensures forall j | 0 <= j < i :: !Same(nodes[j], node)
  {
    if nodes == [] || Same(nodes[0], node) then 0 else 1 + FirstSame(nodes[1..], node)
  }

  function Added(nodes: seq<Node>, node: Node): seq<Node>
  {
    var i := FirstSame(nodes, node);
    if i < |nodes| then nodes[i := node] else nodes + [node]
  }

  predicate MacsDiffer(nodes: seq<Node>)
  {
    forall i, j | 0 <= i < j < |nodes| :: nodes[i].extMac.Some? ==> nodes[i].extMac != nodes[j].extMac
  }

  /** Whatever order nodes answer in, and however often, no two of a batch carry
      the same extended address, and none of the batch's places is lost. */
  lemma {:induction false} AddedKeepsMacsApart(nodes: seq<Node>, node: Node)
    requires MacsDiffer(nodes)
    ensures MacsDiffer(Added(nodes, node)) && node in Added(nodes, node)
    ensures |nodes| <= |Added(nodes, node)| <= |nodes| + 1
  {
    var i := FirstSame(nodes, node);
    var added := Added(nodes, node);
    assert added[i] == node;
    forall j, k | 0 <= j < k < |added| && added[j].extMac.Some?
      ensures added[j].extMac != added[k].extMac
    {
      if j == i || k == i {
        var other := if j == i then k else j;
        assert added[other] == nodes[other];
        if node.extMac.Some? && other > i {
          assert nodes[i].extMac == node.extMac;
        }
      }
    }
  }

  predicate LocatorsDiffer(nodes: seq<Node>)
  {
    forall i, j | 0 <= i < j < |nodes| :: nodes[i].rloc16.Some? ==> nodes[i].rloc16 != nodes[j].rloc16
  }

  /** Routing locators stay apart exactly if none of the other places holds the
      locator of the node that comes in. */
  lemma {:induction false} AddedKeepsLocatorsApart(nodes: seq<Node>, node: Node)
    requires LocatorsDiffer(nodes)
    ensures LocatorsDiffer(Added(nodes, node))
      <==> node.rloc16.None?
           || forall j | 0 <= j < |nodes| && j != FirstSame(nodes, node) :: nodes[j].rloc16 != node.rloc16
  {
    var i := FirstSame(nodes, node);
    var added := Added(nodes, node);
    assert added[i] == node;
    assert forall j | 0 <= j < |nodes| && j != i :: added[j] == nodes[j];
    if j :| 0 <= j < |nodes| && j != i && node.rloc16.Some? && nodes[j].rloc16 == node.rloc16 {
      assert added[j].rloc16 == added[i].rloc16;
    }
  }

  /** A node without an extended address never brings a locator in twice: it takes
      the place of whoever has its locator. */
  lemma PlainNodesKeepLocatorsApart(nodes: seq<Node>, node: Node)
    requires LocatorsDiffer(nodes) && node.extMac.None?
    ensures LocatorsDiffer(Added(nodes, node))
  {
    AddedKeepsLocatorsApart(nodes, node);
    var i := FirstSame(nodes, node);
    forall j | 0 <= j < |nodes| && j != i && node.rloc16.Some? ensures nodes[j].rloc16 != node.rloc16 {
      assert Same(nodes[j], node) <==> nodes[j].rloc16 == node.rloc16;
    }
  }

  /** One that has an extended address can: it takes the place of its own earlier
      view, whatever locator another one holds. */
  lemma LocatorsMayRepeat()
    ensures
      var first, second, later := Node(Some("A"), Some(1), 0), Node(None, Some(2), 0), Node(Some("A"), Some(2), 1);
      var nodes := Added(Added([], first), second);
      LocatorsDiffer(nodes) && !LocatorsDiffer(Added(nodes, later))
  {
    var first, second, later := Node(Some("A"), Some(1), 0), Node(None, Some(2), 0), Node(Some("A"), Some(2), 1);
    assert Added([], first) == [first];
    assert FirstSame([first], second) == 1;
    assert Added([first], second) == [first, second];
    assert FirstSame([first, second], later) == 0;
    assert [first, second][1].rloc16 == later.rloc16;
    AddedKeepsLocatorsApart([first, second], later);
  }

  // ----- a collection's state -----

  datatype Progress = Progress(batch: Batch, finished: bool)

  function Begun(network: string, name: string, now: nat): Progress
  {
    Progress(Batch(network, name, now, NoSource, [], Some(InProgress)), false)
  }

  /** What an asker is told: an unfinished batch always says so. */
  function Snapshot(state: Progress, now: nat): Batch
  {
    if state.finished then state.batch
    else
      var waiting := state.batch.nodes == [] && state.batch.source == OtbrRest;
      state.batch.(collectedAt := now, partial := Some(if waiting then RestNoResponsesYet else InProgress))
  }

  function Ended(state: Progress, source: Source, partial: Option<Partial>, now: nat): Progress
  {
    Progress(state.batch.(source := source, partial := partial, collectedAt := now), true)
  }

  class Collection {
    var batch: Batch
    var finished: bool

    constructor (network: string, name: string, now: nat)
      ensures State() == Begun(network, name, now)
    {
      batch := Batch(network, name, now, NoSource, [], Some(InProgress));
      finished := false;
    }

    function State(): Progress
      reads this
    {
      Progress(batch, finished)
    }

    /** `Run::add_node`. */
    method AddNode(node: Node)
      modifies this
      ensures finished == old(finished)
      ensures batch == old(batch).(nodes := Added(old(batch.nodes), node))
    {
      var i := 0;
      while i < |batch.nodes| && !Same(batch.nodes[i], node)
        invariant i <= |batch.nodes| && forall j | 0 <= j < i :: !Same(batch.nodes[j], node)
      {
        i := i + 1;
      }
      assert i == FirstSame(batch.nodes, node);
      if i < |batch.nodes| {
        batch := batch.(nodes := batch.nodes[i := node]);
      } else {
        batch := batch.(nodes := batch.nodes + [node]);
      }
    }

    /** `Collection::snapshot`. */
    method TakeSnapshot(now: nat) returns (taken: Batch)
      ensures taken == Snapshot(State(), now)
    {
      taken := batch;
      if !finished {
        taken := taken.(collectedAt := now);
        if |taken.nodes| == 0 {
          match taken.source
          case OtbrRest => taken := taken.(partial := Some(RestNoResponsesYet));
          case NoSource => taken := taken.(partial := Some(InProgress));
        } else {
          taken := taken.(partial := Some(InProgress));
        }
      }
    }

    /** The locked part of `Run::finish`. */
    method Finish(source: Source, partial: Option<Partial>, now: nat) returns (final: Batch)
      modifies this
      ensures State() == Ended(old(State()), source, partial, now) && final == batch
    {
      batch := batch.(source := source);
      batch := batch.(partial := partial);
      batch := batch.(collectedAt := now);
      finished := true;
      final := batch;
    }
  }

  /** What an unfinished batch says: that it waits for a first answer, if there is a
      border router to wait for, and otherwise that it is in progress. */
  lemma UnfinishedSaysSo(state: Progress, now: nat)
    requires !state.finished
    ensures
      var shown := Snapshot(state, now);
      && shown.nodes == state.batch.nodes && shown.collectedAt == now
      && (shown.partial == Some(RestNoResponsesYet) <==> |state.batch.nodes| == 0 && state.batch.source == OtbrRest)
      && (shown.partial == Some(InProgress) <==> |state.batch.nodes| > 0 || state.batch.source == NoSource)
  {
  }
}

/** Building the graph (`build_topology` in `server/src/api/network.rs`): what
    nodes report, in the order it is read, and the loops that read it. */
module TopologyBuild {
  import Decimal
  import opened Replay
  import opened Topology
  import opened TopologyProofs
  import opened WireNaming
  import opened Wrappers

  // ----- the reports, in order -----

  function WifiInfo(node: MatterNode): Info
  {
    var rssi := Mapped(node.rssi, AsI16);
    Info(if rssi.Some? then WifiStrength(rssi.value) else "unknown", None, rssi)
  }

  /** The graph nodes a node brings with it: itself, and its access point. */
  function Brings(node: MatterNode): seq<GraphNode>
  {
    if node.bssid.Some? then [Described(node), AccessPoint(node.bssid.value)] else [Described(node)]
  }

  function WifiSightings(node: MatterNode): seq<Sighting>
  {
    if node.bssid.Some? then [Heard(IdOf(node), AccessPointId(node.bssid.value), "wifi", WifiInfo(node))] else []
  }

  function AirInfo(row: Neighbour): Info
  {
    var lqi := Mapped(row.lqi, AsU8);
    Info(if lqi.Some? then ThreadStrength(lqi.value) else "unknown", lqi, Mapped(row.rssi, AsI16))
  }

  type Known = seq<(string, string)>

  function NeighbourSightings(source: string, rows: seq<Neighbour>, known: Known): seq<Sighting>
  {
    if rows == [] then []
    else
      var init, last := NeighbourSightings(source, rows[..|rows| - 1], known), rows[|rows| - 1];
      if last.ext.None? then init
      else init + [Heard(source, Resolved(known, last.ext.value), "thread", AirInfo(last))]
  }

  function RouteSighting(source: string, row: RouteRow, known: Known): Sighting
    requires row.ext.Some?
  {
    var lqi := Mapped(row.lqi, AsU8);
    Routed(source, Resolved(known, row.ext.value),
           if lqi.Some? then ThreadStrength(lqi.value) else "unknown", Mapped(row.pathCost, AsU32))
  }

  function RouteSightings(source: string, rows: seq<RouteRow>, known: Known): seq<Sighting>
  {
    if rows == [] then []
    else
      var init, last := RouteSightings(source, rows[..|rows| - 1], known), rows[|rows| - 1];
      if last.ext.None? then init else init + [RouteSighting(source, last, known)]
  }

  function ThreadSightings(node: MatterNode, known: Known): seq<Sighting>
  {
    NeighbourSightings(IdOf(node), node.neighbours, known) + RouteSightings(IdOf(node), node.routes, known)
  }

  /** Who is not on this fabric, as the sightings come. */
  function StrangersHeard(node: MatterNode, rows: seq<Neighbour>, known: Known): seq<GraphNode>
  {
    if rows == [] then []
    else
      var init, last := StrangersHeard(node, rows[..|rows| - 1], known), rows[|rows| - 1];
      if last.ext.None? || Lookup(known, last.ext.value).Some? then init
      else init + [Stranger(last.ext.value, Mapped(last.rloc16, AsU16), node)]
  }

  function StrangersRouted(node: MatterNode, rows: seq<RouteRow>, known: Known): seq<GraphNode>
  {
    if rows == [] then []
    else
      var init, last := StrangersRouted(node, rows[..|rows| - 1], known), rows[|rows| - 1];
      if last.ext.None? || Lookup(known, last.ext.value).Some? then init
      else init + [Stranger(last.ext.value, None, node)]
  }

  function Strangers(node: MatterNode, known: Known): seq<GraphNode>
  {
    StrangersHeard(node, node.neighbours, known) + StrangersRouted(node, node.routes, known)
  }

  function AllBrought(nodes: seq<MatterNode>): seq<GraphNode>
  {
    if nodes == [] then [] else AllBrought(nodes[..|nodes| - 1]) + Brings(nodes[|nodes| - 1])
  }

  function AllWifi(nodes: seq<MatterNode>): seq<Sighting>
  {
    if nodes == [] then [] else AllWifi(nodes[..|nodes| - 1]) + WifiSightings(nodes[|nodes| - 1])
  }

  function AllThread(nodes: seq<MatterNode>, known: Known): seq<Sighting>
  {
    if nodes == [] then []
    else AllThread(nodes[..|nodes| - 1], known) + ThreadSightings(nodes[|nodes| - 1], known)
  }

  function AllStrangers(nodes: seq<MatterNode>, known: Known): seq<GraphNode>
  {
    if nodes == [] then []
    else AllStrangers(nodes[..|nodes| - 1], known) + Strangers(nodes[|nodes| - 1], known)
  }

  /** Everything that is introduced, and everything that is reported. */
  function Introduced(nodes: seq<MatterNode>): seq<GraphNode>
  {
    AllBrought(nodes) + AllStrangers(nodes, ByAddress(nodes))
  }

  function Reported(nodes: seq<MatterNode>): seq<Sighting>
  {
    AllWifi(nodes) + AllThread(nodes, ByAddress(nodes))
  }

  ghost predicate NodeIdsDiffer(nodes: seq<MatterNode>)
  {
    forall i, j | 0 <= i < j < |nodes| :: nodes[i].nodeId != nodes[j].nodeId
  }

  // ----- the builder -----

  class Graph {
    var nodes: seq<GraphNode>
    var connections: seq<Connection>

    constructor ()
      ensures nodes == [] && connections == []
    {
      nodes, connections := [], [];
    }

    /** `resolve_target`. */
    method ResolveTarget(ext: string, known: Known, rloc16: Option<nat>, observer: MatterNode) returns (target: string)
      modifies this`nodes
      ensures target == Resolved(known, ext)
      ensures nodes ==
        if Lookup(known, ext).Some? then old(nodes) else Joined(old(nodes), Stranger(ext, rloc16, observer))
    {
      for i := 0 to |known|
        invariant Lookup(known, ext) == Lookup(known[i..], ext)
      {
        assert known[i..][1..] == known[i + 1..];
        if EqIgnoreCase(known[i].0, ext) {
          return known[i].1;
        }
      }
      target := UnknownId(ext);
      if !HasId(nodes, target) {
        nodes := nodes + [Stranger(ext, rloc16, observer)];
      }
    }

    /** `merge_connection`. */
    method MergeConnection(sighting: Sighting)
      requires sighting.Heard?
      modifies this`connections
      ensures connections == Drawn(old(connections), sighting)
    {
      var i := 0;
      while i < |connections| && !LinksPair(connections[i], sighting.from, sighting.to)
        invariant i <= |connections|
        invariant forall j | 0 <= j < i :: !LinksPair(connections[j], sighting.from, sighting.to)
      {
        i := i + 1;
      }
      assert i == FirstLink(connections, sighting.from, sighting.to);
      if i < |connections| {
        var existing := connections[i];
        if existing.source == sighting.from {
          existing := existing.(sourceToTarget := Some(sighting.info));
        } else {
          existing := existing.(targetToSource := Some(sighting.info));
        }
        existing := existing.(strength := Strongest(existing.strength, sighting.info.strength));
        connections := connections[i := existing];
      } else {
        connections := connections + [Link(sighting)];
      }
    }

    /** A node of the fabric, and the access point it hangs off. */
    method AddMatterNode(node: MatterNode)
      requires !HasId(nodes, IdOf(node))
      requires node.bssid.Some? ==> !Linked(connections, IdOf(node), AccessPointId(node.bssid.value))
      modifies this
      ensures nodes == Run(Joined, old(nodes), Brings(node))
      ensures connections == Run(Drawn, old(connections), WifiSightings(node))
    {
      RunOne(Joined, nodes, Described(node));
      nodes := nodes + [Described(node)];
      if node.bssid.Some? {
        var bssid := node.bssid.value;
        if !HasId(nodes, AccessPointId(bssid)) {
          nodes := nodes + [AccessPoint(bssid)];
        }
        RunTwo(Joined, old(nodes), Described(node), AccessPoint(bssid));
        var sighting := Heard(IdOf(node), AccessPointId(bssid), "wifi", WifiInfo(node));
        DrawnWhenNew(connections, sighting);
        RunOne(Drawn, connections, sighting);
        connections := connections + [Link(sighting)];
      }
    }

    method AddMatterNodes(matterNodes: seq<MatterNode>)
      requires NodeIdsDiffer(matterNodes) && nodes == [] && connections == []
      modifies this
      ensures nodes == Gathered(AllBrought(matterNodes)) && connections == AllDrawn(AllWifi(matterNodes))
    {
      for i := 0 to |matterNodes|
        invariant nodes == Gathered(AllBrought(matterNodes[..i]))
        invariant connections == AllDrawn(AllWifi(matterNodes[..i]))
      {
        NodeIsNew(matterNodes, i);
        assert matterNodes[..i + 1][..i] == matterNodes[..i];
        RunAppend(Joined, [], AllBrought(matterNodes[..i]), Brings(matterNodes[i]));
        RunAppend(Drawn, [], AllWifi(matterNodes[..i]), WifiSightings(matterNodes[i]));
        AddMatterNode(matterNodes[i]);
      }
      assert matterNodes[..|matterNodes|] == matterNodes;
    }

    /** What every node's Thread tables say. */
    method NoteThread(matterNodes: seq<MatterNode>, known: Known)
      modifies this
      ensures nodes == Run(Joined, old(nodes), AllStrangers(matterNodes, known))
      ensures connections == Run(Drawn, old(connections), AllThread(matterNodes, known))
    {
      for i := 0 to |matterNodes|
        invariant nodes == Run(Joined, old(nodes), AllStrangers(matterNodes[..i], known))
        invariant connections == Run(Drawn, old(connections), AllThread(matterNodes[..i], known))
      {
        ThreadNodeOneMore(matterNodes, known, i, old(nodes), old(connections));
        NoteNeighbours(matterNodes[i], known);
        NoteRoutes(matterNodes[i], known);
      }
      assert matterNodes[..|matterNodes|] == matterNodes;
    }

    /** A node's neighbour table. */
    method NoteNeighbours(node: MatterNode, known: Known)
      modifies this
      ensures nodes == Run(Joined, old(nodes), StrangersHeard(node, node.neighbours, known))
      ensures connections == Run(Drawn, old(connections), NeighbourSightings(IdOf(node), node.neighbours, known))
    {
      var rows := node.neighbours;
      for i := 0 to |rows|
        invariant nodes == Run(Joined, old(nodes), StrangersHeard(node, rows[..i], known))
        invariant connections == Run(Drawn, old(connections), NeighbourSightings(IdOf(node), rows[..i], known))
      {
        StrangerHeardOneMore(node, known, i, old(nodes));
        LinkHeardOneMore(node, known, i, old(connections));
        if rows[i].ext.Some? {
          var target := ResolveTarget(rows[i].ext.value, known, Mapped(rows[i].rloc16, AsU16), node);
          MergeConnection(Heard(IdOf(node), target, "thread", AirInfo(rows[i])));
        }
      }
      assert rows[..|rows|] == rows;
    }

    /** A node's route table, which fills in links nobody heard. */
    method NoteRoutes(node: MatterNode, known: Known)
      modifies this
      ensures nodes == Run(Joined, old(nodes), StrangersRouted(node, node.routes, known))
      ensures connections == Run(Drawn, old(connections), RouteSightings(IdOf(node), node.routes, known))
    {
      var rows := node.routes;
      for i := 0 to |rows|
        invariant nodes == Run(Joined, old(nodes), StrangersRouted(node, rows[..i], known))
        invariant connections == Run(Drawn, old(connections), RouteSightings(IdOf(node), rows[..i], known))
      {
        StrangerRoutedOneMore(node, known, i, old(nodes));
        LinkRoutedOneMore(node, known, i, old(connections));
        if rows[i].ext.Some? {
          var target := ResolveTarget(rows[i].ext.value, known, None, node);
          var sighting := RouteSighting(IdOf(node), rows[i], known);
          DrawnWhenNew(connections, sighting);
          if !(exists c | c in connections :: LinksPair(c, IdOf(node), target)) {
            connections := connections + [Link(sighting)];
          }
        }
      }
      assert rows[..|rows|] == rows;
    }
  }

  lemma RunOne<S, O>(step: (S, O) -> S, state: S, a: O)
    ensures Run(step, state, [a]) == step(state, a)
  {
    assert [a][1..] == [];
  }

  lemma RunTwo<S, O>(step: (S, O) -> S, state: S, a: O, b: O)
    ensures Run(step, state, [a, b]) == step(step(state, a), b)
  {
    assert [a, b][1..] == [b];
    RunOne(step, step(state, a), b);
  }

  /** A pair seen for the first time gets a link; on a known one a route table
      adds nothing. */
  lemma DrawnWhenNew(connections: seq<Connection>, sighting: Sighting)
    ensures !Linked(connections, sighting.from, sighting.to) ==>
      Drawn(connections, sighting) == connections + [Link(sighting)]
    ensures Linked(connections, sighting.from, sighting.to) && sighting.Routed? ==>
      Drawn(connections, sighting) == connections
  {
    var i := FirstLink(connections, sighting.from, sighting.to);
    if i < |connections| {
      assert connections[i] in connections;
    }
  }

  lemma RunSnoc<S, O>(step: (S, O) -> S, state: S, ops: seq<O>, op: O)
    ensures Run(step, state, ops + [op]) == step(Run(step, state, ops), op)
  {
    RunAppend(step, state, ops, [op]);
    RunOne(step, Run(step, state, ops), op);
  }

  /** What one more row of a neighbour table adds. */
  lemma StrangerHeardOneMore(node: MatterNode, known: Known, i: nat, nodes: seq<GraphNode>)
    requires i < |node.neighbours|
    ensures
      var row, rows := node.neighbours[i], node.neighbours;
      var sofar := Run(Joined, nodes, StrangersHeard(node, rows[..i], known));
      Run(Joined, nodes, StrangersHeard(node, rows[..i + 1], known))
        == if row.ext.None? || Lookup(known, row.ext.value).Some? then sofar
           else Joined(sofar, Stranger(row.ext.value, Mapped(row.rloc16, AsU16), node))
  {
    var row, rows := node.neighbours[i], node.neighbours;
    assert rows[..i + 1][..i] == rows[..i];
    if row.ext.Some? && Lookup(known, row.ext.value).None? {
      RunSnoc(Joined, nodes, StrangersHeard(node, rows[..i], known),
              Stranger(row.ext.value, Mapped(row.rloc16, AsU16), node));
    }
  }

  lemma LinkHeardOneMore(node: MatterNode, known: Known, i: nat, connections: seq<Connection>)
    requires i < |node.neighbours|
    ensures
      var row, rows := node.neighbours[i], node.neighbours;
      var sofar := Run(Drawn, connections, NeighbourSightings(IdOf(node), rows[..i], known));
      Run(Drawn, connections, NeighbourSightings(IdOf(node), rows[..i + 1], known))
        == if row.ext.None? then sofar
           else Drawn(sofar, Heard(IdOf(node), Resolved(known, row.ext.value), "thread", AirInfo(row)))
  {
    var row, rows := node.neighbours[i], node.neighbours;
    assert rows[..i + 1][..i] == rows[..i];
    if row.ext.Some? {
      RunSnoc(Drawn, connections, NeighbourSightings(IdOf(node), rows[..i], known),
              Heard(IdOf(node), Resolved(known, row.ext.value), "thread", AirInfo(row)));
    }
  }

  lemma StrangerRoutedOneMore(node: MatterNode, known: Known, i: nat, nodes: seq<GraphNode>)
    requires i < |node.routes|
    ensures
      var row, rows := node.routes[i], node.routes;
      var sofar := Run(Joined, nodes, StrangersRouted(node, rows[..i], known));
      Run(Joined, nodes, StrangersRouted(node, rows[..i + 1], known))
        == if row.ext.None? || Lookup(known, row.ext.value).Some? then sofar
           else Joined(sofar, Stranger(row.ext.value, None, node))
  {
    var row, rows := node.routes[i], node.routes;
    assert rows[..i + 1][..i] == rows[..i];
    if row.ext.Some? && Lookup(known, row.ext.value).None? {
      RunSnoc(Joined, nodes, StrangersRouted(node, rows[..i], known), Stranger(row.ext.value, None, node));
    }
  }

  lemma LinkRoutedOneMore(node: MatterNode, known: Known, i: nat, connections: seq<Connection>)
    requires i < |node.routes|
    ensures
      var row, rows := node.routes[i], node.routes;
      var sofar := Run(Drawn, connections, RouteSightings(IdOf(node), rows[..i], known));
      Run(Drawn, connections, RouteSightings(IdOf(node), rows[..i + 1], known))
        == if row.ext.None? then sofar else Drawn(sofar, RouteSighting(IdOf(node), row, known))
  {
    var row, rows := node.routes[i], node.routes;
    assert rows[..i + 1][..i] == rows[..i];
    if row.ext.Some? {
      RunSnoc(Drawn, connections, RouteSightings(IdOf(node), rows[..i], known),
              RouteSighting(IdOf(node), row, known));
    }
  }

  // ----- the whole build -----

  /** Ids of different kinds never meet: a decimal number, and a name. */
  lemma IdsOfKindsDiffer(a: MatterNode, b: MatterNode, bssid: string, ext: string)
    ensures IdOf(a) != AccessPointId(bssid) && IdOf(a) != UnknownId(ext) && AccessPointId(bssid) != UnknownId(ext)
    ensures IdOf(a) == IdOf(b) ==> a.nodeId == b.nodeId
  {
    assert Decimal.IsDigit(IdOf(a)[0]);
    assert AccessPointId(bssid)[0] == 'a' && UnknownId(ext)[0] == 'u';
    if IdOf(a) == IdOf(b) {
      Decimal.TextIsInjective(a.nodeId, b.nodeId);
    }
  }

  lemma {:induction false} BroughtBy(nodes: seq<MatterNode>, g: GraphNode)
    ensures g in AllBrought(nodes) <==> exists n | n in nodes :: g in Brings(n)
  {
    if nodes != [] {
      var init, last := nodes[..|nodes| - 1], nodes[|nodes| - 1];
      BroughtBy(init, g);
      assert nodes == init + [last];
      if g in AllBrought(init) {
        var n :| n in init && g in Brings(n);
        assert n in nodes;
      }
      assert last in nodes;
    }
  }

  lemma {:induction false} WifiSeenBy(nodes: seq<MatterNode>, s: Sighting)
    ensures s in AllWifi(nodes) <==> exists n | n in nodes :: s in WifiSightings(n)
  {
    if nodes != [] {
      var init, last := nodes[..|nodes| - 1], nodes[|nodes| - 1];
      WifiSeenBy(init, s);
      assert nodes == init + [last];
      if s in AllWifi(init) {
        var n :| n in init && s in WifiSightings(n);
        assert n in nodes;
      }
      assert last in nodes;
    }
  }

  /** Each node of the fabric is new to the graph when its turn comes. */
  lemma NodeIsNew(nodes: seq<MatterNode>, i: nat)
    requires NodeIdsDiffer(nodes) && i < |nodes|
    ensures !HasId(Gathered(AllBrought(nodes[..i])), IdOf(nodes[i]))
    ensures nodes[i].bssid.Some? ==>
      !Linked(AllDrawn(AllWifi(nodes[..i])), IdOf(nodes[i]), AccessPointId(nodes[i].bssid.value))
  {
    var id := IdOf(nodes[i]);
    var brought, wifi := AllBrought(nodes[..i]), AllWifi(nodes[..i]);
    forall n | n in nodes[..i] ensures IdOf(n) != id {
      IdsOfKindsDiffer(n, nodes[i], "", "");
    }
    GatheredOnce(brought, |brought|);
    assert brought[..|brought|] == brought;
    forall g | g in brought ensures g.id != id {
      BroughtBy(nodes[..i], g);
      var n :| n in nodes[..i] && g in Brings(n);
      if n.bssid.Some? {
        IdsOfKindsDiffer(nodes[i], n, n.bssid.value, "");
      }
    }
    OneLinkPerPair(wifi, |wifi|);
    assert wifi[..|wifi|] == wifi;
    forall s | s in wifi ensures s.from != id && s.to != id {
      WifiSeenBy(nodes[..i], s);
      var n :| n in nodes[..i] && s in WifiSightings(n);
      IdsOfKindsDiffer(nodes[i], n, n.bssid.value, "");
    }
  }

  method KnownAddresses(nodes: seq<MatterNode>) returns (known: Known)
    ensures known == ByAddress(nodes)
  {
    known := [];
    for i := 0 to |nodes|
      invariant known == ByAddress(nodes[..i])
    {
      assert nodes[..i + 1][..i] == nodes[..i];
      if nodes[i].ext.Address? {
        known := known + [(nodes[i].ext.hex, IdOf(nodes[i]))];
      }
    }
    assert nodes[..|nodes|] == nodes;
  }

  /** `build_topology`: the nodes of the fabric and their access points first,
      then what Thread nodes say of one another. */
  method BuildTopology(nodes: seq<MatterNode>) returns (graph: Graph)
    requires NodeIdsDiffer(nodes)
    ensures fresh(graph)
    ensures graph.nodes == Gathered(Introduced(nodes)) && graph.connections == AllDrawn(Reported(nodes))
  {
    graph := new Graph();
    var known := KnownAddresses(nodes);
    graph.AddMatterNodes(nodes);
    graph.NoteThread(nodes, known);
    RunAppend(Joined, [], AllBrought(nodes), AllStrangers(nodes, known));
    RunAppend(Drawn, [], AllWifi(nodes), AllThread(nodes, known));
  }

  lemma ThreadNodeOneMore(
    nodes: seq<MatterNode>, known: Known, i: nat, start: seq<GraphNode>, links: seq<Connection>)
    requires i < |nodes|
    ensures
      var node := nodes[i];
      && Run(Joined, start, AllStrangers(nodes[..i + 1], known))
         == Run(Joined, Run(Joined, Run(Joined, start, AllStrangers(nodes[..i], known)),
                            StrangersHeard(node, node.neighbours, known)),
                StrangersRouted(node, node.routes, known))
      && Run(Drawn, links, AllThread(nodes[..i + 1], known))
         == Run(Drawn, Run(Drawn, Run(Drawn, links, AllThread(nodes[..i], known)),
                           NeighbourSightings(IdOf(node), node.neighbours, known)),
                RouteSightings(IdOf(node), node.routes, known))
  {
    var node := nodes[i];
    assert nodes[..i + 1][..i] == nodes[..i];
    RunAppend(Joined, start, AllStrangers(nodes[..i], known), Strangers(node, known));
    RunAppend(Joined, Run(Joined, start, AllStrangers(nodes[..i], known)),
              StrangersHeard(node, node.neighbours, known), StrangersRouted(node, node.routes, known));
    RunAppend(Drawn, links, AllThread(nodes[..i], known), ThreadSightings(node, known));
    RunAppend(Drawn, Run(Drawn, links, AllThread(nodes[..i], known)),
              NeighbourSightings(IdOf(node), node.neighbours, known), RouteSightings(IdOf(node), node.routes, known));
  }
}

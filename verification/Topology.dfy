/** The network graph derived from what nodes report
    (`server/src/api/network.rs`). */
module Topology {
  import Decimal
  import opened Replay
  import opened WireNaming
  import opened Wrappers

  // ----- what nodes report -----

  /** The extended-address attribute: absent, present but not an address, or an
      address in hex. */
  datatype ExtAddress = NoAddress | Unreadable | Address(hex: string)

  /** Rows without a readable address are skipped; numbers are as they arrive,
      before they are cut to their width. */
  datatype Neighbour = Neighbour(ext: Option<string>, rloc16: Option<nat>, lqi: Option<nat>, rssi: Option<int>)

  datatype RouteRow = RouteRow(ext: Option<string>, lqi: Option<nat>, pathCost: Option<nat>)

  datatype MatterNode = MatterNode(
    nodeId: nat, role: Option<nat>, ext: ExtAddress, rloc16: Option<nat>, panId: Option<string>,
    networkName: Option<string>, bssid: Option<string>, rssi: Option<int>,
    neighbours: seq<Neighbour>, routes: seq<RouteRow>)

  function AsU8(n: nat): nat { n % 0x100 }

  function AsU16(n: nat): nat { n % 0x1_0000 }

  function AsU32(n: nat): nat { n % 0x1_0000_0000 }

  function AsI16(n: int): int { (n + 0x8000) % 0x1_0000 - 0x8000 }

  /** Casts keep the low bits; the last reads them as a signed number. */
  lemma CastsKeepTheLowBits(n: nat, m: int)
    ensures AsU8(n) < 256 && (n - AsU8(n)) % 256 == 0
    ensures AsU16(n) < 65536 && (n - AsU16(n)) % 65536 == 0
    ensures AsU32(n) < 4294967296 && (n - AsU32(n)) % 4294967296 == 0
    ensures -32768 <= AsI16(m) < 32768 && (m - AsI16(m)) % 65536 == 0
  {
  }

  function Mapped<T, U>(value: Option<T>, f: T -> U): Option<U>
  {
    if value.Some? then Some(f(value.value)) else None
  }

  // ----- the graph -----

  datatype GraphNode = GraphNode(
    id: string, kind: string, networkType: string, nodeId: Option<nat>, role: Option<string>,
    ext: Option<string>, rloc16: Option<nat>, panId: Option<string>, networkName: Option<string>, bssid: Option<string>)

  datatype Info = Info(strength: string, lqi: Option<nat>, rssi: Option<int>)

  datatype Connection = Connection(
    source: string, target: string, network: string, strength: string,
    sourceToTarget: Option<Info>, targetToSource: Option<Info>, viaRouteTable: bool, pathCost: Option<nat>)

  function StrengthRank(strength: string): nat
  {
    if strength == "strong" then 4
    else if strength == "medium" then 3
    else if strength == "weak" then 2
    else if strength == "none" then 1
    else 0
  }

  function Strongest(a: string, b: string): string
  {
    if StrengthRank(a) >= StrengthRank(b) then a else b
  }

  function ThreadStrength(lqi: nat): string
  {
    if lqi == 0 then "none" else if lqi == 1 then "weak" else if lqi == 2 then "medium" else "strong"
  }

  function WifiStrength(rssi: int): string
  {
    if rssi >= -55 then "strong" else if rssi >= -67 then "medium" else if rssi >= -80 then "weak" else "none"
  }

  function RoutingRole(role: nat): string
  {
    match role
    case 2 => "sleepy_end_device"
    case 3 => "end_device"
    case 4 => "reed"
    case 5 => "router"
    case 6 => "leader"
    case _ => "unassigned"
  }

  // ----- ids -----

  function IdOf(node: MatterNode): string
  {
    Decimal.ToText(node.nodeId)
  }

  function WithoutColons(text: string): string
  {
    if text == "" then "" else (if text[0] == ':' then "" else [text[0]]) + WithoutColons(text[1..])
  }

  function AccessPointId(bssid: string): string
  {
    "ap_" + WithoutColons(bssid)
  }

  function UnknownId(ext: string): string
  {
    "unknown_" + ext
  }

  function AddressOf(node: MatterNode): Option<string>
  {
    if node.ext.Address? then Some(node.ext.hex) else None
  }

  /** Known addresses with the ids they stand for, in the order of the nodes. */
  function ByAddress(nodes: seq<MatterNode>): seq<(string, string)>
  {
    if nodes == [] then []
    else
      var init, last := ByAddress(nodes[..|nodes| - 1]), nodes[|nodes| - 1];
      if AddressOf(last).Some? then init + [(AddressOf(last).value, IdOf(last))] else init
  }

  /** The id of the first node with the address. */
  function Lookup(known: seq<(string, string)>, ext: string): Option<string>
  {
    if known == [] then None
    else if EqIgnoreCase(known[0].0, ext) then Some(known[0].1)
    else Lookup(known[1..], ext)
  }

  /** The graph id an address stands for. */
  function Resolved(known: seq<(string, string)>, ext: string): string
  {
    var id := Lookup(known, ext);
    if id.Some? then id.value else UnknownId(ext)
  }

  // ----- the nodes of the graph -----

  function NetworkType(node: MatterNode): string
  {
    if node.role.Some? || !node.ext.NoAddress? then "thread" else if node.bssid.Some? then "wifi" else "unknown"
  }

  function Described(node: MatterNode): GraphNode
  {
    var network := NetworkType(node);
    GraphNode(
      IdOf(node), "matter", network, Some(node.nodeId),
      if network == "thread" then Mapped(node.role, RoutingRole)
      else if node.bssid.Some? then Some("station") else None,
      AddressOf(node), Mapped(node.rloc16, AsU16), node.panId, node.networkName, node.bssid)
  }

  function AccessPoint(bssid: string): GraphNode
  {
    GraphNode(AccessPointId(bssid), "wifi_ap", "wifi", None, Some("ap"), None, None, None, Some(bssid), Some(bssid))
  }

  /** A neighbour that is not on this fabric, as the node that saw it puts it. */
  function Stranger(ext: string, rloc16: Option<nat>, observer: MatterNode): GraphNode
  {
    GraphNode(UnknownId(ext), "thread_unknown", "thread", None, None, Some(ext), rloc16, observer.panId,
              observer.networkName, None)
  }

  predicate HasId(nodes: seq<GraphNode>, id: string)
  {
    exists n | n in nodes :: n.id == id
  }

  predicate IdsDiffer(nodes: seq<GraphNode>)
  {
    forall i, j | 0 <= i < j < |nodes| :: nodes[i].id != nodes[j].id
  }

  function Joined(nodes: seq<GraphNode>, node: GraphNode): seq<GraphNode>
  {
    if HasId(nodes, node.id) then nodes else nodes + [node]
  }

  /** Nodes introduced one after another, each only if its id is new. */
  function Gathered(introduced: seq<GraphNode>): seq<GraphNode>
  {
    Run(Joined, [], introduced)
  }

  // ----- its links -----

  /** One report of a link: heard over the air, or read off a route table. */
  datatype Sighting =
    | Heard(from: string, to: string, network: string, info: Info)
    | Routed(from: string, to: string, strength: string, pathCost: Option<nat>)

  function Link(sighting: Sighting): Connection
  {
    match sighting
    case Heard(from, to, network, info) => Connection(from, to, network, info.strength, Some(info), None, false, None)
    case Routed(from, to, strength, pathCost) => Connection(from, to, "thread", strength, None, None, true, pathCost)
  }

  predicate LinksPair(connection: Connection, a: string, b: string)
  {
    (connection.source == a && connection.target == b) || (connection.source == b && connection.target == a)
  }

  function FirstLink(connections: seq<Connection>, a: string, b: string): (i: nat)
    ensures i <= |connections| && (i < |connections| ==> LinksPair(connections[i], a, b))
    ensures forall j | 0 <= j < i :: !LinksPair(connections[j], a, b)
  {
    if connections == [] || LinksPair(connections[0], a, b) then 0 else 1 + FirstLink(connections[1..], a, b)
  }

  /** The second sighting of a link folded into the first. */
  function Folded(existing: Connection, from: string, info: Info): Connection
  {
    var strength := Strongest(existing.strength, info.strength);
    if existing.source == from then existing.(sourceToTarget := Some(info), strength := strength)
    else existing.(targetToSource := Some(info), strength := strength)
  }

  function Drawn(connections: seq<Connection>, sighting: Sighting): seq<Connection>
  {
    var i := FirstLink(connections, sighting.from, sighting.to);
    if i == |connections| then connections + [Link(sighting)]
    else if sighting.Heard? then connections[i := Folded(connections[i], sighting.from, sighting.info)]
    else connections
  }

  function AllDrawn(sightings: seq<Sighting>): seq<Connection>
  {
    Run(Drawn, [], sightings)
  }

  /** The routing roles of the Thread diagnostics cluster, by number (Matter
      Application Cluster Specification). */
  lemma RolesByNumber(role: nat)
    ensures RoutingRole(2) == "sleepy_end_device" && RoutingRole(3) == "end_device" && RoutingRole(4) == "reed"
    ensures RoutingRole(5) == "router" && RoutingRole(6) == "leader"
    ensures role < 2 || role > 6 ==> RoutingRole(role) == "unassigned"
  {
  }

  /** An access point's id is made of everything in its address but the colons. */
  lemma {:induction false} ColonsAreLeftOut(a: string, b: string)
    ensures WithoutColons(a + ":" + b) == WithoutColons(a) + WithoutColons(b)
    ensures ':' !in a ==> WithoutColons(a) == a
    decreases |a|
  {
    if a == "" {
      assert (a + ":" + b)[1..] == b;
    } else {
      assert (a + ":" + b)[1..] == a[1..] + ":" + b;
      ColonsAreLeftOut(a[1..], b);
      assert a == [a[0]] + a[1..];
    }
  }
}

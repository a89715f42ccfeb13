/** How strong a link is drawn, by the numbers that nodes report
    (`server/src/api/network.rs`). */
module LinkStrength {
  import opened Topology
  import opened TopologyBuild
  import opened TopologyProofs
  import opened TopologyTheorems
  import opened Wrappers

  // ----- the numbers reported -----

  /** A row of some node's neighbour table about the other end, with its link
      quality as it arrived. */
  ghost predicate Heard(nodes: seq<MatterNode>, c: Connection, lqi: Option<nat>)
  {
    exists n, r | n in nodes && r in n.neighbours ::
      && r.ext.Some? && r.lqi == lqi
      && IsPair(IdOf(n), Resolved(ByAddress(nodes), r.ext.value), c.source, c.target)
  }

  /** A row of some node's route table. */
  ghost predicate Routed(nodes: seq<MatterNode>, c: Connection, lqi: Option<nat>)
  {
    exists n, r | n in nodes && r in n.routes ::
      && r.ext.Some? && r.lqi == lqi
      && IsPair(IdOf(n), Resolved(ByAddress(nodes), r.ext.value), c.source, c.target)
  }

  /** A node's signal strength at its access point, as it arrived. */
  ghost predicate OnWifi(nodes: seq<MatterNode>, c: Connection, rssi: Option<int>)
  {
    exists n | n in nodes ::
      n.bssid.Some? && n.rssi == rssi && IsPair(IdOf(n), AccessPointId(n.bssid.value), c.source, c.target)
  }

  /** Some report of the link, in either table, has a quality between two bounds
      once it is cut to eight bits. */
  ghost predicate Quality(nodes: seq<MatterNode>, c: Connection, from: nat, to: nat)
  {
    exists q: nat :: from <= q % 256 <= to && (Heard(nodes, c, Some(q)) || Routed(nodes, c, Some(q)))
  }

  ghost predicate HeardQuality(nodes: seq<MatterNode>, c: Connection, from: nat, to: nat)
  {
    exists q: nat :: from <= q % 256 <= to && Heard(nodes, c, Some(q))
  }

  /** Some node on Wi-Fi has a signal between two bounds once it is cut to sixteen
      bits. */
  ghost predicate Signal(nodes: seq<MatterNode>, c: Connection, from: int, to: int)
  {
    exists r: int :: from <= AsI16(r) <= to && OnWifi(nodes, c, Some(r))
  }

  // ----- from sightings back to numbers -----

  lemma HeardIsSighted(nodes: seq<MatterNode>, c: Connection, lqi: Option<nat>) returns (s: Sighting)
    requires Heard(nodes, c, lqi)
    ensures s in Reported(nodes) && s.Heard? && Sights(s, c.source, c.target)
    ensures s.info.strength == OfQuality(lqi)
  {
    var known := ByAddress(nodes);
    var n, r :| n in nodes && r in n.neighbours && r.ext.Some? && r.lqi == lqi
      && IsPair(IdOf(n), Resolved(known, r.ext.value), c.source, c.target);
    s := Topology.Heard(IdOf(n), Resolved(known, r.ext.value), "thread", AirInfo(r));
    HeardBy(IdOf(n), n.neighbours, known, s);
    ThreadSeenBy(nodes, known, s);
  }

  lemma WifiIsSighted(nodes: seq<MatterNode>, c: Connection, rssi: Option<int>) returns (s: Sighting)
    requires OnWifi(nodes, c, rssi)
    ensures s in Reported(nodes) && s.Heard? && Sights(s, c.source, c.target)
    ensures s.info.strength == OfSignal(rssi)
  {
    var n :| n in nodes && n.bssid.Some? && n.rssi == rssi
      && IsPair(IdOf(n), AccessPointId(n.bssid.value), c.source, c.target);
    s := WifiSightings(n)[0];
    WifiSeenBy(nodes, s);
  }

  /** Where a sighting's strength comes from. */
  ghost predicate ComesFrom(nodes: seq<MatterNode>, c: Connection, strength: string)
  {
    || (exists lqi: Option<nat> ::
          (Heard(nodes, c, lqi) || Routed(nodes, c, lqi)) && strength == OfQuality(lqi))
    || (exists rssi: Option<int> :: OnWifi(nodes, c, rssi) && strength == OfSignal(rssi))
  }

  function OfQuality(lqi: Option<nat>): string
  {
    if lqi.Some? then ThreadStrength(lqi.value % 256) else "unknown"
  }

  function OfSignal(rssi: Option<int>): string
  {
    if rssi.Some? then WifiStrength(AsI16(rssi.value)) else "unknown"
  }

  lemma SightingComesFrom(nodes: seq<MatterNode>, c: Connection, s: Sighting)
    requires s in Reported(nodes) && Sights(s, c.source, c.target)
    ensures ComesFrom(nodes, c, StrengthOf(s))
  {
    var known := ByAddress(nodes);
    WifiSeenBy(nodes, s);
    ThreadSeenBy(nodes, known, s);
    if n :| n in nodes && s in WifiSightings(n) {
      assert OnWifi(nodes, c, n.rssi);
    } else {
      var n :| n in nodes && s in ThreadSightings(n, known);
      ThreadSightingComesFrom(nodes, n, c, s);
    }
  }

  lemma ThreadSightingComesFrom(nodes: seq<MatterNode>, n: MatterNode, c: Connection, s: Sighting)
    requires n in nodes && s in ThreadSightings(n, ByAddress(nodes)) && Sights(s, c.source, c.target)
    ensures ComesFrom(nodes, c, StrengthOf(s))
  {
    var known := ByAddress(nodes);
    HeardBy(IdOf(n), n.neighbours, known, s);
    RoutedBy(IdOf(n), n.routes, known, s);
    if r :| r in n.neighbours && r.ext.Some?
            && s == Topology.Heard(IdOf(n), Resolved(known, r.ext.value), "thread", AirInfo(r)) {
      assert Heard(nodes, c, r.lqi);
    } else {
      var r :| r in n.routes && r.ext.Some? && s == RouteSighting(IdOf(n), r, known);
      assert Routed(nodes, c, r.lqi);
    }
  }

  // ----- the theorems -----

  /** A link is no weaker than any report that a neighbour table or a Wi-Fi node
      makes of it: three or more is strong, two medium, one weak, zero none. */
  lemma NoWeakerThanHeard(nodes: seq<MatterNode>, c: Connection)
    requires c in AllDrawn(Reported(nodes))
    ensures HeardQuality(nodes, c, 3, 255) || Signal(nodes, c, -55, 32767) ==> c.strength == "strong"
    ensures HeardQuality(nodes, c, 2, 255) || Signal(nodes, c, -67, 32767) ==> c.strength in {"strong", "medium"}
    ensures HeardQuality(nodes, c, 1, 255) || Signal(nodes, c, -80, 32767) ==>
      c.strength in {"strong", "medium", "weak"}
    ensures HeardQuality(nodes, c, 0, 255) || Signal(nodes, c, -32768, 32767) ==>
      c.strength in {"strong", "medium", "weak", "none"}
  {
    GraphSaysWhatWasHeard(nodes, c);
    forall q: nat | Heard(nodes, c, Some(q)) ensures AtLeast(c.strength, ThreadStrength(q % 256)) {
      var s := HeardIsSighted(nodes, c, Some(q));
    }
    forall r: int | OnWifi(nodes, c, Some(r)) ensures AtLeast(c.strength, WifiStrength(AsI16(r))) {
      var s := WifiIsSighted(nodes, c, Some(r));
    }
  }

  /** Read off the five names alone. */
  predicate AtLeast(strength: string, other: string)
  {
    match other
    case "strong" => strength == "strong"
    case "medium" => strength == "strong" || strength == "medium"
    case "weak" => strength == "strong" || strength == "medium" || strength == "weak"
    case "none" => strength == "strong" || strength == "medium" || strength == "weak" || strength == "none"
    case _ => true
  }

  /** The reports that account for each name. */
  ghost predicate Accounted(nodes: seq<MatterNode>, c: Connection, strength: string)
  {
    match strength
    case "strong" => Quality(nodes, c, 3, 255) || Signal(nodes, c, -55, 32767)
    case "medium" => Quality(nodes, c, 2, 2) || Signal(nodes, c, -67, -56)
    case "weak" => Quality(nodes, c, 1, 1) || Signal(nodes, c, -80, -68)
    case "none" => Quality(nodes, c, 0, 0) || Signal(nodes, c, -32768, -81)
    case "unknown" => true
    case _ => false
  }

  lemma QualityAccounts(nodes: seq<MatterNode>, c: Connection, q: nat)
    requires Heard(nodes, c, Some(q)) || Routed(nodes, c, Some(q))
    ensures Accounted(nodes, c, ThreadStrength(q % 256))
  {
    assert forall from: nat, to: nat | from <= q % 256 <= to :: Quality(nodes, c, from, to);
  }

  lemma SignalAccounts(nodes: seq<MatterNode>, c: Connection, r: int)
    requires OnWifi(nodes, c, Some(r))
    ensures Accounted(nodes, c, WifiStrength(AsI16(r)))
  {
    assert forall from: int, to: int | from <= AsI16(r) <= to :: Signal(nodes, c, from, to);
  }

  lemma OriginAccounts(nodes: seq<MatterNode>, c: Connection, strength: string)
    requires ComesFrom(nodes, c, strength)
    ensures Accounted(nodes, c, strength)
  {
    if lqi: Option<nat> :| (Heard(nodes, c, lqi) || Routed(nodes, c, lqi)) && strength == OfQuality(lqi) {
      if lqi.Some? {
        QualityAccounts(nodes, c, lqi.value);
      }
    } else {
      var rssi: Option<int> :| OnWifi(nodes, c, rssi) && strength == OfSignal(rssi);
      if rssi.Some? {
        SignalAccounts(nodes, c, rssi.value);
      }
    }
  }

  /** And no stronger than the best report of it. */
  lemma NoStrongerThanReported(nodes: seq<MatterNode>, c: Connection)
    requires c in AllDrawn(Reported(nodes))
    ensures c.strength in {"strong", "medium", "weak", "none", "unknown"}
    ensures c.strength == "strong" ==> Quality(nodes, c, 3, 255) || Signal(nodes, c, -55, 32767)
    ensures c.strength == "medium" ==> Quality(nodes, c, 2, 2) || Signal(nodes, c, -67, -56)
    ensures c.strength == "weak" ==> Quality(nodes, c, 1, 1) || Signal(nodes, c, -80, -68)
    ensures c.strength == "none" ==> Quality(nodes, c, 0, 0) || Signal(nodes, c, -32768, -81)
  {
    GraphSaysWhatWasHeard(nodes, c);
    var s :| s in Reported(nodes) && Sights(s, c.source, c.target) && StrengthOf(s) == c.strength;
    SightingComesFrom(nodes, c, s);
    OriginAccounts(nodes, c, c.strength);
  }
}

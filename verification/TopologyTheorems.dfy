/** What holds of every graph that is built, and what the order of the nodes has
    no say in. */
module TopologyTheorems {
  import opened Topology
  import opened TopologyBuild
  import opened TopologyProofs
  import opened WireNaming
  import opened Wrappers

  // ----- where sightings and strangers come from -----

  lemma {:induction false} HeardBy(source: string, rows: seq<Neighbour>, known: Known, s: Sighting)
    ensures s in NeighbourSightings(source, rows, known)
      <==> exists r | r in rows ::
             r.ext.Some? && s == Heard(source, Resolved(known, r.ext.value), "thread", AirInfo(r))
  {
    if rows != [] {
      var init, last := rows[..|rows| - 1], rows[|rows| - 1];
      HeardBy(source, init, known, s);
      assert rows == init + [last];
      if s in NeighbourSightings(source, init, known) {
        var r :| r in init && r.ext.Some? && s == Heard(source, Resolved(known, r.ext.value), "thread", AirInfo(r));
        assert r in rows;
      }
      assert last in rows;
    }
  }

  lemma {:induction false} RoutedBy(source: string, rows: seq<RouteRow>, known: Known, s: Sighting)
    ensures s in RouteSightings(source, rows, known)
      <==> exists r | r in rows :: r.ext.Some? && s == RouteSighting(source, r, known)
  {
    if rows != [] {
      var init, last := rows[..|rows| - 1], rows[|rows| - 1];
      RoutedBy(source, init, known, s);
      assert rows == init + [last];
      if s in RouteSightings(source, init, known) {
        var r :| r in init && r.ext.Some? && s == RouteSighting(source, r, known);
        assert r in rows;
      }
      assert last in rows;
    }
  }

  lemma {:induction false} StrangerHeardBy(node: MatterNode, rows: seq<Neighbour>, known: Known, g: GraphNode)
    ensures g in StrangersHeard(node, rows, known)
      <==> exists r | r in rows ::
             r.ext.Some? && Lookup(known, r.ext.value).None?
             && g == Stranger(r.ext.value, Mapped(r.rloc16, AsU16), node)
  {
    if rows != [] {
      var init, last := rows[..|rows| - 1], rows[|rows| - 1];
      StrangerHeardBy(node, init, known, g);
      assert rows == init + [last];
      if g in StrangersHeard(node, init, known) {
        var r :| r in init && r.ext.Some? && Lookup(known, r.ext.value).None?
          && g == Stranger(r.ext.value, Mapped(r.rloc16, AsU16), node);
        assert r in rows;
      }
      assert last in rows;
    }
  }

  lemma {:induction false} StrangerRoutedBy(node: MatterNode, rows: seq<RouteRow>, known: Known, g: GraphNode)
    ensures g in StrangersRouted(node, rows, known)
      <==> exists r | r in rows ::
             r.ext.Some? && Lookup(known, r.ext.value).None? && g == Stranger(r.ext.value, None, node)
  {
    if rows != [] {
      var init, last := rows[..|rows| - 1], rows[|rows| - 1];
      StrangerRoutedBy(node, init, known, g);
      assert rows == init + [last];
      if g in StrangersRouted(node, init, known) {
        var r :| r in init && r.ext.Some? && Lookup(known, r.ext.value).None? && g == Stranger(r.ext.value, None, node);
        assert r in rows;
      }
      assert last in rows;
    }
  }

  lemma {:induction false} ThreadSeenBy(nodes: seq<MatterNode>, known: Known, s: Sighting)
    ensures s in AllThread(nodes, known) <==> exists n | n in nodes :: s in ThreadSightings(n, known)
  {
    if nodes != [] {
      var init, last := nodes[..|nodes| - 1], nodes[|nodes| - 1];
      ThreadSeenBy(init, known, s);
      assert nodes == init + [last];
      if s in AllThread(init, known) {
        var n :| n in init && s in ThreadSightings(n, known);
        assert n in nodes;
      }
      assert last in nodes;
    }
  }

  lemma {:induction false} StrangerSeenBy(nodes: seq<MatterNode>, known: Known, g: GraphNode)
    ensures g in AllStrangers(nodes, known) <==> exists n | n in nodes :: g in Strangers(n, known)
  {
    if nodes != [] {
      var init, last := nodes[..|nodes| - 1], nodes[|nodes| - 1];
      StrangerSeenBy(init, known, g);
      assert nodes == init + [last];
      if g in AllStrangers(init, known) {
        var n :| n in init && g in Strangers(n, known);
        assert n in nodes;
      }
      assert last in nodes;
    }
  }

  // ----- who is in the graph -----

  /** An address that a node's tables hold. */
  predicate Mentions(node: MatterNode, ext: string)
  {
    || (exists r | r in node.neighbours :: r.ext == Some(ext))
    || (exists r | r in node.routes :: r.ext == Some(ext))
  }

  /** A stranger to the fabric, known from some node's tables. */
  ghost predicate StrangerTo(nodes: seq<MatterNode>, node: MatterNode, id: string)
  {
    exists ext :: Mentions(node, ext) && Lookup(ByAddress(nodes), ext).None? && id == UnknownId(ext)
  }

  ghost predicate Belongs(nodes: seq<MatterNode>, id: string)
  {
    exists n | n in nodes :: HasId(Brings(n), id) || StrangerTo(nodes, n, id)
  }

  lemma StrangersAreMentioned(nodes: seq<MatterNode>, node: MatterNode, id: string)
    ensures HasId(Strangers(node, ByAddress(nodes)), id) <==> StrangerTo(nodes, node, id)
  {
    var known := ByAddress(nodes);
    if HasId(Strangers(node, known), id) {
      var g :| g in Strangers(node, known) && g.id == id;
      StrangerHeardBy(node, node.neighbours, known, g);
      StrangerRoutedBy(node, node.routes, known, g);
      assert Mentions(node, g.ext.value);
    }
    if StrangerTo(nodes, node, id) {
      var ext :| Mentions(node, ext) && Lookup(known, ext).None? && id == UnknownId(ext);
      if r :| r in node.neighbours && r.ext == Some(ext) {
        StrangerHeardBy(node, node.neighbours, known, Stranger(ext, Mapped(r.rloc16, AsU16), node));
      } else {
        StrangerRoutedBy(node, node.routes, known, Stranger(ext, None, node));
      }
    }
  }

  lemma IntroducedIds(nodes: seq<MatterNode>, id: string)
    ensures HasId(Introduced(nodes), id) <==> Belongs(nodes, id)
  {
    var known := ByAddress(nodes);
    if HasId(Introduced(nodes), id) {
      var g :| g in Introduced(nodes) && g.id == id;
      BroughtBy(nodes, g);
      StrangerSeenBy(nodes, known, g);
      if n :| n in nodes && g in Strangers(n, known) {
        StrangersAreMentioned(nodes, n, id);
      }
    }
    if Belongs(nodes, id) {
      var n :| n in nodes && (HasId(Brings(n), id) || StrangerTo(nodes, n, id));
      StrangersAreMentioned(nodes, n, id);
      if HasId(Brings(n), id) {
        var g :| g in Brings(n) && g.id == id;
        BroughtBy(nodes, g);
      } else {
        var g :| g in Strangers(n, known) && g.id == id;
        StrangerSeenBy(nodes, known, g);
      }
    }
  }

  // ----- which pairs are linked -----

  predicate IsPair(a: string, b: string, x: string, y: string)
  {
    (a == x && b == y) || (a == y && b == x)
  }

  ghost predicate Reaches(nodes: seq<MatterNode>, node: MatterNode, a: string, b: string)
  {
    exists ext :: Mentions(node, ext) && IsPair(IdOf(node), Resolved(ByAddress(nodes), ext), a, b)
  }

  ghost predicate Related(nodes: seq<MatterNode>, a: string, b: string)
  {
    exists n | n in nodes ::
      || (n.bssid.Some? && IsPair(IdOf(n), AccessPointId(n.bssid.value), a, b))
      || Reaches(nodes, n, a, b)
  }

  lemma ThreadPairs(nodes: seq<MatterNode>, node: MatterNode, a: string, b: string)
    ensures Sighted(ThreadSightings(node, ByAddress(nodes)), a, b) <==> Reaches(nodes, node, a, b)
  {
    var known := ByAddress(nodes);
    if Sighted(ThreadSightings(node, known), a, b) {
      var s :| s in ThreadSightings(node, known) && Sights(s, a, b);
      HeardBy(IdOf(node), node.neighbours, known, s);
      RoutedBy(IdOf(node), node.routes, known, s);
      if r :| r in node.neighbours && r.ext.Some?
              && s == Heard(IdOf(node), Resolved(known, r.ext.value), "thread", AirInfo(r)) {
        assert Mentions(node, r.ext.value);
      } else {
        var r :| r in node.routes && r.ext.Some? && s == RouteSighting(IdOf(node), r, known);
        assert Mentions(node, r.ext.value);
      }
    }
    if Reaches(nodes, node, a, b) {
      var ext :| Mentions(node, ext) && IsPair(IdOf(node), Resolved(known, ext), a, b);
      if r :| r in node.neighbours && r.ext == Some(ext) {
        var s := Heard(IdOf(node), Resolved(known, ext), "thread", AirInfo(r));
        HeardBy(IdOf(node), node.neighbours, known, s);
        assert Sights(s, a, b);
      } else {
        var r :| r in node.routes && r.ext == Some(ext);
        var s := RouteSighting(IdOf(node), r, known);
        RoutedBy(IdOf(node), node.routes, known, s);
        assert Sights(s, a, b);
      }
    }
  }

  lemma ReportedPairs(nodes: seq<MatterNode>, a: string, b: string)
    ensures Sighted(Reported(nodes), a, b) <==> Related(nodes, a, b)
  {
    var known := ByAddress(nodes);
    if Sighted(Reported(nodes), a, b) {
      var s :| s in Reported(nodes) && Sights(s, a, b);
      WifiSeenBy(nodes, s);
      ThreadSeenBy(nodes, known, s);
      if n :| n in nodes && s in ThreadSightings(n, known) {
        ThreadPairs(nodes, n, a, b);
      }
    }
    if Related(nodes, a, b) {
      var n :| n in nodes
        && ((n.bssid.Some? && IsPair(IdOf(n), AccessPointId(n.bssid.value), a, b)) || Reaches(nodes, n, a, b));
      if Reaches(nodes, n, a, b) {
        ThreadPairs(nodes, n, a, b);
        var s :| s in ThreadSightings(n, known) && Sights(s, a, b);
        ThreadSeenBy(nodes, known, s);
      } else {
        var s := WifiSightings(n)[0];
        WifiSeenBy(nodes, s);
        assert s in Reported(nodes) && Sights(s, a, b);
      }
    }
  }

  // ----- looking addresses up -----

  lemma {:induction false} LookupFinds(known: Known, ext: string)
    ensures var id := Lookup(known, ext);
      if id.Some? then exists k | k in known :: k.1 == id.value && EqIgnoreCase(k.0, ext)
      else forall k | k in known :: !EqIgnoreCase(k.0, ext)
  {
    if known != [] {
      LookupFinds(known[1..], ext);
      assert known == [known[0]] + known[1..];
      if !EqIgnoreCase(known[0].0, ext) && Lookup(known[1..], ext).Some? {
        var k :| k in known[1..] && k.1 == Lookup(known[1..], ext).value && EqIgnoreCase(k.0, ext);
        assert k in known;
      }
    }
  }

  predicate HasAddress(node: MatterNode, ext: string)
  {
    node.ext.Address? && EqIgnoreCase(node.ext.hex, ext)
  }

  lemma {:induction false} KnownBy(nodes: seq<MatterNode>, k: (string, string))
    ensures k in ByAddress(nodes) <==> exists n | n in nodes :: n.ext.Address? && k == (n.ext.hex, IdOf(n))
  {
    if nodes != [] {
      var init, last := nodes[..|nodes| - 1], nodes[|nodes| - 1];
      KnownBy(init, k);
      assert nodes == init + [last];
      if k in ByAddress(init) {
        var n :| n in init && n.ext.Address? && k == (n.ext.hex, IdOf(n));
        assert n in nodes;
      }
      assert last in nodes;
    }
  }

  /** An address is known exactly if some node has it, and then stands for one
      such node. */
  lemma AddressIsKnown(nodes: seq<MatterNode>, ext: string)
    ensures var id := Lookup(ByAddress(nodes), ext);
      if id.Some? then exists n | n in nodes :: HasAddress(n, ext) && IdOf(n) == id.value
      else forall n | n in nodes :: !HasAddress(n, ext)
  {
    var known := ByAddress(nodes);
    LookupFinds(known, ext);
    var id := Lookup(known, ext);
    if id.Some? {
      var k :| k in known && k.1 == id.value && EqIgnoreCase(k.0, ext);
      KnownBy(nodes, k);
      var n :| n in nodes && n.ext.Address? && k == (n.ext.hex, IdOf(n));
      assert HasAddress(n, ext);
    } else {
      forall n | n in nodes && n.ext.Address? ensures !HasAddress(n, ext) {
        KnownBy(nodes, (n.ext.hex, IdOf(n)));
      }
    }
  }

  // ----- the theorems -----

  lemma NodeBelongs(nodes: seq<MatterNode>, node: MatterNode)
    requires node in nodes
    ensures Belongs(nodes, IdOf(node))
    ensures node.bssid.Some? ==> Belongs(nodes, AccessPointId(node.bssid.value))
  {
    assert Described(node) in Brings(node) && HasId(Brings(node), IdOf(node));
    if node.bssid.Some? {
      assert AccessPoint(node.bssid.value) in Brings(node);
      assert HasId(Brings(node), AccessPointId(node.bssid.value));
    }
  }

  lemma TargetBelongs(nodes: seq<MatterNode>, node: MatterNode, ext: string)
    requires node in nodes && Mentions(node, ext)
    ensures Belongs(nodes, Resolved(ByAddress(nodes), ext))
  {
    AddressIsKnown(nodes, ext);
    if Lookup(ByAddress(nodes), ext).Some? {
      var n :| n in nodes && HasAddress(n, ext) && IdOf(n) == Resolved(ByAddress(nodes), ext);
      NodeBelongs(nodes, n);
    } else {
      assert StrangerTo(nodes, node, UnknownId(ext));
    }
  }

  lemma RelatedBelong(nodes: seq<MatterNode>, a: string, b: string)
    requires Related(nodes, a, b)
    ensures Belongs(nodes, a) && Belongs(nodes, b)
  {
    var n :| n in nodes
      && ((n.bssid.Some? && IsPair(IdOf(n), AccessPointId(n.bssid.value), a, b)) || Reaches(nodes, n, a, b));
    NodeBelongs(nodes, n);
    if Reaches(nodes, n, a, b) {
      var ext :| Mentions(n, ext) && IsPair(IdOf(n), Resolved(ByAddress(nodes), ext), a, b);
      TargetBelongs(nodes, n, ext);
    }
  }

  /** The nodes of the graph: no id twice, and exactly the fabric, its access
      points, and the strangers its tables mention. */
  lemma GraphHoldsWhoBelongs(nodes: seq<MatterNode>)
    ensures IdsDiffer(Gathered(Introduced(nodes)))
    ensures forall id :: HasId(Gathered(Introduced(nodes)), id) <==> Belongs(nodes, id)
  {
    var introduced := Introduced(nodes);
    assert introduced[..|introduced|] == introduced;
    GatheredOnce(introduced, |introduced|);
    forall id ensures HasId(introduced, id) <==> Belongs(nodes, id) {
      IntroducedIds(nodes, id);
    }
  }

  /** Each node of the fabric is in the graph under its id, as it describes itself. */
  lemma NodesAreDescribed(nodes: seq<MatterNode>, node: MatterNode, g: GraphNode)
    requires NodeIdsDiffer(nodes) && node in nodes
    requires g in Gathered(Introduced(nodes)) && g.id == IdOf(node)
    ensures g.kind == "matter" && g.nodeId == Some(node.nodeId) && g.bssid == node.bssid
    ensures g.panId == node.panId && g.networkName == node.networkName
    ensures g.ext == if node.ext.Address? then Some(node.ext.hex) else None
    ensures g.rloc16 == if node.rloc16.Some? then Some(node.rloc16.value % 65536) else None
    ensures g.networkType
      == if node.role.Some? || !node.ext.NoAddress? then "thread" else if node.bssid.Some? then "wifi" else "unknown"
    ensures g.networkType != "thread" ==> g.role == if node.bssid.Some? then Some("station") else None
  {
    var introduced := Introduced(nodes);
    assert introduced[..|introduced|] == introduced;
    GatheredOnce(introduced, |introduced|);
    OnlyItsOwnDescription(nodes, node, g);
  }

  lemma OnlyItsOwnDescription(nodes: seq<MatterNode>, node: MatterNode, g: GraphNode)
    requires NodeIdsDiffer(nodes) && node in nodes && g in Introduced(nodes) && g.id == IdOf(node)
    ensures g == Described(node)
  {
    var known := ByAddress(nodes);
    BroughtBy(nodes, g);
    StrangerSeenBy(nodes, known, g);
    if n :| n in nodes && g in Brings(n) {
      if n.bssid.Some? {
        IdsOfKindsDiffer(node, n, n.bssid.value, "");
      } else {
        IdsOfKindsDiffer(node, n, "", "");
      }
      var i, j :| 0 <= i < |nodes| && 0 <= j < |nodes| && nodes[i] == n && nodes[j] == node;
      assert i == j;
    } else {
      var n :| n in nodes && g in Strangers(n, known);
      StrangersHaveTheirIds(n, known, g);
      var ext :| g.id == UnknownId(ext);
      IdsOfKindsDiffer(node, node, "", ext);
      assert false;
    }
  }

  lemma StrangersHaveTheirIds(node: MatterNode, known: Known, g: GraphNode)
    requires g in Strangers(node, known)
    ensures exists ext :: g.id == UnknownId(ext)
  {
    StrangerHeardBy(node, node.neighbours, known, g);
    StrangerRoutedBy(node, node.routes, known, g);
  }

  /** Its links: one for each related pair and no other, between nodes of the
      graph. */
  lemma GraphLinksWhoAreRelated(nodes: seq<MatterNode>)
    ensures PairsDiffer(AllDrawn(Reported(nodes)))
    ensures forall a, b :: Linked(AllDrawn(Reported(nodes)), a, b) <==> Related(nodes, a, b)
    ensures forall c | c in AllDrawn(Reported(nodes)) ::
      HasId(Gathered(Introduced(nodes)), c.source) && HasId(Gathered(Introduced(nodes)), c.target)
  {
    var sightings := Reported(nodes);
    assert sightings[..|sightings|] == sightings;
    OneLinkPerPair(sightings, |sightings|);
    forall a, b ensures Sighted(sightings, a, b) <==> Related(nodes, a, b) {
      ReportedPairs(nodes, a, b);
    }
    GraphHoldsWhoBelongs(nodes);
    forall c | c in AllDrawn(sightings)
      ensures HasId(Gathered(Introduced(nodes)), c.source) && HasId(Gathered(Introduced(nodes)), c.target)
    {
      assert LinksPair(c, c.source, c.target) && Linked(AllDrawn(sightings), c.source, c.target);
      RelatedBelong(nodes, c.source, c.target);
    }
  }

  lemma {:induction false} LastHeardWasHeard(sightings: seq<Sighting>, from: string, to: string)
    requires LastHeard(sightings, from, to).Some?
    ensures exists s | s in sightings ::
      s.Heard? && s.from == from && s.to == to && s.info == LastHeard(sightings, from, to).value
  {
    var init, last := sightings[..|sightings| - 1], sightings[|sightings| - 1];
    if last.Heard? && last.from == from && last.to == to {
      assert last in sightings;
    } else {
      LastHeardWasHeard(init, from, to);
      var s :| s in init && s.Heard? && s.from == from && s.to == to
        && s.info == LastHeard(sightings, from, to).value;
      assert s in sightings;
    }
  }

  /** Every link records each end's latest report of the other, and is at least as
      strong as either. */
  lemma GraphSaysWhatWasHeard(nodes: seq<MatterNode>, c: Connection)
    requires c in AllDrawn(Reported(nodes))
    ensures Faithful(c, Reported(nodes)) && Strong(c, Reported(nodes))
    ensures c.sourceToTarget.Some? ==> StrengthRank(c.strength) >= StrengthRank(c.sourceToTarget.value.strength)
    ensures c.targetToSource.Some? ==> StrengthRank(c.strength) >= StrengthRank(c.targetToSource.value.strength)
  {
    var sightings := Reported(nodes);
    assert sightings[..|sightings|] == sightings;
    LinksAreFaithful(sightings, |sightings|);
    LinksAreStrong(sightings, |sightings|);
    if c.sourceToTarget.Some? {
      LastHeardWasHeard(sightings, c.source, c.target);
    }
    if c.targetToSource.Some? {
      LastHeardWasHeard(sightings, c.target, c.source);
    }
  }

  // ----- the order of the nodes -----

  /** No two nodes claim one extended address. */
  ghost predicate AddressesDiffer(nodes: seq<MatterNode>)
  {
    forall n, m | n in nodes && m in nodes && n.ext.Address? && HasAddress(m, n.ext.hex) :: n == m
  }

  ghost predicate SameNodes(nodes: seq<MatterNode>, other: seq<MatterNode>)
  {
    forall n :: n in nodes <==> n in other
  }

  lemma SharedAddress(n: MatterNode, m: MatterNode, ext: string)
    requires HasAddress(n, ext) && HasAddress(m, ext)
    ensures HasAddress(m, n.ext.hex)
  {
    forall i | 0 <= i < |ext| ensures Lower(m.ext.hex[i]) == Lower(n.ext.hex[i]) {
      assert Lower(n.ext.hex[i]) == Lower(ext[i]);
    }
  }

  lemma SameLookup(nodes: seq<MatterNode>, other: seq<MatterNode>, ext: string)
    requires SameNodes(nodes, other) && AddressesDiffer(nodes)
    ensures Lookup(ByAddress(nodes), ext) == Lookup(ByAddress(other), ext)
  {
    AddressIsKnown(nodes, ext);
    AddressIsKnown(other, ext);
    var here, there := Lookup(ByAddress(nodes), ext), Lookup(ByAddress(other), ext);
    if here.Some? && there.Some? {
      var n :| n in nodes && HasAddress(n, ext) && IdOf(n) == here.value;
      var m :| m in other && HasAddress(m, ext) && IdOf(m) == there.value;
      SharedAddress(n, m, ext);
    }
  }

  lemma BelongsEitherWay(nodes: seq<MatterNode>, other: seq<MatterNode>, id: string)
    requires SameNodes(nodes, other) && forall ext :: Lookup(ByAddress(nodes), ext) == Lookup(ByAddress(other), ext)
    requires Belongs(nodes, id)
    ensures Belongs(other, id)
  {
    var n :| n in nodes && (HasId(Brings(n), id) || StrangerTo(nodes, n, id));
    assert n in other;
    if StrangerTo(nodes, n, id) {
      var ext :| Mentions(n, ext) && Lookup(ByAddress(nodes), ext).None? && id == UnknownId(ext);
      assert StrangerTo(other, n, id);
    }
  }

  lemma RelatedEitherWay(nodes: seq<MatterNode>, other: seq<MatterNode>, a: string, b: string)
    requires SameNodes(nodes, other) && forall ext :: Lookup(ByAddress(nodes), ext) == Lookup(ByAddress(other), ext)
    requires Related(nodes, a, b)
    ensures Related(other, a, b)
  {
    var n :| n in nodes
      && ((n.bssid.Some? && IsPair(IdOf(n), AccessPointId(n.bssid.value), a, b)) || Reaches(nodes, n, a, b));
    assert n in other;
    if Reaches(nodes, n, a, b) {
      var ext :| Mentions(n, ext) && IsPair(IdOf(n), Resolved(ByAddress(nodes), ext), a, b);
      assert IsPair(IdOf(n), Resolved(ByAddress(other), ext), a, b);
      assert Reaches(other, n, a, b);
    }
  }

  /** With addresses that differ, the same nodes in any order give the same ids
      and the same linked pairs. */
  lemma OrderDoesNotMatter(nodes: seq<MatterNode>, other: seq<MatterNode>)
    requires SameNodes(nodes, other) && AddressesDiffer(nodes)
    ensures forall id :: HasId(Gathered(Introduced(nodes)), id) <==> HasId(Gathered(Introduced(other)), id)
    ensures forall a, b :: Linked(AllDrawn(Reported(nodes)), a, b) <==> Linked(AllDrawn(Reported(other)), a, b)
  {
    forall ext ensures Lookup(ByAddress(nodes), ext) == Lookup(ByAddress(other), ext) {
      SameLookup(nodes, other, ext);
    }
    GraphHoldsWhoBelongs(nodes);
    GraphHoldsWhoBelongs(other);
    GraphLinksWhoAreRelated(nodes);
    GraphLinksWhoAreRelated(other);
    forall id ensures Belongs(nodes, id) <==> Belongs(other, id) {
      if Belongs(nodes, id) {
        BelongsEitherWay(nodes, other, id);
      }
      if Belongs(other, id) {
        BelongsEitherWay(other, nodes, id);
      }
    }
    forall a, b ensures Related(nodes, a, b) <==> Related(other, a, b) {
      if Related(nodes, a, b) {
        RelatedEitherWay(nodes, other, a, b);
      }
      if Related(other, a, b) {
        RelatedEitherWay(other, nodes, a, b);
      }
    }
  }
}

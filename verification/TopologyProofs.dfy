/** What gathering nodes and drawing links keeps, whatever is reported. */
module TopologyProofs {
  import opened Replay
  import opened Topology
  import opened Wrappers

  lemma GatheredOneMore(introduced: seq<GraphNode>, i: nat)
    requires i < |introduced|
    ensures Gathered(introduced[..i + 1]) == Joined(Gathered(introduced[..i]), introduced[i])
  {
    RunOneMore(Joined, [], introduced, i);
  }

  /** No id twice, and exactly the ids that were introduced. */
  lemma {:induction false} GatheredOnce(introduced: seq<GraphNode>, n: nat)
    requires n <= |introduced|
    ensures IdsDiffer(Gathered(introduced[..n]))
    ensures forall id :: HasId(Gathered(introduced[..n]), id) <==> HasId(introduced[..n], id)
    ensures forall g | g in Gathered(introduced[..n]) :: g in introduced[..n]
  {
    if n > 0 {
      GatheredOnce(introduced, n - 1);
      GatheredOneMore(introduced, n - 1);
      var before, last := Gathered(introduced[..n - 1]), introduced[n - 1];
      assert introduced[..n] == introduced[..n - 1] + [last];
      IdsOneMore(introduced[..n - 1], last);
      IdsJoined(before, last);
    }
  }

  lemma IdsOneMore(nodes: seq<GraphNode>, node: GraphNode)
    ensures forall id :: HasId(nodes + [node], id) <==> HasId(nodes, id) || id == node.id
  {
    forall id ensures HasId(nodes + [node], id) <==> HasId(nodes, id) || id == node.id {
      if HasId(nodes, id) {
        var n :| n in nodes && n.id == id;
        assert n in nodes + [node];
      }
      assert node in nodes + [node];
    }
  }

  lemma IdsJoined(nodes: seq<GraphNode>, node: GraphNode)
    requires IdsDiffer(nodes)
    ensures IdsDiffer(Joined(nodes, node))
    ensures forall id :: HasId(Joined(nodes, node), id) <==> HasId(nodes, id) || id == node.id
  {
    IdsOneMore(nodes, node);
    if !HasId(nodes, node.id) {
      forall i | 0 <= i < |nodes| ensures nodes[i].id != node.id {
        assert nodes[i] in nodes;
      }
    }
  }

  /** A node stays as it was first introduced. */
  lemma {:induction false} FirstIntroductionStands(introduced: seq<GraphNode>, i: nat, n: nat)
    requires i < n <= |introduced|
    requires forall j | 0 <= j < i :: introduced[j].id != introduced[i].id
    ensures introduced[i] in Gathered(introduced[..n])
  {
    GatheredOneMore(introduced, n - 1);
    if n - 1 > i {
      FirstIntroductionStands(introduced, i, n - 1);
    } else {
      GatheredOnce(introduced, i);
      assert !HasId(introduced[..i], introduced[i].id);
    }
  }

  // ----- links -----

  ghost predicate PairsDiffer(connections: seq<Connection>)
  {
    forall i, j | 0 <= i < j < |connections| :: !LinksPair(connections[i], connections[j].source, connections[j].target)
  }

  predicate Sights(sighting: Sighting, a: string, b: string)
  {
    (sighting.from == a && sighting.to == b) || (sighting.from == b && sighting.to == a)
  }

  ghost predicate Linked(connections: seq<Connection>, a: string, b: string)
  {
    exists c | c in connections :: LinksPair(c, a, b)
  }

  ghost predicate Sighted(sightings: seq<Sighting>, a: string, b: string)
  {
    exists s | s in sightings :: Sights(s, a, b)
  }

  lemma DrawnOneMore(sightings: seq<Sighting>, i: nat)
    requires i < |sightings|
    ensures AllDrawn(sightings[..i + 1]) == Drawn(AllDrawn(sightings[..i]), sightings[i])
  {
    RunOneMore(Drawn, [], sightings, i);
  }

  /** Drawing changes no link's ends, and adds one only for a new pair. */
  lemma DrawnEnds(connections: seq<Connection>, sighting: Sighting)
    ensures var drawn := Drawn(connections, sighting);
      && |connections| <= |drawn|
      && (forall i | 0 <= i < |connections| ::
            drawn[i].source == connections[i].source && drawn[i].target == connections[i].target)
      && (|drawn| > |connections| ==>
            && drawn == connections + [Link(sighting)]
            && forall c | c in connections :: !LinksPair(c, sighting.from, sighting.to))
  {
  }

  lemma DrawnLinks(connections: seq<Connection>, sighting: Sighting, a: string, b: string)
    ensures Linked(Drawn(connections, sighting), a, b) <==> Linked(connections, a, b) || Sights(sighting, a, b)
  {
    var drawn := Drawn(connections, sighting);
    DrawnEnds(connections, sighting);
    if Linked(connections, a, b) {
      var i :| 0 <= i < |connections| && LinksPair(connections[i], a, b);
      assert LinksPair(drawn[i], a, b) && drawn[i] in drawn;
    }
    if Sights(sighting, a, b) {
      var i := FirstLink(connections, sighting.from, sighting.to);
      assert LinksPair(drawn[i], a, b) && drawn[i] in drawn;
    }
    if Linked(drawn, a, b) {
      var i :| 0 <= i < |drawn| && LinksPair(drawn[i], a, b);
      if i < |connections| {
        assert LinksPair(connections[i], a, b) && connections[i] in connections;
      }
    }
  }

  lemma SightedOneMore(sightings: seq<Sighting>, i: nat, a: string, b: string)
    requires i < |sightings|
    ensures Sighted(sightings[..i + 1], a, b) <==> Sighted(sightings[..i], a, b) || Sights(sightings[i], a, b)
  {
    assert sightings[..i + 1] == sightings[..i] + [sightings[i]];
    if Sighted(sightings[..i], a, b) {
      var s :| s in sightings[..i] && Sights(s, a, b);
      assert s in sightings[..i + 1];
    }
    assert sightings[i] in sightings[..i + 1];
  }

  /** One link for each pair of ids that anything was reported about, and no
      other. */
  lemma {:induction false} OneLinkPerPair(sightings: seq<Sighting>, n: nat)
    requires n <= |sightings|
    ensures PairsDiffer(AllDrawn(sightings[..n]))
    ensures forall a, b :: Linked(AllDrawn(sightings[..n]), a, b) <==> Sighted(sightings[..n], a, b)
  {
    if n > 0 {
      OneLinkPerPair(sightings, n - 1);
      DrawnOneMore(sightings, n - 1);
      var before, last := AllDrawn(sightings[..n - 1]), sightings[n - 1];
      DrawnKeepsPairsApart(before, last);
      forall a, b ensures Linked(Drawn(before, last), a, b) <==> Sighted(sightings[..n], a, b) {
        DrawnLinks(before, last, a, b);
        SightedOneMore(sightings, n - 1, a, b);
      }
    }
  }

  lemma DrawnKeepsPairsApart(connections: seq<Connection>, sighting: Sighting)
    requires PairsDiffer(connections)
    ensures PairsDiffer(Drawn(connections, sighting))
  {
    DrawnEnds(connections, sighting);
  }

  // ----- directions and strength -----

  /** What `from` last reported about `to`. */
  function LastHeard(sightings: seq<Sighting>, from: string, to: string): Option<Info>
  {
    if sightings == [] then None
    else
      var last := sightings[|sightings| - 1];
      if last.Heard? && last.from == from && last.to == to then Some(last.info)
      else LastHeard(sightings[..|sightings| - 1], from, to)
  }

  /** A link records each end's latest report of the other. */
  ghost predicate Faithful(connection: Connection, sightings: seq<Sighting>)
  {
    && connection.sourceToTarget == LastHeard(sightings, connection.source, connection.target)
    && connection.targetToSource
       == if connection.source == connection.target then None
          else LastHeard(sightings, connection.target, connection.source)
  }

  lemma HeardOneMore(sightings: seq<Sighting>, i: nat, from: string, to: string)
    requires i < |sightings|
    ensures LastHeard(sightings[..i + 1], from, to)
      == if sightings[i].Heard? && sightings[i].from == from && sightings[i].to == to then Some(sightings[i].info)
         else LastHeard(sightings[..i], from, to)
  {
    assert sightings[..i + 1][..i] == sightings[..i];
  }

  lemma {:induction false} NothingHeard(sightings: seq<Sighting>, from: string, to: string)
    requires !Sighted(sightings, from, to)
    ensures LastHeard(sightings, from, to) == None
  {
    if sightings != [] {
      var i := |sightings| - 1;
      assert sightings[..i + 1] == sightings;
      SightedOneMore(sightings, i, from, to);
      NothingHeard(sightings[..i], from, to);
    }
  }

  lemma {:induction false} LinksAreFaithful(sightings: seq<Sighting>, n: nat)
    requires n <= |sightings|
    ensures forall c | c in AllDrawn(sightings[..n]) :: Faithful(c, sightings[..n])
  {
    if n > 0 {
      LinksAreFaithful(sightings, n - 1);
      DrawnOneMore(sightings, n - 1);
      OneLinkPerPair(sightings, n - 1);
      var before := AllDrawn(sightings[..n - 1]);
      var drawn := Drawn(before, sightings[n - 1]);
      forall j | 0 <= j < |drawn| ensures Faithful(drawn[j], sightings[..n]) {
        DrawnIsFaithful(sightings, n - 1, before, j);
      }
    }
  }

  lemma DrawnIsFaithful(sightings: seq<Sighting>, i: nat, before: seq<Connection>, j: nat)
    requires i < |sightings| && j < |Drawn(before, sightings[i])|
    requires PairsDiffer(before) && forall c | c in before :: Faithful(c, sightings[..i])
    requires forall a, b :: Linked(before, a, b) <==> Sighted(sightings[..i], a, b)
    ensures Faithful(Drawn(before, sightings[i])[j], sightings[..i + 1])
  {
    var sighting, c := sightings[i], Drawn(before, sightings[i])[j];
    HeardOneMore(sightings, i, c.source, c.target);
    HeardOneMore(sightings, i, c.target, c.source);
    DrawnEnds(before, sighting);
    if j == |before| {
      assert !Linked(before, sighting.from, sighting.to) && !Linked(before, sighting.to, sighting.from);
      NothingHeard(sightings[..i], c.source, c.target);
      NothingHeard(sightings[..i], c.target, c.source);
    } else {
      assert Faithful(before[j], sightings[..i]);
      if LinksPair(before[j], sighting.from, sighting.to) {
        OnlyLink(before, sighting.from, sighting.to, j);
      }
    }
  }

  lemma OnlyLink(connections: seq<Connection>, a: string, b: string, j: nat)
    requires PairsDiffer(connections) && j < |connections| && LinksPair(connections[j], a, b)
    ensures FirstLink(connections, a, b) == j
  {
    var i := FirstLink(connections, a, b);
    assert i <= j;
    if i < j {
      assert LinksPair(connections[i], connections[j].source, connections[j].target);
    }
  }

  function StrengthOf(sighting: Sighting): string
  {
    if sighting.Heard? then sighting.info.strength else sighting.strength
  }

  ghost predicate Attained(connection: Connection, sightings: seq<Sighting>)
  {
    exists s | s in sightings ::
      Sights(s, connection.source, connection.target) && StrengthOf(s) == connection.strength
  }

  /** A link is as strong as the strongest report either end ever made of it. */
  ghost predicate Strong(connection: Connection, sightings: seq<Sighting>)
  {
    && (forall s | s in sightings && s.Heard? && Sights(s, connection.source, connection.target) ::
          StrengthRank(connection.strength) >= StrengthRank(s.info.strength))
    && Attained(connection, sightings)
  }

  lemma {:induction false} LinksAreStrong(sightings: seq<Sighting>, n: nat)
    requires n <= |sightings|
    ensures forall c | c in AllDrawn(sightings[..n]) :: Strong(c, sightings[..n])
  {
    if n > 0 {
      LinksAreStrong(sightings, n - 1);
      DrawnOneMore(sightings, n - 1);
      OneLinkPerPair(sightings, n - 1);
      var before := AllDrawn(sightings[..n - 1]);
      var drawn := Drawn(before, sightings[n - 1]);
      forall j | 0 <= j < |drawn| ensures Strong(drawn[j], sightings[..n]) {
        DrawnIsStrong(sightings, n - 1, before, j);
      }
    }
  }

  lemma DrawnIsStrong(sightings: seq<Sighting>, i: nat, before: seq<Connection>, j: nat)
    requires i < |sightings| && j < |Drawn(before, sightings[i])|
    requires PairsDiffer(before) && forall c | c in before :: Strong(c, sightings[..i])
    requires forall a, b :: Linked(before, a, b) <==> Sighted(sightings[..i], a, b)
    ensures Strong(Drawn(before, sightings[i])[j], sightings[..i + 1])
  {
    var sighting, c := sightings[i], Drawn(before, sightings[i])[j];
    assert sightings[..i + 1] == sightings[..i] + [sighting];
    DrawnEnds(before, sighting);
    assert sighting in sightings[..i + 1];
    if j == |before| {
      assert !Linked(before, sighting.from, sighting.to);
      assert Sights(sighting, c.source, c.target);
      forall s | s in sightings[..i] ensures !Sights(s, c.source, c.target) {
        assert !Sighted(sightings[..i], sighting.from, sighting.to);
      }
    } else {
      if LinksPair(before[j], sighting.from, sighting.to) {
        OnlyLink(before, sighting.from, sighting.to, j);
      }
      OldLinkIsStrong(sightings[..i], sighting, before[j], c);
    }
  }

  lemma OldLinkIsStrong(earlier: seq<Sighting>, sighting: Sighting, before: Connection, after: Connection)
    requires Strong(before, earlier)
    requires
      after == if !LinksPair(before, sighting.from, sighting.to) || sighting.Routed? then before
               else Folded(before, sighting.from, sighting.info)
    ensures Strong(after, earlier + [sighting])
  {
    var s :| s in earlier && Sights(s, before.source, before.target) && StrengthOf(s) == before.strength;
    assert s in earlier + [sighting] && sighting in earlier + [sighting];
  }
}

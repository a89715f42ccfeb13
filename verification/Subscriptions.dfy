/** The subscriptions this controller holds, and the gate that a report passes
    before it touches a node (`server/src/matter/subscriptions.rs`,
    `server/src/matter/reports.rs`). Times are counted by one clock. */
module Subscriptions {
  import opened Wrappers

  datatype Entry = Entry(id: nat, maxInterval: nat, lastReport: nat)

  predicate Live(entry: Entry, now: nat)
  {
    now - entry.lastReport < entry.maxInterval * 2
  }

  /** What happened to subscriptions, oldest first. */
  datatype Happening =
    | Established(node: nat, id: nat, maxInterval: nat, at: nat)
    | Reported(node: nat, at: nat)
    | Forgotten(node: nat)

  /** What one happening leaves of a node's subscription. */
  function Then(before: Option<Entry>, happening: Happening, node: nat): Option<Entry>
  {
    if happening.node != node then before
    else
      match happening
      case Established(_, id, maxInterval, at) => Some(Entry(id, maxInterval, at))
      case Reported(_, at) => if before.Some? then Some(before.value.(lastReport := at)) else None
      case Forgotten(_) => None
  }

  /** What all of them leave. */
  function EntryAfter(history: seq<Happening>, node: nat): Option<Entry>
  {
    if history == [] then None
    else Then(EntryAfter(history[..|history| - 1], node), history[|history| - 1], node)
  }

  lemma EntryAfterOneMore(history: seq<Happening>, happening: Happening, node: nat)
    ensures EntryAfter(history + [happening], node) == Then(EntryAfter(history, node), happening, node)
  {
    assert (history + [happening])[..|history|] == history;
  }

  /** The subscription was established at that point, and since then neither
      replaced nor forgotten. */
  predicate Standing(history: seq<Happening>, node: nat, id: nat, i: nat)
  {
    && i < |history| && history[i].Established? && history[i].node == node && history[i].id == id
    && forall j | i < j < |history| && history[j].node == node :: history[j].Reported?
  }

  /** An id counts exactly if it is the last one established with that node, and
      not since forgotten. */
  lemma {:induction false} LastEstablishedCounts(history: seq<Happening>, node: nat, id: nat)
    ensures EntryAfter(history, node).Some? && EntryAfter(history, node).value.id == id
      <==> exists i :: Standing(history, node, id, i)
  {
    if history != [] {
      var n := |history| - 1;
      var init, last := history[..n], history[n];
      LastEstablishedCounts(init, node, id);
      if EntryAfter(history, node).Some? && EntryAfter(history, node).value.id == id {
        if last.node == node && last.Established? {
          assert Standing(history, node, id, n);
        } else {
          var i :| Standing(init, node, id, i);
          assert Standing(history, node, id, i);
        }
      }
      if i: nat :| Standing(history, node, id, i) {
        if i < n {
          assert Standing(init, node, id, i);
          assert history[n].node == node ==> history[n].Reported?;
        }
      }
    }
  }

  function EntryIn(entries: map<nat, Entry>, node: nat): Option<Entry>
  {
    if node in entries then Some(entries[node]) else None
  }

  function AllForgotten(nodes: seq<nat>): seq<Happening>
  {
    seq(|nodes|, i requires 0 <= i < |nodes| => Forgotten(nodes[i]))
  }

  datatype Verdict = Accept | Disown

  class Registry {
    var entries: map<nat, Entry>
    ghost var history: seq<Happening>

    ghost predicate Valid()
      reads this
    {
      forall node :: EntryAfter(history, node) == EntryIn(entries, node)
    }

    constructor ()
      ensures Valid() && entries == map[] && history == []
    {
      entries, history := map[], [];
    }

    ghost method Note(happening: Happening)
      requires Valid()
      modifies this`history
      ensures history == old(history) + [happening]
      ensures forall node :: EntryAfter(history, node) == Then(EntryIn(entries, node), happening, node)
    {
      forall node ensures EntryAfter(history + [happening], node) == Then(EntryIn(entries, node), happening, node) {
        EntryAfterOneMore(history, happening, node);
      }
      history := history + [happening];
    }

    /** `established`. */
    method Establish(node: nat, id: nat, maxInterval: nat, now: nat)
      requires Valid()
      modifies this
      ensures Valid() && history == old(history) + [Established(node, id, maxInterval, now)]
      ensures entries == old(entries)[node := Entry(id, maxInterval, now)]
    {
      Note(Established(node, id, maxInterval, now));
      entries := entries[node := Entry(id, maxInterval, now)];
    }

    /** `accepts`. */
    method Accepts(node: nat, id: nat) returns (accepted: bool)
      requires Valid()
      ensures accepted <==> exists i :: Standing(history, node, id, i)
    {
      LastEstablishedCounts(history, node, id);
      return node in entries && entries[node].id == id;
    }

    /** `note_report`. */
    method NoteReport(node: nat, now: nat)
      requires Valid()
      modifies this
      ensures Valid() && history == old(history) + [Reported(node, now)]
      ensures entries ==
        if node in old(entries) then old(entries)[node := old(entries)[node].(lastReport := now)] else old(entries)
    {
      Note(Reported(node, now));
      if node in entries {
        entries := entries[node := entries[node].(lastReport := now)];
      }
    }

    /** `forget`. */
    method Forget(node: nat)
      requires Valid()
      modifies this
      ensures Valid() && history == old(history) + [Forgotten(node)]
      ensures entries == old(entries) - {node}
    {
      Note(Forgotten(node));
      entries := entries - {node};
    }

    /** `is_live`. */
    predicate IsLive(node: nat, now: nat)
      reads this
    {
      node in entries && Live(entries[node], now)
    }

    /** `forget_silent`: what goes is exactly what is silent, so what is left is
        live. */
    method ForgetSilent(now: nat) returns (silent: seq<nat>)
      requires Valid()
      modifies this
      ensures Valid() && history == old(history) + AllForgotten(silent)
      ensures forall node :: node in silent <==> node in old(entries) && !Live(old(entries)[node], now)
      ensures forall node | node in old(entries) ::
        node in silent <==> now >= old(entries)[node].lastReport + 2 * old(entries)[node].maxInterval
      ensures entries == map node | node in old(entries) && Live(old(entries)[node], now) :: old(entries)[node]
      ensures forall node | node in entries :: IsLive(node, now)
    {
      silent := SilentOnes(now);
      for n := 0 to |silent|
        invariant Valid() && history == old(history) + AllForgotten(silent[..n])
        invariant entries == map node | node in old(entries) && node !in silent[..n] :: old(entries)[node]
      {
        assert silent[..n + 1] == silent[..n] + [silent[n]];
        Forget(silent[n]);
      }
      assert silent[..|silent|] == silent;
    }

    /** The nodes whose subscriptions are silent. */
    method SilentOnes(now: nat) returns (silent: seq<nat>)
      ensures forall node :: node in silent <==> node in entries && !Live(entries[node], now)
    {
      silent := [];
      var left := entries.Keys;
      while left != {}
        invariant left <= entries.Keys
        invariant forall node :: node in silent <==> node in entries && node !in left && !Live(entries[node], now)
        decreases |left|
      {
        var node :| node in left;
        left := left - {node};
        if !Live(entries[node], now) {
          silent := silent + [node];
        }
      }
    }

    /** `verdict`. */
    method Judge(node: nat, id: Option<nat>) returns (verdict: Verdict)
      requires Valid()
      ensures verdict == Accept <==> id.Some? && exists i :: Standing(history, node, id.value, i)
    {
      if id.None? {
        return Disown;
      }
      var accepted := Accepts(node, id.value);
      return if accepted then Accept else Disown;
    }
  }

  type Attributes = map<string, string>

  datatype Answer = Applied | InvalidSubscription | Failure

  /** The gate of `handle_report`. What a node is stored with changes only by a
      report on its own standing subscription, and only that node changes; a
      report that cannot be decoded still shows that the node is alive. */
  method HandleReport(registry: Registry, store: map<nat, Attributes>, node: nat, id: Option<nat>,
                      report: Option<Attributes>, now: nat)
    returns (answer: Answer, after: map<nat, Attributes>)
    requires registry.Valid()
    modifies registry
    ensures registry.Valid()
    ensures answer == InvalidSubscription
      <==> id.None? || !exists i :: Standing(old(registry.history), node, id.value, i)
    ensures answer == InvalidSubscription ==> after == store && registry.history == old(registry.history)
    ensures answer != InvalidSubscription ==> registry.history == old(registry.history) + [Reported(node, now)]
    ensures answer == Failure ==> after == store && report.None?
    ensures answer == Applied ==>
      report.Some? && after == if node in store then store[node := store[node] + report.value] else store
  {
    after := store;
    var verdict := registry.Judge(node, id);
    if verdict == Disown {
      return InvalidSubscription, store;
    }
    registry.NoteReport(node, now);
    if report.None? {
      return Failure, store;
    }
    if node in store {
      after := store[node := store[node] + report.value];
    }
    return Applied, after;
  }
}

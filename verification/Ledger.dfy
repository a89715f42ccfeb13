/** Picking an update from the ledger (`server/src/matter/dcl.rs`). */
module Ledger {
  import opened Wrappers

  /** What the ledger publishes about one version. */
  datatype Model = Model(version: nat, valid: bool, minApplicable: nat, maxApplicable: nat, url: string)

  /** A look-up of one version: it may fail, or find nothing. */
  type Lookup<!E> = nat -> Result<Option<Model>, E>

  predicate AppliesTo(model: Model, current: nat)
  {
    && model.valid && model.version > current
    && model.minApplicable <= current && model.maxApplicable >= current
    && model.url != ""
  }

  /** The version can be delivered to a device on the current one. */
  predicate Deliverable<E>(lookup: Lookup<E>, version: nat, current: nat)
  {
    && version > current && lookup(version).Ok? && lookup(version).value.Some?
    && AppliesTo(lookup(version).value.value, current)
  }

  predicate Descending(versions: seq<nat>)
  {
    forall i, j | 0 <= i < j < |versions| :: versions[i] >= versions[j]
  }

  function InsertDown(versions: seq<nat>, v: nat): (r: seq<nat>)
    requires Descending(versions)
    ensures Descending(r)
    ensures forall x :: x in r <==> x == v || x in versions
  {
    if versions == [] || v >= versions[0] then [v] + versions
    else
      var rest := InsertDown(versions[1..], v);
      assert forall i | 0 <= i < |rest| :: rest[i] <= versions[0] by {
        forall i | 0 <= i < |rest| ensures rest[i] <= versions[0] {
          assert rest[i] in rest;
        }
      }
      assert versions == [versions[0]] + versions[1..];
      [versions[0]] + rest
  }

  /** `filter` on newer versions, then `sort` from the newest down. */
  function Candidates(versions: seq<nat>, current: nat): (r: seq<nat>)
    ensures Descending(r) && forall x :: x in r <==> x in versions && x > current
  {
    if versions == [] then []
    else
      var rest := Candidates(versions[1..], current);
      if versions[0] > current then InsertDown(rest, versions[0]) else rest
  }

  /** Nothing newer can be delivered, and no look-up of anything newer failed. */
  ghost predicate NothingNewer<E>(versions: seq<nat>, lookup: Lookup<E>, current: nat, version: nat)
  {
    forall w | w in versions && w > version :: lookup(w).Ok? && !Deliverable(lookup, w, current)
  }

  /** `fetch`: the newest deliverable version. The ledger is asked from the newest
      version down, so an error can only hide older versions, never let one
      through. */
  method Fetch<E>(versions: seq<nat>, lookup: Lookup<E>, current: nat)
    returns (found: Result<Option<Model>, E>)
    ensures found.Ok? && found.value.Some? ==>
      exists v | v in versions ::
        Deliverable(lookup, v, current) && lookup(v) == found && NothingNewer(versions, lookup, current, v)
    ensures found.Ok? && found.value.Some? ==>
      var model := found.value.value;
      && model.valid && model.url != "" && current < model.version
      && model.minApplicable <= current <= model.maxApplicable
    ensures found == Ok(None) ==>
      forall v | v in versions && v > current && lookup(v).Ok? && lookup(v).value.Some? ::
        var model := lookup(v).value.value;
        || !model.valid || model.url == "" || model.version <= current
        || current < model.minApplicable || model.maxApplicable < current
    ensures found == Ok(None) ==> NothingNewer(versions, lookup, current, current)
    ensures found.Err? ==>
      exists v | v in versions ::
        v > current && lookup(v) == found && NothingNewer(versions, lookup, current, v)
  {
    var candidates := Candidates(versions, current);
    for i := 0 to |candidates|
      invariant Refused(candidates[..i], lookup, current)
    {
      var candidate := candidates[i];
      NewerWereRefused(versions, lookup, current, i);
      var model := lookup(candidate);
      if model.Err? {
        return Err(model.error);
      }
      if model.value.Some? && AppliesTo(model.value.value, current) {
        assert Deliverable(lookup, candidate, current);
        return Ok(model.value);
      }
      OneMoreRefused(candidates, lookup, current, i);
    }
    assert candidates[..|candidates|] == candidates;
    return Ok(None);
  }

  /** Look-ups that succeeded and found nothing to deliver. */
  ghost predicate Refused<E>(versions: seq<nat>, lookup: Lookup<E>, current: nat)
  {
    forall w | w in versions :: lookup(w).Ok? && !Deliverable(lookup, w, current)
  }

  lemma OneMoreRefused<E>(versions: seq<nat>, lookup: Lookup<E>, current: nat, i: nat)
    requires i < |versions| && Refused(versions[..i], lookup, current)
    requires lookup(versions[i]).Ok? && !Deliverable(lookup, versions[i], current)
    ensures Refused(versions[..i + 1], lookup, current)
  {
    assert versions[..i + 1] == versions[..i] + [versions[i]];
  }

  /** Every newer version than the candidate at hand was a candidate before it. */
  lemma NewerWereRefused<E>(versions: seq<nat>, lookup: Lookup<E>, current: nat, i: nat)
    requires i < |Candidates(versions, current)|
    requires Refused(Candidates(versions, current)[..i], lookup, current)
    ensures
      var candidate := Candidates(versions, current)[i];
      candidate in versions && candidate > current && NothingNewer(versions, lookup, current, candidate)
  {
    var candidates := Candidates(versions, current);
    assert candidates[i] in candidates;
    forall w | w in versions && w > candidates[i] ensures w in candidates[..i] {
      var j :| 0 <= j < |candidates| && candidates[j] == w;
      assert j < i && candidates[..i][j] == w;
    }
  }
}

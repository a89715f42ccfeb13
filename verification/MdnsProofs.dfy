/** Reading the same response again adds nothing. */
module MdnsProofs {
  import opened Mdns
  import opened Replay
  import opened Utf8
  import opened Wrappers

  // ----- the first pass absorbs its own repetition -----

  function At(instances: Instances, name: string): Option<Instance>
  {
    if name in instances then Some(instances[name]) else None
  }

  lemma SameEverywhere(a: Instances, b: Instances)
    requires forall name :: At(a, name) == At(b, name)
    ensures a == b
  {
    forall name ensures name in a <==> name in b {
      assert At(a, name) == At(b, name);
    }
    forall name | name in a ensures a[name] == b[name] {
      assert At(a, name) == At(b, name);
    }
  }

  /** What one record does to the one instance called `name`. */
  function Effect(message: seq<byte>, service: string, record: Record, name: string, held: Option<Instance>)
    : Option<Instance>
  {
    if Subject(message, service, record) == Some(name)
    then Some(Described(message, record, Entry(held, name, service)))
    else held
  }

  function Entry(held: Option<Instance>, name: string, service: string): Instance
  {
    if held.Some? then held.value else EntryOr(map[], name, service)
  }

  lemma NoteAt(message: seq<byte>, service: string, instances: Instances, record: Record, name: string)
    ensures At(Note(message, service, instances, record), name)
      == Effect(message, service, record, name, At(instances, name))
  {
  }

  predicate Readable(message: seq<byte>, record: Record)
  {
    record.kind == TYPE_SRV ==> |Data(message, record)| >= 6
  }

  lemma TxtLaws(t: Txt, a: Txt, b: Txt)
    ensures t + a + a == t + a && t + a + b + a == t + b + a
  {
  }

  lemma DescribedLaws(message: seq<byte>, f: Record, g: Record, i: Instance)
    requires Readable(message, f) && Readable(message, g)
    ensures Described(message, f, Described(message, f, i)) == Described(message, f, i)
    ensures Described(message, f, Described(message, g, Described(message, f, i)))
      == Described(message, f, Described(message, g, i))
  {
    TxtLaws(i.txt, TxtFrom(Data(message, f), 0, map[]), TxtFrom(Data(message, g), 0, map[]));
  }

  lemma EffectLaws(message: seq<byte>, service: string, f: Record, g: Record, name: string, held: Option<Instance>)
    ensures
      var F := held => Effect(message, service, f, name, held);
      var G := held => Effect(message, service, g, name, held);
      F(F(held)) == F(held) && F(G(F(held))) == F(G(held))
  {
    if Subject(message, service, f) == Some(name) {
      DescribedLaws(message, f, f, Entry(held, name, service));
      if Subject(message, service, g) == Some(name) {
        DescribedLaws(message, f, g, Entry(held, name, service));
      }
    }
  }

  lemma NotingAbsorbs(message: seq<byte>, service: string)
    ensures Absorbing(Noting(message, service))
  {
    var step := Noting(message, service);
    forall state, f ensures step(step(state, f), f) == step(state, f) {
      forall name ensures At(step(step(state, f), f), name) == At(step(state, f), name) {
        NoteAt(message, service, state, f, name);
        NoteAt(message, service, step(state, f), f, name);
        EffectLaws(message, service, f, f, name, At(state, name));
      }
      SameEverywhere(step(step(state, f), f), step(state, f));
    }
    forall state, f, g ensures step(step(step(state, f), g), f) == step(step(state, g), f) {
      forall name ensures At(step(step(step(state, f), g), f), name) == At(step(step(state, g), f), name) {
        NoteAt(message, service, state, f, name);
        NoteAt(message, service, step(state, f), g, name);
        NoteAt(message, service, step(step(state, f), g), f, name);
        NoteAt(message, service, state, g, name);
        NoteAt(message, service, step(state, g), f, name);
        EffectLaws(message, service, f, g, name, At(state, name));
      }
      SameEverywhere(step(step(step(state, f), g), f), step(step(state, g), f));
    }
  }

  lemma NotingTwice(message: seq<byte>, service: string, instances: Instances, records: seq<Record>)
    ensures var step := Noting(message, service);
      Run(step, Run(step, instances, records), records) == Run(step, instances, records)
  {
    NotingAbsorbs(message, service);
    AbsorbPrefix(Noting(message, service), instances, records, records);
  }

  // ----- the first pass does not look at addresses -----

  /** `b` is `a` with other addresses. */
  ghost predicate Readdressed(a: Instances, b: Instances)
  {
    && a.Keys == b.Keys
    && forall name | name in a :: b[name] == a[name].(addresses := b[name].addresses)
  }

  lemma NoteReaddressed(message: seq<byte>, service: string, a: Instances, b: Instances, record: Record)
    requires Readdressed(a, b)
    ensures var a', b' := Note(message, service, a, record), Note(message, service, b, record);
      && Readdressed(a', b')
      && (forall name | name in b :: name in b' && b'[name].addresses == b[name].addresses)
  {
  }

  lemma {:induction false} NotingReaddressed(
    message: seq<byte>, service: string, a: Instances, b: Instances, records: seq<Record>)
    requires Readdressed(a, b)
    ensures var step := Noting(message, service);
      && Readdressed(Run(step, a, records), Run(step, b, records))
      && (forall name | name in b ::
           name in Run(step, b, records) && Run(step, b, records)[name].addresses == b[name].addresses)
    decreases |records|
  {
    if records != [] {
      NoteReaddressed(message, service, a, b, records[0]);
      NotingReaddressed(message, service,
        Note(message, service, a, records[0]), Note(message, service, b, records[0]), records[1..]);
    }
  }

  // ----- the second pass -----

  predicate Has(instances: Instances, name: string, address: Address)
  {
    name in instances && address in instances[name].addresses
  }

  /** Nothing is lost by attaching an address, and what it attaches is there. */
  lemma AttachGrows(message: seq<byte>, hosts: Hosts, instances: Instances, record: Record)
    ensures var after := Attach(message, hosts, instances, record);
      && Readdressed(instances, after)
      && (forall name, address :: Has(instances, name, address) ==> Has(after, name, address))
      && Attach(message, hosts, after, record) == after
  {
    var after := Attach(message, hosts, instances, record);
    assert after.Keys == instances.Keys;
    OwnerByKeys(hosts, instances, after, record);
  }

  lemma OwnerByKeys(hosts: Hosts, a: Instances, b: Instances, record: Record)
    requires a.Keys == b.Keys
    ensures Owner(hosts, a, record) == Owner(hosts, b, record)
  {
  }

  /** Once a record's address is attached it stays so, whatever else is attached. */
  ghost predicate Settled(message: seq<byte>, hosts: Hosts, instances: Instances, record: Record)
  {
    Attach(message, hosts, instances, record) == instances
  }

  lemma SettledStays(message: seq<byte>, hosts: Hosts, instances: Instances, record: Record, other: Record)
    requires Settled(message, hosts, instances, record)
    ensures Settled(message, hosts, Attach(message, hosts, instances, other), record)
  {
    var after := Attach(message, hosts, instances, other);
    AttachGrows(message, hosts, instances, other);
    OwnerByKeys(hosts, instances, after, record);
    var address, owner := AddressOf(message, record), Owner(hosts, instances, record);
    if address.Some? && owner.Some? && owner.value in instances {
      assert Has(instances, owner.value, address.value);
      assert Has(after, owner.value, address.value);
      assert after[owner.value := after[owner.value]] == after;
    }
  }

  lemma {:induction false} AttachingSettles(
    message: seq<byte>, hosts: Hosts, instances: Instances, records: seq<Record>, n: nat)
    requires n <= |records|
    ensures var after := Run(Attaching(message, hosts), instances, records[..n]);
      && Readdressed(instances, after)
      && (forall name, address :: Has(instances, name, address) ==> Has(after, name, address))
      && (forall i | 0 <= i < n :: Settled(message, hosts, after, records[i]))
  {
    if n > 0 {
      AttachingSettles(message, hosts, instances, records, n - 1);
      RunOneMore(Attaching(message, hosts), instances, records, n - 1);
      var before := Run(Attaching(message, hosts), instances, records[..n - 1]);
      AttachGrows(message, hosts, before, records[n - 1]);
      forall i | 0 <= i < n - 1
        ensures Settled(message, hosts, Attach(message, hosts, before, records[n - 1]), records[i])
      {
        SettledStays(message, hosts, before, records[i], records[n - 1]);
      }
    }
  }

  lemma {:induction false} SettledRun(message: seq<byte>, hosts: Hosts, instances: Instances, records: seq<Record>)
    requires forall i | 0 <= i < |records| :: Settled(message, hosts, instances, records[i])
    ensures Run(Attaching(message, hosts), instances, records) == instances
    decreases |records|
  {
    if records != [] {
      assert Settled(message, hosts, instances, records[0]);
      SettledRun(message, hosts, instances, records[1..]);
    }
  }

  // ----- the theorems -----

  /** Folding the same response in twice is folding it in once. */
  lemma CollectingIsIdempotent(message: seq<byte>, service: string, instances: Instances)
    ensures Collected(message, service, Collected(message, service, instances))
      == Collected(message, service, instances)
  {
    if Records(message).Some? {
      var records := Records(message).value;
      var hosts := Run(NotingHosts(message, service), map[], records);
      var noted := Run(Noting(message, service), instances, records);
      var once := Run(Attaching(message, hosts), noted, records);
      assert records[..|records|] == records;
      AttachingSettles(message, hosts, noted, records, |records|);
      NotingTwice(message, service, instances, records);
      NotingReaddressed(message, service, noted, once, records);
      var again := Run(Noting(message, service), once, records);
      forall name ensures At(again, name) == At(once, name) {
      }
      SameEverywhere(again, once);
      SettledRun(message, hosts, once, records);
    }
  }

  /** No instance and no address is ever lost. */
  lemma CollectingGrows(message: seq<byte>, service: string, instances: Instances)
    ensures instances.Keys <= Collected(message, service, instances).Keys
    ensures forall name, address ::
      Has(instances, name, address) ==> Has(Collected(message, service, instances), name, address)
  {
    if Records(message).Some? {
      var records := Records(message).value;
      var hosts := Run(NotingHosts(message, service), map[], records);
      var noted := Run(Noting(message, service), instances, records);
      NotingReaddressed(message, service, instances, instances, records);
      assert records[..|records|] == records;
      AttachingSettles(message, hosts, noted, records, |records|);
    }
  }

  ghost predicate AddressesOnce(instances: Instances)
  {
    forall name | name in instances ::
      forall i, j | 0 <= i < j < |instances[name].addresses| ::
        instances[name].addresses[i] != instances[name].addresses[j]
  }

  lemma {:induction false} RunKeepsAddressesOnce(
    step: (Instances, Record) -> Instances, instances: Instances, records: seq<Record>)
    requires AddressesOnce(instances)
    requires forall i, r :: AddressesOnce(i) ==> AddressesOnce(step(i, r))
    ensures AddressesOnce(Run(step, instances, records))
    decreases |records|
  {
    if records != [] {
      RunKeepsAddressesOnce(step, step(instances, records[0]), records[1..]);
    }
  }

  /** No instance ever holds an address twice. */
  lemma CollectingKeepsAddressesOnce(message: seq<byte>, service: string, instances: Instances)
    requires AddressesOnce(instances)
    ensures AddressesOnce(Collected(message, service, instances))
  {
    if Records(message).Some? {
      var records := Records(message).value;
      var hosts := Run(NotingHosts(message, service), map[], records);
      var noted := Run(Noting(message, service), instances, records);
      RunKeepsAddressesOnce(Noting(message, service), instances, records);
      RunKeepsAddressesOnce(Attaching(message, hosts), noted, records);
    }
  }
}

/** What a response contributes (`server/src/matter/mdns_browser.rs`). */
module MdnsContents {
  import opened DnsNames
  import opened Mdns
  import opened MdnsProofs
  import opened Replay
  import opened Utf8
  import opened Wrappers

  function NotedAfter(message: seq<byte>, service: string, instances: Instances, records: seq<Record>): Instances
  {
    Run(Noting(message, service), instances, records)
  }

  function HostsAfter(message: seq<byte>, service: string, records: seq<Record>): Hosts
  {
    Run(NotingHosts(message, service), map[], records)
  }

  // ----- the instances a response names -----

  lemma {:induction false} SubjectIsNoted(
    message: seq<byte>, service: string, instances: Instances, records: seq<Record>, i: nat, n: nat)
    requires i < n <= |records| && Subject(message, service, records[i]).Some?
    ensures
      Subject(message, service, records[i]).value in NotedAfter(message, service, instances, records[..n])
    decreases n
  {
    if i < n - 1 {
      SubjectIsNoted(message, service, instances, records, i, n - 1);
    }
    RunOneMore(Noting(message, service), instances, records, n - 1);
    KeysStay(message, service, NotedAfter(message, service, instances, records[..n - 1]), records[n - 1]);
  }

  lemma KeysStay(message: seq<byte>, service: string, instances: Instances, record: Record)
    ensures var after := Note(message, service, instances, record);
      && instances.Keys <= after.Keys
      && (Subject(message, service, record).Some? ==> Subject(message, service, record).value in after)
  {
  }

  /** Of the records about an instance, the last service record sets its port, and
      its host where that can be read. */
  predicate LastService(message: seq<byte>, service: string, records: seq<Record>, i: nat)
  {
    && i < |records| && records[i].kind == TYPE_SRV && Subject(message, service, records[i]).Some?
    && forall j | i < j < |records| && records[j].kind == TYPE_SRV ::
         Subject(message, service, records[j]) != Subject(message, service, records[i])
  }

  predicate Serving(message: seq<byte>, record: Record, instance: Instance)
    requires |Data(message, record)| >= 6
  {
    && instance.port == Some(U16(Data(message, record), 4))
    && var target := SrvTarget(message, record);
       target.Some? ==> instance.host == Some(TrimDots(target.value))
  }

  lemma ServiceIsNoted(message: seq<byte>, service: string, instances: Instances, record: Record)
    requires record.kind == TYPE_SRV && Subject(message, service, record).Some?
    ensures |Data(message, record)| >= 6 && Subject(message, service, record).value == record.name
    ensures
      var after := Note(message, service, instances, record);
      record.name in after && Serving(message, record, after[record.name])
  {
  }

  lemma ServiceStays(
    message: seq<byte>, service: string, instances: Instances, name: string, record: Record, other: Record)
    requires |Data(message, record)| >= 6 && name in instances && Serving(message, record, instances[name])
    requires other.kind == TYPE_SRV ==> Subject(message, service, other) != Some(name)
    ensures
      var after := Note(message, service, instances, other);
      name in after && Serving(message, record, after[name])
  {
  }

  lemma {:induction false} ServiceIsKept(
    message: seq<byte>, service: string, instances: Instances, records: seq<Record>, i: nat, n: nat)
    requires i < n <= |records| && LastService(message, service, records, i)
    ensures
      var after, name := NotedAfter(message, service, instances, records[..n]), records[i].name;
      && |Data(message, records[i])| >= 6 && name in after && Serving(message, records[i], after[name])
  {
    RunOneMore(Noting(message, service), instances, records, n - 1);
    var before := NotedAfter(message, service, instances, records[..n - 1]);
    ServiceIsNoted(message, service, before, records[i]);
    if i < n - 1 {
      ServiceIsKept(message, service, instances, records, i, n - 1);
      ServiceStays(message, service, before, records[i].name, records[i], records[n - 1]);
    }
  }

  // ----- the hosts it names -----

  /** The service record names the host, and no later one does. */
  predicate LastNaming(message: seq<byte>, service: string, records: seq<Record>, i: nat, host: string)
  {
    && i < |records| && Names(message, service, records[i], host)
    && forall j | i < j < |records| :: !Names(message, service, records[j], host)
  }

  predicate Names(message: seq<byte>, service: string, record: Record, host: string)
  {
    && record.kind == TYPE_SRV && Subject(message, service, record).Some?
    && SrvTarget(message, record).Some? && Lower(SrvTarget(message, record).value) == host
  }

  lemma {:induction false} HostIsKept(
    message: seq<byte>, service: string, records: seq<Record>, i: nat, host: string, n: nat)
    requires i < n <= |records| && LastNaming(message, service, records, i, host)
    ensures
      var hosts := HostsAfter(message, service, records[..n]);
      host in hosts && hosts[host] == records[i].name
  {
    RunOneMore(NotingHosts(message, service), map[], records, n - 1);
    if i < n - 1 {
      HostIsKept(message, service, records, i, host, n - 1);
      assert !Names(message, service, records[n - 1], host);
    }
  }

  // ----- the theorems -----

  /** Every instance that a readable pointer, service or text record is about is
      known afterwards. */
  lemma SubjectsAreCollected(message: seq<byte>, service: string, instances: Instances, i: nat)
    requires Records(message).Some? && i < |Records(message).value|
    requires Subject(message, service, Records(message).value[i]).Some?
    ensures
      Subject(message, service, Records(message).value[i]).value in Collected(message, service, instances)
  {
    var records := Records(message).value;
    assert records[..|records|] == records;
    SubjectIsNoted(message, service, instances, records, i, |records|);
    var noted := NotedAfter(message, service, instances, records);
    AttachingSettles(message, HostsAfter(message, service, records), noted, records, |records|);
  }

  /** The last service record about an instance sets its port and its host. */
  lemma ServicesAreCollected(message: seq<byte>, service: string, instances: Instances, i: nat)
    requires Records(message).Some? && LastService(message, service, Records(message).value, i)
    ensures
      var record, after := Records(message).value[i], Collected(message, service, instances);
      && |Data(message, record)| >= 6
      && record.name in after && Serving(message, record, after[record.name])
  {
    var records := Records(message).value;
    assert records[..|records|] == records;
    ServiceIsKept(message, service, instances, records, i, |records|);
    var noted := NotedAfter(message, service, instances, records);
    AttachingSettles(message, HostsAfter(message, service, records), noted, records, |records|);
  }

  /** An address whose host a service record of the response names is afterwards an
      address of that record's instance. */
  lemma AddressesAreCollected(message: seq<byte>, service: string, instances: Instances, i: nat, a: nat)
    requires Records(message).Some? && a < |Records(message).value|
    requires AddressOf(message, Records(message).value[a]).Some?
    requires LastNaming(message, service, Records(message).value, i, Lower(Records(message).value[a].name))
    ensures
      Has(Collected(message, service, instances), Records(message).value[i].name,
          AddressOf(message, Records(message).value[a]).value)
  {
    var records := Records(message).value;
    assert records[..|records|] == records;
    var hosts, noted := HostsAfter(message, service, records), NotedAfter(message, service, instances, records);
    HostIsKept(message, service, records, i, Lower(records[a].name), |records|);
    SubjectIsNoted(message, service, instances, records, i, |records|);
    ServiceIsNoted(message, service, noted, records[i]);
    AttachingSettles(message, hosts, noted, records, |records|);
    var after := Run(Attaching(message, hosts), noted, records);
    SettledHas(message, hosts, after, records[a], records[i].name);
  }

  lemma SettledHas(message: seq<byte>, hosts: Hosts, instances: Instances, record: Record, name: string)
    requires Settled(message, hosts, instances, record) && AddressOf(message, record).Some?
    requires Lower(record.name) in hosts && hosts[Lower(record.name)] == name && name in instances
    ensures Has(instances, name, AddressOf(message, record).value)
  {
    var address := AddressOf(message, record).value;
    assert instances[name := WithAddress(instances[name], address)] == instances;
    assert instances[name] == WithAddress(instances[name], address);
  }
}

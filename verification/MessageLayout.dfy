/** DNS messages byte by byte (`server/src/matter/mdns_browser.rs`; RFC 1035,
    section 4.1): where records stand, and what an announced service comes to. */
module MessageLayout {
  import opened DnsNames
  import opened Mdns
  import opened MdnsContents
  import opened MdnsProofs
  import opened Utf8
  import WireNaming
  import opened Wrappers

  // ----- records where they stand -----

  /** A 16-bit number, its high byte first. */
  predicate NumberStands(message: seq<byte>, offset: nat, n: nat)
  {
    && n < 65536 && offset + 1 < |message|
    && message[offset] == n / 256 && message[offset + 1] == n % 256
  }

  lemma NumberIsRead(message: seq<byte>, offset: nat, n: nat)
    requires NumberStands(message, offset, n)
    ensures U16(message, offset) == n
  {
    var high: int := message[offset];
    assert high * 256 + n % 256 == n;
  }

  /** A name, then ten bytes that begin with the type and end with the length of the
      data, then the data. */
  ghost predicate RecordStands(message: seq<byte>, offset: nat, record: Record)
  {
    && record.dataOffset >= 10 && Name(message, offset) == Some((record.name, record.dataOffset - 10))
    && NumberStands(message, record.dataOffset - 10, record.kind)
    && NumberStands(message, record.dataOffset - 2, record.dataLen)
    && record.dataOffset + record.dataLen <= |message|
  }

  ghost predicate RecordsStand(message: seq<byte>, offset: nat, records: seq<Record>)
    decreases |records|
  {
    records == [] ||
    (RecordStands(message, offset, records[0])
     && RecordsStand(message, records[0].dataOffset + records[0].dataLen, records[1..]))
  }

  /** Questions: names, each with four bytes behind it. */
  ghost predicate QuestionsStand(message: seq<byte>, offset: nat, count: nat, end: nat)
    decreases count
  {
    if count == 0 then offset == end
    else Name(message, offset).Some? && QuestionsStand(message, Name(message, offset).value.1 + 4, count - 1, end)
  }

  lemma RecordIsRead(message: seq<byte>, offset: nat, record: Record)
    requires RecordStands(message, offset, record)
    ensures RecordAt(message, offset) == Whole(record)
  {
    NumberIsRead(message, record.dataOffset - 10, record.kind);
    NumberIsRead(message, record.dataOffset - 2, record.dataLen);
  }

  lemma {:induction false} RecordsAreRead(message: seq<byte>, offset: nat, records: seq<Record>)
    requires RecordsStand(message, offset, records)
    ensures RecordsFrom(message, offset, |records|) == Some(records)
    decreases |records|
  {
    if records != [] {
      RecordIsRead(message, offset, records[0]);
      var end := records[0].dataOffset + records[0].dataLen;
      RecordsAreRead(message, end, records[1..]);
      assert [records[0]] + records[1..] == records;
      assert RecordsFrom(message, offset, |records|) == Before([records[0]], RecordsFrom(message, end, |records| - 1));
    }
  }

  lemma {:induction false} QuestionsArePassed(message: seq<byte>, offset: nat, count: nat, end: nat)
    requires QuestionsStand(message, offset, count, end)
    ensures SkipQuestions(message, offset, count) == Some(end)
    decreases count
  {
    if count > 0 {
      QuestionsArePassed(message, Name(message, offset).value.1 + 4, count - 1, end);
    }
  }

  /** What the header counts, and where the first record stands. */
  datatype Header = Header(questions: nat, answers: nat, authorities: nat, additional: nat, start: nat)

  /** A whole message: four counts in the header's last eight bytes, the questions,
      and the records of all three sections. */
  ghost predicate MessageStands(message: seq<byte>, header: Header, records: seq<Record>)
  {
    && NumberStands(message, 4, header.questions) && NumberStands(message, 6, header.answers)
    && NumberStands(message, 8, header.authorities) && NumberStands(message, 10, header.additional)
    && |records| == header.answers + header.authorities + header.additional
    && QuestionsStand(message, 12, header.questions, header.start)
    && RecordsStand(message, header.start, records)
  }

  /** The records of a well-formed message are read as they stand. */
  lemma MessageIsRead(message: seq<byte>, header: Header, records: seq<Record>)
    requires MessageStands(message, header, records)
    ensures Records(message) == Some(records)
  {
    NumberIsRead(message, 4, header.questions);
    NumberIsRead(message, 6, header.answers);
    NumberIsRead(message, 8, header.authorities);
    NumberIsRead(message, 10, header.additional);
    QuestionsArePassed(message, 12, header.questions, header.start);
    RecordsAreRead(message, header.start, records);
  }

  // ----- an announced service -----

  /** Names are compared without case. */
  lemma LowerForgetsCase(a: string, b: string)
    ensures Lower(a) == Lower(b) <==> WireNaming.EqIgnoreCase(a, b)
  {
    if WireNaming.EqIgnoreCase(a, b) {
      forall i | 0 <= i < |a| ensures Lower(a)[i] == Lower(b)[i] {
        assert WireNaming.Lower(a[i]) == WireNaming.Lower(b[i]);
      }
    }
    if Lower(a) == Lower(b) {
      assert |a| == |Lower(a)| == |b|;
      forall i | 0 <= i < |a| ensures WireNaming.Lower(a[i]) == WireNaming.Lower(b[i]) {
        assert Lower(a)[i] == Lower(b)[i];
      }
    }
  }

  /** A service record (RFC 2782, type 33) of an instance: a port in its fifth and
      sixth bytes, and behind them the name of a host. */
  ghost predicate ServiceStands(message: seq<byte>, service: string, record: Record, port: nat, host: string)
  {
    && record.kind == 33 && record.dataLen >= 6 && record.dataOffset + record.dataLen <= |message|
    && Serves(record.name, service) && NumberStands(message, record.dataOffset + 4, port)
    && exists end :: Name(message, record.dataOffset + 6) == Some((host, end))
  }

  lemma ServiceIsRead(message: seq<byte>, service: string, record: Record, port: nat, host: string)
    requires ServiceStands(message, service, record, port, host)
    ensures record.kind == TYPE_SRV && Subject(message, service, record) == Some(record.name)
    ensures |Data(message, record)| >= 6 && U16(Data(message, record), 4) == port
    ensures SrvTarget(message, record) == Some(host)
  {
    var data := Data(message, record);
    assert data == message[record.dataOffset..record.dataOffset + record.dataLen];
    assert data[4] == message[record.dataOffset + 4] && data[5] == message[record.dataOffset + 5];
    NumberIsRead(message, record.dataOffset + 4, port);
  }

  /** The last service record of its instance in a message gives the instance its
      port and its host. */
  lemma ServiceIsAnnounced(
    message: seq<byte>, service: string, instances: Instances, header: Header, records: seq<Record>,
    i: nat, port: nat, host: string)
    requires MessageStands(message, header, records) && i < |records|
    requires ServiceStands(message, service, records[i], port, host)
    requires forall j | i < j < |records| && records[j].kind == 33 :: records[j].name != records[i].name
    ensures
      var after, name := Collected(message, service, instances), records[i].name;
      name in after && after[name].port == Some(port) && after[name].host == Some(TrimDots(host))
  {
    MessageIsRead(message, header, records);
    ServiceIsRead(message, service, records[i], port, host);
    ServicesAreCollected(message, service, instances, i);
  }

  /** And an address record of that host, of four bytes with type 1 or of sixteen
      with type 28 (RFC 3596), gives it an address, wherever the two stand and
      however the host is spelt. */
  lemma AddressIsAnnounced(
    message: seq<byte>, service: string, instances: Instances, header: Header, records: seq<Record>,
    i: nat, port: nat, host: string,
    a: nat)
    requires MessageStands(message, header, records) && i < |records| && a < |records|
    requires ServiceStands(message, service, records[i], port, host)
    requires forall j | i < j < |records| && records[j].kind == 33 :: !NamesHost(message, records[j], host)
    requires WireNaming.EqIgnoreCase(records[a].name, host)
    requires (records[a].kind == 1 && records[a].dataLen == 4) || (records[a].kind == 28 && records[a].dataLen == 16)
    requires records[a].dataOffset + records[a].dataLen <= |message|
    ensures
      var bytes := message[records[a].dataOffset..records[a].dataOffset + records[a].dataLen];
      Has(Collected(message, service, instances), records[i].name,
          if records[a].kind == 1 then V4(bytes) else V6(bytes))
  {
    MessageIsRead(message, header, records);
    ServiceIsRead(message, service, records[i], port, host);
    LowerForgetsCase(records[a].name, host);
    LastToNameIt(message, service, records, i, host);
    AddressIsRead(message, records[a]);
    AddressesAreCollected(message, service, instances, i, a);
  }

  /** The record's data can be read as the name of that host. */
  ghost predicate NamesHost(message: seq<byte>, record: Record, host: string)
  {
    var name := Name(message, record.dataOffset + 6);
    name.Some? && WireNaming.EqIgnoreCase(name.value.0, host)
  }

  lemma LastToNameIt(message: seq<byte>, service: string, records: seq<Record>, i: nat, host: string)
    requires i < |records| && records[i].kind == 33 && Subject(message, service, records[i]).Some?
    requires SrvTarget(message, records[i]) == Some(host)
    requires forall j | i < j < |records| && records[j].kind == 33 :: !NamesHost(message, records[j], host)
    ensures LastNaming(message, service, records, i, Lower(host))
  {
    forall j | i < j < |records| ensures !Names(message, service, records[j], Lower(host)) {
      var target := SrvTarget(message, records[j]);
      if target.Some? {
        LowerForgetsCase(target.value, host);
      }
    }
  }

  lemma AddressIsRead(message: seq<byte>, record: Record)
    requires (record.kind == 1 && record.dataLen == 4) || (record.kind == 28 && record.dataLen == 16)
    requires record.dataOffset + record.dataLen <= |message|
    ensures
      var bytes := message[record.dataOffset..record.dataOffset + record.dataLen];
      AddressOf(message, record) == Some(if record.kind == 1 then V4(bytes) else V6(bytes))
  {
    var data := Data(message, record);
    assert data[..|data|] == data;
  }

  /** A pointer record (type 12) of the service makes an instance known by the name
      it points to. */
  lemma InstanceIsAnnounced(
    message: seq<byte>, service: string, instances: Instances, header: Header, records: seq<Record>,
    i: nat, name: string, end: nat)
    requires MessageStands(message, header, records) && i < |records| && records[i].kind == 12
    requires WireNaming.EqIgnoreCase(records[i].name, TrimDots(service))
    requires Name(message, records[i].dataOffset) == Some((name, end))
    ensures name in Collected(message, service, instances)
  {
    MessageIsRead(message, header, records);
    LowerForgetsCase(records[i].name, TrimDots(service));
    SubjectsAreCollected(message, service, instances, i);
  }

  /** An instance goes by its name without the service. */
  lemma InstanceLabel(own: string, service: string)
    ensures StripService(own + "." + TrimDots(service), service) == own
    ensures Serves(own + "." + TrimDots(service), service)
  {
    var name, suffix := own + "." + TrimDots(service), Suffix(service);
    assert name == own + suffix;
    assert Lower(name)[|own|..] == Lower(suffix);
    assert name[..|own|] == own;
  }

  /** An address of a host that no service record names goes to the only instance
      there is. */
  lemma OnlyInstanceGetsTheAddress(
    message: seq<byte>, hosts: Hosts, instances: Instances, record: Record, name: string)
    requires instances.Keys == {name} && Lower(record.name) !in hosts
    requires AddressOf(message, record).Some?
    ensures Has(Attach(message, hosts, instances, record), name, AddressOf(message, record).value)
  {
    assert name in instances && forall other | other in instances :: other == name;
  }
}

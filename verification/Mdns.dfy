/** Reading mDNS responses into a map of service instances
    (`server/src/matter/mdns_browser.rs`). */
module Mdns {
  import opened DnsNames
  import opened Replay
  import opened Text
  import opened Utf8
  import opened Wrappers

  // ----- records -----

  const TYPE_A: nat := 1
  const TYPE_PTR: nat := 12
  const TYPE_TXT: nat := 16
  const TYPE_AAAA: nat := 28
  const TYPE_SRV: nat := 33

  datatype Record = Record(name: string, kind: nat, dataOffset: nat, dataLen: nat)

  /** A record's data, cut to the message. */
  function Data(message: seq<byte>, record: Record): seq<byte>
  {
    var end := record.dataOffset + record.dataLen;
    var to := if end <= |message| then end else |message|;
    if record.dataOffset <= to then message[record.dataOffset..to] else []
  }

  function U16(message: seq<byte>, offset: nat): nat
    requires offset + 1 < |message|
  {
    var high: int := message[offset];
    high * 256 + message[offset + 1]
  }

  /** Past `count` questions. */
  function SkipQuestions(message: seq<byte>, offset: nat, count: nat): Option<nat>
    decreases count
  {
    if count == 0 then Some(offset)
    else
      var (_, next) :- Name(message, offset);
      SkipQuestions(message, next + 4, count - 1)
  }

  /** The record at `offset`: nothing when its name cannot be read, and cut off
      when it does not fit. */
  datatype Head = BadName | CutOff | Whole(record: Record)

  function RecordAt(message: seq<byte>, offset: nat): Head
  {
    var name := Name(message, offset);
    if name.None? then BadName
    else
      var next := name.value.1;
      if next + 10 > |message| then CutOff
      else
        var length := U16(message, next + 8);
        if next + 10 + length > |message| then CutOff
        else Whole(Record(name.value.0, U16(message, next), next + 10, length))
  }

  /** Up to `count` records from `offset` on. */
  function RecordsFrom(message: seq<byte>, offset: nat, count: nat): Option<seq<Record>>
    decreases count
  {
    if count == 0 then Some([])
    else
      match RecordAt(message, offset)
      case BadName => None
      case CutOff => Some([])
      case Whole(record) => Before([record], RecordsFrom(message, record.dataOffset + record.dataLen, count - 1))
  }

  function Before(read: seq<Record>, rest: Option<seq<Record>>): Option<seq<Record>>
  {
    if rest.Some? then Some(read + rest.value) else None
  }

  function Records(message: seq<byte>): Option<seq<Record>>
  {
    if |message| < 12 then None
    else
      var offset :- SkipQuestions(message, 12, U16(message, 4));
      RecordsFrom(message, offset, U16(message, 6) + U16(message, 8) + U16(message, 10))
  }

  /** Every record lies whole inside the message, and each starts after the one
      before it has ended. */
  ghost predicate InOrderInside(message: seq<byte>, records: seq<Record>, from: nat)
  {
    && (forall i | 0 <= i < |records| ::
         from + 11 <= records[i].dataOffset && records[i].dataOffset + records[i].dataLen <= |message|)
    && (forall i, j | 0 <= i < j < |records| ::
         records[i].dataOffset + records[i].dataLen + 11 <= records[j].dataOffset)
  }

  lemma {:induction false} RecordsAdvance(message: seq<byte>, offset: nat, count: nat)
    requires RecordsFrom(message, offset, count).Some?
    ensures InOrderInside(message, RecordsFrom(message, offset, count).value, offset)
    ensures |RecordsFrom(message, offset, count).value| <= count
    decreases count
  {
    if count > 0 && RecordAt(message, offset).Whole? {
      var record := RecordAt(message, offset).record;
      var end := record.dataOffset + record.dataLen;
      ParsingAdvances(message, offset);
      RecordsAdvance(message, end, count - 1);
      InOrderCons(message, record, RecordsFrom(message, end, count - 1).value, offset);
    }
  }

  lemma InOrderCons(message: seq<byte>, record: Record, rest: seq<Record>, from: nat)
    requires from + 11 <= record.dataOffset && record.dataOffset + record.dataLen <= |message|
    requires InOrderInside(message, rest, record.dataOffset + record.dataLen)
    ensures InOrderInside(message, [record] + rest, from)
  {
  }

  /** `parse_records`. */
  method ParseRecords(message: seq<byte>) returns (records: Option<seq<Record>>)
    ensures records == Records(message)
    ensures records.Some? ==> exists from :: from >= 12 && InOrderInside(message, records.value, from)
  {
    if |message| < 12 {
      return None;
    }
    var questions := U16(message, 4);
    var offset: nat := 12;
    for n := 0 to questions
      invariant offset >= 12
      invariant SkipQuestions(message, 12, questions) == SkipQuestions(message, offset, questions - n)
    {
      var name := ParseName(message, offset);
      if name.None? {
        return None;
      }
      ParsingAdvances(message, offset);
      offset := name.value.1 + 4;
    }
    var count := U16(message, 6) + U16(message, 8) + U16(message, 10);
    records := ReadRecords(message, offset, count);
    if records.Some? {
      RecordsAdvance(message, offset, count);
    }
  }

  method ReadRecords(message: seq<byte>, start: nat, count: nat) returns (records: Option<seq<Record>>)
    ensures records == RecordsFrom(message, start, count)
  {
    ghost var all := RecordsFrom(message, start, count);
    var found: seq<Record> := [];
    var offset: nat := start;
    BeforeNothing(all);
    for n := 0 to count
      invariant all == Before(found, RecordsFrom(message, offset, count - n))
    {
      var head := ReadRecord(message, offset);
      if head.BadName? {
        return None;
      }
      if head.CutOff? {
        break;
      }
      var end := head.record.dataOffset + head.record.dataLen;
      BeforeOne(found, head.record, RecordsFrom(message, end, count - n - 1));
      found := found + [head.record];
      offset := end;
    }
    assert found + [] == found;
    return Some(found);
  }

  method ReadRecord(message: seq<byte>, offset: nat) returns (head: Head)
    ensures head == RecordAt(message, offset)
  {
    var name := ParseName(message, offset);
    if name.None? {
      return BadName;
    }
    var next := name.value.1;
    if next + 10 > |message| {
      return CutOff;
    }
    var kind, length := U16(message, next), U16(message, next + 8);
    if next + 10 + length > |message| {
      return CutOff;
    }
    return Whole(Record(name.value.0, kind, next + 10, length));
  }

  lemma BeforeNothing(rest: Option<seq<Record>>)
    ensures Before([], rest) == rest
  {
    if rest.Some? {
      assert [] + rest.value == rest.value;
    }
  }

  lemma BeforeOne(read: seq<Record>, record: Record, rest: Option<seq<Record>>)
    ensures Before(read + [record], rest) == Before(read, Before([record], rest))
  {
    if rest.Some? {
      Associative(read, [record], rest.value);
    }
  }

  // ----- TXT data -----

  type Txt = map<string, seq<byte>>

  function IndexOf(b: seq<byte>, wanted: byte): (i: nat)
    ensures i <= |b| && wanted !in b[..i]
    ensures i < |b| ==> b[i] == wanted
  {
    if b == [] || b[0] == wanted then 0 else 1 + IndexOf(b[1..], wanted)
  }

  /** One `key=value` string, or a bare key; a key that is not text is passed over. */
  function WithEntry(txt: Txt, entry: seq<byte>): Txt
  {
    var split := IndexOf(entry, 0x3D);
    var key := Decode(entry[..split]);
    if key.None? then txt
    else txt[key.value := if split < |entry| then entry[split + 1..] else []]
  }

  /** Length-prefixed strings from `offset` up to the first that is empty or cut
      off; a repeated key keeps its last value. */
  function TxtFrom(data: seq<byte>, offset: nat, txt: Txt): Txt
    decreases if offset < |data| then |data| - offset else 0
  {
    if offset >= |data| then txt
    else
      var next := offset + 1 + data[offset];
      if data[offset] == 0 || next > |data| then txt
      else TxtFrom(data, next, WithEntry(txt, data[offset + 1..next]))
  }

  method ParseTxt(data: seq<byte>) returns (txt: Txt)
    ensures txt == TxtFrom(data, 0, map[])
  {
    txt := map[];
    var offset: nat := 0;
    while offset < |data|
      invariant TxtFrom(data, 0, map[]) == TxtFrom(data, offset, txt)
    {
      var length: int := data[offset];
      offset := offset + 1;
      if length == 0 || offset + length > |data| {
        break;
      }
      txt := AddEntry(txt, data[offset..offset + length]);
      offset := offset + length;
    }
  }

  method AddEntry(txt: Txt, entry: seq<byte>) returns (more: Txt)
    ensures more == WithEntry(txt, entry)
  {
    more := txt;
    var split := IndexOf(entry, 0x3D);
    if split < |entry| {
      var key := Decode(entry[..split]);
      if key.Some? {
        more := more[key.value := entry[split + 1..]];
      }
    } else {
      assert entry[..split] == entry;
      var key := Decode(entry);
      if key.Some? {
        more := more[key.value := []];
      }
    }
  }

  // ----- instances -----

  datatype Address = V4(octets: seq<byte>) | V6(octets: seq<byte>)

  datatype Instance = Instance(
    name: string, host: Option<string>, port: Option<nat>, addresses: seq<Address>, txt: Txt)

  type Instances = map<string, Instance>

  function Lower(text: string): string
  {
    seq(|text|, i requires 0 <= i < |text| => if 'A' <= text[i] <= 'Z' then text[i] + ' ' else text[i])
  }

  function Suffix(service: string): string
  {
    "." + TrimDots(service)
  }

  predicate Serves(name: string, service: string)
  {
    EndsWith(Lower(name), Lower(Suffix(service)))
  }

  /** The instance's own label, without the service. */
  function StripService(name: string, service: string): string
  {
    if Serves(name, service) then name[..|name| - |Suffix(service)|] else name
  }

  /** `entry(name).or_insert_with(..)`. */
  function EntryOr(instances: Instances, name: string, service: string): Instance
  {
    if name in instances then instances[name] else Instance(StripService(name, service), None, None, [], map[])
  }

  /** The host an SRV record names, when its target can be read. */
  function SrvTarget(message: seq<byte>, record: Record): Option<string>
  {
    var (target, _) :- Name(message, record.dataOffset + 6);
    Some(target)
  }

  /** The name of the instance a record is about, if it is about one. */
  function Subject(message: seq<byte>, service: string, record: Record): Option<string>
  {
    if record.kind == TYPE_PTR then
      if Lower(record.name) != Lower(TrimDots(service)) then None
      else
        var (target, _) :- Name(message, record.dataOffset);
        Some(target)
    else if record.kind == TYPE_SRV then
      if Serves(record.name, service) && |Data(message, record)| >= 6 then Some(record.name) else None
    else if record.kind == TYPE_TXT then
      if Serves(record.name, service) then Some(record.name) else None
    else None
  }

  /** What a record says about its instance. */
  function Described(message: seq<byte>, record: Record, instance: Instance): Instance
    requires record.kind == TYPE_SRV ==> |Data(message, record)| >= 6
  {
    if record.kind == TYPE_SRV then
      var target := SrvTarget(message, record);
      instance.(
        port := Some(U16(Data(message, record), 4)),
        host := if target.Some? then Some(TrimDots(target.value)) else instance.host)
    else if record.kind == TYPE_TXT then instance.(txt := instance.txt + TxtFrom(Data(message, record), 0, map[]))
    else instance
  }

  /** The first pass: PTR, SRV and TXT records establish instances. */
  function Note(message: seq<byte>, service: string, instances: Instances, record: Record): Instances
  {
    var name := Subject(message, service, record);
    if name.None? then instances
    else instances[name.value := Described(message, record, EntryOr(instances, name.value, service))]
  }

  type Hosts = map<string, string>

  function NoteHost(message: seq<byte>, service: string, hosts: Hosts, record: Record): Hosts
  {
    if record.kind == TYPE_SRV && Subject(message, service, record).Some? && SrvTarget(message, record).Some?
    then hosts[Lower(SrvTarget(message, record).value) := record.name]
    else hosts
  }

  function AddressOf(message: seq<byte>, record: Record): Option<Address>
  {
    var data := Data(message, record);
    if record.kind == TYPE_A && |data| >= 4 then Some(V4(data[..4]))
    else if record.kind == TYPE_AAAA && |data| >= 16 then Some(V6(data[..16]))
    else None
  }

  /** The instance whose SRV named this host, or the only one there is. */
  function Owner(hosts: Hosts, instances: Instances, record: Record): Option<string>
  {
    if Lower(record.name) in hosts then Some(hosts[Lower(record.name)])
    else if exists name | name in instances :: instances.Keys == {name} then
      var name :| name in instances && instances.Keys == {name};
      Some(name)
    else None
  }

  function WithAddress(instance: Instance, address: Address): Instance
  {
    if address in instance.addresses then instance
    else instance.(addresses := instance.addresses + [address])
  }

  /** The second pass: an address record attaches its address. */
  function Attach(message: seq<byte>, hosts: Hosts, instances: Instances, record: Record): Instances
  {
    var address, owner := AddressOf(message, record), Owner(hosts, instances, record);
    if address.Some? && owner.Some? && owner.value in instances
    then instances[owner.value := WithAddress(instances[owner.value], address.value)]
    else instances
  }

  function Noting(message: seq<byte>, service: string): (Instances, Record) -> Instances
  {
    (instances, record) => Note(message, service, instances, record)
  }

  function NotingHosts(message: seq<byte>, service: string): (Hosts, Record) -> Hosts
  {
    (hosts, record) => NoteHost(message, service, hosts, record)
  }

  function Attaching(message: seq<byte>, hosts: Hosts): (Instances, Record) -> Instances
  {
    (instances, record) => Attach(message, hosts, instances, record)
  }

  /** Every record of one response folded into the instance map. */
  function Collected(message: seq<byte>, service: string, instances: Instances): Instances
  {
    var records := Records(message);
    if records.None? then instances
    else
      var hosts := Run(NotingHosts(message, service), map[], records.value);
      var noted := Run(Noting(message, service), instances, records.value);
      Run(Attaching(message, hosts), noted, records.value)
  }

  class Browse {
    var instances: Instances

    /** The first pass over one record. */
    method NoteRecord(message: seq<byte>, service: string, hosts: Hosts, record: Record) returns (known: Hosts)
      modifies this
      ensures instances == Note(message, service, old(instances), record)
      ensures known == NoteHost(message, service, hosts, record)
    {
      known := hosts;
      if record.kind == TYPE_PTR {
        if Lower(record.name) != Lower(TrimDots(service)) {
          return;
        }
        var target := ParseName(message, record.dataOffset);
        if target.Some? {
          instances := instances[target.value.0 := EntryOr(instances, target.value.0, service)];
        }
      } else if record.kind == TYPE_SRV {
        var data := Data(message, record);
        if !Serves(record.name, service) || |data| < 6 {
          return;
        }
        var target := ParseName(message, record.dataOffset + 6);
        var entry := EntryOr(instances, record.name, service).(port := Some(U16(data, 4)));
        if target.Some? {
          known := known[Lower(target.value.0) := record.name];
          entry := entry.(host := Some(TrimDots(target.value.0)));
        }
        instances := instances[record.name := entry];
      } else if record.kind == TYPE_TXT {
        if !Serves(record.name, service) {
          return;
        }
        var entry := EntryOr(instances, record.name, service);
        var txt := ParseTxt(Data(message, record));
        instances := instances[record.name := entry.(txt := entry.txt + txt)];
      }
    }

    /** The second pass over one record. */
    method AttachRecord(message: seq<byte>, hosts: Hosts, record: Record)
      modifies this
      ensures instances == Attach(message, hosts, old(instances), record)
    {
      var address := AddressOf(message, record);
      if address.None? {
        return;
      }
      var owner := Owner(hosts, instances, record);
      if owner.Some? && owner.value in instances {
        var entry := instances[owner.value];
        if address.value !in entry.addresses {
          entry := entry.(addresses := entry.addresses + [address.value]);
        }
        instances := instances[owner.value := entry];
      }
    }

    /** `collect_answers`. */
    method CollectAnswers(message: seq<byte>, service: string)
      modifies this
      ensures instances == Collected(message, service, old(instances))
    {
      var parsed := ParseRecords(message);
      if parsed.None? {
        return;
      }
      var records := parsed.value;
      ghost var start := instances;
      var hosts: Hosts := map[];
      for i := 0 to |records|
        invariant instances == Run(Noting(message, service), start, records[..i])
        invariant hosts == Run(NotingHosts(message, service), map[], records[..i])
      {
        RunOneMore(Noting(message, service), start, records, i);
        RunOneMore(NotingHosts(message, service), map[], records, i);
        hosts := NoteRecord(message, service, hosts, records[i]);
      }
      assert records[..|records|] == records;
      ghost var noted := instances;
      for i := 0 to |records|
        invariant instances == Run(Attaching(message, hosts), noted, records[..i])
      {
        RunOneMore(Attaching(message, hosts), noted, records, i);
        AttachRecord(message, hosts, records[i]);
      }
      assert records[..|records|] == records;
    }
  }
}

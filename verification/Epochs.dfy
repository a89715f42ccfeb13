/** Epoch-typed attributes: Matter counts from 2000, clients from 1970
    (`server/src/matter/tlv_json.rs`, `server/src/matter/clusters.rs`). */
module Epochs {
  import opened FieldKinds
  import opened Json
  import opened Tlv
  import opened TlvJson
  import opened TlvJsonProofs
  import opened Wrappers

  const MAX_U64 := 0xFFFF_FFFF_FFFF_FFFF

  datatype EpochUnit = Seconds | Micros

  function UnixOffset(unit: EpochUnit): u64
  {
    match unit
    case Seconds => 946_684_800
    case Micros => 946_684_800 * 1_000_000
  }

  /** Matter epoch to Unix; what is not an unsigned count stays as it is. */
  function ToUnixTime(value: Json, unit: EpochUnit): Json
  {
    if value.Num? && value.number.PosInt? then
      var sum := value.number.value + UnixOffset(unit);
      Num(PosInt(if sum <= MAX_U64 then sum else MAX_U64))
    else value
  }

  /** An attribute report in JSON. */
  function AttributeToJson(unit: Option<EpochUnit>, element: Element): Json
  {
    var value := Decoded(element, map[]);
    if unit.Some? then ToUnixTime(value, unit.value) else value
  }

  /** An attribute value to write, from JSON. */
  function AttributeValueFromJson(unit: Option<EpochUnit>, value: Json): Result<Node, Error>
  {
    if unit.Some? && value.Num? && value.number.PosInt? then
      var offset := UnixOffset(unit.value);
      Ok(U64Node(if value.number.value >= offset then value.number.value - offset else 0))
    else Resolved(value, OtherKind)
  }

  /** Writing an epoch attribute and reading it back gives the instant written,
      or the first one a device can hold: every 64-bit value is covered. */
  lemma EpochsComeBack(unit: EpochUnit, unix: u64)
    ensures
      var node := AttributeValueFromJson(Some(unit), Num(PosInt(unix)));
      && node.Ok?
      && AttributeToJson(Some(unit), ElementOf(node.value))
         == Num(PosInt(if unix >= UnixOffset(unit) then unix else UnixOffset(unit)))
  {
  }

  /** Any other attribute comes back by tag, as it was written. */
  lemma OtherAttributesComeBack(value: Json)
    requires AttributeValueFromJson(None, value).Ok?
    ensures AttributeToJson(None, ElementOf(AttributeValueFromJson(None, value).value)) == ByTag(value, OtherKind)
  {
    DecodedIsByTag(value, OtherKind);
  }

  /** What a device reports and a client writes back reaches it unchanged exactly
      when the sum fits in 64 bits. */
  lemma ReportsGoBack(unit: EpochUnit, matter: u64)
    ensures
      AttributeValueFromJson(Some(unit), AttributeToJson(Some(unit), Single(Unsigned(matter)))) == Ok(U64Node(matter))
      <==> matter + UnixOffset(unit) <= MAX_U64
  {
  }

  /** Matter's epoch began 30 years after the other, seven of them leap years. */
  lemma EpochsInNumbers(matter: u64)
    ensures 946_684_800 == 86400 * (30 * 365 + 7)
    ensures matter + 946_684_800 <= MAX_U64 ==>
      AttributeToJson(Some(Seconds), Single(Unsigned(matter))) == Num(PosInt(matter + 946_684_800))
    ensures matter + 946_684_800_000_000 <= MAX_U64 ==>
      AttributeToJson(Some(Micros), Single(Unsigned(matter))) == Num(PosInt(matter + 946_684_800_000_000))
  {
  }
}

/** The wire names themselves: the acronym table, the names fixed by hand, and
    the lookups that ignore case and separators
    (`server/src/matter/wire_naming.rs`, `server/src/matter/clusters.rs`). */
module WireNames {
  import opened WireNaming
  import opened WireNamingProofs
  import opened Wrappers

  const ACRONYMS_1: seq<string> := [
    "SNTPNTS", "NTPNTS", "BLEUWB", "HVAC", "ICAC", "DAC", "MAC", "EVSE", "RFID", "PIR", "IPV"]
  const ACRONYMS_2: seq<string> := [
    "ANSI", "BDX", "BLE", "CEC", "CO", "CSR", "DNS", "DST", "ESA", "EV", "GHG", "ICD", "IEC", "IP"]
  const ACRONYMS_3: seq<string> := [
    "LED", "MLE", "NFC", "NOC", "SNTP", "NTP", "OTA", "PAI", "PHY", "PIN", "PI", "PV", "PAKE"]
  const ACRONYMS_4: seq<string> := [
    "IPK", "LQI", "URI", "RF", "RMS", "UTC", "TC", "URL", "UWB", "VID", "AC", "ID"]

  /** The acronyms the chip SDK keeps uppercase, in the order they are applied. */
  const ACRONYMS: seq<string> := ACRONYMS_1 + ACRONYMS_2 + ACRONYMS_3 + ACRONYMS_4

  predicate EndsInS(a: string)
  {
    |a| > 0 && a[|a| - 1] == 'S'
  }

  lemma FirstRow(a: string)
    requires a in ACRONYMS_1
    ensures IsAcronym(a) && (EndsInS(a) ==> a in {"SNTPNTS", "NTPNTS"})
    ensures a !in {"SNTPNT", "NTPNT", "DN", "RM"}
  {
  }

  lemma SecondRow(a: string)
    requires a in ACRONYMS_2
    ensures IsAcronym(a) && (EndsInS(a) ==> a == "DNS")
    ensures a !in {"SNTPNT", "NTPNT", "DN", "RM"}
  {
  }

  lemma ThirdRow(a: string)
    requires a in ACRONYMS_3
    ensures IsAcronym(a) && !EndsInS(a)
    ensures a !in {"SNTPNT", "NTPNT", "DN", "RM"}
  {
  }

  lemma FourthRow(a: string)
    requires a in ACRONYMS_4
    ensures IsAcronym(a) && (EndsInS(a) ==> a == "RMS")
    ensures a !in {"SNTPNT", "NTPNT", "DN", "RM"}
  {
  }

  /** Only four acronyms end in `S`, and none of them is a plural of another. */
  lemma TableEntry(a: string)
    requires a in ACRONYMS
    ensures IsAcronym(a)
    ensures EndsInS(a) ==> a in {"SNTPNTS", "NTPNTS", "DNS", "RMS"}
    ensures a !in {"SNTPNT", "NTPNT", "DN", "RM"}
  {
    if a in ACRONYMS_1 {
      FirstRow(a);
    } else if a in ACRONYMS_2 {
      SecondRow(a);
    } else if a in ACRONYMS_3 {
      ThirdRow(a);
    } else {
      FourthRow(a);
    }
  }

  lemma WithoutS(a: string, b: string)
    requires a == b + "S" && a in {"SNTPNTS", "NTPNTS", "DNS", "RMS"}
    ensures b in {"SNTPNT", "NTPNT", "DN", "RM"}
  {
    assert b == a[..|a| - 1];
    assert "SNTPNTS"[..6] == "SNTPNT" && "NTPNTS"[..5] == "NTPNT" && "DNS"[..2] == "DN" && "RMS"[..2] == "RM";
  }

  lemma TableIsCompatible()
    ensures Compatible(ACRONYMS)
  {
    forall a | a in ACRONYMS ensures IsAcronym(a) && (|a| == 2 ==> a[1] != 'S') {
      TableEntry(a);
    }
    forall a, b | a in ACRONYMS && b in ACRONYMS ensures a != b + "S" {
      TableEntry(a);
      TableEntry(b);
      if a == b + "S" {
        WithoutS(a, b);
      }
    }
  }

  /** `to_chip_name` over the whole table. */
  method ChipName(name: string) returns (chip: string)
    ensures chip == Simultaneous(name, Titles(ACRONYMS))
    ensures Passes(chip, ACRONYMS) == chip
  {
    TableIsCompatible();
    PassesAreSimultaneous(name, ACRONYMS);
    TransformIsIdempotent(name, ACRONYMS);
    chip := ToChipName(name, ACRONYMS);
  }

  // ----- names fixed by hand -----

  /** A spec name and the wire name it is given. */
  datatype Override = Override(spec: string, wire: string)

  const OVERRIDES_1: seq<Override> := [
    Override("Id", "id"), Override("PanId", "panId"), Override("ExtendedPanId", "extendedPanId"),
    Override("LeaderRouterId", "leaderRouterId"), Override("PartitionId", "partitionId")]
  const OVERRIDES_2: seq<Override> := [
    Override("PartitionIdChangeCount", "partitionIdChangeCount"), Override("RouterId", "routerId"),
    Override("ExtendedPanIdPresent", "extendedPanIdPresent"), Override("PanIdPresent", "panIdPresent")]
  const OVERRIDES_3: seq<Override> := [
    Override("AdminVendorId", "adminVendorId"), Override("Icac", "icac"), Override("Noc", "noc"),
    Override("MleFrameCounter", "mleFrameCounter"), Override("DvbiUrl", "dvbiUrl")]
  const OVERRIDES_4: seq<Override> := [
    Override("PosterArtUrl", "posterArtUrl"), Override("ThumbnailUrl", "thumbnailUrl"),
    Override("CommissioningArl", "commissioningARL"), Override("ArlRequestFlowUrl", "ARLRequestFlowUrl"),
    Override("Lqi", "lqi")]
  const OVERRIDES_5: seq<Override> := [
    Override("RootCaCertificate", "rootCACertificate"), Override("Watermark", "waterMark"),
    Override("NocsrElements", "NOCSRElements"), Override("AcVoltageMultiplier", "acVoltageMultiplier")]
  const OVERRIDES_6: seq<Override> := [
    Override("AcVoltageDivisor", "acVoltageDivisor"), Override("AcCurrentMultiplier", "acCurrentMultiplier"),
    Override("AcCurrentDivisor", "acCurrentDivisor")]
  const OVERRIDES_7: seq<Override> := [
    Override("AcPowerMultiplier", "acPowerMultiplier"), Override("AcPowerDivisor", "acPowerDivisor"),
    Override("RequirePinForRemoteOperation", "requirePINforRemoteOperation")]
  const OVERRIDES_8: seq<Override> := [
    Override("AcCapacityFormat", "ACCapacityformat"), Override("IPv4Addresses", "IPv4Addresses"),
    Override("IPv6Addresses", "IPv6Addresses")]
  const OVERRIDES_9: seq<Override> := [
    Override("OffPremiseServicesReachableIPv4", "offPremiseServicesReachableIPv4"),
    Override("OffPremiseServicesReachableIPv6", "offPremiseServicesReachableIPv6")]
  const OVERRIDES_10: seq<Override> := [
    Override("ColorPointBx", "colorPointBX"), Override("ColorPointBy", "colorPointBY"),
    Override("ColorPointGx", "colorPointGX"), Override("ColorPointGy", "colorPointGY"),
    Override("ColorPointRx", "colorPointRX")]
  const OVERRIDES_11: seq<Override> := [
    Override("ColorPointRy", "colorPointRY")]

  const OVERRIDES: seq<Override> :=
    OVERRIDES_1 + OVERRIDES_2 + OVERRIDES_3 + OVERRIDES_4 + OVERRIDES_5 + OVERRIDES_6 +
    OVERRIDES_7 + OVERRIDES_8 + OVERRIDES_9 + OVERRIDES_10 + OVERRIDES_11

  /** The wire name of the first override of a spec name, if it has one. */
  function Overridden(overrides: seq<Override>, name: string): (wire: Option<string>)
    ensures wire.Some? ==> Override(name, wire.value) in overrides
  {
    if overrides == [] then None
    else if overrides[0].spec == name then Some(overrides[0].wire)
    else Overridden(overrides[1..], name)
  }

  /** `wire_field_name`. */
  ghost function WireFieldName(name: string): string
  {
    var fixed := Overridden(OVERRIDES, name);
    if fixed.Some? then fixed.value else LowerFirst(Simultaneous(name, Titles(ACRONYMS)))
  }

  /** The first letter small, unless the name opens with two capitals. */
  function LowerFirst(chip: string): string
  {
    if chip == "" || (|chip| > 1 && IsUpper(chip[0]) && IsUpper(chip[1])) then chip
    else [Lower(chip[0])] + chip[1..]
  }

  method ToWireFieldName(name: string) returns (wire: string)
    ensures wire == WireFieldName(name)
  {
    var fixed := Overridden(OVERRIDES, name);
    if fixed.Some? {
      return fixed.value;
    }
    var chip := ChipName(name);
    if chip == "" {
      return "";
    }
    var first := chip[0];
    if IsUpper(first) && |chip| > 1 && IsUpper(chip[1]) {
      return chip;
    }
    return [Lower(first)] + chip[1..];
  }

  // ----- names compared without case and separators -----

  /** The key names are matched by: letters and digits only, small. */
  function Normalize(name: string): string
  {
    if name == "" then ""
    else (if IsAlpha(name[0]) || '0' <= name[0] <= '9' then [Lower(name[0])] else "") + Normalize(name[1..])
  }

  lemma {:induction false} CaseDoesNotMatter(a: string, b: string)
    requires EqIgnoreCase(a, b)
    ensures Normalize(a) == Normalize(b)
  {
    if a != "" {
      assert EqIgnoreCase(a[1..], b[1..]) by {
        forall i | 0 <= i < |a| - 1 ensures Lower(a[1..][i]) == Lower(b[1..][i]) {
          assert a[1..][i] == a[i + 1] && b[1..][i] == b[i + 1];
        }
      }
      CaseDoesNotMatter(a[1..], b[1..]);
      assert Lower(a[0]) == Lower(b[0]);
    }
  }

  lemma OverrideRow1(o: Override)
    requires o in OVERRIDES_1
    ensures EqIgnoreCase(o.spec, o.wire) && IsUpper(o.spec[0])
  {
  }

  lemma OverrideRow2(o: Override)
    requires o in OVERRIDES_2
    ensures EqIgnoreCase(o.spec, o.wire) && IsUpper(o.spec[0])
  {
  }

  lemma OverrideRow3(o: Override)
    requires o in OVERRIDES_3
    ensures EqIgnoreCase(o.spec, o.wire) && IsUpper(o.spec[0])
  {
  }

  lemma OverrideRow4(o: Override)
    requires o in OVERRIDES_4
    ensures EqIgnoreCase(o.spec, o.wire) && IsUpper(o.spec[0])
  {
  }

  lemma OverrideRow5(o: Override)
    requires o in OVERRIDES_5
    ensures EqIgnoreCase(o.spec, o.wire) && IsUpper(o.spec[0])
  {
  }

  lemma OverrideRow6(o: Override)
    requires o in OVERRIDES_6
    ensures EqIgnoreCase(o.spec, o.wire) && IsUpper(o.spec[0])
  {
  }

  lemma OverrideRow7(o: Override)
    requires o in OVERRIDES_7
    ensures EqIgnoreCase(o.spec, o.wire) && IsUpper(o.spec[0])
  {
  }

  lemma OverrideRow8(o: Override)
    requires o in OVERRIDES_8
    ensures EqIgnoreCase(o.spec, o.wire) && IsUpper(o.spec[0])
  {
  }

  lemma OverrideRow9(o: Override)
    requires o in OVERRIDES_9
    ensures EqIgnoreCase(o.spec, o.wire) && IsUpper(o.spec[0])
  {
  }

  lemma OverrideRow10(o: Override)
    requires o in OVERRIDES_10
    ensures EqIgnoreCase(o.spec, o.wire) && IsUpper(o.spec[0])
  {
  }

  lemma OverrideRow11(o: Override)
    requires o in OVERRIDES_11
    ensures EqIgnoreCase(o.spec, o.wire) && IsUpper(o.spec[0])
  {
  }

  /** No override changes more than the case of letters, and none is for a name
      that starts with a small letter. */
  lemma OverridesKeepLetters(o: Override)
    requires o in OVERRIDES
    ensures EqIgnoreCase(o.spec, o.wire) && IsUpper(o.spec[0])
  {
    if o in OVERRIDES_1 {
      OverrideRow1(o);
    } else if o in OVERRIDES_2 {
      OverrideRow2(o);
    } else if o in OVERRIDES_3 {
      OverrideRow3(o);
    } else if o in OVERRIDES_4 {
      OverrideRow4(o);
    } else if o in OVERRIDES_5 {
      OverrideRow5(o);
    } else if o in OVERRIDES_6 {
      OverrideRow6(o);
    } else if o in OVERRIDES_7 {
      OverrideRow7(o);
    } else if o in OVERRIDES_8 {
      OverrideRow8(o);
    } else if o in OVERRIDES_9 {
      OverrideRow9(o);
    } else if o in OVERRIDES_10 {
      OverrideRow10(o);
    } else {
      OverrideRow11(o);
    }
  }

  /** A wire name and the spec name it comes from are matched by the same key,
      overrides included. */
  lemma WireNameKeepsTheKey(name: string)
    ensures EqIgnoreCase(name, WireFieldName(name))
    ensures Normalize(WireFieldName(name)) == Normalize(name)
  {
    var fixed := Overridden(OVERRIDES, name);
    if fixed.Some? {
      OverridesKeepLetters(Override(name, fixed.value));
    } else {
      var chip := Simultaneous(name, Titles(ACRONYMS));
      assert EqIgnoreCase(name, chip);
      assert EqIgnoreCase(chip, LowerFirst(chip));
    }
    CaseDoesNotMatter(name, WireFieldName(name));
  }

  // ----- looking a field up -----

  datatype Field = Field(name: string, tag: nat)

  /** The first field whose key is the key asked for. */
  function Tag(fields: seq<Field>, wanted: string): Option<nat>
  {
    if fields == [] then None
    else if Normalize(fields[0].name) == Normalize(wanted) then Some(fields[0].tag)
    else Tag(fields[1..], wanted)
  }

  /** The table a cluster's metadata keeps: spec names turned into wire names. */
  ghost function WireTable(spec: seq<Field>): (wire: seq<Field>)
    ensures |wire| == |spec|
  {
    seq(|spec|, i requires 0 <= i < |spec| => Field(WireFieldName(spec[i].name), spec[i].tag))
  }

  lemma {:induction false} TagByKey(a: seq<Field>, b: seq<Field>, x: string, y: string)
    requires |a| == |b| && Normalize(x) == Normalize(y)
    requires forall i | 0 <= i < |a| :: a[i].tag == b[i].tag && Normalize(a[i].name) == Normalize(b[i].name)
    ensures Tag(a, x) == Tag(b, y)
  {
    if a != [] {
      TagByKey(a[1..], b[1..], x, y);
    }
  }

  /** Whatever spelling a client uses — the spec name, the wire name, or any other
      with the same key — it reaches the entry that the spec table has for it. */
  lemma LookupBySpecOrWireName(spec: seq<Field>, name: string, wanted: string)
    requires Normalize(wanted) == Normalize(name)
    ensures Tag(WireTable(spec), wanted) == Tag(WireTable(spec), WireFieldName(name)) == Tag(spec, name)
  {
    WireNameKeepsTheKey(name);
    var wire := WireTable(spec);
    forall i | 0 <= i < |spec| ensures Normalize(wire[i].name) == Normalize(spec[i].name) {
      WireNameKeepsTheKey(spec[i].name);
    }
    TagByKey(wire, spec, wanted, name);
    TagByKey(wire, spec, WireFieldName(name), name);
  }
}

/** The names fixed by hand, sorted by whether their wire names still hold an
    acronym to expand (`server/src/matter/wire_naming.rs`). */
module OverrideTable {
  import opened WireNames
  import opened WireNaming

  const UNEXPANDED_1: seq<string> := ["PanId", "ExtendedPanId", "LeaderRouterId", "PartitionId"]
  const UNEXPANDED_2: seq<string> := ["PartitionIdChangeCount", "RouterId", "ExtendedPanIdPresent", "PanIdPresent"]
  const UNEXPANDED_3: seq<string> := ["AdminVendorId", "DvbiUrl", "PosterArtUrl", "ThumbnailUrl", "ArlRequestFlowUrl"]
  const UNEXPANDED_4: seq<string> := ["OffPremiseServicesReachableIPv4", "OffPremiseServicesReachableIPv6"]

  /** The names whose override leaves an acronym for the transform to expand. */
  const UNEXPANDED: seq<string> := UNEXPANDED_1 + UNEXPANDED_2 + UNEXPANDED_3 + UNEXPANDED_4

  // ----- where a title may begin -----

  /** How titles of three letters or more may begin; it lets through a little more
      than the table has. */
  predicate Long(c: char, d: char, e: char)
  {
    match c
    case 'A' => d == 'n'
    case 'B' => d == 'd' || d == 'l'
    case 'C' => (d == 'e' && e == 'c') || d == 's'
    case 'D' => d == 'a' || d == 'n' || d == 's'
    case 'E' => d == 's' || d == 'v'
    case 'G' => d == 'h'
    case 'H' => d == 'v'
    case 'I' => d == 'c' || d == 'e' || d == 'p'
    case 'L' => d == 'e' || d == 'q'
    case 'M' => (d == 'a' && e == 'c') || d == 'l'
    case 'N' => (d == 'f' && e == 'c') || d == 'o' || d == 't'
    case 'O' => d == 't'
    case 'P' => d == 'a' || d == 'h' || d == 'i'
    case 'R' => d == 'f' || d == 'm'
    case 'S' => d == 'n'
    case 'U' => d == 'r' || d == 't' || d == 'w'
    case 'V' => d == 'i'
    case _ => false
  }

  /** Titles of two letters, and what may follow them. */
  predicate Short(c: char, d: char, e: char)
  {
    && (!IsLower(e) || e == 's')
    && match c
       case 'A' => d == 'c'
       case 'C' => d == 'o'
       case 'E' => d == 'v'
       case 'I' => d == 'd' || d == 'p'
       case 'P' => d == 'i' || d == 'v'
       case 'R' => d == 'f'
       case 'T' => d == 'c'
       case _ => false
  }

  predicate Begins(a: string)
  {
    && |a| >= 2
    && if |a| == 2 then Short(a[0], Lower(a[1]), '.') else Long(a[0], Lower(a[1]), Lower(a[2]))
  }

  lemma FirstRowBegins(a: string)
    requires a in ACRONYMS_1
    ensures Begins(a)
  {
  }

  lemma SecondRowBegins(a: string)
    requires a in ACRONYMS_2
    ensures Begins(a)
  {
  }

  lemma ThirdRowBegins(a: string)
    requires a in ACRONYMS_3
    ensures Begins(a)
  {
  }

  lemma FourthRowBegins(a: string)
    requires a in ACRONYMS_4
    ensures Begins(a)
  {
  }

  lemma AcronymBegins(a: string)
    requires a in ACRONYMS
    ensures Begins(a)
  {
    if a in ACRONYMS_1 {
      FirstRowBegins(a);
    } else if a in ACRONYMS_2 {
      SecondRowBegins(a);
    } else if a in ACRONYMS_3 {
      ThirdRowBegins(a);
    } else {
      FourthRowBegins(a);
    }
  }

  /** The letter at a position, or something that is no letter. */
  function LetterAt(s: string, i: nat): char
  {
    if i < |s| then s[i] else '.'
  }

  /** Three letters that look like the beginning of a title. */
  predicate Looks(s: string, j: nat)
  {
    j + 1 < |s| && (Long(s[j], s[j + 1], LetterAt(s, j + 2)) || Short(s[j], s[j + 1], LetterAt(s, j + 2)))
  }

  /** From a position on, no title can be found. */
  predicate Plain(s: string, from: nat)
    decreases |s| - from
  {
    from < |s| ==> !(IsUpper(s[from]) && Looks(s, from)) && Plain(s, from + 1)
  }

  lemma {:induction false} PlainAt(s: string, from: nat, j: nat)
    requires Plain(s, from) && from <= j < |s|
    ensures !(IsUpper(s[j]) && Looks(s, j))
    decreases j - from
  {
    if from < j {
      PlainAt(s, from + 1, j);
    }
  }

  lemma {:induction false} PlainByCapitals(s: string, from: nat, capitals: set<nat>)
    requires forall j: nat | j < |s| && IsUpper(s[j]) :: j in capitals
    requires forall j | j in capitals :: !Looks(s, j)
    ensures Plain(s, from)
    decreases |s| - from
  {
    if from < |s| {
      PlainByCapitals(s, from + 1, capitals);
    }
  }

  /** A text that the transform leaves as it is: only small letters and capitals
      that no title begins with. */
  predicate Settled(s: string)
  {
    |s| > 1 && (IsLower(s[0]) || (IsUpper(s[0]) && IsUpper(s[1]))) && Plain(s, 0)
  }

  /** It is enough to look at the first letters, and where the capitals are. */
  lemma SettledByCapitals(s: string, capitals: set<nat>)
    requires |s| > 1 && (IsLower(s[0]) || (IsUpper(s[0]) && IsUpper(s[1])))
    requires forall j: nat | j < |s| && IsUpper(s[j]) :: j in capitals
    requires forall j | j in capitals :: !Looks(s, j)
    ensures Settled(s)
  {
    PlainByCapitals(s, 0, capitals);
  }

  // ----- the overrides -----

  /** `Id`, `Url` or `Pv` where it is to be expanded. */
  predicate MarkHere(s: string, j: nat)
  {
    || (j + 2 <= |s| && s[j] == 'I' && s[j + 1] == 'd' && (j + 2 == |s| || IsUpper(s[j + 2])))
    || (j + 3 == |s| && s[j] == 'U' && s[j + 1] == 'r' && s[j + 2] == 'l')
    || (j + 2 < |s| && s[j] == 'P' && s[j + 1] == 'v' && !IsAlpha(s[j + 2]))
  }

  /** From a position on, some title is still to be expanded. */
  predicate ShowsTitle(s: string, from: nat)
    decreases |s| - from
  {
    from < |s| && (MarkHere(s, from) || ShowsTitle(s, from + 1))
  }

  lemma {:induction false} MarkShows(s: string, from: nat, j: nat)
    requires from <= j < |s| && MarkHere(s, j)
    ensures ShowsTitle(s, from)
    decreases j - from
  {
    if from < j {
      MarkShows(s, from + 1, j);
    }
  }

  lemma {:induction false} ShownMark(s: string, from: nat) returns (j: nat)
    requires ShowsTitle(s, from)
    ensures j < |s| && MarkHere(s, j)
    decreases |s| - from
  {
    if MarkHere(s, from) {
      j := from;
    } else {
      j := ShownMark(s, from + 1);
    }
  }

  /** What tells the unexpanded names from the other overrides, at their end. */
  predicate EndsLikeOne(name: string)
  {
    |name| > 2 && |name| != 16 && name[|name| - 1] in {'d', 't', 'l', '4', '6'}
  }

  lemma UnexpandedEnds(name: string)
    requires name in UNEXPANDED
    ensures EndsLikeOne(name)
  {
    assert forall n | n in UNEXPANDED_1 :: EndsLikeOne(n);
    assert forall n | n in UNEXPANDED_2 :: EndsLikeOne(n);
    assert forall n | n in UNEXPANDED_3 :: EndsLikeOne(n);
    assert forall n | n in UNEXPANDED_4 :: EndsLikeOne(n);
  }

  /** Not the wire name of itself by an override. */
  predicate Lowered(wire: string)
  {
    |wire| > 1 && (IsLower(wire[0]) || (IsUpper(wire[1]) && wire[|wire| - 1] == 'l'))
  }

  /** What the transform makes of an override's wire name depends on. */
  ghost predicate Classified(o: Override)
  {
    && |o.spec| > 1
    && (IsLower(o.spec[1]) || (o.wire == o.spec && o.spec[|o.spec| - 1] == 's'))
    && if EndsLikeOne(o.spec) then o.spec in UNEXPANDED && ShowsTitle(o.wire, 0) && Lowered(o.wire)
       else o.wire == o.spec || Settled(o.wire)
  }

  lemma ColorPointCase(o: Override)
    requires |o.spec| == 12 && IsLower(o.spec[1]) && (o.spec[11] == 'x' || o.spec[11] == 'y')
    requires |o.wire| == 12 && o.wire[..10] == "colorPoint" && IsUpper(o.wire[10]) && IsUpper(o.wire[11])
    ensures Classified(o)
  {
    assert forall j | 0 <= j < 10 :: o.wire[j] == "colorPoint"[j];
    SettledByCapitals(o.wire, {5, 10, 11});
  }

  lemma IdCase()
    ensures Classified(Override("Id", "id"))
  {
    SettledByCapitals("id", {});
  }

  lemma PanIdCase()
    ensures Classified(Override("PanId", "panId"))
  {
    assert UNEXPANDED_1[0] == "PanId";
    MarkShows("panId", 0, 3);
  }

  lemma ExtendedPanIdCase()
    ensures Classified(Override("ExtendedPanId", "extendedPanId"))
  {
    assert UNEXPANDED_1[1] == "ExtendedPanId";
    MarkShows("extendedPanId", 0, 11);
  }

  lemma LeaderRouterIdCase()
    ensures Classified(Override("LeaderRouterId", "leaderRouterId"))
  {
    assert UNEXPANDED_1[2] == "LeaderRouterId";
    MarkShows("leaderRouterId", 0, 12);
  }

  lemma PartitionIdCase()
    ensures Classified(Override("PartitionId", "partitionId"))
  {
    assert UNEXPANDED_1[3] == "PartitionId";
    MarkShows("partitionId", 0, 9);
  }

  lemma ClassifiedRow1(o: Override)
    requires o in OVERRIDES_1
    ensures Classified(o)
  {
    var i :| 0 <= i < |OVERRIDES_1| && OVERRIDES_1[i] == o;
    if i == 0 {
      IdCase();
    } else if i == 1 {
      PanIdCase();
    } else if i == 2 {
      ExtendedPanIdCase();
    } else if i == 3 {
      LeaderRouterIdCase();
    } else {
      PartitionIdCase();
    }
  }

  lemma PartitionIdChangeCountCase()
    ensures Classified(Override("PartitionIdChangeCount", "partitionIdChangeCount"))
  {
    assert UNEXPANDED_2[0] == "PartitionIdChangeCount";
    MarkShows("partitionIdChangeCount", 0, 9);
  }

  lemma RouterIdCase()
    ensures Classified(Override("RouterId", "routerId"))
  {
    assert UNEXPANDED_2[1] == "RouterId";
    MarkShows("routerId", 0, 6);
  }

  lemma ExtendedPanIdPresentCase()
    ensures Classified(Override("ExtendedPanIdPresent", "extendedPanIdPresent"))
  {
    assert UNEXPANDED_2[2] == "ExtendedPanIdPresent";
    MarkShows("extendedPanIdPresent", 0, 11);
  }

  lemma PanIdPresentCase()
    ensures Classified(Override("PanIdPresent", "panIdPresent"))
  {
    assert UNEXPANDED_2[3] == "PanIdPresent";
    MarkShows("panIdPresent", 0, 3);
  }

  lemma ClassifiedRow2(o: Override)
    requires o in OVERRIDES_2
    ensures Classified(o)
  {
    var i :| 0 <= i < |OVERRIDES_2| && OVERRIDES_2[i] == o;
    if i == 0 {
      PartitionIdChangeCountCase();
    } else if i == 1 {
      RouterIdCase();
    } else if i == 2 {
      ExtendedPanIdPresentCase();
    } else {
      PanIdPresentCase();
    }
  }

  lemma AdminVendorIdCase()
    ensures Classified(Override("AdminVendorId", "adminVendorId"))
  {
    assert UNEXPANDED_3[0] == "AdminVendorId";
    MarkShows("adminVendorId", 0, 11);
  }

  lemma IcacCase()
    ensures Classified(Override("Icac", "icac"))
  {
    SettledByCapitals("icac", {});
  }

  lemma NocCase()
    ensures Classified(Override("Noc", "noc"))
  {
    SettledByCapitals("noc", {});
  }

  lemma MleFrameCounterCase()
    ensures Classified(Override("MleFrameCounter", "mleFrameCounter"))
  {
    SettledByCapitals("mleFrameCounter", {3, 8});
  }

  lemma DvbiUrlCase()
    ensures Classified(Override("DvbiUrl", "dvbiUrl"))
  {
    assert UNEXPANDED_3[1] == "DvbiUrl";
    MarkShows("dvbiUrl", 0, 4);
  }

  lemma ClassifiedRow3(o: Override)
    requires o in OVERRIDES_3
    ensures Classified(o)
  {
    var i :| 0 <= i < |OVERRIDES_3| && OVERRIDES_3[i] == o;
    if i == 0 {
      AdminVendorIdCase();
    } else if i == 1 {
      IcacCase();
    } else if i == 2 {
      NocCase();
    } else if i == 3 {
      MleFrameCounterCase();
    } else {
      DvbiUrlCase();
    }
  }

  lemma PosterArtUrlCase()
    ensures Classified(Override("PosterArtUrl", "posterArtUrl"))
  {
    assert UNEXPANDED_3[2] == "PosterArtUrl";
    MarkShows("posterArtUrl", 0, 9);
  }

  lemma ThumbnailUrlCase()
    ensures Classified(Override("ThumbnailUrl", "thumbnailUrl"))
  {
    assert UNEXPANDED_3[3] == "ThumbnailUrl";
    MarkShows("thumbnailUrl", 0, 9);
  }

  lemma CommissioningArlCase()
    ensures Classified(Override("CommissioningArl", "commissioningARL"))
  {
    SettledByCapitals("commissioningARL", {13, 14, 15});
  }

  lemma ArlRequestFlowUrlCase()
    ensures Classified(Override("ArlRequestFlowUrl", "ARLRequestFlowUrl"))
  {
    assert UNEXPANDED_3[4] == "ArlRequestFlowUrl";
    MarkShows("ARLRequestFlowUrl", 0, 14);
  }

  lemma LqiCase()
    ensures Classified(Override("Lqi", "lqi"))
  {
    SettledByCapitals("lqi", {});
  }

  lemma ClassifiedRow4(o: Override)
    requires o in OVERRIDES_4
    ensures Classified(o)
  {
    var i :| 0 <= i < |OVERRIDES_4| && OVERRIDES_4[i] == o;
    if i == 0 {
      PosterArtUrlCase();
    } else if i == 1 {
      ThumbnailUrlCase();
    } else if i == 2 {
      CommissioningArlCase();
    } else if i == 3 {
      ArlRequestFlowUrlCase();
    } else {
      LqiCase();
    }
  }

  lemma RootCaCertificateCase()
    ensures Classified(Override("RootCaCertificate", "rootCACertificate"))
  {
    SettledByCapitals("rootCACertificate", {4, 5, 6});
  }

  lemma WatermarkCase()
    ensures Classified(Override("Watermark", "waterMark"))
  {
    SettledByCapitals("waterMark", {5});
  }

  lemma NocsrElementsCase()
    ensures Classified(Override("NocsrElements", "NOCSRElements"))
  {
    SettledByCapitals("NOCSRElements", {0, 1, 2, 3, 4, 5});
  }

  lemma AcVoltageMultiplierCase()
    ensures Classified(Override("AcVoltageMultiplier", "acVoltageMultiplier"))
  {
    SettledByCapitals("acVoltageMultiplier", {2, 9});
  }

  lemma ClassifiedRow5(o: Override)
    requires o in OVERRIDES_5
    ensures Classified(o)
  {
    var i :| 0 <= i < |OVERRIDES_5| && OVERRIDES_5[i] == o;
    if i == 0 {
      RootCaCertificateCase();
    } else if i == 1 {
      WatermarkCase();
    } else if i == 2 {
      NocsrElementsCase();
    } else {
      AcVoltageMultiplierCase();
    }
  }

  lemma AcVoltageDivisorCase()
    ensures Classified(Override("AcVoltageDivisor", "acVoltageDivisor"))
  {
    SettledByCapitals("acVoltageDivisor", {2, 9});
  }

  lemma AcCurrentMultiplierCase()
    ensures Classified(Override("AcCurrentMultiplier", "acCurrentMultiplier"))
  {
    SettledByCapitals("acCurrentMultiplier", {2, 9});
  }

  lemma AcCurrentDivisorCase()
    ensures Classified(Override("AcCurrentDivisor", "acCurrentDivisor"))
  {
    SettledByCapitals("acCurrentDivisor", {2, 9});
  }

  lemma ClassifiedRow6(o: Override)
    requires o in OVERRIDES_6
    ensures Classified(o)
  {
    var i :| 0 <= i < |OVERRIDES_6| && OVERRIDES_6[i] == o;
    if i == 0 {
      AcVoltageDivisorCase();
    } else if i == 1 {
      AcCurrentMultiplierCase();
    } else {
      AcCurrentDivisorCase();
    }
  }

  lemma AcPowerMultiplierCase()
    ensures Classified(Override("AcPowerMultiplier", "acPowerMultiplier"))
  {
    SettledByCapitals("acPowerMultiplier", {2, 7});
  }

  lemma AcPowerDivisorCase()
    ensures Classified(Override("AcPowerDivisor", "acPowerDivisor"))
  {
    SettledByCapitals("acPowerDivisor", {2, 7});
  }

  lemma RequirePinCapitals(j: nat)
    requires j < |"requirePINforRemoteOperation"| && IsUpper("requirePINforRemoteOperation"[j])
    ensures j in {7, 8, 9, 13, 19}
  {
  }

  lemma RequirePinForRemoteOperationCase()
    ensures Classified(Override("RequirePinForRemoteOperation", "requirePINforRemoteOperation"))
  {
    forall j: nat | j < |"requirePINforRemoteOperation"| && IsUpper("requirePINforRemoteOperation"[j])
      ensures j in {7, 8, 9, 13, 19}
    {
      RequirePinCapitals(j);
    }
    SettledByCapitals("requirePINforRemoteOperation", {7, 8, 9, 13, 19});
  }

  lemma ClassifiedRow7(o: Override)
    requires o in OVERRIDES_7
    ensures Classified(o)
  {
    var i :| 0 <= i < |OVERRIDES_7| && OVERRIDES_7[i] == o;
    if i == 0 {
      AcPowerMultiplierCase();
    } else if i == 1 {
      AcPowerDivisorCase();
    } else {
      RequirePinForRemoteOperationCase();
    }
  }

  lemma AcCapacityFormatCase()
    ensures Classified(Override("AcCapacityFormat", "ACCapacityformat"))
  {
    SettledByCapitals("ACCapacityformat", {0, 1, 2});
  }

  lemma ClassifiedRow8(o: Override)
    requires o in OVERRIDES_8
    ensures Classified(o)
  {
    var i :| 0 <= i < |OVERRIDES_8| && OVERRIDES_8[i] == o;
    if i == 0 {
      AcCapacityFormatCase();
    }
  }

  lemma OffPremiseServicesReachableIPv4Case()
    ensures Classified(Override("OffPremiseServicesReachableIPv4", "offPremiseServicesReachableIPv4"))
  {
    assert UNEXPANDED_4[0] == "OffPremiseServicesReachableIPv4";
    MarkShows("offPremiseServicesReachableIPv4", 0, 28);
  }

  lemma OffPremiseServicesReachableIPv6Case()
    ensures Classified(Override("OffPremiseServicesReachableIPv6", "offPremiseServicesReachableIPv6"))
  {
    assert UNEXPANDED_4[1] == "OffPremiseServicesReachableIPv6";
    MarkShows("offPremiseServicesReachableIPv6", 0, 28);
  }

  lemma ClassifiedRow9(o: Override)
    requires o in OVERRIDES_9
    ensures Classified(o)
  {
    var i :| 0 <= i < |OVERRIDES_9| && OVERRIDES_9[i] == o;
    if i == 0 {
      OffPremiseServicesReachableIPv4Case();
    } else {
      OffPremiseServicesReachableIPv6Case();
    }
  }

  lemma ClassifiedRow10(o: Override)
    requires o in OVERRIDES_10
    ensures Classified(o)
  {
    ColorPointCase(o);
  }

  lemma ClassifiedRow11(o: Override)
    requires o in OVERRIDES_11
    ensures Classified(o)
  {
    ColorPointCase(o);
  }

  lemma EveryOverrideIsClassified(o: Override)
    requires o in OVERRIDES
    ensures Classified(o)
  {
    if o in OVERRIDES_1 {
      ClassifiedRow1(o);
    } else if o in OVERRIDES_2 {
      ClassifiedRow2(o);
    } else if o in OVERRIDES_3 {
      ClassifiedRow3(o);
    } else if o in OVERRIDES_4 {
      ClassifiedRow4(o);
    } else if o in OVERRIDES_5 {
      ClassifiedRow5(o);
    } else if o in OVERRIDES_6 {
      ClassifiedRow6(o);
    } else if o in OVERRIDES_7 {
      ClassifiedRow7(o);
    } else if o in OVERRIDES_8 {
      ClassifiedRow8(o);
    } else if o in OVERRIDES_9 {
      ClassifiedRow9(o);
    } else if o in OVERRIDES_10 {
      ClassifiedRow10(o);
    } else {
      ClassifiedRow11(o);
    }
  }
}

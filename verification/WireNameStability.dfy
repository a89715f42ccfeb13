/** For which names the wire name is its own wire name
    (`server/src/matter/wire_naming.rs`). */
module WireNameStability {
  import opened OverrideTable
  import opened WireNames
  import opened WireNaming
  import opened WireNamingProofs
  import opened Wrappers

  // ----- texts that are left as they are -----

  ghost predicate Untouched(s: string)
  {
    forall p :: !Touched(s, Titles(ACRONYMS), p)
  }

  lemma PlainIsUntouched(s: string)
    requires Plain(s, 0)
    ensures Untouched(s)
  {
    forall p ensures !Touched(s, Titles(ACRONYMS), p) {
      forall word, j | word in Titles(ACRONYMS) ensures !TouchedBy(s, word, j, p) {
        var i :| 0 <= i < |ACRONYMS| && Titles(ACRONYMS)[i] == word;
        var a := ACRONYMS[i];
        AcronymBegins(a);
        TableEntry(a);
        if Marks(s, word, j) {
          MarkLooksLikeOne(s, a, j);
          PlainAt(s, 0, j);
        }
      }
    }
  }

  lemma MarkLooksLikeOne(s: string, a: string, j: nat)
    requires IsAcronym(a) && Begins(a) && Marks(s, Title(a), j)
    ensures IsUpper(s[j]) && Looks(s, j)
  {
    var word := Title(a);
    assert s[j] == word[0] && s[j + 1] == word[1];
    if |a| > 2 {
      assert s[j + 2] == word[2];
    } else {
      assert s[j + 2..] == "" || s[j + 2..][0] == s[j + 2];
    }
  }

  // ----- names that have an override -----

  lemma {:induction false} SpecIsOverridden(overrides: seq<Override>, name: string)
    requires exists o | o in overrides :: o.spec == name
    ensures Overridden(overrides, name).Some?
  {
    if overrides[0].spec != name {
      var o :| o in overrides && o.spec == name;
      assert o in overrides[1..];
      SpecIsOverridden(overrides[1..], name);
    }
  }

  lemma UnexpandedRow1(name: string)
    requires name in UNEXPANDED_1
    ensures exists o | o in OVERRIDES_1 :: o.spec == name
  {
    assert OVERRIDES_1[1].spec == "PanId" && OVERRIDES_1[2].spec == "ExtendedPanId"
        && OVERRIDES_1[3].spec == "LeaderRouterId" && OVERRIDES_1[4].spec == "PartitionId";
  }

  lemma UnexpandedRow2(name: string)
    requires name in UNEXPANDED_2
    ensures exists o | o in OVERRIDES_2 :: o.spec == name
  {
    assert OVERRIDES_2[0].spec == "PartitionIdChangeCount" && OVERRIDES_2[1].spec == "RouterId"
        && OVERRIDES_2[2].spec == "ExtendedPanIdPresent" && OVERRIDES_2[3].spec == "PanIdPresent";
  }

  lemma UnexpandedRow3(name: string)
    requires name in UNEXPANDED_3
    ensures exists o | o in OVERRIDES_3 + OVERRIDES_4 :: o.spec == name
  {
    var both := OVERRIDES_3 + OVERRIDES_4;
    assert both[0].spec == "AdminVendorId" && both[4].spec == "DvbiUrl" && both[5].spec == "PosterArtUrl"
        && both[6].spec == "ThumbnailUrl" && both[8].spec == "ArlRequestFlowUrl";
  }

  lemma UnexpandedRow4(name: string)
    requires name in UNEXPANDED_4
    ensures exists o | o in OVERRIDES_9 :: o.spec == name
  {
    assert OVERRIDES_9[0].spec == "OffPremiseServicesReachableIPv4"
        && OVERRIDES_9[1].spec == "OffPremiseServicesReachableIPv6";
  }

  lemma UnexpandedIsOverridden(name: string)
    requires name in UNEXPANDED
    ensures Overridden(OVERRIDES, name).Some?
  {
    if name in UNEXPANDED_1 {
      UnexpandedRow1(name);
    } else if name in UNEXPANDED_2 {
      UnexpandedRow2(name);
    } else if name in UNEXPANDED_3 {
      UnexpandedRow3(name);
    } else {
      UnexpandedRow4(name);
    }
    SpecIsOverridden(OVERRIDES, name);
  }

  // ----- names without an override -----

  /** The passes leave nothing to expand, and a small first letter adds nothing. */
  lemma ExpandedIsUntouched(name: string)
    ensures
      var chip := Simultaneous(name, Titles(ACRONYMS));
      Untouched(chip) && Untouched(LowerFirst(chip))
  {
    TableIsCompatible();
    CompatibleTitles(ACRONYMS);
    NothingLeft(name, Titles(ACRONYMS));
    LoweringKeepsUntouched(Simultaneous(name, Titles(ACRONYMS)), Titles(ACRONYMS));
  }

  lemma LoweringKeepsUntouched(chip: string, words: seq<string>)
    requires Separable(words) && forall p :: !Touched(chip, words, p)
    ensures forall p :: !Touched(LowerFirst(chip), words, p)
  {
    forall p ensures !Touched(LowerFirst(chip), words, p) {
      forall word, j | word in words ensures !TouchedBy(LowerFirst(chip), word, j, p) {
        if TouchedBy(LowerFirst(chip), word, j, p) {
          MarkAfterLowering(chip, word, j);
          assert TouchedBy(chip, word, j, p) && Touched(chip, words, p);
        }
      }
    }
  }

  lemma MarkAfterLowering(chip: string, word: string, j: int)
    requires IsTitle(word) && Marks(LowerFirst(chip), word, j)
    ensures Marks(chip, word, j)
  {
    var lowered := LowerFirst(chip);
    assert lowered[j] == word[0];
    if lowered != chip {
      assert j > 0;
      assert lowered[j..j + |word|] == chip[j..j + |word|] && lowered[j + |word|..] == chip[j + |word|..];
    }
  }

  lemma UntouchedStays(s: string)
    requires Untouched(s)
    ensures Simultaneous(s, Titles(ACRONYMS)) == s
  {
  }

  lemma LowerFirstTwice(s: string)
    ensures LowerFirst(LowerFirst(s)) == LowerFirst(s)
  {
  }

  /** The wire name of a name without an override, and of an untouched one. */
  lemma WithoutOverride(name: string)
    requires Overridden(OVERRIDES, name).None?
    ensures WireFieldName(name) == LowerFirst(Simultaneous(name, Titles(ACRONYMS)))
    ensures Untouched(name) ==> WireFieldName(name) == LowerFirst(name)
  {
    if Untouched(name) {
      UntouchedStays(name);
    }
  }

  /** An override is for a name that opens with a capital; if two, it gives the
      name itself. */
  predicate Shaped(o: Override)
  {
    && |o.spec| > 1 && IsUpper(o.spec[0])
    && (IsUpper(o.spec[1]) ==> o.wire == o.spec && o.spec[|o.spec| - 1] == 's')
  }

  lemma OverrideShape(o: Override)
    requires o in OVERRIDES
    ensures Shaped(o)
  {
    OverridesKeepLetters(o);
    EveryOverrideIsClassified(o);
  }

  lemma OverriddenShape(name: string)
    requires Overridden(OVERRIDES, name).Some?
    ensures Shaped(Override(name, WireFieldName(name)))
  {
    OverrideShape(Override(name, Overridden(OVERRIDES, name).value));
  }

  lemma TransformedIsStable(name: string)
    requires Overridden(OVERRIDES, name).None?
    ensures WireFieldName(WireFieldName(name)) == WireFieldName(name)
  {
    var chip := Simultaneous(name, Titles(ACRONYMS));
    var wire := LowerFirst(chip);
    WithoutOverride(name);
    ExpandedIsUntouched(name);
    LowerFirstTwice(chip);
    if Overridden(OVERRIDES, wire).Some? {
      OverriddenShape(wire);
    } else {
      WithoutOverride(wire);
    }
  }

  // ----- names with one -----

  lemma OverriddenIsStable(o: Override)
    requires o in OVERRIDES && o.spec !in UNEXPANDED && Overridden(OVERRIDES, o.spec) == Some(o.wire)
    ensures WireFieldName(o.wire) == o.wire
  {
    EveryOverrideIsClassified(o);
    if o.wire != o.spec {
      if Overridden(OVERRIDES, o.wire).Some? {
        OverriddenShape(o.wire);
      } else {
        PlainIsUntouched(o.wire);
        WithoutOverride(o.wire);
      }
    }
  }

  lemma TitleIsInTheTable(word: string)
    requires word in {"Id", "Url", "Pv"}
    ensures word in Titles(ACRONYMS) && |word| > 1 && IsLower(word[1])
  {
    var n := |ACRONYMS|;
    assert ACRONYMS[n - 1] == ACRONYMS_4[|ACRONYMS_4| - 1] == "ID" && Titles(ACRONYMS)[n - 1] == "Id";
    assert ACRONYMS[n - 5] == ACRONYMS_4[|ACRONYMS_4| - 5] == "URL" && Titles(ACRONYMS)[n - 5] == "Url";
    var m := n - |ACRONYMS_4| - 2;
    assert ACRONYMS[m] == ACRONYMS_3[|ACRONYMS_3| - 2] == "PV" && Titles(ACRONYMS)[m] == "Pv";
  }

  lemma MarkedWord(s: string, j: nat) returns (word: string)
    requires MarkHere(s, j)
    ensures word in {"Id", "Url", "Pv"} && Marks(s, word, j)
  {
    word := if s[j] == 'I' then "Id" else if s[j] == 'U' then "Url" else "Pv";
    assert s[j..j + |word|] == word;
  }

  lemma TitleIsExpanded(s: string)
    requires ShowsTitle(s, 0)
    ensures LowerFirst(Simultaneous(s, Titles(ACRONYMS))) != s
  {
    var j := ShownMark(s, 0);
    var word := MarkedWord(s, j);
    TitleIsInTheTable(word);
    ExpandedDiffers(s, Titles(ACRONYMS), word, j);
  }

  lemma ExpandedDiffers(s: string, words: seq<string>, word: string, j: nat)
    requires word in words && Marks(s, word, j) && |word| > 1 && IsLower(word[1])
    ensures LowerFirst(Simultaneous(s, words)) != s
  {
    var p := j + 1;
    assert s[p] == s[j..j + |word|][1] == word[1];
    assert TouchedBy(s, word, j, p) && Touched(s, words, p);
    var chip := Simultaneous(s, words);
    assert chip[p] == Upper(s[p]) != s[p];
    assert LowerFirst(chip)[p] == chip[p];
  }

  lemma UnexpandedIsNotStable(o: Override)
    requires o in OVERRIDES && o.spec in UNEXPANDED
    ensures WireFieldName(o.wire) != o.wire
  {
    UnexpandedIsClassified(o);
    LoweredIsNotOverridden(o.wire);
    WithoutOverride(o.wire);
    TitleIsExpanded(o.wire);
  }

  lemma UnexpandedIsClassified(o: Override)
    requires o in OVERRIDES && o.spec in UNEXPANDED
    ensures ShowsTitle(o.wire, 0) && Lowered(o.wire)
  {
    UnexpandedEnds(o.spec);
    EveryOverrideIsClassified(o);
  }

  lemma LoweredIsNotOverridden(wire: string)
    requires Lowered(wire)
    ensures Overridden(OVERRIDES, wire).None?
  {
    if Overridden(OVERRIDES, wire).Some? {
      OverriddenShape(wire);
      ShapedIsNotLowered(Override(wire, WireFieldName(wire)));
    }
  }

  lemma ShapedIsNotLowered(o: Override)
    requires Shaped(o)
    ensures !Lowered(o.spec)
  {
  }

  // ----- the theorem -----

  /** Taking the wire name of a wire name changes nothing, except for the names
      whose override leaves an acronym unexpanded, and for all of those. */
  lemma WireNameIsStable(name: string)
    ensures WireFieldName(WireFieldName(name)) == WireFieldName(name) <==> name !in UNEXPANDED
  {
    var fixed := Overridden(OVERRIDES, name);
    if fixed.None? {
      TransformedIsStable(name);
      if name in UNEXPANDED {
        UnexpandedIsOverridden(name);
      }
    } else {
      var o := Override(name, fixed.value);
      if name in UNEXPANDED {
        UnexpandedIsNotStable(o);
      } else {
        OverriddenIsStable(o);
      }
    }
  }

  lemma WireNameIsNotIdempotent()
    ensures WireFieldName(WireFieldName("PanId")) != WireFieldName("PanId")
  {
    assert UNEXPANDED_1[0] == "PanId";
    WireNameIsStable("PanId");
  }
}

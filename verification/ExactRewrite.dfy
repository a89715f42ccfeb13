/** Which letters of a name the rewriting makes capitals, letter by letter
    (`server/src/matter/wire_naming.rs`). */
module ExactRewrite {
  import opened WireNames
  import opened WireNaming
  import opened WireNamingProofs
  import opened Wrappers

  /** Nothing follows, or anything but a small letter. */
  predicate Stops(rest: string)
  {
    rest == "" || !('a' <= rest[0] <= 'z')
  }

  /** The word is over, or over but for a plural `s`. */
  predicate WordIsOver(rest: string)
  {
    Stops(rest) || (rest[0] == 's' && Stops(rest[1..]))
  }

  /** An acronym's title: its first letter, and the others 32 places further on in
      ASCII, where they are small. */
  predicate TitleStands(name: string, a: string, i: nat)
  {
    && |a| > 0 && i + |a| <= |name| && name[i] == a[0]
    && forall k | 0 < k < |a| :: name[i + k] as int == a[k] as int + 32
  }

  /** It stands there at the end of a word. */
  predicate WordStands(name: string, a: string, i: nat)
  {
    TitleStands(name, a, i) && WordIsOver(name[i + |a|..])
  }

  lemma StandsIsOccurs(name: string, a: string, i: nat)
    requires IsAcronym(a)
    ensures TitleStands(name, a, i) <==> Occurs(name, Title(a), i)
  {
    if i + |a| <= |name| {
      var there := name[i..i + |a|];
      assert forall k | 0 <= k < |a| :: there[k] == name[i + k];
      assert forall k | 0 < k < |a| :: Title(a)[k] as int == a[k] as int + 32;
    }
  }

  lemma StandsIsMarks(name: string, a: string, i: nat)
    requires IsAcronym(a)
    ensures WordStands(name, a, i) <==> Marks(name, Title(a), i)
  {
    StandsIsOccurs(name, a, i);
  }

  /** Some acronym's title stands there in front of a word's end, with the letter in
      its tail. */
  ghost predicate InAWord(name: string, acronyms: seq<string>, p: nat)
  {
    exists a, i: nat | a in acronyms :: i < p < i + |a| && WordStands(name, a, i)
  }

  lemma InAWordIsTouched(name: string, acronyms: seq<string>, p: nat)
    requires AllAcronyms(acronyms)
    ensures InAWord(name, acronyms, p) <==> Touched(name, Titles(acronyms), p)
  {
    if InAWord(name, acronyms, p) {
      var a, i: nat :| a in acronyms && i < p < i + |a| && WordStands(name, a, i);
      StandsIsMarks(name, a, i);
      var n :| 0 <= n < |acronyms| && acronyms[n] == a;
      assert Titles(acronyms)[n] == Title(a);
      assert TouchedBy(name, Title(a), i, p);
    }
    if Touched(name, Titles(acronyms), p) {
      var word, j :| word in Titles(acronyms) && TouchedBy(name, word, j, p);
      var n :| 0 <= n < |acronyms| && Titles(acronyms)[n] == word;
      StandsIsMarks(name, acronyms[n], j);
      assert acronyms[n] in acronyms;
    }
  }

  /** Letter by letter: one in the tail of a title at a word's end becomes the
      capital that the acronym has there, and every other letter stays. */
  lemma RewriteIsExact(name: string, acronyms: seq<string>, p: nat)
    requires AllAcronyms(acronyms) && p < |name|
    ensures
      var rewritten := Simultaneous(name, Titles(acronyms));
      && (!InAWord(name, acronyms, p) ==> rewritten[p] == name[p])
      && forall a, i: nat | a in acronyms && i < p < i + |a| && WordStands(name, a, i) :: rewritten[p] == a[p - i]
  {
    InAWordIsTouched(name, acronyms, p);
    forall a, i: nat | a in acronyms && i < p < i + |a| && WordStands(name, a, i)
      ensures Simultaneous(name, Titles(acronyms))[p] == a[p - i]
    {
      assert InAWord(name, acronyms, p);
      assert name[p] as int == a[p - i] as int + 32 && IsUpper(a[p - i]);
    }
  }

  ghost predicate AllAcronyms(acronyms: seq<string>)
  {
    forall a | a in acronyms :: IsAcronym(a)
  }

  /** No title has its tail on a capital. */
  lemma TailsAreSmall(name: string, a: string, i: nat, p: nat)
    requires IsAcronym(a) && TitleStands(name, a, i) && i < p < i + |a|
    ensures 'a' <= name[p] <= 'z'
  {
    assert name[i + (p - i)] as int == a[p - i] as int + 32;
  }

  lemma CapitalStays(name: string, acronyms: seq<string>, p: nat)
    requires AllAcronyms(acronyms) && p < |name| && 'A' <= name[p] <= 'Z'
    ensures Simultaneous(name, Titles(acronyms))[p] == name[p]
  {
    forall a, i: nat | a in acronyms && i < p < i + |a| ensures !WordStands(name, a, i) {
      if WordStands(name, a, i) {
        TailsAreSmall(name, a, i, p);
      }
    }
    RewriteIsExact(name, acronyms, p);
  }

  lemma TitleInPlace(head: string, a: string, rest: string)
    requires IsAcronym(a)
    ensures
      var name := head + Title(a) + rest;
      && TitleStands(name, a, |head|) && name[|head| + |a|..] == rest && name[|head|..|head| + |a|] == Title(a)
  {
    var name := head + Title(a) + rest;
    assert name[|head|..|head| + |a|] == Title(a) && name[|head| + |a|..] == rest;
    StandsIsOccurs(name, a, |head|);
  }

  lemma LetterOfWord(name: string, acronyms: seq<string>, a: string, i: nat, k: nat)
    requires AllAcronyms(acronyms) && a in acronyms && WordStands(name, a, i) && k < |a|
    ensures Simultaneous(name, Titles(acronyms))[i + k] == a[k]
  {
    if k == 0 {
      CapitalStays(name, acronyms, i);
    } else {
      RewriteIsExact(name, acronyms, i + k);
    }
  }

  lemma SameLetters(s: string, i: nat, word: string)
    requires i + |word| <= |s| && forall k | 0 <= k < |word| :: s[i + k] == word[k]
    ensures s[i..i + |word|] == word
  {
  }

  /** A title at a word's end becomes its acronym, whatever is in front of it, and
      whether or not a plural `s` follows. */
  lemma WordBecomesAcronym(acronyms: seq<string>, head: string, a: string, rest: string)
    requires AllAcronyms(acronyms) && a in acronyms && WordIsOver(rest)
    ensures Simultaneous(head + Title(a) + rest, Titles(acronyms))[|head|..|head| + |a|] == a
  {
    var name := head + Title(a) + rest;
    TitleInPlace(head, a, rest);
    forall k | 0 <= k < |a| ensures Simultaneous(name, Titles(acronyms))[|head| + k] == a[k] {
      LetterOfWord(name, acronyms, a, |head|, k);
    }
    SameLetters(Simultaneous(name, Titles(acronyms)), |head|, a);
  }

  /** In the middle of a word it stays a title, unless another one stands at a
      word's end in the same place. */
  lemma TitleStaysInsideAWord(acronyms: seq<string>, head: string, a: string, rest: string)
    requires AllAcronyms(acronyms) && a in acronyms && !WordIsOver(rest)
    requires forall b | b in acronyms && b != a :: !WordStands(head + Title(a) + rest, b, |head|)
    ensures Simultaneous(head + Title(a) + rest, Titles(acronyms))[|head|..|head| + |a|] == Title(a)
  {
    var name := head + Title(a) + rest;
    TitleInPlace(head, a, rest);
    forall k | 0 <= k < |a| ensures Simultaneous(name, Titles(acronyms))[|head| + k] == Title(a)[k] {
      LetterInside(name, acronyms, a, |head|, k);
      assert name[|head| + k] == name[|head|..|head| + |a|][k];
    }
    SameLetters(Simultaneous(name, Titles(acronyms)), |head|, Title(a));
  }

  lemma LetterInside(name: string, acronyms: seq<string>, a: string, start: nat, k: nat)
    requires AllAcronyms(acronyms) && a in acronyms && TitleStands(name, a, start) && k < |a|
    requires forall b | b in acronyms :: !WordStands(name, b, start)
    ensures Simultaneous(name, Titles(acronyms))[start + k] == name[start + k]
  {
    NothingReachesIn(name, acronyms, a, start, start + k);
    RewriteIsExact(name, acronyms, start + k);
  }

  lemma NothingReachesIn(name: string, acronyms: seq<string>, a: string, start: nat, p: nat)
    requires AllAcronyms(acronyms) && a in acronyms && TitleStands(name, a, start) && start <= p < start + |a|
    requires forall b | b in acronyms :: !WordStands(name, b, start)
    ensures !InAWord(name, acronyms, p)
  {
    forall b, i: nat | b in acronyms && i < p < i + |b| ensures !WordStands(name, b, i) {
      if WordStands(name, b, i) {
        TitlesBeginTogether(name, a, start, b, i, p);
      }
    }
  }

  lemma TitlesBeginTogether(name: string, a: string, i: nat, b: string, j: nat, p: nat)
    requires IsAcronym(a) && IsAcronym(b) && TitleStands(name, a, i) && TitleStands(name, b, j)
    requires i <= p < i + |a| && j <= p < j + |b|
    ensures i == j
  {
    if i < j {
      TailsAreSmall(name, a, i, j);
    } else if j < i {
      TailsAreSmall(name, b, j, i);
    }
  }

  /** The shipped table is one of acronyms, so all this holds of the names it makes. */
  lemma ShippedTable()
    ensures AllAcronyms(ACRONYMS)
  {
    TableIsCompatible();
  }

  // ----- the first letter -----

  /** Without an override, a name that opens with two capitals keeps them; any other
      opens with the small letter. */
  lemma FirstLetterIsSmall(name: string)
    requires Overridden(OVERRIDES, name).None?
    ensures
      var chip, wire := Simultaneous(name, Titles(ACRONYMS)), WireFieldName(name);
      && |wire| == |name| && (name != "" ==> wire[1..] == chip[1..])
      && (name != "" ==>
            if 'A' <= chip[0] <= 'Z' && (|chip| == 1 || !('A' <= chip[1] <= 'Z'))
            then wire[0] as int == chip[0] as int + 32
            else wire[0] == chip[0])
  {
  }
}

/** Why one pass per acronym amounts to a single rewrite of the original name. */
module WireNamingProofs {
  import opened WireNaming

  /** What the passes rely on. Neither clause speaks of the order of the table. */
  ghost predicate Compatible(acronyms: seq<string>)
  {
    && (forall a | a in acronyms :: IsAcronym(a))
    // No acronym is another and an `S`, which would read as its plural.
    && (forall a, b | a in acronyms && b in acronyms :: a != b + "S")
    // No two-letter acronym ends in `S`, which a plural could put together.
    && (forall a | a in acronyms && |a| == 2 :: a[1] != 'S')
  }

  predicate IsTitle(word: string)
  {
    |word| >= 2 && IsUpper(word[0]) && forall i | 0 < i < |word| :: IsLower(word[i])
  }

  /** The same facts about the words the passes look for. */
  ghost predicate Separable(words: seq<string>)
  {
    && (forall w | w in words :: IsTitle(w))
    && (forall v, w | v in words && w in words :: v != w + "s")
    && (forall w | w in words && |w| == 2 :: w[1] != 's')
  }

  lemma UpperOfTitle(a: string, t: string)
    requires IsAcronym(a) && t == Title(a)
    ensures |a| == |t| && IsTitle(t) && forall i | 0 <= i < |a| :: a[i] == Upper(t[i])
  {
  }

  lemma PluralTitle(a: string, b: string)
    requires IsAcronym(a) && IsAcronym(b)
    ensures Title(a) == Title(b) + "s" ==> a == b + "S"
  {
    UpperOfTitle(a, Title(a));
    UpperOfTitle(b, Title(b));
    if Title(a) == Title(b) + "s" {
      assert a == b + "S";
    }
  }

  lemma CompatibleTitles(acronyms: seq<string>)
    requires Compatible(acronyms)
    ensures Separable(Titles(acronyms))
  {
    var words := Titles(acronyms);
    forall w | w in words ensures IsTitle(w) && (|w| == 2 ==> w[1] != 's') {
      var i :| 0 <= i < |words| && words[i] == w;
      assert acronyms[i] in acronyms;
      UpperOfTitle(acronyms[i], w);
    }
    forall v, w | v in words && w in words ensures v != w + "s" {
      var i :| 0 <= i < |words| && words[i] == v;
      var j :| 0 <= j < |words| && words[j] == w;
      var a, b := acronyms[i], acronyms[j];
      assert a in acronyms && b in acronyms;
      PluralTitle(a, b);
    }
  }

  // ----- how occurrences sit beside one another -----

  lemma OccursAt(s: string, word: string, j: int, p: int)
    requires Occurs(s, word, j) && j <= p < j + |word|
    ensures s[p] == word[p - j]
  {
    assert s[p] == s[j..j + |word|][p - j];
  }

  /** A touched position holds a small letter. */
  lemma TouchedIsLower(s: string, word: string, j: int, p: int)
    requires IsTitle(word) && TouchedBy(s, word, j, p)
    ensures IsLower(s[p])
  {
    OccursAt(s, word, j, p);
  }

  /** A title that meets an expanded one starts where it starts. */
  lemma MeetingTitles(s: string, v: string, i: int, w: string, j: int, p: int)
    requires IsTitle(v) && Occurs(s, v, i) && i <= p < i + |v|
    requires IsTitle(w) && TouchedBy(s, w, j, p)
    ensures i == j
  {
    if j < i {
      OccursAt(s, w, j, i);
      OccursAt(s, v, i, i);
    } else if i < j {
      OccursAt(s, v, i, j);
      OccursAt(s, w, j, j);
    }
  }

  /** Two expanded titles that start together are the same one. */
  lemma TogetherMeansEqual(s: string, v: string, w: string, j: int)
    requires IsTitle(v) && IsTitle(w) && v != w + "s" && w != v + "s"
    requires Marks(s, v, j) && Marks(s, w, j)
    ensures v == w
  {
    if |v| < |w| {
      ShorterIsInside(s, v, w, j);
    } else if |w| < |v| {
      ShorterIsInside(s, w, v, j);
    }
  }

  lemma ShorterIsInside(s: string, v: string, w: string, j: int)
    requires IsTitle(v) && IsTitle(w) && |v| < |w|
    requires Marks(s, v, j) && Marks(s, w, j)
    ensures w == v + "s"
  {
    AfterWord(s, v, j);
    var e := j + |v|;
    OccursAt(s, w, j, e);
    forall p | e < p < j + |w| ensures IsLower(s[p]) {
      OccursAt(s, w, j, p);
    }
    assert w[..|v|] == s[j..j + |w|][..|v|] == v;
  }

  /** What follows an expanded title: nothing, no small letter, or one `s`. */
  lemma AfterWord(s: string, w: string, j: int)
    requires Marks(s, w, j)
    ensures var e := j + |w|;
      e == |s| || !IsLower(s[e]) || (s[e] == 's' && (e + 1 == |s| || !IsLower(s[e + 1])))
  {
    var rest := s[j + |w|..];
    assert |rest| > 1 ==> rest[1] == s[j + |w| + 1];
  }

  // ----- one more pass over a partly rewritten name -----

  ghost predicate Among(words: seq<string>, all: seq<string>)
  {
    Separable(all) && forall w | w in words :: w in all
  }

  /** What a rewritten name still shows of the original. */
  lemma SmallLettersAreUntouched(s: string, words: seq<string>, all: seq<string>, p: int)
    requires Among(words, all) && 0 <= p < |s|
    ensures Touched(s, words, p) ==> IsLower(s[p]) && IsUpper(Simultaneous(s, words)[p])
    ensures !Touched(s, words, p) ==> Simultaneous(s, words)[p] == s[p]
  {
    if Touched(s, words, p) {
      var w, j :| w in words && TouchedBy(s, w, j, p);
      TouchedIsLower(s, w, j, p);
    }
  }

  ghost predicate Clear(s: string, words: seq<string>, from: int, to: int)
  {
    forall p | from <= p < to :: !Touched(s, words, p)
  }

  /** Rewriting leaves no trace of a title where the original had none: the
      capitals it writes are followed by a capital, or by a plural `s`. */
  lemma OccurrenceIsOriginal(s: string, words: seq<string>, all: seq<string>, word: string, i: int)
    requires Among(words, all) && word in all && Occurs(Simultaneous(s, words), word, i)
    ensures Occurs(s, word, i) && Clear(s, words, i, i + |word|)
  {
    var r := Simultaneous(s, words);
    forall p | i < p < i + |word| ensures s[p] == word[p - i] && !Touched(s, words, p) {
      OccursAt(r, word, i, p);
      SmallLettersAreUntouched(s, words, all, p);
    }
    OccursAt(r, word, i, i);
    SmallLettersAreUntouched(s, words, all, i);
    assert s[i + 1] == word[1] && (|word| > 2 ==> s[i + 2] == word[2]);
    if Touched(s, words, i) {
      var w, j :| w in words && TouchedBy(s, w, j, i);
      assert i + 1 < j + |w| ==> TouchedBy(s, w, j, i + 1);
      AfterWord(s, w, j);
      assert false;
    }
    forall k | 0 <= k < |word| ensures s[i..i + |word|][k] == word[k] {
      assert s[i..i + |word|][k] == s[i + k];
    }
    assert s[i..i + |word|] == word;
  }

  /** An occurrence that no rewriting reached keeps what follows it. */
  lemma NextIsUntouched(s: string, words: seq<string>, all: seq<string>, word: string, i: int)
    requires Among(words, all) && word in all && Occurs(s, word, i) && Clear(s, words, i, i + |word|)
    ensures !Touched(s, words, i + |word|)
  {
    var e := i + |word|;
    if Touched(s, words, e) {
      var w, j :| w in words && TouchedBy(s, w, j, e);
      OccursAt(s, w, j, j);
      assert j <= i ==> TouchedBy(s, w, j, i + 1);
      assert j <= i ==> Touched(s, words, i + 1);
      if i < j {
        OccursAt(s, word, i, j);
      }
      assert false;
    }
  }

  lemma BoundaryIsOriginal(s: string, words: seq<string>, all: seq<string>, word: string, i: int)
    requires Among(words, all) && word in all && Occurs(s, word, i) && Clear(s, words, i, i + |word|)
    ensures EndsWord(Simultaneous(s, words)[i + |word|..]) <==> EndsWord(s[i + |word|..])
  {
    var r, e := Simultaneous(s, words), i + |word|;
    NextIsUntouched(s, words, all, word, i);
    if e + 1 < |s| {
      SmallLettersAreUntouched(s, words, all, e + 1);
      if s[e] == 's' && Touched(s, words, e + 1) {
        var w, j :| w in words && TouchedBy(s, w, j, e + 1);
        OccursAt(s, w, j, j);
        assert j < e ==> TouchedBy(s, w, j, e);
        assert false;
      }
      assert r[e..][1] == r[e + 1] && s[e..][1] == s[e + 1];
    }
  }

  lemma MarkIsOriginal(s: string, words: seq<string>, all: seq<string>, word: string, i: int)
    requires Among(words, all) && word in all && Marks(Simultaneous(s, words), word, i)
    ensures Marks(s, word, i) && Clear(s, words, i, i + |word|)
  {
    OccurrenceIsOriginal(s, words, all, word, i);
    BoundaryIsOriginal(s, words, all, word, i);
  }

  /** A mark is gone from the rewritten name only once it has been expanded. */
  lemma MarkStaysUntilExpanded(s: string, words: seq<string>, all: seq<string>, word: string, i: int)
    requires Among(words, all) && word in all && Marks(s, word, i)
    ensures Marks(Simultaneous(s, words), word, i) || forall p | i < p < i + |word| :: Touched(s, words, p)
  {
    if p :| i <= p < i + |word| && Touched(s, words, p) {
      var w, j :| w in words && TouchedBy(s, w, j, p);
      MeetingTitles(s, word, i, w, j, p);
      TogetherMeansEqual(s, word, w, i);
      forall q | i < q < i + |word| ensures Touched(s, words, q) {
        assert TouchedBy(s, w, j, q);
      }
    } else {
      assert Clear(s, words, i, i + |word|);
      BoundaryIsOriginal(s, words, all, word, i);
      assert Simultaneous(s, words)[i..i + |word|] == s[i..i + |word|];
    }
  }

  /** One more pass over a partly rewritten name is one more word rewritten in
      the original. */
  lemma OneMorePass(s: string, words: seq<string>, all: seq<string>, word: string)
    requires Among(words, all) && word in all
    ensures Simultaneous(Simultaneous(s, words), [word]) == Simultaneous(s, words + [word])
  {
    var r := Simultaneous(s, words);
    forall p | 0 <= p < |s| ensures Simultaneous(r, [word])[p] == Simultaneous(s, words + [word])[p] {
      TouchedByOneMore(s, words, word, p);
      SmallLettersAreUntouched(s, words, all, p);
      if i :| TouchedBy(r, word, i, p) {
        MarkIsOriginal(s, words, all, word, i);
        assert TouchedBy(s, word, i, p);
      } else if i :| TouchedBy(s, word, i, p) {
        MarkStaysUntilExpanded(s, words, all, word, i);
        assert !TouchedBy(r, word, i, p);
      }
      assert Touched(r, [word], p) <==> exists i :: TouchedBy(r, word, i, p);
    }
  }

  lemma TouchedByOneMore(s: string, words: seq<string>, word: string, p: int)
    ensures Touched(s, words + [word], p) <==> Touched(s, words, p) || exists i :: TouchedBy(s, word, i, p)
  {
    if Touched(s, words, p) {
      var w, j :| w in words && TouchedBy(s, w, j, p);
      assert w in words + [word];
    }
    if i :| TouchedBy(s, word, i, p) {
      assert word in words + [word];
    }
  }

  // ----- the theorems -----

  /** Running one pass per acronym, each over what the last one left, is the same
      as expanding every acronym of the original name at once. */
  lemma {:induction false} PassesAreSimultaneous(name: string, acronyms: seq<string>)
    requires Compatible(acronyms)
    ensures Passes(name, acronyms) == Simultaneous(name, Titles(acronyms))
  {
    CompatibleTitles(acronyms);
    PrefixOfPasses(name, acronyms, |acronyms|);
    assert acronyms[..|acronyms|] == acronyms;
  }

  lemma {:induction false} PrefixOfPasses(name: string, acronyms: seq<string>, n: nat)
    requires n <= |acronyms| && Separable(Titles(acronyms))
    ensures Passes(name, acronyms[..n]) == Simultaneous(name, Titles(acronyms[..n]))
  {
    if n == 0 {
      assert Simultaneous(name, []) == name;
    } else {
      PrefixOfPasses(name, acronyms, n - 1);
      var all, words, word := Titles(acronyms), Titles(acronyms[..n - 1]), Title(acronyms[n - 1]);
      assert all[n - 1] == word && word in all;
      forall w | w in words ensures w in all {
        var i :| 0 <= i < |words| && words[i] == w;
        assert all[i] == w;
      }
      OneMorePass(name, words, all, word);
      assert Titles(acronyms[..n]) == words + [word];
      assert acronyms[..n][..n - 1] == acronyms[..n - 1];
    }
  }

  /** The order of the table makes no difference. */
  lemma OrderDoesNotMatter(name: string, a: seq<string>, b: seq<string>)
    requires Compatible(a) && Compatible(b) && forall x :: x in a <==> x in b
    ensures Passes(name, a) == Passes(name, b)
  {
    PassesAreSimultaneous(name, a);
    PassesAreSimultaneous(name, b);
    forall p | 0 <= p < |name| ensures Touched(name, Titles(a), p) <==> Touched(name, Titles(b), p) {
      TouchedBySubset(name, a, b, p);
      TouchedBySubset(name, b, a, p);
    }
  }

  lemma TouchedBySubset(name: string, a: seq<string>, b: seq<string>, p: int)
    requires forall x | x in a :: x in b
    ensures Touched(name, Titles(a), p) ==> Touched(name, Titles(b), p)
  {
    if Touched(name, Titles(a), p) {
      var w, j :| w in Titles(a) && TouchedBy(name, w, j, p);
      var i :| 0 <= i < |a| && Titles(a)[i] == w;
      assert a[i] in b;
      var k :| 0 <= k < |b| && b[k] == a[i];
      assert Titles(b)[k] == w;
    }
  }

  lemma NothingLeft(name: string, words: seq<string>)
    requires Separable(words)
    ensures forall p :: !Touched(Simultaneous(name, words), words, p)
  {
    var r := Simultaneous(name, words);
    forall p ensures !Touched(r, words, p) {
      forall w, j | w in words ensures !TouchedBy(r, w, j, p) {
        if TouchedBy(r, w, j, p) {
          assert r[p] == r[j..j + |w|][p - j] == w[p - j];
          MarkIsOriginal(name, words, words, w, j);
          assert TouchedBy(name, w, j, p) && Touched(name, words, p);
        }
      }
    }
  }

  /** An expanded name has nothing left to expand. */
  lemma TransformIsIdempotent(name: string, acronyms: seq<string>)
    requires Compatible(acronyms)
    ensures Passes(Passes(name, acronyms), acronyms) == Passes(name, acronyms)
  {
    PassesAreSimultaneous(name, acronyms);
    var words := Titles(acronyms);
    var r := Simultaneous(name, words);
    PassesAreSimultaneous(r, acronyms);
    CompatibleTitles(acronyms);
    NothingLeft(name, words);
    assert Simultaneous(r, words) == r;
  }
}

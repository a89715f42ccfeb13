/** The field-name transform shared with the reference server
    (`server/src/matter/wire_naming.rs`). */
module WireNaming {
  import opened Wrappers

  // ----- ASCII letters -----

  predicate IsUpper(c: char) { 'A' <= c <= 'Z' }

  predicate IsLower(c: char) { 'a' <= c <= 'z' }

  predicate IsAlpha(c: char) { IsUpper(c) || IsLower(c) }

  function Lower(c: char): char
  {
    if IsUpper(c) then c + ' ' else c
  }

  /** `str::eq_ignore_ascii_case`. */
  predicate EqIgnoreCase(a: string, b: string)
  {
    |a| == |b| && forall i | 0 <= i < |a| :: Lower(a[i]) == Lower(b[i])
  }

  function Upper(c: char): char
  {
    if IsLower(c) then c - ' ' else c
  }

  // ----- one acronym -----

  /** What an acronym may look like: at least two capitals. */
  predicate IsAcronym(a: string)
  {
    |a| >= 2 && forall i | 0 <= i < |a| :: IsUpper(a[i])
  }

  /** The spec's spelling of an acronym: a capital, then small letters. */
  function Title(a: string): (t: string)
    ensures |t| == |a|
  {
    seq(|a|, i requires 0 <= i < |a| => if i == 0 then a[i] else Lower(a[i]))
  }

  /** Whether an occurrence followed by `rest` ends at a word boundary. */
  predicate EndsWord(rest: string)
  {
    || rest == ""
    || IsUpper(rest[0]) || !IsAlpha(rest[0])
    || (rest[0] == 's' && (|rest| == 1 || IsUpper(rest[1]) || !IsAlpha(rest[1])))
  }

  predicate Occurs(s: string, word: string, j: int)
  {
    0 <= j && j + |word| <= |s| && s[j..j + |word|] == word
  }

  /** An occurrence that the transform expands. */
  predicate Marks(s: string, word: string, j: int)
  {
    Occurs(s, word, j) && EndsWord(s[j + |word|..])
  }

  /** Position `p` is in the tail of an expanded occurrence. */
  predicate TouchedBy(s: string, word: string, j: int, p: int)
  {
    Marks(s, word, j) && j < p < j + |word|
  }

  ghost predicate Touched(s: string, words: seq<string>, p: int)
  {
    exists word, j | word in words :: TouchedBy(s, word, j, p)
  }

  /** Every expanded occurrence of every word capitalised at once, as judged on
      the original text alone. */
  ghost function Simultaneous(s: string, words: seq<string>): (r: string)
    ensures |r| == |s|
  {
    seq(|s|, p requires 0 <= p < |s| => if Touched(s, words, p) then Upper(s[p]) else s[p])
  }

  function Titles(acronyms: seq<string>): (t: seq<string>)
    ensures |t| == |acronyms|
  {
    seq(|acronyms|, i requires 0 <= i < |acronyms| => Title(acronyms[i]))
  }

  /** One pass per acronym, each over what the pass before it left. */
  ghost function Passes(s: string, acronyms: seq<string>): (r: string)
    ensures |r| == |s|
  {
    if acronyms == [] then s
    else
      var last := |acronyms| - 1;
      Simultaneous(Passes(s, acronyms[..last]), [Title(acronyms[last])])
  }

  // ----- the passes, in place -----

  /** `str::find`. */
  function Find(s: string, word: string): (r: Option<nat>)
    requires word != ""
    ensures r.Some? ==> Occurs(s, word, r.value) && forall j | 0 <= j < r.value :: !Occurs(s, word, j)
    ensures r.None? ==> forall j :: !Occurs(s, word, j)
  {
    if Occurs(s, word, 0) then Some(0)
    else if s == "" then None
    else
      var rest := Find(s[1..], word);
      OccursInRest(s, word);
      if rest.Some? then Some(rest.value + 1) else None
  }

  lemma OccursInRest(s: string, word: string)
    requires s != ""
    ensures forall j | 0 < j :: Occurs(s, word, j) <==> Occurs(s[1..], word, j - 1)
  {
    forall j | 0 < j ensures Occurs(s, word, j) <==> Occurs(s[1..], word, j - 1) {
      if j + |word| <= |s| {
        assert s[1..][j - 1..j - 1 + |word|] == s[j..j + |word|];
      }
    }
  }

  lemma TitleShape(a: string)
    requires IsAcronym(a)
    ensures var t := Title(a); IsUpper(t[0]) && forall i | 0 < i < |t| :: IsLower(t[i])
  {
  }

  /** Occurrences of one title never overlap: only its first letter is a capital. */
  lemma OccurrencesAreApart(s: string, a: string, i: int, j: int)
    requires IsAcronym(a) && Occurs(s, Title(a), i) && Occurs(s, Title(a), j) && i <= j < i + |a|
    ensures i == j
  {
    TitleShape(a);
    assert s[j] == s[j..j + |a|][0] && s[j] == s[i..i + |a|][j - i];
  }

  method ToChipName(name: string, acronyms: seq<string>) returns (result: string)
    requires forall a | a in acronyms :: IsAcronym(a)
    ensures result == Passes(name, acronyms)
  {
    result := name;
    for i := 0 to |acronyms|
      invariant result == Passes(name, acronyms[..i])
    {
      var acronym := acronyms[i];
      assert acronyms[..i + 1][..i] == acronyms[..i];
      result := ExpandAll(result, acronym);
    }
    assert acronyms[..|acronyms|] == acronyms;
  }

  /** Where no occurrence begins and none reaches in, a pass changes nothing. */
  lemma LeftAlone(s: string, a: string, from: nat, to: nat)
    requires from <= to <= |s|
    requires forall j | 0 <= j < from && Occurs(s, Title(a), j) :: j + |a| <= from
    requires forall j | from <= j < to :: !Occurs(s, Title(a), j)
    ensures Simultaneous(s, [Title(a)])[from..to] == s[from..to]
  {
    forall p | from <= p < to ensures !Touched(s, [Title(a)], p) {
      forall word, j | word in [Title(a)] ensures !TouchedBy(s, word, j, p) {
      }
    }
  }

  /** An occurrence becomes the acronym at a word boundary and stays otherwise. */
  lemma Expanded(s: string, a: string, j: nat)
    requires IsAcronym(a) && Occurs(s, Title(a), j)
    ensures Simultaneous(s, [Title(a)])[j..j + |a|] == if EndsWord(s[j + |a|..]) then a else Title(a)
  {
    var title := Title(a);
    forall p | j <= p < j + |a|
      ensures Touched(s, [title], p) <==> j < p && EndsWord(s[j + |a|..])
    {
      forall i | TouchedBy(s, title, i, p) ensures i == j {
        if i <= j {
          OccurrencesAreApart(s, a, i, j);
        } else {
          OccurrencesAreApart(s, a, j, i);
        }
      }
      assert TouchedBy(s, title, j, p) <==> j < p && EndsWord(s[j + |a|..]);
    }
    TitleShape(a);
    forall p | j <= p < j + |a| ensures s[p] == title[p - j] {
      assert s[p] == s[j..j + |a|][p - j];
    }
  }

  /** Up to `done`, every occurrence has been passed over whole. */
  ghost predicate ScannedTo(s: string, a: string, done: nat)
  {
    done <= |s| && forall j | 0 <= j < done && Occurs(s, Title(a), j) :: j + |a| <= done
  }

  lemma NothingFurther(s: string, a: string, done: nat)
    requires IsAcronym(a) && ScannedTo(s, a, done) && Find(s[done..], Title(a)).None?
    ensures Simultaneous(s, [Title(a)])[done..] == s[done..]
  {
    forall j | done <= j < |s| ensures !Occurs(s, Title(a), j) {
      OccursShifted(s, Title(a), done, j);
    }
    LeftAlone(s, a, done, |s|);
  }

  lemma OccursShifted(s: string, word: string, done: nat, j: int)
    requires done <= |s| && done <= j
    ensures Occurs(s, word, j) <==> Occurs(s[done..], word, j - done)
  {
    if j + |word| <= |s| {
      assert s[done..][j - done..j - done + |word|] == s[j..j + |word|];
    }
  }

  lemma NothingBetween(s: string, a: string, done: nat, to: nat)
    requires IsAcronym(a) && done <= |s| && done <= to && Find(s[done..], Title(a)) == Some(to - done)
    ensures Occurs(s, Title(a), to)
    ensures forall j | done <= j < to :: !Occurs(s, Title(a), j)
  {
    OccursShifted(s, Title(a), done, to);
    forall j | done <= j < to ensures !Occurs(s, Title(a), j) {
      OccursShifted(s, Title(a), done, j);
    }
  }

  lemma ScannedPast(s: string, a: string, done: nat, to: nat)
    requires IsAcronym(a) && ScannedTo(s, a, done) && done <= to
    requires Occurs(s, Title(a), to) && forall j | done <= j < to :: !Occurs(s, Title(a), j)
    ensures ScannedTo(s, a, to + |a|)
  {
    forall j | 0 <= j < to + |a| && Occurs(s, Title(a), j) ensures j + |a| <= to + |a| {
      if to <= j {
        OccurrencesAreApart(s, a, to, j);
      }
    }
  }

  /** What one turn of the scan adds to the result. */
  lemma NextPiece(s: string, a: string, done: nat, to: nat)
    requires IsAcronym(a) && ScannedTo(s, a, done) && done <= to
    requires Occurs(s, Title(a), to) && forall j | done <= j < to :: !Occurs(s, Title(a), j)
    ensures
      var goal := Simultaneous(s, [Title(a)]);
      goal[..to + |a|] == goal[..done] + s[done..to] + (if EndsWord(s[to + |a|..]) then a else Title(a))
  {
    LeftAlone(s, a, done, to);
    Expanded(s, a, to);
    Pieces(Simultaneous(s, [Title(a)]), done, to, to + |a|);
  }

  lemma Pieces(s: string, i: nat, j: nat, k: nat)
    requires i <= j <= k <= |s|
    ensures s[..k] == s[..i] + s[i..j] + s[j..k]
  {
  }

  /** One pass: every occurrence of one title, left to right. */
  method ExpandAll(s: string, acronym: string) returns (out: string)
    requires IsAcronym(acronym)
    ensures out == Simultaneous(s, [Title(acronym)])
  {
    var title := Title(acronym);
    ghost var goal := Simultaneous(s, [title]);
    out := "";
    var rest := s;
    ghost var done: nat := 0;
    while true
      invariant ScannedTo(s, acronym, done) && rest == s[done..] && out == goal[..done]
      decreases |rest|
    {
      var index := Find(rest, title);
      if index.None? {
        NothingFurther(s, acronym, done);
        Pieces(goal, done, |s|, |s|);
        return out + rest;
      }
      ghost var to: nat := done + index.value;
      NothingBetween(s, acronym, done, to);
      NextPiece(s, acronym, done, to);
      ScannedPast(s, acronym, done, to);
      var before, after := rest[..index.value], rest[index.value + |title|..];
      assert before == s[done..to] && after == s[to + |acronym|..];
      out := out + before;
      if EndsWord(after) {
        out := out + acronym;
      } else {
        out := out + title;
      }
      rest, done := after, to + |acronym|;
    }
  }
}

/** The order a device's addresses are dialled in
    (`server/src/matter/mdns_browser.rs`): the answer does not depend on the order
    that packets arrived in. */
module DialOrder {
  import opened Text
  import opened WireNaming

  /** An address as it is written, with Matter's preference for it. */
  datatype Candidate = Candidate(score: nat, text: string)

  /** An instance as a browse reports it. */
  datatype Answer = Answer(name: string, addresses: seq<Candidate>)

  /** Preferred ones first, then by text. */
  predicate Sooner(a: Candidate, b: Candidate)
  {
    a.score > b.score || (a.score == b.score && Less(a.text, b.text))
  }

  lemma SoonerIsAnOrder(a: Candidate, b: Candidate, c: Candidate)
    ensures !Sooner(a, a) && !(Sooner(a, b) && Sooner(b, a))
    ensures a == b || Sooner(a, b) || Sooner(b, a)
    ensures Sooner(a, b) && Sooner(b, c) ==> Sooner(a, c)
  {
    LessTotal(a.text, b.text);
    LessTotal(a.text, a.text);
    if Sooner(a, b) && Sooner(b, c) && a.score == c.score {
      LessTransitive(a.text, b.text, c.text);
    }
  }

  /** The addresses of the instances asked for, as they come. */
  function Gathered(instances: seq<Answer>, wanted: string): seq<Candidate>
  {
    if instances == [] then []
    else
      var init, last := Gathered(instances[..|instances| - 1], wanted), instances[|instances| - 1];
      if EqIgnoreCase(last.name, wanted) then init + last.addresses else init
  }

  // ----- sorting -----

  predicate Sorted(s: seq<Candidate>)
  {
    forall i, j | 0 <= i < j < |s| :: !Sooner(s[j], s[i])
  }

  predicate StrictlySorted(s: seq<Candidate>)
  {
    forall i, j | 0 <= i < j < |s| :: Sooner(s[i], s[j])
  }

  /** Behind everything that is not later: a stable sort, one at a time. */
  function Placed(s: seq<Candidate>, a: Candidate): (r: seq<Candidate>)
    requires Sorted(s)
    ensures Sorted(r)
    ensures forall x :: x in r <==> x == a || x in s
  {
    if s == [] then [a]
    else
      var init, last := s[..|s| - 1], s[|s| - 1];
      assert s == init + [last];
      if !Sooner(a, last) then
        assert Sorted(s + [a]) by { StillSorted(s, a); }
        s + [a]
      else
        var placed := Placed(init, a);
        assert Sorted(placed + [last]) by {
          forall i | 0 <= i < |placed| ensures !Sooner(last, placed[i]) {
            assert placed[i] in placed;
            SoonerIsAnOrder(a, last, a);
          }
        }
        placed + [last]
  }

  lemma StillSorted(s: seq<Candidate>, a: Candidate)
    requires Sorted(s) && s != [] && !Sooner(a, s[|s| - 1])
    ensures Sorted(s + [a])
  {
    forall i | 0 <= i < |s| ensures !Sooner(a, s[i]) {
      SoonerIsAnOrder(a, s[i], s[|s| - 1]);
      SoonerIsAnOrder(s[i], s[|s| - 1], a);
      SoonerIsAnOrder(s[|s| - 1], a, s[i]);
    }
  }

  /** `sort_by_key`. */
  function Sort(s: seq<Candidate>): (r: seq<Candidate>)
    ensures Sorted(r)
    ensures forall x :: x in r <==> x in s
  {
    if s == [] then []
    else
      assert s == s[..|s| - 1] + [s[|s| - 1]];
      Placed(Sort(s[..|s| - 1]), s[|s| - 1])
  }

  /** `dedup`: of equal neighbours one stays. */
  function Dedup(s: seq<Candidate>): (r: seq<Candidate>)
    ensures |r| > 0 <==> |s| > 0
    ensures |s| > 0 ==> r[|r| - 1] == s[|s| - 1]
    ensures forall x :: x in r <==> x in s
  {
    if |s| <= 1 then s
    else
      var init, last := s[..|s| - 1], s[|s| - 1];
      assert s == init + [last];
      if last == init[|init| - 1] then Dedup(init) else Dedup(init) + [last]
  }

  lemma {:induction false} DedupIsStrict(s: seq<Candidate>)
    requires Sorted(s)
    ensures StrictlySorted(Dedup(s))
  {
    if |s| > 1 {
      var init, last := s[..|s| - 1], s[|s| - 1];
      DedupIsStrict(init);
      var r, end := Dedup(init), init[|init| - 1];
      if last != end {
        forall i | 0 <= i < |r| ensures Sooner(r[i], last) {
          SoonerIsAnOrder(end, last, end);
          SoonerIsAnOrder(r[i], end, last);
          assert r[|r| - 1] == end;
        }
      }
    }
  }

  /** What is to be dialled, in order. */
  function Dialled(instances: seq<Answer>, wanted: string): seq<Candidate>
  {
    Dedup(Sort(Gathered(instances, wanted)))
  }

  /** `operational_addresses`. */
  method OperationalAddresses(instances: seq<Answer>, wanted: string) returns (addresses: seq<Candidate>)
    ensures addresses == Dialled(instances, wanted)
  {
    var gathered: seq<Candidate> := [];
    for i := 0 to |instances|
      invariant gathered == Gathered(instances[..i], wanted)
    {
      assert instances[..i + 1][..i] == instances[..i];
      if EqIgnoreCase(instances[i].name, wanted) {
        gathered := gathered + instances[i].addresses;
      }
    }
    assert instances[..|instances|] == instances;
    return Dedup(Sort(gathered));
  }

  // ----- the theorem -----

  lemma FirstIsIn(s: seq<Candidate>)
    ensures s != [] ==> s[0] in s
  {
  }

  lemma {:induction false} StrictlySortedIsUnique(a: seq<Candidate>, b: seq<Candidate>)
    requires StrictlySorted(a) && StrictlySorted(b) && forall x :: x in a <==> x in b
    ensures a == b
    decreases |a|
  {
    if a == [] {
      FirstIsIn(b);
    } else {
      assert a[0] in b && b != [] && b[0] in a;
      SoonerIsAnOrder(a[0], b[0], a[0]);
      SameTail(a, b);
      SameTail(b, a);
      StrictlySortedIsUnique(a[1..], b[1..]);
    }
  }

  lemma SameTail(a: seq<Candidate>, b: seq<Candidate>)
    requires a != [] && b != [] && StrictlySorted(a) && a[0] == b[0] && forall x | x in a :: x in b
    ensures forall x | x in a[1..] :: x in b[1..]
  {
    forall x | x in a[1..] ensures x in b[1..] {
      var i :| 0 <= i < |a[1..]| && a[1..][i] == x;
      assert a[i + 1] == x && x in a;
      SoonerIsAnOrder(x, x, x);
      var j :| 0 <= j < |b| && b[j] == x;
      assert b[1..][j - 1] == x;
    }
  }

  /** Each address once, and the same answer whatever the packets that carried
      them: only the set of addresses of the wanted instances counts. */
  lemma ArrivalDoesNotMatter(instances: seq<Answer>, other: seq<Answer>, wanted: string)
    requires forall x :: x in Gathered(instances, wanted) <==> x in Gathered(other, wanted)
    ensures Dialled(instances, wanted) == Dialled(other, wanted)
    ensures StrictlySorted(Dialled(instances, wanted))
    ensures forall x :: x in Dialled(instances, wanted) <==> x in Gathered(instances, wanted)
  {
    DedupIsStrict(Sort(Gathered(instances, wanted)));
    DedupIsStrict(Sort(Gathered(other, wanted)));
    StrictlySortedIsUnique(Dialled(instances, wanted), Dialled(other, wanted));
  }

  /** An address is dialled exactly if some instance of that name has it. */
  lemma {:induction false} GatheredFrom(instances: seq<Answer>, wanted: string, a: Candidate)
    ensures a in Gathered(instances, wanted)
      <==> exists i | i in instances :: EqIgnoreCase(i.name, wanted) && a in i.addresses
  {
    if instances != [] {
      var init, last := instances[..|instances| - 1], instances[|instances| - 1];
      GatheredFrom(init, wanted, a);
      assert instances == init + [last];
      if a in Gathered(init, wanted) {
        var i :| i in init && EqIgnoreCase(i.name, wanted) && a in i.addresses;
        assert i in instances;
      }
      assert last in instances;
    }
  }

  /** Of two dialled addresses the first has the higher preference, or the same and
      the smaller text. */
  lemma PreferredComeFirst(instances: seq<Answer>, wanted: string, i: nat, j: nat)
    requires i < j < |Dialled(instances, wanted)|
    ensures
      var first, second := Dialled(instances, wanted)[i], Dialled(instances, wanted)[j];
      && first.score >= second.score
      && (first.score == second.score ==>
            exists k: nat ::
              && k <= |first.text| && k < |second.text| && first.text[..k] == second.text[..k]
              && (k == |first.text| || first.text[k] < second.text[k]))
  {
    ArrivalDoesNotMatter(instances, instances, wanted);
    var first, second := Dialled(instances, wanted)[i], Dialled(instances, wanted)[j];
    LessAtTheFirstDifference(first.text, second.text);
  }
}

/** Splitting and joining text the way Rust's `str` does, and the order of a
    `BTreeMap`'s keys. */
module Text {
  lemma Associative<T>(a: seq<T>, b: seq<T>, c: seq<T>)
    ensures a + b + c == a + (b + c)
  {
  }

  lemma DropHead<T>(a: seq<T>, b: seq<T>, c: seq<T>)
    ensures (a + b + c)[|a|..] == b + c
  {
  }

  /** `str::split` on one separator: never empty, and `[""]` for the empty text. */
  function Split<T(==)>(s: seq<T>, sep: T): (parts: seq<seq<T>>)
    ensures |parts| > 0
  {
    if s == [] then [[]]
    else
      var rest := Split(s[1..], sep);
      if s[0] == sep then [[]] + rest else [[s[0]] + rest[0]] + rest[1..]
  }

  /** `[T]::join` with one separator. */
  function Join<T>(parts: seq<seq<T>>, sep: T): seq<T>
  {
    if parts == [] then []
    else if |parts| == 1 then parts[0]
    else parts[0] + [sep] + Join(parts[1..], sep)
  }

  lemma {:induction false} JoinOfSplit<T>(s: seq<T>, sep: T)
    ensures Join(Split(s, sep), sep) == s
  {
    if s != [] {
      JoinOfSplit(s[1..], sep);
      var rest := Split(s[1..], sep);
      if s[0] == sep {
        assert ([[]] + rest)[1..] == rest;
      } else {
        assert ([[s[0]] + rest[0]] + rest[1..])[1..] == rest[1..];
      }
      assert s == [s[0]] + s[1..];
    }
  }

  lemma {:induction false} SplitWithoutSeparator<T>(s: seq<T>, sep: T)
    requires sep !in s
    ensures Split(s, sep) == [s]
  {
    if s != [] {
      SplitWithoutSeparator(s[1..], sep);
      assert s == [s[0]] + s[1..];
    }
  }

  lemma {:induction false} SplitAppend<T>(a: seq<T>, b: seq<T>, sep: T)
    ensures Split(a + [sep] + b, sep) == Split(a, sep) + Split(b, sep)
  {
    var s := a + [sep] + b;
    if a == [] {
      assert s[1..] == b;
    } else {
      var rest, more := Split(a[1..], sep), Split(b, sep);
      assert s[1..] == a[1..] + [sep] + b;
      SplitAppend(a[1..], b, sep);
      assert Split(s[1..], sep) == rest + more;
      SplitHeadAppend(s[0], rest, more);
    }
  }

  lemma SplitHeadAppend<T>(head: T, rest: seq<seq<T>>, more: seq<seq<T>>)
    requires |rest| > 0
    ensures [[]] + (rest + more) == ([[]] + rest) + more
    ensures [[head] + (rest + more)[0]] + (rest + more)[1..] == ([[head] + rest[0]] + rest[1..]) + more
  {
    assert (rest + more)[0] == rest[0] && (rest + more)[1..] == rest[1..] + more;
  }

  lemma {:induction false} SplitOfJoin<T>(parts: seq<seq<T>>, sep: T)
    requires |parts| > 0
    requires forall p | p in parts :: sep !in p
    ensures Split(Join(parts, sep), sep) == parts
  {
    SplitWithoutSeparator(parts[0], sep);
    if |parts| > 1 {
      SplitOfJoin(parts[1..], sep);
      SplitAppend(parts[0], Join(parts[1..], sep), sep);
      assert parts == [parts[0]] + parts[1..];
    }
  }

  lemma {:induction false} JoinAppend<T>(a: seq<seq<T>>, b: seq<seq<T>>, sep: T)
    requires |a| > 0 && |b| > 0
    ensures Join(a + b, sep) == Join(a, sep) + [sep] + Join(b, sep)
  {
    assert (a + b)[1..] == a[1..] + b;
    if |a| == 1 {
      assert a[1..] + b == b;
    } else {
      JoinAppend(a[1..], b, sep);
    }
  }

  /** A text starts with another and a separator exactly when its parts start
      with the other's parts and go on. */
  lemma StartsWithParts<T>(s: seq<T>, head: seq<T>, sep: T)
    ensures StartsWith(s, head + [sep]) <==> Split(head, sep) < Split(s, sep)
    ensures StartsWith(s, head + [sep]) ==> Split(s, sep)[|Split(head, sep)|..] == Split(s[|head| + 1..], sep)
  {
    var parts, heads := Split(s, sep), Split(head, sep);
    if StartsWith(s, head + [sep]) {
      var rest := s[|head| + 1..];
      assert s == head + [sep] + rest;
      SplitAppend(head, rest, sep);
    }
    if heads < parts {
      var more := parts[|heads|..];
      assert parts == heads + more;
      JoinAppend(heads, more, sep);
      JoinOfSplit(s, sep);
      JoinOfSplit(head, sep);
      assert s == head + [sep] + Join(more, sep);
    }
  }

  /** `str::starts_with`. */
  predicate StartsWith<T(==)>(s: seq<T>, prefix: seq<T>)
  {
    |prefix| <= |s| && s[..|prefix|] == prefix
  }

  /** `str::ends_with`. */
  predicate EndsWith<T(==)>(s: seq<T>, suffix: seq<T>)
  {
    |suffix| <= |s| && s[|s| - |suffix|..] == suffix
  }

  // ----- the order of a BTreeMap<String, _> -----

  /** Lexicographic by scalar value, which is also the order of the UTF-8 bytes. */
  predicate Less(a: string, b: string)
  {
    b != [] && (a == [] || a[0] < b[0] || (a[0] == b[0] && Less(a[1..], b[1..])))
  }

  lemma {:induction false} LessTransitive(a: string, b: string, c: string)
    requires Less(a, b) && Less(b, c)
    ensures Less(a, c)
  {
    if a != [] && a[0] == b[0] && b[0] == c[0] {
      LessTransitive(a[1..], b[1..], c[1..]);
    }
  }

  lemma {:induction false} LessTotal(a: string, b: string)
    ensures a == b || Less(a, b) || Less(b, a)
    ensures !(Less(a, b) && Less(b, a))
    ensures !Less(a, a)
  {
    if a != [] {
      LessTotal(a[1..], a[1..]);
    }
    if a != [] && b != [] && a[0] == b[0] {
      LessTotal(a[1..], b[1..]);
      assert a == [a[0]] + a[1..] && b == [b[0]] + b[1..];
    }
  }

  lemma SameBeginning(a: string, b: string, k: nat)
    requires 0 < k <= |a| && k <= |b| && a[..k] == b[..k]
    ensures a[0] == b[0]
  {
    assert a[..k][0] == b[..k][0];
  }

  /** At the first place where two texts differ one has the smaller character, or
      has ended. */
  lemma {:induction false} LessAtTheFirstDifference(a: string, b: string)
    ensures Less(a, b)
      <==> exists k: nat :: k <= |a| && k < |b| && a[..k] == b[..k] && (k == |a| || a[k] < b[k])
  {
    if a != [] && b != [] && a[0] == b[0] {
      LessAtTheFirstDifference(a[1..], b[1..]);
      if k: nat :| k <= |a[1..]| && k < |b[1..]| && a[1..][..k] == b[1..][..k]
                   && (k == |a[1..]| || a[1..][k] < b[1..][k]) {
        assert a[..k + 1] == [a[0]] + a[1..][..k] && b[..k + 1] == [b[0]] + b[1..][..k];
        assert a[..k + 1] == b[..k + 1];
      }
      if k: nat :| k <= |a| && k < |b| && a[..k] == b[..k] && (k == |a| || a[k] < b[k]) {
        assert k > 0 && a[1..][..k - 1] == a[..k][1..] && b[1..][..k - 1] == b[..k][1..];
      }
    } else if a != [] && b != [] {
      if k: nat :| k <= |a| && k < |b| && a[..k] == b[..k] && (k == |a| || a[k] < b[k]) {
        if k > 0 {
          SameBeginning(a, b, k);
        }
      }
      if a[0] < b[0] {
        assert a[..0] == b[..0];
      }
    } else if b != [] {
      assert a[..0] == b[..0];
    }
  }

  predicate Ascending(s: seq<string>)
  {
    forall i, j | 0 <= i < j < |s| :: Less(s[i], s[j])
  }

  /** One name's place in an ascending list, which holds it once. */
  function InsertName(names: seq<string>, name: string): (r: seq<string>)
    requires Ascending(names)
    ensures Ascending(r)
    ensures forall x :: x in r <==> x == name || x in names
  {
    if names == [] then [name]
    else if name == names[0] then names
    else if Less(name, names[0]) then
      assert forall x | x in names :: x == names[0] || Less(names[0], x);
      assert forall x | x in names :: Less(name, x) by {
        forall x | x in names && x != names[0] ensures Less(name, x) {
          LessTransitive(name, names[0], x);
        }
      }
      [name] + names
    else
      var rest := InsertName(names[1..], name);
      assert forall x | x in rest :: Less(names[0], x) by {
        LessTotal(name, names[0]);
      }
      assert forall x :: x in names <==> x == names[0] || x in names[1..];
      [names[0]] + rest
  }

  /** `sort` followed by `dedup`. */
  function SortDedup(names: seq<string>): (r: seq<string>)
    ensures Ascending(r)
    ensures forall x :: x in r <==> x in names
  {
    if names == [] then [] else InsertName(SortDedup(names[1..]), names[0])
  }
}

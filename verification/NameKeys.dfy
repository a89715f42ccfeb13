/** The keys names are matched by, letter by letter
    (`server/src/matter/clusters.rs`). */
module NameKeys {
  import opened Text
  import opened WireNames
  import opened Wrappers

  lemma KeyOfFirst(c: char, rest: string)
    ensures Normalize([c] + rest) == Normalize([c]) + Normalize(rest)
  {
    assert ([c] + rest)[1..] == rest && [c][1..] == "";
  }

  lemma {:induction false} KeyOfBoth(a: string, b: string)
    ensures Normalize(a + b) == Normalize(a) + Normalize(b)
  {
    if a == "" {
      assert a + b == b;
    } else {
      var c, rest := a[0], a[1..];
      assert a == [c] + rest && a + b == [c] + (rest + b);
      KeyOfFirst(c, rest);
      KeyOfFirst(c, rest + b);
      KeyOfBoth(rest, b);
      Associative(Normalize([c]), Normalize(rest), Normalize(b));
    }
  }

  /** A small letter or a digit counts as it is, a capital as the small letter 32
      places further on in ASCII, and nothing else at all. */
  lemma KeyOfOne(c: char)
    ensures 'a' <= c <= 'z' || '0' <= c <= '9' ==> Normalize([c]) == [c]
    ensures 'A' <= c <= 'Z' ==> |Normalize([c])| == 1 && Normalize([c])[0] as int == c as int + 32
    ensures !('a' <= c <= 'z') && !('0' <= c <= '9') && !('A' <= c <= 'Z') ==> Normalize([c]) == ""
  {
    assert [c][1..] == "" && [c] + "" == [c];
  }

  /** A look-up finds the first field whose key is the wanted one. */
  lemma {:induction false} FirstFieldStands(fields: seq<Field>, wanted: string, tag: nat)
    ensures Tag(fields, wanted) == Some(tag)
      <==> exists i ::
        && 0 <= i < |fields| && fields[i].tag == tag && Normalize(fields[i].name) == Normalize(wanted)
        && forall j | 0 <= j < i :: Normalize(fields[j].name) != Normalize(wanted)
  {
    if fields != [] {
      var rest := fields[1..];
      FirstFieldStands(rest, wanted, tag);
      if Normalize(fields[0].name) != Normalize(wanted) {
        if i :| 0 <= i < |rest| && rest[i].tag == tag && Normalize(rest[i].name) == Normalize(wanted)
                && forall j | 0 <= j < i :: Normalize(rest[j].name) != Normalize(wanted) {
          Shifted(fields, wanted, i);
        }
        if i :| 0 <= i < |fields| && fields[i].tag == tag && Normalize(fields[i].name) == Normalize(wanted)
                && forall j | 0 <= j < i :: Normalize(fields[j].name) != Normalize(wanted) {
          assert rest[i - 1] == fields[i];
          forall j | 0 <= j < i - 1 ensures Normalize(rest[j].name) != Normalize(wanted) {
            assert rest[j] == fields[j + 1];
          }
        }
      }
    }
  }

  lemma Shifted(fields: seq<Field>, wanted: string, i: nat)
    requires fields != [] && Normalize(fields[0].name) != Normalize(wanted) && i < |fields| - 1
    requires forall j | 0 <= j < i :: Normalize(fields[1..][j].name) != Normalize(wanted)
    ensures fields[1..][i] == fields[i + 1]
    ensures forall j | 0 <= j < i + 1 :: Normalize(fields[j].name) != Normalize(wanted)
  {
    forall j | 0 <= j < i + 1 ensures Normalize(fields[j].name) != Normalize(wanted) {
      if j > 0 {
        assert fields[1..][j - 1] == fields[j];
      }
    }
  }
}

/** The segment files of a write-ahead log (`server/src/migrate/store.rs`). */
module Segments {
  import opened Text
  import opened Wrappers

  datatype DirEntry = DirEntry(name: string, isFile: bool)

  datatype Copy = Copy(id: nat, compressed: bool)

  function HexDigit(c: char): Option<nat>
  {
    if '0' <= c <= '9' then Some((c - '0') as nat)
    else if 'a' <= c <= 'f' then Some(10 + (c - 'a') as nat)
    else if 'A' <= c <= 'F' then Some(10 + (c - 'A') as nat)
    else None
  }

  /** `u64::from_str_radix` on hex digits only. */
  function HexValue(digits: string): Option<nat>
  {
    if digits == "" then Some(0)
    else
      var high :- HexValue(digits[..|digits| - 1]);
      var low :- HexDigit(digits[|digits| - 1]);
      Some(16 * high + low)
  }

  function StripSuffix(name: string, suffix: string): Option<string>
  {
    if EndsWith(name, suffix) then Some(name[..|name| - |suffix|]) else None
  }

  /** Which segment a directory entry is a copy of, if any. */
  function CopyOf(entry: DirEntry): Option<Copy>
  {
    var packed, plain := StripSuffix(entry.name, ".jsonl.gz"), StripSuffix(entry.name, ".jsonl");
    if !entry.isFile || (packed.None? && plain.None?) then None
    else
      var digits := if packed.Some? then packed.value else plain.value;
      if |digits| != 8 then None
      else
        var id :- HexValue(digits);
        Some(Copy(id, packed.Some?))
  }

  function InsertId(ids: seq<nat>, id: nat): (r: seq<nat>)
    requires forall i, j | 0 <= i < j < |ids| :: ids[i] < ids[j]
    ensures forall i, j | 0 <= i < j < |r| :: r[i] < r[j]
    ensures forall x :: x in r <==> x == id || x in ids
  {
    if ids == [] || id < ids[0] then [id] + ids
    else if id == ids[0] then ids
    else
      var rest := InsertId(ids[1..], id);
      assert forall x :: x in ids <==> x == ids[0] || x in ids[1..];
      AboveHead(ids, id, rest);
      [ids[0]] + rest
  }

  lemma AboveHead(ids: seq<nat>, id: nat, rest: seq<nat>)
    requires ids != [] && ids[0] < id
    requires forall i, j | 0 <= i < j < |ids| :: ids[i] < ids[j]
    requires forall x | x in rest :: x == id || x in ids[1..]
    ensures forall i | 0 <= i < |rest| :: ids[0] < rest[i]
  {
    forall i | 0 <= i < |rest| ensures ids[0] < rest[i] {
      assert rest[i] in rest;
      if rest[i] in ids[1..] {
        var j :| 0 <= j < |ids| - 1 && ids[1..][j] == rest[i];
      }
    }
  }

  predicate IsCopy(entry: DirEntry, id: nat, compressed: bool)
  {
    CopyOf(entry) == Some(Copy(id, compressed))
  }

  /** The compressed copy of a segment that is listed last. */
  function LastCompressed(listing: seq<DirEntry>, id: nat): Option<DirEntry>
  {
    if listing == [] then None
    else if IsCopy(listing[|listing| - 1], id, true) then Some(listing[|listing| - 1])
    else LastCompressed(listing[..|listing| - 1], id)
  }

  /** The plain copy that is listed first. */
  function FirstPlain(listing: seq<DirEntry>, id: nat): Option<DirEntry>
  {
    if listing == [] then None
    else if IsCopy(listing[0], id, false) then Some(listing[0])
    else FirstPlain(listing[1..], id)
  }

  /** The file that a segment is read from: a compressed copy whenever there is
      one, and of several the last; otherwise the first plain one. */
  function ChosenCopy(listing: seq<DirEntry>, id: nat): Option<DirEntry>
  {
    var packed := LastCompressed(listing, id);
    if packed.Some? then packed else FirstPlain(listing, id)
  }

  ghost predicate Chosen(slots: map<nat, DirEntry>, listing: seq<DirEntry>)
  {
    forall id: nat :: ChosenCopy(listing, id) == if id in slots then Some(slots[id]) else None
  }

  function Place(slots: map<nat, DirEntry>, entry: DirEntry): map<nat, DirEntry>
  {
    var copy := CopyOf(entry);
    if copy.Some? && (copy.value.id !in slots || copy.value.compressed)
    then slots[copy.value.id := entry]
    else slots
  }

  lemma {:induction false} FirstPlainAfter(listing: seq<DirEntry>, entry: DirEntry, id: nat)
    ensures FirstPlain(listing + [entry], id)
      == if FirstPlain(listing, id).Some? then FirstPlain(listing, id)
         else if IsCopy(entry, id, false) then Some(entry) else None
  {
    if listing != [] {
      assert (listing + [entry])[1..] == listing[1..] + [entry];
      FirstPlainAfter(listing[1..], entry, id);
    } else {
      assert [entry][1..] == [];
    }
  }

  lemma ChosenCopyAfter(listing: seq<DirEntry>, entry: DirEntry, id: nat)
    ensures ChosenCopy(listing + [entry], id)
      == if IsCopy(entry, id, true) || (IsCopy(entry, id, false) && ChosenCopy(listing, id).None?) then Some(entry)
         else ChosenCopy(listing, id)
  {
    assert (listing + [entry])[..|listing|] == listing;
    FirstPlainAfter(listing, entry, id);
  }

  lemma ChosenAfter(slots: map<nat, DirEntry>, listing: seq<DirEntry>, entry: DirEntry)
    requires Chosen(slots, listing)
    ensures Chosen(Place(slots, entry), listing + [entry])
  {
    var more, after := listing + [entry], Place(slots, entry);
    forall id: nat ensures ChosenCopy(more, id) == if id in after then Some(after[id]) else None {
      ChosenCopyAfter(listing, entry, id);
    }
  }

  /** The segments in replay order, each once, under the name of the chosen copy. */
  method WalSegments(listing: seq<DirEntry>) returns (segments: seq<(nat, string)>)
    ensures forall i, j | 0 <= i < j < |segments| :: segments[i].0 < segments[j].0
    ensures forall id: nat :: ChosenCopy(listing, id).Some? <==> exists s | s in segments :: s.0 == id
    ensures forall s | s in segments ::
      ChosenCopy(listing, s.0).Some? && s.1 == ChosenCopy(listing, s.0).value.name
  {
    var slots: map<nat, DirEntry> := map[];
    var ids: seq<nat> := [];
    for n := 0 to |listing|
      invariant forall i, j | 0 <= i < j < |ids| :: ids[i] < ids[j]
      invariant forall id :: id in ids <==> id in slots
      invariant Chosen(slots, listing[..n])
    {
      var entry := listing[n];
      var copy := CopyOf(entry);
      ChosenAfter(slots, listing[..n], entry);
      assert listing[..n + 1] == listing[..n] + [entry];
      if copy.Some? {
        var slot := if copy.value.id in slots then slots[copy.value.id] else entry;
        if copy.value.compressed {
          slot := entry;
        }
        slots := slots[copy.value.id := slot];
        ids := InsertId(ids, copy.value.id);
      }
    }
    assert listing[..|listing|] == listing;
    segments := seq(|ids|, i requires 0 <= i < |ids| => assert ids[i] in ids; (ids[i], slots[ids[i]].name));
    forall id: nat ensures ChosenCopy(listing, id).Some? <==> exists s | s in segments :: s.0 == id {
      if id in ids {
        var i :| 0 <= i < |ids| && ids[i] == id;
        assert segments[i] in segments;
      }
    }
  }

  /** By places in the listing: a compressed copy is chosen if no later one is, and
      a plain one if no earlier one is and no copy at all is compressed. */
  lemma {:induction false} ChosenByPlace(listing: seq<DirEntry>, id: nat, i: nat)
    requires i < |listing|
    ensures IsCopy(listing[i], id, true) && (forall j | i < j < |listing| :: !IsCopy(listing[j], id, true)) ==>
      ChosenCopy(listing, id) == Some(listing[i])
    ensures
      && IsCopy(listing[i], id, false) && (forall j | 0 <= j < i :: !IsCopy(listing[j], id, false))
      && (forall j | 0 <= j < |listing| :: !IsCopy(listing[j], id, true)) ==>
        ChosenCopy(listing, id) == Some(listing[i])
    decreases |listing|
  {
    var n := |listing| - 1;
    var init := listing[..n];
    assert listing == init + [listing[n]];
    ChosenCopyAfter(init, listing[n], id);
    if i < n {
      ChosenByPlace(init, id, i);
    } else {
      NoneBefore(init, id);
    }
  }

  lemma {:induction false} NoneBefore(listing: seq<DirEntry>, id: nat)
    ensures (forall j | 0 <= j < |listing| :: !IsCopy(listing[j], id, true) && !IsCopy(listing[j], id, false)) ==>
      ChosenCopy(listing, id) == None
  {
    if listing != [] {
      var n := |listing| - 1;
      assert listing == listing[..n] + [listing[n]];
      ChosenCopyAfter(listing[..n], listing[n], id);
      NoneBefore(listing[..n], id);
    }
  }
}

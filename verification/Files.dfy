/** The `file` driver: one file per key, named by the URI-encoded dotted path
    (`server/src/migrate/store.rs`; RFC 3986 section 2.1). */
module Files {
  import opened Json
  import opened Namespaces
  import opened Recovery
  import opened Store
  import opened Text
  import opened Utf8
  import opened Wrappers

  const PERCENT: byte := 0x25

  // ----- percent encoding -----

  function HexDigit(b: byte): Option<byte>
  {
    if 0x30 <= b <= 0x39 then Some(b - 0x30)
    else if 0x41 <= b <= 0x46 then Some(b - 0x37)
    else if 0x61 <= b <= 0x66 then Some(b - 0x57)
    else None
  }

  /** `u8::from_str_radix` on two bytes, which takes a leading `+` for a sign. */
  function HexByte(high: byte, low: byte): Option<byte>
  {
    var l :- HexDigit(low);
    if high == 0x2B then Some(l)
    else
      var h :- HexDigit(high);
      var value: int := h;
      Some(value * 16 + l)
  }

  function Prepend(out: seq<byte>, rest: Option<seq<byte>>): Option<seq<byte>>
  {
    if rest.Some? then Some(out + rest.value) else None
  }

  lemma PrependTwice(a: seq<byte>, b: seq<byte>, rest: Option<seq<byte>>)
    ensures Prepend(a, Prepend(b, rest)) == Prepend(a + b, rest)
  {
    if rest.Some? {
      assert a + (b + rest.value) == a + b + rest.value;
    }
  }

  lemma PrependNothing(rest: Option<seq<byte>>)
    ensures Prepend([], rest) == rest
  {
    if rest.Some? {
      assert [] + rest.value == rest.value;
    }
  }

  /** The bytes a percent-encoded name stands for. A `%` without two hex digits
      after it stands for itself; one followed by half a character is an error. */
  function Unescaped(b: seq<byte>): Option<seq<byte>>
  {
    if b == [] then Some([])
    else if b[0] == PERCENT && |b| > 2 && Utf8.Decode(b[1..3]).None? then None
    else if b[0] == PERCENT && |b| > 2 && HexByte(b[1], b[2]).Some? then
      Prepend([HexByte(b[1], b[2]).value], Unescaped(b[3..]))
    else Prepend([b[0]], Unescaped(b[1..]))
  }

  method PercentDecode(name: string) returns (decoded: Option<string>)
    ensures decoded == FileText(name)
  {
    var bytes := Encode(name);
    var out: seq<byte> := [];
    var index := 0;
    assert bytes[0..] == bytes;
    PrependNothing(Unescaped(bytes));
    while index < |bytes|
      invariant index <= |bytes|
      invariant Unescaped(bytes) == Prepend(out, Unescaped(bytes[index..]))
    {
      ghost var tail := bytes[index..];
      if bytes[index] == PERCENT && index + 2 < |bytes| {
        assert tail[1..3] == bytes[index + 1..index + 3] && tail[3..] == bytes[index + 3..];
        if Decode(bytes[index + 1..index + 3]).None? {
          return None;
        }
        var value := HexByte(bytes[index + 1], bytes[index + 2]);
        if value.Some? {
          PrependTwice(out, [value.value], Unescaped(tail[3..]));
          out := out + [value.value];
          index := index + 3;
          continue;
        }
      }
      assert tail[1..] == bytes[index + 1..];
      PrependTwice(out, [bytes[index]], Unescaped(tail[1..]));
      out := out + [bytes[index]];
      index := index + 1;
    }
    assert out + [] == out;
    decoded := Decode(out);
  }

  /** The bytes `encodeURIComponent` leaves as they are. */
  predicate Unreserved(b: byte)
  {
    || 0x30 <= b <= 0x39 || 0x41 <= b <= 0x5A || 0x61 <= b <= 0x7A
    || b in {0x2D, 0x5F, 0x2E, 0x21, 0x7E, 0x2A, 0x27, 0x28, 0x29}
  }

  function UpperHex(nibble: int): (digit: byte)
    requires 0 <= nibble < 16
    ensures HexDigit(digit) == Some(nibble) && digit < 0x80 && digit != 0x2B
  {
    if nibble < 10 then 0x30 + nibble else 0x37 + nibble
  }

  ghost predicate IsAscii(b: seq<byte>)
  {
    forall i | 0 <= i < |b| :: b[i] < 0x80
  }

  function Escaped(b: seq<byte>): (r: seq<byte>)
    ensures IsAscii(r)
  {
    if b == [] then []
    else (if Unreserved(b[0]) then [b[0]] else [PERCENT, UpperHex(b[0] / 16), UpperHex(b[0] % 16)]) + Escaped(b[1..])
  }

  lemma DecodeAscii(a: byte, b: byte)
    requires a < 0x80 && b < 0x80
    ensures Decode([a, b]) == Some([a as char, b as char])
  {
    assert [a, b][1..] == [b] && [b][1..] == [];
    assert Decode([b]) == Some([b as char]) by {
      assert DecodeHead([b]) == Some((b as char, 1));
      assert [b as char] + [] == [b as char];
    }
    assert [a as char] + [b as char] == [a as char, b as char];
  }

  lemma {:induction false} UnescapedOfEscaped(b: seq<byte>)
    ensures Unescaped(Escaped(b)) == Some(b)
  {
    if b != [] {
      UnescapedOfEscaped(b[1..]);
      var r, rest := Escaped(b), Escaped(b[1..]);
      if Unreserved(b[0]) {
        assert r[1..] == rest;
      } else {
        var high, low := UpperHex(b[0] / 16), UpperHex(b[0] % 16);
        DecodeAscii(high, low);
        assert r[1..3] == [high, low] && r[3..] == rest;
        assert HexByte(high, low) == Some(b[0]);
      }
      assert b == [b[0]] + b[1..];
    }
  }

  function AsciiText(b: seq<byte>): (s: string)
    requires IsAscii(b)
  {
    seq(|b|, i requires 0 <= i < |b| => b[i] as char)
  }

  lemma {:induction false} EncodeAscii(b: seq<byte>)
    requires IsAscii(b)
    ensures Encode(AsciiText(b)) == b
  {
    if b != [] {
      EncodeAscii(b[1..]);
      assert AsciiText(b)[1..] == AsciiText(b[1..]);
      assert EncodeChar(b[0] as char) == [b[0]];
      assert b == [b[0]] + b[1..];
    }
  }

  /** `encodeURIComponent`. */
  function UriComponent(text: string): string
  {
    AsciiText(Escaped(Encode(text)))
  }

  /** What decoding a file name gives. */
  function FileText(name: string): Option<string>
  {
    var out :- Unescaped(Encode(name));
    Decode(out)
  }

  lemma DecodingUndoesEncoding(text: string)
    ensures FileText(UriComponent(text)) == Some(text)
  {
    EncodeAscii(Escaped(Encode(text)));
    UnescapedOfEscaped(Encode(text));
    DecodeOfEncode(text);
  }

  // ----- the directory -----

  /** What is in a file: no text at all, text that is not JSON, or a value. */
  datatype Content = Unreadable | NotJson | Holds(value: Json)

  datatype File = File(name: string, isFile: bool, content: Content)

  predicate IsReserved(name: string)
  {
    name in {"driver.json", "matter.lock", "matter.pid"}
  }

  predicate Ignored(file: File)
  {
    !file.isFile || IsReserved(file.name) || EndsWith(file.name, ".tmp")
  }

  /** The context path and the key a decoded name holds. */
  function PathAndKey(text: string): (string, string)
  {
    var parts := Split(text, '.');
    (Join(parts[..|parts| - 1], '.'), parts[|parts| - 1])
  }

  function Put(contexts: Contexts, path: string, key: string, value: Json): Contexts
  {
    contexts[path := ContextOr(contexts, path)[key := value]]
  }

  /** One file read: a name or a content that is no text ends the whole read,
      text that is not JSON is passed over. */
  function WithFile(contexts: Contexts, file: File): Option<Contexts>
  {
    if Ignored(file) then Some(contexts)
    else
      var text :- FileText(file.name);
      var (path, key) := PathAndKey(text);
      match file.content
      case Unreadable => None
      case NotJson => Some(contexts)
      case Holds(value) => Some(Put(contexts, path, key, value))
  }

  function FilesState(listing: seq<File>): Option<Contexts>
  {
    if listing == [] then Some(map[])
    else
      var contexts :- FilesState(listing[..|listing| - 1]);
      WithFile(contexts, listing[|listing| - 1])
  }

  lemma {:induction false} FailureStays(listing: seq<File>, n: nat)
    requires n <= |listing| && FilesState(listing[..n]).None?
    ensures FilesState(listing).None?
    decreases |listing|
  {
    if n < |listing| {
      assert listing[..|listing| - 1][..n] == listing[..n];
      FailureStays(listing[..|listing| - 1], n);
    } else {
      assert listing[..n] == listing;
    }
  }

  method ReadFiles(listing: seq<File>) returns (contexts: Option<Contexts>)
    ensures contexts == FilesState(listing)
  {
    var read: Contexts := map[];
    for i := 0 to |listing|
      invariant FilesState(listing[..i]) == Some(read)
    {
      var file := listing[i];
      assert listing[..i + 1][..i] == listing[..i];
      if !file.isFile || IsReserved(file.name) || EndsWith(file.name, ".tmp") {
        continue;
      }
      var text := PercentDecode(file.name);
      if text.None? {
        FailureStays(listing, i + 1);
        return None;
      }
      var parts := Split(text.value, '.');
      var key, path := parts[|parts| - 1], Join(parts[..|parts| - 1], '.');
      if file.content.Unreadable? {
        FailureStays(listing, i + 1);
        return None;
      }
      if file.content.NotJson? {
        continue;
      }
      var context := if path in read then read[path] else map[];
      read := read[path := context[key := file.content.value]];
    }
    assert listing[..|listing|] == listing;
    contexts := Some(read);
  }

  // ----- agreement between the drivers -----

  function FileName(path: string, key: string): string
  {
    UriComponent(path + "." + key)
  }

  /** What the `file` driver can store: no dot in a key, and no name that the
      reader would pass over. */
  ghost predicate Storable(contexts: Contexts)
  {
    forall path, key | HasKey(contexts, path, key) ::
      && '.' !in key
      && !IsReserved(FileName(path, key))
      && !EndsWith(FileName(path, key), ".tmp")
  }

  function FileOf(contexts: Contexts, path: string, key: string): File
    requires path in contexts && key in contexts[path]
  {
    File(FileName(path, key), true, Holds(contexts[path][key]))
  }

  ghost predicate HasKey(contexts: Contexts, path: string, key: string)
  {
    path in contexts && key in contexts[path]
  }

  ghost predicate HoldsAKey(file: File, contexts: Contexts)
  {
    exists path, key | HasKey(contexts, path, key) :: file == FileOf(contexts, path, key)
  }

  /** `listing` holds the file of every key, in any order, and otherwise only
      what the reader passes over. */
  ghost predicate Lists(listing: seq<File>, contexts: Contexts)
  {
    && (forall path, key | HasKey(contexts, path, key) :: FileOf(contexts, path, key) in listing)
    && (forall i | 0 <= i < |listing| :: Ignored(listing[i]) || HoldsAKey(listing[i], contexts))
  }

  lemma FileNamesTheirKey(path: string, key: string)
    requires '.' !in key
    ensures FileText(FileName(path, key)) == Some(path + "." + key)
    ensures PathAndKey(path + "." + key) == (path, key)
  {
    DecodingUndoesEncoding(path + "." + key);
    SplitAppend(path, key, '.');
    SplitWithoutSeparator(key, '.');
    JoinOfSplit(path, '.');
    assert path + "." + key == path + ['.'] + key;
    var parts := Split(path + "." + key, '.');
    assert parts == Split(path, '.') + [key];
    assert parts[..|parts| - 1] == Split(path, '.');
  }

  lemma KeyFileIsPut(before: Contexts, contexts: Contexts, p: string, k: string)
    requires Storable(contexts) && HasKey(contexts, p, k)
    ensures WithFile(before, FileOf(contexts, p, k)) == Some(Put(before, p, k, contexts[p][k]))
  {
    FileNamesTheirKey(p, k);
  }

  lemma FilesAreDistinct(contexts: Contexts, p: string, k: string, path: string, key: string)
    requires Storable(contexts) && HasKey(contexts, p, k) && HasKey(contexts, path, key)
    requires FileOf(contexts, p, k) == FileOf(contexts, path, key)
    ensures (p, k) == (path, key)
  {
    FileNamesTheirKey(p, k);
    FileNamesTheirKey(path, key);
  }

  lemma KeyAfterPut(before: Contexts, p: string, k: string, value: Json, path: string, key: string)
    ensures Lookup(Put(before, p, k, value), path, key)
      == if (p, k) == (path, key) then Some(value) else Lookup(before, path, key)
  {
  }

  ghost predicate Present(listing: seq<File>, contexts: Contexts, path: string, key: string)
  {
    HasKey(contexts, path, key) && FileOf(contexts, path, key) in listing
  }

  lemma PresentAfter(init: seq<File>, file: File, contexts: Contexts, path: string, key: string)
    requires Storable(contexts)
    ensures Present(init + [file], contexts, path, key)
      <==> Present(init, contexts, path, key) || (HasKey(contexts, path, key) && file == FileOf(contexts, path, key))
    ensures HasKey(contexts, path, key) ==> !Ignored(FileOf(contexts, path, key))
  {
  }

  /** Whatever the order of the directory, a key is read if and only if its file
      is there. */
  lemma {:induction false} FilesHoldTheirKeys(listing: seq<File>, contexts: Contexts, path: string, key: string)
    requires Storable(contexts)
    requires forall i | 0 <= i < |listing| :: Ignored(listing[i]) || HoldsAKey(listing[i], contexts)
    ensures FilesState(listing).Some?
    ensures Lookup(FilesState(listing).value, path, key)
      == if Present(listing, contexts, path, key) then Some(contexts[path][key]) else None
    decreases |listing|
  {
    if listing != [] {
      var init, file := listing[..|listing| - 1], listing[|listing| - 1];
      FilesHoldTheirKeys(init, contexts, path, key);
      assert listing == init + [file];
      PresentAfter(init, file, contexts, path, key);
      if !Ignored(file) {
        assert HoldsAKey(listing[|listing| - 1], contexts);
        var p, k :| HasKey(contexts, p, k) && file == FileOf(contexts, p, k);
        KeyFileIsPut(FilesState(init).value, contexts, p, k);
        KeyAfterPut(FilesState(init).value, p, k, contexts[p][k], path, key);
        if HasKey(contexts, path, key) && FileOf(contexts, path, key) == file {
          FilesAreDistinct(contexts, p, k, path, key);
        }
      }
    }
  }

  /** `members` spells out a namespace as one JSON object. */
  ghost predicate Spells(members: seq<Member>, contexts: Contexts)
  {
    && (forall path | path in contexts :: exists m | m in members :: m.key == path)
    && (forall m | m in members ::
         m.key in contexts && m.value.Obj? && Fields(m.value.members) == contexts[m.key])
  }

  lemma {:induction false} StoredObjectIsRead(members: seq<Member>, contexts: Contexts)
    requires forall m | m in members ::
      m.key in contexts && m.value.Obj? && Fields(m.value.members) == contexts[m.key]
    ensures PartOf(StoreContexts(members), contexts)
    ensures forall m | m in members :: m.key in StoreContexts(members)
    decreases |members|
  {
    if members != [] {
      var init, last := members[..|members| - 1], members[|members| - 1];
      assert last in members && forall m | m in init :: m in members;
      StoredObjectIsRead(init, contexts);
      OwnContextAdded(StoreContexts(init), contexts, last.key);
      assert forall m | m in members :: m == last || m in init;
    }
  }

  /** Some of the contexts, as they are. */
  ghost predicate PartOf(some: Contexts, contexts: Contexts)
  {
    forall path | path in some :: path in contexts && some[path] == contexts[path]
  }

  lemma OwnContextAdded(some: Contexts, contexts: Contexts, path: string)
    requires PartOf(some, contexts) && path in contexts
    ensures ContextOr(some, path) + contexts[path] == contexts[path]
    ensures PartOf(some[path := contexts[path]], contexts)
  {
    assert ContextOr(some, path) + contexts[path] == contexts[path];
  }

  /** One logical namespace, stored as files in any order, as one object, or as a
      snapshot, answers every lookup alike. */
  lemma DriversAgree(contexts: Contexts, listing: seq<File>, members: seq<Member>, path: string, key: string)
    requires Storable(contexts) && Lists(listing, contexts) && Spells(members, contexts)
    ensures StoreState(Obj(members)) == contexts
    ensures WalState(Some(Snapshot(StoreState(Obj(members)), None)), []) == contexts
    ensures FilesState(listing).Some?
    ensures Lookup(FilesState(listing).value, path, key) == Lookup(contexts, path, key)
  {
    StoredObjectIsRead(members, contexts);
    assert StoreContexts(members) == contexts;
    FilesHoldTheirKeys(listing, contexts, path, key);
  }

  /** The same for a log with a snapshot anywhere along it: whatever was written,
      deleted and pruned since, its directory answers as the files and the object
      of what the history amounts to. */
  lemma DriversAgreeOnHistory(
    history: seq<Segment>, kept: nat, at: CommitId, recorded: Option<CommitId>, listing: seq<File>,
    members: seq<Member>, path: string, key: string)
    requires IdsAscend(history) && kept <= |history|
    requires recorded.Some? ==> AtOrBefore(recorded.value, at)
    requires |Log(history[..kept])| <= Covered(Log(history), at)
    requires
      var contexts := Replayed(map[], Log(history));
      Storable(contexts) && Lists(listing, contexts) && Spells(members, contexts)
    ensures
      var snapshot := Snapshot(Replayed(map[], Log(history)[..Covered(Log(history), at)]), recorded);
      var wal := WalState(Some(snapshot), history[kept..]);
      && FilesState(listing).Some?
      && Lookup(wal, path, key) == Lookup(FilesState(listing).value, path, key)
      && Lookup(wal, path, key) == Lookup(StoreState(Obj(members)), path, key)
  {
    RecoveryIsExact(history, kept, at, recorded);
    DriversAgree(Replayed(map[], Log(history)), listing, members, path, key);
  }

  /** What is not read: what is no file, the driver's own files, and unfinished
      writes. */
  lemma NotRead(contexts: Contexts, file: File)
    ensures !file.isFile ==> WithFile(contexts, file) == Some(contexts)
    ensures file.name in {"driver.json", "matter.lock", "matter.pid"} ==> WithFile(contexts, file) == Some(contexts)
    ensures |file.name| >= 4 && file.name[|file.name| - 4..] == ".tmp" ==> WithFile(contexts, file) == Some(contexts)
  {
  }
}

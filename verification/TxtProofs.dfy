/** What reading TXT data gives (`server/src/matter/mdns_browser.rs`). */
module TxtProofs {
  import opened Mdns
  import opened Utf8
  import opened Wrappers

  // ----- strings, whatever they hold -----

  /** Length-prefixed strings of 1 to 255 bytes. */
  predicate Fits(strings: seq<seq<byte>>)
  {
    forall s | s in strings :: 1 <= |s| < 256
  }

  function Wire(strings: seq<seq<byte>>): seq<byte>
    requires Fits(strings)
  {
    if strings == [] then []
    else
      assert strings[0] in strings;
      [|strings[0]|] + strings[0] + Wire(strings[1..])
  }

  /** Where reading ends: at the end, at an empty string, or at one cut off. */
  predicate Ends(tail: seq<byte>)
  {
    tail == [] || tail[0] == 0 || |tail| - 1 < tail[0]
  }

  function WithEntries(txt: Txt, strings: seq<seq<byte>>): Txt
    decreases |strings|
  {
    if strings == [] then txt else WithEntries(WithEntry(txt, strings[0]), strings[1..])
  }

  lemma ReadsOne(data: seq<byte>, offset: nat, s: seq<byte>, txt: Txt)
    requires StandsOne(data, offset, s)
    ensures TxtFrom(data, offset, txt) == TxtFrom(data, offset + 1 + |s|, WithEntry(txt, s))
  {
  }

  lemma EndsThere(data: seq<byte>, offset: nat, txt: Txt)
    requires offset <= |data| && Ends(data[offset..])
    ensures TxtFrom(data, offset, txt) == txt
  {
    assert data[offset..] == [] ==> offset == |data|;
  }

  lemma Cut<T>(data: seq<T>, offset: nat, x: T, s: seq<T>, after: seq<T>)
    requires offset <= |data| && data[offset..] == [x] + s + after
    ensures offset + 1 + |s| <= |data| && data[offset] == x
    ensures data[offset + 1..offset + 1 + |s|] == s && data[offset + 1 + |s|..] == after
  {
    var rest := data[offset..];
    assert data[offset] == rest[0] && |rest| == 1 + |s| + |after|;
    assert data[offset + 1..offset + 1 + |s|] == rest[1..1 + |s|] == s;
    assert data[offset + 1 + |s|..] == rest[1 + |s|..] == after;
  }

  lemma Regrouped<T>(a: seq<T>, b: seq<T>, c: seq<T>, d: seq<T>)
    ensures a + b + c + d == a + b + (c + d)
  {
  }

  lemma WireOne(strings: seq<seq<byte>>, tail: seq<byte>)
    requires strings != [] && Fits(strings)
    ensures Fits(strings[1..]) && 1 <= |strings[0]| < 256
    ensures Wire(strings) + tail == [|strings[0]|] + strings[0] + (Wire(strings[1..]) + tail)
  {
    assert strings[0] in strings;
    Regrouped([|strings[0]|], strings[0], Wire(strings[1..]), tail);
  }

  /** The strings stand in the data, one after the other, with the tail behind. */
  ghost predicate Stand(data: seq<byte>, offset: nat, strings: seq<seq<byte>>, tail: seq<byte>)
    decreases |strings|
  {
    && offset <= |data|
    && if strings == [] then data[offset..] == tail
       else StandsOne(data, offset, strings[0]) && Stand(data, offset + 1 + |strings[0]|, strings[1..], tail)
  }

  predicate StandsOne(data: seq<byte>, offset: nat, s: seq<byte>)
  {
    && 1 <= |s| < 256 && offset + 1 + |s| <= |data|
    && data[offset] == |s| && data[offset + 1..offset + 1 + |s|] == s
  }

  lemma {:induction false} WireStands(data: seq<byte>, offset: nat, strings: seq<seq<byte>>, tail: seq<byte>)
    requires Fits(strings) && offset <= |data| && data[offset..] == Wire(strings) + tail
    ensures Stand(data, offset, strings, tail)
    decreases |strings|
  {
    if strings == [] {
      assert Wire(strings) + tail == tail;
    } else {
      WireOne(strings, tail);
      Cut(data, offset, |strings[0]|, strings[0], Wire(strings[1..]) + tail);
      WireStands(data, offset + 1 + |strings[0]|, strings[1..], tail);
    }
  }

  lemma {:induction false} ReadsAll(data: seq<byte>, offset: nat, strings: seq<seq<byte>>, tail: seq<byte>, txt: Txt)
    requires Stand(data, offset, strings, tail) && Ends(tail)
    ensures TxtFrom(data, offset, txt) == WithEntries(txt, strings)
    decreases |strings|
  {
    if strings == [] {
      EndsThere(data, offset, txt);
    } else {
      ReadsOne(data, offset, strings[0], txt);
      ReadsAll(data, offset + 1 + |strings[0]|, strings[1..], tail, WithEntry(txt, strings[0]));
    }
  }

  // ----- what the strings say -----

  /** `key=value`, or a bare key. Any string is one of these, with a key that has
      no equals sign and need not be text. */
  datatype Pair = Pair(key: seq<byte>, value: Option<seq<byte>>)

  function ValueOf(pair: Pair): seq<byte>
  {
    if pair.value.Some? then pair.value.value else []
  }

  function Bytes(pair: Pair): seq<byte>
  {
    pair.key + if pair.value.Some? then [0x3D] + pair.value.value else []
  }

  function AllBytes(pairs: seq<Pair>): (strings: seq<seq<byte>>)
    ensures |strings| == |pairs|
  {
    if pairs == [] then [] else [Bytes(pairs[0])] + AllBytes(pairs[1..])
  }

  lemma {:induction false} FirstIndex(b: seq<byte>, wanted: byte, rest: seq<byte>)
    requires wanted !in b && (rest == [] || rest[0] == wanted)
    ensures IndexOf(b + rest, wanted) == |b|
  {
    if b != [] {
      assert (b + rest)[1..] == b[1..] + rest;
      FirstIndex(b[1..], wanted, rest);
    } else {
      assert b + rest == rest;
    }
  }

  lemma SplitBytes(key: seq<byte>, value: Option<seq<byte>>)
    requires 0x3D !in key
    ensures
      var entry := key + if value.Some? then [0x3D] + value.value else [];
      var split := IndexOf(entry, 0x3D);
      && split == |key| && entry[..split] == key
      && (split < |entry| <==> value.Some?) && (value.Some? ==> entry[split + 1..] == value.value)
  {
    FirstIndex(key, 0x3D, if value.Some? then [0x3D] + value.value else []);
  }

  /** A string sets the value of the text that its key is, if that is one. */
  function Put(txt: Txt, pair: Pair): Txt
  {
    var key := Decode(pair.key);
    if key.Some? then txt[key.value := ValueOf(pair)] else txt
  }

  lemma PairIsRead(txt: Txt, pair: Pair)
    requires 0x3D !in pair.key
    ensures WithEntry(txt, Bytes(pair)) == Put(txt, pair)
  {
    SplitBytes(pair.key, pair.value);
  }

  function WithPairs(txt: Txt, pairs: seq<Pair>): Txt
    decreases |pairs|
  {
    if pairs == [] then txt else WithPairs(Put(txt, pairs[0]), pairs[1..])
  }

  lemma {:induction false} PairsAreRead(txt: Txt, pairs: seq<Pair>)
    requires forall p | p in pairs :: 0x3D !in p.key
    ensures WithEntries(txt, AllBytes(pairs)) == WithPairs(txt, pairs)
    decreases |pairs|
  {
    if pairs != [] {
      assert pairs[0] in pairs;
      PairIsRead(txt, pairs[0]);
      assert AllBytes(pairs)[1..] == AllBytes(pairs[1..]);
      PairsAreRead(Put(txt, pairs[0]), pairs[1..]);
    }
  }

  /** The value of the last string whose key is this text. */
  function LastValue(pairs: seq<Pair>, key: string): Option<seq<byte>>
  {
    if pairs == [] then None
    else if pairs[|pairs| - 1].key == Encode(key) then Some(ValueOf(pairs[|pairs| - 1]))
    else LastValue(pairs[..|pairs| - 1], key)
  }

  lemma {:induction false} WithPairsSnoc(txt: Txt, pairs: seq<Pair>, pair: Pair)
    ensures WithPairs(txt, pairs + [pair]) == Put(WithPairs(txt, pairs), pair)
    decreases |pairs|
  {
    if pairs != [] {
      assert (pairs + [pair])[1..] == pairs[1..] + [pair];
      WithPairsSnoc(Put(txt, pairs[0]), pairs[1..], pair);
    } else {
      assert [pair][1..] == [];
    }
  }

  /** Bytes are read as a text exactly if they are its encoding. */
  lemma ReadAsText(b: seq<byte>, text: string)
    ensures Decode(b) == Some(text) <==> b == Encode(text)
  {
    DecodeOfEncode(text);
    if Decode(b) == Some(text) {
      EncodeOfDecode(b);
    }
  }

  function ValueIn(txt: Txt, key: string): Option<seq<byte>>
  {
    if key in txt then Some(txt[key]) else None
  }

  lemma {:induction false} LastPairStands(pairs: seq<Pair>, key: string)
    ensures ValueIn(WithPairs(map[], pairs), key) == LastValue(pairs, key)
    decreases |pairs|
  {
    if pairs != [] {
      var init, last := pairs[..|pairs| - 1], pairs[|pairs| - 1];
      assert pairs == init + [last];
      WithPairsSnoc(map[], init, last);
      LastPairStands(init, key);
      ReadAsText(last.key, key);
    }
  }

  /** TXT data holds, for each key, what the last string with that key says;
      strings whose key is no text are passed over, and so is whatever comes after
      an empty string or is cut off at the end. */
  lemma TxtComesBack(pairs: seq<Pair>, tail: seq<byte>, key: string)
    requires (forall p | p in pairs :: 0x3D !in p.key) && Fits(AllBytes(pairs)) && Ends(tail)
    ensures ValueIn(TxtFrom(Wire(AllBytes(pairs)) + tail, 0, map[]), key) == LastValue(pairs, key)
  {
    var wire := Wire(AllBytes(pairs)) + tail;
    assert wire[0..] == wire;
    WireStands(wire, 0, AllBytes(pairs), tail);
    ReadsAll(wire, 0, AllBytes(pairs), tail, map[]);
    PairsAreRead(map[], pairs);
    LastPairStands(pairs, key);
  }
}

/** How the registry generator reads kinds off accessor types, and why a struct
    kind always names a struct that some scope defines
    (`tools/build_registry.py`). */
module Classification {
  import opened Resolution
  import opened StructClosure
  import opened StructTables
  import opened Text
  import opened WireNames
  import opened Wrappers

  const OPTION := "Option<"
  const TLV_NULLABLE := "crate::tlv::Nullable<"
  const NULLABLE := "Nullable<"

  // ----- wrappers -----

  /** Python's `t[n:-1]`: nothing at all if that would end before it starts. */
  function Inside(t: string, n: nat): (inner: string)
    requires n <= |t|
    ensures |inner| <= |t| - n
  {
    if n < |t| then t[n..|t| - 1] else ""
  }

  function Stripped(t: string, wrapper: string): (inner: string)
    requires wrapper != ""
    ensures |inner| <= |t| && !StartsWith(inner, wrapper)
    decreases |t|
  {
    if StartsWith(t, wrapper) then Stripped(Inside(t, |wrapper|), wrapper) else t
  }

  function Unwrapped(t: string): (inner: string)
    ensures |inner| <= |t|
  {
    Stripped(Stripped(Stripped(t, OPTION), TLV_NULLABLE), NULLABLE)
  }

  /** `unwrap`. */
  method Unwrap(t: string) returns (inner: string)
    ensures inner == Unwrapped(t)
  {
    inner := t;
    var wrappers := [OPTION, TLV_NULLABLE, NULLABLE];
    for i := 0 to |wrappers|
      invariant i == 0 ==> inner == t
      invariant i == 1 ==> inner == Stripped(t, OPTION)
      invariant i == 2 ==> inner == Stripped(Stripped(t, OPTION), TLV_NULLABLE)
      invariant i == 3 ==> inner == Unwrapped(t)
    {
      inner := Strip(inner, wrappers[i]);
    }
  }

  method Strip(t: string, wrapper: string) returns (inner: string)
    requires wrapper != ""
    ensures inner == Stripped(t, wrapper)
  {
    inner := t;
    while StartsWith(inner, wrapper)
      invariant Stripped(inner, wrapper) == Stripped(t, wrapper)
      decreases |inner|
    {
      inner := Inside(inner, |wrapper|);
    }
  }

  lemma InsideWrapped(wrapper: string, t: string)
    ensures StartsWith(wrapper + t + ">", wrapper) && Inside(wrapper + t + ">", |wrapper|) == t
  {
    assert (wrapper + t + ">")[..|wrapper|] == wrapper;
  }

  // ----- array types -----

  predicate IsWordChar(c: char)
  {
    'a' <= c <= 'z' || 'A' <= c <= 'Z' || '0' <= c <= '9' || c == '_'
  }

  function WordLength(t: string): (n: nat)
    ensures n <= |t|
  {
    if t == "" || !IsWordChar(t[0]) then 0 else 1 + WordLength(t[1..])
  }

  const TLV_ARRAY := "TLVArray<'"
  const ARRAY_ITER := "ArrayIter<'"

  /** The item type, if the text is an array type from its first character to its
      last: a lifetime, a comma, and an item. */
  function ArrayHere(t: string): (item: Option<string>)
    ensures item.Some? ==> |item.value| < |t|
  {
    var head := if StartsWith(t, TLV_ARRAY) then |TLV_ARRAY| else if StartsWith(t, ARRAY_ITER) then |ARRAY_ITER| else 0;
    var rest := t[head..];
    var n := WordLength(rest);
    if head > 0 && n > 0 && n + 2 < |rest| && rest[n] == ',' && rest[|rest| - 1] == '>'
    then Some(rest[n + 1..|rest| - 1])
    else None
  }

  /** The item type of the first array type the text ends with. */
  function ArrayItem(t: string): (item: Option<string>)
    ensures item.Some? ==> |item.value| < |t|
  {
    if t == "" then None
    else if ArrayHere(t).Some? then ArrayHere(t)
    else ArrayItem(t[1..])
  }

  // ----- kinds -----

  predicate Contains(t: string, part: string)
  {
    StartsWith(t, part) || (t != "" && Contains(t[1..], part))
  }

  /** What follows the last `::`. */
  function LastSegment(t: string): (s: string)
    ensures |s| <= |t|
  {
    if Contains(t, "::") && t != "" then LastSegment(if StartsWith(t, "::") then t[2..] else t[1..]) else t
  }

  function BeforeGenerics(t: string): string
  {
    if t == "" || t[0] == '<' then "" else [t[0]] + BeforeGenerics(t[1..])
  }

  const INTEGERS: set<string> := {"i8", "i16", "i32", "i64", "u8", "u16", "u32", "u64"}

  /** `classify_type`, of a type without white space. */
  function Classify(rustType: string, structs: set<string>): string
    decreases |rustType|
  {
    var t := Unwrapped(rustType);
    var item := ArrayItem(t);
    if item.Some? then "list:" + Classify(item.value, structs)
    else if Contains(t, "OctetStr") then "bytes"
    else if Contains(t, "Utf8Str") then "string"
    else if StartsWith(t, "bool") then "bool"
    else if t in INTEGERS then "int"
    else if t == "f32" || t == "f64" then "float"
    else
      var bare := BeforeGenerics(LastSegment(t));
      if bare in structs then "struct:" + bare else "other"
  }

  /** An optional type has the kind of the type itself. */
  lemma OptionKeepsTheKind(t: string, structs: set<string>)
    ensures Classify(OPTION + t + ">", structs) == Classify(t, structs)
  {
    InsideWrapped(OPTION, t);
    assert Unwrapped(OPTION + t + ">") == Unwrapped(t);
  }

  lemma ListKindNamesItsItem(kind: string)
    ensures Reference("list:" + kind) == Reference(kind)
  {
    assert ("list:" + kind)[..5] == "list:" && ("list:" + kind)[5..] == kind;
  }

  lemma ScalarNamesNothing(kind: string)
    requires kind in {"bytes", "string", "bool", "int", "float", "other"}
    ensures Reference(kind) == None
  {
    assert |kind| <= 6;
    if kind == "string" {
      assert kind[..5][0] == 's' && "list:"[0] == 'l';
    } else {
      assert |kind| <= 5 && kind[0] != 'l';
    }
  }

  /** Only structs that were asked about are ever named. */
  lemma {:induction false} ClassifiedNamesAStruct(rustType: string, structs: set<string>)
    ensures var name := Reference(Classify(rustType, structs)); name.Some? ==> name.value in structs
    decreases |rustType|
  {
    var t := Unwrapped(rustType);
    var item := ArrayItem(t);
    var kind := Classify(rustType, structs);
    if item.Some? {
      ClassifiedNamesAStruct(item.value, structs);
      ListKindNamesItsItem(Classify(item.value, structs));
    } else if kind in {"bytes", "string", "bool", "int", "float", "other"} {
      ScalarNamesNothing(kind);
    } else {
      StructKindNamesIt(BeforeGenerics(LastSegment(t)), None);
    }
  }

  // ----- generated sources -----

  /** A field's tag, and the type its accessor returns. */
  datatype Accessor = Accessor(tag: string, rustType: string)

  /** The enums found in a source, in order, and the accessors of its structs. */
  datatype Source = Source(found: seq<(string, seq<Field>)>, accessors: map<string, seq<Accessor>>)

  /** `parse_enums`: an enum without variants is not one. */
  function Enums(found: seq<(string, seq<Field>)>): (enums: map<string, seq<Field>>)
    ensures forall name | name in enums :: enums[name] != []
  {
    if found == [] then map[]
    else
      var init, (name, variants) := Enums(found[..|found| - 1]), found[|found| - 1];
      if variants == [] then init else init[name := variants]
  }

  /** `tag_structs`. */
  function TagStructs(enums: map<string, seq<Field>>): set<string>
  {
    set e | e in enums && EndsWith(e, "Tag") :: e[..|e| - 3]
  }

  function Structs(sources: seq<Source>): set<string>
  {
    if sources == [] then {} else TagStructs(Enums(sources[0].found)) + Structs(sources[1..])
  }

  function Kinds(accessors: seq<Accessor>, structs: set<string>): seq<KindEntry>
  {
    seq(|accessors|, i requires 0 <= i < |accessors| =>
      KindEntry(accessors[i].tag, Classify(accessors[i].rustType, structs)))
  }

  function ScopeOf(source: Source, structs: set<string>): Scope
  {
    Scope(Enums(source.found), map name | name in source.accessors :: Kinds(source.accessors[name], structs))
  }

  function Scopes(sources: seq<Source>, structs: set<string>): seq<Scope>
  {
    if sources == [] then [] else [ScopeOf(sources[0], structs)] + Scopes(sources[1..], structs)
  }

  function Requests(commands: seq<seq<Accessor>>, structs: set<string>): seq<seq<KindEntry>>
  {
    seq(|commands|, i requires 0 <= i < |commands| => Kinds(commands[i], structs))
  }

  // ----- every named struct is defined -----

  lemma TagStructHasItsEnum(enums: map<string, seq<Field>>, name: string)
    requires name in TagStructs(enums)
    ensures TagEnum(name) in enums
  {
    var e :| e in enums && EndsWith(e, "Tag") && e[..|e| - 3] == name;
    assert e == TagEnum(name);
  }

  /** A struct with a tag enum in some source has a definition. */
  lemma {:induction false} TagStructIsDefined(sources: seq<Source>, structs: set<string>, name: string)
    requires name in Structs(sources)
    ensures Definition(Scopes(sources, structs), name).Some?
  {
    var scopes := Scopes(sources, structs);
    assert scopes[0] == ScopeOf(sources[0], structs) && scopes[1..] == Scopes(sources[1..], structs);
    var enums := Enums(sources[0].found);
    if name in TagStructs(enums) {
      TagStructHasItsEnum(enums, name);
    } else {
      TagStructIsDefined(sources[1..], structs, name);
    }
  }

  ghost predicate NamesOnly(types: seq<KindEntry>, structs: set<string>)
  {
    forall e | e in types && Reference(e.kind).Some? :: Reference(e.kind).value in structs
  }

  lemma KindsNameOnly(accessors: seq<Accessor>, structs: set<string>)
    ensures NamesOnly(Kinds(accessors, structs), structs)
  {
    forall e | e in Kinds(accessors, structs) && Reference(e.kind).Some? ensures Reference(e.kind).value in structs {
      var i :| 0 <= i < |accessors| && Kinds(accessors, structs)[i] == e;
      ClassifiedNamesAStruct(accessors[i].rustType, structs);
    }
  }

  lemma {:induction false} DefinitionNamesOnly(sources: seq<Source>, structs: set<string>, name: string)
    requires Definition(Scopes(sources, structs), name).Some?
    ensures NamesOnly(Definition(Scopes(sources, structs), name).value.types, structs)
  {
    var scopes := Scopes(sources, structs);
    assert scopes[0] == ScopeOf(sources[0], structs) && scopes[1..] == Scopes(sources[1..], structs);
    if TagEnum(name) in scopes[0].enums && scopes[0].enums[TagEnum(name)] != [] {
      if name in sources[0].accessors {
        KindsNameOnly(sources[0].accessors[name], structs);
      }
    } else {
      DefinitionNamesOnly(sources[1..], structs, name);
    }
  }

  /** The table the generator writes for a cluster. */
  ghost predicate IsGenerated(sources: seq<Source>, commands: seq<seq<Accessor>>, table: Table)
  {
    var structs := Structs(sources);
    IsTableOf(Scopes(sources, structs), Requests(commands, structs), table)
  }

  /** Of such a table, or of a command it was written for. */
  ghost predicate IsPartOf(sources: seq<Source>, commands: seq<seq<Accessor>>, table: Table, types: seq<KindEntry>)
  {
    types in Requests(commands, Structs(sources)) || exists n | n in table :: table[n].types == types
  }

  /** Whatever a generated kind names is in the table it was generated with. */
  lemma GeneratedKindIsInTheTable(
    sources: seq<Source>, commands: seq<seq<Accessor>>, table: Table, types: seq<KindEntry>, e: KindEntry)
    requires IsGenerated(sources, commands, table) && IsPartOf(sources, commands, table, types) && e in types
    requires Reference(e.kind).Some? && Reference(e.kind).value != ""
    ensures Reference(e.kind).value in table
  {
    var structs := Structs(sources);
    if types in Requests(commands, structs) {
      var i :| 0 <= i < |commands| && Requests(commands, structs)[i] == types;
      KindsNameOnly(commands[i], structs);
    } else {
      var n :| n in table && table[n].types == types;
      DefinitionNamesOnly(sources, structs, n);
    }
    var name := Reference(e.kind).value;
    TagStructIsDefined(sources, structs, name);
    assert Follows(types, name);
    TableIsClosed(Scopes(sources, structs), Requests(commands, structs), table, types, name);
  }

  /** So the resolver treats a field whose kind names a struct as a bare JSON shape
      only where that struct contains itself. */
  lemma FallsBackOnlyOnCycles(
    sources: seq<Source>, commands: seq<seq<Accessor>>, table: Table, types: seq<KindEntry>, e: KindEntry)
    requires IsGenerated(sources, commands, table) && IsPartOf(sources, commands, table, types) && e in types
    requires Reference(e.kind).Some? && Reference(e.kind).value != ""
    requires MayFallBack(table, e.kind)
    ensures OnCycle(table, Reference(e.kind).value)
  {
    GeneratedKindIsInTheTable(sources, commands, table, types, e);
  }

  // ----- kinds by type -----

  /** Neither wrapped nor with an array in it. */
  predicate IsPlain(t: string)
  {
    && !StartsWith(t, OPTION) && !StartsWith(t, TLV_NULLABLE) && !StartsWith(t, NULLABLE)
    && !Contains(t, "TLVArray<'") && !Contains(t, "ArrayIter<'")
  }

  lemma {:induction false} NoArrayInside(t: string)
    requires !Contains(t, "TLVArray<'") && !Contains(t, "ArrayIter<'")
    ensures ArrayItem(t) == None
  {
    if t != "" {
      NoArrayInside(t[1..]);
    }
  }

  lemma PlainIsItself(t: string)
    requires IsPlain(t)
    ensures Unwrapped(t) == t && ArrayItem(t) == None
  {
    NoArrayInside(t);
  }

  /** Octet strings are bytes, and UTF-8 strings are strings. */
  lemma StringTypes(t: string, structs: set<string>)
    requires IsPlain(t)
    ensures Contains(t, "OctetStr") ==> Classify(t, structs) == "bytes"
    ensures !Contains(t, "OctetStr") && Contains(t, "Utf8Str") ==> Classify(t, structs) == "string"
  {
    PlainIsItself(t);
  }

  lemma {:induction false} TooShortToContain(t: string, part: string)
    requires |t| < |part|
    ensures !Contains(t, part)
  {
    if t != "" {
      TooShortToContain(t[1..], part);
    }
  }

  lemma ShortIsPlain(t: string)
    requires |t| < 6
    ensures IsPlain(t) && !Contains(t, "OctetStr") && !Contains(t, "Utf8Str")
  {
    TooShortToContain(t, "TLVArray<'");
    TooShortToContain(t, "ArrayIter<'");
    TooShortToContain(t, "OctetStr");
    TooShortToContain(t, "Utf8Str");
  }

  /** Rust's numbers and truth values have kinds of their own. */
  lemma ScalarTypes(t: string, structs: set<string>)
    requires t in {"i8", "i16", "i32", "i64", "u8", "u16", "u32", "u64", "f32", "f64", "bool"}
    ensures Classify(t, structs)
      == if t == "bool" then "bool" else if t == "f32" || t == "f64" then "float" else "int"
  {
    ShortIsPlain(t);
    PlainIsItself(t);
  }

  /** An array is a list of what its items are. */
  lemma ArrayTypes(t: string, structs: set<string>)
    requires t != ""
    ensures Classify("TLVArray<'a," + t + ">", structs) == "list:" + Classify(t, structs)
  {
    var whole := "TLVArray<'a," + t + ">";
    var rest := whole[|TLV_ARRAY|..];
    assert whole[..|TLV_ARRAY|] == TLV_ARRAY && rest == "a," + t + ">";
    assert rest[0] == 'a' && rest[1] == ',' && rest[1..][0] == ',';
    assert WordLength(rest[1..]) == 0 && WordLength(rest) == 1;
    assert rest[2..|rest| - 1] == t;
    assert ArrayHere(whole) == Some(t);
    NotItsPrefix(whole, OPTION);
    NotItsPrefix(whole, TLV_NULLABLE);
    NotItsPrefix(whole, NULLABLE);
  }

  lemma NotItsPrefix(t: string, wrapper: string)
    requires t != "" && wrapper != "" && t[0] != wrapper[0]
    ensures !StartsWith(t, wrapper)
  {
    if StartsWith(t, wrapper) {
      SameFirst(t, wrapper);
    }
  }

  lemma SameFirst(t: string, prefix: string)
    requires prefix != "" && StartsWith(t, prefix)
    ensures t[0] == prefix[0]
  {
    assert t[0] == t[..|prefix|][0];
  }

  lemma {:induction false} NoColons(t: string)
    requires ':' !in t
    ensures !Contains(t, "::") && LastSegment(t) == t
  {
    if StartsWith(t, "::") {
      SameFirst(t, "::");
    } else if t != "" {
      NoColons(t[1..]);
    }
  }

  lemma {:induction false} LastSegmentOf(path: string, name: string)
    requires ':' !in path && ':' !in name
    ensures LastSegment(path + "::" + name) == name
  {
    var t := path + "::" + name;
    if path == "" {
      assert t[..2] == "::" && t[2..] == name;
      assert StartsWith(t, "::") && Contains(t, "::");
      NoColons(name);
    } else {
      assert t[1..] == path[1..] + "::" + name && t[0] != ':';
      ContainedBehind(path, name);
      LastSegmentOf(path[1..], name);
    }
  }

  lemma {:induction false} ContainedBehind(path: string, name: string)
    ensures Contains(path + "::" + name, "::")
  {
    var t := path + "::" + name;
    if path == "" {
      assert t[..2] == "::";
    } else {
      assert t[1..] == path[1..] + "::" + name;
      ContainedBehind(path[1..], name);
    }
  }

  lemma {:induction false} NameBeforeBrackets(name: string, rest: string)
    requires '<' !in name
    ensures BeforeGenerics(name + "<" + rest) == name
  {
    var t := name + "<" + rest;
    if name == "" {
      assert t[0] == '<';
    } else {
      assert t[1..] == name[1..] + "<" + rest;
      NameBeforeBrackets(name[1..], rest);
      assert [name[0]] + name[1..] == name;
    }
  }

  /** A struct's type names it, behind its path and in front of its lifetime. */
  lemma StructTypes(path: string, name: string, structs: set<string>)
    requires ':' !in path && ':' !in name && '<' !in name && name in structs
    requires
      var t := path + "::" + name + "<'a>";
      && IsPlain(t) && !Contains(t, "OctetStr") && !Contains(t, "Utf8Str") && !StartsWith(t, "bool")
      && t !in INTEGERS && t !in {"f32", "f64"}
    ensures Classify(path + "::" + name + "<'a>", structs) == "struct:" + name
  {
    PlainIsItself(path + "::" + name + "<'a>");
    NameInPlace(path, name);
  }

  lemma NameInPlace(path: string, name: string)
    requires ':' !in path && ':' !in name && '<' !in name
    ensures BeforeGenerics(LastSegment(path + "::" + name + "<'a>")) == name
  {
    var last := name + "<'a>";
    assert path + "::" + name + "<'a>" == path + "::" + last;
    LastSegmentOf(path, last);
    assert last == name + "<" + "'a>";
    NameBeforeBrackets(name, "'a>");
  }
}

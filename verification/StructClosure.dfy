/** The worklist that gathers the structs a cluster's commands can hold
    (`tools/build_registry.py`), and what its result means to the resolver. */
module StructClosure {
  import opened StructTables
  import opened WireNames
  import opened Wrappers

  /** One generated source: its enums by name, and the accessor types of its
      structs. */
  datatype Scope = Scope(enums: map<string, seq<Field>>, accessors: map<string, seq<KindEntry>>)

  function TagEnum(name: string): string
  {
    name + "Tag"
  }

  /** The first scope with a tag enum for the struct defines it. */
  function Definition(scopes: seq<Scope>, name: string): Option<RawStruct>
  {
    if scopes == [] then None
    else if TagEnum(name) in scopes[0].enums && scopes[0].enums[TagEnum(name)] != [] then
      Some(RawStruct(scopes[0].enums[TagEnum(name)],
                     if name in scopes[0].accessors then scopes[0].accessors[name] else []))
    else Definition(scopes[1..], name)
  }

  /** A reference the worklist follows: an empty name is not one. */
  predicate Follows(types: seq<KindEntry>, name: string)
  {
    name != "" && exists e | e in types :: Reference(e.kind) == Some(name)
  }

  /** Every struct the walk visits is defined, except that its last one need not
      be, and names the one after it. */
  ghost predicate Trail(scopes: seq<Scope>, trail: seq<string>)
  {
    forall i | 0 <= i < |trail| - 1 :: Leads(scopes, trail[i], trail[i + 1])
  }

  predicate Leads(scopes: seq<Scope>, name: string, next: string)
  {
    Definition(scopes, name).Some? && Follows(Definition(scopes, name).value.types, next)
  }

  ghost predicate Reachable(scopes: seq<Scope>, kinds: seq<KindEntry>, name: string)
  {
    exists trail :: trail != [] && Follows(kinds, trail[0]) && trail[|trail| - 1] == name && Trail(scopes, trail)
  }

  lemma ReachableRoot(scopes: seq<Scope>, kinds: seq<KindEntry>, name: string)
    requires Follows(kinds, name)
    ensures Reachable(scopes, kinds, name)
  {
    assert Trail(scopes, [name]);
    assert [name][0] == name;
  }

  lemma ReachableNext(scopes: seq<Scope>, kinds: seq<KindEntry>, name: string, next: string)
    requires Reachable(scopes, kinds, name) && Leads(scopes, name, next)
    ensures Reachable(scopes, kinds, next)
  {
    var trail :| trail != [] && Follows(kinds, trail[0]) && trail[|trail| - 1] == name && Trail(scopes, trail);
    var longer := trail + [next];
    assert longer[0] == trail[0] && longer[|longer| - 1] == next;
    assert Trail(scopes, longer);
  }

  ghost predicate StaysInside(scopes: seq<Scope>, inside: set<string>, name: string)
  {
    forall next | Leads(scopes, name, next) && Definition(scopes, next).Some? :: next in inside
  }

  /** Whatever is reachable lies in every set that holds the defined roots and is
      closed under references to defined structs. */
  lemma {:induction false} ReachableStaysInside(
    scopes: seq<Scope>, kinds: seq<KindEntry>, inside: set<string>, trail: seq<string>, i: nat)
    requires Trail(scopes, trail) && i < |trail| && Follows(kinds, trail[0])
    requires forall n | Follows(kinds, n) && Definition(scopes, n).Some? :: n in inside
    requires forall n | n in inside :: StaysInside(scopes, inside, n)
    ensures Definition(scopes, trail[i]).Some? ==> trail[i] in inside
  {
    if i > 0 {
      assert Leads(scopes, trail[i - 1], trail[i - 1 + 1]);
      assert trail[i - 1] in inside ==> StaysInside(scopes, inside, trail[i - 1]);
      ReachableStaysInside(scopes, kinds, inside, trail, i - 1);
    }
  }

  // ----- the worklist -----

  /** The structs some kinds name, in order. */
  function ReferencesOf(kinds: seq<KindEntry>): (names: seq<string>)
    ensures forall n :: n in names <==> Follows(kinds, n)
  {
    if kinds == [] then []
    else
      var init, last := kinds[..|kinds| - 1], kinds[|kinds| - 1];
      var name := Reference(last.kind);
      assert forall n :: Follows(kinds, n) <==> Follows(init, n) || (n != "" && name == Some(n)) by {
        assert kinds == init + [last];
      }
      if name.Some? && name.value != "" then ReferencesOf(init) + [name.value] else ReferencesOf(init)
  }

  function DefinedNames(scopes: seq<Scope>): (names: set<string>)
    ensures forall n | Definition(scopes, n).Some? :: n in names
  {
    if scopes == [] then {}
    else
      var enums := scopes[0].enums.Keys;
      var here := set e | e in enums && |e| >= 3 :: e[..|e| - 3];
      assert forall n | TagEnum(n) in enums :: n in here by {
        forall n | TagEnum(n) in enums ensures n in here {
          assert TagEnum(n)[..|TagEnum(n)| - 3] == n;
        }
      }
      here + DefinedNames(scopes[1..])
  }

  ghost predicate Sound(scopes: seq<Scope>, kinds: seq<KindEntry>, out: Table, pending: seq<string>)
  {
    && (forall n | n in out :: Definition(scopes, n) == Some(out[n]) && Reachable(scopes, kinds, n))
    && (forall n | n in pending :: Reachable(scopes, kinds, n))
  }

  /** A name is done with, or still to be looked at, or has no definition. */
  ghost predicate Handled(scopes: seq<Scope>, out: Table, pending: seq<string>, name: string)
  {
    name in out || name in pending || Definition(scopes, name).None?
  }

  ghost predicate AllHandled(scopes: seq<Scope>, types: seq<KindEntry>, out: Table, pending: seq<string>)
  {
    forall n | Follows(types, n) :: Handled(scopes, out, pending, n)
  }

  ghost predicate Complete(scopes: seq<Scope>, kinds: seq<KindEntry>, out: Table, pending: seq<string>)
  {
    && AllHandled(scopes, kinds, out, pending)
    && forall n | n in out :: AllHandled(scopes, out[n].types, out, pending)
  }

  /** Taking the last name off the list loses nothing once the name is in the
      table or known to have no definition. */
  lemma StillHandled(
    scopes: seq<Scope>, types: seq<KindEntry>, out: Table, pending: seq<string>, grown: Table, more: seq<string>)
    requires AllHandled(scopes, types, out, pending) && pending != []
    requires forall n | n in out :: n in grown
    requires forall n | n in pending[..|pending| - 1] :: n in more
    requires Handled(scopes, grown, more, pending[|pending| - 1])
    ensures AllHandled(scopes, types, grown, more)
  {
    forall n | Follows(types, n) ensures Handled(scopes, grown, more, n) {
      assert Handled(scopes, out, pending, n);
      if n in pending {
        assert n == pending[|pending| - 1] || n in pending[..|pending| - 1];
      }
    }
  }

  lemma NothingLost(scopes: seq<Scope>, kinds: seq<KindEntry>, out: Table, pending: seq<string>)
    requires pending != [] && Complete(scopes, kinds, out, pending)
    requires Handled(scopes, out, pending[..|pending| - 1], pending[|pending| - 1])
    ensures Complete(scopes, kinds, out, pending[..|pending| - 1])
  {
    var more := pending[..|pending| - 1];
    StillHandled(scopes, kinds, out, pending, out, more);
    forall n | n in out ensures AllHandled(scopes, out[n].types, out, more) {
      StillHandled(scopes, out[n].types, out, pending, out, more);
    }
  }

  lemma SoundOneMore(scopes: seq<Scope>, kinds: seq<KindEntry>, out: Table, pending: seq<string>, name: string)
    requires Sound(scopes, kinds, out, pending) && Reachable(scopes, kinds, name) && Definition(scopes, name).Some?
    ensures
      var definition := Definition(scopes, name).value;
      Sound(scopes, kinds, out[name := definition], pending + ReferencesOf(definition.types))
  {
    var definition := Definition(scopes, name).value;
    forall n | n in ReferencesOf(definition.types) ensures Reachable(scopes, kinds, n) {
      ReachableNext(scopes, kinds, name, n);
    }
  }

  lemma CompleteOneMore(scopes: seq<Scope>, kinds: seq<KindEntry>, out: Table, pending: seq<string>, name: string)
    requires pending != [] && pending[|pending| - 1] == name && name !in out && Definition(scopes, name).Some?
    requires Complete(scopes, kinds, out, pending)
    ensures
      var definition := Definition(scopes, name).value;
      Complete(scopes, kinds, out[name := definition], pending[..|pending| - 1] + ReferencesOf(definition.types))
  {
    var definition := Definition(scopes, name).value;
    var grown, more := out[name := definition], pending[..|pending| - 1] + ReferencesOf(definition.types);
    StillHandled(scopes, kinds, out, pending, grown, more);
    forall n | n in grown ensures AllHandled(scopes, grown[n].types, grown, more) {
      if n != name {
        StillHandled(scopes, out[n].types, out, pending, grown, more);
      }
    }
  }

  lemma RootsArePending(scopes: seq<Scope>, kinds: seq<KindEntry>)
    ensures Sound(scopes, kinds, map[], ReferencesOf(kinds)) && Complete(scopes, kinds, map[], ReferencesOf(kinds))
  {
    forall n | n in ReferencesOf(kinds) ensures Reachable(scopes, kinds, n) {
      ReachableRoot(scopes, kinds, n);
    }
  }

  lemma StillSound(scopes: seq<Scope>, kinds: seq<KindEntry>, out: Table, pending: seq<string>)
    requires pending != [] && Sound(scopes, kinds, out, pending)
    ensures Sound(scopes, kinds, out, pending[..|pending| - 1])
    ensures Reachable(scopes, kinds, pending[|pending| - 1])
  {
  }

  function Left(scopes: seq<Scope>, out: Table): nat
  {
    |DefinedNames(scopes) - out.Keys|
  }

  lemma FewerLeft(scopes: seq<Scope>, out: Table, name: string, definition: RawStruct)
    requires name !in out && Definition(scopes, name).Some?
    ensures Left(scopes, out[name := definition]) < Left(scopes, out)
  {
    assert DefinedNames(scopes) - out[name := definition].Keys == (DefinedNames(scopes) - out.Keys) - {name};
  }

  /** One turn of the worklist, which pops its last name. */
  method Visit(scopes: seq<Scope>, ghost kinds: seq<KindEntry>, out: Table, pending: seq<string>)
    returns (grown: Table, more: seq<string>)
    requires pending != [] && Sound(scopes, kinds, out, pending) && Complete(scopes, kinds, out, pending)
    ensures Sound(scopes, kinds, grown, more) && Complete(scopes, kinds, grown, more)
    ensures
      || Left(scopes, grown) < Left(scopes, out)
      || (grown == out && |more| < |pending|)
  {
    StillSound(scopes, kinds, out, pending);
    var name := pending[|pending| - 1];
    grown, more := out, pending[..|pending| - 1];
    if name in out {
      NothingLost(scopes, kinds, out, pending);
      return;
    }
    var definition := FindDefinition(scopes, name);
    if definition.Some? {
      FewerLeft(scopes, out, name, definition.value);
      CompleteOneMore(scopes, kinds, out, pending, name);
      SoundOneMore(scopes, kinds, out, more, name);
      grown := out[name := definition.value];
      more := more + ReferencesOf(definition.value.types);
    } else {
      NothingLost(scopes, kinds, out, pending);
    }
  }

  /** `collect_structs`: exactly the reachable structs that have a definition. */
  method CollectStructs(scopes: seq<Scope>, kinds: seq<KindEntry>) returns (out: Table)
    ensures forall n :: n in out <==> Reachable(scopes, kinds, n) && Definition(scopes, n).Some?
    ensures forall n | n in out :: Definition(scopes, n) == Some(out[n])
  {
    out := map[];
    var pending := ReferencesOf(kinds);
    RootsArePending(scopes, kinds);
    while pending != []
      invariant Sound(scopes, kinds, out, pending) && Complete(scopes, kinds, out, pending)
      decreases Left(scopes, out), |pending|
    {
      out, pending := Visit(scopes, kinds, out, pending);
    }
    CollectedAll(scopes, kinds, out);
  }

  /** The search through the scopes, nearest first. */
  method FindDefinition(scopes: seq<Scope>, name: string) returns (definition: Option<RawStruct>)
    ensures definition == Definition(scopes, name)
  {
    for i := 0 to |scopes|
      invariant Definition(scopes, name) == Definition(scopes[i..], name)
    {
      assert scopes[i..][1..] == scopes[i + 1..];
      if TagEnum(name) in scopes[i].enums && scopes[i].enums[TagEnum(name)] != [] {
        var types := if name in scopes[i].accessors then scopes[i].accessors[name] else [];
        return Some(RawStruct(scopes[i].enums[TagEnum(name)], types));
      }
    }
    return None;
  }

  lemma CollectedAll(scopes: seq<Scope>, kinds: seq<KindEntry>, out: Table)
    requires Sound(scopes, kinds, out, []) && Complete(scopes, kinds, out, [])
    ensures forall n | n in out :: Definition(scopes, n) == Some(out[n])
    ensures forall n :: n in out <==> Reachable(scopes, kinds, n) && Definition(scopes, n).Some?
  {
    forall n | n in out.Keys ensures StaysInside(scopes, out.Keys, n) {
      assert AllHandled(scopes, out[n].types, out, []);
    }
    forall n | Reachable(scopes, kinds, n) && Definition(scopes, n).Some? ensures n in out {
      var trail :| trail != [] && Follows(kinds, trail[0]) && trail[|trail| - 1] == n && Trail(scopes, trail);
      ReachableStaysInside(scopes, kinds, out.Keys, trail, |trail| - 1);
    }
  }

  // ----- the table of a cluster -----

  ghost predicate ReachableFromAny(scopes: seq<Scope>, commands: seq<seq<KindEntry>>, name: string)
  {
    exists kinds | kinds in commands :: Reachable(scopes, kinds, name)
  }

  lemma FromOneMore(scopes: seq<Scope>, commands: seq<seq<KindEntry>>, kinds: seq<KindEntry>, name: string)
    ensures ReachableFromAny(scopes, commands + [kinds], name)
      <==> ReachableFromAny(scopes, commands, name) || Reachable(scopes, kinds, name)
  {
    if ReachableFromAny(scopes, commands, name) {
      var earlier :| earlier in commands && Reachable(scopes, earlier, name);
      assert earlier in commands + [kinds];
    }
    if Reachable(scopes, kinds, name) {
      assert kinds in commands + [kinds];
    }
  }

  ghost predicate IsTableOf(scopes: seq<Scope>, commands: seq<seq<KindEntry>>, table: Table)
  {
    && (forall n :: n in table <==> ReachableFromAny(scopes, commands, n) && Definition(scopes, n).Some?)
    && forall n | n in table :: Definition(scopes, n) == Some(table[n])
  }

  /** The structs written for a cluster: what each of its commands needs. */
  method GatherStructs(scopes: seq<Scope>, commands: seq<seq<KindEntry>>) returns (table: Table)
    ensures IsTableOf(scopes, commands, table)
  {
    table := map[];
    for i := 0 to |commands|
      invariant IsTableOf(scopes, commands[..i], table)
    {
      var more := CollectStructs(scopes, commands[i]);
      TableOneMore(scopes, commands[..i], table, commands[i], more);
      assert commands[..i + 1] == commands[..i] + [commands[i]];
      table := table + more;
    }
    assert commands[..|commands|] == commands;
  }

  lemma TableOneMore(
    scopes: seq<Scope>, commands: seq<seq<KindEntry>>, table: Table, kinds: seq<KindEntry>, more: Table)
    requires IsTableOf(scopes, commands, table)
    requires forall n :: n in more <==> Reachable(scopes, kinds, n) && Definition(scopes, n).Some?
    requires forall n | n in more :: Definition(scopes, n) == Some(more[n])
    ensures IsTableOf(scopes, commands + [kinds], table + more)
  {
    forall n
      ensures n in table + more
        <==> ReachableFromAny(scopes, commands + [kinds], n) && Definition(scopes, n).Some?
    {
      FromOneMore(scopes, commands, kinds, n);
    }
  }

  /** A cluster's table leaves out only what has no definition: everything that
      one of its structs, or one of its commands, refers to is in it. */
  lemma TableIsClosed(
    scopes: seq<Scope>, commands: seq<seq<KindEntry>>, table: Table, types: seq<KindEntry>, next: string)
    requires IsTableOf(scopes, commands, table)
    requires types in commands || exists n | n in table :: table[n].types == types
    requires Follows(types, next)
    ensures next in table <==> Definition(scopes, next).Some?
  {
    if types in commands {
      ReachableRoot(scopes, types, next);
    } else {
      var n :| n in table && table[n].types == types;
      var kinds :| kinds in commands && Reachable(scopes, kinds, n);
      assert Leads(scopes, n, next);
      ReachableNext(scopes, kinds, n, next);
    }
  }
}

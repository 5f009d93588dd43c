// filterDeclared as it runs, and what its report means.
module DeclaredReport {
  import opened Options
  import opened Sequences
  import opened Text
  import opened JsonPointers
  import opened Schemas
  import opened DeclaredFields
  import Names

  function PointerFrom(at: string): Path -> string { p => at + Pointer(p) }

  ghost function Reported(g: Graph, v: Json, s: nat, at: string): seq<string> {
    Map(PointerFrom(at), RemovedPaths(g, v, s))
  }

  function Child(at: string, t: Token): string { at + "/" + TokenText(t) }

  lemma PointersBelow(at: string, t: Token, paths: seq<Path>)
    ensures Map(PointerFrom(at), Map(Below(t), paths)) == Map(PointerFrom(Child(at, t)), paths)
  {
    hide TokenText;
    forall i | 0 <= i < |paths|
      ensures PointerFrom(at)(Below(t)(paths[i])) == PointerFrom(Child(at, t))(paths[i])
    {
      PointerCons(t, paths[i]);
      hide Pointer;
      assert at + ("/" + TokenText(t) + Pointer(paths[i])) == at + "/" + TokenText(t) + Pointer(paths[i]);
    }
  }

  // sortedObjectKeys
  method SortedKeys(members: Members) returns (keys: seq<string>)
    ensures keys == Names.Ascending(members.Keys)
  {
    keys := [];
    var rest := members.Keys;
    while rest != {}
      invariant rest <= members.Keys
      invariant Distinct(keys)
      invariant forall k :: k in keys <==> k in members.Keys - rest
    {
      var k :| k in rest;
      assert forall i :: 0 <= i < |keys| ==> keys[i] in keys;
      keys := keys + [k];
      rest := rest - {k};
    }
    Names.SortStrict(keys);
    keys := Names.SortNames(keys);
    Names.IncreasingUnique(keys, Names.Ascending(members.Keys));
  }

  method FilterDeclared(g: Graph, v: Json, s: nat, at: string, before: seq<string>)
    returns (out: Json, undeclared: seq<string>)
    ensures out == Filtered(g, v, s)
    ensures undeclared == before + Reported(g, v, s, at)
    decreases v, 2, 0
  {
    hide Properties;
    hide ItemOf;
    hide Filtered;
    hide Reported;
    hide KeptOf;
    hide ElementsOf;
    match v {
      case Obj(members) =>
        var props := SchemaProperties(g, s);
        if props == map[] {
          FilteredUntyped(g, v, s, at);
          return v, before;
        }
        var kept: Members;
        kept, undeclared := FilterMembers(g, v, props, at, before);
        out := Obj(kept);
        FilteredObject(g, v, s, at);
      case Arr(items) =>
        var item := ItemOf(g, s);
        if item.None? {
          FilteredUntyped(g, v, s, at);
          return v, before;
        }
        var elements: seq<Json>;
        elements, undeclared := FilterElements(g, v, item.value, at, before);
        out := Arr(elements);
        FilteredArray(g, v, s, at);
      case _ =>
        FilteredUntyped(g, v, s, at);
        return v, before;
    }
  }

  function KeptOf(g: Graph, members: Members, props: map<string, nat>, keys: seq<string>): Members
    requires forall k :: k in keys ==> k in members
  {
    map k | k in keys && k in props :: Filtered(g, members[k], props[k])
  }

  function ElementsOf(g: Graph, items: seq<Json>, item: nat): seq<Json> {
    seq(|items|, i requires 0 <= i < |items| => Filtered(g, items[i], item))
  }

  predicate Untyped(g: Graph, v: Json, s: nat) {
    && (v.Obj? ==> Properties(g, s) == map[])
    && (v.Arr? ==> ItemOf(g, s).None?)
  }

  lemma FilteredUntyped(g: Graph, v: Json, s: nat, at: string)
    requires Untyped(g, v, s)
    ensures Filtered(g, v, s) == v && Reported(g, v, s, at) == []
  {
    hide Properties;
    hide ItemOf;
  }

  lemma FilteredObject(g: Graph, v: Json, s: nat, at: string)
    requires v.Obj? && Properties(g, s) != map[]
    ensures Filtered(g, v, s) == Obj(KeptOf(g, v.members, Properties(g, s), Names.Ascending(v.members.Keys)))
    ensures Reported(g, v, s, at) ==
        Map(PointerFrom(at), RemovedMembers(g, v, Properties(g, s), Names.Ascending(v.members.Keys)))
  {
    hide Properties;
    hide ItemOf;
    hide RemovedMembers;
  }

  lemma FilteredArray(g: Graph, v: Json, s: nat, at: string)
    requires v.Arr? && ItemOf(g, s).Some?
    ensures Filtered(g, v, s) == Arr(ElementsOf(g, v.items, ItemOf(g, s).value))
    ensures Reported(g, v, s, at) == Map(PointerFrom(at), RemovedElements(g, v, ItemOf(g, s).value, |v.items|))
  {
    hide Properties;
    hide ItemOf;
    hide RemovedElements;
  }

  method FilterMembers(g: Graph, v: Json, props: map<string, nat>, at: string, before: seq<string>)
    returns (kept: Members, undeclared: seq<string>)
    requires v.Obj?
    ensures kept == KeptOf(g, v.members, props, Names.Ascending(v.members.Keys))
    ensures undeclared == before + Map(PointerFrom(at), RemovedMembers(g, v, props, Names.Ascending(v.members.Keys)))
    decreases v, 1, 0
  {
    hide *;
    var keys := SortedKeys(v.members);
    KeysAreMembers(v.members);
    kept, undeclared := map[], before;
    NoMembers(g, v, props, keys, at);
    for i := 0 to |keys|
      invariant kept == KeptAmong(g, v, props, keys, i)
      invariant undeclared == before + MembersReport(g, v, props, keys, i, at)
    {
      var k := keys[i];
      assert k in v.members;
      if k !in props {
        undeclared := undeclared + [at + "/" + Escape(k)];
        UndeclaredMember(g, v, props, k, at);
      } else {
        var value: Json;
        value, undeclared := FilterDeclared(g, v.members[k], props[k], at + "/" + Escape(k), undeclared);
        kept := kept[k := value];
        DeclaredMember(g, v, props, k, at);
      }
      NextMember(g, v, props, keys, i, at);
      KeptNext(g, v, props, keys, i);
    }
    AllMembers(g, v, props, keys, at);
  }

  lemma KeysAreMembers(members: Members)
    ensures forall k :: k in Names.Ascending(members.Keys) <==> k in members
  {
  }

  ghost function MembersReport(g: Graph, v: Json, props: map<string, nat>, keys: seq<string>, i: nat,
                               at: string): seq<string>
    requires v.Obj? && i <= |keys| && forall k :: k in keys ==> k in v.members
  {
    Map(PointerFrom(at), RemovedMembers(g, v, props, keys[..i]))
  }

  ghost function MemberReport(g: Graph, v: Json, props: map<string, nat>, k: string, at: string): seq<string>
    requires v.Obj? && k in v.members
  {
    Map(PointerFrom(at), RemovedMember(g, v, props, k))
  }

  function KeptAmong(g: Graph, v: Json, props: map<string, nat>, keys: seq<string>, i: nat): Members
    requires v.Obj? && i <= |keys| && forall k :: k in keys ==> k in v.members
  {
    KeptOf(g, v.members, props, keys[..i])
  }

  lemma NoMembers(g: Graph, v: Json, props: map<string, nat>, keys: seq<string>, at: string)
    requires v.Obj? && forall k :: k in keys ==> k in v.members
    ensures KeptAmong(g, v, props, keys, 0) == map[] && MembersReport(g, v, props, keys, 0, at) == []
  {
  }

  lemma AllMembers(g: Graph, v: Json, props: map<string, nat>, keys: seq<string>, at: string)
    requires v.Obj? && forall k :: k in keys ==> k in v.members
    ensures KeptAmong(g, v, props, keys, |keys|) == KeptOf(g, v.members, props, keys)
    ensures MembersReport(g, v, props, keys, |keys|, at) == Map(PointerFrom(at), RemovedMembers(g, v, props, keys))
  {
    assert keys[..|keys|] == keys;
  }

  lemma KeptNext(g: Graph, v: Json, props: map<string, nat>, keys: seq<string>, i: nat)
    requires v.Obj? && i < |keys| && forall k :: k in keys ==> k in v.members
    ensures KeptAmong(g, v, props, keys, i + 1) ==
            if keys[i] in props then KeptAmong(g, v, props, keys,
                i)[keys[i] := Filtered(g, v.members[keys[i]], props[keys[i]])]
            else KeptAmong(g, v, props, keys, i)
  {
    hide Filtered;
    assert keys[..i + 1] == keys[..i] + [keys[i]];
  }

  lemma NextMember(g: Graph, v: Json, props: map<string, nat>, keys: seq<string>, i: nat, at: string)
    requires v.Obj? && i < |keys| && forall k :: k in keys ==> k in v.members
    ensures MembersReport(g, v, props, keys, i + 1, at) ==
        MembersReport(g, v, props, keys, i, at) + MemberReport(g, v, props, keys[i], at)
  {
    hide RemovedMember;
    assert keys[..i + 1][..i] == keys[..i];
    MapConcat(PointerFrom(at), RemovedMembers(g, v, props, keys[..i]), RemovedMember(g, v, props, keys[i]));
  }

  lemma UndeclaredMember(g: Graph, v: Json, props: map<string, nat>, k: string, at: string)
    requires v.Obj? && k in v.members && k !in props
    ensures MemberReport(g, v, props, k, at) == [at + "/" + Escape(k)]
  {
    PointerCons(Key(k), []);
    assert [Key(k)] + [] == [Key(k)];
    hide Escape;
    assert at + ("/" + Escape(k) + []) == at + "/" + Escape(k);
  }

  lemma DeclaredMember(g: Graph, v: Json, props: map<string, nat>, k: string, at: string)
    requires v.Obj? && k in v.members && k in props
    ensures MemberReport(g, v, props, k, at) == Reported(g, v.members[k], props[k], at + "/" + Escape(k))
  {
    PointersBelow(at, Key(k), RemovedPaths(g, v.members[k], props[k]));
  }

  method FilterElements(g: Graph, v: Json, item: nat, at: string, before: seq<string>)
    returns (elements: seq<Json>, undeclared: seq<string>)
    requires v.Arr?
    ensures elements == ElementsOf(g, v.items, item)
    ensures undeclared == before + Map(PointerFrom(at), RemovedElements(g, v, item, |v.items|))
    decreases v, 1, 0
  {
    hide RemovedElements;
    hide Filtered;
    hide Decimal;
    hide Reported;
    hide Map;
    elements, undeclared := v.items, before;
    NoElements(g, v, item, at);
    for i := 0 to |v.items|
      invariant |elements| == |v.items|
      invariant forall j :: 0 <= j < i ==> elements[j] == Filtered(g, v.items[j], item)
      invariant forall j :: i <= j < |v.items| ==> elements[j] == v.items[j]
      invariant undeclared == before + Map(PointerFrom(at), RemovedElements(g, v, item, i))
    {
      var value: Json;
      value, undeclared := FilterDeclared(g, v.items[i], item, at + "/" + Decimal(i), undeclared);
      elements := elements[i := value];
      NextElement(g, v, item, i, at);
    }
  }

  lemma NoElements(g: Graph, v: Json, item: nat, at: string)
    requires v.Arr?
    ensures Map(PointerFrom(at), RemovedElements(g, v, item, 0)) == []
  {
  }

  lemma NextElement(g: Graph, v: Json, item: nat, i: nat, at: string)
    requires v.Arr? && i < |v.items|
    ensures Map(PointerFrom(at), RemovedElements(g, v, item, i + 1)) ==
            Map(PointerFrom(at), RemovedElements(g, v, item, i)) + Reported(g, v.items[i], item, at + "/" + Decimal(i))
  {
    hide Decimal;
    MapConcat(PointerFrom(at), RemovedElements(g, v, item, i), RemovedElement(g, v, item, i));
    PointersBelow(at, Index(i), RemovedPaths(g, v.items[i], item));
  }

  lemma {:induction false} RemovedIsThere(g: Graph, v: Json, s: nat, path: Path)
    requires Removed(g, v, s, path)
    ensures At(v, path).Some?
    decreases |path|
  {
    hide Properties;
    hide ItemOf;
    match path[0]
    case Key(k) =>
      if k in Properties(g, s) {
        RemovedIsThere(g, v.members[k], Properties(g, s)[k], path[1..]);
      }
    case Index(i) => RemovedIsThere(g, v.items[i], ItemOf(g, s).value, path[1..]);
  }

  // The reported pointers are distinct, each evaluates to a removed member of
  // the body, and every removed member is reported.
  lemma ReportedExactly(g: Graph, v: Json, s: nat)
    ensures Distinct(Reported(g, v, s, ""))
    ensures forall p :: p in Reported(g, v, s, "") ==> Evaluate(v, p).Some? && Removed(g, v, s, Evaluate(v, p).value)
    ensures forall path :: Removed(g, v, s, path) ==>
        Pointer(path) in Reported(g, v, s, "") && Evaluate(v, Pointer(path)) == Some(path)
  {
    hide Removed;
    hide RemovedPaths;
    hide Evaluate;
    hide Pointer;
    RemovedPathsExactly(g, v, s);
    var paths, reported := RemovedPaths(g, v, s), Reported(g, v, s, "");
    forall i | 0 <= i < |paths|
      ensures reported[i] == Pointer(paths[i]) && Evaluate(v, reported[i]) == Some(paths[i])
          && Removed(g, v, s, paths[i])
    {
      assert paths[i] in paths;
      RemovedIsThere(g, v, s, paths[i]);
      EvaluatesBack(v, paths[i]);
      assert "" + Pointer(paths[i]) == Pointer(paths[i]);
    }
    forall i, j | 0 <= i < j < |reported|
      ensures reported[i] != reported[j]
    {
      assert paths[i] != paths[j];
    }
    forall path | Removed(g, v, s, path)
      ensures Pointer(path) in reported && Evaluate(v, Pointer(path)) == Some(path)
    {
      var i :| 0 <= i < |paths| && paths[i] == path;
      assert reported[i] == Pointer(path);
    }
  }
}

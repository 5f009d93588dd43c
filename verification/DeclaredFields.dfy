// Keeping only the fields a served contract declares, and the check that a
// case-insensitive decoder cannot read any other.
module DeclaredFields {
  import opened Sequences
  import opened JsonPointers
  import opened Schemas
  import Names

  type Members = map<string, Json>

  // filterDeclared's result: an object keeps its declared members unless the
  // schema declares none, an array keeps its elements.
  function Filtered(g: Graph, v: Json, s: nat): Json
    decreases v
  {
    match v
    case Obj(members) =>
      var props := Properties(g, s);
      if props == map[] then v else Obj(map k | k in members && k in props :: Filtered(g, members[k], props[k]))
    case Arr(items) =>
      var item := ItemOf(g, s);
      if item.None? then v
      else Arr(seq(|items|, i requires 0 <= i < |items| => Filtered(g, items[i], item.value)))
    case _ => v
  }

  // The places whose member is removed.
  ghost predicate Removed(g: Graph, v: Json, s: nat, path: Path)
    decreases |path|
  {
    path != [] &&
    match path[0]
    case Key(k) =>
      var props := Properties(g, s);
      && v.Obj? && k in v.members && props != map[]
      && (if k in props then Removed(g, v.members[k], props[k], path[1..]) else |path| == 1)
    case Index(i) =>
      var item := ItemOf(g, s);
      && v.Arr? && i < |v.items| && item.Some?
      && Removed(g, v.items[i], item.value, path[1..])
  }

  // Nothing above or at this place is removed.
  ghost predicate Survives(g: Graph, v: Json, s: nat, path: Path) {
    forall n :: 0 <= n <= |path| ==> !Removed(g, v, s, path[..n])
  }

  predicate SameKind(a: Json, b: Json) {
    match a
    case Obj(_) => b.Obj?
    case Arr(items) => b.Arr? && |b.items| == |items|
    case _ => a == b
  }

  // ---- what survives ----

  lemma SurvivesBelow(g: Graph, v: Json, s: nat, path: Path)
    requires path != []
    ensures match path[0]
            case Key(k) =>
              var props := Properties(g, s);
              v.Obj? && k in v.members && props != map[] ==>
                (Survives(g, v, s, path) <==> k in props && Survives(g, v.members[k], props[k], path[1..]))
            case Index(i) =>
              var item := ItemOf(g, s);
              v.Arr? && i < |v.items| && item.Some? ==>
                (Survives(g, v, s, path) <==> Survives(g, v.items[i], item.value, path[1..]))
  {
    hide Properties;
    hide ItemOf;
    if path[0].Key? && path[0].name !in Properties(g, s) {
      assert path[..1][0] == path[0] && |path[..1]| == 1;
    }
    forall n | 0 <= n <= |path|
      ensures n > 0 ==> path[..n][1..] == path[1..][..n - 1] && path[..n][0] == path[0]
    {
    }
    assert forall n :: 0 <= n <= |path[1..]| ==> path[1..][..n] == path[..n + 1][1..];
  }

  lemma UntypedSurvives(g: Graph, v: Json, s: nat, path: Path)
    requires v.Obj? ==> Properties(g, s) == map[]
    requires v.Arr? ==> ItemOf(g, s).None?
    ensures Survives(g, v, s, path)
  {
  }

  // A place is left by the filter exactly when it was there and nothing at or
  // above it is removed; what is there then is of the same kind, with the same
  // elements, or the same scalar.
  lemma {:induction false} SurvivesExactly(g: Graph, v: Json, s: nat, path: Path)
    ensures At(Filtered(g, v, s), path).Some? <==> At(v, path).Some? && Survives(g, v, s, path)
    ensures At(Filtered(g, v, s), path).Some? ==> SameKind(At(v, path).value, At(Filtered(g, v, s), path).value)
    decreases |path|
  {
    hide Properties;
    hide ItemOf;
    if path == [] {
      assert !Removed(g, v, s, path[..0]);
    } else if (v.Obj? ==> Properties(g, s) == map[]) && (v.Arr? ==> ItemOf(g, s).None?) {
      UntypedSurvives(g, v, s, path);
      assert Filtered(g, v, s) == v;
    } else {
      SurvivesBelow(g, v, s, path);
      hide Survives;
      match path[0] {
        case Key(k) =>
          if v.Obj? && k in v.members && k in Properties(g, s) {
            SurvivesExactly(g, v.members[k], Properties(g, s)[k], path[1..]);
          }
        case Index(i) =>
          if v.Arr? && i < |v.items| && ItemOf(g, s).Some? {
            SurvivesExactly(g, v.items[i], ItemOf(g, s).value, path[1..]);
          }
      }
    }
  }

  // A second pass removes and reports nothing.
  lemma {:induction false} FilteredRemovesNothing(g: Graph, v: Json, s: nat, path: Path)
    ensures !Removed(g, Filtered(g, v, s), s, path)
    decreases |path|
  {
    hide Properties;
    hide ItemOf;
    if path != [] {
      match path[0] {
        case Key(k) =>
          if v.Obj? && k in v.members && k in Properties(g, s) {
            FilteredRemovesNothing(g, v.members[k], Properties(g, s)[k], path[1..]);
          }
        case Index(i) =>
          if v.Arr? && i < |v.items| && ItemOf(g, s).Some? {
            FilteredRemovesNothing(g, v.items[i], ItemOf(g, s).value, path[1..]);
          }
      }
    }
  }

  lemma {:induction false} FilteredTwice(g: Graph, v: Json, s: nat)
    ensures Filtered(g, Filtered(g, v, s), s) == Filtered(g, v, s)
    decreases v
  {
    hide Properties;
    hide ItemOf;
    var once := Filtered(g, v, s);
    match v {
      case Obj(members) =>
        var props := Properties(g, s);
        if props != map[] {
          forall k | k in members && k in props
            ensures Filtered(g, once.members[k], props[k]) == once.members[k]
          {
            FilteredTwice(g, members[k], props[k]);
          }
          assert Filtered(g, once, s).members == once.members;
        }
      case Arr(items) =>
        if ItemOf(g, s).Some? {
          forall i | 0 <= i < |items|
            ensures Filtered(g, once.items[i], ItemOf(g, s).value) == once.items[i]
          {
            FilteredTwice(g, items[i], ItemOf(g, s).value);
          }
          assert Filtered(g, once, s).items == once.items;
        }
      case _ =>
    }
  }

  // ---- what is reported ----

  function Below(t: Token): Path -> Path { p => [t] + p }

  // The removed places, members in the order of their sorted keys.
  ghost function RemovedPaths(g: Graph, v: Json, s: nat): seq<Path>
    decreases v
  {
    match v
    case Obj(members) =>
      var props := Properties(g, s);
      if props == map[] then [] else RemovedMembers(g, v, props, Names.Ascending(members.Keys))
    case Arr(items) =>
      var item := ItemOf(g, s);
      if item.None? then [] else RemovedElements(g, v, item.value, |items|)
    case _ => []
  }

  ghost function RemovedMember(g: Graph, v: Json, props: map<string, nat>, k: string): seq<Path>
    requires v.Obj? && k in v.members
    decreases v, 0, 0
  {
    if k !in props then [[Key(k)]] else Map(Below(Key(k)), RemovedPaths(g, v.members[k], props[k]))
  }

  ghost function RemovedMembers(g: Graph, v: Json, props: map<string, nat>, keys: seq<string>): seq<Path>
    requires v.Obj? && forall k :: k in keys ==> k in v.members
    decreases v, 1, |keys|
  {
    if keys == [] then []
    else
      var n := |keys| - 1;
      RemovedMembers(g, v, props, keys[..n]) + RemovedMember(g, v, props, keys[n])
  }

  ghost function RemovedElements(g: Graph, v: Json, item: nat, n: nat): seq<Path>
    requires v.Arr? && n <= |v.items|
    decreases v, 1, n
  {
    if n == 0 then []
    else RemovedElements(g, v, item, n - 1) + RemovedElement(g, v, item, n - 1)
  }

  ghost function RemovedElement(g: Graph, v: Json, item: nat, i: nat): seq<Path>
    requires v.Arr? && i < |v.items|
    decreases v, 0, 0
  {
    Map(Below(Index(i)), RemovedPaths(g, v.items[i], item))
  }

  // These are the removed places, each once.
  lemma {:induction false} RemovedPathsExactly(g: Graph, v: Json, s: nat)
    ensures forall p :: p in RemovedPaths(g, v, s) <==> Removed(g, v, s, p)
    ensures Distinct(RemovedPaths(g, v, s))
    decreases v
  {
    hide Properties;
    hide ItemOf;
    match v {
      case Obj(members) =>
        var props := Properties(g, s);
        if props != map[] {
          var keys := Names.Ascending(members.Keys);
          AscendingDistinct(members.Keys);
          RemovedMembersExactly(g, v, props, keys);
          hide RemovedMembers;
          forall p
            ensures p in RemovedPaths(g, v, s) <==> Removed(g, v, s, p)
          {
          }
        }
      case Arr(items) =>
        if ItemOf(g, s).Some? {
          RemovedElementsExactly(g, v, ItemOf(g, s).value, |items|);
          hide RemovedElements;
          forall p
            ensures p in RemovedPaths(g, v, s) <==> Removed(g, v, s, p)
          {
          }
        }
      case _ =>
    }
  }

  lemma AscendingDistinct(names: set<string>)
    ensures Distinct(Names.Ascending(names))
  {
    var r := Names.Ascending(names);
    forall i, j | 0 <= i < j < |r|
      ensures r[i] != r[j]
    {
      Names.LtIrreflexive(r[i]);
    }
  }

  lemma MapBelow(t: Token, paths: seq<Path>)
    requires Distinct(paths)
    ensures Distinct(Map(Below(t), paths))
    ensures forall p :: p in Map(Below(t), paths) <==> p != [] && p[0] == t && p[1..] in paths
  {
    var r := Map(Below(t), paths);
    forall i | 0 <= i < |paths|
      ensures r[i] == [t] + paths[i] && r[i][1..] == paths[i]
    {
    }
    forall p | p != [] && p[0] == t && p[1..] in paths
      ensures p in r
    {
      var i :| 0 <= i < |paths| && paths[i] == p[1..];
      assert r[i] == p;
    }
  }

  lemma DistinctConcat(a: seq<Path>, b: seq<Path>)
    requires Distinct(a) && Distinct(b) && forall p :: p in a ==> p !in b
    ensures Distinct(a + b)
  {
    forall i, j | 0 <= i < j < |a + b|
      ensures (a + b)[i] != (a + b)[j]
    {
      if i < |a| <= j {
        assert a[i] in a && b[j - |a|] in b;
      }
    }
  }

  ghost predicate RemovedAt(g: Graph, v: Json, props: map<string, nat>, k: string, p: Path)
    requires v.Obj? && k in v.members
  {
    p != [] && p[0] == Key(k) && if k in props then Removed(g, v.members[k], props[k], p[1..]) else |p| == 1
  }

  lemma {:induction false} RemovedMemberExactly(g: Graph, v: Json, props: map<string, nat>, k: string)
    requires v.Obj? && k in v.members
    ensures forall p :: p in RemovedMember(g, v, props, k) <==> RemovedAt(g, v, props, k, p)
    ensures Distinct(RemovedMember(g, v, props, k))
    decreases v, 0, 0
  {
    if k in props {
      RemovedPathsExactly(g, v.members[k], props[k]);
      MapBelow(Key(k), RemovedPaths(g, v.members[k], props[k]));
    } else {
      forall p: Path
        ensures p == [Key(k)] <==> |p| == 1 && p[0] == Key(k)
      {
      }
    }
  }

  lemma {:induction false} RemovedMembersExactly(g: Graph, v: Json, props: map<string, nat>, keys: seq<string>)
    requires v.Obj? && Distinct(keys) && forall k :: k in keys ==> k in v.members
    ensures forall p: Path :: p in RemovedMembers(g, v, props, keys) <==>
                        p != [] && p[0].Key? && p[0].name in keys && RemovedAt(g, v, props, p[0].name, p)
    ensures Distinct(RemovedMembers(g, v, props, keys))
    decreases v, 1, |keys|
  {
    hide RemovedMember;
    if keys != [] {
      var n := |keys| - 1;
      SplitLast(keys);
      RemovedMembersExactly(g, v, props, keys[..n]);
      RemovedMemberExactly(g, v, props, keys[n]);
      var front, last := RemovedMembers(g, v, props, keys[..n]), RemovedMember(g, v, props, keys[n]);
      assert forall p :: RemovedAt(g, v, props, keys[n], p) ==> p != [] && p[0] == Key(keys[n]);
      hide RemovedAt;
      DistinctConcat(front, last);
    }
  }

  lemma {:induction false} RemovedElementExactly(g: Graph, v: Json, item: nat, i: nat)
    requires v.Arr? && i < |v.items|
    ensures forall p: Path :: p in RemovedElement(g, v, item, i) <==>
        p != [] && p[0] == Index(i) && Removed(g, v.items[i], item, p[1..])
    ensures Distinct(RemovedElement(g, v, item, i))
    decreases v, 0, 0
  {
    RemovedPathsExactly(g, v.items[i], item);
    MapBelow(Index(i), RemovedPaths(g, v.items[i], item));
  }

  lemma {:induction false} RemovedElementsExactly(g: Graph, v: Json, item: nat, n: nat)
    requires v.Arr? && n <= |v.items|
    ensures forall p: Path :: p in RemovedElements(g, v, item, n) <==>
                        p != [] && p[0].Index? && p[0].at < n && Removed(g, v.items[p[0].at], item, p[1..])
    ensures Distinct(RemovedElements(g, v, item, n))
    decreases v, 1, n
  {
    hide Removed;
    hide RemovedElement;
    if n > 0 {
      RemovedElementsExactly(g, v, item, n - 1);
      RemovedElementExactly(g, v, item, n - 1);
      DistinctConcat(RemovedElements(g, v, item, n - 1), RemovedElement(g, v, item, n - 1));
    }
  }
}

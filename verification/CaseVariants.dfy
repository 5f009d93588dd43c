// A decoder that matches field names without regard to case, and the check
// that it can only read declared spellings.
module CaseVariants {
  import opened Options
  import opened Sequences
  import opened JsonPointers
  import opened Schemas
  import opened DeclaredFields
  import Names

  // Names are equal without regard to case when they fold to one name.
  type Folding = string -> string

  // A key found, the declared field it is a variant of, and where.
  datatype Variant = Variant(at: string, key: string, field: string)

  // ---- findCaseVariantKey ----

  function FirstAlike(fold: Folding, names: seq<string>, k: string): Option<string> {
    if names == [] then None else if fold(k) == fold(names[0]) then Some(names[0]) else FirstAlike(fold, names[1..], k)
  }

  function FirstAlias(fold: Folding, keys: seq<string>, props: map<string, nat>, names: seq<string>,
                      at: string): Option<Variant> {
    if keys == [] then None
    else
      var field := if keys[0] in props then None else FirstAlike(fold, names, keys[0]);
      if field.Some? then Some(Variant(at, keys[0], field.value)) else FirstAlias(fold, keys[1..], props, names, at)
  }

  ghost function FindVariant(g: Graph, fold: Folding, v: Json, s: nat, at: string): Option<Variant>
    decreases v, 2, 0
  {
    match v
    case Obj(members) =>
      var props := Properties(g, s);
      var keys := Names.Ascending(members.Keys);
      var here := FirstAlias(fold, keys, props, Names.Ascending(props.Keys), at);
      if here.Some? then here else FindInMembers(g, fold, v, props, keys, at)
    case Arr(items) =>
      var item := ItemOf(g, s);
      if item.None? then None else FindInElements(g, fold, v, item.value, 0, at)
    case _ => None
  }

  ghost function FindInMembers(g: Graph, fold: Folding, v: Json, props: map<string, nat>, keys: seq<string>,
                               at: string): Option<Variant>
    requires v.Obj? && forall k :: k in keys ==> k in v.members
    decreases v, 1, |keys|
  {
    if keys == [] then None
    else
      var found := if keys[0] in props
          then FindVariant(g, fold, v.members[keys[0]], props[keys[0]], at + "/" + Escape(keys[0])) else None;
      if found.Some? then found else FindInMembers(g, fold, v, props, keys[1..], at)
  }

  ghost function FindInElements(g: Graph, fold: Folding, v: Json, item: nat, i: nat, at: string): Option<Variant>
    requires v.Arr? && i <= |v.items|
    decreases v, 1, |v.items| - i
  {
    if i == |v.items| then None
    else
      var found := FindVariant(g, fold, v.items[i], item, at + "/" + TokenText(Index(i)));
      if found.Some? then found else FindInElements(g, fold, v, item, i + 1, at)
  }

  // ---- what it looks for ----

  ghost predicate Alias(fold: Folding, props: map<string, nat>, k: string) {
    k !in props && exists f :: f in props && fold(f) == fold(k)
  }

  ghost predicate NoVariants(g: Graph, fold: Folding, v: Json, s: nat)
    decreases v
  {
    match v
    case Obj(members) =>
      var props := Properties(g, s);
      && (forall k :: k in members ==> !Alias(fold, props, k))
      && (forall k :: k in members && k in props ==> NoVariants(g, fold, members[k], props[k]))
    case Arr(items) =>
      var item := ItemOf(g, s);
      item.Some? ==> forall i :: 0 <= i < |items| ==> NoVariants(g, fold, items[i], item.value)
    case _ => true
  }

  lemma {:induction false} FirstAlikeExactly(fold: Folding, names: seq<string>, k: string)
    ensures FirstAlike(fold, names, k).None? <==> forall f :: f in names ==> fold(f) != fold(k)
    ensures FirstAlike(fold, names, k).Some? ==>
        FirstAlike(fold, names, k).value in names && fold(FirstAlike(fold, names, k).value) == fold(k)
  {
    if names != [] {
      FirstAlikeExactly(fold, names[1..], k);
      assert names == [names[0]] + names[1..];
    }
  }

  lemma AliasFound(fold: Folding, props: map<string, nat>, names: seq<string>, k: string)
    requires forall f :: f in names <==> f in props
    ensures Alias(fold, props, k) <==> k !in props && FirstAlike(fold, names, k).Some?
    ensures FirstAlike(fold, names, k).Some? ==>
        FirstAlike(fold, names, k).value in props && fold(FirstAlike(fold, names, k).value) == fold(k)
  {
    FirstAlikeExactly(fold, names, k);
  }

  lemma {:induction false} FirstAliasExactly(fold: Folding, keys: seq<string>, props: map<string, nat>,
                                             names: seq<string>, at: string)
    requires forall f :: f in names <==> f in props
    ensures FirstAlias(fold, keys, props, names, at).None? <==> forall k :: k in keys ==> !Alias(fold, props, k)
    ensures FirstAlias(fold, keys, props, names, at).Some? ==>
              var r := FirstAlias(fold, keys, props, names, at).value;
              r.at == at && r.key in keys && r.key !in props && r.field in props && fold(r.field) == fold(r.key)
  {
    if keys != [] {
      AliasFound(fold, props, names, keys[0]);
      hide Alias;
      FirstAliasExactly(fold, keys[1..], props, names, at);
      assert keys == [keys[0]] + keys[1..];
    }
  }

  lemma {:induction false} FindsExactly(g: Graph, fold: Folding, v: Json, s: nat, at: string)
    ensures FindVariant(g, fold, v, s, at).None? <==> NoVariants(g, fold, v, s)
    decreases v, 2, 0
  {
    hide Properties;
    hide ItemOf;
    hide FirstAlias;
    hide Alias;
    match v {
      case Obj(members) =>
        var props, keys := Properties(g, s), Names.Ascending(members.Keys);
        FirstAliasExactly(fold, keys, props, Names.Ascending(props.Keys), at);
        FindsInMembersExactly(g, fold, v, props, keys, at);
      case Arr(items) =>
        if ItemOf(g, s).Some? {
          FindsInElementsExactly(g, fold, v, ItemOf(g, s).value, 0, at);
        }
      case _ =>
    }
  }

  lemma {:induction false} FindsInMembersExactly(g: Graph, fold: Folding, v: Json, props: map<string, nat>,
                                                 keys: seq<string>, at: string)
    requires v.Obj? && forall k :: k in keys ==> k in v.members
    ensures FindInMembers(g, fold, v, props, keys, at).None? <==>
            forall k :: k in keys && k in props ==> NoVariants(g, fold, v.members[k], props[k])
    decreases v, 1, |keys|
  {
    hide Escape;
    hide NoVariants;
    hide FindVariant;
    if keys != [] {
      FindsInMembersExactly(g, fold, v, props, keys[1..], at);
      if keys[0] in props {
        FindsExactly(g, fold, v.members[keys[0]], props[keys[0]], at + "/" + Escape(keys[0]));
      }
      assert keys == [keys[0]] + keys[1..];
    }
  }

  lemma {:induction false} FindsInElementsExactly(g: Graph, fold: Folding, v: Json, item: nat, i: nat, at: string)
    requires v.Arr? && i <= |v.items|
    ensures FindInElements(g, fold, v, item, i, at).None? <==>
        forall j :: i <= j < |v.items| ==> NoVariants(g, fold, v.items[j], item)
    decreases v, 1, |v.items| - i
  {
    hide TokenText;
    hide NoVariants;
    hide FindVariant;
    if i < |v.items| {
      FindsInElementsExactly(g, fold, v, item, i + 1, at);
      FindsExactly(g, fold, v.items[i], item, at + "/" + TokenText(Index(i)));
    }
  }

  // ---- the decoder ----

  // The field a key is bound to, among the declared ones: itself when it is
  // declared, otherwise one it matches without regard to case.
  type Target = (set<string>, string) -> Option<string>

  ghost predicate TargetsWell(fold: Folding, target: Target, declared: set<string>, k: string) {
    match target(declared, k)
    case None => forall f :: f in declared ==> fold(f) != fold(k)
    case Some(f) => f in declared && fold(f) == fold(k) && (k in declared ==> f == k)
  }

  ghost predicate IsTarget(fold: Folding, target: Target) {
    forall declared: set<string>, k: string :: TargetsWell(fold, target, declared, k)
  }

  // The order in which the document names an object's members.
  type Order = Members -> seq<string>

  ghost predicate IsOrder(order: Order) {
    forall m: Members :: Distinct(order(m)) && forall k :: k in order(m) <==> k in m
  }

  // The key a field's value is taken from: the last one bound to it.
  function Source(target: Target, declared: set<string>, keys: seq<string>, f: string): Option<string> {
    if keys == [] then None
    else
      var n := |keys| - 1;
      if target(declared, keys[n]) == Some(f) then Some(keys[n]) else Source(target, declared, keys[..n], f)
  }

  // Where in the body the decoder reads the declared field at this path.
  function Reads(g: Graph, target: Target, order: Order, v: Json, s: nat, path: Path): Option<Path>
    decreases |path|
  {
    if path == [] then Some([])
    else
      match path[0]
      case Key(f) =>
        var props := Properties(g, s);
        if !v.Obj? || f !in props then None
        else
          var k := Source(target, props.Keys, order(v.members), f);
          if k.None? || k.value !in v.members then None
          else Under(Key(k.value), Reads(g, target, order, v.members[k.value], props[f], path[1..]))
      case Index(i) =>
        var item := ItemOf(g, s);
        if !v.Arr? || i >= |v.items| || item.None? then None
        else Under(Index(i), Reads(g, target, order, v.items[i], item.value, path[1..]))
  }

  // The declared field at this path, where the body spells it as declared.
  function Spelled(g: Graph, v: Json, s: nat, path: Path): Option<Path>
    decreases |path|
  {
    if path == [] then Some([])
    else
      match path[0]
      case Key(f) =>
        var props := Properties(g, s);
        if !v.Obj? || f !in props || f !in v.members then None
        else Under(Key(f), Spelled(g, v.members[f], props[f], path[1..]))
      case Index(i) =>
        var item := ItemOf(g, s);
        if !v.Arr? || i >= |v.items| || item.None? then None
        else Under(Index(i), Spelled(g, v.items[i], item.value, path[1..]))
  }

  lemma {:induction false} SourceIs(target: Target, declared: set<string>, keys: seq<string>, f: string)
    ensures match Source(target, declared, keys, f)
            case None => forall k :: k in keys ==> target(declared, k) != Some(f)
            case Some(k) => k in keys && target(declared, k) == Some(f)
  {
    if keys != [] {
      SplitLast(keys);
      SourceIs(target, declared, keys[..|keys| - 1], f);
    }
  }

  lemma BoundToItself(fold: Folding, target: Target, props: map<string, nat>, k: string, f: string)
    requires IsTarget(fold, target) && f in props && !Alias(fold, props, k)
    ensures target(props.Keys, k) == Some(f) <==> k == f
  {
    assert TargetsWell(fold, target, props.Keys, k);
  }

  lemma SourceSpelled(fold: Folding, target: Target, order: Order, m: Members, props: map<string, nat>, f: string)
    requires IsTarget(fold, target) && IsOrder(order) && f in props
    requires forall k :: k in m ==> !Alias(fold, props, k)
    ensures Source(target, props.Keys, order(m), f) == if f in m then Some(f) else None
  {
    SourceIs(target, props.Keys, order(m), f);
    forall k | k in order(m)
      ensures target(props.Keys, k) == Some(f) <==> k == f
    {
      assert k in m;
      BoundToItself(fold, target, props, k, f);
    }
    hide IsTarget;
    hide Alias;
    hide Source;
    assert f in m <==> f in order(m);
  }

  lemma {:induction false} ReadsSpelled(g: Graph, fold: Folding, target: Target, order: Order, v: Json, s: nat,
                                        path: Path)
    requires IsTarget(fold, target) && IsOrder(order) && NoVariants(g, fold, v, s)
    ensures Reads(g, target, order, v, s, path) == Spelled(g, v, s, path)
    decreases |path|
  {
    hide Properties;
    hide ItemOf;
    hide IsTarget;
    hide IsOrder;
    hide Alias;
    hide Source;
    if path != [] {
      match path[0] {
        case Key(f) =>
          if v.Obj? && f in Properties(g, s) {
            SourceSpelled(fold, target, order, v.members, Properties(g, s), f);
            if f in v.members {
              ReadsSpelled(g, fold, target, order, v.members[f], Properties(g, s)[f], path[1..]);
            }
          }
        case Index(i) =>
          if v.Arr? && i < |v.items| && ItemOf(g, s).Some? {
            ReadsSpelled(g, fold, target, order, v.items[i], ItemOf(g, s).value, path[1..]);
          }
      }
    }
  }

  // ---- a variant can be read ----

  ghost function KeyLast(k: string): Order {
    (m: Members) => Names.Ascending(m.Keys - {k}) + if k in m then [k] else []
  }

  lemma KeyLastListsAll(k: string, m: Members)
    ensures Distinct(KeyLast(k)(m)) && forall x :: x in KeyLast(k)(m) <==> x in m
  {
    var front := Names.Ascending(m.Keys - {k});
    AscendingDistinct(m.Keys - {k});
    AppendedLast(front, k);
  }

  lemma AppendedLast(front: seq<string>, k: string)
    requires Distinct(front) && k !in front
    ensures Distinct(front + [k]) && front + [] == front
    ensures forall x :: x in front + [k] <==> x in front || x == k
  {
    assert forall i :: 0 <= i < |front| ==> front[i] in front;
  }

  lemma KeyLastIsOrder(k: string)
    ensures IsOrder(KeyLast(k))
  {
    forall m: Members
      ensures Distinct(KeyLast(k)(m)) && forall x :: x in KeyLast(k)(m) <==> x in m
    {
      KeyLastListsAll(k, m);
    }
  }

  lemma {:induction false} VariantIsRead(g: Graph, fold: Folding, target: Target, v: Json, s: nat)
    returns (k: string, path: Path)
    requires IsTarget(fold, target) && !NoVariants(g, fold, v, s)
    ensures Reads(g, target, KeyLast(k), v, s, path) != Spelled(g, v, s, path)
    decreases v
  {
    hide Properties;
    hide ItemOf;
    hide KeyLast;
    hide Reads;
    hide Spelled;
    hide IsTarget;
    hide Alias;
    match v {
      case Obj(members) =>
        var props := Properties(g, s);
        if a :| a in members && Alias(fold, props, a) {
          k := a;
          path := AliasIsRead(g, fold, target, v, s, k);
        } else {
          var c :| c in members && c in props && !NoVariants(g, fold, members[c], props[c]);
          var rest;
          k, rest := VariantIsRead(g, fold, target, members[c], props[c]);
          path := [Key(c)] + rest;
          MemberMisread(g, fold, target, v, s, k, c, rest);
        }
      case Arr(items) =>
        var i :| 0 <= i < |items| && !NoVariants(g, fold, items[i], ItemOf(g, s).value);
        var rest;
        k, rest := VariantIsRead(g, fold, target, items[i], ItemOf(g, s).value);
        path := [Index(i)] + rest;
        ElementMisread(g, target, KeyLast(k), v, s, i, rest);
    }
  }

  lemma MemberMisread(g: Graph, fold: Folding, target: Target, v: Json, s: nat, k: string, c: string, rest: Path)
    requires IsTarget(fold, target) && v.Obj? && c in v.members && c in Properties(g, s)
    requires forall a :: a in v.members ==> !Alias(fold, Properties(g, s), a)
    requires Reads(g, target, KeyLast(k), v.members[c], Properties(g, s)[c], rest) != Spelled(g, v.members[c],
        Properties(g, s)[c], rest)
    ensures Reads(g, target, KeyLast(k), v, s, [Key(c)] + rest) != Spelled(g, v, s, [Key(c)] + rest)
  {
    hide *;
    KeyLastIsOrder(k);
    SourceSpelled(fold, target, KeyLast(k), v.members, Properties(g, s), c);
    ReadsMember(g, target, KeyLast(k), v, s, c, rest);
    SpelledMember(g, v, s, c, rest);
    UnderDiffers(Key(c), Reads(g, target, KeyLast(k), v.members[c], Properties(g, s)[c], rest),
      Spelled(g, v.members[c], Properties(g, s)[c], rest));
  }

  lemma ReadsMember(g: Graph, target: Target, order: Order, v: Json, s: nat, c: string, rest: Path)
    requires v.Obj? && c in v.members && c in Properties(g, s)
    requires Source(target, Properties(g, s).Keys, order(v.members), c) == Some(c)
    ensures Reads(g, target, order, v, s, [Key(c)] + rest) ==
        Under(Key(c), Reads(g, target, order, v.members[c], Properties(g, s)[c], rest))
  {
    hide Properties;
    hide ItemOf;
    hide Source;
    assert ([Key(c)] + rest)[1..] == rest;
  }

  lemma SpelledMember(g: Graph, v: Json, s: nat, c: string, rest: Path)
    requires v.Obj? && c in v.members && c in Properties(g, s)
    ensures Spelled(g, v, s, [Key(c)] + rest) == Under(Key(c), Spelled(g, v.members[c], Properties(g, s)[c], rest))
  {
    hide Properties;
    hide ItemOf;
    assert ([Key(c)] + rest)[1..] == rest;
  }

  lemma ReadsElement(g: Graph, target: Target, order: Order, v: Json, s: nat, i: nat, rest: Path)
    requires v.Arr? && i < |v.items| && ItemOf(g, s).Some?
    ensures Reads(g, target, order, v, s, [Index(i)] + rest) ==
        Under(Index(i), Reads(g, target, order, v.items[i], ItemOf(g, s).value, rest))
  {
    hide Properties;
    hide ItemOf;
    assert ([Index(i)] + rest)[1..] == rest;
  }

  lemma SpelledElement(g: Graph, v: Json, s: nat, i: nat, rest: Path)
    requires v.Arr? && i < |v.items| && ItemOf(g, s).Some?
    ensures Spelled(g, v, s, [Index(i)] + rest) == Under(Index(i), Spelled(g, v.items[i], ItemOf(g, s).value, rest))
  {
    hide Properties;
    hide ItemOf;
    assert ([Index(i)] + rest)[1..] == rest;
  }

  lemma ElementMisread(g: Graph, target: Target, order: Order, v: Json, s: nat, i: nat, rest: Path)
    requires v.Arr? && i < |v.items| && ItemOf(g, s).Some?
    requires Reads(g, target, order, v.items[i], ItemOf(g, s).value, rest) != Spelled(g, v.items[i], ItemOf(g, s).value,
        rest)
    ensures Reads(g, target, order, v, s, [Index(i)] + rest) != Spelled(g, v, s, [Index(i)] + rest)
  {
    hide Properties;
    hide ItemOf;
    hide Reads;
    hide Spelled;
    ReadsElement(g, target, order, v, s, i, rest);
    SpelledElement(g, v, s, i, rest);
    UnderDiffers(Index(i), Reads(g, target, order, v.items[i], ItemOf(g, s).value, rest),
      Spelled(g, v.items[i], ItemOf(g, s).value, rest));
  }

  lemma UnderDiffers(t: Token, a: Option<Path>, b: Option<Path>)
    requires a != b
    ensures Under(t, a) != Under(t, b)
  {
    if a.Some? && b.Some? {
      assert ([t] + a.value)[1..] == a.value && ([t] + b.value)[1..] == b.value;
    }
  }

  lemma AliasTarget(fold: Folding, target: Target, props: map<string, nat>, k: string)
    requires IsTarget(fold, target) && Alias(fold, props, k)
    ensures target(props.Keys, k).Some? && target(props.Keys, k).value in props && target(props.Keys, k).value != k
  {
    assert TargetsWell(fold, target, props.Keys, k);
  }

  lemma LastIsSource(target: Target, declared: set<string>, m: Members, k: string)
    requires k in m && target(declared, k).Some?
    ensures Source(target, declared, KeyLast(k)(m), target(declared, k).value) == Some(k)
  {
    var keys := KeyLast(k)(m);
    assert keys[|keys| - 1] == k;
  }

  lemma ReadsOne(g: Graph, target: Target, order: Order, v: Json, s: nat, f: string, k: string)
    requires v.Obj? && f in Properties(g, s) && k in v.members
    requires Source(target, Properties(g, s).Keys, order(v.members), f) == Some(k)
    ensures Reads(g, target, order, v, s, [Key(f)]) == Some([Key(k)])
  {
    hide Properties;
    hide Source;
    assert [Key(f)][1..] == [];
    assert Reads(g, target, order, v.members[k], Properties(g, s)[f], []) == Some([]);
    assert [Key(k)] + [] == [Key(k)];
  }

  lemma SpelledOne(g: Graph, v: Json, s: nat, f: string)
    ensures Spelled(g, v, s, [Key(f)]) in {None, Some([Key(f)])}
  {
    hide Properties;
    assert [Key(f)][1..] == [];
    assert [Key(f)] + [] == [Key(f)];
  }

  lemma AliasIsRead(g: Graph, fold: Folding, target: Target, v: Json, s: nat, k: string) returns (path: Path)
    requires IsTarget(fold, target) && v.Obj? && k in v.members && Alias(fold, Properties(g, s), k)
    ensures Reads(g, target, KeyLast(k), v, s, path) != Spelled(g, v, s, path)
  {
    hide *;
    AliasTarget(fold, target, Properties(g, s), k);
    var f := target(Properties(g, s).Keys, k).value;
    path := [Key(f)];
    LastIsSource(target, Properties(g, s).Keys, v.members, k);
    ReadsOne(g, target, KeyLast(k), v, s, f, k);
    SpelledOne(g, v, s, f);
    assert [Key(f)][0] != [Key(k)][0];
  }

  // The check finds nothing exactly when, in whatever order the members come,
  // the decoder reads every declared field where it is spelled as declared.
  lemma DecodingExactly(g: Graph, fold: Folding, target: Target, v: Json, s: nat)
    requires IsTarget(fold, target)
    ensures FindVariant(g, fold, v, s, "").None? <==>
            forall order: Order, path: Path :: IsOrder(order) ==>
              Reads(g, target, order, v, s, path) == Spelled(g, v, s, path)
  {
    hide IsTarget;
    hide IsOrder;
    hide Reads;
    hide Spelled;
    hide NoVariants;
    hide FindVariant;
    FindsExactly(g, fold, v, s, "");
    if NoVariants(g, fold, v, s) {
      forall order: Order, path: Path | IsOrder(order)
        ensures Reads(g, target, order, v, s, path) == Spelled(g, v, s, path)
      {
        ReadsSpelled(g, fold, target, order, v, s, path);
      }
    } else {
      var k, path := VariantIsRead(g, fold, target, v, s);
      KeyLastIsOrder(k);
    }
  }

  // ---- the filtered body ----

  lemma {:induction false} FilteredHasNoVariants(g: Graph, fold: Folding, v: Json, s: nat)
    ensures NoVariants(g, fold, Filtered(g, v, s), s)
    decreases v
  {
    hide Properties;
    hide ItemOf;
    match v {
      case Obj(members) =>
        var props := Properties(g, s);
        if props != map[] {
          forall k | k in members && k in props
            ensures NoVariants(g, fold, Filtered(g, members[k], props[k]), props[k])
          {
            FilteredHasNoVariants(g, fold, members[k], props[k]);
          }
        }
      case Arr(items) =>
        if ItemOf(g, s).Some? {
          forall i | 0 <= i < |items|
            ensures NoVariants(g, fold, Filtered(g, items[i], ItemOf(g, s).value), ItemOf(g, s).value)
          {
            FilteredHasNoVariants(g, fold, items[i], ItemOf(g, s).value);
          }
        }
      case _ =>
    }
  }

  lemma {:induction false} FilteredSpelled(g: Graph, v: Json, s: nat, path: Path)
    ensures Spelled(g, Filtered(g, v, s), s, path) == Spelled(g, v, s, path)
    decreases |path|
  {
    hide Properties;
    hide ItemOf;
    if path != [] {
      match path[0] {
        case Key(f) =>
          if v.Obj? && f in Properties(g, s) && f in v.members {
            FilteredSpelled(g, v.members[f], Properties(g, s)[f], path[1..]);
          }
        case Index(i) =>
          if v.Arr? && i < |v.items| && ItemOf(g, s).Some? {
            FilteredSpelled(g, v.items[i], ItemOf(g, s).value, path[1..]);
          }
      }
    }
  }

  // A decoder reads every declared field of the filtered body where the raw
  // body spells it as declared, whatever variants the raw body held.
  lemma FilteredDecodes(g: Graph, fold: Folding, target: Target, order: Order, v: Json, s: nat, path: Path)
    requires IsTarget(fold, target) && IsOrder(order)
    ensures Reads(g, target, order, Filtered(g, v, s), s, path) == Spelled(g, v, s, path)
    ensures FindVariant(g, fold, v, s, "").None? ==>
              Reads(g, target, order, Filtered(g, v, s), s, path) == Reads(g, target, order, v, s, path)
  {
    FilteredHasNoVariants(g, fold, v, s);
    ReadsSpelled(g, fold, target, order, Filtered(g, v, s), s, path);
    FilteredSpelled(g, v, s, path);
    FindsExactly(g, fold, v, s, "");
    if NoVariants(g, fold, v, s) {
      ReadsSpelled(g, fold, target, order, v, s, path);
    }
  }
}

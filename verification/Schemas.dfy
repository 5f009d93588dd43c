// What a compiled schema declares, following references and compositions.
module Schemas {
  import opened Options

  // A compiled schema: its properties, the schemas it is composed of, and the
  // schema of its elements. Schemas refer to each other by number, in cycles if
  // the document does.
  datatype Node = Node(
    properties: map<string, nat>,
    ref: Option<nat>,
    allOf: seq<nat>,
    anyOf: seq<nat>,
    oneOf: seq<nat>,
    items2020: Option<nat>,
    items: Option<nat>)

  type Graph = nat -> Node

  const MAX_DEPTH: nat := 8

  function OptionSeq(o: Option<nat>): seq<nat> { if o.Some? then [o.value] else [] }

  // The schemas a schema is composed of, in the order they are visited.
  function Parts(n: Node): seq<nat> { OptionSeq(n.ref) + n.allOf + n.anyOf + n.oneOf }

  // The properties found from here on; the first one visited wins a name.
  function Collected(g: Graph, s: nat, depth: nat): map<string, nat>
    decreases MAX_DEPTH + 1 - depth, 0
  {
    if depth > MAX_DEPTH then map[] else CollectedAll(g, Parts(g(s)), depth + 1) + g(s).properties
  }

  function CollectedAll(g: Graph, parts: seq<nat>, depth: nat): map<string, nat>
    decreases MAX_DEPTH + 1 - depth, |parts|
  {
    if parts == [] then map[]
    else
      var n := |parts| - 1;
      Collected(g, parts[n], depth) + CollectedAll(g, parts[..n], depth)
  }

  function Properties(g: Graph, s: nat): map<string, nat> { Collected(g, s, 0) }

  // The schema of an array's elements, if one is declared.
  function Items(g: Graph, s: nat, depth: nat): Option<nat>
    decreases MAX_DEPTH + 1 - depth, 0
  {
    if depth > MAX_DEPTH then None
    else if g(s).items2020.Some? then g(s).items2020
    else if g(s).items.Some? then g(s).items
    else ItemsIn(g, Parts(g(s)), depth + 1)
  }

  function ItemsIn(g: Graph, parts: seq<nat>, depth: nat): Option<nat>
    decreases MAX_DEPTH + 1 - depth, |parts|
  {
    if parts == [] then None
    else if Items(g, parts[0], depth).Some? then Items(g, parts[0], depth)
    else ItemsIn(g, parts[1..], depth)
  }

  function ItemOf(g: Graph, s: nat): Option<nat> { Items(g, s, 0) }

  // ---- which names are declared ----

  // Each schema of the chain is a part of the one before.
  ghost predicate Chain(g: Graph, chain: seq<nat>) {
    chain != [] && forall i :: 0 <= i < |chain| - 1 ==> chain[i + 1] in Parts(g(chain[i]))
  }

  ghost predicate Reaches(g: Graph, s: nat, chain: seq<nat>, most: int, name: string) {
    Chain(g, chain) && chain[0] == s && |chain| <= most && name in g(chain[|chain| - 1]).properties
  }

  lemma {:induction false} CollectedAllHas(g: Graph, parts: seq<nat>, depth: nat, name: string)
    ensures name in CollectedAll(g, parts, depth) <==> exists p :: p in parts && name in Collected(g, p, depth)
    ensures name in CollectedAll(g, parts, depth) ==>
              exists p :: p in parts && name in Collected(g, p, depth)
                && Collected(g, p, depth)[name] == CollectedAll(g, parts, depth)[name]
  {
    hide Collected;
    if parts != [] {
      var n := |parts| - 1;
      assert parts == parts[..n] + [parts[n]];
      CollectedAllHas(g, parts[..n], depth, name);
      assert parts[n] in parts;
    }
  }

  lemma ChainCons(g: Graph, s: nat, chain: seq<nat>)
    requires Chain(g, chain) && chain[0] in Parts(g(s))
    ensures Chain(g, [s] + chain) && ([s] + chain)[|chain|] == chain[|chain| - 1]
  {
  }

  lemma ChainTail(g: Graph, chain: seq<nat>)
    requires Chain(g, chain) && |chain| > 1
    ensures Chain(g, chain[1..]) && chain[1] in Parts(g(chain[0])) && chain[1..][|chain| - 2] == chain[|chain| - 1]
  {
    assert chain[0 + 1] in Parts(g(chain[0]));
  }

  lemma {:induction false} CollectedIsReached(g: Graph, s: nat, depth: nat, name: string) returns (chain: seq<nat>)
    requires name in Collected(g, s, depth)
    ensures Reaches(g, s, chain, MAX_DEPTH + 1 - depth, name)
    ensures g(chain[|chain| - 1]).properties[name] == Collected(g, s, depth)[name]
    decreases MAX_DEPTH + 1 - depth
  {
    if name in g(s).properties {
      chain := [s];
    } else {
      CollectedAllHas(g, Parts(g(s)), depth + 1, name);
      var p :| p in Parts(g(s)) && name in Collected(g, p, depth + 1)
                && Collected(g, p, depth + 1)[name] == CollectedAll(g, Parts(g(s)), depth + 1)[name];
      var rest := CollectedIsReached(g, p, depth + 1, name);
      hide Parts;
      hide Collected;
      hide CollectedAll;
      ChainCons(g, s, rest);
      chain := [s] + rest;
    }
  }

  lemma {:induction false} ReachedIsCollected(g: Graph, s: nat, depth: nat, name: string, chain: seq<nat>)
    requires Reaches(g, s, chain, MAX_DEPTH + 1 - depth, name)
    ensures name in Collected(g, s, depth)
    decreases |chain|
  {
    hide Parts;
    if |chain| > 1 {
      ChainTail(g, chain);
      hide Chain;
      ReachedIsCollected(g, chain[1], depth + 1, name, chain[1..]);
      CollectedAllHas(g, Parts(g(s)), depth + 1, name);
    }
  }

  // Some schema at most eight compositions away has this property.
  ghost predicate Declares(g: Graph, s: nat, chain: seq<nat>, name: string) {
    Reaches(g, s, chain, MAX_DEPTH + 1, name)
  }

  // A name is declared exactly when such a schema has it, and its schema is the
  // one such a schema gives it; the schema's own property comes first.
  lemma DeclaredExactly(g: Graph, s: nat, name: string)
    ensures name in Properties(g, s) <==> exists chain :: Declares(g, s, chain, name)
    ensures name in Properties(g, s) ==>
              exists chain :: Declares(g, s, chain, name)
                && g(chain[|chain| - 1]).properties[name] == Properties(g, s)[name]
    ensures name in g(s).properties ==> name in Properties(g, s) && Properties(g, s)[name] == g(s).properties[name]
  {
    if name in Properties(g, s) {
      var chain := CollectedIsReached(g, s, 0, name);
      assert Declares(g, s, chain, name);
    }
    if chain :| Declares(g, s, chain, name) {
      ReachedIsCollected(g, s, 0, name, chain);
    }
  }

  // ---- schemaProperties, as it fills its map ----

  lemma Merged(a: map<string, nat>, b: map<string, nat>, c: map<string, nat>)
    ensures a + (b + c) == (a + b) + c
  {
  }

  lemma {:induction false} CollectedAllConcat(g: Graph, a: seq<nat>, b: seq<nat>, depth: nat)
    ensures CollectedAll(g, a + b, depth) == CollectedAll(g, b, depth) + CollectedAll(g, a, depth)
  {
    hide Collected;
    if b == [] {
      assert a + b == a;
    } else {
      var n := |b| - 1;
      assert (a + b)[..|a| + n] == a + b[..n];
      CollectedAllConcat(g, a, b[..n], depth);
      Merged(Collected(g, b[n], depth), CollectedAll(g, b[..n], depth), CollectedAll(g, a, depth));
    }
  }

  lemma CollectedOne(g: Graph, s: Option<nat>, depth: nat)
    ensures CollectedAll(g, OptionSeq(s), depth) == if s.Some? then Collected(g, s.value, depth) else map[]
  {
    hide Collected;
    if s.Some? {
      assert OptionSeq(s)[..0] == [];
      assert CollectedAll(g, [], depth) == map[];
    }
  }

  method OwnProperties(node: Node, found: map<string, nat>) returns (props: map<string, nat>)
    ensures props == node.properties + found
  {
    props := found;
    var names := node.properties.Keys;
    while names != {}
      invariant names <= node.properties.Keys
      invariant props == (map k | k in node.properties && k !in names :: node.properties[k]) + found
      decreases |names|
    {
      var name :| name in names;
      if name !in props {
        props := props[name := node.properties[name]];
      }
      names := names - {name};
    }
  }

  lemma NothingCollected(g: Graph, s: Option<nat>, depth: nat, found: map<string, nat>)
    requires s.None? || depth > MAX_DEPTH
    ensures CollectedAll(g, OptionSeq(s), depth) + found == found
  {
    CollectedOne(g, s, depth);
  }

  // The recursive walk: found holds what earlier schemas declared.
  method CollectPart(g: Graph, s: Option<nat>, depth: nat, found: map<string, nat>) returns (props: map<string, nat>)
    ensures props == CollectedAll(g, OptionSeq(s), depth) + found
    decreases MAX_DEPTH + 1 - depth, 0, 0
  {
    if s.None? || depth > MAX_DEPTH {
      NothingCollected(g, s, depth, found);
      return found;
    }
    hide CollectedAll;
    hide Collected;
    hide OptionSeq;
    hide Parts;
    var node := g(s.value);
    var own := OwnProperties(node, found);
    var referred := CollectPart(g, node.ref, depth + 1, own);
    var all := CollectGroup(g, node.allOf, depth, referred);
    var any := CollectGroup(g, node.anyOf, depth, all);
    props := CollectGroup(g, node.oneOf, depth, any);
    WholePart(g, s.value, depth, found, own, referred, all, any, props);
  }

  lemma WholePart(g: Graph, s: nat, depth: nat, found: map<string, nat>, own: map<string, nat>,
                  referred: map<string, nat>,
                  all: map<string, nat>, any: map<string, nat>, props: map<string, nat>)
    requires depth <= MAX_DEPTH && own == g(s).properties + found
    requires referred == CollectedAll(g, OptionSeq(g(s).ref), depth + 1) + own
    requires all == CollectedAll(g, g(s).allOf, depth + 1) + referred
    requires any == CollectedAll(g, g(s).anyOf, depth + 1) + all
    requires props == CollectedAll(g, g(s).oneOf, depth + 1) + any
    ensures props == CollectedAll(g, OptionSeq(Some(s)), depth) + found
  {
    CollectedOne(g, Some(s), depth);
    assert Collected(g, s, depth) == CollectedAll(g, Parts(g(s)), depth + 1) + g(s).properties;
    hide CollectedAll;
    hide Collected;
    PartsInOrder(g, g(s), depth + 1, own);
    Merged(CollectedAll(g, Parts(g(s)), depth + 1), g(s).properties, found);
  }

  lemma PartsInOrder(g: Graph, node: Node, depth: nat, own: map<string, nat>)
    ensures CollectedAll(g, node.oneOf, depth) + (CollectedAll(g, node.anyOf, depth)
              + (CollectedAll(g, node.allOf, depth) + (CollectedAll(g, OptionSeq(node.ref), depth) + own)))
            == CollectedAll(g, Parts(node), depth) + own
  {
    hide CollectedAll;
    hide OptionSeq;
    var r := OptionSeq(node.ref);
    assert Parts(node) == r + node.allOf + node.anyOf + node.oneOf;
    CollectedAllConcat(g, r, node.allOf, depth);
    CollectedAllConcat(g, r + node.allOf, node.anyOf, depth);
    CollectedAllConcat(g, r + node.allOf + node.anyOf, node.oneOf, depth);
    hide Parts;
    FourMerged(CollectedAll(g, node.oneOf, depth), CollectedAll(g, node.anyOf, depth),
               CollectedAll(g, node.allOf, depth), CollectedAll(g, r, depth), own);
  }

  lemma FourMerged(a: map<string, nat>, b: map<string, nat>, c: map<string, nat>, d: map<string, nat>,
                   own: map<string, nat>)
    ensures a + (b + (c + (d + own))) == (a + (b + (c + d))) + own
  {
    Merged(c, d, own);
    Merged(b, c + d, own);
    Merged(a, b + (c + d), own);
  }

  method CollectGroup(g: Graph, group: seq<nat>, depth: nat, found: map<string, nat>) returns (props: map<string, nat>)
    requires depth <= MAX_DEPTH
    ensures props == CollectedAll(g, group, depth + 1) + found
    decreases MAX_DEPTH - depth, 1, 0
  {
    props := found;
    assert group[..0] == [];
    for j := 0 to |group|
      invariant props == CollectedAll(g, group[..j], depth + 1) + found
    {
      props := CollectPart(g, Some(group[j]), depth + 1, props);
      hide CollectedAll;
      assert group[..j + 1] == group[..j] + [group[j]] && OptionSeq(Some(group[j])) == [group[j]];
      CollectedAllConcat(g, group[..j], [group[j]], depth + 1);
      Merged(CollectedAll(g, [group[j]], depth + 1), CollectedAll(g, group[..j], depth + 1), found);
    }
    assert group[..|group|] == group;
  }

  // schemaProperties
  method SchemaProperties(g: Graph, s: nat) returns (props: map<string, nat>)
    ensures props == Properties(g, s)
  {
    CollectedOne(g, Some(s), 0);
    props := CollectPart(g, Some(s), 0, map[]);
  }
}

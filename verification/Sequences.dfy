// Filtering, mapping and distinct sequences.
module Sequences {

  function Filter<T>(p: T -> bool, s: seq<T>): (r: seq<T>)
    ensures |r| <= |s|
    ensures forall x :: x in r ==> x in s && p(x)
    ensures forall x :: x in s && p(x) ==> x in r
  {
    if s == [] then [] else (if p(s[0]) then [s[0]] else []) + Filter(p, s[1..])
  }

  function Map<T, U>(f: T -> U, s: seq<T>): (r: seq<U>)
    ensures |r| == |s|
    ensures forall i :: 0 <= i < |s| ==> r[i] == f(s[i])
  {
    seq(|s|, i requires 0 <= i < |s| => f(s[i]))
  }

  ghost predicate Distinct<T>(s: seq<T>) {
    forall i, j :: 0 <= i < j < |s| ==> s[i] != s[j]
  }

  lemma {:induction false} FilterConcat<T>(p: T -> bool, a: seq<T>, b: seq<T>)
    ensures Filter(p, a + b) == Filter(p, a) + Filter(p, b)
  {
    if a == [] {
      assert a + b == b;
    } else {
      assert (a + b)[1..] == a[1..] + b;
      FilterConcat(p, a[1..], b);
    }
  }

  lemma SplitLast<T>(s: seq<T>)
    requires s != []
    ensures s == s[..|s| - 1] + [s[|s| - 1]]
  {
  }

  lemma FilterLast<T>(p: T -> bool, s: seq<T>)
    requires s != []
    ensures Filter(p, s) == Filter(p, s[..|s| - 1]) + if p(s[|s| - 1]) then [s[|s| - 1]] else []
  {
    SplitLast(s);
    FilterConcat(p, s[..|s| - 1], [s[|s| - 1]]);
    FilterOne(p, s[|s| - 1]);
  }

  lemma FilterOne<T>(p: T -> bool, x: T)
    ensures Filter(p, [x]) == if p(x) then [x] else []
  {
    assert [x][1..] == [];
  }

  lemma {:induction false} FilterCommutes<T>(p: T -> bool, q: T -> bool, s: seq<T>)
    ensures Filter(p, Filter(q, s)) == Filter(q, Filter(p, s))
  {
    if s != [] {
      FilterCommutes(p, q, s[1..]);
      FilterConcat(p, if q(s[0]) then [s[0]] else [], Filter(q, s[1..]));
      FilterConcat(q, if p(s[0]) then [s[0]] else [], Filter(p, s[1..]));
    }
  }

  lemma {:induction false} FilterAll<T>(p: T -> bool, s: seq<T>)
    requires |Filter(p, s)| == |s| || forall x :: x in s ==> p(x)
    ensures Filter(p, s) == s
    ensures forall x :: x in s ==> p(x)
  {
    if s != [] {
      assert |Filter(p, s[1..])| <= |s| - 1;
      FilterAll(p, s[1..]);
    }
  }

  lemma {:induction false} FilterNone<T>(p: T -> bool, s: seq<T>)
    requires forall x :: x in s ==> !p(x)
    ensures Filter(p, s) == []
  {
    if s != [] {
      FilterNone(p, s[1..]);
    }
  }

  lemma {:induction false} FilterSame<T>(p: T -> bool, q: T -> bool, s: seq<T>)
    requires forall x :: x in s ==> p(x) == q(x)
    ensures Filter(p, s) == Filter(q, s)
  {
    if s != [] {
      FilterSame(p, q, s[1..]);
    }
  }

  // A filter after a map is the map after the corresponding filter.
  lemma {:induction false} FilterMap<T, U>(p: U -> bool, f: T -> U, q: T -> bool, s: seq<T>)
    requires forall x :: x in s ==> p(f(x)) == q(x)
    ensures Filter(p, Map(f, s)) == Map(f, Filter(q, s))
  {
    if s == [] {
      assert Map(f, s) == [];
    } else {
      MapCons(f, s[0], s[1..]);
      assert s == [s[0]] + s[1..];
      FilterMap(p, f, q, s[1..]);
      MapCons(f, s[0], Filter(q, s[1..]));
      FilterCons(p, f(s[0]), Map(f, s[1..]));
      assert s[0] in s;
    }
  }

  lemma FilterCons<T>(p: T -> bool, x: T, s: seq<T>)
    ensures Filter(p, [x] + s) == (if p(x) then [x] else []) + Filter(p, s)
  {
    assert ([x] + s)[1..] == s;
  }

  lemma MapCons<T, U>(f: T -> U, x: T, s: seq<T>)
    ensures Map(f, [x] + s) == [f(x)] + Map(f, s)
  {
  }

  lemma MapConcat<T, U>(f: T -> U, a: seq<T>, b: seq<T>)
    ensures Map(f, a + b) == Map(f, a) + Map(f, b)
  {
  }

  // The elements of a filtered sequence keep their relative order.
  lemma {:induction false} FilterIndex<T>(p: T -> bool, s: seq<T>, i: nat, j: nat) returns (m: nat, n: nat)
    requires i < j < |Filter(p, s)|
    ensures m < n < |s| && s[m] == Filter(p, s)[i] && s[n] == Filter(p, s)[j]
  {
    if p(s[0]) {
      if i == 0 {
        m := 0;
        var y := Filter(p, s[1..])[j - 1];
        assert y in s[1..];
        n :| 1 <= n < |s| && s[n] == y;
      } else {
        m, n := FilterIndex(p, s[1..], i - 1, j - 1);
        m, n := m + 1, n + 1;
      }
    } else {
      m, n := FilterIndex(p, s[1..], i, j);
      m, n := m + 1, n + 1;
    }
  }

  lemma FilterDistinct<T>(p: T -> bool, s: seq<T>)
    requires Distinct(s)
    ensures Distinct(Filter(p, s))
  {
    forall i, j | 0 <= i < j < |Filter(p, s)|
      ensures Filter(p, s)[i] != Filter(p, s)[j]
    {
      var m, n := FilterIndex(p, s, i, j);
    }
  }

  lemma {:induction false} DistinctCardinality<T>(s: seq<T>, elements: set<T>)
    requires Distinct(s)
    requires forall x :: x in s <==> x in elements
    ensures |s| == |elements|
  {
    if s == [] {
      assert elements == {};
    } else {
      DistinctCardinality(s[1..], elements - {s[0]});
    }
  }
}

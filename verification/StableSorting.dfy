// Stable sorting by an integer key, as Go's sort.SliceStable promises it. The
// function is one implementation; StableSortUnique shows that every sorted
// arrangement keeping equal keys in their given order is this one.
module StableSorting {
  import opened Sequences

  ghost predicate Sorted<T>(key: T -> int, s: seq<T>) {
    forall i, j :: 0 <= i < j < |s| ==> key(s[i]) <= key(s[j])
  }

  function Insert<T>(key: T -> int, x: T, s: seq<T>): seq<T> {
    if s == [] || key(x) <= key(s[0]) then [x] + s else [s[0]] + Insert(key, x, s[1..])
  }

  function StableSort<T>(key: T -> int, s: seq<T>): seq<T> {
    if s == [] then [] else Insert(key, s[0], StableSort(key, s[1..]))
  }

  function KeyIs<T>(key: T -> int, k: int): T -> bool {
    (x: T) => key(x) == k
  }

  lemma {:induction false} InsertMultiset<T>(key: T -> int, x: T, s: seq<T>)
    ensures multiset(Insert(key, x, s)) == multiset{x} + multiset(s)
  {
    if s == [] || key(x) <= key(s[0]) {
    } else {
      InsertMultiset(key, x, s[1..]);
      assert s == [s[0]] + s[1..];
    }
  }

  lemma SortedCons<T>(key: T -> int, x: T, s: seq<T>)
    ensures Sorted(key, [x] + s) <==> Sorted(key, s) && (s != [] ==> key(x) <= key(s[0]))
  {
    var r := [x] + s;
    if Sorted(key, r) {
      forall i, j | 0 <= i < j < |s|
        ensures key(s[i]) <= key(s[j])
      {
        assert r[i + 1] == s[i] && r[j + 1] == s[j];
      }
      if s != [] {
        assert r[0] == x && r[1] == s[0];
      }
    }
    if Sorted(key, s) && (s != [] ==> key(x) <= key(s[0])) {
      forall i, j | 0 <= i < j < |r|
        ensures key(r[i]) <= key(r[j])
      {
        assert r[j] == s[j - 1];
        if i > 0 {
          assert r[i] == s[i - 1];
        } else if j > 1 {
          assert key(s[0]) <= key(s[j - 1]);
        }
      }
    }
  }

  lemma {:induction false} InsertSorted<T>(key: T -> int, x: T, s: seq<T>)
    requires Sorted(key, s)
    ensures Sorted(key, Insert(key, x, s))
  {
    if s == [] || key(x) <= key(s[0]) {
      SortedCons(key, x, s);
    } else {
      assert s == [s[0]] + s[1..];
      SortedCons(key, s[0], s[1..]);
      InsertSorted(key, x, s[1..]);
      SortedCons(key, s[0], Insert(key, x, s[1..]));
    }
  }

  lemma {:induction false} StableSortSorts<T>(key: T -> int, s: seq<T>)
    ensures Sorted(key, StableSort(key, s))
    ensures multiset(StableSort(key, s)) == multiset(s)
    ensures |StableSort(key, s)| == |s|
  {
    if s != [] {
      StableSortSorts(key, s[1..]);
      InsertSorted(key, s[0], StableSort(key, s[1..]));
      InsertMultiset(key, s[0], StableSort(key, s[1..]));
      assert s == [s[0]] + s[1..];
      assert |multiset(StableSort(key, s))| == |multiset(s)|;
    }
  }

  lemma {:induction false} InsertFilter<T>(key: T -> int, p: T -> bool, x: T, s: seq<T>)
    requires Sorted(key, s)
    ensures Filter(p, Insert(key, x, s)) == if p(x) then Insert(key, x, Filter(p, s)) else Filter(p, s)
  {
    if s == [] || key(x) <= key(s[0]) {
      InsertFilterFront(key, p, x, s);
    } else {
      var y, rest := s[0], s[1..];
      assert s == [y] + rest;
      SortedCons(key, y, rest);
      InsertFilter(key, p, x, rest);
      InsertFilterStep(key, p, x, y, rest);
    }
  }

  lemma InsertFilterFront<T>(key: T -> int, p: T -> bool, x: T, s: seq<T>)
    requires Sorted(key, s) && (s == [] || key(x) <= key(s[0]))
    ensures Filter(p, Insert(key, x, s)) == if p(x) then Insert(key, x, Filter(p, s)) else Filter(p, s)
  {
    FilterCons(p, x, s);
    var f := Filter(p, s);
    if f != [] {
      assert f[0] in s;
    }
    assert [] + f == f;
  }

  lemma InsertFilterStep<T>(key: T -> int, p: T -> bool, x: T, y: T, rest: seq<T>)
    requires key(x) > key(y)
    requires Filter(p, Insert(key, x, rest)) == if p(x) then Insert(key, x, Filter(p, rest)) else Filter(p, rest)
    ensures Filter(p, Insert(key, x, [y] + rest)) ==
        if p(x) then Insert(key, x, Filter(p, [y] + rest)) else Filter(p, [y] + rest)
  {
    InsertCons(key, x, y, rest);
    FilterCons(p, y, Insert(key, x, rest));
    FilterCons(p, y, rest);
    var f := Filter(p, rest);
    InsertCons(key, x, y, f);
    hide Filter;
    hide Insert;
    if !p(y) {
      assert [] + f == f && [] + Insert(key, x, f) == Insert(key, x, f);
    }
  }

  lemma InsertCons<T>(key: T -> int, x: T, y: T, s: seq<T>)
    requires key(x) > key(y)
    ensures Insert(key, x, [y] + s) == [y] + Insert(key, x, s)
  {
    assert ([y] + s)[1..] == s;
  }

  // Sorting what a filter keeps is filtering what was sorted.
  lemma {:induction false} StableSortFilter<T>(key: T -> int, p: T -> bool, s: seq<T>)
    ensures Filter(p, StableSort(key, s)) == StableSort(key, Filter(p, s))
  {
    if s != [] {
      StableSortFilter(key, p, s[1..]);
      StableSortSorts(key, s[1..]);
      InsertFilter(key, p, s[0], StableSort(key, s[1..]));
      if p(s[0]) {
        StableSortCons(key, s[0], Filter(p, s[1..]));
      } else {
        assert [] + Filter(p, s[1..]) == Filter(p, s[1..]);
      }
    }
  }

  lemma StableSortCons<T>(key: T -> int, x: T, s: seq<T>)
    ensures StableSort(key, [x] + s) == Insert(key, x, StableSort(key, s))
  {
    assert ([x] + s)[1..] == s;
  }

  lemma {:induction false} InsertMap<T, U>(key: T -> int, key': U -> int, f: T -> U, x: T, s: seq<T>)
    requires forall y :: key'(f(y)) == key(y)
    ensures Map(f, Insert(key, x, s)) == Insert(key', f(x), Map(f, s))
  {
    if s == [] || key(x) <= key(s[0]) {
      assert Map(f, [x] + s) == [f(x)] + Map(f, s);
    } else {
      InsertMap(key, key', f, x, s[1..]);
      assert Map(f, s)[1..] == Map(f, s[1..]);
      assert Map(f, [s[0]] + Insert(key, x, s[1..])) == [f(s[0])] + Map(f, Insert(key, x, s[1..]));
    }
  }

  // Rewriting elements without moving their keys commutes with sorting.
  lemma {:induction false} StableSortMap<T, U>(key: T -> int, key': U -> int, f: T -> U, s: seq<T>)
    requires forall y :: key'(f(y)) == key(y)
    ensures Map(f, StableSort(key, s)) == StableSort(key', Map(f, s))
  {
    if s == [] {
      assert Map(f, s) == [];
    } else {
      StableSortMap(key, key', f, s[1..]);
      InsertMap(key, key', f, s[0], StableSort(key, s[1..]));
      assert Map(f, s)[1..] == Map(f, s[1..]);
    }
  }

  lemma {:induction false} StableSortOfSorted<T>(key: T -> int, s: seq<T>)
    requires Sorted(key, s)
    ensures StableSort(key, s) == s
  {
    if s != [] {
      StableSortOfSorted(key, s[1..]);
      assert s == [s[0]] + s[1..];
    }
  }

  // Stability: the elements of one key keep their given order.
  lemma StableSortStable<T>(key: T -> int, s: seq<T>, k: int)
    ensures Filter(KeyIs(key, k), StableSort(key, s)) == Filter(KeyIs(key, k), s)
  {
    var p := KeyIs(key, k);
    StableSortFilter(key, p, s);
    assert forall x :: x in Filter(p, s) ==> key(x) == k;
    assert forall i :: 0 <= i < |Filter(p, s)| ==> Filter(p, s)[i] in Filter(p, s);
    StableSortOfSorted(key, Filter(p, s));
  }

  // Any sorted arrangement that keeps every key's own order is the stable sort.
  lemma {:induction false} StableSortUnique<T>(key: T -> int, s: seq<T>, t: seq<T>)
    requires Sorted(key, t)
    requires forall k :: Filter(KeyIs(key, k), t) == Filter(KeyIs(key, k), s)
    ensures t == StableSort(key, s)
  {
    var u := StableSort(key, s);
    StableSortSorts(key, s);
    forall k
      ensures Filter(KeyIs(key, k), t) == Filter(KeyIs(key, k), u)
    {
      StableSortStable(key, s, k);
    }
    SortedByClasses(key, t, u);
  }

  lemma HeadByClasses<T>(key: T -> int, t: seq<T>, u: seq<T>)
    requires Sorted(key, u) && t != []
    requires SameClasses(key, t, u) || SameClasses(key, u, t)
    ensures u != [] && key(u[0]) <= key(t[0])
  {
    var p := KeyIs(key, key(t[0]));
    assert t[0] in t && p(t[0]);
    assert t[0] in Filter(p, u);
    var i :| 0 <= i < |u| && u[i] == t[0];
  }

  ghost predicate SameClasses<T>(key: T -> int, t: seq<T>, u: seq<T>) {
    forall k :: Filter(KeyIs(key, k), t) == Filter(KeyIs(key, k), u)
  }

  lemma {:induction false} SortedByClasses<T>(key: T -> int, t: seq<T>, u: seq<T>)
    requires Sorted(key, t) && Sorted(key, u) && SameClasses(key, t, u)
    ensures t == u
  {
    hide Sorted;
    hide SameClasses;
    if t == [] {
      if u != [] {
        HeadByClasses(key, u, t);
      }
    } else {
      HeadByClasses(key, t, u);
      HeadByClasses(key, u, t);
      SameHead(key, t, u);
      var x := t[0];
      assert t == [x] + t[1..] && u == [x] + u[1..];
      SortedCons(key, x, t[1..]);
      SortedCons(key, x, u[1..]);
      TailClasses(key, x, t[1..], u[1..]);
      SortedByClasses(key, t[1..], u[1..]);
    }
  }

  lemma TailClasses<T>(key: T -> int, x: T, a: seq<T>, b: seq<T>)
    requires SameClasses(key, [x] + a, [x] + b)
    ensures SameClasses(key, a, b)
  {
    hide Filter;
    forall k
      ensures Filter(KeyIs(key, k), a) == Filter(KeyIs(key, k), b)
    {
      SameTails(KeyIs(key, k), x, a, b);
    }
  }

  lemma SameHead<T>(key: T -> int, t: seq<T>, u: seq<T>)
    requires t != [] && u != [] && key(t[0]) == key(u[0])
    requires SameClasses(key, t, u)
    ensures t[0] == u[0]
  {
    var x, y := t[0], u[0];
    assert t == [x] + t[1..] && u == [y] + u[1..];
    var p := KeyIs(key, key(x));
    FilterCons(p, x, t[1..]);
    FilterCons(p, y, u[1..]);
    assert Filter(p, t)[0] == x && Filter(p, u)[0] == y;
  }

  lemma SameTails<T>(p: T -> bool, x: T, a: seq<T>, b: seq<T>)
    requires Filter(p, [x] + a) == Filter(p, [x] + b)
    ensures Filter(p, a) == Filter(p, b)
  {
    FilterCons(p, x, a);
    FilterCons(p, x, b);
    hide Filter;
    var n := if p(x) then 1 else 0;
    assert Filter(p, a) == Filter(p, [x] + a)[n..];
    assert Filter(p, b) == Filter(p, [x] + b)[n..];
  }
}

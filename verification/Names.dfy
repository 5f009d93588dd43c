// Byte-wise string order. UTF-8 orders strings as their code points do, so one
// comparison of characters serves for Go's string comparison.
module Names {

  predicate Lt(a: string, b: string) {
    b != [] && (a == [] || a[0] < b[0] || (a[0] == b[0] && Lt(a[1..], b[1..])))
  }

  predicate Le(a: string, b: string) { a == b || Lt(a, b) }

  lemma {:induction false} LtIrreflexive(a: string)
    ensures !Lt(a, a)
  {
    if a != [] {
      LtIrreflexive(a[1..]);
    }
  }

  lemma {:induction false} LtTransitive(a: string, b: string, c: string)
    requires Lt(a, b) && Lt(b, c)
    ensures Lt(a, c)
  {
    if a != [] && a[0] == b[0] == c[0] {
      LtTransitive(a[1..], b[1..], c[1..]);
    }
  }

  lemma {:induction false} LtTotal(a: string, b: string)
    ensures a == b || Lt(a, b) || Lt(b, a)
  {
    if a != [] && b != [] && a[0] == b[0] {
      LtTotal(a[1..], b[1..]);
      assert a == [a[0]] + a[1..] && b == [b[0]] + b[1..];
    }
  }

  // A common prefix does not decide an order.
  lemma {:induction false} LtPrefix(p: string, a: string, b: string)
    ensures Lt(p + a, p + b) == Lt(a, b)
  {
    if p == [] {
      assert p + a == a && p + b == b;
    } else {
      assert (p + a)[1..] == p[1..] + a && (p + b)[1..] == p[1..] + b;
      LtPrefix(p[1..], a, b);
    }
  }

  ghost predicate StrictlyIncreasing(s: seq<string>) {
    forall i, j :: 0 <= i < j < |s| ==> Lt(s[i], s[j])
  }

  function InsertName(x: string, s: seq<string>): seq<string> {
    if s == [] || Le(x, s[0]) then [x] + s else [s[0]] + InsertName(x, s[1..])
  }

  // sort.Strings
  function SortNames(s: seq<string>): seq<string> {
    if s == [] then [] else InsertName(s[0], SortNames(s[1..]))
  }

  ghost predicate NonDecreasing(s: seq<string>) {
    forall i, j :: 0 <= i < j < |s| ==> Le(s[i], s[j])
  }

  lemma {:induction false} InsertNameOrders(x: string, s: seq<string>)
    requires NonDecreasing(s)
    ensures NonDecreasing(InsertName(x, s))
    ensures multiset(InsertName(x, s)) == multiset{x} + multiset(s)
  {
    if s == [] {
    } else if Le(x, s[0]) {
      var r := [x] + s;
      forall j | 1 <= j < |r|
        ensures Le(x, r[j])
      {
        if j > 1 {
          assert Le(s[0], s[j - 1]);
          if Lt(x, s[0]) && Lt(s[0], s[j - 1]) {
            LtTransitive(x, s[0], s[j - 1]);
          }
        }
      }
    } else {
      LtTotal(x, s[0]);
      InsertNameOrders(x, s[1..]);
      var r := InsertName(x, s[1..]);
      assert s == [s[0]] + s[1..];
      forall y | y in r
        ensures Le(s[0], y)
      {
        assert y in multiset(r);
      }
    }
  }

  lemma {:induction false} SortNamesOrders(s: seq<string>)
    ensures NonDecreasing(SortNames(s))
    ensures multiset(SortNames(s)) == multiset(s)
    ensures |SortNames(s)| == |s|
    ensures forall x :: x in SortNames(s) <==> x in s
  {
    if s != [] {
      SortNamesOrders(s[1..]);
      InsertNameOrders(s[0], SortNames(s[1..]));
      assert s == [s[0]] + s[1..];
      assert |multiset(SortNames(s))| == |multiset(s)|;
    }
    forall x
      ensures x in SortNames(s) <==> x in s
    {
      assert x in SortNames(s) <==> x in multiset(SortNames(s));
    }
  }

  lemma {:induction false} InsertNameStrict(x: string, s: seq<string>)
    requires StrictlyIncreasing(s) && x !in s
    ensures StrictlyIncreasing(InsertName(x, s))
    ensures forall y :: y in InsertName(x, s) <==> y == x || y in s
  {
    if s == [] {
    } else if Le(x, s[0]) {
      var r := [x] + s;
      assert s[0] in s;
      forall i, j | 0 <= i < j < |r|
        ensures Lt(r[i], r[j])
      {
        if i > 0 {
          assert r[i] == s[i - 1] && r[j] == s[j - 1];
        } else if j > 1 {
          assert Lt(s[0], s[j - 1]);
          LtTransitive(x, s[0], s[j - 1]);
        }
      }
    } else {
      var y, rest := s[0], s[1..];
      assert s == [y] + rest;
      LtTotal(x, y);
      InsertNameStrict(x, rest);
      var r := InsertName(x, rest);
      forall z | z in r
        ensures Lt(y, z)
      {
        if z in rest {
          var i :| 0 <= i < |rest| && rest[i] == z;
          assert s[i + 1] == z;
        }
      }
      assert forall i :: 0 <= i < |r| ==> r[i] in r;
    }
  }

  // Distinct names sort to a strictly increasing list.
  lemma {:induction false} SortStrict(s: seq<string>)
    requires forall i, j :: 0 <= i < j < |s| ==> s[i] != s[j]
    ensures StrictlyIncreasing(SortNames(s))
    ensures forall x :: x in SortNames(s) <==> x in s
  {
    if s != [] {
      SortStrict(s[1..]);
      assert s == [s[0]] + s[1..];
      assert s[0] !in s[1..];
      InsertNameStrict(s[0], SortNames(s[1..]));
    }
  }

  // A strictly increasing sequence is determined by its elements.
  lemma {:induction false} IncreasingUnique(s: seq<string>, t: seq<string>)
    requires StrictlyIncreasing(s) && StrictlyIncreasing(t)
    requires forall x :: x in s <==> x in t
    ensures s == t
  {
    if s == [] {
      assert forall i :: 0 <= i < |t| ==> t[i] in t;
    } else {
      assert s[0] in s && t != [] && t[0] in t;
      HeadIsLeast(s, t[0]);
      HeadIsLeast(t, s[0]);
      if s[0] != t[0] {
        LtTransitive(s[0], t[0], s[0]);
        LtIrreflexive(s[0]);
      }
      forall x
        ensures x in s[1..] <==> x in t[1..]
      {
        TailOf(s, x);
        TailOf(t, x);
      }
      IncreasingUnique(s[1..], t[1..]);
      assert s == [s[0]] + s[1..] && t == [t[0]] + t[1..];
    }
  }

  lemma HeadIsLeast(s: seq<string>, x: string)
    requires StrictlyIncreasing(s) && x in s
    ensures Le(s[0], x)
  {
  }

  lemma TailOf(s: seq<string>, x: string)
    requires StrictlyIncreasing(s) && s != []
    ensures x in s[1..] <==> x in s && x != s[0]
  {
    LtIrreflexive(s[0]);
    if x in s && x != s[0] {
      var i :| 0 <= i < |s| && s[i] == x;
      assert s[1..][i - 1] == x;
    }
  }

  // The elements of a set in increasing order.
  lemma Prepended(least: string, rest: seq<string>)
    requires StrictlyIncreasing(rest) && forall x :: x in rest ==> Le(least, x) && x != least
    ensures StrictlyIncreasing([least] + rest)
    ensures forall x :: x in [least] + rest <==> x == least || x in rest
  {
    assert forall i :: 0 <= i < |rest| ==> rest[i] in rest;
  }

  ghost function Ascending(names: set<string>): (r: seq<string>)
    ensures StrictlyIncreasing(r)
    ensures forall x :: x in r <==> x in names
    ensures |r| == |names|
    decreases |names|
  {
    if names == {} then []
    else
      ExistsLeast(names);
      var least :| least in names && forall x :: x in names ==> Le(least, x);
      var rest := Ascending(names - {least});
      Prepended(least, rest);
      [least] + rest
  }

  lemma {:induction false} ExistsLeast(names: set<string>)
    requires names != {}
    ensures exists least :: least in names && forall x :: x in names ==> Le(least, x)
    decreases |names|
  {
    var a :| a in names;
    if names != {a} {
      ExistsLeast(names - {a});
      var b :| b in names - {a} && forall x :: x in names - {a} ==> Le(b, x);
      var least := LeastWith(names, a, b);
    }
  }

  // The lesser of one element and the least of the others.
  lemma LeastWith(names: set<string>, a: string, b: string) returns (least: string)
    requires a in names && b in names - {a} && forall x :: x in names - {a} ==> Le(b, x)
    ensures least in names && forall x :: x in names ==> Le(least, x)
  {
    LtTotal(a, b);
    least := if Lt(a, b) then a else b;
    forall x | x in names
      ensures Le(least, x)
    {
      if x != a && x != b && least == a {
        assert Le(b, x);
        LtTransitive(a, b, x);
      }
    }
  }
}

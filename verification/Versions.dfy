// Ordering checker versions as text, and the version a service holds while
// answers from several instances arrive.
module Versions {
  import opened Sequences
  import opened Text
  import Names

  // strings.Split at '.'
  function Split(s: string): (r: seq<string>)
    ensures r != []
  {
    if s == [] then [""]
    else if s[0] == '.' then [""] + Split(s[1..])
    else
      var rest := Split(s[1..]);
      [[s[0]] + rest[0]] + rest[1..]
  }

  // strings.Compare, which is 0 only for equal strings
  function CompareText(a: string, b: string): int {
    if a == b then 0 else if Names.Lt(a, b) then -1 else 1
  }

  // A longer component is the larger one; equal lengths compare as text.
  function ComparePart(a: string, b: string): int {
    if Bytes(a) != Bytes(b) then (if Bytes(a) < Bytes(b) then -1 else 1) else CompareText(a, b)
  }

  function CompareParts(a: seq<string>, b: seq<string>): int {
    if a == [] || b == [] then |a| - |b|
    else if ComparePart(a[0], b[0]) != 0 then ComparePart(a[0], b[0])
    else CompareParts(a[1..], b[1..])
  }

  function Compare(a: string, b: string): int { CompareParts(Split(a), Split(b)) }

  // compareScryVersions
  method CompareScryVersions(a: string, b: string) returns (c: int)
    ensures c == Compare(a, b)
  {
    var x, y := Split(a), Split(b);
    assert x[0..] == x && y[0..] == y;
    var i := 0;
    while i < |x| && i < |y|
      invariant 0 <= i <= |x| && i <= |y|
      invariant CompareParts(x, y) == CompareParts(x[i..], y[i..])
    {
      assert x[i..][1..] == x[i + 1..] && y[i..][1..] == y[i + 1..];
      if Bytes(x[i]) != Bytes(y[i]) {
        if Bytes(x[i]) < Bytes(y[i]) {
          return -1;
        }
        return 1;
      }
      c := CompareText(x[i], y[i]);
      if c != 0 {
        return;
      }
      i := i + 1;
    }
    return |x| - |y|;
  }

  // ---- it is a total order on all texts ----

  lemma ComparePartOrder(a: string, b: string, c: string)
    ensures ComparePart(a, b) == 0 <==> a == b
    ensures ComparePart(b, a) == -ComparePart(a, b)
    ensures ComparePart(a, b) <= 0 && ComparePart(b, c) <= 0 ==>
              ComparePart(a, c) <= 0 && (ComparePart(a, c) == 0 ==> ComparePart(a, b) == 0 && ComparePart(b, c) == 0)
  {
    hide Bytes;
    Names.LtTotal(a, b);
    Names.LtIrreflexive(a);
    if Names.Lt(a, b) && Names.Lt(b, a) {
      Names.LtTransitive(a, b, a);
    }
    if Names.Lt(a, b) && Names.Lt(b, c) {
      Names.LtTransitive(a, b, c);
    }
  }

  lemma {:induction false} ComparePartsAntisymmetric(a: seq<string>, b: seq<string>)
    ensures CompareParts(a, b) == 0 <==> a == b
    ensures CompareParts(b, a) == -CompareParts(a, b)
  {
    if a != [] && b != [] {
      hide ComparePart;
      ComparePartOrder(a[0], b[0], b[0]);
      ComparePartsAntisymmetric(a[1..], b[1..]);
      assert a == [a[0]] + a[1..] && b == [b[0]] + b[1..];
    }
  }

  lemma {:induction false} ComparePartsTransitive(a: seq<string>, b: seq<string>, c: seq<string>)
    requires CompareParts(a, b) <= 0 && CompareParts(b, c) <= 0
    ensures CompareParts(a, c) <= 0
  {
    if a != [] && b != [] && c != [] {
      ComparePartOrder(a[0], b[0], c[0]);
      hide ComparePart;
      if ComparePart(a[0], b[0]) == 0 && ComparePart(b[0], c[0]) == 0 {
        ComparePartsTransitive(a[1..], b[1..], c[1..]);
      }
    }
  }

  lemma SplitHead(s: string)
    requires s != []
    ensures s[0] == '.' <==> Split(s)[0] == ""
    ensures s[0] == '.' ==> Split(s)[1..] == Split(s[1..])
    ensures s[0] != '.' ==> Split(s)[0] == [s[0]] + Split(s[1..])[0] && Split(s)[1..] == Split(s[1..])[1..]
  {
  }

  lemma {:induction false} SplitInjective(s: string, t: string)
    requires Split(s) == Split(t)
    ensures s == t
  {
    if s != [] && t != [] {
      SplitHead(s);
      SplitHead(t);
      var x, y := Split(s[1..]), Split(t[1..]);
      hide Split;
      assert s == [s[0]] + s[1..] && t == [t[0]] + t[1..];
      assert s[0] == '.' <==> t[0] == '.';
      if s[0] != '.' {
        var head := Split(s)[0];
        assert head == [s[0]] + x[0] && head[1..] == x[0];
        assert head == [t[0]] + y[0] && head[1..] == y[0];
        assert x == [x[0]] + x[1..] && y == [y[0]] + y[1..];
      }
      SplitInjective(s[1..], t[1..]);
    } else if s != [] {
      SplitEmpty(s);
    } else if t != [] {
      SplitEmpty(t);
    }
  }

  lemma SplitEmpty(s: string)
    requires s != []
    ensures Split(s) != Split("")
  {
    if s[0] == '.' {
      assert |Split(s)| > 1;
    } else {
      assert Split(s)[0] != "";
    }
  }

  // Any two texts are ordered, one way only, and equal texts alone tie.
  lemma CompareIsTotal(a: string, b: string, c: string)
    ensures Compare(a, b) == 0 <==> a == b
    ensures Compare(b, a) == -Compare(a, b)
    ensures Compare(a, b) <= 0 && Compare(b, c) <= 0 ==> Compare(a, c) <= 0
  {
    hide Split;
    hide CompareParts;
    ComparePartsAntisymmetric(Split(a), Split(b));
    if Compare(a, b) == 0 {
      SplitInjective(a, b);
    }
    if Compare(a, b) <= 0 && Compare(b, c) <= 0 {
      ComparePartsTransitive(Split(a), Split(b), Split(c));
    }
  }

  // ---- on numbers without leading zeros it is numeric order ----

  function NumberText(n: nat): string { Decimal(n) }

  function VersionText(x: seq<nat>): string { Join(Map(NumberText, x), ".") }

  function Sign(i: int): int { if i < 0 then -1 else if i > 0 then 1 else 0 }

  // The first differing component decides.
  function CompareNumbers(x: seq<nat>, y: seq<nat>): int {
    if x == [] || y == [] then |x| - |y|
    else if x[0] != y[0] then (if x[0] < y[0] then -1 else 1)
    else CompareNumbers(x[1..], y[1..])
  }

  lemma {:induction false} LtSnoc(a: string, b: string, c: char, d: char)
    requires |a| == |b|
    ensures Names.Lt(a + [c], b + [d]) <==> Names.Lt(a, b) || (a == b && c < d)
  {
    if a == [] {
      assert a + [c] == [c] && b + [d] == [d];
      assert [c][1..] == [] && [d][1..] == [];
    } else {
      assert (a + [c])[1..] == a[1..] + [c] && (b + [d])[1..] == b[1..] + [d];
      LtSnoc(a[1..], b[1..], c, d);
      assert a == [a[0]] + a[1..] && b == [b[0]] + b[1..];
    }
  }

  lemma DigitOrder(m: nat, n: nat)
    requires m < 10 && n < 10
    ensures Digit(m) < Digit(n) <==> m < n
  {
    DigitIsDigit(m);
    DigitIsDigit(n);
  }

  lemma {:induction false} DecimalOrder(m: nat, n: nat)
    requires |Decimal(m)| == |Decimal(n)|
    ensures Names.Lt(Decimal(m), Decimal(n)) <==> m < n
  {
    DigitOrder(m % 10, n % 10);
    if m < 10 || n < 10 {
      assert |Decimal(m)| == 1 <==> m < 10;
      assert |Decimal(n)| == 1 <==> n < 10;
      assert Decimal(m)[1..] == [] && Decimal(n)[1..] == [];
    } else {
      DecimalOrder(m / 10, n / 10);
      LtSnoc(Decimal(m / 10), Decimal(n / 10), Digit(m % 10), Digit(n % 10));
      if m / 10 == n / 10 {
        assert m < n <==> m % 10 < n % 10;
      } else {
        DecimalInjective(m / 10, n / 10);
      }
    }
  }

  lemma DecimalInjective(m: nat, n: nat)
    requires m != n
    ensures Decimal(m) != Decimal(n)
  {
    DecimalIsCanonical(m);
    DecimalIsCanonical(n);
  }

  lemma ComparePartNumeric(m: nat, n: nat)
    ensures ComparePart(Decimal(m), Decimal(n)) == Sign(m - n)
  {
    DecimalBytes(m);
    DecimalBytes(n);
    if m != n {
      DecimalInjective(m, n);
    }
    if m < n {
      DecimalMonotone(m, n);
    } else {
      DecimalMonotone(n, m);
    }
    if |Decimal(m)| == |Decimal(n)| {
      DecimalOrder(m, n);
    }
  }

  lemma {:induction false} ComparePartsNumeric(x: seq<nat>, y: seq<nat>)
    ensures CompareParts(Map(NumberText, x), Map(NumberText, y)) == CompareNumbers(x, y)
  {
    if x != [] && y != [] {
      ComparePartNumeric(x[0], y[0]);
      ComparePartsNumeric(x[1..], y[1..]);
      hide ComparePart;
      hide Decimal;
      assert Map(NumberText, x)[1..] == Map(NumberText, x[1..]);
      assert Map(NumberText, y)[1..] == Map(NumberText, y[1..]);
    }
  }

  lemma {:induction false} SplitWord(w: string)
    requires '.' !in w
    ensures Split(w) == [w]
  {
    if w != [] {
      SplitWord(w[1..]);
      assert w == [w[0]] + w[1..];
    }
  }

  lemma {:induction false} SplitDot(w: string, rest: string)
    requires '.' !in w
    ensures Split(w + "." + rest) == [w] + Split(rest)
  {
    if w == [] {
      assert "" + "." + rest == "." + rest;
      assert ("." + rest)[1..] == rest;
    } else {
      assert (w + "." + rest)[1..] == w[1..] + "." + rest;
      SplitDot(w[1..], rest);
      assert w == [w[0]] + w[1..];
    }
  }

  lemma {:induction false} SplitJoin(parts: seq<string>)
    requires parts != [] && forall p :: p in parts ==> '.' !in p
    ensures Split(Join(parts, ".")) == parts
  {
    if |parts| == 1 {
      SplitWord(parts[0]);
    } else {
      SplitJoin(parts[1..]);
      SplitDot(parts[0], Join(parts[1..], "."));
      assert parts == [parts[0]] + parts[1..];
    }
  }

  lemma SplitVersion(x: seq<nat>)
    requires x != []
    ensures Split(VersionText(x)) == Map(NumberText, x)
  {
    var parts := Map(NumberText, x);
    forall p | p in parts
      ensures '.' !in p
    {
      var i :| 0 <= i < |parts| && parts[i] == p;
      DecimalIsCanonical(x[i]);
    }
    SplitJoin(parts);
  }

  lemma JoinGrows(c: char, parts: seq<string>)
    requires parts != []
    ensures Join([[c] + parts[0]] + parts[1..], ".") == [c] + Join(parts, ".")
  {
    assert ([[c] + parts[0]] + parts[1..])[1..] == parts[1..];
    if |parts| > 1 {
      var rest := Join(parts[1..], ".");
      hide Join;
      assert [c] + parts[0] + "." + rest == [c] + (parts[0] + "." + rest);
    }
  }

  lemma JoinSeparator(parts: seq<string>)
    requires parts != []
    ensures Join([""] + parts, ".") == "." + Join(parts, ".")
  {
    assert ([""] + parts)[1..] == parts;
    assert "" + "." == ".";
  }

  lemma {:induction false} JoinSplit(v: string)
    ensures Join(Split(v), ".") == v
  {
    if v != [] {
      JoinSplit(v[1..]);
      JoinGrows(v[0], Split(v[1..]));
      JoinSeparator(Split(v[1..]));
      hide Join;
      assert v == [v[0]] + v[1..];
    }
  }

  function NumberOf(part: string): nat { if CanonicalNumber(part) then Value(part) else 0 }

  // A version whose components are numbers without leading zeros is the text of
  // those numbers.
  lemma CanonicalVersion(v: string)
    requires forall p :: p in Split(v) ==> CanonicalNumber(p)
    ensures v == VersionText(Map(NumberOf, Split(v)))
  {
    var parts := Split(v);
    var texts := Map(NumberText, Map(NumberOf, parts));
    forall i | 0 <= i < |parts|
      ensures texts[i] == parts[i]
    {
      assert parts[i] in parts;
      CanonicalIsDecimal(parts[i]);
    }
    assert texts == parts;
    JoinSplit(v);
  }

  // For versions of any number of components written without leading zeros,
  // the comparison is the numeric one, component by component.
  lemma CompareIsNumeric(x: seq<nat>, y: seq<nat>)
    requires x != [] && y != []
    ensures Compare(VersionText(x), VersionText(y)) == CompareNumbers(x, y)
  {
    hide Split;
    hide CompareParts;
    hide VersionText;
    hide Map;
    SplitVersion(x);
    SplitVersion(y);
    ComparePartsNumeric(x, y);
  }
}

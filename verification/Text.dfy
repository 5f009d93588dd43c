// Go's string helpers on sequences of Unicode code points: white space, byte
// length in UTF-8 and decimal numbers.
module Text {

  // unicode.IsSpace
  predicate IsSpace(c: char) {
    c in {'\t', '\n', '\U{000B}', '\U{000C}', '\r', ' ', '\U{0085}', '\U{00A0}', '\U{1680}',
          '\U{2028}', '\U{2029}', '\U{202F}', '\U{205F}', '\U{3000}'}
    || '\U{2000}' <= c <= '\U{200A}'
  }

  function SkipSpaces(s: string): (r: string)
    ensures |r| <= |s|
    ensures r == s[|s| - |r|..]
    ensures r != [] ==> !IsSpace(r[0])
  {
    if s != [] && IsSpace(s[0]) then SkipSpaces(s[1..]) else s
  }

  function TrimRight(s: string): (r: string)
    ensures r <= s
    ensures r != [] ==> !IsSpace(r[|r| - 1])
  {
    if s != [] && IsSpace(s[|s| - 1]) then TrimRight(s[..|s| - 1]) else s
  }

  // strings.TrimSpace
  function TrimSpace(s: string): string {
    TrimRight(SkipSpaces(s))
  }

  function Word(s: string): (w: string)
    ensures w <= s
    ensures s != [] && !IsSpace(s[0]) ==> w != []
    ensures forall i :: 0 <= i < |w| ==> !IsSpace(w[i])
    ensures |w| < |s| ==> IsSpace(s[|w|])
  {
    if s == [] || IsSpace(s[0]) then [] else [s[0]] + Word(s[1..])
  }

  // strings.Fields
  function Fields(s: string): seq<string>
    decreases |s|
  {
    var t := SkipSpaces(s);
    if t == [] then [] else [Word(t)] + Fields(t[|Word(t)|..])
  }

  function Join(parts: seq<string>, separator: string): string {
    if parts == [] then ""
    else if |parts| == 1 then parts[0]
    else parts[0] + separator + Join(parts[1..], separator)
  }

  // Runs of white space become one space; none leads or trails.
  function Collapse(s: string): string {
    Join(Fields(s), " ")
  }

  // strings.ToLower on ASCII letters.
  function LowerChar(c: char): char {
    if 'A' <= c <= 'Z' then ((c as int) + 32) as char else c
  }

  function Lower(s: string): (r: string)
    ensures |r| == |s|
  {
    if s == [] then [] else [LowerChar(s[0])] + Lower(s[1..])
  }

  // The UTF-8 length of one code point.
  function CharBytes(c: char): nat {
    if c < '\U{80}' then 1 else if c < '\U{800}' then 2 else if c < '\U{10000}' then 3 else 4
  }

  // Go's len of a string.
  function Bytes(s: string): nat {
    if s == [] then 0 else CharBytes(s[0]) + Bytes(s[1..])
  }

  lemma {:induction false} BytesConcat(a: string, b: string)
    ensures Bytes(a + b) == Bytes(a) + Bytes(b)
  {
    if a == [] {
      assert a + b == b;
    } else {
      assert (a + b)[1..] == a[1..] + b;
      BytesConcat(a[1..], b);
    }
  }

  function Digit(n: nat): char
    requires n < 10
  {
    "0123456789"[n]
  }

  // fmt's %d of a count
  function Decimal(n: nat): (r: string)
    ensures r != []
  {
    if n < 10 then [Digit(n)] else Decimal(n / 10) + [Digit(n % 10)]
  }

  lemma {:induction false} DecimalBytes(n: nat)
    ensures Bytes(Decimal(n)) == |Decimal(n)|
  {
    if n >= 10 {
      DecimalBytes(n / 10);
      BytesConcat(Decimal(n / 10), [Digit(n % 10)]);
      assert Digit(n % 10) < '\U{80}';
      assert Bytes([Digit(n % 10)]) == 1;
    } else {
      assert Digit(n) < '\U{80}';
    }
  }

  // A larger count never prints shorter.
  lemma {:induction false} DecimalMonotone(m: nat, n: nat)
    requires m <= n
    ensures |Decimal(m)| <= |Decimal(n)|
  {
    if m >= 10 {
      DecimalMonotone(m / 10, n / 10);
    }
  }

  predicate IsDigit(c: char) { '0' <= c <= '9' }

  function Value(digits: string): nat
    requires forall i :: 0 <= i < |digits| ==> IsDigit(digits[i])
  {
    if digits == [] then 0
    else
      var n := |digits| - 1;
      assert IsDigit(digits[n]);
      10 * Value(digits[..n]) + (digits[n] as int - '0' as int)
  }

  // Digits without a leading zero.
  predicate CanonicalNumber(t: string) {
    t != [] && (forall i :: 0 <= i < |t| ==> IsDigit(t[i])) && (|t| == 1 || t[0] != '0')
  }

  lemma DigitIsDigit(n: nat)
    requires n < 10
    ensures IsDigit(Digit(n)) && Digit(n) as int - '0' as int == n && (Digit(n) == '0' <==> n == 0)
  {
  }

  lemma {:induction false} DecimalIsCanonical(n: nat)
    ensures CanonicalNumber(Decimal(n)) && Value(Decimal(n)) == n
    ensures n > 0 ==> Decimal(n)[0] != '0'
  {
    DigitIsDigit(n % 10);
    var d := Decimal(n);
    if n >= 10 {
      DecimalIsCanonical(n / 10);
      var front := Decimal(n / 10);
      assert d[..|d| - 1] == front;
      assert forall i :: 0 <= i < |front| ==> d[i] == front[i];
    } else {
      assert d[..0] == [];
      assert Value(d) == 10 * Value(d[..0]) + n;
    }
  }

  lemma {:induction false} CanonicalIsDecimal(t: string)
    requires CanonicalNumber(t)
    ensures t == Decimal(Value(t))
    ensures |t| > 1 ==> Value(t) >= 10
  {
    var n := |t| - 1;
    var d := t[n] as int - '0' as int;
    DigitIsDigit(d);
    assert IsDigit(t[n]) && t[n] == Digit(d);
    assert t == t[..n] + [t[n]];
    if n > 0 {
      CanonicalIsDecimal(t[..n]);
      assert Value(t[..n]) > 0 by {
        if |t[..n]| == 1 {
          assert t[..1][..0] == [] && IsDigit(t[0]);
        }
      }
      assert Value(t) / 10 == Value(t[..n]) && Value(t) % 10 == d;
    } else {
      assert t[..0] == [];
    }
  }
}

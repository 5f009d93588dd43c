// JSON values, and the pointers that name a place in one (RFC 6901).
module JsonPointers {
  import opened Options
  import opened Text

  // A parsed body: numbers keep their text, an object is a map.
  datatype Json =
    | Null
    | Bool(b: bool)
    | Number(text: string)
    | Str(s: string)
    | Arr(items: seq<Json>)
    | Obj(members: map<string, Json>)

  datatype Token = Key(name: string) | Index(at: nat)

  type Path = seq<Token>

  function At(v: Json, path: Path): Option<Json> {
    if path == [] then Some(v)
    else
      match path[0]
      case Key(k) => if v.Obj? && k in v.members then At(v.members[k], path[1..]) else None
      case Index(i) => if v.Arr? && i < |v.items| then At(v.items[i], path[1..]) else None
  }

  // strings.ReplaceAll of a single character.
  function ReplaceAll(s: string, c: char, into: string): string {
    if s == [] then [] else (if s[0] == c then into else [s[0]]) + ReplaceAll(s[1..], c, into)
  }

  // jsonPointerEscape
  function Escape(segment: string): string {
    ReplaceAll(ReplaceAll(segment, '~', "~0"), '/', "~1")
  }

  function TokenText(t: Token): string {
    match t
    case Key(k) => Escape(k)
    case Index(i) => Decimal(i)
  }

  // Each token behind its own '/'.
  function Pointer(path: Path): string {
    if path == [] then "" else "/" + TokenText(path[0]) + Pointer(path[1..])
  }

  // ---- reading a pointer back, as sections 3 and 4 of RFC 6901 say ----

  // Replaces '~' and this digit by c.
  function ReadBack(s: string, digit: char, c: char): string
    decreases |s|
  {
    if |s| < 2 then s
    else if s[0] == '~' && s[1] == digit then [c] + ReadBack(s[2..], digit, c)
    else [s[0]] + ReadBack(s[1..], digit, c)
  }

  // "~1" is read back before "~0".
  function Unescape(s: string): string {
    ReadBack(ReadBack(s, '1', '/'), '0', '~')
  }

  // An array index is digits without a leading zero.
  function ParseIndex(t: string): Option<nat> {
    if CanonicalNumber(t) then Some(Value(t)) else None
  }

  function Segment(p: string): (r: string)
    ensures r <= p
    ensures |r| < |p| ==> p[|r|] == '/'
  {
    if p == [] || p[0] == '/' then [] else [p[0]] + Segment(p[1..])
  }

  // The place in v this pointer names, if there is one.
  function Evaluate(v: Json, p: string): Option<Path>
    decreases |p|
  {
    if p == [] then Some([])
    else if p[0] != '/' then None
    else
      var text := Segment(p[1..]);
      var rest := p[1 + |text|..];
      match v
      case Obj(members) =>
        var k := Unescape(text);
        if k in members then Under(Key(k), Evaluate(members[k], rest)) else None
      case Arr(items) =>
        var i := ParseIndex(text);
        if i.Some? && i.value < |items| then Under(Index(i.value), Evaluate(items[i.value], rest)) else None
      case _ => None
  }

  function Under(t: Token, path: Option<Path>): Option<Path> {
    if path.Some? then Some([t] + path.value) else None
  }

  // ---- every place is named, and named by one pointer ----

  lemma {:induction false} ReplaceCons(c0: char, rest: string, c: char, into: string)
    ensures ReplaceAll([c0] + rest, c, into) == (if c0 == c then into else [c0]) + ReplaceAll(rest, c, into)
  {
    assert ([c0] + rest)[1..] == rest;
  }

  function EscapeChar(c: char): string {
    if c == '~' then "~0" else if c == '/' then "~1" else [c]
  }

  lemma EscapeCons(s: string)
    requires s != []
    ensures Escape(s) == EscapeChar(s[0]) + Escape(s[1..])
  {
    var t := ReplaceAll(s[1..], '~', "~0");
    if s[0] == '~' {
      assert "~0" + t == ['~'] + (['0'] + t);
      ReplaceCons('~', ['0'] + t, '/', "~1");
      ReplaceCons('0', t, '/', "~1");
    } else {
      ReplaceCons(s[0], t, '/', "~1");
    }
  }

  lemma {:induction false} EscapeHasNoSlash(s: string)
    ensures '/' !in Escape(s)
  {
    if s != [] {
      EscapeCons(s);
      EscapeHasNoSlash(s[1..]);
    }
  }

  lemma ReadBackPair(d: char, rest: string, digit: char, c: char)
    ensures ReadBack(['~', d] + rest, digit, c) ==
            if d == digit then [c] + ReadBack(rest, digit, c) else ['~'] + ReadBack([d] + rest, digit, c)
  {
    var s := ['~', d] + rest;
    assert s[2..] == rest && s[1..] == [d] + rest;
  }

  lemma ReadBackCons(c0: char, rest: string, digit: char, c: char)
    requires c0 != '~'
    ensures ReadBack([c0] + rest, digit, c) == [c0] + ReadBack(rest, digit, c)
  {
    assert ([c0] + rest)[1..] == rest;
  }

  lemma UnescapeTilde(rest: string)
    ensures Unescape("~0" + rest) == "~" + Unescape(rest)
  {
    ReadBackPair('0', rest, '1', '/');
    ReadBackCons('0', rest, '1', '/');
    var read := ReadBack(rest, '1', '/');
    ReadBackPair('0', read, '0', '~');
    hide ReadBack;
    assert ['~'] + (['0'] + read) == ['~', '0'] + read;
  }

  lemma UnescapeSlash(rest: string)
    ensures Unescape("~1" + rest) == "/" + Unescape(rest)
  {
    ReadBackPair('1', rest, '1', '/');
    ReadBackCons('/', ReadBack(rest, '1', '/'), '0', '~');
    hide ReadBack;
  }

  lemma UnescapePlain(c: char, rest: string)
    requires c != '~'
    ensures Unescape([c] + rest) == [c] + Unescape(rest)
  {
    ReadBackCons(c, rest, '1', '/');
    ReadBackCons(c, ReadBack(rest, '1', '/'), '0', '~');
    hide ReadBack;
  }

  lemma {:induction false} UnescapeEscape(s: string)
    ensures Unescape(Escape(s)) == s
  {
    if s != [] {
      var rest := Escape(s[1..]);
      EscapeCons(s);
      UnescapeEscape(s[1..]);
      hide Escape;
      hide Unescape;
      if s[0] == '~' {
        UnescapeTilde(rest);
      } else if s[0] == '/' {
        UnescapeSlash(rest);
      } else {
        UnescapePlain(s[0], rest);
      }
      assert s == [s[0]] + s[1..];
    }
  }

  lemma ParseDecimal(n: nat)
    ensures ParseIndex(Decimal(n)) == Some(n)
    ensures '/' !in Decimal(n)
  {
    DecimalIsCanonical(n);
    hide Decimal;
    assert forall c :: c in Decimal(n) ==> IsDigit(c);
  }

  lemma {:induction false} SegmentOf(t: string, rest: string)
    requires '/' !in t && (rest == [] || rest[0] == '/')
    ensures Segment(t + rest) == t
  {
    if t == [] {
      assert t + rest == rest;
    } else {
      assert (t + rest)[1..] == t[1..] + rest;
      SegmentOf(t[1..], rest);
    }
  }

  lemma PointerCons(t: Token, path: Path)
    ensures Pointer([t] + path) == "/" + TokenText(t) + Pointer(path)
  {
    assert ([t] + path)[1..] == path;
  }

  lemma PointerSplits(text: string, path: Path)
    requires '/' !in text
    ensures var p := "/" + text + Pointer(path);
            p[1..] == text + Pointer(path) && Segment(p[1..]) == text && p[1 + |text|..] == Pointer(path)
  {
    PointerStarts(path);
    hide Pointer;
    TextSplits(text, Pointer(path));
  }

  lemma PointerStarts(path: Path)
    ensures Pointer(path) == [] || Pointer(path)[0] == '/'
  {
  }

  lemma TextSplits(text: string, rest: string)
    requires '/' !in text && (rest == [] || rest[0] == '/')
    ensures var p := "/" + text + rest;
            p[1..] == text + rest && Segment(p[1..]) == text && p[1 + |text|..] == rest
  {
    SegmentOf(text, rest);
    hide Segment;
    var p := "/" + text + rest;
    assert p[1..] == text + rest;
  }

  lemma EvaluateMember(v: Json, k: string, path: Path)
    requires v.Obj? && k in v.members
    ensures Evaluate(v, Pointer([Key(k)] + path)) == Under(Key(k), Evaluate(v.members[k], Pointer(path)))
  {
    hide Unescape;
    hide Segment;
    PointerCons(Key(k), path);
    EscapeHasNoSlash(k);
    UnescapeEscape(k);
    hide Escape;
    hide Pointer;
    PointerSplits(Escape(k), path);
  }

  lemma EvaluateElement(v: Json, i: nat, path: Path)
    requires v.Arr? && i < |v.items|
    ensures Evaluate(v, Pointer([Index(i)] + path)) == Under(Index(i), Evaluate(v.items[i], Pointer(path)))
  {
    hide Segment;
    hide ParseIndex;
    PointerCons(Index(i), path);
    ParseDecimal(i);
    hide Decimal;
    hide Pointer;
    PointerSplits(Decimal(i), path);
  }

  // The pointer of a place in v evaluates back to that place.
  lemma {:induction false} EvaluatesBack(v: Json, path: Path)
    requires At(v, path).Some?
    ensures Evaluate(v, Pointer(path)) == Some(path)
  {
    hide Evaluate;
    if path == [] {
      EvaluateRoot(v);
    } else {
      assert path == [path[0]] + path[1..];
      match path[0] {
        case Key(k) =>
          EvaluatesBack(v.members[k], path[1..]);
          EvaluateMember(v, k, path[1..]);
        case Index(i) =>
          EvaluatesBack(v.items[i], path[1..]);
          EvaluateElement(v, i, path[1..]);
      }
    }
  }

  lemma EvaluateRoot(v: Json)
    ensures Evaluate(v, Pointer([])) == Some([])
  {
  }
}

// User text on one line of GitHub Markdown: the escaper, a reader that undoes
// it, and what the escaped text can never do.
module Inline {
  import opened Text

  const COMMENT: string := "<!-- -->"

  // The characters that open Markdown, HTML or math.
  predicate IsSpecial(c: char) {
    c in {'\\', '`', '*', '_', '[', ']', '<', '>', '&', '|', '~', '#', '$'}
  }

  // ASCII punctuation, the characters a backslash escapes (section 6.1 of the
  // GitHub Flavored Markdown specification, version 0.29).
  predicate IsPunctuation(c: char) {
    '!' <= c <= '/' || ':' <= c <= '@' || '[' <= c <= '`' || '{' <= c <= '~'
  }

  predicate IsAsciiDigit(c: char) { '0' <= c <= '9' }

  // letter says which code points beyond ASCII are letters or digits.
  predicate IsWordRune(letter: char -> bool, c: char) {
    || c == '_' || IsAsciiDigit(c) || 'a' <= c <= 'z' || 'A' <= c <= 'Z'
    || (c >= '\U{80}' && letter(c))
  }

  predicate LeadingDigits(prefix: string) {
    prefix != [] && forall i :: 0 <= i < |prefix| ==> IsAsciiDigit(prefix[i])
  }

  predicate Escapes(runes: string, i: nat)
    requires i < |runes|
  {
    || IsSpecial(runes[i])
    || (i == 0 && runes[i] in {'-', '+'})
    || (runes[i] in {'.', ')'} && LeadingDigits(runes[..i]))
  }

  // An @ or # that the next character would turn into a mention or a reference.
  predicate Splits(letter: char -> bool, runes: string, i: nat)
    requires i < |runes|
  {
    runes[i] in {'@', '#'} && i + 1 < |runes| && IsWordRune(letter, runes[i + 1])
  }

  function EscapeRune(letter: char -> bool, runes: string, i: nat): string
    requires i < |runes|
  {
    (if Escapes(runes, i) then ['\\', runes[i]] else [runes[i]]) + if Splits(letter, runes, i) then COMMENT else []
  }

  function EscapeFrom(letter: char -> bool, runes: string, i: nat): string
    requires i <= |runes|
    decreases |runes| - i
  {
    if i == |runes| then [] else EscapeRune(letter, runes, i) + EscapeFrom(letter, runes, i + 1)
  }

  function InlineText(letter: char -> bool, text: string): string {
    EscapeFrom(letter, Collapse(text), 0)
  }

  // What one character writes: an escape when it could open something, the
  // character, and a comment that splits a mention.
  method EscapedRune(letter: char -> bool, runes: string, i: nat) returns (piece: string)
    requires i < |runes|
    ensures piece == EscapeRune(letter, runes, i)
  {
    var r := runes[i];
    piece := [];
    if i == 0 && (r == '-' || r == '+') {
      piece := ['\\'];
    } else if (r == '.' || r == ')') && LeadingDigits(runes[..i]) {
      piece := ['\\'];
    }
    if IsSpecial(r) {
      piece := ['\\'];
    }
    assert piece == if Escapes(runes, i) then ['\\'] else [];
    piece := piece + [r];
    if (r == '@' || r == '#') && i + 1 < |runes| && IsWordRune(letter, runes[i + 1]) {
      piece := piece + COMMENT;
    }
  }

  method Inlined(letter: char -> bool, text: string) returns (out: string)
    ensures out == InlineText(letter, text)
  {
    var runes := Collapse(text);
    out := [];
    NothingBefore(EscapeFrom(letter, runes, 0));
    for i := 0 to |runes|
      invariant out + EscapeFrom(letter, runes, i) == EscapeFrom(letter, runes, 0)
    {
      var piece := EscapedRune(letter, runes, i);
      Regroup(out, piece, EscapeFrom(letter, runes, i + 1));
      out := out + piece;
    }
    assert out + [] == out;
  }

  lemma Regroup(a: string, b: string, c: string)
    ensures a + (b + c) == (a + b) + c
  {
  }

  // ---- reading it back ----

  // Undoes backslash escapes and drops empty comments.
  function Read(s: string): string {
    if s == [] then []
    else if s[0] == '\\' && |s| >= 2 && IsPunctuation(s[1]) then [s[1]] + Read(s[2..])
    else if COMMENT <= s then Read(s[8..])
    else [s[0]] + Read(s[1..])
  }

  lemma ReadEscaped(c: char, rest: string)
    requires IsPunctuation(c)
    ensures Read(['\\', c] + rest) == [c] + Read(rest)
  {
    assert (['\\', c] + rest)[2..] == rest;
  }

  lemma ReadPlain(c: char, rest: string)
    requires c != '\\' && c != '<'
    ensures Read([c] + rest) == [c] + Read(rest)
  {
    assert ([c] + rest)[1..] == rest;
    assert COMMENT[0] == '<';
  }

  lemma ReadComment(rest: string)
    ensures Read(COMMENT + rest) == Read(rest)
  {
    assert (COMMENT + rest)[8..] == rest;
    assert COMMENT <= COMMENT + rest;
    assert (COMMENT + rest)[0] == '<';
  }

  lemma NothingBefore(s: string)
    ensures [] + s == s
  {
  }

  lemma SpecialIsPunctuation(runes: string, i: nat)
    requires i < |runes| && Escapes(runes, i)
    ensures IsPunctuation(runes[i])
  {
  }

  lemma ReadRune(letter: char -> bool, runes: string, i: nat, tail: string)
    requires i < |runes|
    ensures Read(EscapeRune(letter, runes, i) + tail) == [runes[i]] + Read(tail)
  {
    var c := runes[i];
    var comment := if Splits(letter, runes, i) then COMMENT else [];
    ReadComment(tail);
    NothingBefore(tail);
    Regroup(if Escapes(runes, i) then ['\\', c] else [c], comment, tail);
    if Escapes(runes, i) {
      SpecialIsPunctuation(runes, i);
      ReadEscaped(c, comment + tail);
    } else {
      ReadPlain(c, comment + tail);
    }
  }

  lemma {:induction false} ReadEscapeFrom(letter: char -> bool, runes: string, i: nat)
    requires i <= |runes|
    ensures Read(EscapeFrom(letter, runes, i)) == runes[i..]
    decreases |runes| - i
  {
    if i < |runes| {
      ReadEscapeFrom(letter, runes, i + 1);
      ReadRune(letter, runes, i, EscapeFrom(letter, runes, i + 1));
      assert runes[i..] == [runes[i]] + runes[i + 1..];
    }
  }

  // What GitHub shows is the text itself, with its white space collapsed.
  lemma InlineReadsBack(letter: char -> bool, text: string)
    ensures Read(InlineText(letter, text)) == Collapse(text)
  {
    ReadEscapeFrom(letter, Collapse(text), 0);
    assert Collapse(text)[0..] == Collapse(text);
  }

  // ---- what it can never do ----

  // Read in order, the text is escaped punctuation, empty comments and plain
  // characters, and no plain character opens anything.
  predicate Inert(s: string) {
    if s == [] then true
    else if s[0] == '\\' then |s| >= 2 && IsPunctuation(s[1]) && Inert(s[2..])
    else if COMMENT <= s then Inert(s[8..])
    else !IsSpecial(s[0]) && Inert(s[1..])
  }

  lemma {:induction false} InertConcat(a: string, b: string)
    requires Inert(a) && Inert(b)
    ensures Inert(a + b)
  {
    if a == [] {
      assert a + b == b;
    } else if a[0] == '\\' {
      assert (a + b)[2..] == a[2..] + b;
      InertConcat(a[2..], b);
    } else if COMMENT <= a {
      assert (a + b)[8..] == a[8..] + b;
      assert COMMENT <= a + b;
      InertConcat(a[8..], b);
    } else {
      assert (a + b)[1..] == a[1..] + b;
      assert COMMENT[0] == '<' && a[0] != '<';
      InertConcat(a[1..], b);
    }
  }

  lemma InertRune(letter: char -> bool, runes: string, i: nat)
    requires i < |runes|
    ensures Inert(EscapeRune(letter, runes, i))
  {
    var c := runes[i];
    assert Inert([]);
    var head := if Escapes(runes, i) then ['\\', c] else [c];
    if Escapes(runes, i) {
      SpecialIsPunctuation(runes, i);
      assert ['\\', c][2..] == [];
    } else {
      assert [c][1..] == [];
      assert |[c]| < |COMMENT|;
    }
    assert Inert(head);
    assert COMMENT[8..] == [] && COMMENT[0] == '<';
    assert Inert(COMMENT);
    InertConcat(head, if Splits(letter, runes, i) then COMMENT else []);
  }

  lemma {:induction false} InertFrom(letter: char -> bool, runes: string, i: nat)
    requires i <= |runes|
    ensures Inert(EscapeFrom(letter, runes, i))
    decreases |runes| - i
  {
    if i < |runes| {
      InertRune(letter, runes, i);
      InertFrom(letter, runes, i + 1);
      InertConcat(EscapeRune(letter, runes, i), EscapeFrom(letter, runes, i + 1));
    }
  }

  // No @ or # stands directly before a word character.
  predicate NoMention(letter: char -> bool, s: string) {
    forall i :: 0 <= i < |s| - 1 && s[i] in {'@', '#'} ==> !IsWordRune(letter, s[i + 1])
  }

  lemma NoMentionConcat(letter: char -> bool, a: string, b: string)
    requires NoMention(letter, a) && NoMention(letter, b)
    requires a != [] && b != [] && a[|a| - 1] in {'@', '#'} ==> !IsWordRune(letter, b[0])
    ensures NoMention(letter, a + b)
  {
    var s := a + b;
    forall i | 0 <= i < |s| - 1 && s[i] in {'@', '#'}
      ensures !IsWordRune(letter, s[i + 1])
    {
      if i >= |a| {
        assert s[i] == b[i - |a|] && s[i + 1] == b[i - |a| + 1];
      }
    }
  }

  // What is written begins with a backslash or the character itself.
  lemma EscapeStarts(letter: char -> bool, runes: string, i: nat)
    requires i < |runes|
    ensures EscapeFrom(letter, runes, i) != []
    ensures EscapeFrom(letter, runes, i)[0] == if Escapes(runes, i) then '\\' else runes[i]
  {
    hide Escapes;
    hide Splits;
  }

  // One escape is no mention, and ends in @ or # only before what is no word.
  lemma NoMentionRune(letter: char -> bool, runes: string, i: nat)
    requires i < |runes|
    ensures NoMention(letter, EscapeRune(letter, runes, i))
    ensures var a, b := EscapeRune(letter, runes, i), EscapeFrom(letter, runes, i + 1);
            a != [] && b != [] && a[|a| - 1] in {'@', '#'} ==> !IsWordRune(letter, b[0])
  {
    if i + 1 < |runes| {
      EscapeStarts(letter, runes, i + 1);
    }
    hide Escapes;
  }

  lemma {:induction false} NoMentionFrom(letter: char -> bool, runes: string, i: nat)
    requires i <= |runes|
    ensures NoMention(letter, EscapeFrom(letter, runes, i))
    decreases |runes| - i
  {
    if i < |runes| {
      NoMentionFrom(letter, runes, i + 1);
      NoMentionRune(letter, runes, i);
      hide NoMention;
      hide EscapeRune;
      NoMentionConcat(letter, EscapeRune(letter, runes, i), EscapeFrom(letter, runes, i + 1));
    }
  }

  // The line is not opened as a list, bulleted or numbered.
  predicate NotAList(s: string) {
    && (s != [] ==> s[0] !in {'-', '+', '*'})
    && forall k :: 0 < k < |s| && LeadingDigits(s[..k]) ==> s[k] !in {'.', ')'}
  }

  lemma {:induction false} LeadingPlain(letter: char -> bool, runes: string, k: nat)
    requires k < |EscapeFrom(letter, runes, 0)| && LeadingDigits(EscapeFrom(letter, runes, 0)[..k])
    ensures k < |runes| && runes[..k] == EscapeFrom(letter, runes, 0)[..k]
    ensures EscapeFrom(letter, runes, 0) == runes[..k] + EscapeFrom(letter, runes, k)
    decreases k
  {
    var s := EscapeFrom(letter, runes, 0);
    DigitsPrefix(s, k);
    if k == 1 {
      NothingBefore(s);
      assert runes[..0] == [] && s[..0] == [];
      LeadingStep(letter, runes, 0);
    } else {
      LeadingPlain(letter, runes, k - 1);
      LeadingStep(letter, runes, k - 1);
    }
  }

  lemma DigitsPrefix(s: string, k: nat)
    requires 0 < k <= |s| && LeadingDigits(s[..k])
    ensures IsAsciiDigit(s[k - 1])
    ensures k > 1 ==> LeadingDigits(s[..k - 1])
  {
    assert s[..k][k - 1] == s[k - 1];
    assert s[..k - 1] == s[..k][..k - 1];
  }

  lemma LeadingStep(letter: char -> bool, runes: string, k: nat)
    requires k <= |runes| && k + 1 < |EscapeFrom(letter, runes, 0)|
    requires runes[..k] == EscapeFrom(letter, runes, 0)[..k]
    requires EscapeFrom(letter, runes, 0) == runes[..k] + EscapeFrom(letter, runes, k)
    requires IsAsciiDigit(EscapeFrom(letter, runes, 0)[k])
    ensures k + 1 < |runes| && runes[..k + 1] == EscapeFrom(letter, runes, 0)[..k + 1]
    ensures EscapeFrom(letter, runes, 0) == runes[..k + 1] + EscapeFrom(letter, runes, k + 1)
  {
    var s, tail := EscapeFrom(letter, runes, 0), EscapeFrom(letter, runes, k);
    assert |runes[..k]| == k && s[k] == tail[0];
    StepPlain(letter, runes, k, s[k]);
    SplitAt(runes, k);
    SplitAt(s, k);
    Regroup(runes[..k], [runes[k]], EscapeFrom(letter, runes, k + 1));
    EscapeEnds(letter, runes, k + 1);
  }

  lemma SplitAt(s: string, k: nat)
    requires k < |s|
    ensures s[..k + 1] == s[..k] + [s[k]]
  {
  }

  // A digit that comes out first went in first, and nothing came with it.
  lemma StepPlain(letter: char -> bool, runes: string, i: nat, c: char)
    requires i < |runes| && IsAsciiDigit(c) && EscapeFrom(letter, runes, i) != []
        && EscapeFrom(letter, runes, i)[0] == c
    ensures runes[i] == c && EscapeFrom(letter, runes, i) == [c] + EscapeFrom(letter, runes, i + 1)
  {
    assert !IsSpecial(c);
    var head := EscapeRune(letter, runes, i);
    RuneHead(letter, runes, i);
    assert head[0] == c;
  }

  lemma RuneHead(letter: char -> bool, runes: string, i: nat)
    requires i < |runes|
    ensures EscapeRune(letter, runes, i) != []
    ensures EscapeRune(letter, runes, i)[0] == if Escapes(runes, i) then '\\' else runes[i]
    ensures IsAsciiDigit(runes[i]) ==> EscapeRune(letter, runes, i) == [runes[i]]
  {
  }

  lemma NotAListInline(letter: char -> bool, text: string)
    ensures NotAList(InlineText(letter, text))
  {
    var runes := Collapse(text);
    var s := InlineText(letter, text);
    EscapeEnds(letter, runes, 0);
    if s != [] {
      EscapeStarts(letter, runes, 0);
    }
    forall k | 0 < k < |s| && LeadingDigits(s[..k])
      ensures s[k] !in {'.', ')'}
    {
      NoMarker(letter, runes, k);
    }
  }

  // The character after leading digits is no list marker, or it is escaped.
  lemma NoMarker(letter: char -> bool, runes: string, k: nat)
    requires 0 < k < |EscapeFrom(letter, runes, 0)| && LeadingDigits(EscapeFrom(letter, runes, 0)[..k])
    ensures EscapeFrom(letter, runes, 0)[k] !in {'.', ')'}
  {
    LeadingPlain(letter, runes, k);
    EscapeEnds(letter, runes, k);
    assert EscapeFrom(letter, runes, 0)[k] == EscapeFrom(letter, runes, k)[0];
    EscapeStarts(letter, runes, k);
    hide EscapeFrom;
  }

  lemma EscapeEnds(letter: char -> bool, runes: string, i: nat)
    requires i <= |runes|
    ensures EscapeFrom(letter, runes, i) == [] <==> i == |runes|
  {
    if i < |runes| {
      EscapeStarts(letter, runes, i);
    }
  }

  // The escaper's promise: the text opens no Markdown, notifies no one,
  // references nothing and starts no list.
  lemma InlineIsInert(letter: char -> bool, text: string)
    ensures Inert(InlineText(letter, text))
    ensures NoMention(letter, InlineText(letter, text))
    ensures NotAList(InlineText(letter, text))
  {
    InertFrom(letter, Collapse(text), 0);
    NoMentionFrom(letter, Collapse(text), 0);
    NotAListInline(letter, text);
  }

  // ---- one line ----

  lemma {:induction false} JoinOneLine(parts: seq<string>)
    requires forall p :: p in parts ==> '\n' !in p
    ensures '\n' !in Join(parts, " ")
  {
    if |parts| > 1 {
      assert parts[0] in parts;
      assert forall p :: p in parts[1..] ==> p in parts;
      JoinOneLine(parts[1..]);
    } else if |parts| == 1 {
      assert parts[0] in parts;
    }
  }

  lemma {:induction false} FieldsOneLine(s: string)
    ensures forall p :: p in Fields(s) ==> '\n' !in p
    decreases |s|
  {
    var t := SkipSpaces(s);
    if t != [] {
      assert IsSpace('\n');
      FieldsOneLine(t[|Word(t)|..]);
    }
  }

  lemma RuneOneLine(letter: char -> bool, runes: string, i: nat)
    requires i < |runes| && '\n' !in runes
    ensures '\n' !in EscapeRune(letter, runes, i)
  {
    hide Escapes;
    hide Splits;
    assert runes[i] in runes;
    assert '\n' !in COMMENT;
  }

  lemma NotInBoth(a: string, b: string, c: char)
    requires c !in a && c !in b
    ensures c !in a + b
  {
  }

  lemma {:induction false} EscapeOneLine(letter: char -> bool, runes: string, i: nat)
    requires i <= |runes| && '\n' !in runes
    ensures '\n' !in EscapeFrom(letter, runes, i)
    decreases |runes| - i
  {
    if i < |runes| {
      EscapeOneLine(letter, runes, i + 1);
      RuneOneLine(letter, runes, i);
      hide EscapeRune;
      NotInBoth(EscapeRune(letter, runes, i), EscapeFrom(letter, runes, i + 1), '\n');
    }
  }

  // Escaped text never ends its line.
  lemma InlineOneLine(letter: char -> bool, text: string)
    ensures '\n' !in InlineText(letter, text)
  {
    FieldsOneLine(text);
    JoinOneLine(Fields(text));
    EscapeOneLine(letter, Collapse(text), 0);
  }

  // ---- clipping ----

  function TrimTrailingBlanks(s: string): (r: string)
    ensures r <= s && (r != [] ==> r[|r| - 1] != ' ')
    ensures forall k :: |r| <= k < |s| ==> s[k] == ' '
  {
    if s != [] && s[|s| - 1] == ' ' then TrimTrailingBlanks(s[..|s| - 1]) else s
  }

  lemma CutFrom(flat: string, limit: nat)
    ensures 0 < limit < |flat| ==>
              var r := TrimTrailingBlanks(flat[..limit - 1]);
              && |r| < limit && r <= flat && (r != [] ==> r[|r| - 1] != ' ')
              && forall k :: |r| <= k < limit - 1 ==> flat[k] == ' '
  {
    if 0 < limit < |flat| {
      var front := flat[..limit - 1];
      var r := TrimTrailingBlanks(front);
      hide TrimTrailingBlanks;
      forall k | |r| <= k < limit - 1
        ensures flat[k] == ' '
      {
        assert front[k] == ' ';
      }
    }
  }

  const ELLIPSIS: char := '\U{2026}'

  // At most limit characters: all of it, or its first limit - 1 characters without
  // their trailing blanks, the cut marked.
  function Clip(text: string, limit: nat): (r: string)
    requires limit > 0
    ensures |Collapse(text)| <= limit ==> r == Collapse(text)
    ensures |Collapse(text)| > limit ==>
              && 1 <= |r| <= limit && r[|r| - 1] == ELLIPSIS && r[..|r| - 1] <= Collapse(text)
              && (|r| > 1 ==> r[|r| - 2] != ' ')
              && forall k :: |r| - 1 <= k < limit - 1 ==> Collapse(text)[k] == ' '
  {
    CutFrom(Collapse(text), limit);
    var flat := Collapse(text);
    if |flat| <= limit then flat else TrimTrailingBlanks(flat[..limit - 1]) + [ELLIPSIS]
  }
}

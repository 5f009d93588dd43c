// What a reader of a rendering gets back from it: how many transcripts and
// prompts there are, from the lines shown and the numbers printed.
module RenderReading {
  import opened Options
  import opened Sequences
  import opened Text
  import opened Inline
  import opened DigestModel
  import opened RenderModel
  import opened RenderTheorems

  // ---- a reader of lines and numbers ----

  function Newlines(s: string): nat { if s == [] then 0 else (if s[0] == '\n' then 1 else 0) + Newlines(s[1..]) }

  function DigitRun(s: string): (r: string)
    ensures r <= s && forall i :: 0 <= i < |r| ==> IsDigit(r[i])
  {
    if s == [] || !IsDigit(s[0]) then [] else [s[0]] + DigitRun(s[1..])
  }

  // The first number in a text, or 0.
  function NumberIn(s: string): nat {
    if s == [] then 0 else if IsDigit(s[0]) then Value(DigitRun(s)) else NumberIn(s[1..])
  }

  // The end of a text after its last line break.
  function LastLine(s: string): string {
    if s == [] || s[|s| - 1] == '\n' then [] else LastLine(s[..|s| - 1]) + [s[|s| - 1]]
  }

  // How many lines begin with such a character; at says whether s begins one.
  function Starts(p: char -> bool, s: string, at: bool): nat {
    if s == [] then 0 else (if at && p(s[0]) then 1 else 0) + Starts(p, s[1..], s[0] == '\n')
  }

  // The number in the first line that begins with a bracket.
  function Bracketed(s: string, at: bool): nat {
    if s == [] then 0 else if at && s[0] == '[' then NumberIn(s) else Bracketed(s[1..], s[0] == '\n')
  }

  function ADigit(): char -> bool { (c: char) => IsDigit(c) }

  function ABracket(): char -> bool { (c: char) => c == '[' }

  const NO_CELLS: string := "| | |\n"

  predicate EndsIn(s: string, end: string) { |end| <= |s| && s[|s| - |end|..] == end }

  // The transcripts a table speaks of: its rows, and the number in a last line
  // that has no author and no commits.
  function TableCount(t: string): int {
    if t == "" then 0
    else if EndsIn(t, NO_CELLS) then Newlines(t) - 4 + NumberIn(LastLine(t[..|t| - 1]))
    else Newlines(t) - 3
  }

  // ---- the reader on joined texts ----

  lemma {:induction false} NewlinesConcat(a: string, b: string)
    ensures Newlines(a + b) == Newlines(a) + Newlines(b)
  {
    if a == [] {
      assert a + b == b;
    } else {
      assert (a + b)[1..] == a[1..] + b;
      NewlinesConcat(a[1..], b);
    }
  }

  lemma {:induction false} NoNewlines(s: string)
    requires '\n' !in s
    ensures Newlines(s) == 0
  {
    if s != [] {
      NoNewlines(s[1..]);
    }
  }

  lemma {:induction false} DigitRunOf(d: string, rest: string)
    requires forall i :: 0 <= i < |d| ==> IsDigit(d[i])
    requires rest == [] || !IsDigit(rest[0])
    ensures DigitRun(d + rest) == d
  {
    if d == [] {
      assert d + rest == rest;
    } else {
      assert (d + rest)[1..] == d[1..] + rest;
      DigitRunOf(d[1..], rest);
    }
  }

  lemma {:induction false} NumberReadsBack(before: string, n: nat, rest: string)
    requires forall i :: 0 <= i < |before| ==> !IsDigit(before[i])
    requires rest == [] || !IsDigit(rest[0])
    ensures NumberIn(before + Decimal(n) + rest) == n
  {
    hide Decimal;
    DecimalIsCanonical(n);
    if before == [] {
      assert before + Decimal(n) + rest == Decimal(n) + rest;
      DigitRunOf(Decimal(n), rest);
    } else {
      assert (before + Decimal(n) + rest)[1..] == before[1..] + Decimal(n) + rest;
      NumberReadsBack(before[1..], n, rest);
    }
  }

  lemma LastLineSnoc(s: string, c: char)
    requires c != '\n'
    ensures LastLine(s + [c]) == LastLine(s) + [c]
  {
    assert (s + [c])[..|s|] == s;
  }

  lemma {:induction false} LastLineOf(a: string, b: string)
    requires '\n' !in b && (a == [] || a[|a| - 1] == '\n')
    ensures LastLine(a + b) == b
  {
    if b == [] {
      assert a + b == a;
    } else {
      var n := |b| - 1;
      LastLineOf(a, b[..n]);
      LastLineSnoc(a + b[..n], b[n]);
      hide LastLine;
      SnocAppend(a, b);
    }
  }

  lemma SnocAppend(a: string, b: string)
    requires b != []
    ensures a + b == a + b[..|b| - 1] + [b[|b| - 1]] && b == b[..|b| - 1] + [b[|b| - 1]]
  {
  }

  // Whether the text after a begins a line.
  function AtAfter(a: string, at: bool): bool { if a == [] then at else a[|a| - 1] == '\n' }

  lemma {:induction false} StartsConcat(p: char -> bool, a: string, b: string, at: bool)
    ensures Starts(p, a + b, at) == Starts(p, a, at) + Starts(p, b, AtAfter(a, at))
  {
    if a == [] {
      assert a + b == b;
    } else {
      assert (a + b)[1..] == a[1..] + b;
      StartsConcat(p, a[1..], b, a[0] == '\n');
    }
  }

  lemma {:induction false} StartsLine(p: char -> bool, line: string, at: bool)
    requires '\n' !in line && !p('\n')
    ensures Starts(p, line + "\n", at) == if at && line != [] && p(line[0]) then 1 else 0
  {
    if line == [] {
      assert line + "\n" == "\n" && "\n"[1..] == [];
    } else {
      assert (line + "\n")[1..] == line[1..] + "\n";
      StartsLine(p, line[1..], false);
    }
  }

  lemma {:induction false} BracketedAfter(a: string, b: string, at: bool)
    requires Starts(ABracket(), a, at) == 0
    ensures Bracketed(a + b, at) == Bracketed(b, AtAfter(a, at))
  {
    if a == [] {
      assert a + b == b;
    } else {
      assert (a + b)[1..] == a[1..] + b;
      BracketedAfter(a[1..], b, a[0] == '\n');
    }
  }

  lemma {:induction false} BracketedNone(s: string, at: bool)
    requires Starts(ABracket(), s, at) == 0
    ensures Bracketed(s, at) == 0
  {
    BracketedAfter(s, [], at);
    assert s + [] == s;
  }

  // ---- the printed counts ----

  lemma PluralHasNumber(n: nat, noun: string)
    requires n >= 1
    ensures exists rest :: Plural(n, noun) == Decimal(n) + rest && rest != [] && !IsDigit(rest[0])
  {
    if n == 1 {
      OneHasNumber(noun);
    } else {
      hide Decimal;
      assert Plural(n, noun) == Decimal(n) + (" " + noun + "s");
    }
  }

  lemma OneHasNumber(noun: string)
    ensures Plural(1, noun) == Decimal(1) + (" " + noun)
  {
    assert Decimal(1) == "1";
    assert "1 " + noun == "1" + (" " + noun);
  }

  lemma PluralReadsBack(before: string, n: nat, noun: string, after: string)
    requires n >= 1 && forall i :: 0 <= i < |before| ==> !IsDigit(before[i])
    ensures NumberIn(before + Plural(n, noun) + after) == n
  {
    PluralHasNumber(n, noun);
    hide Plural;
    var rest :| Plural(n, noun) == Decimal(n) + rest && rest != [] && !IsDigit(rest[0]);
    hide Decimal;
    assert before + Plural(n, noun) + after == before + Decimal(n) + (rest + after);
    NumberReadsBack(before, n, rest + after);
  }

  lemma {:induction false} DecimalOneLine(n: nat)
    ensures '\n' !in Decimal(n)
  {
    DecimalIsCanonical(n);
    hide Decimal;
    assert forall c :: c in Decimal(n) ==> IsDigit(c);
  }

  lemma PluralOneLine(n: nat, noun: string)
    requires '\n' !in noun
    ensures '\n' !in Plural(n, noun)
  {
    DecimalOneLine(n);
  }

  // ---- a row is one line, and not the line that counts the rest ----

  lemma {:induction false} JoinWithout(parts: seq<string>, separator: string, c: char)
    requires c !in separator && forall p :: p in parts ==> c !in p
    ensures c !in Join(parts, separator)
  {
    if |parts| > 1 {
      assert parts[0] in parts;
      assert forall p :: p in parts[1..] ==> p in parts;
      JoinWithout(parts[1..], separator, c);
    } else if |parts| == 1 {
      assert parts[0] in parts;
    }
  }

  lemma {:induction false} JoinSomething(parts: seq<string>, separator: string)
    requires parts != [] && parts[0] != []
    ensures Join(parts, separator) != []
  {
  }

  lemma WithoutConcat(a: string, b: string, c: char)
    ensures c !in a + b <==> c !in a && c !in b
  {
    if c in a {
      var i :| 0 <= i < |a| && a[i] == c;
      assert (a + b)[i] == c;
    }
    if c in b {
      var i :| 0 <= i < |b| && b[i] == c;
      assert (a + b)[|a| + i] == c;
    }
  }

  lemma DecimalWithout(n: nat, c: char)
    requires !IsDigit(c)
    ensures c !in Decimal(n)
  {
    DecimalIsCanonical(n);
    hide Decimal;
    assert forall d :: d in Decimal(n) ==> IsDigit(d);
  }

  lemma ExtraWithout(n: nat, c: char)
    requires c == '\n' || c == '|'
    ensures c !in " and " + Decimal(n) + " more"
  {
    DecimalWithout(n, c);
    hide Decimal;
    WithoutConcat(" and ", Decimal(n), c);
    WithoutConcat(" and " + Decimal(n), " more", c);
  }

  lemma ShortListWithout(shas: seq<string>, shown: seq<string>, c: char)
    requires shown != [] && forall s :: s in shown ==> s in shas && IsCommitSha(s)
    requires c == '\n' || c == '|'
    ensures Join(Map(ShortShas(), shown), ", ") != [] && c !in Join(Map(ShortShas(), shown), ", ")
  {
    var parts := Map(ShortShas(), shown);
    hide Shorten;
    hide IsCommitSha;
    forall p | p in parts
      ensures c !in p && p != []
    {
      var i :| 0 <= i < |parts| && parts[i] == p;
      ShortIsHex(shown, shown[i], c);
    }
    assert parts[0] in parts;
    JoinWithout(parts, ", ", c);
    JoinSomething(parts, ", ");
  }

  lemma CommitListWithout(shas: seq<string>, c: char)
    requires forall s :: s in shas ==> IsCommitSha(s)
    requires c == '\n' || c == '|'
    ensures CommitList(shas) != [] && c !in CommitList(shas)
  {
    if shas != [] {
      var shown := if |shas| > MAX_ROW_COMMITS then shas[..MAX_ROW_COMMITS] else shas;
      ShortListWithout(shas, shown, c);
      ExtraWithout(|shas| - |shown|, c);
      hide Decimal;
      hide Join;
      hide IsCommitSha;
      hide Map;
      WithoutConcat(Join(Map(ShortShas(), shown), ", "),
        if |shas| > |shown| then " and " + Decimal(|shas| - |shown|) + " more" else "", c);
    }
  }

  lemma ShortIsHex(shas: seq<string>, sha: string, c: char)
    requires sha in shas && forall s :: s in shas ==> IsCommitSha(s)
    requires c == '\n' || c == '|'
    ensures c !in Shorten(sha) && Shorten(sha) != []
  {
    assert IsCommitSha(sha);
    assert forall k :: 0 <= k < |Shorten(sha)| ==> Shorten(sha)[k] == sha[k];
  }

  lemma LinkOneLine(text: string, ref: string)
    requires '\n' !in text && '\n' !in ref
    ensures '\n' !in "[" + text + "][" + ref + "]"
  {
    WithoutConcat("[", text, '\n');
    WithoutConcat("[" + text, "][", '\n');
    WithoutConcat("[" + text + "][", ref, '\n');
    WithoutConcat("[" + text + "][" + ref, "]", '\n');
  }

  lemma LabelOneLine(letter: char -> bool, row: Row, ref: nat)
    ensures '\n' !in RowLabel(letter, row, ref)
  {
    hide Clip;
    hide Title;
    hide InlineText;
    hide Decimal;
    if row.listed {
      var title := InlineText(letter, Clip(Title(row), MAX_TITLE));
      InlineOneLine(letter, Clip(Title(row), MAX_TITLE));
      DecimalWithout(ref, '\n');
      LinkOneLine(title, Decimal(ref));
      assert RowLabel(letter, row, ref) == "[" + title + "][" + Decimal(ref) + "]";
    } else {
      assert '\n' !in READ_LABEL;
    }
  }

  lemma HandleOneLine(letter: char -> bool, author: string)
    ensures '\n' !in Handle(letter, author)
  {
    InlineOneLine(letter, author);
    hide InlineText;
    hide TrimSpace;
  }

  // A row is a line of its own whose commits cell is not empty.
  ghost predicate IsRow(t: string) {
    Newlines(t) == 1 && |t| > 6 && t[|t| - 1] == '\n' && t[|t| - 4] != '|'
  }

  lemma RowShape(l: string, h: string, c: string)
    requires '\n' !in l && '\n' !in h && '\n' !in c && c != [] && '|' !in c
    ensures IsRow("| " + l + " | " + h + " | " + c + " |\n")
  {
    WithoutConcat("| ", l, '\n');
    WithoutConcat("| " + l, " | ", '\n');
    WithoutConcat("| " + l + " | ", h, '\n');
    WithoutConcat("| " + l + " | " + h, " | ", '\n');
    var front := "| " + l + " | " + h + " | ";
    WithoutConcat(front, c, '\n');
    var t := front + c + " |\n";
    NoNewlines(front + c);
    NewlinesConcat(front + c, " |\n");
    NewlinesConcat(" |", "\n");
    assert " |" + "\n" == " |\n" && "\n"[1..] == [] && Newlines("\n") == 1;
    NoNewlines(" |");
    assert t[|t| - 4] == c[|c| - 1];
    assert c[|c| - 1] in c;
  }

  lemma RowIsRow(letter: char -> bool, row: Row, ref: nat, shas: seq<string>)
    requires forall s :: s in shas ==> IsCommitSha(s)
    ensures IsRow(RowText(letter, row, ref, shas))
  {
    hide RowLabel;
    hide Handle;
    hide CommitList;
    hide IsRow;
    LabelOneLine(letter, row, ref);
    HandleOneLine(letter, row.author);
    CommitListWithout(shas, '\n');
    CommitListWithout(shas, '|');
    RowShape(RowLabel(letter, row, ref), Handle(letter, row.author), CommitList(shas));
  }

  lemma {:induction false} RowsAreRows(letter: char -> bool, rows: seq<Row>, traced: seq<(string, string)>)
    requires forall t :: t in traced ==> IsCommitSha(t.1)
    ensures forall l :: l in Lines(letter, rows, traced) ==> IsRow(l.text)
  {
    hide RowText;
    hide RowDef;
    hide IsRow;
    if rows != [] {
      var n := |rows| - 1;
      RowsAreRows(letter, rows[..n], traced);
      CommitsAreTraced(traced, rows[n].tid);
      RowIsRow(letter, rows[n], CountListed(rows), CommitsOf(traced, rows[n].tid));
    }
  }

  lemma {:induction false} CommitsAreTraced(traced: seq<(string, string)>, tid: string)
    requires forall t :: t in traced ==> IsCommitSha(t.1)
    ensures forall s :: s in CommitsOf(traced, tid) ==> IsCommitSha(s)
  {
    hide IsCommitSha;
    if traced != [] {
      var n := |traced| - 1;
      assert traced[n] in traced;
      CommitsAreTraced(traced[..n], tid);
    }
  }

  // ---- reading the table ----

  lemma {:induction false} RowsRead(lines: seq<Line>)
    requires forall l :: l in lines ==> IsRow(l.text)
    ensures Newlines(LineTexts(lines)) == |lines|
    ensures lines != [] ==> IsRowEnd(LineTexts(lines))
  {
    if lines != [] {
      var n := |lines| - 1;
      assert lines[n] in lines;
      RowsRead(lines[..n]);
      NewlinesConcat(LineTexts(lines[..n]), lines[n].text);
    }
  }

  ghost predicate IsRowEnd(t: string) { |t| > 6 && t[|t| - 1] == '\n' && t[|t| - 4] != '|' }

  lemma RowEndAppend(a: string, b: string)
    requires IsRowEnd(b)
    ensures IsRowEnd(a + b)
  {
    var t := a + b;
    assert t[|t| - 4] == b[|b| - 4] && t[|t| - 1] == b[|b| - 1];
  }

  lemma OneBreak()
    ensures Newlines("\n") == 1
  {
    assert "\n"[1..] == [];
  }

  lemma HeadShape(a: string, b: string)
    requires '\n' !in a && '\n' !in b && |b| > 6 && b[|b| - 3] != '|'
    ensures Newlines("\n" + a + "\n" + b + "\n") == 3 && IsRowEnd("\n" + a + "\n" + b + "\n")
  {
    HeadLines(a, b);
    hide Newlines;
    var t := "\n" + a + "\n" + b + "\n";
    assert t[|t| - 4] == b[|b| - 3];
  }

  lemma HeadLines(a: string, b: string)
    requires '\n' !in a && '\n' !in b
    ensures Newlines("\n" + a + "\n" + b + "\n") == 3
  {
    OneBreak();
    NoNewlines(a);
    NoNewlines(b);
    hide Newlines;
    NewlinesConcat("\n" + a + "\n" + b, "\n");
    NewlinesConcat("\n" + a + "\n", b);
    NewlinesConcat("\n" + a, "\n");
    NewlinesConcat("\n", a);
  }

  lemma HeadRead()
    ensures Newlines(TABLE_HEAD) == 3 && IsRowEnd(TABLE_HEAD)
  {
    assert '\n' !in TABLE_TITLES;
    assert '\n' !in TABLE_RULE && |TABLE_RULE| > 6 && TABLE_RULE[|TABLE_RULE| - 3] == '-';
    hide Newlines;
    hide IsRowEnd;
    HeadShape(TABLE_TITLES, TABLE_RULE);
  }

  // The line that counts the rest, without its line break.
  function RestLine(plural: string): string { "| [" + plural + " on village][pr] | | |" }

  lemma RestLineIs(plural: string)
    requires '\n' !in plural
    ensures "| [" + plural + " on village][pr] | | |\n" == RestLine(plural) + "\n"
    ensures '\n' !in RestLine(plural) && EndsIn(RestLine(plural) + "\n", NO_CELLS)
  {
    WithoutConcat("| [", plural, '\n');
    WithoutConcat("| [" + plural, " on village][pr] | | |", '\n');
    var tail := " on village][pr] | | |";
    assert tail + "\n" == " on village][pr] | | |\n";
    assert |tail| == 22 && tail[17..] == "| | |";
    var t := RestLine(plural) + "\n";
    assert t == ("| [" + plural) + (tail + "\n");
  }

  lemma MoreRowRead(n: nat)
    requires n >= 1
    ensures exists line ::
        MoreRow(n) == line + "\n" && '\n' !in line && NumberIn(line) == n && EndsIn(MoreRow(n), NO_CELLS)
  {
    PluralOneLine(n, "more transcript");
    PluralReadsBack("| [", n, "more transcript", " on village][pr] | | |");
    hide Plural;
    hide NumberIn;
    RestLineIs(Plural(n, "more transcript"));
    hide EndsIn;
    var line := RestLine(Plural(n, "more transcript"));
    assert MoreRow(n) == line + "\n";
  }

  lemma NoCellsBar(t: string)
    requires EndsIn(t, NO_CELLS)
    ensures |t| >= 6 && t[|t| - 4] == '|'
  {
    assert t[|t| - 6..][2] == NO_CELLS[2];
  }

  lemma NotTheRest(t: string)
    requires IsRowEnd(t)
    ensures !EndsIn(t, NO_CELLS)
  {
    if EndsIn(t, NO_CELLS) {
      NoCellsBar(t);
    }
  }

  lemma EndsInAppend(a: string, b: string, end: string)
    requires EndsIn(b, end)
    ensures EndsIn(a + b, end)
  {
    var s := a + b;
    assert s[|s| - |end|..] == b[|b| - |end|..];
  }

  // The rows of a table and the number in its last line are all transcripts.
  lemma TableReads(lines: seq<Line>, kept: nat)
    requires kept <= |lines| && forall l :: l in lines ==> IsRow(l.text)
    ensures TableCount(Table(lines, kept)) == |lines|
    ensures lines != [] ==> Newlines(LineTexts(lines[..kept])) == kept
  {
    if lines != [] {
      var rows := LineTexts(lines[..kept]);
      assert forall l :: l in lines[..kept] ==> l in lines;
      RowsRead(lines[..kept]);
      HeadRead();
      hide TABLE_HEAD;
      hide IsRow;
      hide LineTexts;
      NewlinesConcat(TABLE_HEAD, rows);
      if kept == |lines| {
        FullTableReads(lines, rows);
      } else {
        CutTableReads(lines, kept, rows);
      }
    }
  }

  lemma FullTableReads(lines: seq<Line>, rows: string)
    requires lines != [] && rows == LineTexts(lines[..|lines|]) && IsRowEnd(rows)
    requires Newlines(TABLE_HEAD + rows) == 3 + |lines|
    ensures TableCount(Table(lines, |lines|)) == |lines|
  {
    var t := TABLE_HEAD + rows;
    hide TABLE_HEAD;
    assert Table(lines, |lines|) == t by {
      assert t + "" == t;
    }
    assert t[|t| - 4] == rows[|rows| - 4] && t[|t| - 1] == rows[|rows| - 1];
    NotTheRest(t);
  }

  lemma CountWithRest(front: string, n: nat)
    requires n >= 1 && IsRowEnd(front)
    ensures TableCount(front + MoreRow(n)) == Newlines(front) - 3 + n
  {
    MoreRowRead(n);
    hide *;
    var line :| MoreRow(n) == line + "\n" && '\n' !in line && NumberIn(line) == n && EndsIn(MoreRow(n), NO_CELLS);
    CountWithLine(front, line, NO_CELLS);
    CountIs(front + (line + "\n"));
  }

  lemma CountWithLine(front: string, line: string, end: string)
    requires IsRowEnd(front) && '\n' !in line && EndsIn(line + "\n", end)
    ensures var t := front + (line + "\n");
            t != "" && EndsIn(t, end) && Newlines(t) == Newlines(front) + 1 && LastLine(t[..|t| - 1]) == line
  {
    EndsInAppend(front, line + "\n", end);
    hide EndsIn;
    hide Newlines;
    hide LastLine;
    LastLineRead(front, line);
  }

  lemma CountIs(t: string)
    requires t != "" && EndsIn(t, NO_CELLS)
    ensures TableCount(t) == Newlines(t) - 4 + NumberIn(LastLine(t[..|t| - 1]))
  {
    hide Newlines;
    hide NumberIn;
    hide LastLine;
  }

  lemma CutTableReads(lines: seq<Line>, kept: nat, rows: string)
    requires kept < |lines| && rows == LineTexts(lines[..kept]) && (kept == 0 ==> rows == "")
        && (kept > 0 ==> IsRowEnd(rows))
    requires IsRowEnd(TABLE_HEAD) && Newlines(TABLE_HEAD + rows) == 3 + kept
    ensures TableCount(Table(lines, kept)) == |lines|
  {
    hide TABLE_HEAD;
    hide MoreRow;
    hide TableCount;
    hide Newlines;
    var front := TABLE_HEAD + rows;
    if kept == 0 {
      assert front == TABLE_HEAD;
    } else {
      RowEndAppend(TABLE_HEAD, rows);
    }
    hide IsRowEnd;
    CountWithRest(front, |lines| - kept);
    assert Table(lines, kept) == front + MoreRow(|lines| - kept);
  }

  lemma LastLineRead(front: string, line: string)
    requires front != [] && front[|front| - 1] == '\n' && '\n' !in line
    ensures Newlines(front + (line + "\n")) == Newlines(front) + 1
    ensures var t := front + (line + "\n"); t != "" && LastLine(t[..|t| - 1]) == line
  {
    OneBreak();
    NewlinesConcat(front, line + "\n");
    NewlinesConcat(line, "\n");
    NoNewlines(line);
    var t := front + (line + "\n");
    assert t[..|t| - 1] == front + line;
    LastLineOf(front, line);
  }

  // ---- the details block, line by line ----

  // Whole lines, of which this many begin with a digit and none with a bracket.
  ghost predicate Numbered(t: string, n: nat) {
    && (t != [] ==> t[|t| - 1] == '\n')
    && Starts(ADigit(), t, true) == n && Starts(ABracket(), t, true) == 0
  }

  lemma NumberedConcat(a: string, m: nat, b: string, n: nat)
    requires Numbered(a, m) && Numbered(b, n)
    ensures Numbered(a + b, m + n)
  {
    StartsConcat(ADigit(), a, b, true);
    StartsConcat(ABracket(), a, b, true);
  }

  lemma NumberedLine(line: string)
    requires '\n' !in line && (line != [] ==> line[0] != '[')
    ensures Numbered(line + "\n", if line != [] && IsDigit(line[0]) then 1 else 0)
  {
    StartsLine(ADigit(), line, true);
    StartsLine(ABracket(), line, true);
  }

  lemma NothingNumbered()
    ensures Numbered("", 0) && Numbered("\n", 0)
  {
    assert "\n"[1..] == [];
  }

  lemma DashNumbered(indent: string, text: string)
    requires '\n' !in text && forall i :: 0 <= i < |indent| ==> indent[i] == ' '
    ensures Numbered(indent + ("- " + text + "\n"), 0)
  {
    var line := indent + ("- " + text);
    WithoutConcat("- ", text, '\n');
    WithoutConcat(indent, "- " + text, '\n');
    assert line[0] == ' ' || line[0] == '-';
    hide Numbered;
    NumberedLine(line);
    assert indent + ("- " + text + "\n") == line + "\n";
  }

  lemma EntryNumbered(letter: char -> bool, indent: string, item: Item)
    requires forall i :: 0 <= i < |indent| ==> indent[i] == ' '
    ensures Numbered(indent + Entry(letter, item), 0)
  {
    InlineOneLine(letter, Clip(SkillText(item), MAX_PROMPT));
    hide InlineText;
    hide Clip;
    hide SkillText;
    hide Numbered;
    DashNumbered(indent, InlineText(letter, Clip(SkillText(item), MAX_PROMPT)));
  }

  // The line a prompt is printed on.
  function PromptLine(letter: char -> bool, item: Item): string {
    Marker(item.ordinal) + InlineText(letter, Clip(item.text, MAX_PROMPT)) + "\n"
  }

  lemma PromptNumbered(letter: char -> bool, item: Item)
    ensures Numbered(PromptLine(letter, item), 1)
  {
    var n := if item.ordinal.Some? then item.ordinal.value else 0;
    InlineOneLine(letter, Clip(item.text, MAX_PROMPT));
    hide InlineText;
    hide Clip;
    hide Decimal;
    hide Numbered;
    NumberThenText(n, InlineText(letter, Clip(item.text, MAX_PROMPT)));
  }

  lemma NumberThenText(n: nat, text: string)
    requires '\n' !in text
    ensures Numbered(Decimal(n) + ". " + text + "\n", 1)
  {
    DecimalIsCanonical(n);
    DecimalWithout(n, '\n');
    hide Decimal;
    var d := Decimal(n);
    assert d != [] && IsDigit(d[0]);
    WithoutConcat(d, ". ", '\n');
    WithoutConcat(d + ". ", text, '\n');
    hide Numbered;
    NumberedLine(d + ". " + text);
  }

  ghost predicate BlockNumbered(b: Block) { Numbered(b.text, if b.prompt then 1 else 0) }

  ghost predicate BlocksGood(b: Blocks) {
    && (forall i :: 0 <= i < |b.list| ==> BlockNumbered(b.list[i]))
    && (forall i :: 0 <= i < |b.indent| ==> b.indent[i] == ' ')
  }

  lemma {:induction false} BlocksNumbered(letter: char -> bool, items: seq<Item>)
    ensures BlocksGood(BlocksOf(letter, items))
  {
    if items != [] {
      var n := |items| - 1;
      BlocksNumbered(letter, items[..n]);
      hide BlocksGood;
      hide AddBlock;
      BlockAdded(letter, BlocksOf(letter, items[..n]), items[n]);
    }
  }

  lemma BlockAdded(letter: char -> bool, b: Blocks, item: Item)
    requires BlocksGood(b)
    ensures BlocksGood(AddBlock(letter, b, item))
  {
    match item.kind
    case PromptItem => PromptAdded(letter, b, item);
    case SkillItem => SkillAdded(letter, b, item);
    case SessionItem =>
    case CommitItem =>
  }

  lemma PromptAdded(letter: char -> bool, b: Blocks, item: Item)
    requires BlocksGood(b) && item.kind == PromptItem
    ensures BlocksGood(AddBlock(letter, b, item))
  {
    PromptNumbered(letter, item);
    hide Numbered;
    hide InlineText;
    hide Clip;
    hide Marker;
  }

  lemma TextGrown(b: Block, added: string)
    requires BlockNumbered(b) && Numbered(added, 0)
    ensures BlockNumbered(b.(text := b.text + added))
  {
    hide Numbered;
    NumberedConcat(b.text, if b.prompt then 1 else 0, added, 0);
  }

  lemma SkillAdded(letter: char -> bool, b: Blocks, item: Item)
    requires BlocksGood(b) && item.kind == SkillItem
    ensures BlocksGood(AddBlock(letter, b, item))
  {
    hide Numbered;
    EntryNumbered(letter, "", item);
    EntryNumbered(letter, b.indent, item);
    hide Entry;
    assert "" + Entry(letter, item) == Entry(letter, item);
    if b.list == [] {
      assert BlockNumbered(Block(Entry(letter, item), false));
    } else {
      var last := b.list[|b.list| - 1];
      TextGrown(last, if last.prompt then b.indent + Entry(letter, item) else Entry(letter, item));
    }
  }

  lemma {:induction false} BlocksRead(blocks: seq<Block>)
    requires forall i :: 0 <= i < |blocks| ==> BlockNumbered(blocks[i])
    ensures Numbered(BlockTexts(blocks), PromptBlocks(blocks))
  {
    hide Numbered;
    NothingNumbered();
    if blocks != [] {
      var n := |blocks| - 1;
      var b := blocks[n];
      BlocksRead(blocks[..n]);
      assert BlockNumbered(b);
      if !b.prompt {
        NumberedConcat(b.text, 0, "\n", 0);
      }
      NumberedConcat(BlockTexts(blocks[..n]), PromptBlocks(blocks[..n]), BlockText(b), if b.prompt then 1 else 0);
    }
  }

  lemma FourLines(a: string, b: string)
    requires Numbered(a + "\n", 0) && Numbered(b + "\n", 0)
    ensures Numbered("\n" + a + "\n" + b + "\n\n", 0)
  {
    NothingNumbered();
    hide Numbered;
    NumberedConcat("\n", 0, a + "\n", 0);
    NumberedConcat("\n" + (a + "\n"), 0, b + "\n", 0);
    NumberedConcat("\n" + (a + "\n") + (b + "\n"), 0, "\n", 0);
    assert "\n" + a + "\n" + b + "\n\n" == "\n" + (a + "\n") + (b + "\n") + "\n";
  }

  lemma SummaryNumbered(summary: string)
    requires '\n' !in summary
    ensures Numbered("<summary>" + summary + "</summary>" + "\n", 0)
  {
    WithoutConcat("<summary>", summary, '\n');
    WithoutConcat("<summary>" + summary, "</summary>", '\n');
    hide Numbered;
    NumberedLine("<summary>" + summary + "</summary>");
  }

  lemma OpenNumbered(total: nat)
    ensures Numbered(DetailsOpen(total), 0)
  {
    if total > 0 {
      PluralOneLine(total, "prompt");
    }
    assert '\n' !in Summary(total);
    hide Summary;
    hide Numbered;
    SummaryNumbered(Summary(total));
    NumberedLine("<details>");
    var summary := "<summary>" + Summary(total) + "</summary>";
    FourLines("<details>", summary);
    OpenIs(total);
  }

  lemma OpenIs(total: nat)
    ensures DetailsOpen(total) ==
        "\n" + "<details>" + "\n" + ("<summary>" + Summary(total) + "</summary>") + "\n\n"
  {
    hide Summary;
    assert "\n" + "<details>" + "\n" + "<summary>" == "\n<details>\n<summary>";
    assert "</summary>" + "\n\n" == "</summary>\n\n";
  }

  lemma CloseNumbered()
    ensures Numbered(DETAILS_CLOSE, 0)
  {
    NothingNumbered();
    NumberedLine("</details>");
    NumberedConcat("\n", 0, "</details>" + "\n", 0);
    assert DETAILS_CLOSE == "\n" + ("</details>" + "\n");
  }

  // The line that counts the prompts left out holds that number in brackets.
  lemma MoreLineRead(n: nat, rest: string)
    ensures Bracketed(MoreLine(n) + rest, true) == n
    ensures Starts(ADigit(), MoreLine(n), true) == 0 && MoreLine(n)[|MoreLine(n)| - 1] == '\n'
  {
    DecimalWithout(n, '\n');
    hide Decimal;
    var line := "[" + Decimal(n) + " more on village][pr]";
    WithoutConcat("[", Decimal(n), '\n');
    WithoutConcat("[" + Decimal(n), " more on village][pr]", '\n');
    assert MoreLine(n) == "\n" + (line + "\n");
    var t := MoreLine(n) + rest;
    assert t[1..] == "[" + Decimal(n) + (" more on village][pr]\n" + rest);
    NumberReadsBack("[", n, " more on village][pr]\n" + rest);
    StartsConcat(ADigit(), "\n", line + "\n", true);
    StartsLine(ADigit(), line, true);
    assert "\n"[1..] == [];
  }

  // The details block with this many blocks written.
  function DetailsText(blocks: seq<Block>, total: nat, emitted: nat): string
    requires emitted <= |blocks|
  {
    var inlined := PromptBlocks(blocks[..emitted]);
    DetailsOpen(total) + BlockTexts(blocks[..emitted]) + (if total > inlined then MoreLine(total - inlined) else "")
      + DETAILS_CLOSE
  }

  // In a details block the lines that begin with a digit are the inlined
  // prompts, the bracketed number the prompts left out, and the first number of
  // all their total.
  lemma DetailsRead(letter: char -> bool, items: seq<Item>, emitted: nat)
    requires emitted <= |BlocksOf(letter, items).list|
    ensures var blocks, total := BlocksOf(letter, items).list, CountKind(PromptItem, items);
            var t, inlined := DetailsText(blocks, total, emitted), PromptBlocks(blocks[..emitted]);
            && inlined <= total
            && Starts(ADigit(), t, true) == inlined && Bracketed(t, true) == total - inlined
            && (total > 0 ==> NumberIn(t) == total)
  {
    var blocks, total := BlocksOf(letter, items).list, CountKind(PromptItem, items);
    BlocksNumbered(letter, items);
    BlocksCountPrompts(letter, items);
    PromptBlocksPrefix(blocks, emitted);
    hide BlocksOf;
    hide CountKind;
    forall i | 0 <= i < emitted
      ensures BlockNumbered(blocks[..emitted][i])
    {
      assert blocks[..emitted][i] == blocks[i];
    }
    BlocksRead(blocks[..emitted]);
    DetailsTextRead(blocks, total, emitted);
  }

  lemma DetailsTextRead(blocks: seq<Block>, total: nat, emitted: nat)
    requires emitted <= |blocks| && PromptBlocks(blocks[..emitted]) <= total
    requires Numbered(BlockTexts(blocks[..emitted]), PromptBlocks(blocks[..emitted]))
    ensures var t, inlined := DetailsText(blocks, total, emitted), PromptBlocks(blocks[..emitted]);
            && Starts(ADigit(), t, true) == inlined && Bracketed(t, true) == total - inlined
            && (total > 0 ==> NumberIn(t) == total)
  {
    hide *;
    DetailsTextIs(blocks, total, emitted);
    DetailsLinesRead(total, BlockTexts(blocks[..emitted]), PromptBlocks(blocks[..emitted]));
    if total > 0 {
      DetailsTotalRead(total, BlockTexts(blocks[..emitted]), PromptBlocks(blocks[..emitted]));
    }
  }

  lemma DetailsTextIs(blocks: seq<Block>, total: nat, emitted: nat)
    requires emitted <= |blocks|
    ensures var texts, inlined := BlockTexts(blocks[..emitted]), PromptBlocks(blocks[..emitted]);
            DetailsText(blocks, total, emitted) ==
              DetailsOpen(total) + texts + (if total > inlined then MoreLine(total - inlined) else "") + DETAILS_CLOSE
  {
    hide DetailsOpen;
    hide MoreLine;
    hide BlockTexts;
    hide PromptBlocks;
    hide DETAILS_CLOSE;
  }

  lemma DetailsTotalRead(total: nat, texts: string, inlined: nat)
    requires 0 < total && inlined <= total
    ensures NumberIn(DetailsOpen(total) + texts + (if total > inlined then MoreLine(total - inlined) else "")
        + DETAILS_CLOSE) == total
  {
    hide DetailsOpen;
    hide MoreLine;
    hide NumberIn;
    hide DETAILS_CLOSE;
    var more := if total > inlined then MoreLine(total - inlined) else "";
    TotalRead(total, texts + (more + DETAILS_CLOSE));
    assert DetailsOpen(total) + texts + more + DETAILS_CLOSE == DetailsOpen(total) + (texts + (more + DETAILS_CLOSE));
  }

  lemma TotalRead(total: nat, rest: string)
    requires total > 0
    ensures NumberIn(DetailsOpen(total) + rest) == total
  {
    var open, p, end := "\n<details>\n<summary>", Plural(total, "prompt"), "</summary>\n\n";
    PluralReadsBack(open, total, "prompt", end + rest);
    hide Plural;
    hide NumberIn;
    assert DetailsOpen(total) == open + p + end;
    hide DetailsOpen;
    Regrouped(open + p, end, rest);
  }

  lemma Regrouped(a: string, b: string, c: string)
    ensures a + (b + c) == a + b + c
  {
  }

  lemma DetailsLinesRead(total: nat, texts: string, inlined: nat)
    requires inlined <= total && Numbered(texts, inlined)
    ensures var t := DetailsOpen(total) + texts + (if total > inlined then MoreLine(total - inlined) else "")
        + DETAILS_CLOSE;
            Starts(ADigit(), t, true) == inlined && Bracketed(t, true) == total - inlined
  {
    OpenNumbered(total);
    CloseNumbered();
    hide DetailsOpen;
    hide DETAILS_CLOSE;
    NumberedConcat(DetailsOpen(total), 0, texts, inlined);
    var front := DetailsOpen(total) + texts;
    if total > inlined {
      MoreLineRead(total - inlined, DETAILS_CLOSE);
      hide MoreLine;
      FrontThenMore(front, inlined, MoreLine(total - inlined), total - inlined);
    } else {
      NumberedConcat(front, inlined, DETAILS_CLOSE, 0);
      BracketedNone(front + DETAILS_CLOSE, true);
      assert front + "" == front;
    }
  }

  lemma FrontThenMore(front: string, inlined: nat, more: string, n: nat)
    requires Numbered(front, inlined) && Numbered(DETAILS_CLOSE, 0)
    requires Bracketed(more + DETAILS_CLOSE, true) == n
    requires more != [] && Starts(ADigit(), more, true) == 0 && more[|more| - 1] == '\n'
    ensures Starts(ADigit(), front + more + DETAILS_CLOSE, true) == inlined
        && Bracketed(front + more + DETAILS_CLOSE, true) == n
  {
    hide DETAILS_CLOSE;
    hide Starts;
    hide Bracketed;
    assert front + more + DETAILS_CLOSE == front + (more + DETAILS_CLOSE);
    StartsConcat(ADigit(), front, more + DETAILS_CLOSE, true);
    StartsConcat(ADigit(), more, DETAILS_CLOSE, true);
    BracketedAfter(front, more + DETAILS_CLOSE, true);
  }
}

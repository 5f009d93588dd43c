// What every rendering keeps: its byte cap, its counts, its table, and its
// silence about transcripts that are not listed.
module RenderTheorems {
  import opened Sequences
  import opened Text
  import opened Inline
  import opened DigestModel
  import opened RenderModel

  // ---- byte accounting ----

  lemma Bytes3(a: string, b: string, c: string)
    ensures Bytes(a + b + c) == Bytes(a) + Bytes(b) + Bytes(c)
  {
    BytesConcat(a + b, c);
    BytesConcat(a, b);
  }

  lemma PluralMonotone(m: nat, n: nat, noun: string)
    requires 1 <= m <= n
    ensures Bytes(Plural(m, noun)) <= Bytes(Plural(n, noun))
  {
    DecimalBytes(m);
    DecimalBytes(n);
    DecimalMonotone(m, n);
    DecimalMonotone(1, n);
    DecimalBytes(1);
    BytesConcat(Decimal(n) + " " + noun, "s");
    Bytes3(Decimal(n), " ", noun);
    BytesConcat(Decimal(m) + " " + noun, "s");
    Bytes3(Decimal(m), " ", noun);
    assert "1 " == Decimal(1) + " ";
    BytesConcat("1 ", noun);
    BytesConcat(Decimal(1), " ");
  }

  // Counting fewer never takes more bytes: the reserves suffice.
  lemma MoreRowMonotone(m: nat, n: nat)
    requires 1 <= m <= n
    ensures Bytes(MoreRow(m)) <= Bytes(MoreRow(n))
  {
    var noun := "more transcript";
    PluralMonotone(m, n, noun);
    Bytes3("| [", Plural(m, noun), " on village][pr] | | |\n");
    Bytes3("| [", Plural(n, noun), " on village][pr] | | |\n");
  }

  lemma MoreLineMonotone(m: nat, n: nat)
    requires m <= n
    ensures Bytes(MoreLine(m)) <= Bytes(MoreLine(n))
  {
    DecimalBytes(m);
    DecimalBytes(n);
    DecimalMonotone(m, n);
    Bytes3("\n[", Decimal(m), " more on village][pr]\n");
    Bytes3("\n[", Decimal(n), " more on village][pr]\n");
  }

  // ---- the table fits ----

  // The bytes of the rows from i to k.
  function RowsBytes(lines: seq<Line>, k: nat): nat
    requires k <= |lines|
  {
    Bytes(LineTexts(lines[..k])) + Bytes(LineDefs(lines[..k]))
  }

  lemma RowsBytesStep(lines: seq<Line>, i: nat)
    requires i < |lines|
    ensures RowsBytes(lines, i + 1) == RowsBytes(lines, i) + LineBytes(lines[i])
  {
    assert lines[..i + 1][..i] == lines[..i];
    BytesConcat(LineTexts(lines[..i]), lines[i].text);
    BytesConcat(LineDefs(lines[..i]), lines[i].def);
  }

  lemma NoRowsNoBytes(lines: seq<Line>)
    ensures RowsBytes(lines, 0) == 0
  {
  }

  lemma NoBytes()
    ensures Bytes("") == 0
  {
  }

  function RestRow(lines: seq<Line>, k: nat): nat
    requires k <= |lines|
  {
    if k < |lines| then Bytes(MoreRow(|lines| - k)) else 0
  }

  // Once one row is kept, the kept rows and the row counting the rest fit.
  lemma {:induction false} KeptRowsFit(lines: seq<Line>, i: nat, base: nat, max: nat)
    requires i <= |lines| && max > 0
    requires i > 0 ==> base + RowsBytes(lines, i) + RestRow(lines, i) <= max
    ensures var k := KeptRows(lines, i, base + RowsBytes(lines, i), max);
            k > 0 ==> base + RowsBytes(lines, k) + RestRow(lines, k) <= max
    decreases |lines| - i
  {
    hide MoreRow;
    hide Bytes;
    if i < |lines| && base + RowsBytes(lines, i) + LineBytes(lines[i]) + Reserve(lines, i) <= max {
      RowsBytesStep(lines, i);
      if i + 1 < |lines| {
        MoreRowMonotone(|lines| - (i + 1), |lines| - i);
      }
      KeptRowsFit(lines, i + 1, base, max);
    }
  }

  lemma TableBytes(lines: seq<Line>, kept: nat)
    requires kept <= |lines| && lines != []
    ensures Bytes(Table(lines, kept)) == Bytes(TABLE_HEAD) + Bytes(LineTexts(lines[..kept])) + RestRow(lines, kept)
  {
    assert Bytes("") == 0;
    hide Bytes;
    hide LineTexts;
    hide MoreRow;
    hide TABLE_HEAD;
    Bytes3(TABLE_HEAD, LineTexts(lines[..kept]), if kept < |lines| then MoreRow(|lines| - kept) else "");
  }

  lemma LayoutBytes(l: Layout)
    ensures Bytes(Fixed(l)) + Bytes(Tail(l)) == Bytes(l.head) + Bytes(l.table) + Bytes(l.footer) + 1 + Bytes(l.defs)
  {
    BytesConcat(l.head, l.table);
    Bytes3(l.footer, "\n", l.defs);
    assert Bytes("\n") == 1;
  }

  // The size of everything but the details block, row by row.
  lemma LayoutSize(lines: seq<Line>, kept: nat, head: string, footer: string, prDef: string)
    requires kept <= |lines|
    ensures var l := Layout(head, Table(lines, kept), footer, LineDefs(lines[..kept]) + prDef);
            Bytes(Fixed(l)) + Bytes(Tail(l)) ==
            if lines == [] then Bytes(head) + Bytes(footer) + 1 + Bytes(prDef)
            else Base(head, footer, prDef) + RowsBytes(lines, kept) + RestRow(lines, kept)
  {
    assert Bytes("") == 0;
    hide Bytes;
    hide TABLE_HEAD;
    var l := Layout(head, Table(lines, kept), footer, LineDefs(lines[..kept]) + prDef);
    LayoutBytes(l);
    BytesConcat(LineDefs(lines[..kept]), prDef);
    if lines != [] {
      TableBytes(lines, kept);
    } else {
      assert lines[..kept] == [];
    }
  }

  // What the frame alone must hold before any row can be laid out.
  ghost predicate FrameTooSmall(lines: seq<Line>, head: string, footer: string, prDef: string, max: nat) {
    if lines == [] then Bytes(head) + Bytes(footer) + 1 + Bytes(prDef) > max
    else
      && Base(head, footer, prDef) + Bytes(MoreRow(|lines|)) > max
      && Base(head, footer, prDef) + LineBytes(lines[0]) + Reserve(lines, 0) > max
  }

  // The table is refused exactly when not even the row counting every
  // transcript fits the frame: one row kept is always enough.
  lemma TableRefusedExactly(lines: seq<Line>, head: string, footer: string, prDef: string, max: nat)
    requires max > 0
    ensures var kept := KeptRows(lines, 0, Base(head, footer, prDef), max);
            var l := Layout(head, Table(lines, kept), footer, LineDefs(lines[..kept]) + prDef);
            Bytes(Fixed(l)) + Bytes(Tail(l)) > max <==> FrameTooSmall(lines, head, footer, prDef, max)
  {
    hide MoreRow;
    hide Bytes;
    hide Base;
    var base := Base(head, footer, prDef);
    var kept := KeptRows(lines, 0, base, max);
    NoRowsNoBytes(lines);
    KeptRowsFit(lines, 0, base, max);
    LayoutSize(lines, kept, head, footer, prDef);
  }

  // ---- the details block fits ----

  lemma BlockTextsStep(blocks: seq<Block>, i: nat)
    requires i < |blocks|
    ensures Bytes(BlockTexts(blocks[..i + 1])) == Bytes(BlockTexts(blocks[..i])) + Bytes(BlockText(blocks[i]))
    ensures PromptBlocks(blocks[..i + 1]) == PromptBlocks(blocks[..i]) + if blocks[i].prompt then 1 else 0
  {
    assert blocks[..i + 1][..i] == blocks[..i];
    BytesConcat(BlockTexts(blocks[..i]), BlockText(blocks[i]));
  }

  lemma {:induction false} EmittedFits(blocks: seq<Block>, i: nat, tier: Tier, frame: nat, budget: int)
    requires i <= |blocks|
    requires tier.maxBytes > 0 && i > 0 ==> frame + Bytes(BlockTexts(blocks[..i])) <= budget
    requires tier.inlinePrompts > 0 ==> PromptBlocks(blocks[..i]) <= tier.inlinePrompts
    ensures var k := Emitted(blocks, i, tier, frame, budget);
            && (tier.maxBytes > 0 && k > 0 ==> frame + Bytes(BlockTexts(blocks[..k])) <= budget)
            && (tier.inlinePrompts > 0 ==> PromptBlocks(blocks[..k]) <= tier.inlinePrompts)
    decreases |blocks| - i
  {
    if i < |blocks| {
      BlockTextsStep(blocks, i);
      if Emitted(blocks, i, tier, frame, budget) != i {
        EmittedFits(blocks, i + 1, tier, frame, budget);
      }
    }
  }

  // The block list holds one block for each prompt, in order.
  lemma {:induction false} BlocksCountPrompts(letter: char -> bool, items: seq<Item>)
    ensures PromptBlocks(BlocksOf(letter, items).list) == CountKind(PromptItem, items)
  {
    if items != [] {
      var n := |items| - 1;
      var b := BlocksOf(letter, items[..n]);
      BlocksCountPrompts(letter, items[..n]);
      FilterLast(OfKind(PromptItem), items);
      var after := AddBlock(letter, b, items[n]);
      if items[n].kind == PromptItem {
        assert after.list[..|b.list|] == b.list;
      } else if items[n].kind == SkillItem {
        if b.list == [] {
          assert after.list[..0] == [];
        } else {
          var k := |b.list| - 1;
          assert after.list[..k] == b.list[..k];
        }
      }
    }
  }

  lemma {:induction false} PromptBlocksPrefix(blocks: seq<Block>, k: nat)
    requires k <= |blocks|
    ensures PromptBlocks(blocks[..k]) <= PromptBlocks(blocks)
  {
    if k == |blocks| {
      assert blocks[..k] == blocks;
    } else {
      PromptBlocksPrefix(blocks[..|blocks| - 1], k);
      assert blocks[..|blocks| - 1][..k] == blocks[..k];
    }
  }

  // A details block is within its budget and inlines at most the tier's prompts,
  // and never more than are listed.
  lemma DetailsWithin(letter: char -> bool, items: seq<Item>, tier: Tier, budget: int)
    requires tier.maxBytes > 0 ==> budget >= 0
    ensures tier.maxBytes > 0 ==> Bytes(DetailsOf(letter, items, tier, budget)) <= budget
    ensures var blocks, total := BlocksOf(letter, items).list, CountKind(PromptItem, items);
            var inlined := PromptBlocks(blocks[..Emitted(blocks, 0, tier, Frame(total), budget)]);
            inlined <= total && (tier.inlinePrompts > 0 ==> inlined <= tier.inlinePrompts)
  {
    NoBytes();
    hide Bytes;
    hide Frame;
    hide Emitted;
    var blocks, total := BlocksOf(letter, items).list, CountKind(PromptItem, items);
    var emitted := Emitted(blocks, 0, tier, Frame(total), budget);
    assert blocks[..0] == [];
    EmittedFits(blocks, 0, tier, Frame(total), budget);
    BlocksCountPrompts(letter, items);
    PromptBlocksPrefix(blocks, emitted);
    hide BlocksOf;
    hide CountKind;
    hide PromptBlocks;
    if emitted == 0 {
      assert blocks[..emitted] == [];
    }
    DetailsBytes(blocks[..emitted], total);
  }

  // A details block takes at most its frame and its blocks.
  lemma DetailsBytes(blocks: seq<Block>, total: nat)
    requires PromptBlocks(blocks) <= total
    ensures var inlined := PromptBlocks(blocks);
            Bytes(DetailsOpen(total) + BlockTexts(blocks)
                  + (if total > inlined then MoreLine(total - inlined) else "") + DETAILS_CLOSE)
              <= Frame(total) + Bytes(BlockTexts(blocks))
  {
    NoBytes();
    hide Bytes;
    hide MoreLine;
    hide DetailsOpen;
    hide PromptBlocks;
    hide BlockTexts;
    var inlined := PromptBlocks(blocks);
    var more := if total > inlined then MoreLine(total - inlined) else "";
    if total > inlined {
      MoreLineMonotone(total - inlined, total);
    }
    Bytes3(DetailsOpen(total) + BlockTexts(blocks), more, DETAILS_CLOSE);
    BytesConcat(DetailsOpen(total), BlockTexts(blocks));
  }

  // ---- the main results ----

  lemma FinishWithinCap(letter: char -> bool, d: Digest, rows: map<string, Row>, l: Layout, tier: Tier,
                        validate: Digest -> bool)
    requires tier.maxBytes > 0
    ensures Finish(letter, d, rows, l, tier, validate).Ok? ==>
        Bytes(Finish(letter, d, rows, l, tier, validate).value) <= tier.maxBytes
  {
    hide Bytes;
    hide DetailsOf;
    hide RestrictDigest;
    hide Fixed;
    hide Tail;
    if Finish(letter, d, rows, l, tier, validate).Ok? {
      var budget := tier.maxBytes - (Bytes(Fixed(l)) + Bytes(Tail(l)));
      var items := RestrictDigest(d, ListedBy(rows)).items;
      DetailsWithin(letter, items, tier, budget);
      Bytes3(Fixed(l), DetailsOf(letter, items, tier, budget), Tail(l));
    }
  }

  // A capped rendering never exceeds its cap.
  lemma RenderWithinCap(letter: char -> bool, pr: PullRequest, tier: Tier, validate: Digest -> bool)
    requires tier.maxBytes > 0
    ensures Render(letter, pr, tier, validate).Ok? ==> Bytes(Render(letter, pr, tier, validate).value) <= tier.maxBytes
  {
    hide Bytes;
    hide LayoutOf;
    hide Finish;
    var d, rows := pr.digest, RowMap(pr.rows);
    var order := RowsFor(rows, SessionIds(d.items));
    if order.Ok? {
      FinishWithinCap(letter, d, rows,
                      LayoutOf(letter, order.value, Traced(d.items), pr.commitSet, d.header.commitsCovered,
                               d.header.commitsTotal, d.header.villageUrl, tier.maxBytes),
                      tier, validate);
    }
  }

  // Whether a valid pull request renders at all is decided by its frame alone.
  lemma RenderRefusesTableExactly(letter: char -> bool, pr: PullRequest, tier: Tier, validate: Digest -> bool)
    requires validate(pr.digest) && TrimSpace(pr.digest.header.villageUrl) != ""
    requires RowsFor(RowMap(pr.rows), SessionIds(pr.digest.items)).Ok?
    ensures var order := RowsFor(RowMap(pr.rows), SessionIds(pr.digest.items)).value;
            var h, traced := pr.digest.header, Traced(pr.digest.items);
            Render(letter, pr, tier, validate).Err? && Render(letter, pr, tier, validate).error.TableOverCap? <==>
              tier.maxBytes > 0 &&
              FrameTooSmall(Lines(letter, order, traced), BoldLine(|order|, h.commitsCovered, h.commitsTotal),
                            Footer(Uncovered(pr.commitSet, Covered(traced))), PrDef(h.villageUrl), tier.maxBytes)
  {
    hide Bytes;
    hide DetailsOf;
    hide RestrictDigest;
    hide RowsFor;
    hide SessionIds;
    hide Traced;
    hide TrimSpace;
    hide Listed;
    hide RowMap;
    hide BoldLine;
    hide Footer;
    hide PrDef;
    hide Lines;
    hide KeptRows;
    hide Table;
    hide LineDefs;
    hide Fixed;
    hide Tail;
    hide FrameTooSmall;
    hide Base;
    var order := RowsFor(RowMap(pr.rows), SessionIds(pr.digest.items)).value;
    var h, traced := pr.digest.header, Traced(pr.digest.items);
    if tier.maxBytes > 0 {
      TableRefusedExactly(Lines(letter, order, traced), BoldLine(|order|, h.commitsCovered, h.commitsTotal),
                          Footer(Uncovered(pr.commitSet, Covered(traced))), PrDef(h.villageUrl), tier.maxBytes);
    }
  }

  // A tier without a cap and without a limit stops at nothing.
  lemma {:induction false} AllRowsKept(lines: seq<Line>, i: nat, size: nat)
    requires i <= |lines|
    ensures KeptRows(lines, i, size, 0) == |lines|
    decreases |lines| - i
  {
    if i < |lines| {
      AllRowsKept(lines, i + 1, size + LineBytes(lines[i]));
    }
  }

  lemma {:induction false} AllEmitted(blocks: seq<Block>, i: nat, tier: Tier, frame: nat, budget: int)
    requires i <= |blocks| && tier.inlinePrompts == 0 && tier.maxBytes == 0
    ensures Emitted(blocks, i, tier, frame, budget) == |blocks|
    decreases |blocks| - i
  {
    if i < |blocks| {
      AllEmitted(blocks, i + 1, tier, frame, budget);
    }
  }

  // ---- every table row has three cells ----

  // Pipes that delimit cells: not escaped and not inside a comment.
  function CellBars(s: string): nat {
    if s == [] then 0
    else if s[0] == '\\' && |s| >= 2 && IsPunctuation(s[1]) then CellBars(s[2..])
    else if COMMENT <= s then CellBars(s[8..])
    else (if s[0] == '|' then 1 else 0) + CellBars(s[1..])
  }

  // Text without a backslash or an opening angle, so read as it stands.
  predicate Literal(s: string) { forall i :: 0 <= i < |s| ==> s[i] != '\\' && s[i] != '<' }

  function Bars(s: string): nat { if s == [] then 0 else (if s[0] == '|' then 1 else 0) + Bars(s[1..]) }

  lemma {:induction false} LiteralBars(s: string, rest: string)
    requires Literal(s)
    ensures CellBars(s + rest) == Bars(s) + CellBars(rest)
  {
    if s == [] {
      assert s + rest == rest;
    } else {
      assert (s + rest)[1..] == s[1..] + rest;
      assert COMMENT[0] == '<' && (s + rest)[0] == s[0];
      LiteralBars(s[1..], rest);
    }
  }

  lemma {:induction false} InertBars(s: string, rest: string)
    requires Inert(s)
    ensures CellBars(s + rest) == CellBars(rest)
  {
    if s == [] {
      assert s + rest == rest;
    } else if s[0] == '\\' {
      assert (s + rest)[2..] == s[2..] + rest;
      InertBars(s[2..], rest);
    } else if COMMENT <= s {
      assert (s + rest)[8..] == s[8..] + rest;
      assert COMMENT <= s + rest;
      assert COMMENT[0] == '<' && (s + rest)[0] == '<';
      InertBars(s[8..], rest);
    } else {
      assert (s + rest)[1..] == s[1..] + rest;
      assert COMMENT[0] == '<' && s[0] != '<';
      InertBars(s[1..], rest);
    }
  }

  lemma {:induction false} NoBars(s: string)
    requires '|' !in s
    ensures Bars(s) == 0
  {
    if s != [] {
      assert s[0] in s;
      assert forall c :: c in s[1..] ==> c in s;
      NoBars(s[1..]);
    }
  }

  // A cell that adds no bar of its own.
  ghost predicate OneCell(s: string) {
    forall rest: string :: CellBars(s + rest) == CellBars(rest)
  }

  lemma PlainIsOneCell(s: string)
    requires Literal(s) && '|' !in s
    ensures OneCell(s)
  {
    NoBars(s);
    forall rest: string
      ensures CellBars(s + rest) == CellBars(rest)
    {
      LiteralBars(s, rest);
    }
  }

  lemma OneCellConcat(a: string, b: string)
    requires OneCell(a) && OneCell(b)
    ensures OneCell(a + b)
  {
    forall rest: string
      ensures CellBars(a + b + rest) == CellBars(rest)
    {
      Regroup(a, b, rest);
    }
  }

  lemma InlineIsOneCell(letter: char -> bool, text: string)
    ensures OneCell(InlineText(letter, text))
  {
    InlineIsInert(letter, text);
    forall rest: string
      ensures CellBars(InlineText(letter, text) + rest) == CellBars(rest)
    {
      InertBars(InlineText(letter, text), rest);
    }
  }

  lemma {:induction false} DecimalDigits(n: nat)
    ensures forall i :: 0 <= i < |Decimal(n)| ==> IsAsciiDigit(Decimal(n)[i])
  {
    if n >= 10 {
      DecimalDigits(n / 10);
    }
  }

  lemma DecimalIsOneCell(n: nat)
    ensures OneCell(Decimal(n))
  {
    DecimalDigits(n);
    PlainIsOneCell(Decimal(n));
  }

  lemma LabelIsOneCell(letter: char -> bool, row: Row, ref: nat)
    ensures OneCell(RowLabel(letter, row, ref))
  {
    hide Clip;
    hide InlineText;
    hide OneCell;
    if row.listed {
      LinkIsOneCell(InlineText(letter, Clip(Title(row), MAX_TITLE)), Decimal(ref)) by {
        InlineIsOneCell(letter, Clip(Title(row), MAX_TITLE));
        DecimalIsOneCell(ref);
      }
    } else {
      PlainIsOneCell(READ_LABEL);
    }
  }

  lemma LinkIsOneCell(t: string, ref: string)
    requires OneCell(t) && OneCell(ref)
    ensures OneCell("[" + t + "][" + ref + "]")
  {
    hide OneCell;
    PlainIsOneCell("[");
    PlainIsOneCell("][");
    PlainIsOneCell("]");
    OneCellConcat("[", t);
    OneCellConcat("[" + t, "][");
    OneCellConcat("[" + t + "][", ref);
    OneCellConcat("[" + t + "][" + ref, "]");
  }

  lemma CommentIsOneCell()
    ensures OneCell(COMMENT)
  {
    assert Inert([]);
    assert COMMENT[8..] == [] && COMMENT[0] == '<';
    assert Inert(COMMENT);
    forall rest: string
      ensures CellBars(COMMENT + rest) == CellBars(rest)
    {
      InertBars(COMMENT, rest);
    }
  }

  lemma HandleIsOneCell(letter: char -> bool, author: string)
    ensures OneCell(Handle(letter, author))
  {
    hide OneCell;
    hide TrimSpace;
    hide InlineText;
    PlainIsOneCell("unknown");
    InlineIsOneCell(letter, author);
    AfterComment(InlineText(letter, author));
  }

  lemma AfterComment(t: string)
    requires OneCell(t)
    ensures OneCell("@" + COMMENT + t)
  {
    hide OneCell;
    PlainIsOneCell("@");
    CommentIsOneCell();
    OneCellConcat("@", COMMENT);
    OneCellConcat("@" + COMMENT, t);
  }

  lemma {:induction false} JoinIsOneCell(parts: seq<string>)
    requires forall p :: p in parts ==> Literal(p) && '|' !in p
    ensures OneCell(Join(parts, ", "))
  {
    if parts == [] {
      PlainIsOneCell("");
    } else if |parts| == 1 {
      assert parts[0] in parts;
      PlainIsOneCell(parts[0]);
    } else {
      assert parts[0] in parts;
      assert forall p :: p in parts[1..] ==> p in parts;
      PlainIsOneCell(parts[0]);
      PlainIsOneCell(", ");
      JoinIsOneCell(parts[1..]);
      OneCellConcat(parts[0], ", ");
      OneCellConcat(parts[0] + ", ", Join(parts[1..], ", "));
    }
  }

  lemma ShortIsPlain(shas: seq<string>)
    requires forall s :: s in shas ==> IsCommitSha(s)
    ensures forall p :: p in Map(ShortShas(), shas) ==> Literal(p) && '|' !in p
  {
    var parts := Map(ShortShas(), shas);
    forall p | p in parts
      ensures Literal(p) && '|' !in p
    {
      var i :| 0 <= i < |parts| && parts[i] == p;
      assert shas[i] in shas;
      assert forall k :: 0 <= k < |p| ==> p[k] == shas[i][k];
    }
  }

  lemma CommitListIsOneCell(shas: seq<string>)
    requires forall s :: s in shas ==> IsCommitSha(s)
    ensures OneCell(CommitList(shas))
  {
    if shas == [] {
      PlainIsOneCell("none");
    } else {
      var shown := if |shas| > MAX_ROW_COMMITS then shas[..MAX_ROW_COMMITS] else shas;
      var parts := Map(ShortShas(), shown);
      ShortIsPlain(shown);
      JoinIsOneCell(parts);
      ExtraIsOneCell(|shas| - |shown|);
      hide OneCell;
      OneCellConcat(Join(parts, ", "), if |shas| > |shown| then " and " + Decimal(|shas| - |shown|) + " more" else "");
    }
  }

  lemma ExtraIsOneCell(n: nat)
    ensures OneCell("") && OneCell(" and " + Decimal(n) + " more")
  {
    hide OneCell;
    PlainIsOneCell("");
    PlainIsOneCell(" and ");
    DecimalIsOneCell(n);
    PlainIsOneCell(" more");
    OneCellConcat(" and ", Decimal(n));
    OneCellConcat(" and " + Decimal(n), " more");
  }

  lemma CellThenBar(s: string, bar: string, rest: string)
    requires OneCell(s) && Literal(bar)
    ensures CellBars(s + (bar + rest)) == Bars(bar) + CellBars(rest)
  {
    LiteralBars(bar, rest);
  }

  // Whatever its title and author hold, a row has exactly the table's three
  // cells: four bars delimit cells.
  lemma RowHasThreeCells(letter: char -> bool, row: Row, ref: nat, shas: seq<string>)
    requires forall s :: s in shas ==> IsCommitSha(s)
    ensures CellBars(RowText(letter, row, ref, shas)) == 4
  {
    hide RowLabel;
    hide Handle;
    hide CommitList;
    LabelIsOneCell(letter, row, ref);
    HandleIsOneCell(letter, row.author);
    CommitListIsOneCell(shas);
    CellsInRow(RowLabel(letter, row, ref), Handle(letter, row.author), CommitList(shas));
  }

  lemma CellsInRow(a: string, b: string, c: string)
    requires OneCell(a) && OneCell(b) && OneCell(c)
    ensures CellBars("| " + a + " | " + b + " | " + c + " |\n") == 4
  {
    var open, bar, end := "| ", " | ", " |\n";
    BarsOf();
    Reassociate(open, a, bar, b, c, end);
    assert end + "" == end;
    CellThenBar(c, end, "");
    CellThenBar(b, bar, c + end);
    CellThenBar(a, bar, b + (bar + (c + end)));
    LiteralBars(open, a + (bar + (b + (bar + (c + end)))));
  }

  lemma Reassociate(open: string, a: string, bar: string, b: string, c: string, end: string)
    ensures open + a + bar + b + bar + c + end == open + (a + (bar + (b + (bar + (c + end)))))
  {
  }

  lemma BarsOf()
    ensures Bars("| ") == 1 && Bars(" | ") == 1 && Bars(" |\n") == 1 && CellBars("") == 0
    ensures Literal("| ") && Literal(" | ") && Literal(" |\n")
  {
  }
}

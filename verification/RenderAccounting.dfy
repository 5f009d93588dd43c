// The text Render returns, part by part, and what its numbers add up to.
module RenderAccounting {
  import opened Options
  import opened Text
  import opened Inline
  import opened DigestModel
  import opened RenderModel
  import opened RenderTheorems
  import opened RenderReading

  // ---- the inlined prompts are the first ones, in order ----

  function FirstLine(t: string): string { if t == [] || t[0] == '\n' then [] else [t[0]] + FirstLine(t[1..]) }

  // The first line of each prompt's block.
  function PromptHeads(blocks: seq<Block>): seq<string> {
    if blocks == [] then []
    else
      var b := blocks[|blocks| - 1];
      PromptHeads(blocks[..|blocks| - 1]) + if b.prompt then [FirstLine(b.text)] else []
  }

  // A prompt as it is printed: its number and its escaped, clipped text.
  function Printed(letter: char -> bool, item: Item): string {
    Marker(item.ordinal) + InlineText(letter, Clip(item.text, MAX_PROMPT))
  }

  function PromptsPrinted(letter: char -> bool, items: seq<Item>): seq<string> {
    if items == [] then []
    else
      var n := |items| - 1;
      PromptsPrinted(letter, items[..n]) + if items[n].kind == PromptItem then [Printed(letter, items[n])] else []
  }

  lemma {:induction false} FirstLineOf(line: string, rest: string)
    requires '\n' !in line && rest != [] && rest[0] == '\n'
    ensures FirstLine(line + rest) == line
  {
    if line == [] {
      assert line + rest == rest;
    } else {
      assert (line + rest)[1..] == line[1..] + rest;
      FirstLineOf(line[1..], rest);
    }
  }

  lemma {:induction false} FirstLineGrows(t: string, more: string)
    requires '\n' in t
    ensures FirstLine(t + more) == FirstLine(t)
  {
    assert (t + more)[0] == t[0];
    if t[0] != '\n' {
      assert (t + more)[1..] == t[1..] + more;
      FirstLineGrows(t[1..], more);
    }
  }

  lemma PrintedLine(letter: char -> bool, item: Item)
    ensures FirstLine(Printed(letter, item) + "\n") == Printed(letter, item)
    ensures '\n' in Printed(letter, item) + "\n"
  {
    var n := if item.ordinal.Some? then item.ordinal.value else 0;
    InlineOneLine(letter, Clip(item.text, MAX_PROMPT));
    DecimalWithout(n, '\n');
    hide InlineText;
    hide Clip;
    hide Decimal;
    hide FirstLine;
    WithoutConcat(Decimal(n), ". ", '\n');
    WithoutConcat(Marker(item.ordinal), InlineText(letter, Clip(item.text, MAX_PROMPT)), '\n');
    FirstLineOf(Printed(letter, item), "\n");
    assert (Printed(letter, item) + "\n")[|Printed(letter, item)|] == '\n';
  }

  // Each prompt's block begins with that prompt's own line.
  ghost predicate Headed(letter: char -> bool, items: seq<Item>, b: Blocks) {
    PromptHeads(b.list) == PromptsPrinted(letter, items)
      && forall i :: 0 <= i < |b.list| && b.list[i].prompt ==> '\n' in b.list[i].text
  }

  lemma {:induction false} BlocksHeaded(letter: char -> bool, items: seq<Item>)
    ensures Headed(letter, items, BlocksOf(letter, items))
  {
    if items != [] {
      var n := |items| - 1;
      BlocksHeaded(letter, items[..n]);
      hide Headed;
      hide AddBlock;
      hide PromptsPrinted;
      assert items == items[..n] + [items[n]];
      BlockHeaded(letter, items[..n], BlocksOf(letter, items[..n]), items[n]);
    }
  }

  lemma BlockHeaded(letter: char -> bool, items: seq<Item>, b: Blocks, item: Item)
    requires Headed(letter, items, b)
    ensures Headed(letter, items + [item], AddBlock(letter, b, item))
  {
    assert (items + [item])[..|items|] == items;
    match item.kind
    case PromptItem => PromptHeaded(letter, items, b, item);
    case SkillItem => SkillHeaded(letter, items, b, item);
    case SessionItem =>
    case CommitItem =>
  }

  lemma HeadsSnoc(blocks: seq<Block>, b: Block)
    ensures PromptHeads(blocks + [b]) == PromptHeads(blocks) + if b.prompt then [FirstLine(b.text)] else []
  {
    assert (blocks + [b])[..|blocks|] == blocks;
  }

  lemma PromptLast(letter: char -> bool, b: Blocks, item: Item)
    requires item.kind == PromptItem
    ensures AddBlock(letter, b, item).list == b.list + [Block(Printed(letter, item) + "\n", true)]
  {
    hide InlineText;
    hide Clip;
    hide Marker;
  }

  lemma PromptHeaded(letter: char -> bool, items: seq<Item>, b: Blocks, item: Item)
    requires Headed(letter, items, b) && item.kind == PromptItem
    ensures Headed(letter, items + [item], AddBlock(letter, b, item))
  {
    PromptLast(letter, b, item);
    PrintedLine(letter, item);
    hide AddBlock;
    hide Printed;
    hide FirstLine;
    hide PromptHeads;
    HeadsSnoc(b.list, Block(Printed(letter, item) + "\n", true));
    PrintedSnoc(letter, items, item);
  }

  lemma PrintedSnoc(letter: char -> bool, items: seq<Item>, item: Item)
    ensures PromptsPrinted(letter, items + [item]) ==
        PromptsPrinted(letter, items) + if item.kind == PromptItem then [Printed(letter, item)] else []
  {
    hide Printed;
    assert (items + [item])[..|items|] == items;
  }

  // Lengthening the last block after its first line changes no head.
  lemma LastLonger(list: seq<Block>, more: string)
    requires list != [] && (list[|list| - 1].prompt ==> '\n' in list[|list| - 1].text)
    ensures var n := |list| - 1;
            var longer := list[n := list[n].(text := list[n].text + more)];
            && PromptHeads(longer) == PromptHeads(list)
            && (longer[n].prompt ==> '\n' in longer[n].text)
  {
    var n := |list| - 1;
    var last := list[n];
    var longer := last.(text := last.text + more);
    assert list == list[..n] + [last] && list[n := longer] == list[..n] + [longer];
    HeadsSnoc(list[..n], last);
    HeadsSnoc(list[..n], longer);
    if last.prompt {
      FirstLineGrows(last.text, more);
      WithoutConcat(last.text, more, '\n');
    }
  }

  lemma NoHeads(text: string)
    ensures PromptHeads([Block(text, false)]) == PromptHeads([]) == []
  {
    HeadsSnoc([], Block(text, false));
    assert [] + [Block(text, false)] == [Block(text, false)];
  }

  lemma SkillHeaded(letter: char -> bool, items: seq<Item>, b: Blocks, item: Item)
    requires Headed(letter, items, b) && item.kind == SkillItem
    ensures Headed(letter, items + [item], AddBlock(letter, b, item))
  {
    hide Entry;
    hide Printed;
    hide PromptHeads;
    hide FirstLine;
    SkillPrintsNone(letter, items, item);
    hide PromptsPrinted;
    if b.list == [] {
      NoHeads(Entry(letter, item));
    } else {
      var last := b.list[|b.list| - 1];
      LastLonger(b.list, if last.prompt then b.indent + Entry(letter, item) else Entry(letter, item));
    }
  }

  lemma SkillPrintsNone(letter: char -> bool, items: seq<Item>, item: Item)
    requires item.kind != PromptItem
    ensures PromptsPrinted(letter, items + [item]) == PromptsPrinted(letter, items)
  {
    assert (items + [item])[..|items|] == items;
  }

  lemma {:induction false} HeadsPrefix(blocks: seq<Block>, k: nat)
    requires k <= |blocks|
    ensures PromptHeads(blocks[..k]) <= PromptHeads(blocks) && |PromptHeads(blocks[..k])| == PromptBlocks(blocks[..k])
    decreases |blocks|
  {
    HeadsCounted(blocks[..k]);
    if k == |blocks| {
      assert blocks[..k] == blocks;
    } else {
      var n := |blocks| - 1;
      assert blocks[..n][..k] == blocks[..k];
      HeadsPrefix(blocks[..n], k);
    }
  }

  lemma {:induction false} HeadsCounted(blocks: seq<Block>)
    ensures |PromptHeads(blocks)| == PromptBlocks(blocks)
  {
    if blocks != [] {
      HeadsCounted(blocks[..|blocks| - 1]);
    }
  }

  // ---- the text, part by part ----

  // What a pull request gives to print: the sessions' lines, and the blocks of
  // what is listed.
  ghost function LinesOf(letter: char -> bool, pr: PullRequest): seq<Line> {
    var order := RowsFor(RowMap(pr.rows), SessionIds(pr.digest.items));
    if order.Ok? then Lines(letter, order.value, Traced(pr.digest.items)) else []
  }

  ghost function ListedItems(pr: PullRequest): seq<Item> {
    RestrictDigest(pr.digest, ListedBy(RowMap(pr.rows))).items
  }

  function Ending(pr: PullRequest, lines: seq<Line>): string {
    Footer(Uncovered(pr.commitSet, Covered(Traced(pr.digest.items)))) + "\n"
      + (LineDefs(lines) + PrDef(pr.digest.header.villageUrl))
  }

  // With kept rows and, if there is a details block, this many blocks in it.
  ghost predicate Composed(letter: char -> bool, pr: PullRequest, text: string, kept: nat, emitted: Option<nat>) {
    var lines, items := LinesOf(letter, pr), ListedItems(pr);
    var blocks, h := BlocksOf(letter, items).list, pr.digest.header;
    && kept <= |lines| && (emitted.Some? ==> emitted.value <= |blocks|)
    && text == BoldLine(|lines|, h.commitsCovered, h.commitsTotal) + Table(lines, kept)
               + (if emitted.Some? then DetailsText(blocks, CountKind(PromptItem, items), emitted.value) else "")
               + Ending(pr, lines[..kept])
  }

  // What a reader of the parts gets back: the table's rows and the number in
  // its last line make up the sessions; the numbered lines of the details block
  // are the first listed prompts in order, and with the bracketed number they
  // make up all of them.
  ghost predicate Accounted(letter: char -> bool, pr: PullRequest, tier: Tier, kept: nat, emitted: Option<nat>) {
    var lines, items := LinesOf(letter, pr), ListedItems(pr);
    var blocks, total := BlocksOf(letter, items).list, CountKind(PromptItem, items);
    && kept <= |lines| && (emitted.Some? ==> emitted.value <= |blocks|)
    && TableCount(Table(lines, kept)) == |SessionIds(pr.digest.items)|
    && (emitted.Some? ==>
          var t, inlined := DetailsText(blocks, total, emitted.value), PromptHeads(blocks[..emitted.value]);
          && Starts(ADigit(), t, true) == |inlined| && |inlined| + Bracketed(t, true) == total
          && (total > 0 ==> NumberIn(t) == total)
          && inlined <= PromptsPrinted(letter, items)
          && (tier.inlinePrompts > 0 ==> |inlined| <= tier.inlinePrompts))
  }

  // A rendering is its head, its table, its details block and its ending.
  lemma RenderIs(letter: char -> bool, pr: PullRequest, tier: Tier, validate: Digest -> bool)
    returns (kept: nat, budget: int)
    requires Render(letter, pr, tier, validate).Ok?
    ensures |LinesOf(letter, pr)| == |SessionIds(pr.digest.items)| && kept <= |LinesOf(letter, pr)|
    ensures tier.maxBytes == 0 ==> kept == |LinesOf(letter, pr)|
    ensures var lines, h := LinesOf(letter, pr), pr.digest.header;
            Render(letter, pr, tier, validate).value ==
              BoldLine(|lines|, h.commitsCovered, h.commitsTotal) + Table(lines, kept)
              + DetailsOf(letter, ListedItems(pr), tier, budget) + Ending(pr, lines[..kept])
  {
    hide RowsFor;
    hide RowMap;
    hide RestrictDigest;
    hide Lines;
    hide KeptRows;
    hide BoldLine;
    hide Table;
    hide Footer;
    hide DetailsOf;
    hide Bytes;
    hide LineDefs;
    hide TrimSpace;
    hide Base;
    hide PrDef;
    hide SessionIds;
    hide Traced;
    hide Uncovered;
    hide Covered;
    var d, h := pr.digest, pr.digest.header;
    var order := RowsFor(RowMap(pr.rows), SessionIds(d.items)).value;
    var lines := Lines(letter, order, Traced(d.items));
    var base := Base(BoldLine(|order|, h.commitsCovered, h.commitsTotal),
        Footer(Uncovered(pr.commitSet, Covered(Traced(d.items)))), PrDef(h.villageUrl));
    kept := KeptRows(lines, 0, base, tier.maxBytes);
    var l := LayoutOf(letter, order, Traced(d.items), pr.commitSet, h.commitsCovered, h.commitsTotal, h.villageUrl,
        tier.maxBytes);
    budget := tier.maxBytes - (Bytes(Fixed(l)) + Bytes(Tail(l)));
    if tier.maxBytes == 0 {
      AllRowsKept(lines, 0, base);
    }
  }

  lemma FinishComposed(letter: char -> bool, pr: PullRequest, tier: Tier, validate: Digest -> bool)
    returns (kept: nat, emitted: Option<nat>)
    requires Render(letter, pr, tier, validate).Ok?
    ensures Composed(letter, pr, Render(letter, pr, tier, validate).value, kept, emitted)
    ensures kept <= |LinesOf(letter, pr)| == |SessionIds(pr.digest.items)|
    ensures emitted.Some? ==> Fits(letter, pr, tier, emitted.value)
    ensures tier.maxBytes == 0 ==> kept == |LinesOf(letter, pr)|
    ensures tier.maxBytes == 0 && tier.inlinePrompts == 0 ==>
              emitted == if BlocksOf(letter, ListedItems(pr)).list == [] then None
                else Some(|BlocksOf(letter, ListedItems(pr)).list|)
  {
    hide Render;
    hide LinesOf;
    hide ListedItems;
    hide BlocksOf;
    hide BoldLine;
    hide Table;
    hide DetailsOf;
    hide DetailsText;
    hide Ending;
    hide CountKind;
    hide PromptBlocks;
    var budget;
    kept, budget := RenderIs(letter, pr, tier, validate);
    emitted := DetailsComposed(letter, ListedItems(pr), tier, budget);
  }

  // The blocks written are within the tier's number of prompts.
  ghost predicate Fits(letter: char -> bool, pr: PullRequest, tier: Tier, emitted: nat) {
    var blocks := BlocksOf(letter, ListedItems(pr)).list;
    emitted <= |blocks| && (tier.inlinePrompts > 0 ==> PromptBlocks(blocks[..emitted]) <= tier.inlinePrompts)
  }

  lemma DetailsComposed(letter: char -> bool, items: seq<Item>, tier: Tier, budget: int) returns (emitted: Option<nat>)
    ensures emitted.Some? ==> emitted.value <= |BlocksOf(letter, items).list|
    ensures DetailsOf(letter, items, tier, budget) ==
            if emitted.Some? then DetailsText(BlocksOf(letter, items).list, CountKind(PromptItem, items), emitted.value)
                else ""
    ensures emitted.Some? && tier.inlinePrompts > 0 ==>
        PromptBlocks(BlocksOf(letter, items).list[..emitted.value]) <= tier.inlinePrompts
    ensures tier.maxBytes == 0 && tier.inlinePrompts == 0 ==>
              emitted == if BlocksOf(letter, items).list == [] then None else Some(|BlocksOf(letter, items).list|)
  {
    hide BlocksOf;
    hide CountKind;
    hide Frame;
    hide MoreLine;
    hide DetailsOpen;
    hide DETAILS_CLOSE;
    hide BlockTexts;
    var blocks, total := BlocksOf(letter, items).list, CountKind(PromptItem, items);
    var k := Emitted(blocks, 0, tier, Frame(total), budget);
    emitted := if blocks == [] || (k == 0 && tier.maxBytes > 0 && Frame(total) > budget) then None else Some(k);
    NoBlocks(blocks);
    EmittedWithin(blocks, 0, tier, Frame(total), budget);
    if tier.maxBytes == 0 && tier.inlinePrompts == 0 {
      AllEmitted(blocks, 0, tier, Frame(total), budget);
    }
    hide Emitted;
    hide PromptBlocks;
  }

  lemma NoBlocks(blocks: seq<Block>)
    ensures PromptBlocks(blocks[..0]) == 0
  {
  }

  lemma {:induction false} EmittedWithin(blocks: seq<Block>, i: nat, tier: Tier, frame: nat, budget: int)
    requires i <= |blocks| && (tier.inlinePrompts > 0 ==> PromptBlocks(blocks[..i]) <= tier.inlinePrompts)
    ensures var k := Emitted(blocks, i, tier, frame, budget);
            k <= |blocks| && (tier.inlinePrompts > 0 ==> PromptBlocks(blocks[..k]) <= tier.inlinePrompts)
    decreases |blocks| - i
  {
    hide BlockTexts;
    hide BlockText;
    hide Bytes;
    if i < |blocks| && Emitted(blocks, i, tier, frame, budget) != i {
      BlockTextsStep(blocks, i);
      EmittedWithin(blocks, i + 1, tier, frame, budget);
    }
  }

  lemma LinesAreRows(letter: char -> bool, pr: PullRequest)
    requires forall t :: t in Traced(pr.digest.items) ==> IsCommitSha(t.1)
    ensures forall l :: l in LinesOf(letter, pr) ==> IsRow(l.text)
  {
    hide IsRow;
    hide IsCommitSha;
    hide RowMap;
    hide Traced;
    hide SessionIds;
    var order := RowsFor(RowMap(pr.rows), SessionIds(pr.digest.items));
    if order.Ok? {
      RowsAreRows(letter, order.value, Traced(pr.digest.items));
    }
  }

  lemma DetailsAccounted(letter: char -> bool, items: seq<Item>, emitted: nat)
    requires emitted <= |BlocksOf(letter, items).list|
    ensures var blocks, total := BlocksOf(letter, items).list, CountKind(PromptItem, items);
            var t, inlined := DetailsText(blocks, total, emitted), PromptHeads(blocks[..emitted]);
            && Starts(ADigit(), t, true) == |inlined| == PromptBlocks(blocks[..emitted])
            && |inlined| + Bracketed(t, true) == total && (total > 0 ==> NumberIn(t) == total)
            && inlined <= PromptsPrinted(letter, items)
  {
    BlocksHeaded(letter, items);
    HeadsPrefix(BlocksOf(letter, items).list, emitted);
    DetailsRead(letter, items, emitted);
    hide BlocksOf;
    hide CountKind;
    hide DetailsText;
    hide Starts;
    hide Bracketed;
    hide NumberIn;
    hide PromptHeads;
    hide PromptsPrinted;
    hide PromptBlocks;
  }

  // The main result: every rendering is composed of these parts, and what a
  // reader counts in it accounts for every session and every listed prompt.
  lemma RenderAccounts(letter: char -> bool, pr: PullRequest, tier: Tier, validate: Digest -> bool)
    requires Render(letter, pr, tier, validate).Ok?
    requires forall t :: t in Traced(pr.digest.items) ==> IsCommitSha(t.1)
    ensures exists kept, emitted ::
              Composed(letter, pr, Render(letter, pr, tier, validate).value, kept, emitted)
                && Accounted(letter, pr, tier, kept, emitted)
  {
    hide *;
    var kept, emitted := FinishComposed(letter, pr, tier, validate);
    AllAccounted(letter, pr, tier, kept, emitted);
    assert Accounted(letter, pr, tier, kept, emitted);
  }

  lemma AllAccounted(letter: char -> bool, pr: PullRequest, tier: Tier, kept: nat, emitted: Option<nat>)
    requires kept <= |LinesOf(letter, pr)| == |SessionIds(pr.digest.items)|
    requires emitted.Some? ==> Fits(letter, pr, tier, emitted.value)
    requires forall t :: t in Traced(pr.digest.items) ==> IsCommitSha(t.1)
    ensures Accounted(letter, pr, tier, kept, emitted)
  {
    hide LinesOf;
    hide ListedItems;
    hide IsRow;
    hide Table;
    hide TableCount;
    hide BlocksOf;
    hide CountKind;
    hide DetailsText;
    hide PromptHeads;
    hide PromptBlocks;
    hide PromptsPrinted;
    hide Starts;
    hide Bracketed;
    hide NumberIn;
    hide SessionIds;
    hide Traced;
    hide IsCommitSha;
    LinesAreRows(letter, pr);
    TableReads(LinesOf(letter, pr), kept);
    if emitted.Some? {
      DetailsAccounted(letter, ListedItems(pr), emitted.value);
    }
  }

  // The tier without a cap and without a limit prints every row and every
  // prompt: nothing is counted instead of shown.
  lemma UncappedRendersAll(letter: char -> bool, pr: PullRequest, tier: Tier, validate: Digest -> bool)
    requires tier.maxBytes == 0 && tier.inlinePrompts == 0 && Render(letter, pr, tier, validate).Ok?
    ensures var blocks := BlocksOf(letter, ListedItems(pr)).list;
            && |LinesOf(letter, pr)| == |SessionIds(pr.digest.items)|
            && PromptHeads(blocks) == PromptsPrinted(letter, ListedItems(pr))
            && Composed(letter, pr, Render(letter, pr, tier, validate).value, |LinesOf(letter, pr)|,
                        if blocks == [] then None else Some(|blocks|))
  {
    var kept, emitted := FinishComposed(letter, pr, tier, validate);
    BlocksHeaded(letter, ListedItems(pr));
    hide Render;
    hide LinesOf;
    hide ListedItems;
    hide Composed;
    hide BlocksOf;
    hide PromptHeads;
    hide PromptsPrinted;
  }
}

// The pull request's comment and check summary, as a value of the digest, the
// rows and the tier.
module RenderModel {
  import opened Options
  import opened Sequences
  import opened Text
  import opened Inline
  import opened DigestModel

  // maxBytes 0 is no cap; inlinePrompts 0 is no limit.
  datatype Tier = Tier(name: string, inlinePrompts: nat, maxBytes: nat)

  datatype Row = Row(tid: string, title: string, author: string, listed: bool, url: string)

  datatype PullRequest = PullRequest(digest: Digest, rows: seq<Row>, commitSet: seq<string>)

  datatype Refusal = InvalidDigest | NoVillagePage | NoRow(tid: string) | TableOverCap(bytes: nat) | InvalidListing

  const MAX_TITLE: nat := 120
  const MAX_PROMPT: nat := 300
  const MAX_ROW_COMMITS: nat := 5
  const MAX_UNCOVERED: nat := 3
  const SHORT_SHA: nat := 7

  const TABLE_TITLES: string := "| transcript | author | commits |"
  const TABLE_RULE: string := "| --- | --- | --- |"
  const TABLE_HEAD: string := "\n" + TABLE_TITLES + "\n" + TABLE_RULE + "\n"
  const READ_LABEL: string := "[read on village][pr]"
  const UNTITLED: string := "untitled transcript"
  const VIEW_LINK: string := "\n[view on village][pr]"
  const DETAILS_CLOSE: string := "\n</details>\n"

  // ---- small texts ----

  function Plural(n: nat, noun: string): string {
    if n == 1 then "1 " + noun else Decimal(n) + " " + noun + "s"
  }

  function MoreLine(remaining: nat): string { "\n[" + Decimal(remaining) + " more on village][pr]\n" }

  function MoreRow(remaining: nat): string {
    "| [" + Plural(remaining, "more transcript") + " on village][pr] | | |\n"
  }

  function BoldLine(transcripts: nat, covered: nat, total: nat): string {
    if transcripts == 0 then "**peasant / prompts \U{00B7} no transcripts are attached**\n"
    else
      "**peasant / prompts \U{00B7} " + Plural(transcripts, "transcript") + " " +
      (if transcripts == 1 then "traces" else "trace") + " " + Decimal(covered) + " of " + Decimal(total)
        + " commits**\n"
  }

  function Shorten(sha: string): string { if |sha| > SHORT_SHA then sha[..SHORT_SHA] else sha }

  function ShortShas(): string -> string { (sha: string) => Shorten(sha) }

  function ShortList(shas: seq<string>, limit: nat): string {
    var shown := if |shas| > limit then shas[..limit] else shas;
    Join(Map(ShortShas(), shown), ", ") +
    if |shas| > |shown| then " and " + Decimal(|shas| - |shown|) + " more" else ""
  }

  function CommitList(shas: seq<string>): string {
    if shas == [] then "none" else ShortList(shas, MAX_ROW_COMMITS)
  }

  function Handle(letter: char -> bool, author: string): string {
    if TrimSpace(author) == "" then "unknown" else "@" + COMMENT + InlineText(letter, author)
  }

  // ---- what the digest says of each transcript ----

  // The last row given for each transcript.
  function RowMap(rows: seq<Row>): map<string, Row> {
    if rows == [] then map[] else RowMap(rows[..|rows| - 1])[rows[|rows| - 1].tid := rows[|rows| - 1]]
  }

  predicate Listed(rows: map<string, Row>, tid: string) { tid in rows && rows[tid].listed }

  function ListedBy(rows: map<string, Row>): string -> bool { (tid: string) => Listed(rows, tid) }

  // The transcripts of the digest's sessions, in order.
  function SessionIds(items: seq<Item>): seq<string> {
    if items == [] then []
    else
      SessionIds(items[..|items| - 1]) + if items[|items| - 1].kind == SessionItem then [items[|items| - 1].tid] else []
  }

  // The commits the digest attributes, with their transcripts, in order.
  function Traced(items: seq<Item>): seq<(string, string)> {
    if items == [] then []
    else
      Traced(items[..|items| - 1]) +
      if items[|items| - 1].kind == CommitItem then [(items[|items| - 1].tid, items[|items| - 1].sha)] else []
  }

  function CommitsOf(traced: seq<(string, string)>, tid: string): seq<string> {
    if traced == [] then []
    else CommitsOf(traced[..|traced| - 1], tid) + if traced[|traced| - 1].0 == tid then [traced[|traced| - 1].1] else []
  }

  function Covered(traced: seq<(string, string)>): set<string> {
    set t | t in traced :: t.1
  }

  function Uncovered(commitSet: seq<string>, covered: set<string>): (r: seq<string>)
    ensures forall s :: s in r ==> s !in covered
  {
    if commitSet == [] then []
    else
      var before := Uncovered(commitSet[..|commitSet| - 1], covered);
      var lower := NormalSha(commitSet[|commitSet| - 1]);
      if !IsCommitSha(lower) || lower in before || lower in covered then before else before + [lower]
  }

  function UncoveredLine(shas: seq<string>): string {
    ShortList(shas, MAX_UNCOVERED) + if |shas| == 1 then " has no transcript" else " have no transcript"
  }

  // ---- the table ----

  datatype Line = Line(text: string, def: string)

  function CountListed(rows: seq<Row>): nat {
    if rows == [] then 0 else CountListed(rows[..|rows| - 1]) + if rows[|rows| - 1].listed then 1 else 0
  }

  function Title(row: Row): string { if TrimSpace(row.title) == "" then UNTITLED else row.title }

  function RowLabel(letter: char -> bool, row: Row, ref: nat): string {
    if row.listed then "[" + InlineText(letter, Clip(Title(row), MAX_TITLE)) + "][" + Decimal(ref) + "]" else READ_LABEL
  }

  function RowText(letter: char -> bool, row: Row, ref: nat, shas: seq<string>): string {
    "| " + RowLabel(letter, row, ref) + " | " + Handle(letter, row.author) + " | " + CommitList(shas) + " |\n"
  }

  function RowDef(row: Row, ref: nat): string {
    if row.listed then "[" + Decimal(ref) + "]: " + row.url + "\n" else ""
  }

  // One line per transcript; references count the listed rows.
  function Lines(letter: char -> bool, rows: seq<Row>, traced: seq<(string, string)>): (r: seq<Line>)
    ensures |r| == |rows|
  {
    if rows == [] then []
    else
      var n := |rows| - 1;
      Lines(letter, rows[..n], traced) +
      [Line(RowText(letter, rows[n], CountListed(rows), CommitsOf(traced, rows[n].tid)),
        RowDef(rows[n], CountListed(rows)))]
  }

  function LineBytes(l: Line): nat { Bytes(l.text) + Bytes(l.def) }

  function Reserve(lines: seq<Line>, i: nat): nat
    requires i < |lines|
  {
    if i < |lines| - 1 then Bytes(MoreRow(|lines| - i)) else 0
  }

  // How many rows fit: each must leave room for the row that counts the rest.
  function KeptRows(lines: seq<Line>, i: nat, size: nat, max: nat): (k: nat)
    requires i <= |lines|
    ensures i <= k <= |lines|
    decreases |lines| - i
  {
    if i == |lines| || (max > 0 && size + LineBytes(lines[i]) + Reserve(lines, i) > max) then i
    else KeptRows(lines, i + 1, size + LineBytes(lines[i]), max)
  }

  function LineTexts(lines: seq<Line>): string {
    if lines == [] then "" else LineTexts(lines[..|lines| - 1]) + lines[|lines| - 1].text
  }

  function LineDefs(lines: seq<Line>): string {
    if lines == [] then "" else LineDefs(lines[..|lines| - 1]) + lines[|lines| - 1].def
  }

  function Footer(uncovered: seq<string>): string {
    VIEW_LINK + (if uncovered == [] then "" else " \U{00B7} " + UncoveredLine(uncovered)) + "\n"
  }

  function PrDef(url: string): string { "[pr]: " + url + "\n" }

  // The frame the rows are laid out in, in bytes.
  function Base(head: string, footer: string, prDef: string): nat {
    Bytes(head) + Bytes(TABLE_HEAD) + Bytes(footer) + 1 + Bytes(prDef)
  }

  function Table(lines: seq<Line>, kept: nat): string
    requires kept <= |lines|
  {
    if lines == [] then ""
    else TABLE_HEAD + LineTexts(lines[..kept]) + if kept < |lines| then MoreRow(|lines| - kept) else ""
  }

  // ---- the details block ----

  datatype Block = Block(text: string, prompt: bool)

  function Spaces(n: nat): string { seq(n, i => ' ') }

  function Marker(ordinal: Option<nat>): string { Decimal(if ordinal.Some? then ordinal.value else 0) + ". " }

  function SkillText(item: Item): string { if item.args != "" then item.text + " " + item.args else item.text }

  function Entry(letter: char -> bool, item: Item): string {
    "- " + InlineText(letter, Clip(SkillText(item), MAX_PROMPT)) + "\n"
  }

  datatype Blocks = Blocks(list: seq<Block>, indent: string)

  // A skill goes under the prompt before it; skills before every prompt lead.
  function AddBlock(letter: char -> bool, b: Blocks, item: Item): Blocks {
    match item.kind
    case PromptItem =>
      var marker := Marker(item.ordinal);
      Blocks(b.list + [Block(marker + InlineText(letter, Clip(item.text, MAX_PROMPT)) + "\n", true)], Spaces(|marker|))
    case SkillItem =>
      var entry := Entry(letter, item);
      var n := |b.list| - 1;
      if b.list == [] then b.(list := [Block(entry, false)])
      else b.(list := b.list[n := b.list[n].(text := b.list[n].text
        + if b.list[n].prompt then b.indent + entry else entry)])
    case _ => b
  }

  function BlocksOf(letter: char -> bool, items: seq<Item>): Blocks {
    if items == [] then Blocks([], "")
    else AddBlock(letter, BlocksOf(letter, items[..|items| - 1]), items[|items| - 1])
  }

  function Summary(total: nat): string { if total == 0 then "skills" else Plural(total, "prompt") }

  function DetailsOpen(total: nat): string { "\n<details>\n<summary>" + Summary(total) + "</summary>\n\n" }

  // The leading skills end with a blank line.
  function BlockText(b: Block): string { if b.prompt then b.text else b.text + "\n" }

  function BlockTexts(blocks: seq<Block>): string {
    if blocks == [] then "" else BlockTexts(blocks[..|blocks| - 1]) + BlockText(blocks[|blocks| - 1])
  }

  function PromptBlocks(blocks: seq<Block>): nat {
    if blocks == [] then 0 else PromptBlocks(blocks[..|blocks| - 1]) + if blocks[|blocks| - 1].prompt then 1 else 0
  }

  // The bytes around the blocks, with room for the longest count of the rest.
  function Frame(total: nat): nat {
    Bytes(DetailsOpen(total)) + (if total > 0 then Bytes(MoreLine(total)) else 0) + Bytes(DETAILS_CLOSE)
  }

  // How many blocks are written from the i-th on.
  function Emitted(blocks: seq<Block>, i: nat, tier: Tier, frame: nat, budget: int): (k: nat)
    requires i <= |blocks|
    ensures i <= k <= |blocks|
    decreases |blocks| - i
  {
    if i == |blocks| then i
    else if blocks[i].prompt && tier.inlinePrompts > 0 && PromptBlocks(blocks[..i]) >= tier.inlinePrompts then i
    else if tier.maxBytes > 0 && frame + Bytes(BlockTexts(blocks[..i])) + Bytes(BlockText(blocks[i])) > budget then i
    else Emitted(blocks, i + 1, tier, frame, budget)
  }

  // The details block of a listing whose items are given.
  function DetailsOf(letter: char -> bool, items: seq<Item>, tier: Tier, budget: int): string {
    var blocks := BlocksOf(letter, items).list;
    var total := CountKind(PromptItem, items);
    var emitted := Emitted(blocks, 0, tier, Frame(total), budget);
    var inlined := PromptBlocks(blocks[..emitted]);
    if blocks == [] then ""
    else if emitted == 0 && tier.maxBytes > 0 && Frame(total) > budget then ""
    else
      DetailsOpen(total) + BlockTexts(blocks[..emitted]) +
      (if total > inlined then MoreLine(total - inlined) else "") + DETAILS_CLOSE
  }

  // ---- the whole text ----

  function RowsFor(rows: map<string, Row>, tids: seq<string>): (r: Result<seq<Row>, Refusal>)
    ensures r.Ok? ==> |r.value| == |tids|
  {
    if tids == [] then Ok([])
    else
      var before := RowsFor(rows, tids[..|tids| - 1]);
      var last := tids[|tids| - 1];
      if before.Err? then before
      else if last !in rows then Err(NoRow(last))
      else Ok(before.value + [rows[last]])
  }

  datatype Layout = Layout(head: string, table: string, footer: string, defs: string)

  function Fixed(l: Layout): string { l.head + l.table }

  function Tail(l: Layout): string { l.footer + "\n" + l.defs }

  // Everything but the details block.
  function LayoutOf(letter: char -> bool, order: seq<Row>, traced: seq<(string, string)>, commitSet: seq<string>,
                    covered: nat, total: nat, url: string, max: nat): Layout
  {
    var head := BoldLine(|order|, covered, total);
    var footer := Footer(Uncovered(commitSet, Covered(traced)));
    var lines := Lines(letter, order, traced);
    var kept := KeptRows(lines, 0, Base(head, footer, PrDef(url)), max);
    Layout(head, Table(lines, kept), footer, LineDefs(lines[..kept]) + PrDef(url))
  }

  // The layout with its details block, when both are allowed.
  ghost function Finish(letter: char -> bool, d: Digest, rows: map<string, Row>, l: Layout, tier: Tier,
                        validate: Digest -> bool): Result<string, Refusal> {
    var size := Bytes(Fixed(l)) + Bytes(Tail(l));
    var listing := RestrictDigest(d, ListedBy(rows));
    if tier.maxBytes > 0 && size > tier.maxBytes then Err(TableOverCap(size))
    else if !(forall x :: x in d.items ==> Listed(rows, x.tid)) && !validate(listing) then Err(InvalidListing)
    else Ok(Fixed(l) + DetailsOf(letter, listing.items, tier, tier.maxBytes - size) + Tail(l))
  }

  ghost function Render(letter: char -> bool, pr: PullRequest, tier: Tier,
                        validate: Digest -> bool): Result<string, Refusal> {
    var d := pr.digest;
    var rows := RowMap(pr.rows);
    if !validate(d) then Err(InvalidDigest)
    else if TrimSpace(d.header.villageUrl) == "" then Err(NoVillagePage)
    else
      var order := RowsFor(rows, SessionIds(d.items));
      if order.Err? then Err(order.error)
      else
        Finish(letter, d, rows,
               LayoutOf(letter, order.value, Traced(d.items), pr.commitSet, d.header.commitsCovered,
                        d.header.commitsTotal, d.header.villageUrl, tier.maxBytes),
               tier, validate)
  }

  lemma {:induction false} RowsForRefusal(rows: map<string, Row>, tids: seq<string>)
    ensures var r := RowsFor(rows, tids);
            r.Err? ==> r.error.NoRow? && r.error.tid in tids && r.error.tid !in rows
    ensures RowsFor(rows, tids).Ok? <==> forall t :: t in tids ==> t in rows
  {
    if tids != [] {
      RowsForRefusal(rows, tids[..|tids| - 1]);
      SplitLast(tids);
    }
  }
}

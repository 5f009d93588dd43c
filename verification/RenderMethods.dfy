// Render as the program runs it, proved against the rendered value.
module RenderMethods {
  import opened Options
  import opened Sequences
  import opened Text
  import opened Inline
  import opened DigestModel
  import opened DigestTheorems
  import DigestBuild
  import opened RenderModel

  method RowsById(rows: seq<Row>) returns (byId: map<string, Row>)
    ensures byId == RowMap(rows)
  {
    byId := map[];
    for i := 0 to |rows|
      invariant byId == RowMap(rows[..i])
    {
      assert rows[..i + 1][..i] == rows[..i];
      byId := byId[rows[i].tid := rows[i]];
    }
    assert rows[..|rows|] == rows;
  }

  lemma RefusalStands(rows: map<string, Row>, tids: seq<string>, i: nat)
    requires i <= |tids| && RowsFor(rows, tids[..i]).Err?
    ensures RowsFor(rows, tids) == RowsFor(rows, tids[..i])
    decreases |tids| - i
  {
    if i == |tids| {
      assert tids[..i] == tids;
    } else {
      assert tids[..i + 1][..i] == tids[..i];
      RefusalStands(rows, tids, i + 1);
    }
  }

  lemma SessionIdsPrefix(items: seq<Item>, i: nat)
    requires i <= |items|
    ensures SessionIds(items[..i]) <= SessionIds(items)
    decreases |items| - i
  {
    if i == |items| {
      assert items[..i] == items;
    } else {
      SessionIdsPrefix(items, i + 1);
      SessionIdsGrow(items, i);
      PrefixOfPrefix(SessionIds(items[..i]), SessionIds(items[..i + 1]), SessionIds(items));
    }
  }

  lemma SessionIdsGrow(items: seq<Item>, i: nat)
    requires i < |items|
    ensures SessionIds(items[..i]) <= SessionIds(items[..i + 1])
  {
    assert items[..i + 1][..i] == items[..i];
  }

  lemma PrefixOfPrefix(a: seq<string>, b: seq<string>, c: seq<string>)
    requires a <= b && b <= c
    ensures a <= c
  {
  }

  // The attached rows in session order, and the commits traced, or the refusal
  // of a session with no row.
  lemma NextTraced(items: seq<Item>, i: nat)
    requires i < |items|
    ensures Traced(items[..i + 1]) ==
        Traced(items[..i]) + if items[i].kind == CommitItem then [(items[i].tid, items[i].sha)] else []
  {
    assert items[..i + 1][..i] == items[..i];
  }

  // The rows of one item more: the row of its session, or a refusal that stands.
  lemma NextRow(rows: map<string, Row>, items: seq<Item>, i: nat)
    requires i < |items| && RowsFor(rows, SessionIds(items[..i])).Ok?
    ensures var found, item := RowsFor(rows, SessionIds(items[..i])).value, items[i];
            if item.kind != SessionItem then RowsFor(rows, SessionIds(items[..i + 1])) == Ok(found)
            else if item.tid in rows then RowsFor(rows, SessionIds(items[..i + 1])) == Ok(found + [rows[item.tid]])
            else RowsFor(rows, SessionIds(items)) == Err(NoRow(item.tid))
  {
    hide RowsFor;
    hide SessionIds;
    var item, before := items[i], SessionIds(items[..i]);
    SessionIdsNext(items, i);
    if item.kind == SessionItem {
      RowsForSnoc(rows, before, item.tid);
      if item.tid !in rows {
        SessionIdsPrefix(items, i + 1);
        var all := SessionIds(items);
        assert all[..|before| + 1] == before + [item.tid];
        RefusalStands(rows, all, |before| + 1);
      }
    }
  }

  lemma SessionIdsNext(items: seq<Item>, i: nat)
    requires i < |items|
    ensures SessionIds(items[..i + 1]) ==
        if items[i].kind == SessionItem then SessionIds(items[..i]) + [items[i].tid] else SessionIds(items[..i])
  {
    assert items[..i + 1][..i] == items[..i];
  }

  lemma RowsForSnoc(rows: map<string, Row>, tids: seq<string>, tid: string)
    requires RowsFor(rows, tids).Ok?
    ensures RowsFor(rows, tids + [tid]) ==
        if tid in rows then Ok(RowsFor(rows, tids).value + [rows[tid]]) else Err(NoRow(tid))
  {
    assert (tids + [tid])[..|tids|] == tids;
  }

  method Attached(items: seq<Item>, rows: map<string, Row>)
    returns (order: Result<seq<Row>, Refusal>, traced: seq<(string, string)>)
    ensures order == RowsFor(rows, SessionIds(items))
    ensures order.Ok? ==> traced == Traced(items)
  {
    var found: seq<Row> := [];
    traced := [];
    assert items[..0] == [];
    assert RowsFor(rows, SessionIds([])) == Ok([]) && Traced([]) == [];
    hide RowsFor;
    hide SessionIds;
    hide Traced;
    for i := 0 to |items|
      invariant RowsFor(rows, SessionIds(items[..i])) == Ok(found)
      invariant traced == Traced(items[..i])
    {
      var item := items[i];
      NextTraced(items, i);
      NextRow(rows, items, i);
      if item.kind == SessionItem {
        if item.tid !in rows {
          return Err(NoRow(item.tid)), traced;
        }
        found := found + [rows[item.tid]];
      } else if item.kind == CommitItem {
        traced := traced + [(item.tid, item.sha)];
      }
    }
    assert items[..|items|] == items;
    return Ok(found), traced;
  }

  method CommitsFor(traced: seq<(string, string)>, tid: string) returns (shas: seq<string>)
    ensures shas == CommitsOf(traced, tid)
  {
    shas := [];
    for i := 0 to |traced|
      invariant shas == CommitsOf(traced[..i], tid)
    {
      assert traced[..i + 1][..i] == traced[..i];
      if traced[i].0 == tid {
        shas := shas + [traced[i].1];
      }
    }
    assert traced[..|traced|] == traced;
  }

  // A commit SHA of the set, however it is spelled there.
  ghost predicate NamesCommit(commitSet: seq<string>, sha: string) {
    IsCommitSha(sha) && exists i :: 0 <= i < |commitSet| && NormalSha(commitSet[i]) == sha
  }

  lemma NamesSnoc(commitSet: seq<string>, sha: string)
    requires commitSet != []
    ensures var n := |commitSet| - 1;
            NamesCommit(commitSet, sha) <==>
              NamesCommit(commitSet[..n], sha) || (IsCommitSha(sha) && NormalSha(commitSet[n]) == sha)
  {
    hide NormalSha;
    hide IsCommitSha;
    var n := |commitSet| - 1;
    if NamesCommit(commitSet, sha) {
      var i :| 0 <= i < |commitSet| && NormalSha(commitSet[i]) == sha;
      assert i < n ==> commitSet[..n][i] == commitSet[i];
    }
    if NamesCommit(commitSet[..n], sha) {
      var i :| 0 <= i < n && NormalSha(commitSet[..n][i]) == sha;
      assert commitSet[i] == commitSet[..n][i];
    }
  }

  // The distinct commits of the set that nothing covers, each once.
  lemma {:induction false} UncoveredExactly(commitSet: seq<string>, covered: set<string>)
    ensures Distinct(Uncovered(commitSet, covered))
    ensures forall s :: s in Uncovered(commitSet, covered) <==> s !in covered && NamesCommit(commitSet, s)
  {
    NamesNothing();
    hide NormalSha;
    hide IsCommitSha;
    hide NamesCommit;
    if commitSet != [] {
      var n := |commitSet| - 1;
      var before, last := Uncovered(commitSet[..n], covered), NormalSha(commitSet[n]);
      UncoveredExactly(commitSet[..n], covered);
      assert forall i :: 0 <= i < |before| ==> before[i] in before;
      forall s
        ensures NamesCommit(commitSet, s) <==> NamesCommit(commitSet[..n], s) || (IsCommitSha(s) && last == s)
      {
        NamesSnoc(commitSet, s);
      }
    }
  }

  lemma NamesNothing()
    ensures forall s :: !NamesCommit([], s)
  {
  }

  method UncoveredCommits(commitSet: seq<string>, covered: set<string>) returns (out: seq<string>)
    ensures out == Uncovered(commitSet, covered)
    ensures Distinct(out) && forall s :: s in out <==> s !in covered && NamesCommit(commitSet, s)
  {
    UncoveredExactly(commitSet, covered);
    hide NamesCommit;
    hide NormalSha;
    hide IsCommitSha;
    out := [];
    var seen: set<string> := {};
    for i := 0 to |commitSet|
      invariant out == Uncovered(commitSet[..i], covered)
      invariant seen == set s | s in out
    {
      assert commitSet[..i + 1][..i] == commitSet[..i];
      var lower := NormalSha(commitSet[i]);
      if !IsCommitSha(lower) || lower in seen || lower in covered {
        continue;
      }
      seen := seen + {lower};
      out := out + [lower];
    }
    assert commitSet[..|commitSet|] == commitSet;
  }

  method TableLines(letter: char -> bool, order: seq<Row>, traced: seq<(string, string)>) returns (lines: seq<Line>)
    ensures lines == Lines(letter, order, traced)
  {
    hide RowLabel;
    hide CommitList;
    hide Handle;
    lines := [];
    var ref := 0;
    for i := 0 to |order|
      invariant lines == Lines(letter, order[..i], traced)
      invariant ref == CountListed(order[..i])
    {
      assert order[..i + 1][..i] == order[..i];
      if order[i].listed {
        ref := ref + 1;
      }
      var shas := CommitsFor(traced, order[i].tid);
      lines := lines + [Line(RowText(letter, order[i], ref, shas), RowDef(order[i], ref))];
      assert RowText(letter, order[i], ref, shas) == RowText(letter, order[i], CountListed(order[..i + 1]), shas);
    }
    assert order[..|order|] == order;
  }

  // Keeps rows while the next one still leaves room for the count of the rest.
  method LayTable(lines: seq<Line>, base: nat, max: nat) returns (table: string, defs: string, kept: nat)
    ensures kept == KeptRows(lines, 0, base, max)
    ensures table == Table(lines, kept) && defs == LineDefs(lines[..kept])
  {
    hide MoreRow;
    table, defs, kept := "", "", 0;
    assert lines[..0] == [];
    if |lines| > 0 {
      var size: nat := base;
      for i := 0 to |lines|
        invariant kept == i
        invariant KeptRows(lines, i, size, max) == KeptRows(lines, 0, base, max)
      {
        var reserve := if i < |lines| - 1 then Bytes(MoreRow(|lines| - i)) else 0;
        if max > 0 && size + Bytes(lines[i].text) + Bytes(lines[i].def) + reserve > max {
          break;
        }
        size := size + Bytes(lines[i].text) + Bytes(lines[i].def);
        kept := kept + 1;
      }
      var texts := "";
      for i := 0 to kept
        invariant texts == LineTexts(lines[..i]) && defs == LineDefs(lines[..i])
      {
        assert lines[..i + 1][..i] == lines[..i];
        texts := texts + lines[i].text;
        defs := defs + lines[i].def;
      }
      table := TABLE_HEAD + texts + if kept < |lines| then MoreRow(|lines| - kept) else "";
    }
  }

  method DetailBlocks(letter: char -> bool, items: seq<Item>) returns (blocks: seq<Block>)
    ensures blocks == BlocksOf(letter, items).list
  {
    hide Clip;
    hide InlineText;
    hide Marker;
    hide SkillText;
    blocks := [];
    var indent := "";
    for i := 0 to |items|
      invariant Blocks(blocks, indent) == BlocksOf(letter, items[..i])
    {
      var item := items[i];
      assert items[..i + 1][..i] == items[..i];
      match item.kind {
        case PromptItem =>
          var marker := Marker(item.ordinal);
          indent := Spaces(|marker|);
          blocks := blocks + [Block(marker + InlineText(letter, Clip(item.text, MAX_PROMPT)) + "\n", true)];
        case SkillItem =>
          var entry := Entry(letter, item);
          var n := |blocks| - 1;
          if |blocks| == 0 {
            blocks := [Block(entry, false)];
          } else if blocks[n].prompt {
            blocks := blocks[n := blocks[n].(text := blocks[n].text + (indent + entry))];
          } else {
            blocks := blocks[n := blocks[n].(text := blocks[n].text + entry)];
          }
        case _ =>
      }
    }
    assert items[..|items|] == items;
  }

  // promptDetails over the items of the listing.
  method Details(letter: char -> bool, items: seq<Item>, tier: Tier, budget: int) returns (out: string)
    ensures out == DetailsOf(letter, items, tier, budget)
  {
    hide MoreLine;
    hide DetailsOpen;
    hide BlocksOf;
    hide Bytes;
    hide Emitted;
    hide BlockTexts;
    hide PromptBlocks;
    var blocks := DetailBlocks(letter, items);
    if |blocks| == 0 {
      return "";
    }
    var total := |Filter(OfKind(PromptItem), items)|;
    var open := DetailsOpen(total);
    var moreReserve := if total > 0 then Bytes(MoreLine(total)) else 0;
    var frame := Bytes(open) + moreReserve + Bytes(DETAILS_CLOSE);
    assert frame == Frame(total);
    var texts, inlined, emitted := EmitBlocks(blocks, tier, frame, budget);
    if emitted == 0 && tier.maxBytes > 0 && frame > budget {
      return "";
    }
    out := open + texts;
    out := out + if total - inlined > 0 then MoreLine(total - inlined) else "";
    out := out + DETAILS_CLOSE;
  }

  method EmitBlocks(blocks: seq<Block>, tier: Tier, frame: nat, budget: int)
    returns (out: string, inlined: nat, emitted: nat)
    ensures emitted == Emitted(blocks, 0, tier, frame, budget)
    ensures out == BlockTexts(blocks[..emitted]) && inlined == PromptBlocks(blocks[..emitted])
  {
    out, inlined, emitted := "", 0, 0;
    for i := 0 to |blocks|
      invariant emitted == i
      invariant out == BlockTexts(blocks[..i]) && inlined == PromptBlocks(blocks[..i])
      invariant Emitted(blocks, i, tier, frame, budget) == Emitted(blocks, 0, tier, frame, budget)
    {
      var b := blocks[i];
      if b.prompt && tier.inlinePrompts > 0 && inlined >= tier.inlinePrompts {
        break;
      }
      var text := b.text;
      if !b.prompt {
        text := text + "\n";
      }
      if tier.maxBytes > 0 && frame + Bytes(out) + Bytes(text) > budget {
        break;
      }
      assert blocks[..i + 1][..i] == blocks[..i];
      out := out + text;
      emitted := emitted + 1;
      if b.prompt {
        inlined := inlined + 1;
      }
    }
  }

  // Render: the text, or the refusal, the rendered value says.
  method RenderPullRequest(letter: char -> bool, pr: PullRequest, tier: Tier, validate: Digest -> bool)
    returns (r: Result<string, Refusal>)
    ensures r == Render(letter, pr, tier, validate)
  {
    hide BoldLine;
    hide Footer;
    hide DetailsOf;
    hide Lines;
    hide KeptRows;
    hide Table;
    hide LineDefs;
    hide Bytes;
    hide RowsFor;
    hide SessionIds;
    hide Traced;
    hide RowMap;
    hide Uncovered;
    var d := pr.digest;
    if !validate(d) {
      return Err(InvalidDigest);
    }
    if TrimSpace(d.header.villageUrl) == "" {
      return Err(NoVillagePage);
    }
    var rows := RowsById(pr.rows);
    var order, traced := Attached(d.items, rows);
    if order.Err? {
      return Err(order.error);
    }
    var lines := TableLines(letter, order.value, traced);
    var head := BoldLine(|order.value|, d.header.commitsCovered, d.header.commitsTotal);
    var covered := set t | t in traced :: t.1;
    var uncovered := UncoveredCommits(pr.commitSet, covered);
    var footer := Footer(uncovered);
    var prDef := PrDef(d.header.villageUrl);
    var table, defs, kept := LayTable(lines, Base(head, footer, prDef), tier.maxBytes);
    var fixed := head + table;
    var tail := footer + "\n" + (defs + prDef);
    ghost var l := LayoutOf(letter, order.value, traced, pr.commitSet, d.header.commitsCovered, d.header.commitsTotal,
                            d.header.villageUrl, tier.maxBytes);
    assert fixed == Fixed(l) && tail == Tail(l);
    r := Complete(letter, d, rows, fixed, tail, tier, validate, l);
  }

  lemma AllListed(items: seq<Item>, rows: map<string, Row>)
    ensures (forall x :: x in items ==> ListedBy(rows)(x.tid)) <==> (forall x :: x in items ==> Listed(rows, x.tid))
  {
  }

  method Complete(letter: char -> bool, d: Digest, rows: map<string, Row>, fixed: string, tail: string, tier: Tier,
                  validate: Digest -> bool, ghost l: Layout) returns (r: Result<string, Refusal>)
    requires fixed == Fixed(l) && tail == Tail(l)
    ensures r == Finish(letter, d, rows, l, tier, validate)
  {
    hide DetailsOf;
    hide Bytes;
    hide Fixed;
    hide Tail;
    hide RestrictDigest;
    hide Listed;
    AllListed(d.items, rows);
    var size := Bytes(fixed) + Bytes(tail);
    if tier.maxBytes > 0 && size > tier.maxBytes {
      return Err(TableOverCap(size));
    }
    var listing := DigestBuild.Restrict(d, ListedBy(rows), validate);
    if listing.Err? {
      return Err(InvalidListing);
    }
    var details := Details(letter, listing.value.items, tier, tier.maxBytes - size);
    return Ok(fixed + details + tail);
  }
}

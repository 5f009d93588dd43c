// What a rendering may depend on: of a transcript that is not listed, its
// existence, its author and the commits it traced, and nothing else.
module RenderPrivacy {
  import opened Options
  import opened Sequences
  import opened Text
  import opened Inline
  import opened DigestModel
  import opened DigestTheorems
  import opened RenderModel

  // A row without what only a listed transcript may show.
  function PublicRow(row: Row): Row {
    if row.listed then row else row.(title := "", url := "")
  }

  function PublicRows(rows: seq<Row>): (r: seq<Row>)
    ensures |r| == |rows|
  {
    if rows == [] then [] else PublicRows(rows[..|rows| - 1]) + [PublicRow(rows[|rows| - 1])]
  }

  // Everything a reader of the pull request may learn. Titles, pages, prompts
  // and skills appear of listed transcripts only, and no number that counts
  // items of the others: labels and ordinals are erased, counts left out.
  datatype View = View(
    commitsCovered: nat, commitsTotal: nat, villageUrl: string, harness: string, redaction: string,
    commitSet: seq<string>, sessions: Result<seq<Row>, Refusal>, traced: seq<(string, string)>,
    listed: seq<Item>, allListed: bool)

  function PublicOrder(order: Result<seq<Row>, Refusal>): Result<seq<Row>, Refusal> {
    if order.Ok? then Ok(PublicRows(order.value)) else order
  }

  ghost function ViewOf(pr: PullRequest): View {
    var d, rows := pr.digest, RowMap(pr.rows);
    View(d.header.commitsCovered, d.header.commitsTotal, d.header.villageUrl, d.header.harness, d.header.redaction,
         pr.commitSet, PublicOrder(RowsFor(rows, SessionIds(d.items))), Traced(d.items),
         Map(Erase(), Filter(ItemKept(ListedBy(rows)), d.items)),
         forall x :: x in d.items ==> Listed(rows, x.tid))
  }

  // ---- the table reads public rows only ----

  lemma {:induction false} PublicRowsListed(rows: seq<Row>)
    ensures CountListed(PublicRows(rows)) == CountListed(rows)
  {
    if rows != [] {
      var n := |rows| - 1;
      PublicRowsListed(rows[..n]);
      assert PublicRows(rows)[..n] == PublicRows(rows[..n]);
    }
  }

  lemma {:induction false} LinesArePublic(letter: char -> bool, rows: seq<Row>, traced: seq<(string, string)>)
    ensures Lines(letter, PublicRows(rows), traced) == Lines(letter, rows, traced)
  {
    hide RowText;
    hide RowDef;
    if rows != [] {
      var n := |rows| - 1;
      LinesArePublic(letter, rows[..n], traced);
      PublicRowsListed(rows);
      assert PublicRows(rows)[..n] == PublicRows(rows[..n]);
      RowIsPublic(letter, rows[n], CountListed(rows), CommitsOf(traced, rows[n].tid));
    }
  }

  lemma RowIsPublic(letter: char -> bool, row: Row, ref: nat, shas: seq<string>)
    ensures RowText(letter, PublicRow(row), ref, shas) == RowText(letter, row, ref, shas)
    ensures RowDef(PublicRow(row), ref) == RowDef(row, ref)
    ensures PublicRow(row).tid == row.tid && PublicRow(row).listed == row.listed
  {
    hide Handle;
    hide CommitList;
    hide Clip;
  }

  lemma LayoutIsPublic(letter: char -> bool, order: seq<Row>, traced: seq<(string, string)>, commitSet: seq<string>,
                       covered: nat, total: nat, url: string, max: nat)
    ensures LayoutOf(letter, PublicRows(order), traced, commitSet, covered, total, url, max)
         == LayoutOf(letter, order, traced, commitSet, covered, total, url, max)
  {
    hide BoldLine;
    hide Footer;
    hide Lines;
    hide KeptRows;
    hide Table;
    hide LineDefs;
    hide Base;
    LinesArePublic(letter, order, traced);
    PublicRowsListed(order);
  }

  // ---- the listing reads listed items only ----

  lemma {:induction false} SkillNamesErased(items: seq<Item>)
    ensures SkillNames(Map(Erase(), items)) == SkillNames(items)
  {
    if items != [] {
      var n := |items| - 1;
      SkillNamesErased(items[..n]);
      MapPrefix(Erase(), items, n);
    }
  }

  // Two consistent digests with the same listed items, up to numbering, and the
  // same fixed header fields restrict to one digest.
  lemma ListingsAgree(d: Digest, e: Digest, keepD: string -> bool, keepE: string -> bool)
    requires Consistent(d) && Consistent(e)
    requires Map(Erase(), Filter(ItemKept(keepD), d.items)) == Map(Erase(), Filter(ItemKept(keepE), e.items))
    requires d.header.commitsTotal == e.header.commitsTotal && d.header.villageUrl == e.header.villageUrl
    requires d.header.harness == e.header.harness && d.header.redaction == e.header.redaction
    ensures RestrictDigest(d, keepD) == RestrictDigest(e, keepE)
  {
    var a, b := Filter(ItemKept(keepD), d.items), Filter(ItemKept(keepE), e.items);
    RestrictConsistent(d, keepD);
    RestrictConsistent(e, keepE);
    RenumberErased(a);
    RenumberErased(b);
    SkillNamesErased(a);
    SkillNamesErased(b);
    forall kind
      ensures CountKind(kind, a) == CountKind(kind, b)
    {
      CountErased(kind, a);
      CountErased(kind, b);
    }
  }

  lemma FinishAgrees(letter: char -> bool, d: Digest, e: Digest, rowsD: map<string, Row>, rowsE: map<string, Row>,
                     l: Layout, tier: Tier, validate: Digest -> bool)
    requires RestrictDigest(d, ListedBy(rowsD)) == RestrictDigest(e, ListedBy(rowsE))
    requires (forall x :: x in d.items ==> Listed(rowsD, x.tid)) == (forall x :: x in e.items ==> Listed(rowsE, x.tid))
    ensures Finish(letter, d, rowsD, l, tier, validate) == Finish(letter, e, rowsE, l, tier, validate)
  {
    hide DetailsOf;
    hide RestrictDigest;
    hide Fixed;
    hide Tail;
    hide Bytes;
  }

  // The main result: pull requests with one public view render identically, in
  // every tier and for every validator that judges their digests alike.
  lemma RenderShowsOnlyTheView(letter: char -> bool, p: PullRequest, q: PullRequest, tier: Tier,
                               validate: Digest -> bool)
    requires Consistent(p.digest) && Consistent(q.digest)
    requires validate(p.digest) == validate(q.digest)
    requires ViewOf(p) == ViewOf(q)
    ensures Render(letter, p, tier, validate) == Render(letter, q, tier, validate)
  {
    hide LayoutOf;
    hide Finish;
    hide PublicRows;
    hide TrimSpace;
    hide Traced;
    hide RowsFor;
    hide SessionIds;
    hide RowMap;
    hide Consistent;
    hide RestrictDigest;
    var d, e := p.digest, q.digest;
    var rowsD, rowsE := RowMap(p.rows), RowMap(q.rows);
    var a, b := RowsFor(rowsD, SessionIds(d.items)), RowsFor(rowsE, SessionIds(e.items));
    ListingsAgree(d, e, ListedBy(rowsD), ListedBy(rowsE));
    if a.Ok? && b.Ok? {
      LayoutIsPublic(letter, a.value, Traced(d.items), p.commitSet, d.header.commitsCovered, d.header.commitsTotal,
                     d.header.villageUrl, tier.maxBytes);
      LayoutIsPublic(letter, b.value, Traced(e.items), q.commitSet, e.header.commitsCovered, e.header.commitsTotal,
                     e.header.villageUrl, tier.maxBytes);
      FinishAgrees(letter, d, e, rowsD, rowsE,
                   LayoutOf(letter, a.value, Traced(d.items), p.commitSet, d.header.commitsCovered,
                            d.header.commitsTotal, d.header.villageUrl, tier.maxBytes),
                   tier, validate);
    }
  }

  // ---- the pull request with everything unlisted taken out ----

  // A listed transcript's item, or what any transcript shows: that it is
  // attached and what it traced.
  function Shown(rows: map<string, Row>): Item -> bool {
    (i: Item) => Listed(rows, i.tid) || i.kind == SessionItem || i.kind == CommitItem
  }

  // The pull request as if no unlisted title, page, prompt or skill existed.
  ghost function Redacted(pr: PullRequest): PullRequest {
    PullRequest(Recount(pr.digest, Filter(Shown(RowMap(pr.rows)), pr.digest.items)), PublicRows(pr.rows), pr.commitSet)
  }

  lemma {:induction false} RowMapPublic(rows: seq<Row>)
    ensures RowMap(PublicRows(rows)).Keys == RowMap(rows).Keys
    ensures forall t :: t in RowMap(rows) ==> RowMap(PublicRows(rows))[t] == PublicRow(RowMap(rows)[t])
    ensures forall t :: Listed(RowMap(PublicRows(rows)), t) == Listed(RowMap(rows), t)
  {
    if rows != [] {
      var n := |rows| - 1;
      RowMapPublic(rows[..n]);
      assert PublicRows(rows)[..n] == PublicRows(rows[..n]);
    }
  }

  lemma {:induction false} RowsForPublic(rows: seq<Row>, tids: seq<string>)
    ensures PublicOrder(RowsFor(RowMap(PublicRows(rows)), tids)) == PublicOrder(RowsFor(RowMap(rows), tids))
    ensures RowsFor(RowMap(rows), tids).Ok? <==> RowsFor(RowMap(PublicRows(rows)), tids).Ok?
  {
    RowMapPublic(rows);
    if tids != [] {
      var n := |tids| - 1;
      RowsForPublic(rows, tids[..n]);
      var a, b := RowsFor(RowMap(rows), tids[..n]), RowsFor(RowMap(PublicRows(rows)), tids[..n]);
      var t := tids[n];
      if a.Ok? && t in RowMap(rows) {
        PublicSnoc(a.value, RowMap(rows)[t]);
        PublicSnoc(b.value, PublicRow(RowMap(rows)[t]));
      }
    }
  }

  lemma PublicSnoc(rows: seq<Row>, row: Row)
    ensures PublicRows(rows + [row]) == PublicRows(rows) + [PublicRow(row)]
    ensures PublicRow(PublicRow(row)) == PublicRow(row)
  {
    assert (rows + [row])[..|rows|] == rows;
  }

  // Numbering leaves who is attached and what they traced as they are.
  lemma {:induction false} TracesRenumbered(items: seq<Item>)
    ensures SessionIds(Renumber(items)) == SessionIds(items)
    ensures Traced(Renumber(items)) == Traced(items)
  {
    if items != [] {
      var n := |items| - 1;
      TracesRenumbered(items[..n]);
      assert Renumber(items)[..n] == Renumber(items[..n]);
    }
  }

  lemma {:induction false} TracesShown(rows: map<string, Row>, items: seq<Item>)
    ensures SessionIds(Filter(Shown(rows), items)) == SessionIds(items)
    ensures Traced(Filter(Shown(rows), items)) == Traced(items)
  {
    if items != [] {
      var n := |items| - 1;
      var kept := Filter(Shown(rows), items[..n]);
      TracesShown(rows, items[..n]);
      FilterLast(Shown(rows), items);
      assert kept + [] == kept;
      assert (kept + [items[n]])[..|kept|] == kept;
    }
  }

  lemma ListedOfShown(pr: PullRequest)
    ensures Map(Erase(), Filter(ItemKept(ListedBy(RowMap(PublicRows(pr.rows)))),
                                Renumber(Filter(Shown(RowMap(pr.rows)), pr.digest.items))))
         == Map(Erase(), Filter(ItemKept(ListedBy(RowMap(pr.rows))), pr.digest.items))
  {
    var rows, items := RowMap(pr.rows), pr.digest.items;
    var shown := Filter(Shown(rows), items);
    var p, q := ListedBy(RowMap(PublicRows(pr.rows))), ListedBy(rows);
    RowMapPublic(pr.rows);
    FilterSame(ItemKept(p), ItemKept(q), Renumber(shown));
    FilterErased(q, Renumber(shown));
    RenumberErased(shown);
    FilterErased(q, shown);
    FilterCommutes(ItemKept(q), Shown(rows), items);
    FilterAll(Shown(rows), Filter(ItemKept(q), items));
  }

  lemma CommitsShown(rows: map<string, Row>, items: seq<Item>)
    ensures CountKind(CommitItem, Filter(Shown(rows), items)) == CountKind(CommitItem, items)
  {
    FilterCommutes(OfKind(CommitItem), Shown(rows), items);
    FilterAll(Shown(rows), Filter(OfKind(CommitItem), items));
  }

  ghost predicate Mentions(items: seq<Item>, tid: string) {
    exists x :: x in items && x.tid == tid
  }

  lemma TidsRenumbered(items: seq<Item>, tid: string)
    ensures Mentions(Renumber(items), tid) <==> Mentions(items, tid)
  {
    SameTids(items);
    if Mentions(Renumber(items), tid) {
      var x :| x in Renumber(items) && x.tid == tid;
      var i :| 0 <= i < |items| && Renumber(items)[i] == x;
      assert items[i] in items;
    }
    if Mentions(items, tid) {
      var x :| x in items && x.tid == tid;
      var i :| 0 <= i < |items| && items[i] == x;
      assert Renumber(items)[i] in Renumber(items);
    }
  }

  lemma SameTid(item: Item, sessions: nat, prompts: nat)
    ensures Stamp(item, sessions, prompts).tid == item.tid
  {
  }

  lemma SameTids(items: seq<Item>)
    ensures forall i :: 0 <= i < |items| ==> Renumber(items)[i].tid == items[i].tid
  {
    forall i | 0 <= i < |items|
      ensures Renumber(items)[i].tid == items[i].tid
    {
      SameTidAt(items, i);
    }
  }

  lemma {:induction false} SameTidAt(items: seq<Item>, i: nat)
    requires i < |items|
    ensures Renumber(items)[i].tid == items[i].tid
  {
    hide CountKind;
    hide Stamp;
    var n := |items| - 1;
    if i < n {
      SameTidAt(items[..n], i);
    } else {
      SameTid(items[n], CountKind(SessionItem, items), CountKind(PromptItem, items));
    }
  }

  lemma {:induction false} SessionIdItems(items: seq<Item>, t: string)
    requires t in SessionIds(items)
    ensures exists x :: x in items && x.kind == SessionItem && x.tid == t
  {
    var n := |items| - 1;
    if t in SessionIds(items[..n]) {
      SessionIdItems(items[..n], t);
      var x :| x in items[..n] && x.kind == SessionItem && x.tid == t;
      assert x in items;
    } else {
      assert items[n] in items;
    }
  }

  // Every prompt and skill is of a transcript that has a session item.
  ghost predicate Attributed(items: seq<Item>) {
    forall x :: x in items && x.kind in {PromptItem, SkillItem} ==> x.tid in SessionIds(items)
  }

  // Each item, or a session item of its transcript, is shown to everyone.
  lemma ShownFor(rows: map<string, Row>, items: seq<Item>, x: Item)
    requires Attributed(items) && x in items
    ensures exists y :: y in Filter(Shown(rows), items) && y.tid == x.tid
  {
    if x.kind in {PromptItem, SkillItem} {
      SessionIdItems(items, x.tid);
      var y :| y in items && y.kind == SessionItem && y.tid == x.tid;
      assert Shown(rows)(y);
    } else {
      assert Shown(rows)(x);
    }
  }

  lemma AllListedShown(pr: PullRequest)
    requires Attributed(pr.digest.items)
    ensures var rows := RowMap(pr.rows);
            (forall x :: x in pr.digest.items ==> Listed(rows, x.tid)) <==>
            (forall x :: x in Renumber(Filter(Shown(rows), pr.digest.items)) ==>
              Listed(RowMap(PublicRows(pr.rows)), x.tid))
  {
    var rows, items := RowMap(pr.rows), pr.digest.items;
    var shown := Filter(Shown(rows), items);
    RowMapPublic(pr.rows);
    if forall x :: x in items ==> Listed(rows, x.tid) {
      forall x | x in Renumber(shown)
        ensures Listed(RowMap(PublicRows(pr.rows)), x.tid)
      {
        TidsRenumbered(shown, x.tid);
        var y :| y in shown && y.tid == x.tid;
      }
    }
    if forall x :: x in Renumber(shown) ==> Listed(RowMap(PublicRows(pr.rows)), x.tid) {
      forall x | x in items
        ensures Listed(rows, x.tid)
      {
        ShownFor(rows, items, x);
        var s :| s in shown && s.tid == x.tid;
        TidsRenumbered(shown, s.tid);
        var y :| y in Renumber(shown) && y.tid == s.tid;
      }
    }
  }

  lemma RecountConsistent(d: Digest, items: seq<Item>)
    ensures Consistent(Recount(d, items))
  {
    RenumberIdempotent(items);
    CountRenumbered(SessionItem, items);
    CountRenumbered(PromptItem, items);
    CountRenumbered(CommitItem, items);
    SkillNamesRenumbered(items);
  }

  // A rendering is the rendering of the redacted pull request: nothing said of
  // an unlisted transcript beyond its author and its commits was ever read.
  lemma RenderIgnoresUnlisted(letter: char -> bool, pr: PullRequest, tier: Tier, validate: Digest -> bool)
    requires Consistent(pr.digest)
    requires Attributed(pr.digest.items)
    requires validate(pr.digest) == validate(Redacted(pr).digest)
    ensures Render(letter, pr, tier, validate) == Render(letter, Redacted(pr), tier, validate)
  {
    hide Render;
    RecountConsistent(pr.digest, Filter(Shown(RowMap(pr.rows)), pr.digest.items));
    RedactionKeepsView(pr);
    RenderShowsOnlyTheView(letter, pr, Redacted(pr), tier, validate);
  }

  lemma RedactionKeepsView(pr: PullRequest)
    requires Consistent(pr.digest)
    requires Attributed(pr.digest.items)
    ensures ViewOf(Redacted(pr)) == ViewOf(pr)
  {
    hide RowsFor;
    hide SessionIds;
    hide Traced;
    hide RowMap;
    hide PublicRows;
    hide Listed;
    var rows, items := RowMap(pr.rows), pr.digest.items;
    var shown := Filter(Shown(rows), items);
    TracesRenumbered(shown);
    TracesShown(rows, items);
    RowsForPublic(pr.rows, SessionIds(items));
    ListedOfShown(pr);
    CommitsShown(rows, items);
    AllListedShown(pr);
  }
}

// When the restricted digest is the digest a fresh Build would give, exactly.
module DigestExactness {
  import opened Options
  import opened Sequences
  import opened StableSorting
  import opened Text
  import opened DigestModel
  import opened DigestTheorems

  // x comes somewhere before y.
  ghost predicate Before<T>(s: seq<T>, x: T, y: T) {
    exists i, j :: 0 <= i < j < |s| && s[i] == x && s[j] == y
  }

  // Every commit a kept transcript recorded is attributed to a kept transcript.
  ghost predicate NoLostCommit(anchors: seq<Anchor>, keep: string -> bool) {
    forall s :: s in Order(Filter(AnchorKept(keep), anchors)) ==>
      Winner(anchors, s).Some? && keep(Winner(anchors, s).value.tid)
  }

  // No two kept commits authored at one instant were first recorded in an order
  // that removing the other transcripts' records reverses.
  ghost predicate NoReorder(anchors: seq<Anchor>, keep: string -> bool) {
    var kept := Filter(AnchorKept(keep), anchors);
    forall s, t :: s in Order(kept) && t in Order(kept) && Winner(kept, s).Some? && Winner(kept, t).Some?
      && Winner(kept, s).value.at == Winner(kept, t).value.at && Before(Order(anchors), s, t)
      ==> Before(Order(kept), s, t)
  }

  // The two digests differ at most in the harness and the redaction level.
  ghost predicate SameApartFromSource(d: Digest, e: Digest) {
    d.(header := d.header.(harness := e.header.harness, redaction := e.header.redaction)) == e
  }

  function NotCommit(): Item -> bool { (i: Item) => i.kind != CommitItem }

  function WinnerIsKept(anchors: seq<Anchor>, keep: string -> bool): string -> bool {
    (sha: string) => Winner(anchors, sha).Some? && keep(Winner(anchors, sha).value.tid)
  }

  function AtInstant(anchors: seq<Anchor>, k: int): string -> bool {
    (sha: string) => CommitItemFor(anchors)(sha).at == k
  }

  // ---- order lemmas ----

  lemma {:induction false} SameOrderSame<T(!new)>(s: seq<T>, t: seq<T>)
    requires Distinct(s) && Distinct(t)
    requires forall x :: x in s <==> x in t
    requires forall x, y :: Before(s, x, y) ==> Before(t, x, y)
    ensures s == t
  {
    if s == [] {
      assert forall i :: 0 <= i < |t| ==> t[i] in t;
    } else {
      assert s[0] in t && t[0] in s;
      if t[0] != s[0] {
        var j :| 0 <= j < |s| && s[j] == t[0];
        assert Before(s, s[0], t[0]);
        assert false;
      }
      assert s == [s[0]] + s[1..] && t == [t[0]] + t[1..];
      assert s[0] !in s[1..] && t[0] !in t[1..];
      forall x
        ensures x in s[1..] <==> x in t[1..]
      {
        assert x in s <==> x == s[0] || x in s[1..];
        assert x in t <==> x == t[0] || x in t[1..];
      }
      forall x, y | Before(s[1..], x, y)
        ensures Before(t[1..], x, y)
      {
        var i, j :| 0 <= i < j < |s[1..]| && s[1..][i] == x && s[1..][j] == y;
        assert s[i + 1] == x && s[j + 1] == y;
        assert Before(s, x, y);
        var m, n :| 0 <= m < n < |t| && t[m] == x && t[n] == y;
        assert x in s[1..];
        assert t[1..][m - 1] == x && t[1..][n - 1] == y;
      }
      SameOrderSame(s[1..], t[1..]);
    }
  }

  lemma {:induction false} FilterKeepsBefore<T>(p: T -> bool, s: seq<T>, x: T, y: T)
    requires Before(s, x, y) && p(x) && p(y)
    ensures Before(Filter(p, s), x, y)
  {
    var i, j :| 0 <= i < j < |s| && s[i] == x && s[j] == y;
    var a, b := s[..j], s[j..];
    assert s == a + b;
    FilterConcat(p, a, b);
    assert a[i] == x && b[0] == y;
    assert x in Filter(p, a) && y in Filter(p, b);
    var m :| 0 <= m < |Filter(p, a)| && Filter(p, a)[m] == x;
    var n :| 0 <= n < |Filter(p, b)| && Filter(p, b)[n] == y;
    var f := Filter(p, a) + Filter(p, b);
    assert f[m] == x && f[|Filter(p, a)| + n] == y;
  }

  lemma BeforeOfFilter<T>(p: T -> bool, s: seq<T>, x: T, y: T)
    requires Before(Filter(p, s), x, y)
    ensures Before(s, x, y)
  {
    var i, j :| 0 <= i < j < |Filter(p, s)| && Filter(p, s)[i] == x && Filter(p, s)[j] == y;
    var m, n := FilterIndex(p, s, i, j);
  }

  // ---- the commit items on each side ----

  // What Restrict keeps of the commit items.
  lemma KeptCommitItems(anchors: seq<Anchor>, keep: string -> bool)
    ensures Filter(ItemKept(keep), CommitItems(anchors))
         == Map(CommitItemFor(anchors), Filter(WinnerIsKept(anchors, keep), Order(anchors)))
  {
    forall s | s in Order(anchors)
      ensures ItemKept(keep)(CommitItemFor(anchors)(s)) == WinnerIsKept(anchors, keep)(s)
    {
      WinnerOf(anchors, s);
    }
    FilterMap(ItemKept(keep), CommitItemFor(anchors), WinnerIsKept(anchors, keep), Order(anchors));
  }

  lemma KeptOrderSubset(anchors: seq<Anchor>, keep: string -> bool, sha: string)
    ensures sha in Order(Filter(AnchorKept(keep), anchors)) ==> sha in Order(anchors)
    ensures sha in Order(anchors) && WinnerIsKept(anchors, keep)(sha) ==>
              sha in Order(Filter(AnchorKept(keep), anchors)) &&
              CommitItemFor(Filter(AnchorKept(keep), anchors))(sha) == CommitItemFor(anchors)(sha)
  {
    var kept := Filter(AnchorKept(keep), anchors);
    OrderMembers(anchors);
    OrderMembers(kept);
    if sha in Order(kept) {
      var i :| 0 <= i < |kept| && kept[i].sha == sha;
      assert kept[i] in anchors;
    }
    if sha in Order(anchors) && WinnerIsKept(anchors, keep)(sha) {
      WinnerKept(anchors, keep, sha);
      WinnerOf(kept, sha);
    }
  }

  lemma CommitItemSha(anchors: seq<Anchor>, sha: string)
    ensures CommitItemFor(anchors)(sha).sha == sha
  {
    WinnerOf(anchors, sha);
  }

  // The commits of one instant, on either side, as SHAs in recorded order.
  lemma ClassOfCommits(anchors: seq<Anchor>, shas: seq<string>, k: int)
    ensures Filter(KeyIs(InstantOf(), k), Map(CommitItemFor(anchors), shas))
         == Map(CommitItemFor(anchors), Filter(AtInstant(anchors, k), shas))
  {
    FilterMap(KeyIs(InstantOf(), k), CommitItemFor(anchors), AtInstant(anchors, k), shas);
  }

  lemma EqualItemsEqualShas(a: seq<Anchor>, b: seq<Anchor>, s: seq<string>, t: seq<string>)
    requires Map(CommitItemFor(a), s) == Map(CommitItemFor(b), t)
    ensures s == t
  {
    forall i | 0 <= i < |s|
      ensures s[i] == t[i]
    {
      CommitItemSha(a, s[i]);
      CommitItemSha(b, t[i]);
      assert Map(CommitItemFor(a), s)[i] == Map(CommitItemFor(b), t)[i];
    }
  }

  lemma SortedCommitsExact(anchors: seq<Anchor>, keep: string -> bool)
    ensures StableSort(InstantOf(), Filter(ItemKept(keep), CommitItems(anchors)))
         == StableSort(InstantOf(), CommitItems(Filter(AnchorKept(keep), anchors)))
       <==> NoLostCommit(anchors, keep) && NoReorder(anchors, keep)
  {
    if NoLostCommit(anchors, keep) && NoReorder(anchors, keep) {
      CommitsAgree(anchors, keep);
    }
    if StableSort(InstantOf(), Filter(ItemKept(keep), CommitItems(anchors)))
       == StableSort(InstantOf(), CommitItems(Filter(AnchorKept(keep), anchors))) {
      AgreementLosesNothing(anchors, keep);
      AgreementKeepsOrder(anchors, keep);
    }
  }

  lemma CommitsAgree(anchors: seq<Anchor>, keep: string -> bool)
    requires NoLostCommit(anchors, keep) && NoReorder(anchors, keep)
    ensures StableSort(InstantOf(), Filter(ItemKept(keep), CommitItems(anchors)))
         == StableSort(InstantOf(), CommitItems(Filter(AnchorKept(keep), anchors)))
  {
    var kept := Filter(AnchorKept(keep), anchors);
    var shown := Filter(WinnerIsKept(anchors, keep), Order(anchors));
    var restricted := Map(CommitItemFor(anchors), shown);
    KeptCommitItems(anchors, keep);
    StableSortSorts(InstantOf(), restricted);
    forall k
      ensures Filter(KeyIs(InstantOf(), k), StableSort(InstantOf(), restricted)) ==
          Filter(KeyIs(InstantOf(), k), CommitItems(kept))
    {
      StableSortStable(InstantOf(), restricted, k);
      ClassOfCommits(anchors, shown, k);
      ClassOfCommits(kept, Order(kept), k);
      ClassesAgree(anchors, keep, k);
    }
    StableSortUnique(InstantOf(), CommitItems(kept), StableSort(InstantOf(), restricted));
  }

  lemma ClassesAgree(anchors: seq<Anchor>, keep: string -> bool, k: int)
    requires NoLostCommit(anchors, keep) && NoReorder(anchors, keep)
    ensures Map(CommitItemFor(anchors),
        Filter(AtInstant(anchors, k), Filter(WinnerIsKept(anchors, keep), Order(anchors))))
         == Map(CommitItemFor(Filter(AnchorKept(keep), anchors)),
                Filter(AtInstant(Filter(AnchorKept(keep), anchors), k), Order(Filter(AnchorKept(keep), anchors))))
  {
    var kept := Filter(AnchorKept(keep), anchors);
    var shown := Filter(WinnerIsKept(anchors, keep), Order(anchors));
    var s, t := Filter(AtInstant(anchors, k), shown), Filter(AtInstant(kept, k), Order(kept));
    forall x: string
      ensures x in s <==> x in t
      ensures x in s ==> CommitItemFor(kept)(x) == CommitItemFor(anchors)(x)
    {
      KeptOrderSubset(anchors, keep, x);
    }
    OrderMembers(anchors);
    OrderMembers(kept);
    FilterDistinct(WinnerIsKept(anchors, keep), Order(anchors));
    FilterDistinct(AtInstant(anchors, k), shown);
    FilterDistinct(AtInstant(kept, k), Order(kept));
    forall x, y | Before(s, x, y)
      ensures Before(t, x, y)
    {
      BeforeOfFilter(AtInstant(anchors, k), shown, x, y);
      BeforeOfFilter(WinnerIsKept(anchors, keep), Order(anchors), x, y);
      assert x in s && y in s && x in t && y in t;
      WinnerOf(kept, x);
      WinnerOf(kept, y);
      FilterKeepsBefore(AtInstant(kept, k), Order(kept), x, y);
    }
    SameOrderSame(s, t);
  }

  lemma AgreementLosesNothing(anchors: seq<Anchor>, keep: string -> bool)
    requires StableSort(InstantOf(), Filter(ItemKept(keep), CommitItems(anchors)))
          == StableSort(InstantOf(), CommitItems(Filter(AnchorKept(keep), anchors)))
    ensures NoLostCommit(anchors, keep)
  {
    var kept := Filter(AnchorKept(keep), anchors);
    var shown := Filter(WinnerIsKept(anchors, keep), Order(anchors));
    var restricted, built := Map(CommitItemFor(anchors), shown), CommitItems(kept);
    KeptCommitItems(anchors, keep);
    StableSortSorts(InstantOf(), restricted);
    StableSortSorts(InstantOf(), built);
    assert multiset(restricted) == multiset(built);
    forall s | s in Order(kept)
      ensures Winner(anchors, s).Some? && keep(Winner(anchors, s).value.tid)
    {
      SameCommitShown(anchors, kept, shown, s);
      assert s in shown;
    }
  }

  lemma SameCommitShown(anchors: seq<Anchor>, kept: seq<Anchor>, shown: seq<string>, s: string)
    requires multiset(Map(CommitItemFor(anchors), shown)) == multiset(CommitItems(kept)) && s in Order(kept)
    ensures s in shown
  {
    var restricted, built := Map(CommitItemFor(anchors), shown), CommitItems(kept);
    var i :| 0 <= i < |Order(kept)| && Order(kept)[i] == s;
    assert built[i] in multiset(built);
    assert built[i] in restricted;
    var j :| 0 <= j < |restricted| && restricted[j] == built[i];
    CommitItemSha(kept, s);
    CommitItemSha(anchors, shown[j]);
  }

  lemma AgreementKeepsOrder(anchors: seq<Anchor>, keep: string -> bool)
    requires StableSort(InstantOf(), Filter(ItemKept(keep), CommitItems(anchors)))
          == StableSort(InstantOf(), CommitItems(Filter(AnchorKept(keep), anchors)))
    requires NoLostCommit(anchors, keep)
    ensures NoReorder(anchors, keep)
  {
    var kept := Filter(AnchorKept(keep), anchors);
    var shown := Filter(WinnerIsKept(anchors, keep), Order(anchors));
    KeptCommitItems(anchors, keep);
    forall s, t | s in Order(kept) && t in Order(kept) && Winner(kept, s).Some? && Winner(kept, t).Some?
      && Winner(kept, s).value.at == Winner(kept, t).value.at && Before(Order(anchors), s, t)
      ensures Before(Order(kept), s, t)
    {
      var k := Winner(kept, s).value.at;
      KeptOrderSubset(anchors, keep, s);
      KeptOrderSubset(anchors, keep, t);
      FilterKeepsBefore(WinnerIsKept(anchors, keep), Order(anchors), s, t);
      FilterKeepsBefore(AtInstant(anchors, k), shown, s, t);
      StableSortStable(InstantOf(), Map(CommitItemFor(anchors), shown), k);
      StableSortStable(InstantOf(), CommitItems(kept), k);
      ClassOfCommits(anchors, shown, k);
      ClassOfCommits(kept, Order(kept), k);
      EqualItemsEqualShas(anchors, kept, Filter(AtInstant(anchors, k), shown), Filter(AtInstant(kept, k), Order(kept)));
      BeforeOfFilter(AtInstant(kept, k), Order(kept), s, t);
    }
  }

  // ---- the whole item list ----

  // The restricted items before numbering.
  lemma RestrictedItems(sessions: seq<Session>, anchors: seq<Anchor>, total: nat, url: string, keep: string -> bool)
    requires Sorted(StartOf(), sessions)
    ensures RestrictDigest(Project(sessions, anchors, total, url), keep).items
         == Renumber(StableSort(InstantOf(),
              Blocks(Filter(SessionKept(keep), sessions), Filter(AnchorKept(keep), anchors))
              + Filter(ItemKept(keep), CommitItems(anchors))))
  {
    var d := Project(sessions, anchors, total, url);
    var p := ItemKept(keep);
    var raw := Blocks(sessions, anchors) + CommitItems(anchors);
    BuildIsConsistent(sessions, anchors, total, url);
    RestrictConsistent(d, keep);
    BuildItemsCanonical(sessions, anchors, total, url);
    RenumberFilter(keep, CanonicalItems(sessions, anchors));
    StableSortFilter(InstantOf(), p, raw);
    FilterConcat(p, Blocks(sessions, anchors), CommitItems(anchors));
    BlocksFilter(sessions, anchors, keep);
  }

  lemma SortTail(a: seq<Item>, b: seq<Item>, c: seq<Item>)
    requires StableSort(InstantOf(), b) == StableSort(InstantOf(), c)
    ensures StableSort(InstantOf(), a + b) == StableSort(InstantOf(), a + c)
  {
    var t := StableSort(InstantOf(), a + b);
    StableSortSorts(InstantOf(), a + b);
    forall k
      ensures Filter(KeyIs(InstantOf(), k), t) == Filter(KeyIs(InstantOf(), k), a + c)
    {
      var p := KeyIs(InstantOf(), k);
      StableSortStable(InstantOf(), a + b, k);
      StableSortStable(InstantOf(), b, k);
      StableSortStable(InstantOf(), c, k);
      FilterConcat(p, a, b);
      FilterConcat(p, a, c);
    }
    StableSortUnique(InstantOf(), a + c, t);
  }

  lemma {:induction false} BlocksErased(sessions: seq<Session>, anchors: seq<Anchor>)
    ensures Map(Erase(), Blocks(sessions, anchors)) == Blocks(sessions, anchors)
  {
    EraseSessionItems(sessions, anchors);
    var raw := SessionItems(sessions, anchors);
    forall i | 0 <= i < |raw|
      ensures Erased(Erased(raw[i])) == Erased(raw[i])
    {
    }
    assert Map(Erase(), Map(Erase(), raw)) == Map(Erase(), raw);
  }

  // Appending different commits to the same sessions gives the same numbered
  // items exactly when the commits sort alike.
  lemma NumberedItemsExact(sessions: seq<Session>, anchors: seq<Anchor>, c1: seq<Item>, c2: seq<Item>)
    requires forall x :: x in c1 || x in c2 ==> x.kind == CommitItem
    ensures Renumber(StableSort(InstantOf(), Blocks(sessions, anchors) + c1))
         == Renumber(StableSort(InstantOf(), Blocks(sessions, anchors) + c2))
       <==> StableSort(InstantOf(), c1) == StableSort(InstantOf(), c2)
  {
    var blocks := Blocks(sessions, anchors);
    if StableSort(InstantOf(), c1) == StableSort(InstantOf(), c2) {
      SortTail(blocks, c1, c2);
    }
    if Renumber(StableSort(InstantOf(), blocks + c1)) == Renumber(StableSort(InstantOf(), blocks + c2)) {
      CommitsOfNumbered(sessions, anchors, c1);
      CommitsOfNumbered(sessions, anchors, c2);
    }
  }

  lemma CommitsOfNumbered(sessions: seq<Session>, anchors: seq<Anchor>, commits: seq<Item>)
    requires forall x :: x in commits ==> x.kind == CommitItem
    ensures Filter(OfKind(CommitItem),
        Map(Erase(), Renumber(StableSort(InstantOf(), Blocks(sessions, anchors) + commits))))
         == StableSort(InstantOf(), commits)
  {
    var raw := Blocks(sessions, anchors) + commits;
    RenumberErased(StableSort(InstantOf(), raw));
    StableSortMap(InstantOf(), InstantOf(), Erase(), raw);
    RawErased(sessions, anchors, commits);
    StableSortFilter(InstantOf(), OfKind(CommitItem), raw);
    CommitsOfRaw(sessions, anchors, commits);
  }

  lemma RawErased(sessions: seq<Session>, anchors: seq<Anchor>, commits: seq<Item>)
    requires forall x :: x in commits ==> x.kind == CommitItem
    ensures Map(Erase(), Blocks(sessions, anchors) + commits) == Blocks(sessions, anchors) + commits
  {
    MapConcat(Erase(), Blocks(sessions, anchors), commits);
    BlocksErased(sessions, anchors);
    forall i | 0 <= i < |commits|
      ensures Erased(commits[i]) == commits[i]
    {
      assert commits[i] in commits;
    }
    assert Map(Erase(), commits) == commits;
  }

  lemma CommitsOfRaw(sessions: seq<Session>, anchors: seq<Anchor>, commits: seq<Item>)
    requires forall x :: x in commits ==> x.kind == CommitItem
    ensures Filter(OfKind(CommitItem), Blocks(sessions, anchors) + commits) == commits
  {
    var p, blocks := OfKind(CommitItem), Blocks(sessions, anchors);
    FilterConcat(p, blocks, commits);
    NoCommitsInBlocks(sessions, anchors);
    FilterNone(p, blocks);
    FilterAll(p, commits);
    assert [] + commits == commits;
  }

  // The main result: the restricted digest is the fresh one, apart from the
  // header's harness and redaction level, exactly when no kept commit is
  // attributed to a removed transcript and no two kept commits of one instant
  // change order.
  lemma RestrictIsFreshExactly(sessions: seq<Session>, anchors: seq<Anchor>, total: nat, url: string,
                               keep: string -> bool)
    requires Sorted(StartOf(), sessions)
    ensures SameApartFromSource(
              RestrictDigest(Project(sessions, anchors, total, url), keep),
              Project(Filter(SessionKept(keep), sessions), Filter(AnchorKept(keep), anchors), total, url))
       <==> NoLostCommit(anchors, keep) && NoReorder(anchors, keep)
  {
    var d := Project(sessions, anchors, total, url);
    var s, a := Filter(SessionKept(keep), sessions), Filter(AnchorKept(keep), anchors);
    var built, restricted := Project(s, a, total, url), RestrictDigest(d, keep);
    FilterSorted(sessions, keep);
    RestrictedItems(sessions, anchors, total, url, keep);
    BuildItemsCanonical(s, a, total, url);
    CommitItemKinds(anchors);
    CommitItemKinds(a);
    NumberedItemsExact(s, a, Filter(ItemKept(keep), CommitItems(anchors)), CommitItems(a));
    SortedCommitsExact(anchors, keep);
    BuildIsConsistent(s, a, total, url);
    BuildIsConsistent(sessions, anchors, total, url);
    RestrictConsistent(d, keep);
    if restricted.items == built.items {
      ConsistentDigestsAgree(restricted, built);
    }
  }

  lemma ConsistentDigestsAgree(d: Digest, e: Digest)
    requires Consistent(d) && Consistent(e) && d.items == e.items
    requires d.header.commitsTotal == e.header.commitsTotal && d.header.villageUrl == e.header.villageUrl
    ensures SameApartFromSource(d, e)
  {
  }

  lemma FilterSorted(sessions: seq<Session>, keep: string -> bool)
    requires Sorted(StartOf(), sessions)
    ensures Sorted(StartOf(), Filter(SessionKept(keep), sessions))
  {
    StableSortOfSorted(StartOf(), sessions);
    StableSortFilter(StartOf(), SessionKept(keep), sessions);
    StableSortSorts(StartOf(), Filter(SessionKept(keep), sessions));
  }

  // Two consistent digests with the same items apart from commits list the same
  // skills and count the same sessions and prompts.
  lemma SameOffCommits(d: Digest, e: Digest)
    requires Consistent(d) && Consistent(e) && Filter(NotCommit(), d.items) == Filter(NotCommit(), e.items)
    ensures d.skills == e.skills && d.header.sessionCount == e.header.sessionCount
        && d.header.promptCount == e.header.promptCount
  {
    SkillsOffCommits(d.items);
    SkillsOffCommits(e.items);
    CountOffCommits(SessionItem, d.items);
    CountOffCommits(SessionItem, e.items);
    CountOffCommits(PromptItem, d.items);
    CountOffCommits(PromptItem, e.items);
  }

  lemma {:induction false} SkillsOffCommits(items: seq<Item>)
    ensures SkillNames(Filter(NotCommit(), items)) == SkillNames(items)
  {
    if items != [] {
      var n := |items| - 1;
      var front := Filter(NotCommit(), items[..n]);
      SkillsOffCommits(items[..n]);
      FilterLast(NotCommit(), items);
      assert (front + [items[n]])[..|front|] == front;
      assert front + [] == front;
    }
  }

  // The commits a restricted digest covers are no more than the fresh one's.
  lemma FewerCommits(anchors: seq<Anchor>, keep: string -> bool)
    ensures |Filter(ItemKept(keep), CommitItems(anchors))| <= |Order(Filter(AnchorKept(keep), anchors))|
  {
    var p, kept := WinnerIsKept(anchors, keep), Order(Filter(AnchorKept(keep), anchors));
    var shown := Filter(p, Order(anchors));
    KeptCommitItems(anchors, keep);
    OrderMembers(anchors);
    FilterDistinct(p, Order(anchors));
    forall sha | sha in shown
      ensures sha in kept
    {
      KeptOrderSubset(anchors, keep, sha);
    }
    OrderMembers(Filter(AnchorKept(keep), anchors));
    DistinctWithin(shown, kept);
  }

  lemma {:induction false} DistinctWithin(a: seq<string>, b: seq<string>)
    requires Distinct(a) && forall x :: x in a ==> x in b
    ensures |a| <= |b|
  {
    if a != [] {
      assert a[0] in a;
      var k :| 0 <= k < |b| && b[k] == a[0];
      var rest := b[..k] + b[k + 1..];
      forall x | x in a[1..]
        ensures x in rest
      {
        var i :| 0 <= i < |a[1..]| && a[1..][i] == x;
        assert a[i + 1] == x && x != a[0] && a[i + 1] in a;
        var j :| 0 <= j < |b| && b[j] == x;
        assert j < k ==> rest[j] == x;
        assert j > k ==> rest[j - 1] == x;
      }
      DistinctWithin(a[1..], rest);
    }
  }

  lemma HeadersAgreeOffCommits(sessions: seq<Session>, anchors: seq<Anchor>, total: nat, url: string,
                               keep: string -> bool)
    requires Sorted(StartOf(), sessions)
    requires Filter(NotCommit(), RestrictDigest(Project(sessions, anchors, total, url), keep).items) ==
             Filter(NotCommit(), Project(Filter(SessionKept(keep), sessions), Filter(AnchorKept(keep), anchors), total,
               url).items)
    ensures var restricted := RestrictDigest(Project(sessions, anchors, total, url), keep);
            var built := Project(Filter(SessionKept(keep), sessions), Filter(AnchorKept(keep), anchors), total, url);
            && restricted.skills == built.skills
            && restricted.header.sessionCount == built.header.sessionCount
            && restricted.header.promptCount == built.header.promptCount
            && restricted.header.commitsCovered <= built.header.commitsCovered
  {
    var s, a := Filter(SessionKept(keep), sessions), Filter(AnchorKept(keep), anchors);
    var d := Project(sessions, anchors, total, url);
    FilterSorted(sessions, keep);
    BuildIsConsistent(sessions, anchors, total, url);
    BuildIsConsistent(s, a, total, url);
    RestrictConsistent(d, keep);
    CoveredKept(sessions, anchors, total, url, keep);
    FewerCommits(anchors, keep);
    hide RestrictDigest;
    hide Consistent;
    SameOffCommits(RestrictDigest(d, keep), Project(s, a, total, url));
  }

  lemma CoveredKept(sessions: seq<Session>, anchors: seq<Anchor>, total: nat, url: string, keep: string -> bool)
    requires Sorted(StartOf(), sessions)
    ensures RestrictDigest(Project(sessions, anchors, total, url), keep).header.commitsCovered ==
        |Filter(ItemKept(keep), CommitItems(anchors))|
  {
    var s, a := Filter(SessionKept(keep), sessions), Filter(AnchorKept(keep), anchors);
    var d, commits := Project(sessions, anchors, total, url), Filter(ItemKept(keep), CommitItems(anchors));
    var blocks := Blocks(s, a);
    BuildIsConsistent(sessions, anchors, total, url);
    RestrictConsistent(d, keep);
    RestrictedItems(sessions, anchors, total, url, keep);
    CountRenumbered(CommitItem, StableSort(InstantOf(), blocks + commits));
    CountSorted(CommitItem, blocks + commits);
    FilterConcat(OfKind(CommitItem), blocks, commits);
    CountBlocks(s, a);
    CommitItemKinds(anchors);
    FilterAll(OfKind(CommitItem), commits);
  }

  // With no condition at all: the sessions, prompts and skills agree, and every
  // commit the restricted digest shows is one the fresh digest shows alike.
  lemma RestrictAlwaysAgreesOffCommits(sessions: seq<Session>, anchors: seq<Anchor>, total: nat, url: string,
                                       keep: string -> bool)
    requires Sorted(StartOf(), sessions)
    ensures var restricted := RestrictDigest(Project(sessions, anchors, total, url), keep);
            var built := Project(Filter(SessionKept(keep), sessions), Filter(AnchorKept(keep), anchors), total, url);
            && Filter(NotCommit(), restricted.items) == Filter(NotCommit(), built.items)
            && restricted.skills == built.skills
            && restricted.header.sessionCount == built.header.sessionCount
            && restricted.header.promptCount == built.header.promptCount
            && restricted.header.commitsCovered <= built.header.commitsCovered
            && forall x :: x in restricted.items && x.kind == CommitItem ==> x in built.items
  {
    var s, a := Filter(SessionKept(keep), sessions), Filter(AnchorKept(keep), anchors);
    var c1, c2 := Filter(ItemKept(keep), CommitItems(anchors)), CommitItems(a);
    FilterSorted(sessions, keep);
    RestrictedItems(sessions, anchors, total, url, keep);
    BuildItemsCanonical(s, a, total, url);
    CommitItemKinds(anchors);
    CommitItemKinds(a);
    OffCommits(s, a, c1);
    OffCommits(s, a, c2);
    HeadersAgreeOffCommits(sessions, anchors, total, url, keep);
    forall x | x in Renumber(StableSort(InstantOf(), Blocks(s, a) + c1)) && x.kind == CommitItem
      ensures x in Renumber(StableSort(InstantOf(), Blocks(s, a) + c2))
    {
      NumberedCommits(s, a, c1, x);
      NumberedCommits(s, a, c2, x);
      CommitSurvives(anchors, keep, x);
    }
  }

  // Sorting and numbering neither add nor drop nor change a commit.
  lemma NumberedCommits(sessions: seq<Session>, anchors: seq<Anchor>, commits: seq<Item>, x: Item)
    requires x.kind == CommitItem
    ensures x in Renumber(StableSort(InstantOf(), Blocks(sessions, anchors) + commits)) <==> x in commits
  {
    var raw := Blocks(sessions, anchors) + commits;
    var sorted := StableSort(InstantOf(), raw);
    RenumberCommits(sorted, x);
    StableSortSorts(InstantOf(), raw);
    assert x in sorted <==> x in multiset(sorted);
    assert x in raw <==> x in multiset(raw);
    NoCommitsInBlocks(sessions, anchors);
  }

  lemma CommitSurvives(anchors: seq<Anchor>, keep: string -> bool, x: Item)
    requires x in Filter(ItemKept(keep), CommitItems(anchors))
    ensures x in CommitItems(Filter(AnchorKept(keep), anchors))
  {
    var kept := Filter(AnchorKept(keep), anchors);
    KeptCommitItems(anchors, keep);
    var shown := Filter(WinnerIsKept(anchors, keep), Order(anchors));
    var i :| 0 <= i < |shown| && x == Map(CommitItemFor(anchors), shown)[i];
    assert shown[i] in shown;
    KeptOrderSubset(anchors, keep, shown[i]);
    var j :| 0 <= j < |Order(kept)| && Order(kept)[j] == shown[i];
    assert CommitItems(kept)[j] == x;
  }

  lemma StampKind(item: Item, sessions: nat, prompts: nat)
    ensures Stamp(item, sessions, prompts).kind == item.kind
    ensures item.kind == CommitItem ==> Stamp(item, sessions, prompts) == item
  {
  }

  lemma {:induction false} RenumberCommits(items: seq<Item>, x: Item)
    requires x.kind == CommitItem
    ensures x in Renumber(items) <==> x in items
  {
    if items != [] {
      var n := |items| - 1;
      RenumberCommits(items[..n], x);
      SplitLast(items);
      RenumberCommitsStep(items[..n], items[n], x);
    }
  }

  lemma RenumberCommitsStep(items: seq<Item>, last: Item, x: Item)
    requires x.kind == CommitItem && (x in Renumber(items) <==> x in items)
    ensures x in Renumber(items + [last]) <==> x in items + [last]
  {
    hide CountKind;
    RenumberSnoc(items, last);
    StampKind(last, CountKind(SessionItem, items + [last]), CountKind(PromptItem, items + [last]));
  }

  lemma OffCommits(sessions: seq<Session>, anchors: seq<Anchor>, commits: seq<Item>)
    requires forall x :: x in commits ==> x.kind == CommitItem
    ensures Filter(NotCommit(), Renumber(StableSort(InstantOf(), Blocks(sessions, anchors) + commits)))
         == Renumber(StableSort(InstantOf(), Blocks(sessions, anchors)))
  {
    var blocks := Blocks(sessions, anchors);
    RenumberOffCommits(StableSort(InstantOf(), blocks + commits));
    StableSortFilter(InstantOf(), NotCommit(), blocks + commits);
    FilterConcat(NotCommit(), blocks, commits);
    NoCommitsInBlocks(sessions, anchors);
    FilterAll(NotCommit(), blocks);
    FilterNone(NotCommit(), commits);
    assert blocks + [] == blocks;
  }

  // Commits take no part in the numbering of sessions and prompts.
  lemma {:induction false} RenumberOffCommits(items: seq<Item>)
    ensures Filter(NotCommit(), Renumber(items)) == Renumber(Filter(NotCommit(), items))
  {
    if items != [] {
      var n := |items| - 1;
      var before, last := items[..n], items[n];
      RenumberOffCommits(before);
      RenumberOffCommitsStep(before, last);
      SplitLast(items);
    }
  }

  lemma RenumberOffCommitsStep(items: seq<Item>, last: Item)
    requires Filter(NotCommit(), Renumber(items)) == Renumber(Filter(NotCommit(), items))
    ensures Filter(NotCommit(), Renumber(items + [last])) == Renumber(Filter(NotCommit(), items + [last]))
  {
    var p, all, kept := NotCommit(), items + [last], Filter(NotCommit(), items);
    var stamped := Stamp(last, CountKind(SessionItem, all), CountKind(PromptItem, all));
    RenumberSnoc(items, last);
    StampKind(last, CountKind(SessionItem, all), CountKind(PromptItem, all));
    FilterConcat(p, items, [last]);
    FilterConcat(p, Renumber(items), [stamped]);
    if last.kind != CommitItem {
      assert Filter(p, [last]) == [last] && Filter(p, [stamped]) == [stamped];
      CountOffCommits(SessionItem, all);
      CountOffCommits(PromptItem, all);
      RenumberSnoc(kept, last);
    } else {
      assert Filter(p, [last]) == [] && Filter(p, [stamped]) == [];
      assert kept + [] == kept;
      assert Renumber(kept) + [] == Renumber(kept);
    }
  }

  lemma CountOffCommits(kind: Kind, items: seq<Item>)
    requires kind != CommitItem
    ensures CountKind(kind, Filter(NotCommit(), items)) == CountKind(kind, items)
  {
    FilterCommutes(OfKind(kind), NotCommit(), items);
    FilterAll(NotCommit(), Filter(OfKind(kind), items));
  }

  // Removing a transcript can change the order of two kept commits authored at
  // one instant, here because the removed transcript recorded s before t was.
  lemma EqualInstantsCanReorder(removed: string, kept: string, s: string, t: string, keep: string -> bool)
    requires s != t && keep(kept) && !keep(removed)
    ensures NoLostCommit([Anchor(removed, s, 9, NoChanges), Anchor(kept, t, 5, NoChanges),
        Anchor(kept, s, 5, NoChanges)], keep)
    ensures !NoReorder([Anchor(removed, s, 9, NoChanges), Anchor(kept, t, 5, NoChanges), Anchor(kept, s, 5, NoChanges)],
        keep)
  {
    var r, a, b := Anchor(removed, s, 9, NoChanges), Anchor(kept, t, 5, NoChanges), Anchor(kept, s, 5, NoChanges);
    ThreeAnchors(r, a, b, keep);
    assert [s, t][0] == s && [s, t][1] == t;
    assert Before([s, t], s, t);
    assert !Before([t, s], s, t);
  }

  lemma ThreeAnchors(r: Anchor, a: Anchor, b: Anchor, keep: string -> bool)
    requires r.sha == b.sha != a.sha && b.at < r.at && !keep(r.tid) && keep(a.tid) && keep(b.tid)
    ensures Filter(AnchorKept(keep), [r, a, b]) == [a, b]
    ensures Order([r, a, b]) == [b.sha, a.sha] && Order([a, b]) == [a.sha, b.sha]
    ensures forall sha ::
        Winner([r, a, b], sha) == if sha == b.sha then Some(b) else if sha == a.sha then Some(a) else None
    ensures forall sha ::
        Winner([a, b], sha) == if sha == b.sha then Some(b) else if sha == a.sha then Some(a) else None
  {
    ThreeFiltered(r, a, b, keep);
    ThreeOrdered(r, a, b);
    forall sha
      ensures Winner([r, a, b], sha) == if sha == b.sha then Some(b) else if sha == a.sha then Some(a) else None
      ensures Winner([a, b], sha) == if sha == b.sha then Some(b) else if sha == a.sha then Some(a) else None
    {
      ThreeWinners(r, a, b, sha);
    }
  }

  lemma ThreeOrdered(r: Anchor, a: Anchor, b: Anchor)
    requires r.sha == b.sha != a.sha
    ensures Order([r, a, b]) == [b.sha, a.sha] && Order([a, b]) == [a.sha, b.sha]
  {
    assert [r, a, b] == [r, a] + [b] && [r, a] == [r] + [a] && [a, b] == [a] + [b];
    assert [] + [r] == [r] && [] + [a] == [a];
    OrderSnoc([], r);
    OrderSnoc([], a);
    OrderSnoc([r], a);
    OrderSnoc([r, a], b);
    OrderSnoc([a], b);
  }

  lemma ThreeWinners(r: Anchor, a: Anchor, b: Anchor, sha: string)
    requires r.sha == b.sha != a.sha && b.at < r.at
    ensures Winner([r, a, b], sha) == if sha == b.sha then Some(b) else if sha == a.sha then Some(a) else None
    ensures Winner([a, b], sha) == if sha == b.sha then Some(b) else if sha == a.sha then Some(a) else None
  {
    assert [r, a, b] == [r, a] + [b] && [r, a] == [r] + [a] && [a, b] == [a] + [b];
    assert [] + [r] == [r] && [] + [a] == [a];
    assert Winner([], sha) == None;
    hide Winner;
    WinnerSnoc([], r, sha);
    WinnerSnoc([], a, sha);
    WinnerSnoc([r], a, sha);
    WinnerSnoc([r, a], b, sha);
    WinnerSnoc([a], b, sha);
  }

  lemma ThreeFiltered(r: Anchor, a: Anchor, b: Anchor, keep: string -> bool)
    requires !keep(r.tid) && keep(a.tid) && keep(b.tid)
    ensures Filter(AnchorKept(keep), [r, a, b]) == [a, b]
  {
    var p := AnchorKept(keep);
    FilterCons(p, b, []);
    FilterCons(p, a, [b]);
    FilterCons(p, r, [a, b]);
    assert [b] + [] == [b] && [a] + [b] == [a, b] && [r] + [a, b] == [r, a, b];
  }

  // ---- from the input ----

  // A match whose SHA can resolve in one way only: it is itself a member of the
  // commit set, or it prefixes at most one member.
  ghost predicate Resolvable(m: CommitMatch, commitSet: set<string>) {
    var sha := NormalSha(m.sha);
    Bytes(sha) < 7 || sha in commitSet
      || forall c, d :: c in commitSet && d in commitSet && sha <= c && sha <= d ==> c == d
  }

  // The answer to a SHA is determined exactly when it is resolvable.
  lemma ResolutionDetermined(m: CommitMatch, commitSet: set<string>)
    ensures Resolvable(m, commitSet) <==>
            forall a, b :: Accepts(m, commitSet, a) && Accepts(m, commitSet, b) ==> a == b
  {
    var sha := NormalSha(m.sha);
    if !Resolvable(m, commitSet) {
      var c, d :| c in commitSet && d in commitSet && sha <= c && sha <= d && c != d;
      assert Accepts(m, commitSet, Some(c)) && Accepts(m, commitSet, Some(d));
    }
  }

  // An abbreviated SHA of two commits is accepted as either of them.
  lemma AmbiguousShaHasTwoAnswers(sha: string, c: string, d: string)
    requires |sha| >= 7 && forall i :: 0 <= i < |sha| ==> IsHex(sha[i])
    requires sha <= c && sha <= d && sha != c && sha != d && c != d
    ensures Accepts(CommitMatch("t", sha, 0, NoChanges), {c, d}, Some(c))
    ensures Accepts(CommitMatch("t", sha, 0, NoChanges), {c, d}, Some(d))
  {
    NormalPlain(sha);
    BytesAtLeast(sha);
    EitherPrefixed(sha, c, d);
  }

  lemma EitherPrefixed(sha: string, c: string, d: string)
    requires sha <= c && sha <= d && sha != c && sha != d
    ensures Resolves(sha, {c, d}, Some(c)) && Resolves(sha, {c, d}, Some(d))
  {
    assert c in {c, d};
  }

  lemma NormalPlain(sha: string)
    requires sha != [] && forall i :: 0 <= i < |sha| ==> IsHex(sha[i])
    ensures NormalSha(sha) == sha
  {
    assert !IsSpace(sha[0]) && !IsSpace(sha[|sha| - 1]);
    LowerSame(sha);
  }

  lemma {:induction false} LowerSame(s: string)
    requires forall i :: 0 <= i < |s| ==> !('A' <= s[i] <= 'Z')
    ensures Lower(s) == s
  {
    if s != [] {
      LowerSame(s[1..]);
    }
  }

  lemma {:induction false} BytesAtLeast(s: string)
    ensures Bytes(s) >= |s|
  {
    if s != [] {
      BytesAtLeast(s[1..]);
    }
  }

  lemma AnchorsSnoc(commits: seq<CommitMatch>, answers: seq<Option<string>>, m: CommitMatch, answer: Option<string>)
    requires |commits| == |answers|
    ensures AnchorsOf(commits + [m], answers + [answer])
         == AnchorsOf(commits, answers) + if answer.Some? then [AnchorOf(m, answer.value)] else []
  {
    assert (commits + [m])[..|commits|] == commits && (answers + [answer])[..|commits|] == answers;
  }

  lemma AnswersSnoc(commits: seq<CommitMatch>, commitSet: set<string>, answers: seq<Option<string>>, m: CommitMatch)
    requires Answers(commits + [m], commitSet, answers)
    ensures Answers(commits, commitSet, answers[..|commits|]) && Accepts(m, commitSet, answers[|commits|])
  {
    assert Accepts((commits + [m])[|commits|], commitSet, answers[|commits|]);
    forall i | 0 <= i < |commits|
      ensures Accepts(commits[i], commitSet, answers[i])
    {
      assert commits[i] == (commits + [m])[i];
    }
  }

  lemma {:induction false} AnchorsFiltered(commits: seq<CommitMatch>, commitSet: set<string>, keep: string -> bool,
                         answers: seq<Option<string>>, answers': seq<Option<string>>)
    requires Answers(commits, commitSet, answers) && Answers(Filter(CommitKept(keep), commits), commitSet, answers')
    requires forall m :: m in commits && keep(m.tid) ==> Resolvable(m, commitSet)
    ensures AnchorsOf(Filter(CommitKept(keep), commits), answers') ==
        Filter(AnchorKept(keep), AnchorsOf(commits, answers))
  {
    if commits != [] {
      var n := |commits| - 1;
      var p := AnchorKept(keep);
      var m, answer, kept := commits[n], answers[n], Filter(CommitKept(keep), commits[..n]);
      SplitLast(commits);
      SplitLast(answers);
      assert m in commits && forall x :: x in commits[..n] ==> x in commits;
      AnswersSnoc(commits[..n], commitSet, answers, m);
      FilterLast(CommitKept(keep), commits);
      if keep(m.tid) {
        LastAnswer(kept, commitSet, answers', m, answer);
        AnchorsFiltered(commits[..n], commitSet, keep, answers[..n], answers'[..|kept|]);
      } else {
        assert kept + [] == kept;
        AnchorsFiltered(commits[..n], commitSet, keep, answers[..n], answers');
      }
      AnchorsFilteredStep(commits[..n], answers[..n], m, answer, keep);
    }
  }

  lemma LastAnswer(commits: seq<CommitMatch>, commitSet: set<string>, answers: seq<Option<string>>, m: CommitMatch,
                   answer: Option<string>)
    requires Answers(commits + [m], commitSet, answers) && Accepts(m, commitSet, answer) && Resolvable(m, commitSet)
    ensures Answers(commits, commitSet, answers[..|commits|])
    ensures AnchorsOf(commits + [m], answers)
         == AnchorsOf(commits, answers[..|commits|]) + if answer.Some? then [AnchorOf(m, answer.value)] else []
  {
    AnswersSnoc(commits, commitSet, answers, m);
    ResolutionDetermined(m, commitSet);
    SplitLast(answers);
    AnchorsSnoc(commits, answers[..|commits|], m, answer);
  }

  lemma AnchorsFilteredStep(commits: seq<CommitMatch>, answers: seq<Option<string>>, m: CommitMatch,
                            answer: Option<string>, keep: string -> bool)
    requires |commits| == |answers|
    ensures Filter(AnchorKept(keep), AnchorsOf(commits + [m], answers + [answer]))
         == Filter(AnchorKept(keep), AnchorsOf(commits, answers)) +
            if answer.Some? && keep(m.tid) then [AnchorOf(m, answer.value)] else []
  {
    var p := AnchorKept(keep);
    var added := if answer.Some? then [AnchorOf(m, answer.value)] else [];
    AnchorsSnoc(commits, answers, m, answer);
    FilterConcat(p, AnchorsOf(commits, answers), added);
    assert Filter(p, added) == if answer.Some? && keep(m.tid) then added else [];
  }

  // The main result on inputs: when every kept SHA resolves in one way, the
  // restricted build is the build of the kept input exactly under the two
  // conditions on the anchors.
  lemma RestrictOfBuild(input: Input, keep: string -> bool, answers: seq<Option<string>>, answers': seq<Option<string>>)
    requires Answers(input.commits, CommitSetOf(input.commitSet), answers)
    requires Answers(KeptInput(input, keep).commits, CommitSetOf(input.commitSet), answers')
    requires forall m :: m in input.commits && keep(m.tid) ==> Resolvable(m, CommitSetOf(input.commitSet))
    ensures SameApartFromSource(RestrictDigest(BuildDigest(input, answers), keep),
        BuildDigest(KeptInput(input, keep), answers'))
       <==> NoLostCommit(AnchorsOf(input.commits, answers), keep) && NoReorder(AnchorsOf(input.commits, answers), keep)
  {
    var sessions := StableSort(StartOf(), input.sessions);
    StableSortSorts(StartOf(), input.sessions);
    StableSortFilter(StartOf(), SessionKept(keep), input.sessions);
    AnchorsFiltered(input.commits, CommitSetOf(input.commitSet), keep, answers, answers');
    RestrictIsFreshExactly(sessions, AnchorsOf(input.commits, answers), |CommitSetOf(input.commitSet)|,
      input.villageUrl, keep);
  }

  lemma WinnerOfKept(anchors: seq<Anchor>, keep: string -> bool, s: string)
    requires forall a, b :: a in anchors && b in anchors && a.sha == b.sha ==> keep(a.tid) == keep(b.tid)
    requires s in Order(Filter(AnchorKept(keep), anchors))
    ensures Winner(anchors, s).Some? && keep(Winner(anchors, s).value.tid)
  {
    var kept := Filter(AnchorKept(keep), anchors);
    OrderMembers(kept);
    OrderMembers(anchors);
    WinnerOf(anchors, s);
    hide Order;
    hide Winner;
    var i :| 0 <= i < |kept| && kept[i].sha == s;
    assert kept[i] in anchors;
    hide Filter;
    var j :| 0 <= j < |anchors| && anchors[j] == kept[i];
  }

  // In particular it is, whenever no commit is recorded by both a kept and a
  // removed transcript.
  lemma UnsharedCommitsSuffice(anchors: seq<Anchor>, keep: string -> bool)
    requires forall a, b :: a in anchors && b in anchors && a.sha == b.sha ==> keep(a.tid) == keep(b.tid)
    ensures NoLostCommit(anchors, keep) && NoReorder(anchors, keep)
  {
    var kept := Filter(AnchorKept(keep), anchors);
    hide Winner;
    hide Order;
    forall s | s in Order(kept)
      ensures Winner(anchors, s).Some? && keep(Winner(anchors, s).value.tid)
    {
      WinnerOfKept(anchors, keep, s);
    }
    OrderKept(anchors, keep);
    hide Filter;
    forall s, t | s in Order(kept) && t in Order(kept) && Before(Order(anchors), s, t)
      ensures Before(Order(kept), s, t)
    {
      FilterKeepsBefore(ShaKept(anchors, keep), Order(anchors), s, t);
    }
  }

  function ShaKept(anchors: seq<Anchor>, keep: string -> bool): string -> bool {
    (sha: string) => exists i :: 0 <= i < |anchors| && anchors[i].sha == sha && keep(anchors[i].tid)
  }

  lemma {:induction false} OrderKept(anchors: seq<Anchor>, keep: string -> bool)
    requires forall a, b :: a in anchors && b in anchors && a.sha == b.sha ==> keep(a.tid) == keep(b.tid)
    ensures Order(Filter(AnchorKept(keep), anchors)) == Filter(ShaKept(anchors, keep), Order(anchors))
    ensures forall s :: s in Order(Filter(AnchorKept(keep), anchors)) ==> ShaKept(anchors, keep)(s)
  {
    if anchors != [] {
      var n := |anchors| - 1;
      var last, before := anchors[n], anchors[..n];
      var p, q := ShaKept(before, keep), ShaKept(anchors, keep);
      var kept := Filter(AnchorKept(keep), before);
      assert anchors == before + [last];
      OrderKept(before, keep);
      OrderSnoc(before, last);
      OrderSnoc(kept, last);
      FilterLast(AnchorKept(keep), anchors);
      assert kept + [] == kept;
      forall s | s in Order(before)
        ensures p(s) == q(s)
      {
        ShaKeptBefore(anchors, keep, s);
      }
      FilterSame(p, q, Order(before));
      FilterConcat(q, Order(before), [last.sha]);
      ShaKeptLast(anchors, keep);
      FilterCons(q, last.sha, []);
      assert [last.sha] + [] == [last.sha];
    }
  }

  lemma OrderSnoc(anchors: seq<Anchor>, last: Anchor)
    ensures Order(anchors + [last]) == Order(anchors) + if last.sha in Order(anchors) then [] else [last.sha]
  {
    assert (anchors + [last])[..|anchors|] == anchors;
  }

  lemma ShaKeptBefore(anchors: seq<Anchor>, keep: string -> bool, sha: string)
    requires anchors != [] && sha in Order(anchors[..|anchors| - 1])
    requires forall a, b :: a in anchors && b in anchors && a.sha == b.sha ==> keep(a.tid) == keep(b.tid)
    ensures ShaKept(anchors[..|anchors| - 1], keep)(sha) == ShaKept(anchors, keep)(sha)
  {
    var before := anchors[..|anchors| - 1];
    OrderMembers(before);
    var i :| 0 <= i < |before| && before[i].sha == sha;
    assert before[i] == anchors[i] && anchors[i] in anchors;
    if ShaKept(anchors, keep)(sha) {
      var j :| 0 <= j < |anchors| && anchors[j].sha == sha && keep(anchors[j].tid);
      assert anchors[j] in anchors;
      assert keep(before[i].tid);
    }
    if ShaKept(before, keep)(sha) {
      var j :| 0 <= j < |before| && before[j].sha == sha && keep(before[j].tid);
      assert anchors[j] == before[j];
    }
  }

  lemma ShaKeptLast(anchors: seq<Anchor>, keep: string -> bool)
    requires anchors != []
    requires forall a, b :: a in anchors && b in anchors && a.sha == b.sha ==> keep(a.tid) == keep(b.tid)
    ensures ShaKept(anchors, keep)(anchors[|anchors| - 1].sha) == keep(anchors[|anchors| - 1].tid)
  {
    var last := anchors[|anchors| - 1];
    if ShaKept(anchors, keep)(last.sha) {
      var j :| 0 <= j < |anchors| && anchors[j].sha == last.sha && keep(anchors[j].tid);
      assert anchors[j] in anchors && last in anchors;
    }
  }
}

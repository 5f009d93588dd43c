// How Restrict relates to a fresh Build over the transcripts it keeps.
module DigestTheorems {
  import opened Options
  import opened Sequences
  import opened StableSorting
  import Names
  import opened DigestModel

  // ---- anchors under a filter ----

  lemma {:induction false} OrderMembers(anchors: seq<Anchor>)
    ensures Distinct(Order(anchors))
    ensures forall s :: s in Order(anchors) <==> exists i :: 0 <= i < |anchors| && anchors[i].sha == s
  {
    if anchors != [] {
      var n := |anchors| - 1;
      OrderMembers(anchors[..n]);
      forall s | s in Order(anchors)
        ensures exists i :: 0 <= i < |anchors| && anchors[i].sha == s
      {
        if s in Order(anchors[..n]) {
          var i :| 0 <= i < n && anchors[..n][i].sha == s;
          assert anchors[i].sha == s;
        } else {
          assert anchors[n].sha == s;
        }
      }
      forall i | 0 <= i < |anchors|
        ensures anchors[i].sha in Order(anchors)
      {
        if i < n {
          assert anchors[..n][i].sha == anchors[i].sha;
        }
      }
    }
  }

  lemma WinnerSnoc(anchors: seq<Anchor>, last: Anchor, sha: string)
    ensures Winner(anchors + [last], sha) ==
            var before := Winner(anchors, sha);
            if last.sha == sha && (before == None || last.at < before.value.at) then Some(last) else before
  {
    assert (anchors + [last])[..|anchors|] == anchors;
  }

  // A commit's winner is one of its anchors and none of them was authored before it.
  lemma {:induction false} WinnerOf(anchors: seq<Anchor>, sha: string)
    ensures Winner(anchors, sha).Some? <==> sha in Order(anchors)
    ensures var w := Winner(anchors, sha);
            w.Some? ==> w.value in anchors && w.value.sha == sha &&
                        forall a :: a in anchors && a.sha == sha ==> w.value.at <= a.at
  {
    if anchors != [] {
      var n := |anchors| - 1;
      var before, last := anchors[..n], anchors[n];
      WinnerOf(before, sha);
      assert anchors == before + [last];
      WinnerSnoc(before, last, sha);
      hide Winner;
      OrderMembers(before);
      assert Order(anchors) == if last.sha in Order(before) then Order(before) else Order(before) + [last.sha];
      hide Order;
      forall a | a in anchors && a.sha == sha
        ensures Winner(anchors, sha).value.at <= a.at
      {
        if a in before {
          var i :| 0 <= i < n && before[i] == a;
          assert sha in Order(before);
        } else {
          assert a == last;
        }
      }
    }
  }

  lemma {:induction false} WinnerKept(anchors: seq<Anchor>, keep: string -> bool, sha: string)
    requires Winner(anchors, sha).Some? && keep(Winner(anchors, sha).value.tid)
    ensures Winner(Filter(AnchorKept(keep), anchors), sha) == Winner(anchors, sha)
  {
    var n := |anchors| - 1;
    var last, before := anchors[n], anchors[..n];
    var kept := Filter(AnchorKept(keep), before);
    assert anchors == before + [last];
    WinnerSnoc(before, last, sha);
    if Winner(anchors, sha) == Winner(before, sha) {
      WinnerKept(before, keep, sha);
      WinnerSnoc(kept, last, sha);
      assert Winner(kept, sha) == Winner(before, sha);
    } else {
      WinnerNoEarlier(before, keep, sha);
      WinnerSnoc(kept, last, sha);
    }
    FilterLast(AnchorKept(keep), anchors);
    assert kept + [] == kept;
  }

  // Removing anchors never makes a commit's winner earlier.
  lemma WinnerNoEarlier(anchors: seq<Anchor>, keep: string -> bool, sha: string)
    ensures var w, k := Winner(anchors, sha), Winner(Filter(AnchorKept(keep), anchors), sha);
            k.Some? ==> w.Some? && w.value.at <= k.value.at
  {
    var kept := Filter(AnchorKept(keep), anchors);
    var k := Winner(kept, sha);
    WinnerOf(kept, sha);
    if k.Some? {
      assert k.value in anchors;
      var i :| 0 <= i < |anchors| && anchors[i] == k.value;
      OrderMembers(anchors);
      WinnerOf(anchors, sha);
    }
  }

  lemma CommitCountIs(anchors: seq<Anchor>, tid: string, shas: set<string>)
    requires shas == set i | 0 <= i < |anchors| && anchors[i].tid == tid :: anchors[i].sha
    ensures CommitCount(anchors, tid) == |shas|
  {
    OrderMembers(anchors);
    var mine := Filter(RecordedBy(anchors, tid), Order(anchors));
    FilterDistinct(RecordedBy(anchors, tid), Order(anchors));
    DistinctCardinality(mine, shas);
  }

  // A kept transcript traces as many commits whether or not others are removed.
  lemma CommitCountKept(anchors: seq<Anchor>, keep: string -> bool, tid: string)
    requires keep(tid)
    ensures CommitCount(Filter(AnchorKept(keep), anchors), tid) == CommitCount(anchors, tid)
  {
    var kept := Filter(AnchorKept(keep), anchors);
    var shas := set i | 0 <= i < |anchors| && anchors[i].tid == tid :: anchors[i].sha;
    var keptShas := set i | 0 <= i < |kept| && kept[i].tid == tid :: kept[i].sha;
    forall s
      ensures s in shas <==> s in keptShas
    {
      if s in shas {
        var i :| 0 <= i < |anchors| && anchors[i].tid == tid && anchors[i].sha == s;
        assert anchors[i] in kept;
      }
      if s in keptShas {
        var i :| 0 <= i < |kept| && kept[i].tid == tid && kept[i].sha == s;
        assert kept[i] in anchors;
      }
    }
    assert shas == keptShas;
    CommitCountIs(anchors, tid, shas);
    CommitCountIs(kept, tid, shas);
  }

  // ---- items without the labels and ordinals that are recomputed ----

  function Erased(item: Item): Item {
    match item.kind
    case SessionItem => item.(text := "")
    case PromptItem => item.(ordinal := None)
    case _ => item
  }

  function Erase(): Item -> Item { (i: Item) => Erased(i) }

  function Blocks(sessions: seq<Session>, anchors: seq<Anchor>): seq<Item> {
    if sessions == [] then []
    else
      var n := |sessions| - 1;
      Blocks(sessions[..n], anchors) + [SessionHead(sessions[n], anchors, "")]
        + TurnItems(sessions[n].tid, sessions[n].turns)
  }

  lemma {:induction false} EraseSessionItems(sessions: seq<Session>, anchors: seq<Anchor>)
    ensures Map(Erase(), SessionItems(sessions, anchors)) == Blocks(sessions, anchors)
  {
    if sessions == [] {
      assert Map(Erase(), []) == [];
    } else {
      var n := |sessions| - 1;
      var before := SessionItems(sessions[..n], anchors);
      var head := [SessionHead(sessions[n], anchors, SessionLabel(n + 1))];
      var turns := TurnItems(sessions[n].tid, sessions[n].turns);
      EraseSessionItems(sessions[..n], anchors);
      MapConcat(Erase(), before + head, turns);
      MapConcat(Erase(), before, head);
      forall i | 0 <= i < |turns|
        ensures Map(Erase(), turns)[i] == turns[i]
      {
        assert turns[i] in turns;
      }
      assert Map(Erase(), turns) == turns;
      assert Map(Erase(), head) == [SessionHead(sessions[n], anchors, "")];
    }
  }

  lemma {:induction false} BlocksFilter(sessions: seq<Session>, anchors: seq<Anchor>, keep: string -> bool)
    ensures Filter(ItemKept(keep), Blocks(sessions, anchors))
         == Blocks(Filter(SessionKept(keep), sessions), Filter(AnchorKept(keep), anchors))
  {
    if sessions != [] {
      var n := |sessions| - 1;
      var s, p := sessions[n], ItemKept(keep);
      var before := Blocks(sessions[..n], anchors);
      var head := [SessionHead(s, anchors, "")];
      var turns := TurnItems(s.tid, s.turns);
      BlocksFilter(sessions[..n], anchors, keep);
      FilterLast(SessionKept(keep), sessions);
      FilterConcat(p, before + head, turns);
      FilterConcat(p, before, head);
      var kept := Filter(SessionKept(keep), sessions[..n]);
      if keep(s.tid) {
        CommitCountKept(anchors, keep, s.tid);
        FilterAll(p, turns);
        FilterAll(p, head);
        assert (kept + [s])[..|kept|] == kept;
      } else {
        FilterNone(p, turns);
        FilterNone(p, head);
        assert kept + [] == kept;
      }
    }
  }

  // ---- numbering ----

  lemma CountErased(kind: Kind, items: seq<Item>)
    ensures CountKind(kind, Map(Erase(), items)) == CountKind(kind, items)
  {
    FilterMap(OfKind(kind), Erase(), OfKind(kind), items);
  }

  lemma MapPrefix<T, U>(f: T -> U, s: seq<T>, n: nat)
    requires n <= |s|
    ensures Map(f, s)[..n] == Map(f, s[..n])
  {
  }

  lemma MapSnoc<T, U>(f: T -> U, s: seq<T>, x: T)
    ensures Map(f, s + [x]) == Map(f, s) + [f(x)]
  {
  }

  lemma StampErased(item: Item, sessions: nat, prompts: nat)
    ensures Stamp(Erased(item), sessions, prompts) == Stamp(item, sessions, prompts)
    ensures Erased(Stamp(item, sessions, prompts)) == Erased(item)
  {
  }

  lemma RenumberSnoc(items: seq<Item>, last: Item)
    ensures Renumber(items + [last]) ==
            Renumber(items) + [Stamp(last, CountKind(SessionItem, items + [last]),
              CountKind(PromptItem, items + [last]))]
  {
    assert (items + [last])[..|items|] == items;
  }

  lemma RenumberErasedStep(items: seq<Item>, last: Item)
    requires Renumber(Map(Erase(), items)) == Renumber(items)
    requires Map(Erase(), Renumber(items)) == Map(Erase(), items)
    ensures Renumber(Map(Erase(), items + [last])) == Renumber(items + [last])
    ensures Map(Erase(), Renumber(items + [last])) == Map(Erase(), items + [last])
  {
    hide CountKind;
    var all := items + [last];
    var sessions, prompts := CountKind(SessionItem, all), CountKind(PromptItem, all);
    CountErased(SessionItem, all);
    CountErased(PromptItem, all);
    StampErased(last, sessions, prompts);
    MapSnoc(Erase(), items, last);
    RenumberSnoc(items, last);
    RenumberSnoc(Map(Erase(), items), Erased(last));
    MapSnoc(Erase(), Renumber(items), Stamp(last, sessions, prompts));
  }

  // Numbering does not read what it writes.
  lemma {:induction false} RenumberErased(items: seq<Item>)
    ensures Renumber(Map(Erase(), items)) == Renumber(items)
    ensures Map(Erase(), Renumber(items)) == Map(Erase(), items)
  {
    if items == [] {
      assert Map(Erase(), items) == [];
    } else {
      var n := |items| - 1;
      RenumberErased(items[..n]);
      SplitLast(items);
      RenumberErasedStep(items[..n], items[n]);
    }
  }

  lemma RenumberIdempotent(items: seq<Item>)
    ensures Renumber(Renumber(items)) == Renumber(items)
  {
    RenumberErased(items);
    RenumberErased(Renumber(items));
  }

  lemma CountRenumbered(kind: Kind, items: seq<Item>)
    ensures CountKind(kind, Renumber(items)) == CountKind(kind, items)
  {
    RenumberErased(items);
    CountErased(kind, items);
    CountErased(kind, Renumber(items));
  }

  // Filtering by transcript and numbering again forgets any earlier numbering.
  lemma RenumberFilter(keep: string -> bool, items: seq<Item>)
    ensures Renumber(Filter(ItemKept(keep), Renumber(items))) == Renumber(Filter(ItemKept(keep), items))
  {
    var p := ItemKept(keep);
    var numbered := Renumber(items);
    RenumberErased(items);
    FilterErased(keep, items);
    FilterErased(keep, numbered);
    RenumberErased(Filter(p, numbered));
    RenumberErased(Filter(p, items));
  }

  lemma FilterErased(keep: string -> bool, items: seq<Item>)
    ensures Filter(ItemKept(keep), Map(Erase(), items)) == Map(Erase(), Filter(ItemKept(keep), items))
  {
    FilterMap(ItemKept(keep), Erase(), ItemKept(keep), items);
  }

  // When the sessions already carry their labels in order, Build's numbering of
  // the prompts alone is the numbering Restrict does.
  lemma {:induction false} NumberPromptsIsRenumber(items: seq<Item>)
    requires forall k :: 0 <= k < CountKind(SessionItem, items) ==>
        Filter(OfKind(SessionItem), items)[k].text == SessionLabel(k + 1)
    ensures NumberPrompts(items) == Renumber(items)
  {
    if items != [] {
      var n := |items| - 1;
      FilterLast(OfKind(SessionItem), items);
      hide Filter;
      hide NumberPrompts;
      hide Renumber;
      var before := Filter(OfKind(SessionItem), items[..n]);
      forall k | 0 <= k < |before|
        ensures before[k].text == SessionLabel(k + 1)
      {
        assert before[k] == Filter(OfKind(SessionItem), items)[k];
      }
      NumberPromptsIsRenumber(items[..n]);
      if items[n].kind == SessionItem {
        assert Filter(OfKind(SessionItem), items)[|before|] == items[n];
      }
      NumberedLast(items);
    }
  }

  lemma NumberedLast(items: seq<Item>)
    requires items != [] && NumberPrompts(items[..|items| - 1]) == Renumber(items[..|items| - 1])
    requires var last := items[|items| - 1];
             last.kind == SessionItem ==> last.text == SessionLabel(CountKind(SessionItem, items))
    ensures NumberPrompts(items) == Renumber(items)
  {
    hide CountKind;
  }

  function Heads(sessions: seq<Session>, anchors: seq<Anchor>): (r: seq<Item>)
    ensures |r| == |sessions|
  {
    seq(|sessions|, i requires 0 <= i < |sessions| => SessionHead(sessions[i], anchors, SessionLabel(i + 1)))
  }

  lemma SessionsOfBlock(before: seq<Item>, head: Item, turns: seq<Item>)
    requires head.kind == SessionItem && forall x :: x in turns ==> x.kind != SessionItem
    ensures Filter(OfKind(SessionItem), before + [head] + turns) == Filter(OfKind(SessionItem), before) + [head]
  {
    var p := OfKind(SessionItem);
    FilterConcat(p, before + [head], turns);
    FilterConcat(p, before, [head]);
    FilterNone(p, turns);
    FilterOne(p, head);
    assert Filter(p, before) + [head] + [] == Filter(p, before) + [head];
  }

  lemma {:induction false} SessionsOfItems(sessions: seq<Session>, anchors: seq<Anchor>)
    ensures Filter(OfKind(SessionItem), SessionItems(sessions, anchors)) == Heads(sessions, anchors)
  {
    hide SessionHead;
    if sessions != [] {
      var n := |sessions| - 1;
      var head := SessionHead(sessions[n], anchors, SessionLabel(n + 1));
      SessionsOfItems(sessions[..n], anchors);
      HeadIsSession(sessions[n], anchors, SessionLabel(n + 1));
      SessionsOfBlock(SessionItems(sessions[..n], anchors), head, TurnItems(sessions[n].tid, sessions[n].turns));
      HeadsSnoc(sessions, anchors);
    }
  }

  lemma HeadIsSession(s: Session, anchors: seq<Anchor>, heading: string)
    ensures SessionHead(s, anchors, heading).kind == SessionItem
  {
  }

  lemma HeadsSnoc(sessions: seq<Session>, anchors: seq<Anchor>)
    requires sessions != []
    ensures var n := |sessions| - 1;
            Heads(sessions, anchors) == Heads(sessions[..n], anchors)
              + [SessionHead(sessions[n], anchors, SessionLabel(n + 1))]
  {
    hide SessionHead;
    hide SessionLabel;
  }

  lemma CommitItemKinds(anchors: seq<Anchor>)
    ensures forall x :: x in CommitItems(anchors) ==> x.kind == CommitItem
  {
  }

  // The items Build sorts, before it sorts them.
  function RawItems(sessions: seq<Session>, anchors: seq<Anchor>): seq<Item> {
    SessionItems(sessions, anchors) + CommitItems(anchors)
  }

  // The items before their labels and ordinals, in their final order.
  function CanonicalItems(sessions: seq<Session>, anchors: seq<Anchor>): seq<Item> {
    StableSort(InstantOf(), Blocks(sessions, anchors) + CommitItems(anchors))
  }

  lemma EraseCommits(anchors: seq<Anchor>)
    ensures Map(Erase(), CommitItems(anchors)) == CommitItems(anchors)
  {
  }

  lemma HeadsSorted(sessions: seq<Session>, anchors: seq<Anchor>)
    requires Sorted(StartOf(), sessions)
    ensures Sorted(InstantOf(), Heads(sessions, anchors))
  {
    var heads := Heads(sessions, anchors);
    forall i, j | 0 <= i < j < |heads|
      ensures InstantOf()(heads[i]) <= InstantOf()(heads[j])
    {
      assert StartOf()(sessions[i]) <= StartOf()(sessions[j]);
    }
  }

  lemma SessionsStayInOrder(sessions: seq<Session>, anchors: seq<Anchor>)
    requires Sorted(StartOf(), sessions)
    ensures Filter(OfKind(SessionItem), StableSort(InstantOf(), RawItems(sessions, anchors))) ==
        Heads(sessions, anchors)
  {
    var p := OfKind(SessionItem);
    var heads := Heads(sessions, anchors);
    assert Filter(p, RawItems(sessions, anchors)) == heads by {
      FilterConcat(p, SessionItems(sessions, anchors), CommitItems(anchors));
      SessionsOfItems(sessions, anchors);
      CommitItemKinds(anchors);
      FilterNone(p, CommitItems(anchors));
      assert heads + [] == heads;
    }
    StableSortFilter(InstantOf(), p, RawItems(sessions, anchors));
    HeadsSorted(sessions, anchors);
    StableSortOfSorted(InstantOf(), heads);
  }

  // Build's items are the canonical items, numbered.
  lemma BuildItemsCanonical(sessions: seq<Session>, anchors: seq<Anchor>, total: nat, url: string)
    requires Sorted(StartOf(), sessions)
    ensures Project(sessions, anchors, total, url).items == Renumber(CanonicalItems(sessions, anchors))
  {
    hide StableSort;
    hide Renumber;
    hide NumberPrompts;
    hide Map;
    hide SessionItems;
    hide CommitItems;
    hide SkillsOf;
    var sorted := StableSort(InstantOf(), RawItems(sessions, anchors));
    NumberedRaw(sessions, anchors);
    RenumberErased(sorted);
    ErasedRaw(sessions, anchors);
    hide CanonicalItems;
  }

  lemma NumberedRaw(sessions: seq<Session>, anchors: seq<Anchor>)
    requires Sorted(StartOf(), sessions)
    ensures var sorted := StableSort(InstantOf(), RawItems(sessions, anchors));
            NumberPrompts(sorted) == Renumber(sorted)
  {
    hide StableSort;
    hide Renumber;
    hide NumberPrompts;
    SessionsStayInOrder(sessions, anchors);
    NumberPromptsIsRenumber(StableSort(InstantOf(), RawItems(sessions, anchors)));
  }

  lemma ErasedRaw(sessions: seq<Session>, anchors: seq<Anchor>)
    ensures Map(Erase(), StableSort(InstantOf(), RawItems(sessions, anchors))) == CanonicalItems(sessions, anchors)
  {
    hide StableSort;
    hide Map;
    hide SessionItems;
    hide CommitItems;
    hide Blocks;
    ErasedKeepsInstant();
    StableSortMap(InstantOf(), InstantOf(), Erase(), RawItems(sessions, anchors));
    MapConcat(Erase(), SessionItems(sessions, anchors), CommitItems(anchors));
    EraseSessionItems(sessions, anchors);
    EraseCommits(anchors);
  }

  lemma ErasedKeepsInstant()
    ensures forall x :: InstantOf()(Erase()(x)) == InstantOf()(x)
  {
  }

  lemma CountSorted(kind: Kind, items: seq<Item>)
    ensures CountKind(kind, StableSort(InstantOf(), items)) == CountKind(kind, items)
  {
    StableSortFilter(InstantOf(), OfKind(kind), items);
    StableSortSorts(InstantOf(), Filter(OfKind(kind), items));
  }

  lemma CountCommitItems(anchors: seq<Anchor>)
    ensures CountKind(CommitItem, CommitItems(anchors)) == |Order(anchors)|
  {
    FilterAll(OfKind(CommitItem), CommitItems(anchors));
  }

  lemma {:induction false} CountBlocks(sessions: seq<Session>, anchors: seq<Anchor>)
    ensures CountKind(SessionItem, Blocks(sessions, anchors)) == |sessions|
    ensures CountKind(CommitItem, Blocks(sessions, anchors)) == 0
  {
    EraseSessionItems(sessions, anchors);
    SessionsOfItems(sessions, anchors);
    CountErased(SessionItem, SessionItems(sessions, anchors));
    NoCommitsInBlocks(sessions, anchors);
    FilterNone(OfKind(CommitItem), Blocks(sessions, anchors));
  }

  lemma {:induction false} NoCommitsInBlocks(sessions: seq<Session>, anchors: seq<Anchor>)
    ensures forall x :: x in Blocks(sessions, anchors) ==> x.kind != CommitItem
  {
    if sessions != [] {
      NoCommitsInBlocks(sessions[..|sessions| - 1], anchors);
    }
  }

  // Every digest Build projects states its own counts, skills and numbers truly.
  lemma BuildIsConsistent(sessions: seq<Session>, anchors: seq<Anchor>, total: nat, url: string)
    requires Sorted(StartOf(), sessions)
    ensures Consistent(Project(sessions, anchors, total, url))
  {
    hide StableSort;
    hide Renumber;
    hide Blocks;
    hide CommitItems;
    hide CountKind;
    hide SkillsOf;
    BuildItemsCanonical(sessions, anchors, total, url);
    hide NumberPrompts;
    hide CanonicalItems;
    RenumberIdempotent(CanonicalItems(sessions, anchors));
    BuiltCount(SessionItem, sessions, anchors);
    BuiltCount(CommitItem, sessions, anchors);
    CountBlocks(sessions, anchors);
    CountCommitItems(anchors);
    CommitsAreNoSessions(anchors);
  }

  lemma BuiltCount(kind: Kind, sessions: seq<Session>, anchors: seq<Anchor>)
    ensures CountKind(kind, Renumber(CanonicalItems(sessions, anchors))) ==
        CountKind(kind, Blocks(sessions, anchors)) + CountKind(kind, CommitItems(anchors))
  {
    hide StableSort;
    hide Renumber;
    hide Blocks;
    hide CommitItems;
    CountRenumbered(kind, CanonicalItems(sessions, anchors));
    CountSorted(kind, Blocks(sessions, anchors) + CommitItems(anchors));
    FilterConcat(OfKind(kind), Blocks(sessions, anchors), CommitItems(anchors));
  }

  lemma CommitsAreNoSessions(anchors: seq<Anchor>)
    ensures CountKind(SessionItem, CommitItems(anchors)) == 0
  {
    CommitItemKinds(anchors);
    FilterNone(OfKind(SessionItem), CommitItems(anchors));
  }

  lemma RestrictConsistent(d: Digest, keep: string -> bool)
    requires Consistent(d)
    ensures RestrictDigest(d, keep) == Recount(d, Filter(ItemKept(keep), d.items))
    ensures Consistent(RestrictDigest(d, keep))
  {
    var items := Filter(ItemKept(keep), d.items);
    if |items| == |d.items| {
      FilterAll(ItemKept(keep), d.items);
    } else {
      RenumberIdempotent(items);
      CountRenumbered(SessionItem, items);
      CountRenumbered(PromptItem, items);
      CountRenumbered(CommitItem, items);
      SkillNamesRenumbered(items);
    }
  }

  lemma {:induction false} SkillNamesRenumbered(items: seq<Item>)
    ensures SkillNames(Renumber(items)) == SkillNames(items)
  {
    if items != [] {
      var n := |items| - 1;
      SkillNamesRenumbered(items[..n]);
      assert Renumber(items)[..n] == Renumber(items[..n]);
    }
  }

  // The skills a digest lists are exactly the invoked ones, each counted.
  lemma SkillsListed(names: multiset<string>)
    ensures IsSkillList(SkillsOf(names), names)
  {
    var listed := Names.Ascending(set n | n in names);
    var skills := SkillsOf(names);
    forall i | 0 <= i < |skills|
      ensures skills[i].name in names
    {
      assert listed[i] in listed;
    }
    forall n | n in names
      ensures exists i :: 0 <= i < |skills| && skills[i].name == n
    {
      assert n in listed;
      var i :| 0 <= i < |listed| && listed[i] == n;
      assert skills[i].name == n;
    }
  }

  // Restricting twice is restricting to the transcripts both readers keep.
  lemma RestrictCompose(d: Digest, first: string -> bool, second: string -> bool, both: string -> bool)
    requires Consistent(d)
    requires forall tid :: both(tid) == (first(tid) && second(tid))
    ensures RestrictDigest(RestrictDigest(d, first), second) == RestrictDigest(d, both)
  {
    RestrictConsistent(d, first);
    RestrictConsistent(d, both);
    RestrictConsistent(RestrictDigest(d, first), second);
    var once := Filter(ItemKept(first), d.items);
    RenumberFilter(second, once);
    FilterTwice(ItemKept(first), ItemKept(second), ItemKept(both), d.items);
    var p := ItemKept(second);
    RenumberErased(once);
    forall kind
      ensures CountKind(kind, Filter(p, Renumber(once))) == CountKind(kind, Filter(p, once))
    {
      CountRenumbered(kind, Filter(p, Renumber(once)));
      CountRenumbered(kind, Filter(p, once));
    }
    SkillNamesRenumbered(Filter(p, Renumber(once)));
    SkillNamesRenumbered(Filter(p, once));
  }

  lemma {:induction false} FilterTwice(p: Item -> bool, q: Item -> bool, both: Item -> bool, items: seq<Item>)
    requires forall i :: both(i) == (p(i) && q(i))
    ensures Filter(q, Filter(p, items)) == Filter(both, items)
  {
    if items != [] {
      FilterTwice(p, q, both, items[1..]);
      FilterConcat(q, if p(items[0]) then [items[0]] else [], Filter(p, items[1..]));
    }
  }
}

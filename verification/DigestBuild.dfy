// Build and Restrict as the program runs them, proved against the projections.
module DigestBuild {
  import opened Options
  import opened Sequences
  import opened StableSorting
  import Names
  import opened Text
  import opened DigestModel
  import opened DigestTheorems

  datatype Refusal = InvalidDigest

  // ---- SHA resolution ----

  method ResolveCommit(sha: string, commitSet: set<string>) returns (answer: Option<string>)
    ensures Resolves(sha, commitSet, answer)
  {
    if sha in commitSet {
      return Some(sha);
    }
    var rest := commitSet;
    while rest != {}
      invariant rest <= commitSet
      invariant forall c :: c in commitSet && sha <= c ==> c in rest
    {
      var candidate :| candidate in rest;
      if sha <= candidate {
        return Some(candidate);
      }
      rest := rest - {candidate};
    }
    return None;
  }

  method NormalizeCommitSet(shas: seq<string>) returns (out: set<string>)
    ensures out == CommitSetOf(shas)
  {
    hide NormalSha;
    hide IsCommitSha;
    NoCommits(shas);
    hide CommitSetOf;
    out := {};
    for i := 0 to |shas|
      invariant out == CommitSetOf(shas[..i])
    {
      CommitSetSnoc(shas, i);
      var lower := NormalSha(shas[i]);
      if IsCommitSha(lower) {
        out := out + {lower};
      }
    }
    assert shas[..|shas|] == shas;
  }

  lemma NoCommits(shas: seq<string>)
    ensures CommitSetOf(shas[..0]) == {}
  {
  }

  lemma CommitSetSnoc(shas: seq<string>, i: nat)
    requires i < |shas|
    ensures CommitSetOf(shas[..i + 1]) ==
            CommitSetOf(shas[..i]) + if IsCommitSha(NormalSha(shas[i])) then {NormalSha(shas[i])} else {}
  {
    hide NormalSha;
    hide IsCommitSha;
    var n := NormalSha(shas[i]);
    var added := if IsCommitSha(n) then {n} else {};
    assert shas[..i + 1] == shas[..i] + [shas[i]];
    forall x | x in CommitSetOf(shas[..i + 1])
      ensures x in CommitSetOf(shas[..i]) + added
    {
      var s :| s in shas[..i + 1] && IsCommitSha(NormalSha(s)) && NormalSha(s) == x;
      assert s in shas[..i] || s == shas[i];
    }
    forall x | x in CommitSetOf(shas[..i]) + added
      ensures x in CommitSetOf(shas[..i + 1])
    {
      if x in CommitSetOf(shas[..i]) {
        var s :| s in shas[..i] && IsCommitSha(NormalSha(s)) && NormalSha(s) == x;
        assert s in shas[..i + 1];
      } else {
        assert shas[i] in shas[..i + 1];
      }
    }
  }

  // The anchors under some way of resolving every SHA, as map order may have it.
  ghost predicate Anchors(matches: seq<CommitMatch>, commitSet: set<string>, answers: seq<Option<string>>,
                          out: seq<Anchor>) {
    Answers(matches, commitSet, answers) && out == AnchorsOf(matches, answers)
  }

  method AcceptedAnchors(matches: seq<CommitMatch>, commitSet: set<string>) returns (out: seq<Anchor>)
    ensures exists answers :: Anchors(matches, commitSet, answers, out)
  {
    out := [];
    ghost var answers: seq<Option<string>> := [];
    for i := 0 to |matches|
      invariant |answers| == i
      invariant Answers(matches[..i], commitSet, answers)
      invariant out == AnchorsOf(matches[..i], answers)
    {
      var m := matches[i];
      var sha := NormalSha(m.sha);
      ghost var before := answers;
      ghost var answer: Option<string> := None;
      if Bytes(sha) >= 7 {
        var resolved := ResolveCommit(sha, commitSet);
        answer := resolved;
        if resolved.Some? {
          out := out + [AnchorOf(m, resolved.value)];
        }
      }
      answers := before + [answer];
      AcceptedSnoc(matches, i, commitSet, before, answer);
    }
    assert matches[..|matches|] == matches;
    assert Anchors(matches, commitSet, answers, out);
  }

  lemma AcceptedSnoc(matches: seq<CommitMatch>, i: nat, commitSet: set<string>, before: seq<Option<string>>,
                     answer: Option<string>)
    requires i < |matches| && Answers(matches[..i], commitSet, before)
    requires Accepts(matches[i], commitSet, answer)
    ensures Answers(matches[..i + 1], commitSet, before + [answer])
    ensures AnchorsOf(matches[..i + 1], before + [answer])
         == AnchorsOf(matches[..i], before) + if answer.Some? then [AnchorOf(matches[i], answer.value)] else []
  {
    hide Accepts;
    var all := matches[..i + 1];
    assert all[..i] == matches[..i] && (before + [answer])[..i] == before;
    forall j | 0 <= j < i + 1
      ensures Accepts(all[j], commitSet, (before + [answer])[j])
    {
      if j < i {
        assert all[j] == matches[..i][j];
      }
    }
  }

  // ---- skill counts ----

  // counts holds how often each name occurs in names.
  ghost predicate Counts(counts: map<string, nat>, names: multiset<string>) {
    && (forall n :: n in counts <==> n in names)
    && (forall n :: n in counts ==> counts[n] == names[n])
  }

  function Bump(counts: map<string, nat>, name: string): map<string, nat> {
    counts[name := (if name in counts then counts[name] else 0) + 1]
  }

  lemma BumpCounts(counts: map<string, nat>, names: multiset<string>, name: string)
    requires Counts(counts, names)
    ensures Counts(Bump(counts, name), names + multiset{name})
  {
  }

  function InsertSkill(s: Skill, skills: seq<Skill>): seq<Skill> {
    if skills == [] || Names.Le(s.name, skills[0].name) then [s] + skills else [skills[0]] + InsertSkill(s, skills[1..])
  }

  function SortSkills(skills: seq<Skill>): seq<Skill> {
    if skills == [] then [] else InsertSkill(skills[0], SortSkills(skills[1..]))
  }

  function NamesOf(skills: seq<Skill>): (r: seq<string>)
    ensures |r| == |skills|
    ensures forall i :: 0 <= i < |skills| ==> r[i] == skills[i].name
  {
    seq(|skills|, i requires 0 <= i < |skills| => skills[i].name)
  }

  lemma {:induction false} InsertSkillNames(s: Skill, skills: seq<Skill>)
    ensures NamesOf(InsertSkill(s, skills)) == Names.InsertName(s.name, NamesOf(skills))
    ensures forall x :: x in InsertSkill(s, skills) <==> x == s || x in skills
  {
    if skills == [] || Names.Le(s.name, skills[0].name) {
      assert NamesOf([s] + skills) == [s.name] + NamesOf(skills);
    } else {
      InsertSkillNames(s, skills[1..]);
      assert NamesOf(skills)[1..] == NamesOf(skills[1..]);
      assert NamesOf([skills[0]] + InsertSkill(s, skills[1..])) ==
          [skills[0].name] + NamesOf(InsertSkill(s, skills[1..]));
    }
  }

  lemma {:induction false} SortSkillsNames(skills: seq<Skill>)
    ensures NamesOf(SortSkills(skills)) == Names.SortNames(NamesOf(skills))
    ensures forall x :: x in SortSkills(skills) <==> x in skills
  {
    if skills != [] {
      SortSkillsNames(skills[1..]);
      InsertSkillNames(skills[0], SortSkills(skills[1..]));
      assert NamesOf(skills)[1..] == NamesOf(skills[1..]);
    }
  }

  // Sorting the counted names in any order of discovery gives the one skill list.
  lemma SortedSkillsAreTheList(skills: seq<Skill>, names: multiset<string>)
    requires Distinct(NamesOf(skills))
    requires forall s :: s in skills ==> s.name in names && s.count == names[s.name]
    requires forall n :: n in names ==> n in NamesOf(skills)
    ensures SortSkills(skills) == SkillsOf(names)
  {
    var sorted := SortSkills(skills);
    SortSkillsNames(skills);
    Names.SortNamesOrders(NamesOf(skills));
    Names.SortStrict(NamesOf(skills));
    var listed := Names.Ascending(set n | n in names);
    forall n
      ensures n in NamesOf(sorted) <==> n in listed
    {
      NamedBySkills(skills, names, n);
    }
    Names.IncreasingUnique(NamesOf(sorted), listed);
    SkillsByName(sorted, names, listed);
  }

  lemma NamedBySkills(skills: seq<Skill>, names: multiset<string>, n: string)
    requires forall s :: s in skills ==> s.name in names
    requires forall m :: m in names ==> m in NamesOf(skills)
    ensures n in NamesOf(skills) <==> n in names
  {
    if n in NamesOf(skills) {
      var i :| 0 <= i < |skills| && NamesOf(skills)[i] == n;
      assert skills[i] in skills;
    }
  }

  lemma SkillsByName(skills: seq<Skill>, names: multiset<string>, listed: seq<string>)
    requires forall s :: s in skills ==> s.name in names && s.count == names[s.name]
    requires NamesOf(skills) == listed == Names.Ascending(set n | n in names)
    ensures skills == SkillsOf(names)
  {
    forall i | 0 <= i < |skills|
      ensures skills[i] == SkillsOf(names)[i]
    {
      assert skills[i] in skills;
      assert NamesOf(skills)[i] == listed[i];
    }
  }

  method ListSkills(counts: map<string, nat>, ghost names: multiset<string>) returns (skills: seq<Skill>)
    requires Counts(counts, names)
    ensures skills == SkillsOf(names)
  {
    skills := [];
    var rest := counts.Keys;
    while rest != {}
      invariant rest <= counts.Keys
      invariant Distinct(NamesOf(skills))
      invariant forall s :: s in skills ==> s.name in counts.Keys - rest && s.count == names[s.name]
      invariant forall n :: n in counts.Keys - rest ==> n in NamesOf(skills)
    {
      var name :| name in rest;
      ghost var before := skills;
      assert forall i :: 0 <= i < |before| ==> before[i] in before && before[i].name != name;
      skills := skills + [Skill(name, counts[name])];
      assert NamesOf(skills) == NamesOf(before) + [name];
      rest := rest - {name};
    }
    SortedSkillsAreTheList(skills, names);
    skills := SortSkills(skills);
  }

  // ---- skill names and sorting ----

  lemma {:induction false} SkillNamesConcat(a: seq<Item>, b: seq<Item>)
    ensures SkillNames(a + b) == SkillNames(a) + SkillNames(b)
  {
    if b == [] {
      assert a + b == a;
    } else {
      var n := |b| - 1;
      var front, last := b[..n], b[n];
      SkillNamesConcat(a, front);
      SplitLast(b);
      assert a + b == (a + front) + [last];
      SkillNamesSnoc(a + front, last);
      SkillNamesSnoc(front, last);
    }
  }

  lemma SkillNamesSnoc(s: seq<Item>, x: Item)
    ensures SkillNames(s + [x]) == SkillNames(s) + if x.kind == SkillItem then multiset{x.text} else multiset{}
  {
    assert (s + [x])[..|s|] == s;
  }

  lemma SkillNamesCons(x: Item, s: seq<Item>)
    ensures SkillNames([x] + s) == (if x.kind == SkillItem then multiset{x.text} else multiset{}) + SkillNames(s)
  {
    SkillNamesConcat([x], s);
    assert [x][..0] == [];
  }

  lemma {:induction false} SkillNamesInsert(x: Item, s: seq<Item>)
    ensures SkillNames(Insert(InstantOf(), x, s)) == SkillNames([x] + s)
  {
    if s == [] || InstantOf()(x) <= InstantOf()(s[0]) {
    } else {
      SkillNamesInsert(x, s[1..]);
      assert s == [s[0]] + s[1..];
      SkillNamesCons(x, s);
      SkillNamesCons(s[0], s[1..]);
      SkillNamesCons(x, s[1..]);
      SkillNamesCons(s[0], Insert(InstantOf(), x, s[1..]));
    }
  }

  lemma {:induction false} SkillNamesSorted(s: seq<Item>)
    ensures SkillNames(StableSort(InstantOf(), s)) == SkillNames(s)
  {
    if s != [] {
      SkillNamesSorted(s[1..]);
      SkillNamesInsert(s[0], StableSort(InstantOf(), s[1..]));
      SkillNamesCons(s[0], StableSort(InstantOf(), s[1..]));
      assert s == [s[0]] + s[1..];
      SkillNamesCons(s[0], s[1..]);
    }
  }

  lemma {:induction false} SkillNamesNumbered(s: seq<Item>)
    ensures SkillNames(NumberPrompts(s)) == SkillNames(s)
  {
    if s != [] {
      var n := |s| - 1;
      SkillNamesNumbered(s[..n]);
      assert NumberPrompts(s)[..n] == NumberPrompts(s[..n]);
    }
  }

  lemma {:induction false} SkillNamesNone(s: seq<Item>)
    requires forall x :: x in s ==> x.kind != SkillItem
    ensures SkillNames(s) == multiset{}
  {
    if s != [] {
      SkillNamesNone(s[..|s| - 1]);
    }
  }

  // ---- Build ----

  method CollectAnchors(anchors: seq<Anchor>) returns (bySha: map<string, Anchor>, order: seq<string>)
    ensures order == Order(anchors)
    ensures forall s :: s in order <==> s in bySha
    ensures forall s :: s in bySha ==> Winner(anchors, s) == Some(bySha[s])
  {
    bySha, order := map[], [];
    for i := 0 to |anchors|
      invariant order == Order(anchors[..i])
      invariant forall s :: s in order <==> s in bySha
      invariant forall s :: s in bySha ==> Winner(anchors[..i], s) == Some(bySha[s])
    {
      var a := anchors[i];
      assert anchors[..i + 1] == anchors[..i] + [a];
      assert anchors[..i + 1][..i] == anchors[..i];
      forall s
        ensures Winner(anchors[..i + 1], s) ==
                var w := Winner(anchors[..i], s);
                if a.sha == s && (w == None || a.at < w.value.at) then Some(a) else w
      {
        WinnerSnoc(anchors[..i], a, s);
      }
      WinnerOf(anchors[..i], a.sha);
      if a.sha in bySha {
        if a.at < bySha[a.sha].at {
          bySha := bySha[a.sha := a];
        }
      } else {
        bySha := bySha[a.sha := a];
        order := order + [a.sha];
      }
    }
    assert anchors[..|anchors|] == anchors;
  }

  lemma FilterNext<T>(p: T -> bool, s: seq<T>, i: nat)
    requires i < |s|
    ensures Filter(p, s[..i + 1]) == Filter(p, s[..i]) + if p(s[i]) then [s[i]] else []
  {
    assert s[..i + 1] == s[..i] + [s[i]];
    FilterConcat(p, s[..i], [s[i]]);
  }

  method CountCommits(order: seq<string>, anchors: seq<Anchor>, tid: string) returns (count: nat)
    requires order == Order(anchors)
    ensures count == CommitCount(anchors, tid)
  {
    count := 0;
    var p := RecordedBy(anchors, tid);
    for i := 0 to |order|
      invariant count == |Filter(p, order[..i])|
    {
      var sha := order[i];
      var found := false;
      for j := 0 to |anchors|
        invariant !found
        invariant forall k :: 0 <= k < j ==> !(anchors[k].tid == tid && anchors[k].sha == sha)
      {
        if anchors[j].tid == tid && anchors[j].sha == sha {
          found := true;
          break;
        }
      }
      assert found <==> p(sha);
      FilterNext(p, order, i);
      if found {
        count := count + 1;
      }
    }
    assert order[..|order|] == order;
  }

  method CountPrompts(turns: seq<Turn>) returns (count: nat)
    ensures count == PromptCount(turns)
  {
    count := 0;
    for i := 0 to |turns|
      invariant count == PromptCount(turns[..i])
    {
      assert turns[..i + 1][..i] == turns[..i];
      if IsPrompt(turns[i]) {
        count := count + 1;
      }
    }
    assert turns[..|turns|] == turns;
  }

  method AppendTurns(session: Session, before: seq<Item>, counted: map<string, nat>)
    returns (items: seq<Item>, counts: map<string, nat>)
    requires Counts(counted, SkillNames(before))
    ensures items == before + TurnItems(session.tid, session.turns)
    ensures Counts(counts, SkillNames(items))
  {
    items, counts := before, counted;
    var turns := session.turns;
    assert before + [] == before;
    for i := 0 to |turns|
      invariant items == before + TurnItems(session.tid, turns[..i])
      invariant Counts(counts, SkillNames(items))
    {
      var turn := turns[i];
      TurnAppended(session.tid, before, turns, i);
      SkillOfTurn(session.tid, turn);
      SkillNamesConcat(items, TurnItem(session.tid, turn));
      if turn.command.Some? {
        var name := turn.command.value.name;
        BumpCounts(counts, SkillNames(items), name);
        counts := Bump(counts, name);
        items := items + [Item(SkillItem, session.tid, turn.at, name, turn.command.value.args, None,
                               Some(turn.index), None, None, "", NoChanges)];
      } else if IsPrompt(turn) {
        items := items + [Item(PromptItem, session.tid, turn.at, TrimSpace(turn.content), "", None,
                               Some(turn.index), None, None, "", NoChanges)];
      }
    }
    assert turns[..|turns|] == turns;
  }

  lemma TurnAppended(tid: string, before: seq<Item>, turns: seq<Turn>, i: nat)
    requires i < |turns|
    ensures before + TurnItems(tid, turns[..i + 1]) == before + TurnItems(tid, turns[..i]) + TurnItem(tid, turns[i])
    ensures before + TurnItems(tid, turns[..i]) + [] == before + TurnItems(tid, turns[..i])
  {
    assert turns[..i + 1][..i] == turns[..i];
  }

  lemma SkillOfTurn(tid: string, turn: Turn)
    ensures SkillNames(TurnItem(tid, turn)) ==
        if turn.command.Some? then multiset{turn.command.value.name} else multiset{}
  {
    if TurnItem(tid, turn) != [] {
      assert TurnItem(tid, turn)[..0] == [];
    }
  }

  method AppendSessions(sessions: seq<Session>, anchors: seq<Anchor>, order: seq<string>)
    returns (items: seq<Item>, counts: map<string, nat>)
    requires order == Order(anchors)
    ensures items == SessionItems(sessions, anchors)
    ensures Counts(counts, SkillNames(items))
  {
    items, counts := [], map[];
    for i := 0 to |sessions|
      invariant items == SessionItems(sessions[..i], anchors)
      invariant Counts(counts, SkillNames(items))
    {
      var session := sessions[i];
      var promptCount := CountPrompts(session.turns);
      var commitCount := CountCommits(order, anchors, session.tid);
      var head := Item(SessionItem, session.tid, session.start, SessionLabel(i + 1), "", None, None,
                       Some(promptCount), Some(commitCount), "", NoChanges);
      SkillNamesConcat(items, [head]);
      SkillNamesNone([head]);
      assert sessions[..i + 1][..i] == sessions[..i];
      items, counts := AppendTurns(session, items + [head], counts);
    }
    assert sessions[..|sessions|] == sessions;
  }

  method AppendCommits(before: seq<Item>, bySha: map<string, Anchor>, order: seq<string>, ghost anchors: seq<Anchor>)
    returns (items: seq<Item>)
    requires order == Order(anchors)
    requires forall s :: s in order ==> s in bySha && Winner(anchors, s) == Some(bySha[s])
    ensures items == before + CommitItems(anchors)
  {
    items := before;
    ghost var f := CommitItemFor(anchors);
    for i := 0 to |order|
      invariant items == before + Map(f, order[..i])
    {
      var sha := order[i];
      assert sha in order;
      var a := bySha[sha];
      WinnerOf(anchors, sha);
      var item := Item(CommitItem, a.tid, a.at, sha, "", None, None, None, None, sha, NoChanges);
      hide Winner;
      hide Order;
      if a.changes.additions.Some? && a.changes.deletions.Some? && a.changes.files.Some? {
        item := item.(changes := a.changes);
      }
      assert order[..i + 1] == order[..i] + [sha];
      MapSnoc(f, order[..i], sha);
      items := items + [item];
    }
    assert order[..|order|] == order;
  }

  // Rewrites the ordinals in place, prompt after prompt.
  method NumberInPlace(sorted: seq<Item>) returns (items: seq<Item>, prompts: nat)
    ensures items == NumberPrompts(sorted)
    ensures prompts == CountKind(PromptItem, items)
  {
    hide CountKind;
    hide NumberPrompts;
    NumberNone();
    items, prompts := sorted, 0;
    assert sorted[..0] == [];
    assert [] + sorted[0..] == sorted;
    for i := 0 to |sorted|
      invariant items == NumberPrompts(sorted[..i]) + sorted[i..]
      invariant prompts == CountKind(PromptItem, sorted[..i])
    {
      NumberStep(sorted, i);
      if items[i].kind == PromptItem {
        prompts := prompts + 1;
        items := items[i := items[i].(ordinal := Some(prompts))];
      }
    }
    NumberAll(sorted);
    CountNumbered(sorted);
  }

  lemma ReplaceMiddle<T>(a: seq<T>, x: T, y: T, rest: seq<T>)
    ensures (a + ([x] + rest))[|a|] == x
    ensures (a + ([x] + rest))[|a| := y] == (a + [y]) + rest
    ensures a + ([x] + rest) == (a + [x]) + rest
  {
  }

  lemma SplitAt<T>(s: seq<T>, i: nat)
    requires i < |s|
    ensures s[..i + 1][..i] == s[..i] && s[..i + 1][i] == s[i]
    ensures s[i..] == [s[i]] + s[i + 1..]
  {
  }

  lemma NumberAll(sorted: seq<Item>)
    ensures sorted[..|sorted|] == sorted
    ensures NumberPrompts(sorted[..|sorted|]) + sorted[|sorted|..] == NumberPrompts(sorted)
  {
    hide NumberPrompts;
    assert sorted[..|sorted|] == sorted && sorted[|sorted|..] == [];
    assert NumberPrompts(sorted) + [] == NumberPrompts(sorted);
  }

  lemma NumberNone()
    ensures NumberPrompts([]) == [] && CountKind(PromptItem, []) == 0
  {
  }

  lemma NumberStep(sorted: seq<Item>, i: nat)
    requires i < |sorted|
    ensures var items := NumberPrompts(sorted[..i]) + sorted[i..];
            var after := NumberPrompts(sorted[..i + 1]) + sorted[i + 1..];
            var count := CountKind(PromptItem, sorted[..i]);
            && items[i] == sorted[i]
            && CountKind(PromptItem, sorted[..i + 1]) == count + (if sorted[i].kind == PromptItem then 1 else 0)
            && after == if sorted[i].kind == PromptItem then items[i := sorted[i].(ordinal := Some(count + 1))]
              else items
  {
    var front := sorted[..i + 1];
    var x := sorted[i];
    SplitAt(sorted, i);
    FilterLast(OfKind(PromptItem), front);
    var y := if x.kind == PromptItem then x.(ordinal := Some(CountKind(PromptItem, front))) else x;
    ReplaceMiddle(NumberPrompts(sorted[..i]), x, y, sorted[i + 1..]);
  }

  lemma {:induction false} CountNumbered(items: seq<Item>)
    ensures CountKind(PromptItem, NumberPrompts(items)) == CountKind(PromptItem, items)
  {
    if items != [] {
      var n := |items| - 1;
      CountNumbered(items[..n]);
      FilterLast(OfKind(PromptItem), items);
      FilterLast(OfKind(PromptItem), NumberPrompts(items));
      assert NumberPrompts(items)[..n] == NumberPrompts(items[..n]);
    }
  }

  // Build: the digest the input projects to under some way of resolving its
  // SHAs, or a refusal when the contract's validator rejects that digest.
  ghost predicate Builds(input: Input, validate: Digest -> bool, answers: seq<Option<string>>,
                         r: Result<Digest, Refusal>) {
    && Answers(input.commits, CommitSetOf(input.commitSet), answers)
    && r == if validate(BuildDigest(input, answers)) then Ok(BuildDigest(input, answers)) else Err(InvalidDigest)
  }

  method Build(input: Input, validate: Digest -> bool) returns (r: Result<Digest, Refusal>)
    ensures exists answers :: Builds(input, validate, answers, r)
  {
    var sessions := StableSort(StartOf(), input.sessions);
    var commitSet := NormalizeCommitSet(input.commitSet);
    var anchors := AcceptedAnchors(input.commits, commitSet);
    ghost var answers :| Anchors(input.commits, commitSet, answers, anchors);
    var bySha, order := CollectAnchors(anchors);
    var items, counts := AppendSessions(sessions, anchors, order);
    ghost var names := SkillNames(items);
    items := AppendCommits(items, bySha, order, anchors);
    ghost var raw := items;
    items := StableSort(InstantOf(), items);
    ghost var sorted := items;
    var prompts: nat;
    items, prompts := NumberInPlace(items);
    BuiltSkillNames(sessions, anchors);
    var skills := ListSkills(counts, names);
    var header := Header(|sessions|, prompts, |order|, |commitSet|, input.villageUrl, "", "");
    if |sessions| > 0 {
      header := header.(harness := sessions[0].harness, redaction := sessions[0].redaction);
    }
    var built := Digest(header, skills, items);
    assert built == BuildDigest(input, answers);
    if validate(built) {
      r := Ok(built);
    } else {
      r := Err(InvalidDigest);
    }
    assert Builds(input, validate, answers, r);
  }

  lemma BuiltSkillNames(sessions: seq<Session>, anchors: seq<Anchor>)
    ensures SkillNames(NumberPrompts(StableSort(InstantOf(), SessionItems(sessions, anchors) + CommitItems(anchors))))
         == SkillNames(SessionItems(sessions, anchors))
  {
    var raw := SessionItems(sessions, anchors) + CommitItems(anchors);
    SkillNamesNumbered(StableSort(InstantOf(), raw));
    SkillNamesSorted(raw);
    SkillNamesConcat(SessionItems(sessions, anchors), CommitItems(anchors));
    CommitItemKinds(anchors);
    SkillNamesNone(CommitItems(anchors));
  }

  // ---- Restrict ----

  method FilterItems(items: seq<Item>, keep: string -> bool) returns (kept: seq<Item>)
    ensures kept == Filter(ItemKept(keep), items)
  {
    kept := [];
    for i := 0 to |items|
      invariant kept == Filter(ItemKept(keep), items[..i])
    {
      assert items[..i + 1] == items[..i] + [items[i]];
      FilterConcat(ItemKept(keep), items[..i], [items[i]]);
      assert kept + [] == kept;
      if keep(items[i].tid) {
        kept := kept + [items[i]];
      }
    }
    assert items[..|items|] == items;
  }

  // The counters as they stand after the first i items.
  ghost predicate Counted(items: seq<Item>, i: nat, sessions: nat, prompts: nat, commits: nat, counts: map<string, nat>)
    requires i <= |items|
  {
    && sessions == CountKind(SessionItem, items[..i])
    && prompts == CountKind(PromptItem, items[..i])
    && commits == CountKind(CommitItem, items[..i])
    && Counts(counts, SkillNames(items[..i]))
  }

  lemma CountedStep(items: seq<Item>, i: nat)
    requires i < |items|
    ensures forall kind ::
        CountKind(kind, items[..i + 1]) == CountKind(kind, items[..i]) + if items[i].kind == kind then 1 else 0
    ensures SkillNames(items[..i + 1]) == SkillNames(items[..i])
        + if items[i].kind == SkillItem then multiset{items[i].text} else multiset{}
  {
    var front := items[..i + 1];
    assert front[..i] == items[..i] && front[i] == items[i];
    forall kind
      ensures CountKind(kind, front) == CountKind(kind, items[..i]) + if items[i].kind == kind then 1 else 0
    {
      FilterLast(OfKind(kind), front);
    }
  }

  lemma RenumberStep(items: seq<Item>, i: nat)
    requires i < |items|
    ensures var numbered := Renumber(items[..i]) + items[i..];
            && numbered[i] == items[i]
            && Renumber(items[..i + 1]) + items[i + 1..] ==
               numbered[i := Stamp(items[i], CountKind(SessionItem, items[..i + 1]),
                 CountKind(PromptItem, items[..i + 1]))]
  {
    var front := items[..i + 1];
    SplitAt(items, i);
    ReplaceMiddle(Renumber(items[..i]), items[i],
                  Stamp(items[i], CountKind(SessionItem, front), CountKind(PromptItem, front)), items[i + 1..]);
  }

  function One(b: bool): nat { if b then 1 else 0 }

  lemma CountedAdvance(kept: seq<Item>, i: nat, sessions: nat, prompts: nat, commits: nat, counts: map<string, nat>)
    requires i < |kept| && Counted(kept, i, sessions, prompts, commits, counts)
    ensures Counted(kept, i + 1, sessions + One(kept[i].kind == SessionItem), prompts + One(kept[i].kind == PromptItem),
                    commits + One(kept[i].kind == CommitItem),
                    if kept[i].kind == SkillItem then Bump(counts, kept[i].text) else counts)
    ensures (Renumber(kept[..i]) + kept[i..])[i] == kept[i]
    ensures Renumber(kept[..i + 1]) + kept[i + 1..] ==
            match kept[i].kind
            case SessionItem => (Renumber(kept[..i]) + kept[i..])[i := kept[i].(text := SessionLabel(sessions + 1))]
            case PromptItem => (Renumber(kept[..i]) + kept[i..])[i := kept[i].(ordinal := Some(prompts + 1))]
            case _ => Renumber(kept[..i]) + kept[i..]
  {
    hide Renumber;
    hide CountKind;
    hide SkillNames;
    hide Bump;
    hide Counts;
    CountedStep(kept, i);
    RenumberStep(kept, i);
    UpdateSame(Renumber(kept[..i]) + kept[i..], i);
    if kept[i].kind == SkillItem {
      BumpCounts(counts, SkillNames(kept[..i]), kept[i].text);
    } else {
      assert SkillNames(kept[..i + 1]) == SkillNames(kept[..i]);
    }
  }

  // Rewrites the labels and ordinals in place and counts what remains.
  method RenumberInPlace(kept: seq<Item>)
    returns (items: seq<Item>, sessions: nat, prompts: nat, commits: nat, counts: map<string, nat>)
    ensures items == Renumber(kept)
    ensures sessions == CountKind(SessionItem, kept)
    ensures prompts == CountKind(PromptItem, kept)
    ensures commits == CountKind(CommitItem, kept)
    ensures Counts(counts, SkillNames(kept))
  {
    items, sessions, prompts, commits, counts := kept, 0, 0, 0, map[];
    assert kept[..0] == [] && [] + kept[0..] == kept;
    for i := 0 to |kept|
      invariant items == Renumber(kept[..i]) + kept[i..]
      invariant Counted(kept, i, sessions, prompts, commits, counts)
    {
      CountedAdvance(kept, i, sessions, prompts, commits, counts);
      match items[i].kind {
        case SessionItem =>
          sessions := sessions + 1;
          items := items[i := items[i].(text := SessionLabel(sessions))];
        case PromptItem =>
          prompts := prompts + 1;
          items := items[i := items[i].(ordinal := Some(prompts))];
        case SkillItem =>
          counts := Bump(counts, items[i].text);
        case CommitItem =>
          commits := commits + 1;
      }
    }
    assert kept[..|kept|] == kept && kept[|kept|..] == [] && Renumber(kept) + [] == Renumber(kept);
  }

  lemma UpdateSame<T>(s: seq<T>, i: nat)
    requires i < |s|
    ensures s[i := s[i]] == s
  {
  }

  // Restrict: the restricted digest, or a refusal when what remains does not
  // validate. Keeping every item returns the digest unvalidated, as it came.
  method Restrict(d: Digest, keep: string -> bool, validate: Digest -> bool) returns (r: Result<Digest, Refusal>)
    ensures r == if (forall x :: x in d.items ==> keep(x.tid)) || validate(RestrictDigest(d, keep))
                 then Ok(RestrictDigest(d, keep)) else Err(InvalidDigest)
  {
    var kept := FilterItems(d.items, keep);
    if |kept| == |d.items| {
      FilterAll(ItemKept(keep), d.items);
      return Ok(d);
    }
    if forall x :: x in d.items ==> keep(x.tid) {
      FilterAll(ItemKept(keep), d.items);
    }
    var items, sessions, prompts, commits, counts := RenumberInPlace(kept);
    var skills := ListSkills(counts, SkillNames(kept));
    var header := d.header.(sessionCount := sessions, promptCount := prompts, commitsCovered := commits);
    var restricted := Digest(header, skills, items);
    assert restricted == RestrictDigest(d, keep);
    if validate(restricted) {
      r := Ok(restricted);
    } else {
      r := Err(InvalidDigest);
    }
  }
}

// The prompt digest: what Build projects from the accepted evidence and what
// Restrict leaves of it for one reader, both as values.
module DigestModel {
  import opened Options
  import opened Sequences
  import opened StableSorting
  import Names
  import opened Text

  datatype Command = Command(name: string, args: string)

  datatype Role = User | Agent

  datatype Turn = Turn(index: int, role: Role, content: string, at: int, command: Option<Command>)

  datatype Session = Session(tid: string, harness: string, redaction: string, start: int, turns: seq<Turn>)

  datatype Changes = Changes(additions: Option<int>, deletions: Option<int>, files: Option<int>)

  datatype CommitMatch = CommitMatch(tid: string, sha: string, at: int, changes: Changes)

  datatype Input = Input(villageUrl: string, commitSet: seq<string>, sessions: seq<Session>, commits: seq<CommitMatch>)

  // A match whose commit is in the pull request's current commit set.
  datatype Anchor = Anchor(tid: string, sha: string, at: int, changes: Changes)

  datatype Kind = SessionItem | PromptItem | SkillItem | CommitItem

  datatype Item = Item(
    kind: Kind, tid: string, at: int, text: string, args: string, ordinal: Option<nat>,
    turnIndex: Option<int>, promptCount: Option<nat>, commitCount: Option<nat>, sha: string, changes: Changes)

  datatype Skill = Skill(name: string, count: nat)

  datatype Header = Header(
    sessionCount: nat, promptCount: nat, commitsCovered: nat, commitsTotal: nat,
    villageUrl: string, harness: string, redaction: string)

  datatype Digest = Digest(header: Header, skills: seq<Skill>, items: seq<Item>)

  const NoChanges := Changes(None, None, None)

  // Named predicates and keys, so that two uses are the same function value.

  function StartOf(): Session -> int { (s: Session) => s.start }

  function InstantOf(): Item -> int { (i: Item) => i.at }

  function SessionKept(keep: string -> bool): Session -> bool { (s: Session) => keep(s.tid) }

  function CommitKept(keep: string -> bool): CommitMatch -> bool { (m: CommitMatch) => keep(m.tid) }

  function AnchorKept(keep: string -> bool): Anchor -> bool { (a: Anchor) => keep(a.tid) }

  function ItemKept(keep: string -> bool): Item -> bool { (i: Item) => keep(i.tid) }

  function OfKind(kind: Kind): Item -> bool { (i: Item) => i.kind == kind }

  // ---- accepted anchors ----

  function NormalSha(s: string): string { Lower(TrimSpace(s)) }

  predicate IsHex(c: char) { '0' <= c <= '9' || 'a' <= c <= 'f' }

  // ^[0-9a-f]{7,40}$
  predicate IsCommitSha(s: string) {
    7 <= |s| <= 40 && forall i :: 0 <= i < |s| ==> IsHex(s[i])
  }

  // normalizeCommitSet
  function CommitSetOf(shas: seq<string>): set<string> {
    set s | s in shas && IsCommitSha(NormalSha(s)) :: NormalSha(s)
  }

  // What resolveCommit may return. With no exact member it takes whichever
  // prefixed member the map's iteration reaches first, so several answers can
  // be possible for one abbreviated SHA.
  ghost predicate Resolves(sha: string, commitSet: set<string>, answer: Option<string>) {
    if sha in commitSet then answer == Some(sha)
    else if exists c :: c in commitSet && sha <= c then
      answer.Some? && answer.value in commitSet && sha <= answer.value
    else answer == None
  }

  // One possible outcome of resolving a match: None when it is dropped.
  ghost predicate Accepts(m: CommitMatch, commitSet: set<string>, answer: Option<string>) {
    var sha := NormalSha(m.sha);
    if Bytes(sha) < 7 then answer == None else Resolves(sha, commitSet, answer)
  }

  function AnchorOf(m: CommitMatch, sha: string): Anchor { Anchor(m.tid, sha, m.at, m.changes) }

  function AnchorsOf(commits: seq<CommitMatch>, answers: seq<Option<string>>): seq<Anchor>
    requires |commits| == |answers|
  {
    if commits == [] then []
    else
      var n := |commits| - 1;
      AnchorsOf(commits[..n], answers[..n]) +
      if answers[n].Some? then [AnchorOf(commits[n], answers[n].value)] else []
  }

  ghost predicate Answers(commits: seq<CommitMatch>, commitSet: set<string>, answers: seq<Option<string>>) {
    && |answers| == |commits|
    && forall i :: 0 <= i < |commits| ==> Accepts(commits[i], commitSet, answers[i])
  }

  // ---- one anchor per commit ----

  // The covered commits, in the order they were first recorded.
  function Order(anchors: seq<Anchor>): seq<string> {
    if anchors == [] then []
    else
      var n := |anchors| - 1;
      var before := Order(anchors[..n]);
      if anchors[n].sha in before then before else before + [anchors[n].sha]
  }

  // The anchor a commit keeps: the earliest authored, the first recorded of those.
  function Winner(anchors: seq<Anchor>, sha: string): Option<Anchor> {
    if anchors == [] then None
    else
      var n := |anchors| - 1;
      var before := Winner(anchors[..n], sha);
      if anchors[n].sha == sha && (before == None || anchors[n].at < before.value.at) then Some(anchors[n]) else before
  }

  function RecordedBy(anchors: seq<Anchor>, tid: string): string -> bool {
    (sha: string) => exists i :: 0 <= i < |anchors| && anchors[i].tid == tid && anchors[i].sha == sha
  }

  function CommitCount(anchors: seq<Anchor>, tid: string): nat {
    |Filter(RecordedBy(anchors, tid), Order(anchors))|
  }

  // ---- items ----

  predicate IsPrompt(turn: Turn) {
    turn.command == None && turn.role == User && TrimSpace(turn.content) != ""
  }

  function PromptCount(turns: seq<Turn>): nat {
    if turns == [] then 0
    else PromptCount(turns[..|turns| - 1]) + if IsPrompt(turns[|turns| - 1]) then 1 else 0
  }

  function SessionLabel(n: nat): string { "session " + Decimal(n) }

  function SessionHead(s: Session, anchors: seq<Anchor>, heading: string): Item {
    Item(SessionItem, s.tid, s.start, heading, "", None, None,
         Some(PromptCount(s.turns)), Some(CommitCount(anchors, s.tid)), "", NoChanges)
  }

  function TurnItem(tid: string, turn: Turn): seq<Item> {
    if turn.command.Some? then
      [Item(SkillItem, tid, turn.at, turn.command.value.name, turn.command.value.args, None,
            Some(turn.index), None, None, "", NoChanges)]
    else if IsPrompt(turn) then
      [Item(PromptItem, tid, turn.at, TrimSpace(turn.content), "", None, Some(turn.index), None, None, "", NoChanges)]
    else []
  }

  function TurnItems(tid: string, turns: seq<Turn>): (r: seq<Item>)
    ensures forall i :: i in r ==> i.tid == tid && i.kind in {SkillItem, PromptItem} && i.ordinal == None
  {
    if turns == [] then []
    else TurnItems(tid, turns[..|turns| - 1]) + TurnItem(tid, turns[|turns| - 1])
  }

  // The items of the sessions, in the order Build appends them.
  function SessionItems(sessions: seq<Session>, anchors: seq<Anchor>): seq<Item> {
    if sessions == [] then []
    else
      var n := |sessions| - 1;
      SessionItems(sessions[..n], anchors) +
      [SessionHead(sessions[n], anchors, SessionLabel(n + 1))] + TurnItems(sessions[n].tid, sessions[n].turns)
  }

  // Change counts are shown all together or not at all.
  function ShownChanges(c: Changes): Changes {
    if c.additions.Some? && c.deletions.Some? && c.files.Some? then c else NoChanges
  }

  function CommitItemOf(a: Anchor): Item {
    Item(CommitItem, a.tid, a.at, a.sha, "", None, None, None, None, a.sha, ShownChanges(a.changes))
  }

  function CommitItemFor(anchors: seq<Anchor>): string -> Item {
    (sha: string) =>
      var w := Winner(anchors, sha);
      if w.Some? then CommitItemOf(w.value) else CommitItemOf(Anchor("", sha, 0, NoChanges))
  }

  function CommitItems(anchors: seq<Anchor>): seq<Item> {
    Map(CommitItemFor(anchors), Order(anchors))
  }

  // ---- numbering and counting ----

  function CountKind(kind: Kind, items: seq<Item>): nat {
    |Filter(OfKind(kind), items)|
  }

  // Number the prompts alone, as Build does after sorting.
  function NumberPrompts(items: seq<Item>): (r: seq<Item>)
    ensures |r| == |items|
  {
    if items == [] then []
    else
      var n := |items| - 1;
      NumberPrompts(items[..n]) +
      [if items[n].kind == PromptItem then items[n].(ordinal := Some(CountKind(PromptItem, items))) else items[n]]
  }

  // Number the sessions and the prompts, as Restrict does.
  function Stamp(item: Item, sessions: nat, prompts: nat): Item {
    match item.kind
    case SessionItem => item.(text := SessionLabel(sessions))
    case PromptItem => item.(ordinal := Some(prompts))
    case _ => item
  }

  function Renumber(items: seq<Item>): (r: seq<Item>)
    ensures |r| == |items|
  {
    if items == [] then []
    else
      var n := |items| - 1;
      Renumber(items[..n]) + [Stamp(items[n], CountKind(SessionItem, items), CountKind(PromptItem, items))]
  }

  function SkillNames(items: seq<Item>): multiset<string> {
    if items == [] then multiset{}
    else
      var n := |items| - 1;
      SkillNames(items[..n]) + if items[n].kind == SkillItem then multiset{items[n].text} else multiset{}
  }

  ghost function SkillsOf(names: multiset<string>): seq<Skill> {
    var listed := Names.Ascending(set n | n in names);
    seq(|listed|, i requires 0 <= i < |listed| => Skill(listed[i], names[listed[i]]))
  }

  // Each invoked skill once, by name, with how often it was invoked.
  ghost predicate IsSkillList(skills: seq<Skill>, names: multiset<string>) {
    && (forall i, j :: 0 <= i < j < |skills| ==> Names.Lt(skills[i].name, skills[j].name))
    && (forall i :: 0 <= i < |skills| ==> skills[i].name in names && skills[i].count == names[skills[i].name])
    && (forall n :: n in names ==> exists i :: 0 <= i < |skills| && skills[i].name == n)
  }

  // ---- the two operations ----

  // The digest Build projects from sessions already in start order.
  ghost function Project(sessions: seq<Session>, anchors: seq<Anchor>, total: nat, url: string): Digest {
    var items := NumberPrompts(StableSort(InstantOf(), SessionItems(sessions, anchors) + CommitItems(anchors)));
    Digest(
      Header(|sessions|, CountKind(PromptItem, items), |Order(anchors)|, total, url,
             if sessions == [] then "" else sessions[0].harness,
             if sessions == [] then "" else sessions[0].redaction),
      SkillsOf(SkillNames(items)), items)
  }

  // The digest Build projects from an input under one outcome of SHA resolution.
  ghost function BuildDigest(input: Input, answers: seq<Option<string>>): Digest
    requires |answers| == |input.commits|
  {
    Project(StableSort(StartOf(), input.sessions), AnchorsOf(input.commits, answers),
            |CommitSetOf(input.commitSet)|, input.villageUrl)
  }

  // A digest whose numbering, counts and skills are those of the given items.
  ghost function Recount(d: Digest, items: seq<Item>): Digest {
    Digest(
      d.header.(sessionCount := CountKind(SessionItem, items),
                promptCount := CountKind(PromptItem, items),
                commitsCovered := CountKind(CommitItem, items)),
      SkillsOf(SkillNames(items)), Renumber(items))
  }

  ghost function RestrictDigest(d: Digest, keep: string -> bool): Digest {
    var items := Filter(ItemKept(keep), d.items);
    if |items| == |d.items| then d else Recount(d, items)
  }

  // A digest that recounting leaves as it is: what it says about itself is true
  // of its items.
  ghost predicate Consistent(d: Digest) {
    Recount(d, d.items) == d
  }

  // The input with every transcript keep refuses taken out.
  function KeptInput(input: Input, keep: string -> bool): Input {
    input.(sessions := Filter(SessionKept(keep), input.sessions), commits := Filter(CommitKept(keep), input.commits))
  }
}

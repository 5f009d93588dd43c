// Helper grouping: candidate rows whose owner links may loop become a forest
// of top-level items and disclosed groups.
module Grouping {
  import opened Options
  import Names

  datatype RelationKind = StartedBy | OtherRelation

  datatype TargetState = Known | KnownRetained | ConflictingEvidence | OtherState

  datatype Relation = Relation(kind: RelationKind, state: TargetState, target: Option<string>)

  datatype Status = KnownUnavailable | Conflicting | Unknown

  // ownerKey is the owning account recorded beside the row, "" when none was.
  datatype Row = Row(
    id: string, ownerKey: string, local: string, helper: bool, relations: seq<Relation>,
    parent: Option<string>, start: Option<int>, published: int)

  // One owner's local session id. The program joins the two with a NUL.
  datatype Identity = Identity(owner: string, local: string)

  datatype Summary = Summary(gid: string, count: nat)

  datatype Item =
    | Transcript(row: Row, groups: seq<Summary>)
    | Container(gid: string, status: Status, groups: seq<Summary>)

  function IdentityOf(r: Row): Identity { Identity(r.ownerKey, r.local) }

  function IdentityText(i: Identity): string { i.owner + ['\0'] + i.local }

  lemma FirstNul(i: Identity)
    requires '\0' !in i.owner
    ensures IdentityText(i)[|i.owner|] == '\0'
    ensures forall k :: 0 <= k < |i.owner| ==> IdentityText(i)[k] != '\0'
    ensures IdentityText(i)[..|i.owner|] == i.owner && IdentityText(i)[|i.owner| + 1..] == i.local
  {
    forall k | 0 <= k < |i.owner|
      ensures IdentityText(i)[k] != '\0'
    {
      assert i.owner[k] in i.owner;
    }
  }

  // No owner key holds a NUL, so the joined text names one identity.
  lemma IdentityTextInjective(i: Identity, j: Identity)
    requires '\0' !in i.owner && '\0' !in j.owner
    ensures IdentityText(i) == IdentityText(j) <==> i == j
  {
    FirstNul(i);
    FirstNul(j);
  }

  function SortTime(r: Row): int { if r.start.Some? then r.start.value else r.published }

  // ---- who started a session ----

  function FirstStartedBy(relations: seq<Relation>): Option<Relation> {
    if relations == [] then None
    else if relations[0].kind == StartedBy then Some(relations[0])
    else FirstStartedBy(relations[1..])
  }

  // helperOwner: the first started_by relation decides; the legacy parent
  // counts only when there is none.
  function HelperOwner(r: Row): (string, Status) {
    var relation := FirstStartedBy(r.relations);
    if relation.Some? then
      match relation.value.state
      case Known => if relation.value.target.Some? then (relation.value.target.value, KnownUnavailable)
          else ("", Unknown)
      case KnownRetained => if relation.value.target.Some? then (relation.value.target.value, KnownUnavailable)
          else ("", Unknown)
      case ConflictingEvidence => ("", Conflicting)
      case OtherState => ("", Unknown)
    else if r.parent.Some? then (r.parent.value, KnownUnavailable)
    else ("", Unknown)
  }

  // ---- the accepted candidates ----

  // digest stands for the keyed hash of a length-delimited list of parts.
  datatype World = World(byId: map<Identity, Row>, cyclic: set<string>, digest: seq<string> -> string)

  ghost predicate WellKeyed(w: World) {
    && (forall k :: k in w.byId ==> IdentityOf(w.byId[k]) == k && w.byId[k].ownerKey != "")
    && (forall j, k :: j in w.byId && k in w.byId && w.byId[j].id == w.byId[k].id ==> j == k)
  }

  // The hash does not collide, and no group id is a transcript id.
  ghost predicate CollisionFree(w: World) {
    && (forall p, q :: w.digest(p) == w.digest(q) ==> p == q)
    && (forall k, p :: k in w.byId ==> w.byId[k].id != w.digest(p))
  }

  function Rows(w: World): set<Row> { w.byId.Values }

  lemma RowIsKeyed(w: World, r: Row)
    requires WellKeyed(w) && r in Rows(w)
    ensures IdentityOf(r) in w.byId && w.byId[IdentityOf(r)] == r
  {
  }

  // ---- the walk along the owners ----

  // Following owners from next comes back to a visited session.
  predicate Revisits(w: World, owner: string, next: string, visited: set<Identity>)
    decreases |w.byId.Keys - visited|
  {
    if next == "" then false
    else
      var key := Identity(owner, next);
      if key in visited then true
      else if key !in w.byId then false
      else
        assert w.byId.Keys - (visited + {key}) < w.byId.Keys - visited;
        SmallerSet(w.byId.Keys - (visited + {key}), w.byId.Keys - visited);
        Revisits(w, owner, HelperOwner(w.byId[key]).0, visited + {key})
  }

  lemma SmallerSet<T>(a: set<T>, b: set<T>)
    requires a < b
    ensures |a| < |b|
  {
    var c := b - a;
    assert b == a + c && c != {};
    assert |b| == |a| + |c|;
  }

  // How many owners the walk follows before it stops.
  ghost function WalkLength(w: World, owner: string, next: string, visited: set<Identity>): nat
    decreases |w.byId.Keys - visited|
  {
    if next == "" then 0
    else
      var key := Identity(owner, next);
      if key in visited || key !in w.byId then 0
      else
        SmallerSet(w.byId.Keys - (visited + {key}), w.byId.Keys - visited);
        1 + WalkLength(w, owner, HelperOwner(w.byId[key]).0, visited + {key})
  }

  // The owner a helper keeps, and the status its group reports.
  function KeptOwner(w: World, r: Row): (string, Status) {
    var found := if r.id in w.cyclic then ("", Conflicting) else HelperOwner(r);
    if Revisits(w, r.ownerKey, found.0, {IdentityOf(r)}) then ("", Conflicting) else found
  }

  function Parts(r: Row, owner: string): seq<string> {
    if owner == "" then ["1", r.ownerKey, "unresolved", r.local, "helper_review"]
    else ["1", r.ownerKey, owner, "helper_review"]
  }

  function GroupOf(w: World, r: Row): string { w.digest(Parts(r, KeptOwner(w, r).0)) }

  // The candidate a helper is shown under, when its owner is one.
  function OwnerRow(w: World, r: Row): Option<Row> {
    var key := Identity(r.ownerKey, KeptOwner(w, r).0);
    if KeptOwner(w, r).0 != "" && key in w.byId then Some(w.byId[key]) else None
  }

  // ---- the forest ----

  function Helpers(w: World): set<Row> { set r | r in Rows(w) && r.helper }

  function MembersOf(w: World, gid: string): set<Row> { set r | r in Helpers(w) && GroupOf(w, r) == gid }

  function GroupIds(w: World): set<string> { set r | r in Helpers(w) :: GroupOf(w, r) }

  function AttachedIds(w: World, owner: Row): set<string> {
    set r | r in Helpers(w) && OwnerRow(w, r) == Some(owner) :: GroupOf(w, r)
  }

  function SummaryOf(w: World, gid: string): Summary { Summary(gid, |MembersOf(w, gid)|) }

  ghost function Summaries(w: World, gids: set<string>): seq<Summary> {
    var listed := Names.Ascending(gids);
    seq(|listed|, i requires 0 <= i < |listed| => SummaryOf(w, listed[i]))
  }

  ghost function ItemOf(w: World, r: Row): Item { Transcript(r, Summaries(w, AttachedIds(w, r))) }

  ghost function ContainerOf(w: World, r: Row): Item {
    Container(GroupOf(w, r), KeptOwner(w, r).1, [SummaryOf(w, GroupOf(w, r))])
  }

  predicate RowLt(a: Row, b: Row) {
    SortTime(a) < SortTime(b) || (SortTime(a) == SortTime(b) && Names.Lt(a.id, b.id))
  }

  // Members are listed by time, then id.
  predicate MemberLt(a: Item, b: Item) { a.Transcript? && b.Transcript? && RowLt(a.row, b.row) }

  function ItemKey(i: Item): string { if i.Transcript? then i.row.id else i.gid }

  // A container's time is its latest member's.
  function ItemTime(groups: map<string, seq<Item>>, i: Item): int {
    match i
    case Transcript(row, _) => SortTime(row)
    case Container(gid, _, _) =>
      if gid in groups && groups[gid] != [] && groups[gid][|groups[gid]| - 1].Transcript?
      then SortTime(groups[gid][|groups[gid]| - 1].row) else 0
  }

  // Top-level items are listed latest first, then by key.
  predicate ItemLt(groups: map<string, seq<Item>>, a: Item, b: Item) {
    || ItemTime(groups, a) > ItemTime(groups, b)
    || (ItemTime(groups, a) == ItemTime(groups, b) && Names.Lt(ItemKey(a), ItemKey(b)))
  }

  ghost predicate IsMember(w: World, gid: string, i: Item) {
    i.Transcript? && i.row in MembersOf(w, gid) && i == ItemOf(w, i.row)
  }

  ghost predicate IsTop(w: World, i: Item) {
    || (i.Transcript? && i.row in Rows(w) && !i.row.helper && i == ItemOf(w, i.row))
    || (i.Container? && exists r :: r in Helpers(w) && OwnerRow(w, r) == None && i == ContainerOf(w, r))
  }

  // What groupVillageRows returns, whatever order it met rows and groups in.
  ghost predicate Grouped(w: World, items: seq<Item>, groups: map<string, seq<Item>>, ordinary: nat) {
    && groups.Keys == GroupIds(w)
    && (forall gid, i :: gid in groups ==> (i in groups[gid] <==> IsMember(w, gid, i)))
    && (forall gid, i, j :: gid in groups && 0 <= i < j < |groups[gid]| ==> MemberLt(groups[gid][i], groups[gid][j]))
    && (forall i :: i in items <==> IsTop(w, i))
    && (forall i, j :: 0 <= i < j < |items| ==> ItemLt(groups, items[i], items[j]))
    && ordinary == |set r | r in Rows(w) && !r.helper|
  }
}

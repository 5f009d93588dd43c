// groupVillageRows as the program runs it, with maps met in any order, and the
// paging of what it returns.
module GroupingMethods {
  import opened Options
  import Names
  import opened Grouping
  import opened GroupingTheorems

  datatype Refusal = Rejected

  // ---- sorting by a strict order ----

  function InsertBy<T>(lt: (T, T) -> bool, x: T, s: seq<T>): seq<T> {
    if s == [] || lt(x, s[0]) then [x] + s else [s[0]] + InsertBy(lt, x, s[1..])
  }

  function SortBy<T>(lt: (T, T) -> bool, s: seq<T>): seq<T> {
    if s == [] then [] else InsertBy(lt, s[0], SortBy(lt, s[1..]))
  }

  ghost predicate Ordered<T>(lt: (T, T) -> bool, s: seq<T>) {
    forall i, j :: 0 <= i < j < |s| ==> lt(s[i], s[j])
  }

  ghost predicate Transitive<T(!new)>(lt: (T, T) -> bool) {
    forall x, y, z :: lt(x, y) && lt(y, z) ==> lt(x, z)
  }

  ghost predicate Comparable<T>(lt: (T, T) -> bool, s: seq<T>) {
    forall i, j :: 0 <= i < j < |s| ==> lt(s[i], s[j]) || lt(s[j], s[i])
  }

  lemma {:induction false} InsertByOrders<T(!new)>(lt: (T, T) -> bool, x: T, s: seq<T>)
    requires Transitive(lt) && Ordered(lt, s)
    requires forall y :: y in s ==> lt(x, y) || lt(y, x)
    ensures Ordered(lt, InsertBy(lt, x, s))
    ensures forall y :: y in InsertBy(lt, x, s) <==> y == x || y in s
  {
    if s == [] {
    } else if lt(x, s[0]) {
      var r := [x] + s;
      forall i, j | 0 <= i < j < |r|
        ensures lt(r[i], r[j])
      {
        if i > 0 {
          assert r[i] == s[i - 1] && r[j] == s[j - 1];
        } else if j > 1 {
          assert lt(s[0], s[j - 1]);
        }
      }
    } else {
      assert s[0] in s;
      assert s == [s[0]] + s[1..];
      InsertByOrders(lt, x, s[1..]);
      var r := InsertBy(lt, x, s[1..]);
      forall y | y in r
        ensures lt(s[0], y)
      {
        if y in s[1..] {
          var k :| 0 <= k < |s[1..]| && s[1..][k] == y;
          assert s[k + 1] == y;
        }
      }
      assert forall k :: 0 <= k < |r| ==> r[k] in r;
    }
  }

  lemma {:induction false} SortByOrders<T(!new)>(lt: (T, T) -> bool, s: seq<T>)
    requires Transitive(lt) && Comparable(lt, s)
    ensures Ordered(lt, SortBy(lt, s))
    ensures forall y :: y in SortBy(lt, s) <==> y in s
  {
    if s != [] {
      SortByOrders(lt, s[1..]);
      forall y | y in SortBy(lt, s[1..])
        ensures lt(s[0], y) || lt(y, s[0])
      {
        var k :| 0 <= k < |s[1..]| && s[1..][k] == y;
        assert s[k + 1] == y;
      }
      InsertByOrders(lt, s[0], SortBy(lt, s[1..]));
      assert s == [s[0]] + s[1..];
    }
  }

  function RowOrder(): (Row, Row) -> bool { (a: Row, b: Row) => RowLt(a, b) }

  function SummaryOrder(): (Summary, Summary) -> bool { (a: Summary, b: Summary) => Names.Lt(a.gid, b.gid) }

  lemma RowOrderTransitive()
    ensures Transitive(RowOrder())
  {
    forall x, y, z | RowOrder()(x, y) && RowOrder()(y, z)
      ensures RowOrder()(x, z)
    {
      if Names.Lt(x.id, y.id) && Names.Lt(y.id, z.id) {
        Names.LtTransitive(x.id, y.id, z.id);
      }
    }
  }

  lemma SummaryOrderTransitive()
    ensures Transitive(SummaryOrder())
  {
    forall x, y, z | SummaryOrder()(x, y) && SummaryOrder()(y, z)
      ensures SummaryOrder()(x, z)
    {
      Names.LtTransitive(x.gid, y.gid, z.gid);
    }
  }

  lemma ItemOrderTransitive(groups: map<string, seq<Item>>)
    ensures Transitive(ItemOrder(groups))
  {
    var lt := ItemOrder(groups);
    forall x, y, z | lt(x, y) && lt(y, z)
      ensures lt(x, z)
    {
      if Names.Lt(ItemKey(x), ItemKey(y)) && Names.Lt(ItemKey(y), ItemKey(z)) {
        Names.LtTransitive(ItemKey(x), ItemKey(y), ItemKey(z));
      }
    }
  }

  // ---- accepting the candidates ----

  ghost predicate Acceptable(rows: seq<Row>, valid: Row -> bool) {
    && (forall i :: 0 <= i < |rows| ==> valid(rows[i]) && rows[i].ownerKey != "")
    && (forall i, j :: 0 <= i < j < |rows| ==> IdentityOf(rows[i]) != IdentityOf(rows[j]) && rows[i].id != rows[j].id)
  }

  // byId indexes exactly the rows.
  ghost predicate Indexes(byId: map<Identity, Row>, rows: seq<Row>) {
    && (forall i :: 0 <= i < |rows| ==> IdentityOf(rows[i]) in byId && byId[IdentityOf(rows[i])] == rows[i])
    && (forall k :: k in byId ==> byId[k] in rows && IdentityOf(byId[k]) == k)
  }

  method Accept(rows: seq<Row>, valid: Row -> bool) returns (r: Result<map<Identity, Row>, Refusal>)
    ensures r.Ok? <==> Acceptable(rows, valid)
    ensures r.Ok? ==> Indexes(r.value, rows)
  {
    var byId: map<Identity, Row> := map[];
    var seen: set<string> := {};
    for i := 0 to |rows|
      invariant Acceptable(rows[..i], valid)
      invariant Indexes(byId, rows[..i])
      invariant forall id :: id in seen <==> exists j :: 0 <= j < i && rows[j].id == id
    {
      var row := rows[i];
      if !valid(row) || row.ownerKey == "" {
        return Err(Rejected);
      }
      var key := IdentityOf(row);
      if key in byId || row.id in seen {
        RepeatIsRejected(rows, i, byId);
        return Err(Rejected);
      }
      AcceptOne(rows, i, valid, byId);
      byId := byId[key := row];
      seen := seen + {row.id};
    }
    assert rows[..|rows|] == rows;
    return Ok(byId);
  }

  lemma RepeatIsRejected(rows: seq<Row>, i: nat, byId: map<Identity, Row>)
    requires i < |rows| && Indexes(byId, rows[..i])
    requires IdentityOf(rows[i]) in byId || exists j :: 0 <= j < i && rows[j].id == rows[i].id
    ensures exists j :: 0 <= j < i && (IdentityOf(rows[j]) == IdentityOf(rows[i]) || rows[j].id == rows[i].id)
  {
    if IdentityOf(rows[i]) in byId {
      var j :| 0 <= j < i && rows[..i][j] == byId[IdentityOf(rows[i])];
      assert IdentityOf(rows[j]) == IdentityOf(rows[i]);
    }
  }

  lemma AcceptOne(rows: seq<Row>, i: nat, valid: Row -> bool, byId: map<Identity, Row>)
    requires i < |rows| && Acceptable(rows[..i], valid) && Indexes(byId, rows[..i])
    requires valid(rows[i]) && rows[i].ownerKey != "" && IdentityOf(rows[i]) !in byId
    requires forall j :: 0 <= j < i ==> rows[j].id != rows[i].id
    ensures Acceptable(rows[..i + 1], valid) && Indexes(byId[IdentityOf(rows[i]) := rows[i]], rows[..i + 1])
  {
    var before, after, row := rows[..i], rows[..i + 1], rows[i];
    assert after == before + [row];
    var byId' := byId[IdentityOf(row) := row];
    forall j | 0 <= j < i
      ensures IdentityOf(after[j]) != IdentityOf(row) && after[j].id != row.id && after[j] == before[j]
    {
      assert before[j] == rows[j];
      assert IdentityOf(before[j]) in byId;
    }
    forall k | k in byId'
      ensures byId'[k] in after && IdentityOf(byId'[k]) == k
    {
    }
  }

  lemma IndexedWorld(rows: seq<Row>, valid: Row -> bool, w: World)
    requires Acceptable(rows, valid) && Indexes(w.byId, rows)
    ensures WellKeyed(w)
    ensures forall r :: r in Rows(w) <==> r in rows
  {
    forall j, k | j in w.byId && k in w.byId && w.byId[j].id == w.byId[k].id
      ensures j == k
    {
      var m :| 0 <= m < |rows| && rows[m] == w.byId[j];
      var n :| 0 <= n < |rows| && rows[n] == w.byId[k];
    }
    forall k | k in w.byId
      ensures w.byId[k].ownerKey != ""
    {
      var m :| 0 <= m < |rows| && rows[m] == w.byId[k];
    }
    forall r
      ensures r in Rows(w) <==> r in rows
    {
      if r in rows {
        var m :| 0 <= m < |rows| && rows[m] == r;
        assert w.byId[IdentityOf(r)] == r;
      }
    }
  }

  // The index forgets the order of the rows.
  lemma IndexIgnoresOrder(rows: seq<Row>, rows': seq<Row>, byId: map<Identity, Row>, byId': map<Identity, Row>)
    requires multiset(rows) == multiset(rows')
    requires Indexes(byId, rows) && Indexes(byId', rows')
    ensures byId == byId'
  {
    assert forall r :: r in rows <==> r in multiset(rows);
    assert forall r :: r in rows' <==> r in multiset(rows');
    forall k
      ensures k in byId <==> k in byId'
      ensures k in byId ==> byId'[k] == byId[k]
    {
      if k in byId {
        var i :| 0 <= i < |rows'| && rows'[i] == byId[k];
      }
      if k in byId' {
        var i :| 0 <= i < |rows| && rows[i] == byId'[k];
      }
    }
  }

  // ---- the owner walk ----

  method KeepOwner(w: World, row: Row) returns (owner: string, status: Status)
    ensures (owner, status) == KeptOwner(w, row)
  {
    var found := HelperOwner(row);
    owner, status := found.0, found.1;
    if row.id in w.cyclic {
      owner, status := "", Conflicting;
    }
    ghost var first := owner;
    var visited := {IdentityOf(row)};
    var next := owner;
    while next != ""
      invariant Revisits(w, row.ownerKey, next, visited) == Revisits(w, row.ownerKey, first, {IdentityOf(row)})
      invariant owner == first && (owner, status) == if row.id in w.cyclic then ("", Conflicting) else found
      decreases |w.byId.Keys - visited|
    {
      var key := Identity(row.ownerKey, next);
      if key in visited {
        owner, status := "", Conflicting;
        break;
      }
      if key !in w.byId {
        break;
      }
      assert w.byId.Keys - (visited + {key}) < w.byId.Keys - visited;
      SmallerSet(w.byId.Keys - (visited + {key}), w.byId.Keys - visited);
      visited := visited + {key};
      next := HelperOwner(w.byId[key]).0;
    }
  }

  // ---- grouping the helpers ----

  ghost predicate DistinctRows(s: seq<Row>) {
    forall i, j :: 0 <= i < j < |s| ==> s[i] != s[j]
  }

  ghost predicate GroupMembers(w: World, done: set<Row>, groups: map<string, seq<Row>>) {
    && (forall gid :: gid in groups <==> exists r :: r in done && r.helper && GroupOf(w, r) == gid)
    && (forall gid, r :: gid in groups ==> (r in groups[gid] <==> r in done && r.helper && GroupOf(w, r) == gid))
    && (forall gid :: gid in groups ==> DistinctRows(groups[gid]))
  }

  ghost predicate OwnersSay(w: World, gid: string, r: Row, owners: map<string, Identity>,
                            statuses: map<string, Status>) {
    && gid in statuses && statuses[gid] == KeptOwner(w, r).1
    && (KeptOwner(w, r).0 != "" ==> gid in owners && owners[gid] == Identity(r.ownerKey, KeptOwner(w, r).0))
    && (KeptOwner(w, r).0 == "" ==> gid !in owners)
  }

  // What the maps say of the helpers among the rows seen.
  ghost predicate GroupFacts(w: World, done: set<Row>, groups: map<string, seq<Row>>, owners: map<string, Identity>,
                             statuses: map<string, Status>) {
    && GroupMembers(w, done, groups)
    && owners.Keys <= groups.Keys && statuses.Keys == groups.Keys
    && (forall r :: r in done && r.helper ==> OwnersSay(w, GroupOf(w, r), r, owners, statuses))
  }

  method AssignGroups(w: World, rows: seq<Row>)
    returns (groups: map<string, seq<Row>>, owners: map<string, Identity>, statuses: map<string, Status>)
    requires WellKeyed(w) && CollisionFree(w)
    requires forall r :: r in Rows(w) <==> r in rows
    requires DistinctRows(rows)
    ensures GroupFacts(w, Rows(w), groups, owners, statuses)
  {
    groups, owners, statuses := map[], map[], map[];
    ghost var done: set<Row> := {};
    for i := 0 to |rows|
      invariant forall r :: r in done <==> r in rows[..i]
      invariant GroupFacts(w, done, groups, owners, statuses)
    {
      var row := rows[i];
      assert rows[..i + 1] == rows[..i] + [row];
      assert row in rows;
      assert row !in rows[..i];
      if row.helper {
        var owner, status := KeepOwner(w, row);
        var gid := w.digest(Parts(row, owner));
        AddHelper(w, done, groups, owners, statuses, row);
        groups := groups[gid := (if gid in groups then groups[gid] else []) + [row]];
        if owner != "" {
          owners := owners[gid := Identity(row.ownerKey, owner)];
        }
        statuses := statuses[gid := status];
      } else {
        SkipOrdinary(w, done, groups, owners, statuses, row);
      }
      done := done + {row};
    }
    assert rows[..|rows|] == rows;
    assert done == Rows(w);
  }

  lemma SkipOrdinary(w: World, done: set<Row>, groups: map<string, seq<Row>>, owners: map<string, Identity>,
                     statuses: map<string, Status>, row: Row)
    requires GroupFacts(w, done, groups, owners, statuses) && !row.helper
    ensures GroupFacts(w, done + {row}, groups, owners, statuses)
  {
    hide KeptOwner;
    hide GroupOf;
    hide OwnersSay;
    forall gid | gid in groups
      ensures exists r :: r in done + {row} && r.helper && GroupOf(w, r) == gid
    {
      var r :| r in done && r.helper && GroupOf(w, r) == gid;
      assert r in done + {row};
    }
  }

  lemma AddHelper(w: World, done: set<Row>, groups: map<string, seq<Row>>, owners: map<string, Identity>,
                  statuses: map<string, Status>, row: Row)
    requires WellKeyed(w) && CollisionFree(w) && done <= Rows(w) && row in Rows(w) && row !in done && row.helper
    requires GroupFacts(w, done, groups, owners, statuses)
    ensures GroupFacts(w, done + {row},
                       groups[GroupOf(w, row) := (if GroupOf(w, row) in groups then groups[GroupOf(w, row)] else [])
                         + [row]],
                       if KeptOwner(w, row).0 != "" then owners[GroupOf(w, row) :=
                           Identity(row.ownerKey, KeptOwner(w, row).0)] else owners,
                       statuses[GroupOf(w, row) := KeptOwner(w, row).1])
  {
    hide KeptOwner;
    hide GroupOf;
    hide GroupMembers;
    var gid := GroupOf(w, row);
    var owners' := if KeptOwner(w, row).0 != "" then owners[gid := Identity(row.ownerKey, KeptOwner(w, row).0)]
        else owners;
    var statuses' := statuses[gid := KeptOwner(w, row).1];
    AddMember(w, done, groups, row);
    UnknownGroupHasNoOwner(w, done, groups, owners, statuses, row);
    forall r | r in done + {row} && r.helper
      ensures OwnersSay(w, GroupOf(w, r), r, owners', statuses')
    {
      if GroupOf(w, r) == gid {
        GroupDeterminesOwner(w, r, row);
        SameGroupSameAccount(w, r, row);
      } else {
        assert OwnersSay(w, GroupOf(w, r), r, owners, statuses);
      }
    }
    assert GroupMembers(w, done + {row}, groups[gid := (if gid in groups then groups[gid] else []) + [row]]);
  }

  lemma UnknownGroupHasNoOwner(w: World, done: set<Row>, groups: map<string, seq<Row>>, owners: map<string, Identity>,
                               statuses: map<string, Status>, row: Row)
    requires WellKeyed(w) && CollisionFree(w) && done <= Rows(w) && row in Rows(w)
    requires GroupFacts(w, done, groups, owners, statuses)
    ensures KeptOwner(w, row).0 == "" ==> GroupOf(w, row) !in owners
  {
    hide KeptOwner;
    hide GroupOf;
    var gid := GroupOf(w, row);
    if gid in owners {
      assert gid in groups;
      var q :| q in done && q.helper && GroupOf(w, q) == gid;
      GroupDeterminesOwner(w, q, row);
      assert OwnersSay(w, gid, q, owners, statuses);
    }
  }

  lemma AddMember(w: World, done: set<Row>, groups: map<string, seq<Row>>, row: Row)
    requires GroupMembers(w, done, groups) && row !in done && row.helper
    ensures GroupMembers(w, done + {row},
                         groups[GroupOf(w, row) := (if GroupOf(w, row) in groups then groups[GroupOf(w, row)] else [])
                           + [row]])
  {
    hide GroupOf;
    var gid := GroupOf(w, row);
    var had := if gid in groups then groups[gid] else [];
    var groups' := groups[gid := had + [row]];
    var done' := done + {row};
    assert row in done' && row !in had;
    forall g
      ensures g in groups' <==> exists r :: r in done' && r.helper && GroupOf(w, r) == g
    {
      if g in groups {
        var r :| r in done && r.helper && GroupOf(w, r) == g;
        assert r in done';
      }
    }
    forall g, r | g in groups'
      ensures r in groups'[g] <==> r in done' && r.helper && GroupOf(w, r) == g
    {
    }
  }

  lemma SameGroupSameAccount(w: World, a: Row, b: Row)
    requires CollisionFree(w) && GroupOf(w, a) == GroupOf(w, b)
    ensures a.ownerKey == b.ownerKey
  {
    var p, q := Parts(a, KeptOwner(w, a).0), Parts(b, KeptOwner(w, b).0);
    assert p == q;
    assert p[1] == a.ownerKey && q[1] == b.ownerKey;
  }

  // ---- attaching the groups ----

  // gid is shown inside the item of the candidate keyed by k.
  predicate AttachedTo(w: World, owners: map<string, Identity>, gid: string, k: Identity) {
    gid in owners && owners[gid] == k && k in w.byId
  }

  predicate Unattached(w: World, owners: map<string, Identity>, gid: string) {
    gid !in owners || owners[gid] !in w.byId
  }

  ghost predicate SummaryIn(w: World, done: set<string>, groups: map<string, seq<Row>>, owners: map<string, Identity>,
                            k: Identity, s: Summary) {
    s.gid in done && s.gid in groups && AttachedTo(w, owners, s.gid, k) && s.count == |groups[s.gid]|
  }

  ghost predicate AttachedFacts(w: World, done: set<string>, groups: map<string, seq<Row>>,
                                owners: map<string, Identity>, attached: map<Identity, seq<Summary>>) {
    && (forall k, s :: k in attached ==> (s in attached[k] <==> SummaryIn(w, done, groups, owners, k, s)))
    && (forall k, gid :: gid in done && AttachedTo(w, owners, gid, k) ==> k in attached)
    && (forall k, i, j :: k in attached && 0 <= i < j < |attached[k]| ==> attached[k][i].gid != attached[k][j].gid)
  }

  ghost predicate ContainerIn(w: World, done: set<string>, groups: map<string, seq<Row>>, owners: map<string, Identity>,
                              statuses: map<string, Status>, c: Item) {
    && c.Container? && c.gid in done && c.gid in groups && c.gid in statuses && Unattached(w, owners, c.gid)
    && c == Container(c.gid, statuses[c.gid], [Summary(c.gid, |groups[c.gid]|)])
  }

  ghost predicate ContainerFacts(w: World, done: set<string>, groups: map<string, seq<Row>>,
                                 owners: map<string, Identity>, statuses: map<string, Status>, containers: seq<Item>) {
    && (forall c :: c in containers <==> ContainerIn(w, done, groups, owners, statuses, c))
    && (forall i, j :: 0 <= i < j < |containers| ==> containers[i] != containers[j])
  }

  ghost predicate AttachFacts(w: World, done: set<string>, groups: map<string, seq<Row>>, owners: map<string, Identity>,
                              statuses: map<string, Status>, sorted: map<string, seq<Row>>,
                              attached: map<Identity, seq<Summary>>, containers: seq<Item>)
  {
    && done <= groups.Keys && sorted.Keys == done
    && (forall gid :: gid in done ==> sorted[gid] == SortBy(RowOrder(), groups[gid]))
    && AttachedFacts(w, done, groups, owners, attached)
    && ContainerFacts(w, done, groups, owners, statuses, containers)
  }

  method AttachGroups(w: World, groups: map<string, seq<Row>>, owners: map<string, Identity>,
                      statuses: map<string, Status>)
    returns (sorted: map<string, seq<Row>>, attached: map<Identity, seq<Summary>>, containers: seq<Item>)
    requires owners.Keys <= groups.Keys && statuses.Keys == groups.Keys
    ensures AttachFacts(w, groups.Keys, groups, owners, statuses, sorted, attached, containers)
  {
    sorted, attached, containers := map[], map[], [];
    var rest := groups.Keys;
    while rest != {}
      invariant rest <= groups.Keys
      invariant AttachFacts(w, groups.Keys - rest, groups, owners, statuses, sorted, attached, containers)
    {
      var gid :| gid in rest;
      ghost var done := groups.Keys - rest;
      var members := SortBy(RowOrder(), groups[gid]);
      var group := Summary(gid, |groups[gid]|);
      AttachStep(w, done, groups, owners, statuses, attached, containers, gid);
      sorted := sorted[gid := members];
      if gid in owners && owners[gid] in w.byId {
        var k := owners[gid];
        attached := attached[k := (if k in attached then attached[k] else []) + [group]];
      } else {
        containers := containers + [Container(gid, statuses[gid], [group])];
      }
      rest := rest - {gid};
      assert groups.Keys - rest == done + {gid};
    }
    assert groups.Keys - rest == groups.Keys;
  }

  lemma AttachStep(w: World, done: set<string>, groups: map<string, seq<Row>>, owners: map<string, Identity>,
                   statuses: map<string, Status>, attached: map<Identity, seq<Summary>>, containers: seq<Item>,
                   gid: string)
    requires statuses.Keys == groups.Keys && gid in groups && gid !in done
    requires AttachedFacts(w, done, groups, owners, attached)
        && ContainerFacts(w, done, groups, owners, statuses, containers)
    ensures gid in owners && owners[gid] in w.byId ==>
              AttachedFacts(w, done + {gid}, groups, owners,
                            attached[owners[gid] := (if owners[gid] in attached then attached[owners[gid]] else [])
                              + [Summary(gid, |groups[gid]|)]])
              && ContainerFacts(w, done + {gid}, groups, owners, statuses, containers)
    ensures !(gid in owners && owners[gid] in w.byId) ==>
              AttachedFacts(w, done + {gid}, groups, owners, attached)
              && ContainerFacts(w, done + {gid}, groups, owners, statuses,
                containers + [Container(gid, statuses[gid], [Summary(gid, |groups[gid]|)])])
  {
    if gid in owners && owners[gid] in w.byId {
      AttachOne(w, done, groups, owners, attached, gid);
      forall c
        ensures ContainerIn(w, done + {gid}, groups, owners, statuses, c) <==>
            ContainerIn(w, done, groups, owners, statuses, c)
      {
      }
    } else {
      ContainOne(w, done, groups, owners, statuses, containers, gid);
      forall k, s
        ensures SummaryIn(w, done + {gid}, groups, owners, k, s) <==> SummaryIn(w, done, groups, owners, k, s)
      {
      }
    }
  }

  lemma AttachOne(w: World, done: set<string>, groups: map<string, seq<Row>>, owners: map<string, Identity>,
                  attached: map<Identity, seq<Summary>>, gid: string)
    requires gid in groups && gid !in done && gid in owners && owners[gid] in w.byId
    requires AttachedFacts(w, done, groups, owners, attached)
    ensures AttachedFacts(w, done + {gid}, groups, owners,
                          attached[owners[gid] := (if owners[gid] in attached then attached[owners[gid]] else [])
                            + [Summary(gid, |groups[gid]|)]])
  {
    var k, group := owners[gid], Summary(gid, |groups[gid]|);
    var had := if k in attached then attached[k] else [];
    var attached' := attached[k := had + [group]];
    forall s | s in had
      ensures s.gid != gid && SummaryIn(w, done, groups, owners, k, s)
    {
    }
    forall i | 0 <= i < |had|
      ensures had[i].gid != gid
    {
      assert had[i] in had;
    }
    forall m, s | m in attached'
      ensures s in attached'[m] <==> SummaryIn(w, done + {gid}, groups, owners, m, s)
    {
      if m == k && s != group && SummaryIn(w, done + {gid}, groups, owners, m, s) {
        assert s.gid != gid;
        assert k in attached;
      }
    }
  }

  lemma ContainOne(w: World, done: set<string>, groups: map<string, seq<Row>>, owners: map<string, Identity>,
                   statuses: map<string, Status>, containers: seq<Item>, gid: string)
    requires gid in groups && gid !in done && gid in statuses && Unattached(w, owners, gid)
    requires ContainerFacts(w, done, groups, owners, statuses, containers)
    ensures ContainerFacts(w, done + {gid}, groups, owners, statuses,
        containers + [Container(gid, statuses[gid], [Summary(gid, |groups[gid]|)])])
  {
    var c := Container(gid, statuses[gid], [Summary(gid, |groups[gid]|)]);
    forall i | 0 <= i < |containers|
      ensures containers[i] != c
    {
      assert containers[i] in containers;
    }
    forall x
      ensures x in containers + [c] <==> ContainerIn(w, done + {gid}, groups, owners, statuses, x)
    {
    }
  }

  // ---- the items ----

  lemma {:induction false} DistinctRowsCount(s: seq<Row>, elements: set<Row>)
    requires DistinctRows(s) && forall r :: r in s <==> r in elements
    ensures |s| == |elements|
  {
    if s == [] {
      assert elements == {};
    } else {
      assert s[0] in s;
      forall r
        ensures r in s[1..] <==> r in elements - {s[0]}
      {
        if r in s[1..] {
          var i :| 0 <= i < |s[1..]| && s[1..][i] == r;
          assert s[i + 1] == r;
        }
        if r in s && r != s[0] {
          var i :| 0 <= i < |s| && s[i] == r;
          assert s[1..][i - 1] == r;
        }
      }
      DistinctRowsCount(s[1..], elements - {s[0]});
    }
  }

  lemma MembersCounted(w: World, groups: map<string, seq<Row>>, gid: string)
    requires GroupMembers(w, Rows(w), groups) && gid in groups
    ensures |groups[gid]| == |MembersOf(w, gid)|
  {
    hide GroupOf;
    DistinctRowsCount(groups[gid], MembersOf(w, gid));
  }

  lemma AttachedIsOwned(w: World, groups: map<string, seq<Row>>, owners: map<string, Identity>,
                        statuses: map<string, Status>, k: Identity, gid: string)
    requires WellKeyed(w) && GroupFacts(w, Rows(w), groups, owners, statuses) && k in w.byId
    ensures gid in groups && AttachedTo(w, owners, gid, k) <==> gid in AttachedIds(w, w.byId[k])
  {
    hide KeptOwner;
    hide GroupOf;
    if gid in groups && AttachedTo(w, owners, gid, k) {
      var r :| r in Rows(w) && r.helper && GroupOf(w, r) == gid;
      assert OwnersSay(w, gid, r, owners, statuses);
      assert r in Helpers(w) && OwnerRow(w, r) == Some(w.byId[k]);
    }
    if gid in AttachedIds(w, w.byId[k]) {
      var r :| r in Helpers(w) && OwnerRow(w, r) == Some(w.byId[k]) && GroupOf(w, r) == gid;
      assert r in Rows(w) && OwnersSay(w, gid, r, owners, statuses);
    }
  }

  lemma SummariesElements(w: World, gids: set<string>, s: Summary)
    ensures s in Summaries(w, gids) <==> s.gid in gids && s == SummaryOf(w, s.gid)
  {
    var listed := Names.Ascending(gids);
    var all := Summaries(w, gids);
    if s in all {
      var i :| 0 <= i < |all| && all[i] == s;
      assert listed[i] in listed;
    }
    if s.gid in gids && s == SummaryOf(w, s.gid) {
      var i :| 0 <= i < |listed| && listed[i] == s.gid;
      assert all[i] == s;
    }
  }

  // The attached summaries, sorted, are those of the row's item.
  lemma SortedSummaries(w: World, groups: map<string, seq<Row>>, owners: map<string, Identity>,
                        statuses: map<string, Status>,
                        attached: map<Identity, seq<Summary>>, k: Identity)
    requires WellKeyed(w) && GroupFacts(w, Rows(w), groups, owners, statuses) && k in w.byId
    requires AttachedFacts(w, groups.Keys, groups, owners, attached)
    ensures SortBy(SummaryOrder(), if k in attached then attached[k] else []) == Summaries(w, AttachedIds(w, w.byId[k]))
  {
    hide AttachedIds;
    var had := if k in attached then attached[k] else [];
    var lt, gids := SummaryOrder(), AttachedIds(w, w.byId[k]);
    forall i, j | 0 <= i < j < |had|
      ensures lt(had[i], had[j]) || lt(had[j], had[i])
    {
      Names.LtTotal(had[i].gid, had[j].gid);
    }
    SummaryOrderTransitive();
    SortByOrders(lt, had);
    forall s
      ensures s in SortBy(lt, had) <==> s in Summaries(w, gids)
    {
      AttachedIsOwned(w, groups, owners, statuses, k, s.gid);
      SummariesElements(w, gids, s);
      if s.gid in groups {
        MembersCounted(w, groups, s.gid);
      }
      assert s in had <==> SummaryIn(w, groups.Keys, groups, owners, k, s);
    }
    SummariesOrdered(w, gids);
    forall a, b
      ensures lt(a, b) ==> !lt(b, a)
    {
      NamesAsymmetric(a.gid, b.gid);
    }
    OrderedOnce(lt, SortBy(lt, had), Summaries(w, gids));
  }

  lemma SummariesOrdered(w: World, gids: set<string>)
    ensures Ordered(SummaryOrder(), Summaries(w, gids))
  {
  }

  // The containers are the groups with no candidate owner.
  lemma ContainersAreTops(w: World, groups: map<string, seq<Row>>, owners: map<string, Identity>,
                          statuses: map<string, Status>, c: Item)
    requires WellKeyed(w) && GroupFacts(w, Rows(w), groups, owners, statuses)
    ensures ContainerIn(w, groups.Keys, groups, owners, statuses, c) <==> c.Container? && IsTop(w, c)
  {
    hide KeptOwner;
    hide GroupOf;
    if ContainerIn(w, groups.Keys, groups, owners, statuses, c) {
      var r :| r in Rows(w) && r.helper && GroupOf(w, r) == c.gid;
      assert OwnersSay(w, c.gid, r, owners, statuses);
      MembersCounted(w, groups, c.gid);
      assert r in Helpers(w) && OwnerRow(w, r) == None && c == ContainerOf(w, r);
    }
    if c.Container? && IsTop(w, c) {
      var r :| r in Helpers(w) && OwnerRow(w, r) == None && c == ContainerOf(w, r);
      assert r in Rows(w) && OwnersSay(w, c.gid, r, owners, statuses);
      assert c.gid in groups;
      MembersCounted(w, groups, c.gid);
    }
  }

  method BuildItems(w: World, rows: seq<Row>, attached: map<Identity, seq<Summary>>,
                    ghost groups: map<string, seq<Row>>, ghost owners: map<string, Identity>,
                      ghost statuses: map<string, Status>)
    returns (byItem: map<Identity, Item>, ordinary: seq<Item>)
    requires WellKeyed(w) && GroupFacts(w, Rows(w), groups, owners, statuses)
    requires AttachedFacts(w, groups.Keys, groups, owners, attached)
    requires DistinctRows(rows) && forall r :: r in rows <==> r in Rows(w)
    ensures forall r :: r in rows ==> IdentityOf(r) in byItem && byItem[IdentityOf(r)] == ItemOf(w, r)
    ensures forall i :: i in ordinary <==> i.Transcript? && i.row in rows && !i.row.helper && i == ItemOf(w, i.row)
    ensures forall i, j :: 0 <= i < j < |ordinary| ==> ordinary[i] != ordinary[j]
  {
    hide GroupFacts;
    hide AttachedFacts;
    hide Summaries;
    hide AttachedIds;
    hide SortBy;
    byItem, ordinary := map[], [];
    for n := 0 to |rows|
      invariant forall r :: r in rows[..n] ==> IdentityOf(r) in byItem && byItem[IdentityOf(r)] == ItemOf(w, r)
      invariant forall i :: i in ordinary <==>
          i.Transcript? && i.row in rows[..n] && !i.row.helper && i == ItemOf(w, i.row)
      invariant forall i, j :: 0 <= i < j < |ordinary| ==> ordinary[i] != ordinary[j]
    {
      var row := rows[n];
      assert rows[..n + 1] == rows[..n] + [row];
      assert row in rows && row !in rows[..n];
      RowIsKeyed(w, row);
      var k := IdentityOf(row);
      SortedSummaries(w, groups, owners, statuses, attached, k);
      var item := Transcript(row, SortBy(SummaryOrder(), if k in attached then attached[k] else []));
      forall r | r in rows[..n]
        ensures IdentityOf(r) != k
      {
        assert r in rows;
        RowIsKeyed(w, r);
      }
      byItem := byItem[k := item];
      if !row.helper {
        assert forall i :: 0 <= i < |ordinary| ==> ordinary[i] in ordinary;
        ordinary := ordinary + [item];
      }
    }
    assert rows[..|rows|] == rows;
  }

  // ---- the members ----

  ghost predicate MemberFacts(w: World, done: set<string>, listed: map<string, seq<Item>>) {
    && listed.Keys == done
    && (forall gid, i :: gid in done ==> (i in listed[gid] <==> IsMember(w, gid, i)))
    && (forall gid, i, j :: gid in done && 0 <= i < j < |listed[gid]| ==> MemberLt(listed[gid][i], listed[gid][j]))
  }

  method ListMembers(w: World, groups: map<string, seq<Row>>, sorted: map<string, seq<Row>>,
                     byItem: map<Identity, Item>)
    returns (listed: map<string, seq<Item>>)
    requires WellKeyed(w) && GroupMembers(w, Rows(w), groups) && sorted.Keys == groups.Keys
    requires forall gid :: gid in groups ==> sorted[gid] == SortBy(RowOrder(), groups[gid])
    requires forall r :: r in Rows(w) ==> IdentityOf(r) in byItem && byItem[IdentityOf(r)] == ItemOf(w, r)
    ensures MemberFacts(w, groups.Keys, listed)
  {
    hide GroupOf;
    hide IsMember;
    hide MemberFacts;
    hide SortBy;
    hide GroupMembers;
    hide Summaries;
    hide AttachedIds;
    listed := map[];
    NoMembers(w);
    assert sorted.Keys - sorted.Keys == {};
    var rest := sorted.Keys;
    while rest != {}
      invariant rest <= sorted.Keys
      invariant MemberFacts(w, sorted.Keys - rest, listed)
    {
      var gid :| gid in rest;
      MembersSorted(w, groups, gid);
      var members := MemberItems(w, gid, sorted[gid], byItem);
      MemberStep(w, sorted.Keys - rest, listed, gid, members);
      listed := listed[gid := members];
      assert sorted.Keys - (rest - {gid}) == sorted.Keys - rest + {gid};
      rest := rest - {gid};
    }
    assert sorted.Keys - rest == groups.Keys;
  }

  lemma NoMembers(w: World)
    ensures MemberFacts(w, {}, map[])
  {
  }

  lemma MemberStep(w: World, done: set<string>, listed: map<string, seq<Item>>, gid: string, members: seq<Item>)
    requires MemberFacts(w, done, listed) && gid !in done
    requires forall i :: i in members <==> IsMember(w, gid, i)
    requires forall i, j :: 0 <= i < j < |members| ==> MemberLt(members[i], members[j])
    ensures MemberFacts(w, done + {gid}, listed[gid := members])
  {
    hide IsMember;
  }

  method MemberItems(w: World, gid: string, rows: seq<Row>, byItem: map<Identity, Item>) returns (members: seq<Item>)
    requires Ordered(RowOrder(), rows) && forall r :: r in rows <==> r in MembersOf(w, gid)
    requires forall r :: r in Rows(w) ==> IdentityOf(r) in byItem && byItem[IdentityOf(r)] == ItemOf(w, r)
    ensures forall i :: i in members <==> IsMember(w, gid, i)
    ensures forall i, j :: 0 <= i < j < |members| ==> MemberLt(members[i], members[j])
  {
    hide GroupOf;
    hide Summaries;
    members := [];
    for n := 0 to |rows|
      invariant |members| == n
      invariant forall i :: 0 <= i < n ==> members[i] == ItemOf(w, rows[i])
    {
      assert rows[n] in rows;
      members := members + [byItem[IdentityOf(rows[n])]];
    }
    MembersListed(w, gid, rows, members);
  }

  lemma MembersListed(w: World, gid: string, rows: seq<Row>, members: seq<Item>)
    requires Ordered(RowOrder(), rows) && forall r :: r in rows <==> r in MembersOf(w, gid)
    requires |members| == |rows| && forall i :: 0 <= i < |rows| ==> members[i] == ItemOf(w, rows[i])
    ensures forall i :: i in members <==> IsMember(w, gid, i)
    ensures forall i, j :: 0 <= i < j < |members| ==> MemberLt(members[i], members[j])
  {
    hide MembersOf;
    hide Summaries;
    forall x
      ensures x in members <==> IsMember(w, gid, x)
    {
      if x in members {
        var i :| 0 <= i < |members| && members[i] == x;
        assert rows[i] in rows;
      }
      if IsMember(w, gid, x) {
        assert x.row in rows;
        var i :| 0 <= i < |rows| && rows[i] == x.row;
        assert members[i] == x;
      }
    }
    forall i, j | 0 <= i < j < |members|
      ensures MemberLt(members[i], members[j])
    {
      assert RowOrder()(rows[i], rows[j]);
    }
  }

  lemma MembersSorted(w: World, groups: map<string, seq<Row>>, gid: string)
    requires WellKeyed(w) && GroupMembers(w, Rows(w), groups) && gid in groups
    ensures Ordered(RowOrder(), SortBy(RowOrder(), groups[gid]))
    ensures forall r :: r in SortBy(RowOrder(), groups[gid]) <==> r in MembersOf(w, gid)
  {
    hide GroupOf;
    var s := groups[gid];
    forall i, j | 0 <= i < j < |s|
      ensures RowOrder()(s[i], s[j]) || RowOrder()(s[j], s[i])
    {
      assert s[i] in s && s[j] in s;
      RowIsKeyed(w, s[i]);
      RowIsKeyed(w, s[j]);
      Names.LtTotal(s[i].id, s[j].id);
    }
    RowOrderTransitive();
    SortByOrders(RowOrder(), s);
  }

  // ---- the whole grouping ----

  lemma TopsComparable(w: World, groups: map<string, seq<Item>>, tops: seq<Item>)
    requires WellKeyed(w) && CollisionFree(w)
    requires forall i :: 0 <= i < |tops| ==> IsTop(w, tops[i])
    requires forall i, j :: 0 <= i < j < |tops| ==> tops[i] != tops[j]
    ensures Comparable(ItemOrder(groups), tops)
  {
    forall i, j | 0 <= i < j < |tops|
      ensures ItemOrder(groups)(tops[i], tops[j]) || ItemOrder(groups)(tops[j], tops[i])
    {
      TopKeysDiffer(w, tops[i], tops[j]);
      Names.LtTotal(ItemKey(tops[i]), ItemKey(tops[j]));
    }
  }

  lemma TopKeysDiffer(w: World, a: Item, b: Item)
    requires WellKeyed(w) && CollisionFree(w) && IsTop(w, a) && IsTop(w, b) && a != b
    ensures ItemKey(a) != ItemKey(b)
  {
    hide Summaries;
    hide KeptOwner;
    hide AttachedIds;
    if ItemKey(a) == ItemKey(b) {
      if a.Transcript? && b.Transcript? {
        RowIsKeyed(w, a.row);
        RowIsKeyed(w, b.row);
      } else if a.Container? && b.Container? {
        var r :| r in Helpers(w) && OwnerRow(w, r) == None && a == ContainerOf(w, r);
        var q :| q in Helpers(w) && OwnerRow(w, q) == None && b == ContainerOf(w, q);
        GroupDeterminesOwner(w, r, q);
      }
    }
  }

  lemma OrdinaryCounted(w: World, ordinary: seq<Item>, rows: seq<Row>)
    requires forall r :: r in rows <==> r in Rows(w)
    requires forall i :: i in ordinary <==> i.Transcript? && i.row in rows && !i.row.helper && i == ItemOf(w, i.row)
    requires forall i, j :: 0 <= i < j < |ordinary| ==> ordinary[i] != ordinary[j]
    ensures |ordinary| == |set r | r in Rows(w) && !r.helper|
  {
    hide Summaries;
    var found := seq(|ordinary|, i requires 0 <= i < |ordinary| => if ordinary[i].Transcript? then ordinary[i].row
        else Row("", "", "", true, [], None, None, 0));
    var plain := set r | r in Rows(w) && !r.helper;
    forall i | 0 <= i < |ordinary|
      ensures found[i] in plain && ordinary[i] == ItemOf(w, found[i])
    {
      assert ordinary[i] in ordinary;
    }
    forall r
      ensures r in found <==> r in plain
    {
      if r in plain {
        assert ItemOf(w, r) in ordinary;
        var i :| 0 <= i < |ordinary| && ordinary[i] == ItemOf(w, r);
        assert found[i] == r;
      }
    }
    DistinctRowsCount(found, plain);
  }

  // groupVillageRows: the one grouping of the accepted candidates, or a refusal
  // when a row is invalid, has no account, or repeats an identity or an id.
  method GroupVillageRows(rows: seq<Row>, cyclic: set<string>, digest: seq<string> -> string, valid: Row -> bool)
    returns (accepted: bool, items: seq<Item>, groups: map<string, seq<Item>>, ordinary: nat, ghost w: World)
    requires forall p, q :: digest(p) == digest(q) ==> p == q
    requires forall i, p :: 0 <= i < |rows| ==> rows[i].id != digest(p)
    ensures accepted <==> Acceptable(rows, valid)
    ensures accepted ==> Indexes(w.byId, rows) && w.cyclic == cyclic && w.digest == digest
    ensures accepted ==> WellKeyed(w) && CollisionFree(w) && Grouped(w, items, groups, ordinary)
  {
    items, groups, ordinary := [], map[], 0;
    w := World(map[], cyclic, digest);
    var byId := Accept(rows, valid);
    if byId.Err? {
      return false, items, groups, ordinary, w;
    }
    accepted := true;
    var world := World(byId.value, cyclic, digest);
    w := world;
    IndexedWorld(rows, valid, world);
    items, groups, ordinary := GroupAccepted(world, rows);
  }

  method GroupAccepted(w: World, rows: seq<Row>)
    returns (items: seq<Item>, groups: map<string, seq<Item>>, ordinary: nat)
    requires WellKeyed(w) && CollisionFree(w)
    requires DistinctRows(rows) && forall r :: r in Rows(w) <==> r in rows
    ensures Grouped(w, items, groups, ordinary)
  {
    hide GroupOf;
    hide KeptOwner;
    hide Summaries;
    hide AttachedIds;
    var members, owners, statuses := AssignGroups(w, rows);
    var sorted, attached, containers := AttachGroups(w, members, owners, statuses);
    var byItem, plain := BuildItems(w, rows, attached, members, owners, statuses);
    ordinary := |plain|;
    OrdinaryCounted(w, plain, rows);
    groups := ListMembers(w, members, sorted, byItem);
    var tops := containers + plain;
    TopsOf(w, members, owners, statuses, containers, plain, rows);
    TopsComparable(w, groups, tops);
    ItemOrderTransitive(groups);
    SortByOrders(ItemOrder(groups), tops);
    items := SortBy(ItemOrder(groups), tops);
    KeysAreGroups(w, members);
    GroupedFrom(w, items, groups, ordinary);
  }

  lemma KeysAreGroups(w: World, members: map<string, seq<Row>>)
    requires GroupMembers(w, Rows(w), members)
    ensures members.Keys == GroupIds(w)
  {
    hide GroupOf;
    forall gid
      ensures gid in members.Keys <==> gid in GroupIds(w)
    {
      if gid in members {
        var r :| r in Rows(w) && r.helper && GroupOf(w, r) == gid;
        assert r in Helpers(w);
      }
    }
  }

  lemma TopsOf(w: World, members: map<string, seq<Row>>, owners: map<string, Identity>, statuses: map<string, Status>,
               containers: seq<Item>, plain: seq<Item>, rows: seq<Row>)
    requires WellKeyed(w) && GroupFacts(w, Rows(w), members, owners, statuses)
    requires ContainerFacts(w, members.Keys, members, owners, statuses, containers)
    requires forall r :: r in rows <==> r in Rows(w)
    requires forall i :: i in plain <==> i.Transcript? && i.row in rows && !i.row.helper && i == ItemOf(w, i.row)
    requires forall i, j :: 0 <= i < j < |plain| ==> plain[i] != plain[j]
    ensures forall i :: i in containers + plain <==> IsTop(w, i)
    ensures forall i :: 0 <= i < |containers + plain| ==> IsTop(w, (containers + plain)[i])
    ensures forall i, j :: 0 <= i < j < |containers + plain| ==> (containers + plain)[i] != (containers + plain)[j]
  {
    hide Summaries;
    hide GroupOf;
    hide KeptOwner;
    hide AttachedIds;
    hide GroupFacts;
    var tops := containers + plain;
    forall c
      ensures c in tops <==> IsTop(w, c)
    {
      ContainersAreTops(w, members, owners, statuses, c);
    }
    forall i | 0 <= i < |tops|
      ensures IsTop(w, tops[i])
    {
      assert tops[i] in tops;
    }
    forall i, j | 0 <= i < j < |tops|
      ensures tops[i] != tops[j]
    {
      if i < |containers| <= j {
        assert containers[i] in containers && plain[j - |containers|] in plain;
      }
    }
  }

  lemma GroupedFrom(w: World, items: seq<Item>, groups: map<string, seq<Item>>, ordinary: nat)
    requires MemberFacts(w, GroupIds(w), groups)
    requires forall i :: i in items <==> IsTop(w, i)
    requires Ordered(ItemOrder(groups), items)
    requires ordinary == |set r | r in Rows(w) && !r.helper|
    ensures Grouped(w, items, groups, ordinary)
  {
    hide IsTop;
    hide IsMember;
    hide GroupIds;
    forall i, j | 0 <= i < j < |items|
      ensures ItemLt(groups, items[i], items[j])
    {
      assert ItemOrder(groups)(items[i], items[j]);
    }
  }

  // Presenting the same rows in another order gives the same answer.
  lemma GroupingIgnoresOrder(rows: seq<Row>, rows': seq<Row>, w: World, w': World,
                             items: seq<Item>, groups: map<string, seq<Item>>, ordinary: nat,
                             items': seq<Item>, groups': map<string, seq<Item>>, ordinary': nat)
    requires multiset(rows) == multiset(rows')
    requires Indexes(w.byId, rows) && Indexes(w'.byId, rows') && w.cyclic == w'.cyclic && w.digest == w'.digest
    requires Grouped(w, items, groups, ordinary) && Grouped(w', items', groups', ordinary')
    ensures items == items' && groups == groups' && ordinary == ordinary'
  {
    IndexIgnoresOrder(rows, rows', w.byId, w'.byId);
    assert w == w';
    GroupingIsUnique(w, items, groups, ordinary, items', groups', ordinary');
  }

  // The helper total GroupedList reports, group by group in any order.
  method HelperTotal(w: World, items: seq<Item>, groups: map<string, seq<Item>>, ordinary: nat) returns (total: nat)
    requires WellKeyed(w) && Grouped(w, items, groups, ordinary)
    ensures total == |Helpers(w)|
    ensures ordinary + total == |Rows(w)|
  {
    hide GroupOf;
    hide Summaries;
    hide Grouped;
    total := 0;
    var rest := groups.Keys;
    ghost var counted: set<Row> := {};
    KeysOf(w, items, groups, ordinary);
    while rest != {}
      invariant rest <= groups.Keys
      invariant forall r :: r in counted <==> r in Helpers(w) && GroupOf(w, r) !in rest
      invariant total == |counted|
    {
      var gid :| gid in rest;
      GroupSize(w, items, groups, ordinary, gid);
      total := total + |groups[gid]|;
      assert counted !! MembersOf(w, gid);
      counted := counted + MembersOf(w, gid);
      rest := rest - {gid};
    }
    assert counted == Helpers(w);
    OrdinaryAndHelpers(w, items, groups, ordinary);
  }

  lemma KeysOf(w: World, items: seq<Item>, groups: map<string, seq<Item>>, ordinary: nat)
    requires Grouped(w, items, groups, ordinary)
    ensures groups.Keys == GroupIds(w)
    ensures forall r :: r in Helpers(w) ==> GroupOf(w, r) in groups.Keys
  {
  }

  lemma OrdinaryAndHelpers(w: World, items: seq<Item>, groups: map<string, seq<Item>>, ordinary: nat)
    requires Grouped(w, items, groups, ordinary)
    ensures ordinary + |Helpers(w)| == |Rows(w)|
  {
    var plain := set r | r in Rows(w) && !r.helper;
    assert Rows(w) == plain + Helpers(w) && plain !! Helpers(w);
  }

  lemma GroupSize(w: World, items: seq<Item>, groups: map<string, seq<Item>>, ordinary: nat, gid: string)
    requires WellKeyed(w) && Grouped(w, items, groups, ordinary) && gid in groups
    ensures |groups[gid]| == |MembersOf(w, gid)|
  {
    hide GroupOf;
    hide Summaries;
    var members := groups[gid];
    forall i | 0 <= i < |members|
      ensures IsMember(w, gid, members[i])
    {
      assert members[i] in members;
    }
    var found := seq(|members|, i requires 0 <= i < |members| => if members[i].Transcript? then members[i].row
        else Row("", "", "", true, [], None, None, 0));
    forall i, j | 0 <= i < j < |found|
      ensures found[i] != found[j]
    {
      assert MemberLt(members[i], members[j]);
      Names.LtIrreflexive(found[i].id);
    }
    forall r
      ensures r in found <==> r in MembersOf(w, gid)
    {
      if r in MembersOf(w, gid) {
        assert IsMember(w, gid, ItemOf(w, r));
        var i :| 0 <= i < |members| && members[i] == ItemOf(w, r);
        assert found[i] == r;
      }
    }
    DistinctRowsCount(found, MembersOf(w, gid));
  }

  // ---- paging ----

  function Page(page: int, limit: int): (r: (int, int))
    ensures r.0 >= 1 && 1 <= r.1 <= 100
    ensures r.0 == page || (page < 1 && r.0 == 1)
    ensures 1 <= limit <= 100 ==> r.1 == limit
    ensures limit < 1 || limit > 100 ==> r.1 == 20
  {
    (if page < 1 then 1 else page, if limit < 1 || limit > 100 then 20 else limit)
  }

  const MAX_INT: int := 0x7fff_ffff_ffff_ffff
  const TWO_64: int := 0x1_0000_0000_0000_0000

  // A sum of two 64-bit integers that are not negative.
  function Wrapped(sum: int): int { if sum > MAX_INT then sum - TWO_64 else sum }

  // The end of the last page of a list this long does not fit 64 bits.
  predicate Overflows(page: int, limit: int, total: int)
    requires limit >= 1
  {
    total > 0 && page - 1 <= total / limit && page * limit > MAX_INT
  }

  // groupedBounds on 64-bit integers: the page's slice of the list, clipped to
  // it, exactly unless the end of the page overflows.
  function Bounds(page: int, limit: int, total: int): (r: (int, int))
    requires 1 <= page <= MAX_INT && 1 <= limit <= 100 && 0 <= total <= MAX_INT
    ensures r.0 == if (page - 1) * limit < total then (page - 1) * limit else total
    ensures !Overflows(page, limit, total) ==>
              0 <= r.0 <= r.1 <= total && r.1 - r.0 <= limit
                && r.1 == if page * limit < total then page * limit else total
    ensures Overflows(page, limit, total) ==> r.1 < 0
  {
    if total == 0 || page - 1 > total / limit then
      PastTheEnd(page, limit, total);
      (total, total)
    else
      WithinRange(page, limit, total);
      assert 0 <= (page - 1) * limit <= MAX_INT;
      var start := (page - 1) * limit;
      var end := Wrapped(start + limit);
      (start, if end > total then total else end)
  }

  // Only a list within 100 of the largest integer can overflow.
  lemma NoOverflow(page: int, limit: int, total: int)
    requires 1 <= page && 1 <= limit <= 100 && 0 <= total <= MAX_INT - 100
    ensures !Overflows(page, limit, total)
  {
    if total > 0 && page - 1 <= total / limit {
      WithinRange(page, limit, total);
    }
  }

  lemma PastTheEnd(page: int, limit: int, total: int)
    requires page >= 1 && limit >= 1 && total >= 0 && (total == 0 || page - 1 > total / limit)
    ensures (page - 1) * limit >= total && page * limit >= total
  {
    if total == 0 {
      ProductMonotone(0, page - 1, limit);
    } else {
      var q := total / limit;
      assert total < (q + 1) * limit;
      ProductMonotone(q + 1, page - 1, limit);
    }
    NextPage(page, limit);
  }

  lemma ProductMonotone(a: int, b: int, c: int)
    requires a <= b && c >= 0
    ensures a * c <= b * c
  {
    var d := b - a;
    assert b * c == a * c + d * c;
    assert d * c >= 0;
  }

  lemma NextPage(page: int, limit: int)
    ensures page * limit == (page - 1) * limit + limit
  {
  }

  lemma WithinRange(page: int, limit: int, total: int)
    requires page >= 1 && limit >= 1 && total >= 0 && page - 1 <= total / limit
    ensures 0 <= (page - 1) * limit <= total
    ensures page * limit == (page - 1) * limit + limit
  {
    var q := total / limit;
    assert q * limit <= total;
    ProductMonotone(page - 1, q, limit);
    ProductMonotone(0, page - 1, limit);
    NextPage(page, limit);
  }

  // Pages 1 to n end within 64 bits.
  ghost predicate Fits(limit: int, n: nat, total: int)
    requires limit >= 1
  {
    forall page: nat :: 1 <= page <= n ==> !Overflows(page, limit, total)
  }

  // The first n pages of a list.
  ghost function Pages<T>(items: seq<T>, limit: int, n: nat): seq<T>
    requires 1 <= limit <= 100 && |items| <= MAX_INT && n <= MAX_INT && Fits(limit, n, |items|)
  {
    if n == 0 then []
    else
      assert !Overflows(n, limit, |items|);
      Pages(items, limit, n - 1) + items[Bounds(n, limit, |items|).0..Bounds(n, limit, |items|).1]
  }

  // The pages one after the other are the list itself: no gap, no repeat.
  lemma {:induction false} PagesArePrefix<T>(items: seq<T>, limit: int, n: nat)
    requires 1 <= limit <= 100 && |items| <= MAX_INT && n <= MAX_INT && Fits(limit, n, |items|)
    ensures Pages(items, limit, n) == items[..if n * limit < |items| then n * limit else |items|]
  {
    if n > 0 {
      PagesArePrefix(items, limit, n - 1);
      assert !Overflows(n, limit, |items|);
      var b := Bounds(n, limit, |items|);
      hide Bounds;
      hide Overflows;
      assert items[..b.0] + items[b.0..b.1] == items[..b.1];
    }
  }

  lemma PagesCoverTheList<T>(items: seq<T>, limit: int, n: nat)
    requires 1 <= limit <= 100 && |items| <= MAX_INT - 100 && |items| <= n <= MAX_INT
    ensures Fits(limit, n, |items|) && Pages(items, limit, n) == items
  {
    forall page: nat | 1 <= page <= n
      ensures !Overflows(page, limit, |items|)
    {
      NoOverflow(page, limit, |items|);
    }
    PagesArePrefix(items, limit, n);
    ProductMonotone(1, limit, n);
    assert n * limit == limit * n;
    assert items[..|items|] == items;
  }
}

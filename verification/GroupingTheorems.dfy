// What every grouping is: a forest, one for each set of candidates.
module GroupingTheorems {
  import opened Options
  import Names
  import opened Grouping

  // ---- groups ----

  // One group has one kept owner and one status.
  lemma GroupDeterminesOwner(w: World, a: Row, b: Row)
    requires WellKeyed(w) && CollisionFree(w) && a in Rows(w) && b in Rows(w)
    requires GroupOf(w, a) == GroupOf(w, b)
    ensures OwnerRow(w, a) == OwnerRow(w, b)
    ensures KeptOwner(w, a) == KeptOwner(w, b)
  {
    var p, q := Parts(a, KeptOwner(w, a).0), Parts(b, KeptOwner(w, b).0);
    assert p == q;
    assert |p| == |q|;
    assert p[1] == q[1] && p[2] == q[2] && p[3] == q[3];
    if KeptOwner(w, a).0 == "" {
      RowIsKeyed(w, a);
      RowIsKeyed(w, b);
      assert IdentityOf(a) == IdentityOf(b);
    }
  }

  // ---- the walk ----

  // A walk that meets no visited session meets none with fewer visited, and
  // takes the same steps.
  lemma {:induction false} FewerVisited(w: World, owner: string, next: string, visited: set<Identity>,
                                        fewer: set<Identity>)
    requires fewer <= visited && !Revisits(w, owner, next, visited)
    ensures !Revisits(w, owner, next, fewer)
    ensures WalkLength(w, owner, next, fewer) == WalkLength(w, owner, next, visited)
    decreases |w.byId.Keys - visited|
  {
    if next != "" {
      var key := Identity(owner, next);
      if key in w.byId {
        assert key !in visited;
        SmallerSet(w.byId.Keys - (visited + {key}), w.byId.Keys - visited);
        FewerVisited(w, owner, HelperOwner(w.byId[key]).0, visited + {key}, fewer + {key});
      }
    }
  }

  // How deep a row's owners go.
  ghost function Depth(w: World, r: Row): nat {
    WalkLength(w, r.ownerKey, HelperOwner(r).0, {IdentityOf(r)})
  }

  // A helper shown under a candidate lies strictly deeper than it.
  lemma OwnerIsShallower(w: World, r: Row)
    requires WellKeyed(w) && r in Rows(w) && OwnerRow(w, r).Some?
    ensures var p := OwnerRow(w, r).value; p in Rows(w) && p.ownerKey == r.ownerKey && Depth(w, p) < Depth(w, r)
  {
    var next := HelperOwner(r).0;
    assert KeptOwner(w, r).0 == next;
    var key := Identity(r.ownerKey, next);
    var p := w.byId[key];
    assert !Revisits(w, r.ownerKey, next, {IdentityOf(r)});
    assert key !in {IdentityOf(r)};
    assert !Revisits(w, r.ownerKey, HelperOwner(p).0, {IdentityOf(r)} + {key});
    FewerVisited(w, r.ownerKey, HelperOwner(p).0, {IdentityOf(r)} + {key}, {key});
  }

  // ---- disclosure in the returned lists ----

  ghost predicate Discloses(i: Item, gid: string) {
    exists k :: 0 <= k < |i.groups| && i.groups[k].gid == gid
  }

  // The item shown for a row, at the top or inside a group.
  ghost predicate ShownAs(items: seq<Item>, groups: map<string, seq<Item>>, r: Row, i: Item) {
    i.Transcript? && i.row == r && (i in items || exists gid :: gid in groups && i in groups[gid])
  }

  ghost predicate InGroup(groups: map<string, seq<Item>>, gid: string, r: Row) {
    gid in groups && exists i :: i in groups[gid] && i.Transcript? && i.row == r
  }

  // From the top-level item, disclosing the groups of the chain one after the
  // other arrives at the row.
  ghost predicate Reaches(items: seq<Item>, groups: map<string, seq<Item>>, top: Item, chain: seq<string>, r: Row)
    decreases |chain|
  {
    if chain == [] then top in items && top.Transcript? && top.row == r
    else
      var gid := chain[|chain| - 1];
      InGroup(groups, gid, r) &&
      if |chain| == 1 && top.Container? then top in items && Discloses(top, gid)
      else exists p, i ::
        ShownAs(items, groups, p, i) && Discloses(i, gid) && Reaches(items, groups, top, chain[..|chain| - 1], p)
  }

  lemma SummariesListed(w: World, gids: set<string>, gid: string)
    ensures gid in gids <==> exists k :: 0 <= k < |Summaries(w, gids)| && Summaries(w, gids)[k].gid == gid
  {
    var listed := Names.Ascending(gids);
    if gid in gids {
      var k :| 0 <= k < |listed| && listed[k] == gid;
      assert Summaries(w, gids)[k].gid == gid;
    }
    if k :| 0 <= k < |Summaries(w, gids)| && Summaries(w, gids)[k].gid == gid {
      assert listed[k] in listed;
    }
  }

  // A shown item discloses exactly the groups of the helpers it owns.
  lemma DisclosesOwned(w: World, items: seq<Item>, groups: map<string, seq<Item>>, ordinary: nat, r: Row, i: Item,
                       gid: string)
    requires Grouped(w, items, groups, ordinary) && ShownAs(items, groups, r, i)
    ensures r in Rows(w) && i == ItemOf(w, r)
    ensures Discloses(i, gid) <==> gid in AttachedIds(w, r)
  {
    assert i == ItemOf(w, r) by {
      if i in items {
        assert IsTop(w, i);
      } else {
        var g :| g in groups && i in groups[g];
        assert IsMember(w, g, i);
      }
    }
    SummariesListed(w, AttachedIds(w, r), gid);
  }

  lemma InGroupIs(w: World, items: seq<Item>, groups: map<string, seq<Item>>, ordinary: nat, gid: string, r: Row)
    requires Grouped(w, items, groups, ordinary)
    ensures InGroup(groups, gid, r) <==> r in Helpers(w) && GroupOf(w, r) == gid
  {
    if InGroup(groups, gid, r) {
      var i :| i in groups[gid] && i.Transcript? && i.row == r;
      assert IsMember(w, gid, i);
    }
    if r in Helpers(w) && GroupOf(w, r) == gid {
      assert gid in GroupIds(w);
      assert IsMember(w, gid, ItemOf(w, r));
    }
  }

  // Every row is shown.
  lemma EveryRowShown(w: World, items: seq<Item>, groups: map<string, seq<Item>>, ordinary: nat, r: Row)
    requires Grouped(w, items, groups, ordinary) && r in Rows(w)
    ensures ShownAs(items, groups, r, ItemOf(w, r))
  {
    if r.helper {
      InGroupIs(w, items, groups, ordinary, GroupOf(w, r), r);
      assert IsMember(w, GroupOf(w, r), ItemOf(w, r));
    } else {
      assert IsTop(w, ItemOf(w, r));
    }
  }

  // The place of a row: the top-level item it is found under, and the groups to
  // disclose on the way.
  ghost function PlaceOf(w: World, r: Row): (Item, seq<string>)
    requires WellKeyed(w) && r in Rows(w)
    decreases Depth(w, r)
  {
    if !r.helper then (ItemOf(w, r), [])
    else if OwnerRow(w, r) == None then (ContainerOf(w, r), [GroupOf(w, r)])
    else
      OwnerIsShallower(w, r);
      var above := PlaceOf(w, OwnerRow(w, r).value);
      (above.0, above.1 + [GroupOf(w, r)])
  }

  lemma {:induction false} PlaceIsReached(w: World, items: seq<Item>, groups: map<string, seq<Item>>, ordinary: nat,
                                          r: Row)
    requires WellKeyed(w) && Grouped(w, items, groups, ordinary) && r in Rows(w)
    ensures Reaches(items, groups, PlaceOf(w, r).0, PlaceOf(w, r).1, r)
    decreases Depth(w, r)
  {
    if !r.helper {
      assert IsTop(w, ItemOf(w, r));
    } else {
      var gid := GroupOf(w, r);
      InGroupIs(w, items, groups, ordinary, gid, r);
      if OwnerRow(w, r) == None {
        ContainerReaches(w, items, groups, ordinary, r);
      } else {
        OwnerIsShallower(w, r);
        var p := OwnerRow(w, r).value;
        PlaceIsReached(w, items, groups, ordinary, p);
        EveryRowShown(w, items, groups, ordinary, p);
        DisclosesOwned(w, items, groups, ordinary, p, ItemOf(w, p), gid);
        PlaceShape(w, p);
        hide Grouped;
        hide WellKeyed;
        hide OwnerRow;
        ReachesBelow(items, groups, PlaceOf(w, p).0, PlaceOf(w, p).1, p, ItemOf(w, p), gid, r);
      }
    }
  }

  lemma ContainerReaches(w: World, items: seq<Item>, groups: map<string, seq<Item>>, ordinary: nat, r: Row)
    requires WellKeyed(w) && Grouped(w, items, groups, ordinary) && r in Rows(w)
    requires r.helper && OwnerRow(w, r) == None && InGroup(groups, GroupOf(w, r), r)
    ensures Reaches(items, groups, ContainerOf(w, r), [GroupOf(w, r)], r)
  {
    var c := ContainerOf(w, r);
    assert IsTop(w, c);
    assert c.groups[0].gid == GroupOf(w, r);
  }

  lemma PlaceShape(w: World, r: Row)
    requires WellKeyed(w) && r in Rows(w)
    ensures PlaceOf(w, r).1 != [] || PlaceOf(w, r).0.Transcript?
  {
  }

  // A row disclosed by one that is reached is reached by one disclosure more.
  lemma ReachesBelow(items: seq<Item>, groups: map<string, seq<Item>>, top: Item, chain: seq<string>, p: Row, i: Item,
                     gid: string, r: Row)
    requires Reaches(items, groups, top, chain, p) && (chain != [] || top.Transcript?)
    requires ShownAs(items, groups, p, i) && Discloses(i, gid) && InGroup(groups, gid, r)
    ensures Reaches(items, groups, top, chain + [gid], r)
  {
    hide Discloses;
    hide ShownAs;
    hide InGroup;
    assert (chain + [gid])[..|chain|] == chain;
  }

  // Where a group can be disclosed: in its container when it has no candidate
  // owner, and otherwise in that owner's item alone.
  lemma DisclosedOnce(w: World, items: seq<Item>, groups: map<string, seq<Item>>, ordinary: nat, r: Row, p: Row,
                      i: Item)
    requires WellKeyed(w) && CollisionFree(w) && Grouped(w, items, groups, ordinary) && r in Helpers(w)
    requires ShownAs(items, groups, p, i) && Discloses(i, GroupOf(w, r))
    ensures OwnerRow(w, r) == Some(p)
  {
    DisclosesOwned(w, items, groups, ordinary, p, i, GroupOf(w, r));
    var q :| q in Helpers(w) && OwnerRow(w, q) == Some(p) && GroupOf(w, q) == GroupOf(w, r);
    GroupDeterminesOwner(w, q, r);
  }

  lemma ContainerOnce(w: World, items: seq<Item>, groups: map<string, seq<Item>>, ordinary: nat, r: Row, top: Item)
    requires WellKeyed(w) && CollisionFree(w) && Grouped(w, items, groups, ordinary) && r in Helpers(w)
    requires top in items && top.Container? && Discloses(top, GroupOf(w, r))
    ensures OwnerRow(w, r) == None && top == ContainerOf(w, r)
  {
    assert IsTop(w, top);
    var q :| q in Helpers(w) && OwnerRow(w, q) == None && top == ContainerOf(w, q);
    assert GroupOf(w, q) == GroupOf(w, r);
    GroupDeterminesOwner(w, q, r);
  }

  // No row is reached along any other chain or from any other item.
  lemma {:induction false} OnlyPlace(w: World, items: seq<Item>, groups: map<string, seq<Item>>, ordinary: nat, r: Row,
                                     top: Item, chain: seq<string>)
    requires WellKeyed(w) && CollisionFree(w) && Grouped(w, items, groups, ordinary) && r in Rows(w)
    requires Reaches(items, groups, top, chain, r)
    ensures (top, chain) == PlaceOf(w, r)
    decreases |chain|
  {
    hide Grouped;
    hide Reaches;
    hide ItemOf;
    hide ContainerOf;
    hide GroupOf;
    hide OwnerRow;
    hide Discloses;
    if chain == [] {
      OnlyTop(w, items, groups, ordinary, r, top);
    } else {
      var n := |chain| - 1;
      LastGroup(w, items, groups, ordinary, r, top, chain);
      assert chain == chain[..n] + [GroupOf(w, r)];
      if |chain| == 1 && top.Container? {
        ContainerOnce(w, items, groups, ordinary, r, top);
        assert chain == [GroupOf(w, r)];
      } else {
        var p := DiscloserOf(w, items, groups, ordinary, r, top, chain);
        OnlyPlace(w, items, groups, ordinary, p, top, chain[..n]);
        PlaceBelow(w, r);
      }
    }
  }

  lemma OnlyTop(w: World, items: seq<Item>, groups: map<string, seq<Item>>, ordinary: nat, r: Row, top: Item)
    requires Grouped(w, items, groups, ordinary) && Reaches(items, groups, top, [], r)
    ensures !r.helper && top == ItemOf(w, r)
  {
    assert IsTop(w, top);
  }

  lemma LastGroup(w: World, items: seq<Item>, groups: map<string, seq<Item>>, ordinary: nat, r: Row, top: Item,
                  chain: seq<string>)
    requires Grouped(w, items, groups, ordinary) && chain != [] && Reaches(items, groups, top, chain, r)
    ensures r in Helpers(w) && chain[|chain| - 1] == GroupOf(w, r)
    ensures |chain| == 1 && top.Container? ==> top in items && Discloses(top, GroupOf(w, r))
  {
    InGroupIs(w, items, groups, ordinary, chain[|chain| - 1], r);
  }

  lemma PlaceBelow(w: World, r: Row)
    requires WellKeyed(w) && r in Helpers(w) && OwnerRow(w, r).Some? && OwnerRow(w, r).value in Rows(w)
    ensures PlaceOf(w, r).0 == PlaceOf(w, OwnerRow(w, r).value).0
    ensures PlaceOf(w, r).1 == PlaceOf(w, OwnerRow(w, r).value).1 + [GroupOf(w, r)]
  {
  }

  lemma DiscloserOf(w: World, items: seq<Item>, groups: map<string, seq<Item>>, ordinary: nat, r: Row, top: Item,
                    chain: seq<string>) returns (p: Row)
    requires WellKeyed(w) && CollisionFree(w) && Grouped(w, items, groups, ordinary) && r in Helpers(w)
    requires chain != [] && !(|chain| == 1 && top.Container?) && Reaches(items, groups, top, chain, r)
    requires chain[|chain| - 1] == GroupOf(w, r)
    ensures OwnerRow(w, r) == Some(p) && p in Rows(w) && Reaches(items, groups, top, chain[..|chain| - 1], p)
  {
    var gid := chain[|chain| - 1];
    var q, i :| ShownAs(items, groups, q, i) && Discloses(i, gid)
        && Reaches(items, groups, top, chain[..|chain| - 1], q);
    p := q;
    DisclosedOnce(w, items, groups, ordinary, r, p, i);
    DisclosesOwned(w, items, groups, ordinary, p, i, gid);
  }

  // The main result: however the owner links loop, each row is reached from
  // exactly one top-level item by exactly one chain of disclosures.
  lemma EveryRowReachedOnce(w: World, items: seq<Item>, groups: map<string, seq<Item>>, ordinary: nat, r: Row)
    requires WellKeyed(w) && CollisionFree(w) && Grouped(w, items, groups, ordinary) && r in Rows(w)
    ensures exists top, chain :: Reaches(items, groups, top, chain, r)
    ensures forall top, chain, top', chain' ::
        Reaches(items, groups, top, chain, r) && Reaches(items, groups, top', chain', r)
        ==> top == top' && chain == chain'
  {
    PlaceIsReached(w, items, groups, ordinary, r);
    forall top, chain | Reaches(items, groups, top, chain, r)
      ensures (top, chain) == PlaceOf(w, r)
    {
      OnlyPlace(w, items, groups, ordinary, r, top, chain);
    }
  }

  // Only candidates are reached, so nothing else is disclosed.
  lemma OnlyRowsReached(w: World, items: seq<Item>, groups: map<string, seq<Item>>, ordinary: nat, top: Item,
                        chain: seq<string>, r: Row)
    requires Grouped(w, items, groups, ordinary) && Reaches(items, groups, top, chain, r)
    ensures r in Rows(w)
  {
    if chain == [] {
      assert IsTop(w, top);
    } else {
      InGroupIs(w, items, groups, ordinary, chain[|chain| - 1], r);
    }
  }

  ghost predicate HeldAbove(w: World, gid: string, depth: nat) {
    exists q :: q in Helpers(w) && GroupOf(w, q) == gid && Depth(w, q) <= depth
  }

  // No group is disclosed inside itself.
  lemma {:induction false} NoGroupNestsInItself(w: World, r: Row)
    requires WellKeyed(w) && CollisionFree(w) && r in Rows(w)
    ensures forall i, j :: 0 <= i < j < |PlaceOf(w, r).1| ==> PlaceOf(w, r).1[i] != PlaceOf(w, r).1[j]
    ensures forall i :: 0 <= i < |PlaceOf(w, r).1| ==> HeldAbove(w, PlaceOf(w, r).1[i], Depth(w, r))
    decreases Depth(w, r)
  {
    if r.helper {
      assert r in Helpers(w) && HeldAbove(w, GroupOf(w, r), Depth(w, r));
      if OwnerRow(w, r).Some? {
        OwnerIsShallower(w, r);
        var p := OwnerRow(w, r).value;
        NoGroupNestsInItself(w, p);
        PlaceBelow(w, r);
        var above := PlaceOf(w, p).1;
        forall i | 0 <= i < |above|
          ensures above[i] != GroupOf(w, r) && HeldAbove(w, above[i], Depth(w, r))
        {
          assert HeldAbove(w, above[i], Depth(w, p));
          var q :| q in Helpers(w) && GroupOf(w, q) == above[i] && Depth(w, q) <= Depth(w, p);
          if GroupOf(w, q) == GroupOf(w, r) {
            GroupDeterminesOwner(w, q, r);
            SameOwnerSameDepth(w, q, r);
          }
        }
      }
    }
  }

  // Helpers of one candidate owner lie at one depth.
  lemma SameOwnerSameDepth(w: World, a: Row, b: Row)
    requires WellKeyed(w) && a in Rows(w) && b in Rows(w)
    requires OwnerRow(w, a).Some? && OwnerRow(w, a) == OwnerRow(w, b)
    ensures Depth(w, a) == Depth(w, b)
  {
    DepthAboveOwner(w, a);
    DepthAboveOwner(w, b);
  }

  lemma DepthAboveOwner(w: World, r: Row)
    requires WellKeyed(w) && r in Rows(w) && OwnerRow(w, r).Some?
    ensures Depth(w, r) == Depth(w, OwnerRow(w, r).value) + 1
  {
    var next := HelperOwner(r).0;
    var key := Identity(r.ownerKey, next);
    var p := w.byId[key];
    assert !Revisits(w, r.ownerKey, next, {IdentityOf(r)});
    assert !Revisits(w, r.ownerKey, HelperOwner(p).0, {IdentityOf(r)} + {key});
    FewerVisited(w, r.ownerKey, HelperOwner(p).0, {IdentityOf(r)} + {key}, {key});
  }

  // ---- when a helper keeps its owner ----

  // The k-th session on the chain of owners, as long as it stays among the
  // candidates.
  ghost function Ancestor(w: World, start: Identity, k: nat): Option<Identity> {
    if k == 0 then Some(start)
    else
      var before := Ancestor(w, start, k - 1);
      if before == None || before.value !in w.byId || HelperOwner(w.byId[before.value]).0 == "" then None
      else Some(Identity(start.owner, HelperOwner(w.byId[before.value]).0))
  }

  // The chain of owners comes back to a session.
  ghost predicate ChainRepeats(w: World, start: Identity) {
    exists i: nat, j: nat :: i < j && Ancestor(w, start, i).Some? && Ancestor(w, start, i) == Ancestor(w, start, j)
  }

  ghost function AncestorsTo(w: World, start: Identity, k: nat): set<Identity> {
    set i | 0 <= i <= k && Ancestor(w, start, i).Some? :: Ancestor(w, start, i).value
  }

  lemma {:induction false} WalkFindsRepeats(w: World, start: Identity, k: nat)
    requires WellKeyed(w) && Ancestor(w, start, k).Some? && Ancestor(w, start, k).value in w.byId
    requires forall i: nat, j: nat :: i < j <= k && Ancestor(w, start, i).Some? ==>
        Ancestor(w, start, i) != Ancestor(w, start, j)
    ensures Revisits(w, start.owner, HelperOwner(w.byId[Ancestor(w, start, k).value]).0, AncestorsTo(w, start, k)) <==>
        ChainRepeats(w, start)
    decreases |w.byId.Keys - AncestorsTo(w, start, k)|
  {
    hide Ancestor;
    hide AncestorsTo;
    hide ChainRepeats;
    hide HelperOwner;
    var next := HelperOwner(w.byId[Ancestor(w, start, k).value]).0;
    var visited := AncestorsTo(w, start, k);
    if next == "" {
      LastAncestor(w, start, k);
      StopsWithoutRepeat(w, start, k + 1);
    } else {
      var key := Identity(start.owner, next);
      NextAncestor(w, start, k);
      AncestorsStep(w, start, k);
      if key in visited {
        RepeatFound(w, start, k);
      } else {
        NewAncestor(w, start, k);
        if key !in w.byId {
          LastAncestor(w, start, k + 1);
          StopsWithoutRepeat(w, start, k + 2);
        } else {
          SmallerSet(w.byId.Keys - (visited + {key}), w.byId.Keys - visited);
          WalkFindsRepeats(w, start, k + 1);
        }
      }
    }
  }

  lemma NextAncestor(w: World, start: Identity, k: nat)
    requires Ancestor(w, start, k).Some? && Ancestor(w, start, k).value in w.byId
    requires HelperOwner(w.byId[Ancestor(w, start, k).value]).0 != ""
    ensures Ancestor(w, start, k + 1) == Some(Identity(start.owner, HelperOwner(w.byId[Ancestor(w, start, k).value]).0))
  {
  }

  lemma LastAncestor(w: World, start: Identity, k: nat)
    requires Ancestor(w, start, k).Some?
    requires Ancestor(w, start, k).value !in w.byId || HelperOwner(w.byId[Ancestor(w, start, k).value]).0 == ""
    ensures Ancestor(w, start, k + 1) == None
  {
  }

  lemma RepeatFound(w: World, start: Identity, k: nat)
    requires Ancestor(w, start, k + 1).Some? && Ancestor(w, start, k + 1).value in AncestorsTo(w, start, k)
    ensures ChainRepeats(w, start)
  {
    var i: nat :| i <= k && Ancestor(w, start, i).Some?
        && Ancestor(w, start, i).value == Ancestor(w, start, k + 1).value;
    assert i < k + 1 && Ancestor(w, start, i) == Ancestor(w, start, k + 1);
  }

  lemma StopsWithoutRepeat(w: World, start: Identity, k: nat)
    requires k > 0 && Ancestor(w, start, k) == None
    requires forall i: nat, j: nat :: i < j <= k - 1 && Ancestor(w, start, i).Some? ==>
        Ancestor(w, start, i) != Ancestor(w, start, j)
    ensures !ChainRepeats(w, start)
  {
    StoppedChain(w, start, k);
    NoRepeatWithin(w, start, k);
  }

  lemma AncestorsStep(w: World, start: Identity, k: nat)
    requires Ancestor(w, start, k + 1).Some?
    ensures AncestorsTo(w, start, k + 1) == AncestorsTo(w, start, k) + {Ancestor(w, start, k + 1).value}
  {
  }

  lemma NewAncestor(w: World, start: Identity, k: nat)
    requires Ancestor(w, start, k + 1).Some? && Ancestor(w, start, k + 1).value !in AncestorsTo(w, start, k)
    requires forall i: nat, j: nat :: i < j <= k && Ancestor(w, start, i).Some? ==>
        Ancestor(w, start, i) != Ancestor(w, start, j)
    ensures forall i: nat, j: nat :: i < j <= k + 1 && Ancestor(w, start, i).Some? ==>
        Ancestor(w, start, i) != Ancestor(w, start, j)
  {
    forall i: nat, j: nat | i < j <= k + 1 && Ancestor(w, start, i).Some?
      ensures Ancestor(w, start, i) != Ancestor(w, start, j)
    {
      if j == k + 1 {
        assert Ancestor(w, start, i).value in AncestorsTo(w, start, k);
      }
    }
  }

  lemma {:induction false} StoppedChain(w: World, start: Identity, k: nat)
    requires Ancestor(w, start, k) == None
    ensures forall j: nat :: k <= j ==> Ancestor(w, start, j) == None
  {
    forall j: nat | k <= j
      ensures Ancestor(w, start, j) == None
    {
      StaysStopped(w, start, k, j);
    }
  }

  lemma {:induction false} StaysStopped(w: World, start: Identity, k: nat, j: nat)
    requires Ancestor(w, start, k) == None && k <= j
    ensures Ancestor(w, start, j) == None
    decreases j - k
  {
    if k < j {
      StaysStopped(w, start, k, j - 1);
    }
  }

  lemma NoRepeatWithin(w: World, start: Identity, k: nat)
    requires forall j: nat :: k <= j ==> Ancestor(w, start, j) == None
    requires forall i: nat, j: nat :: i < j < k && Ancestor(w, start, i).Some? ==>
        Ancestor(w, start, i) != Ancestor(w, start, j)
    ensures !ChainRepeats(w, start)
  {
    forall i: nat, j: nat | i < j && Ancestor(w, start, i).Some?
      ensures Ancestor(w, start, i) != Ancestor(w, start, j)
    {
      if j >= k {
        assert Ancestor(w, start, j) == None;
      }
    }
  }

  // A helper keeps its owner exactly when it is not marked cyclic and its chain
  // of owners never comes back to a session, whether or not that session is
  // the helper itself.
  lemma OwnerKeptExactly(w: World, r: Row)
    requires WellKeyed(w) && r in Rows(w) && HelperOwner(r).0 != ""
    ensures KeptOwner(w, r).0 == HelperOwner(r).0 <==> r.id !in w.cyclic && !ChainRepeats(w, IdentityOf(r))
    ensures KeptOwner(w, r).0 != HelperOwner(r).0 ==> KeptOwner(w, r) == ("", Conflicting)
  {
    RowIsKeyed(w, r);
    var start := IdentityOf(r);
    assert Ancestor(w, start, 0) == Some(start);
    assert AncestorsTo(w, start, 0) == {start};
    WalkFindsRepeats(w, start, 0);
    if r.id in w.cyclic {
      assert !Revisits(w, r.ownerKey, "", {start});
    }
  }

  // The walk clears the owner of a helper that only leads into a cycle: here
  // r is owned by s, and s and t own each other.
  lemma LeadingIntoACycleClears(w: World, r: Row, s: Row, t: Row)
    requires WellKeyed(w) && r in Rows(w) && s in Rows(w) && t in Rows(w)
    requires r.ownerKey == s.ownerKey == t.ownerKey && r.local != s.local && r.local != t.local && s.local != t.local
    requires s.local != "" && t.local != ""
    requires HelperOwner(r).0 == s.local && HelperOwner(s).0 == t.local && HelperOwner(t).0 == s.local
    ensures KeptOwner(w, r) == ("", Conflicting)
    ensures forall k: nat :: k > 0 ==> Ancestor(w, IdentityOf(r), k) != Some(IdentityOf(r))
  {
    RowIsKeyed(w, r);
    RowIsKeyed(w, s);
    RowIsKeyed(w, t);
    var start := IdentityOf(r);
    assert Ancestor(w, start, 0) == Some(start);
    assert Ancestor(w, start, 1) == Some(IdentityOf(s));
    assert Ancestor(w, start, 2) == Some(IdentityOf(t));
    assert Ancestor(w, start, 3) == Some(IdentityOf(s));
    assert ChainRepeats(w, start);
    OwnerKeptExactly(w, r);
    forall k: nat | k > 0
      ensures Ancestor(w, start, k) != Some(start)
    {
      InTheCycle(w, r, s, t, k);
    }
  }

  lemma {:induction false} InTheCycle(w: World, r: Row, s: Row, t: Row, k: nat)
    requires WellKeyed(w) && r in Rows(w) && s in Rows(w) && t in Rows(w) && k > 0
    requires r.ownerKey == s.ownerKey == t.ownerKey && s.local != "" && t.local != ""
    requires HelperOwner(r).0 == s.local && HelperOwner(s).0 == t.local && HelperOwner(t).0 == s.local
    ensures Ancestor(w, IdentityOf(r), k) == Some(if k % 2 == 1 then IdentityOf(s) else IdentityOf(t))
  {
    RowIsKeyed(w, r);
    RowIsKeyed(w, s);
    RowIsKeyed(w, t);
    if k == 1 {
      assert Ancestor(w, IdentityOf(r), 0) == Some(IdentityOf(r));
    } else {
      InTheCycle(w, r, s, t, k - 1);
    }
  }

  // ---- one answer ----

  // Strictly ordered lists of the same elements are one list.
  lemma {:induction false} OrderedOnce<T>(lt: (T, T) -> bool, s: seq<T>, t: seq<T>)
    requires forall x, y :: lt(x, y) ==> !lt(y, x)
    requires forall i, j :: 0 <= i < j < |s| ==> lt(s[i], s[j])
    requires forall i, j :: 0 <= i < j < |t| ==> lt(t[i], t[j])
    requires forall x :: x in s <==> x in t
    ensures s == t
  {
    if s == [] {
      assert forall i :: 0 <= i < |t| ==> t[i] in t;
    } else {
      assert s[0] in s && s[0] in t && t[0] in t;
      HeadFirst(lt, s, t[0]);
      HeadFirst(lt, t, s[0]);
      assert s == [s[0]] + s[1..] && t == [t[0]] + t[1..];
      forall x
        ensures x in s[1..] <==> x in t[1..]
      {
        TailElements(lt, s, x);
        TailElements(lt, t, x);
      }
      OrderedOnce(lt, s[1..], t[1..]);
    }
  }

  lemma HeadFirst<T>(lt: (T, T) -> bool, s: seq<T>, x: T)
    requires forall i, j :: 0 <= i < j < |s| ==> lt(s[i], s[j])
    requires x in s
    ensures x == s[0] || lt(s[0], x)
  {
    var i :| 0 <= i < |s| && s[i] == x;
  }

  lemma TailElements<T>(lt: (T, T) -> bool, s: seq<T>, x: T)
    requires s != [] && forall x, y :: lt(x, y) ==> !lt(y, x)
    requires forall i, j :: 0 <= i < j < |s| ==> lt(s[i], s[j])
    ensures x in s[1..] <==> x in s && x != s[0]
  {
    if x in s[1..] {
      var i :| 0 <= i < |s[1..]| && s[1..][i] == x;
      assert s[i + 1] == x && lt(s[0], s[i + 1]);
    }
    if x in s && x != s[0] {
      var i :| 0 <= i < |s| && s[i] == x;
      assert s[1..][i - 1] == x;
    }
  }

  lemma NamesAsymmetric(a: string, b: string)
    ensures Names.Lt(a, b) ==> !Names.Lt(b, a)
  {
    if Names.Lt(a, b) && Names.Lt(b, a) {
      Names.LtTransitive(a, b, a);
      Names.LtIrreflexive(a);
    }
  }

  function MemberOrder(): (Item, Item) -> bool { (a: Item, b: Item) => MemberLt(a, b) }

  function ItemOrder(groups: map<string, seq<Item>>): (Item, Item) -> bool {
    (a: Item, b: Item) => ItemLt(groups, a, b)
  }

  // Two answers over the same candidates are the same answer, so neither the
  // order of the rows nor of the map iterations can show.
  lemma GroupingIsUnique(w: World, items: seq<Item>, groups: map<string, seq<Item>>, ordinary: nat,
                         items': seq<Item>, groups': map<string, seq<Item>>, ordinary': nat)
    requires Grouped(w, items, groups, ordinary) && Grouped(w, items', groups', ordinary')
    ensures items == items' && groups == groups' && ordinary == ordinary'
  {
    forall gid | gid in groups
      ensures gid in groups' && groups[gid] == groups'[gid]
    {
      forall a, b
        ensures MemberOrder()(a, b) ==> !MemberOrder()(b, a)
      {
        if a.Transcript? && b.Transcript? {
          NamesAsymmetric(a.row.id, b.row.id);
        }
      }
      OrderedOnce(MemberOrder(), groups[gid], groups'[gid]);
    }
    assert groups == groups';
    forall a, b
      ensures ItemOrder(groups)(a, b) ==> !ItemOrder(groups)(b, a)
    {
      NamesAsymmetric(ItemKey(a), ItemKey(b));
    }
    OrderedOnce(ItemOrder(groups), items, items');
  }
}

// The association ledger: validating a publish's bindings against the rows an
// owner already has, and inserting the new ones.
module AssociationLedger {
  import opened Options

  // One requested association: its durable id and the observed commit.
  datatype Association = Association(id: string, commit: string)

  datatype Binding = Binding(owner: string, id: string, transcript: nat, commit: string)

  ghost predicate UniqueIds(ledger: set<Binding>) {
    forall a, b :: a in ledger && b in ledger && a.owner == b.owner && a.id == b.id ==> a == b
  }

  ghost predicate UniqueRelations(ledger: set<Binding>) {
    forall a, b ::
      a in ledger && b in ledger && a.owner == b.owner && a.transcript == b.transcript && a.commit == b.commit
      ==> a == b
  }

  // One binding per association id and one id per transcript and commit.
  ghost predicate WellBound(ledger: set<Binding>) {
    UniqueIds(ledger) && UniqueRelations(ledger)
  }

  // A request names each id once and each commit once.
  ghost predicate NamesOnce(associations: seq<Association>) {
    forall i, j :: 0 <= i < j < |associations| ==>
      associations[i].id != associations[j].id && associations[i].commit != associations[j].commit
  }

  ghost predicate HasId(ledger: set<Binding>, owner: string, id: string) {
    exists b :: b in ledger && b.owner == owner && b.id == id
  }

  ghost predicate HasRelation(ledger: set<Binding>, owner: string, transcript: Option<nat>, commit: string) {
    transcript.Some? && exists b ::
      b in ledger && b.owner == owner && b.transcript == transcript.value && b.commit == commit
  }

  // Already bound exactly as requested.
  ghost predicate Replays(ledger: set<Binding>, owner: string, transcript: Option<nat>, a: Association) {
    transcript.Some? && Binding(owner, a.id, transcript.value, a.commit) in ledger
  }

  // Not bound at all: neither the id nor the relation.
  ghost predicate IsNew(ledger: set<Binding>, owner: string, transcript: Option<nat>, a: Association) {
    !HasId(ledger, owner, a.id) && !HasRelation(ledger, owner, transcript, a.commit)
  }

  // What validation accepts: nothing named twice, and every association either
  // a replay or new.
  ghost predicate Acceptable(ledger: set<Binding>, owner: string, transcript: Option<nat>,
                             associations: seq<Association>) {
    && NamesOnce(associations)
    && forall a :: a in associations ==> Replays(ledger, owner, transcript, a) || IsNew(ledger, owner, transcript, a)
  }

  // The associations an accepted request adds, in request order.
  ghost function NewOnes(ledger: set<Binding>, owner: string, associations: seq<Association>): seq<Association> {
    if associations == [] then []
    else
      var n := |associations| - 1;
      NewOnes(ledger, owner, associations[..n])
        + if HasId(ledger, owner, associations[n].id) then [] else [associations[n]]
  }

  // validatePublishedAssociationBindings: the new associations, or None.
  ghost function Validated(ledger: set<Binding>, owner: string, transcript: Option<nat>,
                           associations: seq<Association>): Option<seq<Association>> {
    if Acceptable(ledger, owner, transcript, associations) then Some(NewOnes(ledger, owner, associations)) else None
  }

  function RowsOf(owner: string, transcript: nat, associations: seq<Association>): set<Binding> {
    set i | 0 <= i < |associations| :: Binding(owner, associations[i].id, transcript, associations[i].commit)
  }

  // ---- the queries the validation relies on ----

  method ListByIds(ledger: set<Binding>, owner: string, ids: seq<string>) returns (byId: map<string, Binding>)
    requires UniqueIds(ledger)
    ensures forall id :: id in byId <==> id in ids && HasId(ledger, owner, id)
    ensures forall id :: id in byId ==> byId[id] in ledger && byId[id].owner == owner && byId[id].id == id
  {
    byId := map[];
    var rest := ledger;
    while rest != {}
      invariant rest <= ledger
      invariant forall id :: id in byId <==>
          exists b :: b in ledger - rest && b.owner == owner && b.id in ids && b.id == id
      invariant forall id :: id in byId ==> byId[id] in ledger && byId[id].owner == owner && byId[id].id == id
    {
      var row :| row in rest;
      ghost var before := ledger - rest;
      rest := rest - {row};
      assert ledger - rest == before + {row};
      if row.owner == owner && row.id in ids {
        byId := byId[row.id := row];
      }
    }
    assert ledger - rest == ledger;
  }

  method ListByRelation(ledger: set<Binding>, owner: string, transcript: nat, commits: seq<string>)
    returns (byCommit: map<string, Binding>)
    ensures forall c :: c in byCommit <==> c in commits && HasRelation(ledger, owner, Some(transcript), c)
  {
    byCommit := map[];
    var rest := ledger;
    while rest != {}
      invariant rest <= ledger
      invariant forall c :: c in byCommit <==>
        exists b :: b in ledger - rest && b.owner == owner && b.transcript == transcript && b.commit in commits
          && b.commit == c
    {
      var row :| row in rest;
      ghost var before := ledger - rest;
      rest := rest - {row};
      assert ledger - rest == before + {row};
      if row.owner == owner && row.transcript == transcript && row.commit in commits {
        byCommit := byCommit[row.commit := row];
      }
    }
    assert ledger - rest == ledger;
  }

  // ---- the validation itself ----

  method CollectRequested(associations: seq<Association>) returns (once: bool, ids: seq<string>, commits: seq<string>)
    ensures once <==> NamesOnce(associations)
    ensures once ==> |ids| == |commits| == |associations|
    ensures once ==> forall i :: 0 <= i < |associations| ==>
        ids[i] == associations[i].id && commits[i] == associations[i].commit
  {
    ids, commits := [], [];
    var byId: map<string, Association> := map[];
    var byCommit: map<string, Association> := map[];
    for i := 0 to |associations|
      invariant |ids| == |commits| == i
      invariant forall j :: 0 <= j < i ==> ids[j] == associations[j].id && commits[j] == associations[j].commit
      invariant forall id :: id in byId <==> exists j :: 0 <= j < i && associations[j].id == id
      invariant forall c :: c in byCommit <==> exists j :: 0 <= j < i && associations[j].commit == c
      invariant forall j, k :: 0 <= j < k < i ==>
          associations[j].id != associations[k].id && associations[j].commit != associations[k].commit
    {
      var a := associations[i];
      if a.id in byId || a.commit in byCommit {
        return false, ids, commits;
      }
      byId := byId[a.id := a];
      byCommit := byCommit[a.commit := a];
      ids := ids + [a.id];
      commits := commits + [a.commit];
    }
    once := true;
  }

  lemma NoNewOnes(ledger: set<Binding>, owner: string, associations: seq<Association>)
    requires associations == []
    ensures NewOnes(ledger, owner, associations) == []
  {
  }

  lemma NewOnesNext(ledger: set<Binding>, owner: string, associations: seq<Association>, i: nat)
    requires i < |associations|
    ensures NewOnes(ledger, owner, associations[..i + 1]) ==
        NewOnes(ledger, owner, associations[..i])
          + if HasId(ledger, owner, associations[i].id) then [] else [associations[i]]
  {
    assert associations[..i + 1][..i] == associations[..i];
  }

  method ValidateBindings(ledger: set<Binding>, owner: string, transcript: Option<nat>, associations: seq<Association>)
    returns (r: Option<seq<Association>>)
    requires WellBound(ledger)
    ensures r == Validated(ledger, owner, transcript, associations)
  {
    if |associations| == 0 {
      return Some([]);
    }
    var once, ids, commits := CollectRequested(associations);
    if !once {
      return None;
    }
    var byId := ListByIds(ledger, owner, ids);
    hide HasId;
    hide HasRelation;
    var byCommit: map<string, Binding> := map[];
    if transcript.Some? {
      byCommit := ListByRelation(ledger, owner, transcript.value, commits);
    }
    var added: seq<Association> := [];
    hide NewOnes;
    NoNewOnes(ledger, owner, associations[..0]);
    hide WellBound;
    for i := 0 to |associations|
      invariant added == NewOnes(ledger, owner, associations[..i])
      invariant forall j :: 0 <= j < i ==>
          Replays(ledger, owner, transcript, associations[j]) || IsNew(ledger, owner, transcript, associations[j])
    {
      var a := associations[i];
      assert a in associations && ids[i] == a.id && commits[i] == a.commit;
      assert a.id in ids && a.commit in commits;
      NewOnesNext(ledger, owner, associations, i);
      if a.id in byId {
        var existing := byId[a.id];
        if transcript != Some(existing.transcript) || existing.commit != a.commit {
          NotAReplay(ledger, owner, transcript, a, existing);
          return None;
        }
        continue;
      }
      if a.commit in byCommit {
        assert HasRelation(ledger, owner, transcript, a.commit);
        assert !HasId(ledger, owner, a.id);
        return None;
      }
      added := added + [a];
    }
    assert associations[..|associations|] == associations;
    return Some(added);
  }

  lemma NotAReplay(ledger: set<Binding>, owner: string, transcript: Option<nat>, a: Association, existing: Binding)
    requires UniqueIds(ledger) && existing in ledger && existing.owner == owner && existing.id == a.id
    requires transcript != Some(existing.transcript) || existing.commit != a.commit
    ensures !Replays(ledger, owner, transcript, a) && !IsNew(ledger, owner, transcript, a)
  {
  }

  // ---- inserting ----

  lemma {:induction false} NewOnesAreRequested(ledger: set<Binding>, owner: string, associations: seq<Association>)
    ensures forall a :: a in NewOnes(ledger, owner, associations) <==> a in associations && !HasId(ledger, owner, a.id)
    ensures NamesOnce(associations) ==> NamesOnce(NewOnes(ledger, owner, associations))
  {
    if associations != [] {
      var n := |associations| - 1;
      var before, last := associations[..n], associations[n];
      NewOnesAreRequested(ledger, owner, before);
      assert associations == before + [last];
      if NamesOnce(associations) {
        NamedOnceNext(before, last, NewOnes(ledger, owner, before));
      }
    }
  }

  lemma NamedOnceNext(before: seq<Association>, last: Association, kept: seq<Association>)
    requires NamesOnce(before + [last]) && forall a :: a in kept ==> a in before
    ensures NamesOnce(before)
    ensures NamesOnce(kept) ==> NamesOnce(kept + [last])
  {
    var all := before + [last];
    assert forall i :: 0 <= i < |before| ==> all[i] == before[i];
    forall i | 0 <= i < |kept|
      ensures kept[i].id != last.id && kept[i].commit != last.commit
    {
      assert kept[i] in before;
      var j :| 0 <= j < |before| && before[j] == kept[i];
      assert all[j] == before[j] && all[|before|] == last;
    }
  }

  // Inserting what validation returned keeps both keys unique.
  lemma InsertKeepsWellBound(ledger: set<Binding>, owner: string, transcript: Option<nat>,
                             associations: seq<Association>, tid: nat)
    requires WellBound(ledger) && Acceptable(ledger, owner, transcript, associations)
    requires transcript == Some(tid) || (transcript == None && forall b :: b in ledger ==> b.transcript != tid)
    ensures WellBound(ledger + RowsOf(owner, tid, NewOnes(ledger, owner, associations)))
    ensures ledger <= ledger + RowsOf(owner, tid, NewOnes(ledger, owner, associations))
  {
    var added := NewOnes(ledger, owner, associations);
    var rows := RowsOf(owner, tid, added);
    NewOnesAreRequested(ledger, owner, associations);
    forall r | r in rows
      ensures !HasId(ledger, owner, r.id)
      ensures forall b :: b in ledger && b.owner == owner && b.transcript == tid ==> b.commit != r.commit
    {
      NewRowIsNew(ledger, owner, transcript, associations, tid, r);
    }
    forall a, b | a in rows && b in rows && (a.id == b.id || a.commit == b.commit)
      ensures a == b
    {
      var i :| 0 <= i < |added| && a == Binding(owner, added[i].id, tid, added[i].commit);
      var j :| 0 <= j < |added| && b == Binding(owner, added[j].id, tid, added[j].commit);
    }
  }

  lemma NewRowIsNew(ledger: set<Binding>, owner: string, transcript: Option<nat>, associations: seq<Association>,
                    tid: nat, r: Binding)
    requires Acceptable(ledger, owner, transcript, associations)
    requires transcript == Some(tid) || (transcript == None && forall b :: b in ledger ==> b.transcript != tid)
    requires r in RowsOf(owner, tid, NewOnes(ledger, owner, associations))
    ensures r.owner == owner && r.transcript == tid && !HasId(ledger, owner, r.id)
    ensures forall b :: b in ledger && b.owner == owner && b.transcript == tid ==> b.commit != r.commit
  {
    var added := NewOnes(ledger, owner, associations);
    NewOnesAreRequested(ledger, owner, associations);
    var i :| 0 <= i < |added| && r == Binding(owner, added[i].id, tid, added[i].commit);
    assert added[i] in added;
    assert IsNew(ledger, owner, transcript, added[i]);
  }

  // Publishing the same request again inserts nothing.
  lemma ReplayInsertsNothing(ledger: set<Binding>, owner: string, transcript: Option<nat>,
                             associations: seq<Association>, tid: nat)
    requires Acceptable(ledger, owner, transcript, associations)
    requires transcript == Some(tid) || transcript == None
    ensures transcript == None ==> forall a :: a in associations ==> IsNew(ledger, owner, transcript, a)
    ensures Validated(ledger + RowsOf(owner, tid, NewOnes(ledger, owner, associations)), owner, Some(tid),
        associations) == Some([])
  {
    var added := NewOnes(ledger, owner, associations);
    var after := ledger + RowsOf(owner, tid, added);
    NewOnesAreRequested(ledger, owner, associations);
    forall a | a in associations
      ensures Replays(after, owner, Some(tid), a) && HasId(after, owner, a.id)
    {
      if IsNew(ledger, owner, transcript, a) {
        assert a in added;
        var i :| 0 <= i < |added| && added[i] == a;
        assert Binding(owner, added[i].id, tid, added[i].commit) in RowsOf(owner, tid, added);
      }
      assert Binding(owner, a.id, tid, a.commit) in after;
    }
    NothingNew(after, owner, associations);
  }

  lemma {:induction false} NothingNew(ledger: set<Binding>, owner: string, associations: seq<Association>)
    requires forall a :: a in associations ==> HasId(ledger, owner, a.id)
    ensures NewOnes(ledger, owner, associations) == []
  {
    if associations != [] {
      NothingNew(ledger, owner, associations[..|associations| - 1]);
    }
  }

  // Rows about other ids and other relations do not change a verdict.
  lemma UnrelatedRows(ledger: set<Binding>, more: set<Binding>, owner: string, transcript: Option<nat>,
                      associations: seq<Association>)
    requires forall b, a :: b in more && a in associations && b.owner == owner ==> b.id != a.id
    requires forall b :: b in more && b.owner == owner && transcript.Some? ==> b.transcript != transcript.value
    ensures Validated(ledger + more, owner, transcript, associations) ==
        Validated(ledger, owner, transcript, associations)
  {
    forall a | a in associations
      ensures HasId(ledger + more, owner, a.id) <==> HasId(ledger, owner, a.id)
      ensures Replays(ledger + more, owner, transcript, a) <==> Replays(ledger, owner, transcript, a)
      ensures HasRelation(ledger + more, owner, transcript, a.commit) <==>
          HasRelation(ledger, owner, transcript, a.commit)
    {
      SameStanding(ledger, more, owner, transcript, a);
    }
    SameNewOnes(ledger, more, owner, associations);
  }

  lemma SameStanding(ledger: set<Binding>, more: set<Binding>, owner: string, transcript: Option<nat>, a: Association)
    requires forall b :: b in more && b.owner == owner ==> b.id != a.id
    requires forall b :: b in more && b.owner == owner && transcript.Some? ==> b.transcript != transcript.value
    ensures HasId(ledger + more, owner, a.id) <==> HasId(ledger, owner, a.id)
    ensures Replays(ledger + more, owner, transcript, a) <==> Replays(ledger, owner, transcript, a)
    ensures HasRelation(ledger + more, owner, transcript, a.commit) <==>
        HasRelation(ledger, owner, transcript, a.commit)
  {
    if HasId(ledger, owner, a.id) {
      var b :| b in ledger && b.owner == owner && b.id == a.id;
      assert b in ledger + more;
    }
    if HasRelation(ledger, owner, transcript, a.commit) {
      var b :| b in ledger && b.owner == owner && b.transcript == transcript.value && b.commit == a.commit;
      assert b in ledger + more;
    }
  }

  lemma {:induction false} SameNewOnes(ledger: set<Binding>, more: set<Binding>, owner: string,
                                       associations: seq<Association>)
    requires forall a :: a in associations ==> (HasId(ledger + more, owner, a.id) <==> HasId(ledger, owner, a.id))
    ensures NewOnes(ledger + more, owner, associations) == NewOnes(ledger, owner, associations)
  {
    if associations != [] {
      var n := |associations| - 1;
      assert associations[n] in associations;
      SameNewOnes(ledger, more, owner, associations[..n]);
    }
  }
}

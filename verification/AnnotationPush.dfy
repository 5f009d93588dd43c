// upsertAnnotationsBulk: one result for each pushed annotation.
module AnnotationPush {
  import opened AnnotationStore

  // A pushed annotation; its provenance may not marshal.
  datatype Item<B> = Item(record: Record<B>, provenanceOk: bool)

  datatype Status = StatusCreated | StatusUpdated | StatusError(message: string)

  datatype Outcome = Outcome(hash: string, status: Status)

  datatype Response = Response(results: seq<Outcome>, created: int, updated: int, errors: int)

  // What the database answers: a failed statement, or its RETURNING rows.
  datatype Reply<B> = Failed | Stored(store: Store<B>, created: map<string, bool>)

  function Usable<B>(items: seq<Item<B>>): seq<Record<B>> {
    if items == [] then []
    else
      var n := |items| - 1;
      Usable(items[..n]) + if items[n].provenanceOk then [items[n].record] else []
  }

  // The statement, when it succeeds, returns one row for each record.
  function BulkUpsert<B>(store: Store<B>, records: seq<Record<B>>, now: int, fails: bool): Reply<B>
    requires DistinctHashes(records)
  {
    if fails then Failed
    else
      var after := OneStatement(store, records, now);
      Stored(after, map h | h in Hashes(records) :: Created(after[h]))
  }

  // The outcome a push promises for one item.
  function Promised<B>(item: Item<B>, after: Store<B>, fails: bool): Outcome {
    Outcome(item.record.hash,
      if !item.provenanceOk then StatusError("invalid provenance JSON")
      else if fails || item.record.hash !in after then StatusError("failed to store annotation")
      else if Created(after[item.record.hash]) then StatusCreated
      else StatusUpdated)
  }

  function Tally(results: seq<Outcome>, p: Status -> bool): nat {
    if results == [] then 0
    else
      var n := |results| - 1;
      Tally(results[..n], p) + if p(results[n].status) then 1 else 0
  }

  function IsCreated(): Status -> bool { s => s == StatusCreated }

  function IsUpdated(): Status -> bool { s => s == StatusUpdated }

  function IsError(): Status -> bool { (s: Status) => s.StatusError? }

  // Every result is counted once.
  lemma {:induction false} TalliesAddUp(results: seq<Outcome>)
    ensures Tally(results, IsCreated()) + Tally(results, IsUpdated()) + Tally(results, IsError()) == |results|
  {
    if results != [] {
      TalliesAddUp(results[..|results| - 1]);
    }
  }

  ghost predicate Counts(before: Response, r: Response, added: seq<Outcome>) {
    && r.results == before.results + added
    && r.created == before.created + Tally(added, IsCreated())
    && r.updated == before.updated + Tally(added, IsUpdated())
    && r.errors == before.errors + Tally(added, IsError())
  }

  function Add(r: Response, o: Outcome): Response {
    match o.status
    case StatusCreated => r.(results := r.results + [o], created := r.created + 1)
    case StatusUpdated => r.(results := r.results + [o], updated := r.updated + 1)
    case StatusError(_) => r.(results := r.results + [o], errors := r.errors + 1)
  }

  lemma TallySnoc(added: seq<Outcome>, o: Outcome, p: Status -> bool)
    ensures Tally(added + [o], p) == Tally(added, p) + if p(o.status) then 1 else 0
  {
    assert (added + [o])[..|added|] == added;
  }

  lemma AddCounts(before: Response, r: Response, added: seq<Outcome>, o: Outcome)
    requires Counts(before, r, added)
    ensures Counts(before, Add(r, o), added + [o])
  {
    TallySnoc(added, o, IsCreated());
    TallySnoc(added, o, IsUpdated());
    TallySnoc(added, o, IsError());
    hide Tally;
    assert before.results + added + [o] == before.results + (added + [o]);
  }

  // Some usable item carries that hash.
  predicate Carries<B>(items: seq<Item<B>>, hash: string) {
    exists i :: 0 <= i < |items| && items[i].provenanceOk && items[i].record.hash == hash
  }

  lemma {:induction false} UsableHas<B>(items: seq<Item<B>>, hash: string)
    ensures Has(Usable(items), hash) <==> Carries(items, hash)
  {
    if items != [] {
      var n := |items| - 1;
      UsableHas(items[..n], hash);
      var front := Usable(items[..n]);
      if items[n].provenanceOk {
        HasSnoc(Usable(items), hash);
        assert Usable(items)[..|front|] == front && Usable(items)[|front|] == items[n].record;
      } else {
        assert Usable(items) == front;
      }
      CarriesSnoc(items, hash);
      hide Has;
      hide Carries;
    }
  }

  lemma CarriesSnoc<B>(items: seq<Item<B>>, hash: string)
    requires items != []
    ensures var n := |items| - 1;
            Carries(items, hash) <==>
              Carries(items[..n], hash) || (items[n].provenanceOk && items[n].record.hash == hash)
  {
    var n := |items| - 1;
    if Carries(items, hash) {
      var i :| 0 <= i < |items| && items[i].provenanceOk && items[i].record.hash == hash;
      assert i < n ==> items[..n][i] == items[i];
    }
    if Carries(items[..n], hash) {
      var i :| 0 <= i < n && items[..n][i].provenanceOk && items[..n][i].record.hash == hash;
      assert items[i] == items[..n][i];
    }
  }

  // The statement stores every usable record's hash.
  lemma UsableIsStored<B>(store: Store<B>, items: seq<Item<B>>, now: int, i: nat)
    requires i < |items| && items[i].provenanceOk
    ensures DistinctHashes(Deduped(Usable(items)))
    ensures items[i].record.hash in Hashes(Deduped(Usable(items)))
    ensures items[i].record.hash in OneStatement(store, Deduped(Usable(items)), now)
  {
    UsableHas(items, items[i].record.hash);
    DedupedExactly(Usable(items), items[i].record.hash);
    HashesAre(Deduped(Usable(items)), items[i].record.hash);
  }

  // What the loop over the items relies on: each usable item is among the rows
  // a successful statement returned.
  ghost predicate Knows<B>(items: seq<Item<B>>, reply: Reply<B>, after: Store<B>) {
    reply.Stored? ==> forall i :: 0 <= i < |items| && items[i].provenanceOk ==>
      && items[i].record.hash in reply.created && items[i].record.hash in after
      && reply.created[items[i].record.hash] == Created(after[items[i].record.hash])
  }

  lemma ReplyKnows<B>(store: Store<B>, items: seq<Item<B>>, now: int, fails: bool)
    ensures DistinctHashes(Deduped(Usable(items)))
    ensures !fails ==> Knows(items, BulkUpsert(store, Deduped(Usable(items)), now, fails),
        OneStatement(store, Deduped(Usable(items)), now))
  {
    DedupedExactly(Usable(items), "");
    forall i | 0 <= i < |items| && items[i].provenanceOk
      ensures items[i].record.hash in Hashes(Deduped(Usable(items)))
      ensures items[i].record.hash in OneStatement(store, Deduped(Usable(items)), now)
    {
      UsableIsStored(store, items, now, i);
    }
  }

  lemma NothingUsable<B>(store: Store<B>, items: seq<Item<B>>, now: int)
    requires Usable(items) == []
    ensures Deduped(Usable(items)) == [] && OneStatement(store, [], now) == store
    ensures Knows(items, Stored(store, map[]), store)
  {
    forall i | 0 <= i < |items|
      ensures !items[i].provenanceOk
    {
      UsableHas(items, items[i].record.hash);
    }
  }

  method Records<B>(items: seq<Item<B>>) returns (records: seq<Record<B>>)
    ensures records == Usable(items)
  {
    records := [];
    for i := 0 to |items|
      invariant records == Usable(items[..i])
    {
      assert items[..i + 1][..i] == items[..i];
      if items[i].provenanceOk {
        records := records + [items[i].record];
      }
    }
    assert items[..|items|] == items;
  }

  // The store and the outcomes of a push: nothing is stored when the statement
  // fails or nothing is usable.
  method UpsertAnnotationsBulk<B>(store: Store<B>, items: seq<Item<B>>, now: int, fails: bool, before: Response)
    returns (after: Store<B>, r: Response, ghost added: seq<Outcome>)
    ensures DistinctHashes(Deduped(Usable(items)))
    ensures after == if fails then store else OneStatement(store, Deduped(Usable(items)), now)
    ensures |added| == |items| && forall i :: 0 <= i < |items| ==> added[i] == Promised(items[i], after, fails)
    ensures !fails ==> forall i :: 0 <= i < |items| && items[i].provenanceOk ==> !added[i].status.StatusError?
    ensures Counts(before, r, added)
    ensures r.created + r.updated + r.errors == before.created + before.updated + before.errors + |items|
  {
    hide OneStatement;
    hide Deduped;
    hide Usable;
    hide Counts;
    hide Add;
    ReplyKnows(store, items, now, false);
    added := [];
    after, r := store, before;
    NothingCounted(before);
    if |items| == 0 {
      NoItems(items);
      NothingUsable(store, items, now);
      return;
    }
    var records := Records(items);
    var reply: Reply<B> := if fails then Failed else Stored(store, map[]);
    if |records| > 0 {
      var kept := Dedupe(records);
      reply := BulkUpsert(store, kept, now, fails);
      if reply.Stored? {
        after := reply.store;
      }
    } else {
      NothingUsable(store, items, now);
    }
    assert reply.Stored? <==> !fails;
    assert Knows(items, reply, after);
    hide BulkUpsert;
    for i := 0 to |items|
      invariant |added| == i && Counts(before, r, added)
      invariant forall j :: 0 <= j < i ==> added[j] == Promised(items[j], after, fails)
    {
      var status := StatusOf(items[i], reply);
      AddCounts(before, r, added, Outcome(items[i].record.hash, status));
      r := Add(r, Outcome(items[i].record.hash, status));
      added := added + [Outcome(items[i].record.hash, status)];
    }
    CountsAddUp(before, r, added);
  }

  // The switch over one item's outcome.
  function StatusOf<B>(item: Item<B>, reply: Reply<B>): Status {
    if !item.provenanceOk then StatusError("invalid provenance JSON")
    else if reply.Failed? then StatusError("failed to store annotation")
    else if item.record.hash !in reply.created then StatusError("failed to store annotation")
    else if reply.created[item.record.hash] then StatusCreated
    else StatusUpdated
  }

  lemma NoItems<B>(items: seq<Item<B>>)
    requires items == []
    ensures Usable(items) == []
  {
  }

  lemma NothingCounted(before: Response)
    ensures Counts(before, before, [])
  {
  }

  lemma CountsAddUp(before: Response, r: Response, added: seq<Outcome>)
    requires Counts(before, r, added)
    ensures r.created + r.updated + r.errors == before.created + before.updated + before.errors + |added|
  {
    TalliesAddUp(added);
  }
}

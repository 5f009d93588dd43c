// Storing a push of annotations in one statement, against storing them one by one.
module AnnotationStore {

  // One owner's annotations, by content hash.
  datatype Record<B> = Record(hash: string, body: B)

  datatype Row<B> = Row(body: B, createdAt: int, updatedAt: int)

  type Store<B> = map<string, Row<B>>

  // INSERT ... ON CONFLICT (owner_id, content_hash) DO UPDATE SET updated_at = now():
  // a row already there keeps its content.
  function Upsert<B>(store: Store<B>, r: Record<B>, now: int): Store<B> {
    store[r.hash := if r.hash in store then store[r.hash].(updatedAt := now) else Row(r.body, now, now)]
  }

  // One statement for each record, in order, within one transaction.
  function OneByOne<B>(store: Store<B>, records: seq<Record<B>>, now: int): Store<B> {
    if records == [] then store
    else
      var n := |records| - 1;
      Upsert(OneByOne(store, records[..n], now), records[n], now)
  }

  // RETURNING created_at = updated_at
  predicate Created<B>(row: Row<B>) { row.createdAt == row.updatedAt }

  predicate Has<B>(records: seq<Record<B>>, hash: string) {
    exists i :: 0 <= i < |records| && records[i].hash == hash
  }

  function Hashes<B>(records: seq<Record<B>>): set<string> { set i | 0 <= i < |records| :: records[i].hash }

  predicate DistinctHashes<B>(records: seq<Record<B>>) {
    forall i, j :: 0 <= i < j < |records| ==> records[i].hash != records[j].hash
  }

  // The content of the first and of the last record with this hash.
  function First<B>(records: seq<Record<B>>, hash: string): (r: B)
    requires Has(records, hash)
    ensures exists i :: 0 <= i < |records| && records[i] == Record(hash, r)
  {
    if records[0].hash == hash then records[0].body else First(records[1..], hash)
  }

  function Last<B>(records: seq<Record<B>>, hash: string): (r: B)
    requires Has(records, hash)
    ensures exists i :: 0 <= i < |records| && records[i] == Record(hash, r)
  {
    var n := |records| - 1;
    if records[n].hash == hash then records[n].body else Last(records[..n], hash)
  }

  // The single statement over records with distinct hashes.
  function OneStatement<B>(store: Store<B>, records: seq<Record<B>>, now: int): Store<B>
    requires DistinctHashes(records)
  {
    map h | h in store.Keys + Hashes(records) ::
      if !Has(records, h) then store[h]
      else if h in store then store[h].(updatedAt := now)
      else Row(Last(records, h), now, now)
  }

  // ---- keeping the last record of each hash ----

  predicate IsLast<B>(records: seq<Record<B>>, i: nat)
    requires i < |records|
  {
    forall j :: i < j < |records| ==> records[j].hash != records[i].hash
  }

  function KeptAmong<B>(records: seq<Record<B>>, n: nat): seq<Record<B>>
    requires n <= |records|
  {
    if n == 0 then [] else KeptAmong(records, n - 1) + if IsLast(records, n - 1) then [records[n - 1]] else []
  }

  function Deduped<B>(records: seq<Record<B>>): seq<Record<B>> { KeptAmong(records, |records|) }

  lemma {:induction false} KeptIsLast<B>(records: seq<Record<B>>, n: nat, r: Record<B>) returns (i: nat)
    requires n <= |records| && r in KeptAmong(records, n)
    ensures i < n && records[i] == r && IsLast(records, i)
  {
    if IsLast(records, n - 1) && records[n - 1] == r {
      i := n - 1;
    } else {
      assert r in KeptAmong(records, n - 1);
      i := KeptIsLast(records, n - 1, r);
    }
  }

  lemma {:induction false} LastIsKept<B>(records: seq<Record<B>>, n: nat, i: nat)
    requires i < n <= |records| && IsLast(records, i)
    ensures records[i] in KeptAmong(records, n)
  {
    if i < n - 1 {
      LastIsKept(records, n - 1, i);
    }
  }

  lemma {:induction false} KeptDistinct<B>(records: seq<Record<B>>, n: nat)
    requires n <= |records|
    ensures DistinctHashes(KeptAmong(records, n))
  {
    if n > 0 {
      KeptDistinct(records, n - 1);
      var before := KeptAmong(records, n - 1);
      if IsLast(records, n - 1) {
        forall k | 0 <= k < |before|
          ensures before[k].hash != records[n - 1].hash
        {
          var i := KeptIsLast(records, n - 1, before[k]);
        }
      }
    }
  }

  lemma {:induction false} LastIs<B>(records: seq<Record<B>>, i: nat)
    requires i < |records| && IsLast(records, i)
    ensures Has(records, records[i].hash) && Last(records, records[i].hash) == records[i].body
  {
    var n := |records| - 1;
    if i < n {
      assert IsLast(records[..n], i);
      LastIs(records[..n], i);
    }
  }

  lemma {:induction false} SomeLast<B>(records: seq<Record<B>>, hash: string) returns (i: nat)
    requires Has(records, hash)
    ensures i < |records| && records[i].hash == hash && IsLast(records, i)
  {
    var n := |records| - 1;
    if records[n].hash == hash {
      i := n;
    } else {
      var k :| 0 <= k < |records| && records[k].hash == hash;
      assert records[..n][k].hash == hash;
      i := SomeLast(records[..n], hash);
    }
  }

  // One record is kept for each hash, and it is the last one.
  lemma DedupedExactly<B>(records: seq<Record<B>>, hash: string)
    ensures DistinctHashes(Deduped(records))
    ensures Has(Deduped(records), hash) <==> Has(records, hash)
    ensures Has(records, hash) ==> Last(Deduped(records), hash) == Last(records, hash)
  {
    KeptDistinct(records, |records|);
    var kept := Deduped(records);
    if Has(kept, hash) {
      var k :| 0 <= k < |kept| && kept[k].hash == hash;
      LastIs(kept, k);
      var i := KeptIsLast(records, |records|, kept[k]);
      LastIs(records, i);
    }
    if Has(records, hash) {
      var i := SomeLast(records, hash);
      LastIsKept(records, |records|, i);
      var k :| 0 <= k < |kept| && kept[k] == records[i];
      assert kept[k].hash == hash;
    }
  }

  // dedupeAnnotationRecords
  method Dedupe<B>(records: seq<Record<B>>) returns (kept: seq<Record<B>>)
    ensures kept == Deduped(records)
  {
    if |records| < 2 {
      if |records| == 1 {
        assert IsLast(records, 0) && KeptAmong(records, 0) == [];
      }
      return records;
    }
    var last: map<string, nat> := map[];
    for i := 0 to |records|
      invariant forall j :: 0 <= j < i ==> records[j].hash in last && j <= last[records[j].hash]
      invariant forall h :: h in last ==> last[h] < i && records[last[h]].hash == h
    {
      last := last[records[i].hash := i];
    }
    kept := [];
    for i := 0 to |records|
      invariant kept == KeptAmong(records, i)
    {
      assert last[records[i].hash] == i <==> IsLast(records, i) by {
        if last[records[i].hash] != i {
          assert records[last[records[i].hash]].hash == records[i].hash;
        }
      }
      if last[records[i].hash] == i {
        kept := kept + [records[i]];
      }
    }
  }

  // ---- one statement against one by one ----

  lemma {:induction false} OneByOneRow<B>(store: Store<B>, records: seq<Record<B>>, now: int, hash: string)
    ensures hash in OneByOne(store, records, now) <==> hash in store || Has(records, hash)
    ensures !Has(records, hash) && hash in store ==> OneByOne(store, records, now)[hash] == store[hash]
    ensures Has(records, hash) && hash in store ==>
        OneByOne(store, records, now)[hash] == store[hash].(updatedAt := now)
    ensures Has(records, hash) && hash !in store ==>
        OneByOne(store, records, now)[hash] == Row(First(records, hash), now, now)
  {
    if records != [] {
      var n := |records| - 1;
      OneByOneRow(store, records[..n], now, hash);
      HasSnoc(records, hash);
      if Has(records[..n], hash) {
        FirstSnoc(records, hash);
      } else if records[n].hash == hash {
        FirstNew(records, hash);
      }
    }
  }

  lemma HasSnoc<B>(records: seq<Record<B>>, hash: string)
    requires records != []
    ensures Has(records, hash) <==> Has(records[..|records| - 1], hash) || records[|records| - 1].hash == hash
  {
    var n := |records| - 1;
    if Has(records, hash) && records[n].hash != hash {
      var i :| 0 <= i < |records| && records[i].hash == hash;
      assert records[..n][i].hash == hash;
    }
    if Has(records[..n], hash) {
      var i :| 0 <= i < n && records[..n][i].hash == hash;
      assert records[i].hash == hash;
    }
  }

  lemma {:induction false} FirstSnoc<B>(records: seq<Record<B>>, hash: string)
    requires records != [] && Has(records[..|records| - 1], hash) && Has(records, hash)
    ensures First(records, hash) == First(records[..|records| - 1], hash)
  {
    var n := |records| - 1;
    if records[0].hash != hash {
      assert records[1..][..n - 1] == records[..n][1..];
      var i :| 0 <= i < n && records[..n][i].hash == hash;
      assert records[..n][1..][i - 1].hash == hash;
      assert records[1..][i - 1].hash == hash;
      FirstSnoc(records[1..], hash);
    }
  }

  lemma {:induction false} FirstNew<B>(records: seq<Record<B>>, hash: string)
    requires records != [] && !Has(records[..|records| - 1], hash) && records[|records| - 1].hash == hash
    ensures Has(records, hash) && First(records, hash) == records[|records| - 1].body
  {
    var n := |records| - 1;
    if n > 0 {
      assert records[..n][0].hash != hash;
      assert records[1..][..n - 1] == records[..n][1..];
      forall i | 0 <= i < n - 1
        ensures records[1..][i].hash != hash
      {
        assert records[..n][i + 1].hash != hash;
      }
      FirstNew(records[1..], hash);
    }
  }

  // A hash new to the store has one content in its first and its last record.
  ghost predicate SameEnds<B>(store: Store<B>, records: seq<Record<B>>, h: string) {
    Has(records, h) && h !in store ==> First(records, h) == Last(records, h)
  }

  lemma RowsAgree<B>(store: Store<B>, records: seq<Record<B>>, now: int, h: string)
    requires DistinctHashes(Deduped(records))
    ensures h in OneStatement(store, Deduped(records), now) <==> h in OneByOne(store, records, now)
    ensures !SameEnds(store, records, h) ==> h in OneByOne(store, records, now)
    ensures h in OneByOne(store, records, now) ==>
              (OneStatement(store, Deduped(records), now)[h] == OneByOne(store, records, now)[h] <==>
                SameEnds(store, records, h))
  {
    OneByOneRow(store, records, now, h);
    DedupedExactly(records, h);
    HashesAre(Deduped(records), h);
    hide Deduped;
    hide OneByOne;
    hide Hashes;
    hide Has;
  }

  // The statement over the deduplicated records leaves what storing every
  // record one by one leaves if and only if each hash new to the store has one
  // and the same content in its first and its last record.
  lemma BulkMatchesExactly<B>(store: Store<B>, records: seq<Record<B>>, now: int)
    ensures DistinctHashes(Deduped(records))
    ensures OneStatement(store, Deduped(records), now) == OneByOne(store, records, now) <==>
        forall h :: SameEnds(store, records, h)
  {
    KeptDistinct(records, |records|);
    hide OneStatement;
    hide OneByOne;
    hide Deduped;
    hide SameEnds;
    var bulk, single := OneStatement(store, Deduped(records), now), OneByOne(store, records, now);
    forall h
      ensures (h in bulk <==> h in single) && (!SameEnds(store, records, h) ==> h in single)
      ensures h in single ==> (bulk[h] == single[h] <==> SameEnds(store, records, h))
    {
      RowsAgree(store, records, now, h);
    }
    if forall h :: SameEnds(store, records, h) {
      assert bulk.Keys == single.Keys;
      assert bulk == single;
    }
  }

  lemma HashesAre<B>(records: seq<Record<B>>, hash: string)
    ensures hash in Hashes(records) <==> Has(records, hash)
  {
  }

  // Whatever the contents, both leave the same hashes with the same times.
  lemma BulkMatchesTimes<B>(store: Store<B>, records: seq<Record<B>>, now: int, hash: string)
    ensures DistinctHashes(Deduped(records))
    ensures hash in OneStatement(store, Deduped(records), now) <==> hash in OneByOne(store, records, now)
    ensures hash in OneByOne(store, records, now) ==>
              var bulk, single := OneStatement(store, Deduped(records), now)[hash], OneByOne(store, records, now)[hash];
              bulk.createdAt == single.createdAt && bulk.updatedAt == single.updatedAt
                && (hash in store ==> bulk == single)
  {
    OneByOneRow(store, records, now, hash);
    DedupedExactly(records, hash);
    HashesAre(Deduped(records), hash);
  }

  // A hash sent twice with different contents: one by one the first is kept, in
  // bulk the last.
  lemma DuplicatesDiffer<B>(a: B, b: B, hash: string, now: int)
    requires a != b
    ensures OneByOne(map[], [Record(hash, a), Record(hash, b)], now) == map[hash := Row(a, now, now)]
    ensures DistinctHashes(Deduped([Record(hash, a), Record(hash, b)]))
    ensures OneStatement(map[], Deduped([Record(hash, a), Record(hash, b)]), now) == map[hash := Row(b, now, now)]
  {
    FirstStays(a, b, hash, now);
    LastReplaces(a, b, hash, now);
  }

  lemma FirstStays<B>(a: B, b: B, hash: string, now: int)
    ensures OneByOne(map[], [Record(hash, a), Record(hash, b)], now) == map[hash := Row(a, now, now)]
  {
    var records := [Record(hash, a), Record(hash, b)];
    assert records[..1] == [Record(hash, a)] && [Record(hash, a)][..0] == [];
    assert OneByOne(map[], [Record(hash, a)], now) == Upsert(map[], Record(hash, a), now);
    assert OneByOne(map[], records, now) == Upsert(OneByOne(map[], records[..1], now), records[1], now);
  }

  lemma LastReplaces<B>(a: B, b: B, hash: string, now: int)
    ensures DistinctHashes(Deduped([Record(hash, a), Record(hash, b)]))
    ensures OneStatement(map[], Deduped([Record(hash, a), Record(hash, b)]), now) == map[hash := Row(b, now, now)]
  {
    var records := [Record(hash, a), Record(hash, b)];
    DedupedExactly(records, hash);
    hide Deduped;
    hide DistinctHashes;
    var bulk := OneStatement(map[], Deduped(records), now);
    assert records[0].hash == records[1].hash == hash;
    forall h
      ensures h in bulk <==> h == hash
    {
      DedupedExactly(records, h);
      HashesAre(Deduped(records), h);
    }
    assert Last(records, hash) == b;
  }
}

// writeBatchShare: one transaction that shares every selected transcript.
module BatchShare {
  import opened Options
  import opened Sequences
  import opened Governance

  // The rows, and each transcript and collective with a live share attempt.
  datatype Db = Db(rows: map<int, Row>, live: set<(int, int)>)

  datatype Request = Request(
    user: int,
    group: int,
    status: string,
    currentStatus: string,
    candidates: seq<int>,
    confirmed: bool,
    project: string,
    preflightLive: set<int>,
    conflicts: set<int>)

  datatype Refusal = PolicyChanged | Missing | Foreign | StateChanged | Conflict | ConsentNeeded | PatchFailed
    | NothingNew

  datatype Tx = Tx(db: Db, shared: seq<int>, already: seq<int>)

  // One candidate.
  function ShareOne(req: Request, tx: Tx, id: int): Result<Tx, Refusal> {
    if id !in tx.db.rows then Err(Missing)
    else
      var row := tx.db.rows[id];
      var isLive := (id, req.group) in tx.db.live;
      if row.owner != req.user || row.project != req.project then Err(Foreign)
      else if isLive != (id in req.preflightLive) then Err(StateChanged)
      else if isLive then Ok(tx.(already := tx.already + [id]))
      else if id in req.conflicts then Err(Conflict)
      else
        var submitted := tx.(db := tx.db.(live := tx.db.live + {(id, req.group)}), shared := tx.shared + [id]);
        if row.visibility != Private then Ok(submitted)
        else if !req.confirmed then Err(ConsentNeeded)
        else
          var flipped := Patched(row, SetVisibility(Shared));
          if flipped.Err? then Err(PatchFailed)
          else Ok(submitted.(db := submitted.db.(rows := submitted.db.rows[id := flipped.value])))
  }

  function ShareAll(req: Request, db: Db, n: nat): Result<Tx, Refusal>
    requires n <= |req.candidates|
  {
    if n == 0 then Ok(Tx(db, [], []))
    else
      var before := ShareAll(req, db, n - 1);
      if before.Err? then before else ShareOne(req, before.value, req.candidates[n - 1])
  }

  function Outcome(req: Request, db: Db): Result<Tx, Refusal> {
    if req.currentStatus != req.status then Err(PolicyChanged)
    else
      var all := ShareAll(req, db, |req.candidates|);
      if all.Ok? && all.value.shared == [] then Err(NothingNew) else all
  }

  // The database after the transaction: nothing of a refused batch remains.
  method WriteBatchShare(req: Request, db: Db) returns (after: Db, r: Result<Tx, Refusal>)
    ensures r == Outcome(req, db)
    ensures after == if r.Ok? then r.value.db else db
  {
    if req.currentStatus != req.status {
      return db, Err(PolicyChanged);
    }
    var tx := Tx(db, [], []);
    for i := 0 to |req.candidates|
      invariant ShareAll(req, db, i) == Ok(tx)
    {
      var next := ShareOne(req, tx, req.candidates[i]);
      if next.Err? {
        StaysRefused(req, db, i + 1, |req.candidates|);
        return db, next;
      }
      tx := next.value;
    }
    if |tx.shared| == 0 {
      return db, Err(NothingNew);
    }
    return tx.db, Ok(tx);
  }

  lemma {:induction false} StaysRefused(req: Request, db: Db, m: nat, n: nat)
    requires m <= n <= |req.candidates| && ShareAll(req, db, m).Err?
    ensures ShareAll(req, db, n) == ShareAll(req, db, m)
  {
    if m < n {
      StaysRefused(req, db, m, n - 1);
    }
  }

  // ---- what one candidate must be ----

  predicate IsLive(req: Request, db: Db, id: int) { (id, req.group) in db.live }

  predicate Acceptable(req: Request, db: Db, id: int) {
    && id in db.rows && db.rows[id].owner == req.user && db.rows[id].project == req.project
    && (IsLive(req, db, id) <==> id in req.preflightLive)
    && (!IsLive(req, db, id) ==> id !in req.conflicts && (db.rows[id].visibility == Private ==> req.confirmed))
  }

  function Fresh(req: Request, db: Db): int -> bool { id => !IsLive(req, db, id) }

  function AlreadyLive(req: Request, db: Db): int -> bool { id => IsLive(req, db, id) }

  // The database once these transcripts are shared.
  function SharedDb(req: Request, db: Db, ids: seq<int>): Db {
    Db(map id | id in db.rows ::
         if id in ids && !IsLive(req, db, id) && db.rows[id].visibility == Private
           then db.rows[id].(visibility := Shared)
         else db.rows[id],
       db.live + set id | id in ids :: (id, req.group))
  }

  ghost predicate GoesWell(req: Request, db: Db, n: nat)
    requires n <= |req.candidates|
  {
    forall i :: 0 <= i < n ==> Acceptable(req, db, req.candidates[i])
  }

  function SharedTx(req: Request, db: Db, n: nat): Tx
    requires n <= |req.candidates|
  {
    var ids := req.candidates[..n];
    Tx(SharedDb(req, db, ids), Filter(Fresh(req, db), ids), Filter(AlreadyLive(req, db), ids))
  }

  // What the next candidate finds: nothing of it has been touched.
  lemma UntouchedYet(req: Request, db: Db, n: nat)
    requires n < |req.candidates| && Distinct(req.candidates)
    ensures req.candidates[n] !in req.candidates[..n]
    ensures req.candidates[n] in SharedTx(req, db, n).db.rows <==> req.candidates[n] in db.rows
    ensures req.candidates[n] in db.rows ==>
        SharedTx(req, db, n).db.rows[req.candidates[n]] == db.rows[req.candidates[n]]
    ensures (req.candidates[n], req.group) in SharedTx(req, db, n).db.live <==> IsLive(req, db, req.candidates[n])
  {
    var ids, id := req.candidates[..n], req.candidates[n];
    assert id !in ids;
  }

  lemma SharedTxNext(req: Request, db: Db, n: nat)
    requires n < |req.candidates| && Distinct(req.candidates) && req.candidates[n] in db.rows
    ensures var tx, next, id := SharedTx(req, db, n), SharedTx(req, db, n + 1), req.candidates[n];
            if IsLive(req, db, id) then next == tx.(already := tx.already + [id])
            else
              && next.shared == tx.shared + [id] && next.already == tx.already
              && next.db.live == tx.db.live + {(id, req.group)}
              && next.db.rows == if db.rows[id].visibility == Private
                then tx.db.rows[id := db.rows[id].(visibility := Shared)] else tx.db.rows
  {
    var ids, id := req.candidates[..n], req.candidates[n];
    UntouchedYet(req, db, n);
    assert req.candidates[..n + 1] == ids + [id];
    FilterConcat(Fresh(req, db), ids, [id]);
    FilterConcat(AlreadyLive(req, db), ids, [id]);
    FilterOne(Fresh(req, db), id);
    FilterOne(AlreadyLive(req, db), id);
    hide Filter;
    hide SharedDb;
    SharedDbSnoc(req, db, ids, id);
    hide IsLive;
  }

  lemma ShareOneExactly(req: Request, db: Db, n: nat)
    requires n < |req.candidates| && Distinct(req.candidates)
    ensures ShareOne(req, SharedTx(req, db, n), req.candidates[n]).Ok? <==> Acceptable(req, db, req.candidates[n])
    ensures Acceptable(req, db, req.candidates[n]) ==>
        ShareOne(req, SharedTx(req, db, n), req.candidates[n]) == Ok(SharedTx(req, db, n + 1))
  {
    UntouchedYet(req, db, n);
    if Acceptable(req, db, req.candidates[n]) {
      SharedTxNext(req, db, n);
      hide SharedTx;
    }
    hide SharedTx;
  }

  lemma SharedDbSnoc(req: Request, db: Db, ids: seq<int>, id: int)
    requires id !in ids && id in db.rows
    ensures SharedDb(req, db, ids + [id]).live == SharedDb(req, db, ids).live + {(id, req.group)}
    ensures SharedDb(req, db, ids + [id]).rows ==
            if !IsLive(req, db, id) && db.rows[id].visibility == Private
            then SharedDb(req, db, ids).rows[id := db.rows[id].(visibility := Shared)]
            else SharedDb(req, db, ids).rows
    ensures IsLive(req, db, id) ==> SharedDb(req, db, ids + [id]) == SharedDb(req, db, ids)
  {
  }

  lemma {:induction false} ShareAllExactly(req: Request, db: Db, n: nat)
    requires n <= |req.candidates| && Distinct(req.candidates)
    ensures ShareAll(req, db, n).Ok? <==> GoesWell(req, db, n)
    ensures GoesWell(req, db, n) ==> ShareAll(req, db, n) == Ok(SharedTx(req, db, n))
  {
    hide Acceptable;
    hide ShareOne;
    if n == 0 {
      NothingShared(req, db);
    } else {
      ShareAllExactly(req, db, n - 1);
      if GoesWell(req, db, n - 1) {
        hide SharedTx;
        ShareOneExactly(req, db, n - 1);
      }
    }
  }

  lemma NothingShared(req: Request, db: Db)
    ensures SharedTx(req, db, 0) == Tx(db, [], [])
  {
    assert SharedDb(req, db, []).rows == db.rows;
    assert SharedDb(req, db, []).live == db.live;
  }

  // A batch is written exactly when the policy stood still, every selected
  // transcript is the owner's, unchanged since the request, free to submit and,
  // if private, consented to, and one of them is new; then every new one is
  // submitted and none is left private. Otherwise nothing is written.
  lemma BatchExactly(req: Request, db: Db)
    requires Distinct(req.candidates)
    ensures Outcome(req, db).Ok? <==>
            && req.currentStatus == req.status
            && GoesWell(req, db, |req.candidates|)
            && exists i :: 0 <= i < |req.candidates| && Fresh(req, db)(req.candidates[i])
    ensures Outcome(req, db).Ok? ==> Outcome(req, db) == Ok(SharedTx(req, db, |req.candidates|))
  {
    var n := |req.candidates|;
    assert req.candidates[..n] == req.candidates;
    ShareAllExactly(req, db, n);
    hide ShareAll;
    hide GoesWell;
    hide SharedDb;
    hide IsLive;
    var offered := Filter(Fresh(req, db), req.candidates);
    if i :| 0 <= i < n && Fresh(req, db)(req.candidates[i]) {
      assert req.candidates[i] in offered;
    } else if offered != [] {
      assert offered[0] in offered;
    }
  }

  // A private transcript becomes shared only in a written batch with consent;
  // no other row changes, and no license ever does.
  lemma ConsentIsNeeded(req: Request, db: Db, id: int)
    requires Distinct(req.candidates) && Outcome(req, db).Ok? && id in db.rows
    ensures id in Outcome(req, db).value.db.rows && Outcome(req, db).value.db.rows[id].license == db.rows[id].license
    ensures Outcome(req, db).value.db.rows[id] != db.rows[id] ==>
              && req.confirmed && req.user == db.rows[id].owner && id in req.candidates
              && db.rows[id].visibility == Private
              && Outcome(req, db).value.db.rows[id] == db.rows[id].(visibility := Shared)
              && (id, req.group) in Outcome(req, db).value.db.live
  {
    BatchExactly(req, db);
    var n := |req.candidates|;
    assert req.candidates[..n] == req.candidates;
    hide Outcome;
    if id in req.candidates {
      var i :| 0 <= i < n && req.candidates[i] == id;
      assert Acceptable(req, db, req.candidates[i]);
    }
  }
}

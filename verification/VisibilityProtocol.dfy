// Every interleaving of owner edits, shares, unshares and republishes, each
// transcript's publish lock held from the first of its transactions to the last.
module VisibilityProtocol {
  import opened Options
  import opened Governance
  import opened BatchShare

  // A republish between its narrowing and its end: what the narrowing removed,
  // and the visibility it found.
  datatype Republish = Republish(narrowedFrom: Option<Visibility>, found: Visibility)

  // How a transaction ended; a lost answer may hide a commit.
  datatype Ending = Committed | RolledBack | Lost(committed: bool)

  // decided is each owner's last decision. A republish whose end was lost, or
  // whose restore failed, may have left its transcript private. The ids of deleted
  // transcripts are never used again.
  datatype State = State(db: Db, decided: map<int, Visibility>, busy: map<int, Republish>, left: set<int>,
                         gone: set<int>)

  datatype Step =
    | Create(id: int, row: Row)
    | Delete(id: int)
    | Edit(id: int, patch: Patch)
    | Share(req: Request)
    | Unshare(id: int, group: int)
    | Narrow(id: int, ending: Ending)
    | Replace(id: int, license: Option<string>, ending: Ending)
    | Restore(id: int, ending: Ending)

  ghost predicate Free(s: State, id: int) { id in s.db.rows && id !in s.busy }

  ghost predicate CanStep(s: State, step: Step) {
    match step
    case Create(id, _) => id !in s.db.rows && id !in s.gone
    case Delete(id) => id in s.db.rows
    case Edit(id, _) => Free(s, id)
    case Share(req) => (forall i :: 0 <= i < |req.candidates| ==> Free(s, req.candidates[i]))
        && Sequences.Distinct(req.candidates)
    case Unshare(id, _) => Free(s, id)
    case Narrow(id, _) => Free(s, id)
    case Replace(id, _, ending) => id in s.busy && id in s.db.rows && ending != RolledBack
    case Restore(id, _) => id in s.busy && id in s.db.rows
  }

  function SetRow(db: Db, id: int, row: Row): Db { db.(rows := db.rows[id := row]) }

  function AfterEdit(s: State, id: int, patch: Patch): State
    requires id in s.db.rows
  {
    var r := Patched(s.db.rows[id], patch);
    if r.Err? then s
    else if patch.visibility.None? then s.(db := SetRow(s.db, id, r.value))
    else s.(db := SetRow(s.db, id, r.value), decided := s.decided[id := patch.visibility.value], left := s.left - {id})
  }

  // A share of a private transcript is a decision to share it.
  function AfterShare(s: State, req: Request): State {
    var r := Outcome(req, s.db);
    if r.Err? then s
    else
      var after := r.value.db;
      var flipped := set id | id in after.rows && id in s.db.rows && after.rows[id] != s.db.rows[id];
      s.(db := after, decided := map id | id in s.decided :: if id in flipped then Shared else s.decided[id],
         left := s.left - flipped)
  }

  // A delete takes no publish lock: a republish under way finds no row any more.
  function AfterDelete(s: State, id: int): State {
    s.(db := Db(s.db.rows - {id}, set p | p in s.db.live && p.0 != id),
       decided := s.decided - {id}, busy := s.busy - {id}, left := s.left - {id}, gone := s.gone + {id})
  }

  // unshareAndNarrow: with nothing live any more a shared transcript is private.
  function AfterUnshare(s: State, id: int, group: int): State
    requires id in s.db.rows
  {
    var db := s.db.(live := s.db.live - {(id, group)});
    if (exists p :: p in db.live && p.0 == id) || db.rows[id].visibility != Shared then s.(db := db)
    else s.(db := SetRow(db, id, Narrowed(db.rows[id]).0), decided := s.decided[id := Private], left := s.left - {id})
  }

  function AfterNarrow(s: State, id: int, ending: Ending): State
    requires id in s.db.rows
  {
    var row := s.db.rows[id];
    var narrow := Narrowed(row);
    if ending == Committed || narrow.1.None? then
      s.(db := SetRow(s.db, id, narrow.0), busy := s.busy[id := Republish(narrow.1, row.visibility)])
    else if ending == RolledBack then s
    else s.(db := if ending.committed then SetRow(s.db, id, narrow.0) else s.db, left := s.left + {id})
  }

  // The replacement and the audience commit together.
  function AfterReplace(s: State, id: int, license: Option<string>, ending: Ending): State
    requires id in s.db.rows && id in s.busy
  {
    var b := s.busy[id];
    var replaced := SetRow(s.db, id, Pinned(s.db.rows[id], license, b.narrowedFrom));
    if ending == Committed then s.(db := replaced, busy := s.busy - {id})
    else
      s.(db := if ending == Lost(true) then replaced else s.db, busy := s.busy - {id},
         left := if b.narrowedFrom.Some? then s.left + {id} else s.left)
  }

  // The compensating restore, after a definite failure.
  function AfterRestore(s: State, id: int, ending: Ending): State
    requires id in s.db.rows && id in s.busy
  {
    var b := s.busy[id];
    var restored := SetRow(s.db, id, Restored(s.db.rows[id], b.narrowedFrom));
    if ending == Committed || b.narrowedFrom.None? then s.(db := restored, busy := s.busy - {id})
    else s.(db := if ending == Lost(true) then restored else s.db, busy := s.busy - {id}, left := s.left + {id})
  }

  function After(s: State, step: Step): State
    requires CanStep(s, step)
  {
    match step
    case Create(id, row) => s.(db := SetRow(s.db, id, row), decided := s.decided[id := row.visibility],
        left := s.left - {id})
    case Delete(id) => AfterDelete(s, id)
    case Edit(id, patch) => AfterEdit(s, id, patch)
    case Share(req) => AfterShare(s, req)
    case Unshare(id, group) => AfterUnshare(s, id, group)
    case Narrow(id, ending) => AfterNarrow(s, id, ending)
    case Replace(id, license, ending) => AfterReplace(s, id, license, ending)
    case Restore(id, ending) => AfterRestore(s, id, ending)
  }

  // ---- the invariant ----

  // A transcript has the visibility its owner decided on, unless a republish
  // left it private.
  ghost predicate Settled(v: Visibility, decided: Visibility, left: bool) {
    v == decided || (left && v == Private)
  }

  ghost predicate Good(s: State, id: int) {
    && (id in s.gone ==> id !in s.db.rows)
    && (id in s.db.rows ==> id in s.decided)
    && (id in s.busy ==> id in s.db.rows)
    && (id in s.db.rows && id !in s.busy ==> Settled(s.db.rows[id].visibility, s.decided[id], id in s.left))
    && (id in s.busy ==>
          && Settled(s.busy[id].found, s.decided[id], id in s.left)
          && s.busy[id].narrowedFrom == (if s.busy[id].found == Private then None else Some(s.busy[id].found))
          && s.db.rows[id].visibility == Private)
  }

  ghost predicate Inv(s: State) { forall id :: Good(s, id) }

  lemma ShareKeepsGood(s: State, req: Request, id: int)
    requires CanStep(s, Share(req)) && Good(s, id)
    ensures Good(AfterShare(s, req), id)
  {
    hide Outcome;
    if Outcome(req, s.db).Ok? {
      ShareKeepsRows(s, req);
      if id in s.db.rows {
        ConsentIsNeeded(req, s.db, id);
      }
    }
  }

  // A written batch changes no busy transcript and adds none.
  lemma ShareKeepsRows(s: State, req: Request)
    requires CanStep(s, Share(req)) && Outcome(req, s.db).Ok?
    ensures Outcome(req, s.db).value.db.rows.Keys == s.db.rows.Keys
    ensures forall id :: id in s.busy && id in s.db.rows ==> Outcome(req, s.db).value.db.rows[id] == s.db.rows[id]
  {
    BatchExactly(req, s.db);
    var after := Outcome(req, s.db).value.db;
    assert after == SharedTx(req, s.db, |req.candidates|).db;
    assert after.rows.Keys == s.db.rows.Keys;
    hide Outcome;
    hide SharedTx;
    forall id | id in s.busy && id in s.db.rows
      ensures after.rows[id] == s.db.rows[id]
    {
      ConsentIsNeeded(req, s.db, id);
    }
  }

  lemma StepKeepsGood(s: State, step: Step, id: int)
    requires CanStep(s, step) && Good(s, id)
    ensures Good(After(s, step), id)
  {
    match step
    case Share(req) => ShareKeepsGood(s, req, id);
    case Create(_, _) =>
    case Delete(_) =>
    case Edit(_, _) =>
    case Unshare(_, _) =>
    case Narrow(_, _) => NarrowKeepsGood(s, step, id);
    case Replace(_, _, _) => ReplaceKeepsGood(s, step, id);
    case Restore(_, _) => RestoreKeepsGood(s, step, id);
  }

  lemma NarrowKeepsGood(s: State, step: Step, id: int)
    requires step.Narrow? && CanStep(s, step) && Good(s, id)
    ensures Good(After(s, step), id)
  {
    NarrowRestores(s.db.rows[step.id], None);
  }

  lemma ReplaceKeepsGood(s: State, step: Step, id: int)
    requires step.Replace? && CanStep(s, step) && Good(s, id)
    ensures Good(After(s, step), id)
  {
  }

  lemma RestoreKeepsGood(s: State, step: Step, id: int)
    requires step.Restore? && CanStep(s, step) && Good(s, id)
    ensures Good(After(s, step), id)
  {
  }

  ghost predicate IsRun(states: seq<State>, steps: seq<Step>) {
    && |states| == |steps| + 1 && Inv(states[0])
    && forall k :: 0 <= k < |steps| ==> CanStep(states[k], steps[k]) && states[k + 1] == After(states[k], steps[k])
  }

  lemma {:induction false} RunKeepsInv(states: seq<State>, steps: seq<Step>, k: nat)
    requires IsRun(states, steps) && k < |states|
    ensures Inv(states[k])
  {
    hide After;
    hide Good;
    if k > 0 {
      RunKeepsInv(states, steps, k - 1);
      assert CanStep(states[k - 1], steps[k - 1]);
      forall id
        ensures Good(states[k], id)
      {
        StepKeepsGood(states[k - 1], steps[k - 1], id);
      }
    }
  }

  // Over every run visibility is never wider than the owner's last decision,
  // and it is exactly that unless a republish is under way or left it private.
  lemma NeverWiderThanDecided(states: seq<State>, steps: seq<Step>, k: nat, id: int)
    requires IsRun(states, steps) && k < |states| && id in states[k].db.rows
    ensures id in states[k].decided && Rank(states[k].db.rows[id].visibility) <= Rank(states[k].decided[id])
    ensures id !in states[k].busy && id !in states[k].left ==> states[k].db.rows[id].visibility == states[k].decided[id]
  {
    RunKeepsInv(states, steps, k);
    assert Good(states[k], id);
  }

  // Only a republish's own end touches it.
  lemma StepKeepsBusy(s: State, step: Step, id: int)
    requires CanStep(s, step) && id in s.busy && id in After(s, step).busy
    ensures After(s, step).busy[id] == s.busy[id]
  {
    hide Outcome;
    hide Narrowed;
    hide Pinned;
    hide Restored;
  }

  ghost predicate BusyThroughout(states: seq<State>, j: nat, k: nat, id: int)
    requires k < |states|
  {
    forall m :: j <= m <= k ==> id in states[m].busy
  }

  lemma {:induction false} BusyIsTheSame(states: seq<State>, steps: seq<Step>, j: nat, k: nat, id: int)
    requires IsRun(states, steps) && j <= k < |states| && BusyThroughout(states, j, k, id)
    ensures id in states[j].busy && id in states[k].busy && states[k].busy[id] == states[j].busy[id]
    decreases k
  {
    hide After;
    assert id in states[j].busy && id in states[k].busy;
    if j < k {
      assert id in states[k - 1].busy;
      BusyIsTheSame(states, steps, j, k - 1, id);
      assert CanStep(states[k - 1], steps[k - 1]);
      StepKeepsBusy(states[k - 1], steps[k - 1], id);
    }
  }

  // A republish that commits, or that definitely fails and restores, leaves the
  // visibility it found when it began, whatever ran in between; in between the
  // transcript is private.
  lemma RepublishKeepsAudience(states: seq<State>, steps: seq<Step>, j: nat, k: nat, id: int, begun: Ending)
    requires IsRun(states, steps) && j < k < |steps| && steps[j] == Narrow(id, begun)
    requires BusyThroughout(states, j + 1, k, id)
    requires steps[k] == Restore(id, Committed) || (exists license :: steps[k] == Replace(id, license, Committed))
    ensures id in states[j].db.rows && id in states[k].db.rows && id in states[k + 1].db.rows
        && id !in states[k + 1].busy
    ensures states[k].db.rows[id].visibility == Private
    ensures states[k + 1].db.rows[id].visibility == states[j].db.rows[id].visibility
  {
    assert CanStep(states[j], steps[j]) && CanStep(states[k], steps[k]);
    RunKeepsInv(states, steps, k);
    assert Good(states[k], id);
    BusyIsTheSame(states, steps, j + 1, k, id);
    assert states[j + 1] == AfterNarrow(states[j], id, begun);
    assert id in states[j + 1].busy;
    assert states[j + 1].busy[id].found == states[j].db.rows[id].visibility;
    var b := states[k].busy[id];
    EndPutsBack(states[k], steps[k], id);
  }

  lemma EndPutsBack(s: State, step: Step, id: int)
    requires CanStep(s, step) && Good(s, id) && id in s.busy
    requires step == Restore(id, Committed) || (exists license :: step == Replace(id, license, Committed))
    ensures id in After(s, step).db.rows && id !in After(s, step).busy
    ensures After(s, step).db.rows[id].visibility == s.busy[id].found
  {
  }

  lemma StepKeepsLicense(s: State, step: Step, id: int)
    requires CanStep(s, step) && id in s.db.rows && s.db.rows[id].license.Some?
    ensures if id in After(s, step).db.rows then After(s, step).db.rows[id].license.Some? else id in After(s, step).gone
  {
    match step
    case Share(req) =>
      if Outcome(req, s.db).Ok? {
        ConsentIsNeeded(req, s.db, id);
      }
    case Create(_, _) =>
    case Delete(_) =>
    case Edit(_, _) =>
    case Unshare(_, _) =>
    case Narrow(_, _) =>
    case Replace(_, _, _) =>
    case Restore(_, _) =>
  }

  lemma GoneStays(s: State, step: Step, id: int)
    requires CanStep(s, step) && Good(s, id) && id in s.gone
    ensures id in After(s, step).gone && id !in After(s, step).db.rows
  {
    StepKeepsGood(s, step, id);
  }

  // A granted license is never taken back while the transcript exists, and an
  // id is not used again for another.
  lemma {:induction false} GrantedLicenseStays(states: seq<State>, steps: seq<Step>, j: nat, k: nat, id: int)
    requires IsRun(states, steps) && j <= k < |states|
    requires id in states[j].db.rows && states[j].db.rows[id].license.Some?
    ensures if id in states[k].db.rows then states[k].db.rows[id].license.Some? else id in states[k].gone
    decreases k
  {
    hide After;
    if j < k {
      GrantedLicenseStays(states, steps, j, k - 1, id);
      RunKeepsInv(states, steps, k - 1);
      assert CanStep(states[k - 1], steps[k - 1]) && Good(states[k - 1], id);
      if id in states[k - 1].db.rows {
        StepKeepsLicense(states[k - 1], steps[k - 1], id);
      } else {
        GoneStays(states[k - 1], steps[k - 1], id);
      }
    }
  }

  // A private transcript becomes readable to others only by its owner's edit, a
  // consented batch share, or the end of a republish that had narrowed it.
  lemma WidenedOnlyByTheOwner(s: State, step: Step, id: int)
    requires CanStep(s, step) && Inv(s) && id in s.db.rows && s.db.rows[id].visibility == Private
    requires id in After(s, step).db.rows && After(s, step).db.rows[id].visibility != Private
    ensures match step
            case Edit(i, patch) => i == id && patch.visibility == Some(After(s, step).db.rows[id].visibility)
            case Share(req) =>
              req.confirmed && req.user == s.db.rows[id].owner && id in req.candidates && Outcome(req, s.db).Ok?
            case Replace(i, _, _) => i == id && id in s.busy
                && s.busy[id].found == After(s, step).db.rows[id].visibility
            case Restore(i, _) => i == id && id in s.busy && s.busy[id].found == After(s, step).db.rows[id].visibility
            case _ => false
  {
    assert Good(s, id);
    match step
    case Share(req) =>
      if Outcome(req, s.db).Ok? {
        ConsentIsNeeded(req, s.db, id);
      }
    case Create(_, _) =>
    case Delete(_) =>
    case Edit(_, _) =>
    case Unshare(_, _) =>
    case Narrow(_, _) =>
    case Replace(_, _, _) =>
    case Restore(_, _) =>
  }
}

// One pass of the integrity check over the transcripts it owes an answer.
module IntegrityPass {
  import opened Options

  const BATCH_SIZE: nat := 10

  datatype Answer = Answer(stop: bool, failed: bool)

  // What the pass meets, by the number of its own events so far: whether it was
  // cancelled, what a listing returns, how a check ends. The version held goes
  // by the number of checks so far: after the health call only a check's answer
  // moves it.
  datatype World<!Row> = World(
    held: nat -> string,
    cancelled: nat -> bool,
    listing: (nat, string, nat) -> Option<seq<Row>>,
    check: (nat, string, Row) -> Answer)

  // A check names the listing its row came from.
  datatype Event<Row> =
    | Listed(version: string, batch: nat, rows: seq<Row>)
    | Checked(version: string, row: Row, origin: nat)

  datatype Ending = Cancelled | ListFailed | Refused | Exhausted | Swept

  // LIMIT
  ghost predicate Limited<Row(!new)>(w: World<Row>) {
    forall n: nat, v: string, b: nat :: w.listing(n, v, b).Some? ==> |w.listing(n, v, b).value| <= b
  }

  function Checks<Row>(trace: seq<Event<Row>>): nat {
    if trace == [] then 0
    else
      var n := |trace| - 1;
      Checks(trace[..n]) + if trace[n].Checked? then 1 else 0
  }

  // The version held once all of this has happened.
  function Held<Row>(w: World<Row>, trace: seq<Event<Row>>): string { w.held(Checks(trace)) }

  // The checks that could not be recorded.
  function Failures<Row>(w: World<Row>, trace: seq<Event<Row>>): nat {
    if trace == [] then 0
    else
      var n := |trace| - 1;
      Failures(w, trace[..n]) + if trace[n].Checked? && w.check(n, trace[n].version, trace[n].row).failed then 1 else 0
  }

  // A listing is made under the version held, for what is left of the budget,
  // and after the first one only when a check left another version held.
  ghost predicate ListsWell<Row(!new)>(w: World<Row>, trace: seq<Event<Row>>, i: nat)
    requires i < |trace| && trace[i].Listed?
  {
    && trace[i].version == Held(w, trace[..i])
    && trace[i].batch + Checks(trace[..i]) == BATCH_SIZE && trace[i].batch > 0
    && w.listing(i, trace[i].version, trace[i].batch) == Some(trace[i].rows)
    && (i > 0 ==> trace[i - 1].Checked? && trace[i - 1].version != Held(w, trace[..i]))
  }

  // A check takes the next row of the newest listing, under its version, while
  // that version is held.
  ghost predicate ChecksWell<Row(!new)>(w: World<Row>, trace: seq<Event<Row>>, i: nat)
    requires i < |trace| && trace[i].Checked?
  {
    var l := trace[i].origin;
    && l < i && trace[l].Listed? && trace[l].version == trace[i].version
    && i - l - 1 < |trace[l].rows| && trace[i].row == trace[l].rows[i - l - 1]
    && (forall k :: l < k < i ==> trace[k].Checked? && trace[k].origin == l)
    && Held(w, trace[..i]) == trace[i].version
    && (i > l + 1 ==> !w.check(i - 1, trace[i - 1].version, trace[i - 1].row).stop)
  }

  ghost predicate Faithful<Row(!new)>(w: World<Row>, trace: seq<Event<Row>>) {
    && (forall i :: 0 <= i < |trace| && trace[i].Listed? ==> ListsWell(w, trace, i))
    && (forall i :: 0 <= i < |trace| && trace[i].Checked? ==> ChecksWell(w, trace, i))
  }

  // Why the pass ended: everything listed was checked and the version stayed,
  // or the budget ran out, or something cut it short.
  ghost predicate EndsWell<Row(!new)>(w: World<Row>, trace: seq<Event<Row>>, ending: Ending) {
    match ending
    case Swept =>
      exists l :: 0 <= l < |trace| && trace[l].Listed? && |trace| == l + 1 + |trace[l].rows|
        && (forall k :: l < k < |trace| ==> trace[k].Checked? && trace[k].origin == l)
        && Held(w, trace) == trace[l].version
    case Exhausted => Checks(trace) == BATCH_SIZE && Held(w, trace) != trace[|trace| - 1].version
    case Refused => trace != [] && trace[|trace| - 1].Checked?
                    && w.check(|trace| - 1, trace[|trace| - 1].version, trace[|trace| - 1].row).stop
    case Cancelled => w.cancelled(|trace|)
    case ListFailed =>
      Checks(trace) <= BATCH_SIZE && w.listing(|trace|, Held(w, trace), BATCH_SIZE - Checks(trace)).None?
  }

  lemma ListsWellKept<Row(!new)>(w: World<Row>, trace: seq<Event<Row>>, e: Event<Row>, i: nat)
    requires i < |trace| && trace[i].Listed? && ListsWell(w, trace, i)
    ensures (trace + [e])[i] == trace[i] && ListsWell(w, trace + [e], i)
  {
    var more := trace + [e];
    assert more[..i] == trace[..i];
    assert more[i] == trace[i] && (i > 0 ==> more[i - 1] == trace[i - 1]);
  }

  lemma ChecksWellKept<Row(!new)>(w: World<Row>, trace: seq<Event<Row>>, e: Event<Row>, i: nat)
    requires i < |trace| && trace[i].Checked? && ChecksWell(w, trace, i)
    ensures (trace + [e])[i] == trace[i] && ChecksWell(w, trace + [e], i)
  {
    var more, l := trace + [e], trace[i].origin;
    assert more[..i] == trace[..i];
    assert forall k :: 0 <= k < |trace| ==> more[k] == trace[k];
  }

  lemma FaithfulSnoc<Row(!new)>(w: World<Row>, trace: seq<Event<Row>>, e: Event<Row>)
    requires Faithful(w, trace)
    requires (trace + [e])[|trace|] == e
    requires e.Listed? ==> ListsWell(w, trace + [e], |trace|)
    requires e.Checked? ==> ChecksWell(w, trace + [e], |trace|)
    ensures Faithful(w, trace + [e])
  {
    hide ListsWell;
    hide ChecksWell;
    var more := trace + [e];
    forall i | 0 <= i < |trace|
      ensures more[i].Listed? ==> ListsWell(w, more, i)
      ensures more[i].Checked? ==> ChecksWell(w, more, i)
    {
      if trace[i].Listed? {
        ListsWellKept(w, trace, e, i);
      } else {
        ChecksWellKept(w, trace, e, i);
      }
    }
  }

  lemma ChecksSnoc<Row>(w: World<Row>, trace: seq<Event<Row>>, e: Event<Row>)
    ensures Checks(trace + [e]) == Checks(trace) + if e.Checked? then 1 else 0
    ensures Failures(w, trace + [e]) == Failures(w, trace)
        + if e.Checked? && w.check(|trace|, e.version, e.row).failed then 1 else 0
  {
    assert (trace + [e])[..|trace|] == trace;
  }

  // The rows checked so far of the newest listing, while nothing moved on.
  ghost predicate Sweeping<Row(!new)>(w: World<Row>, trace: seq<Event<Row>>, l: nat, done: nat) {
    && l < |trace| && trace[l].Listed? && done <= |trace[l].rows| && |trace| == l + 1 + done
    && (forall k :: l < k < |trace| ==>
      trace[k].Checked? && trace[k].origin == l && trace[k].version == trace[l].version)
    && Held(w, trace) == trace[l].version
    && (done > 0 ==> !w.check(|trace| - 1, trace[|trace| - 1].version, trace[|trace| - 1].row).stop)
  }

  lemma CheckNext<Row(!new)>(w: World<Row>, trace: seq<Event<Row>>, l: nat, done: nat, e: Event<Row>)
    requires Sweeping(w, trace, l, done) && done < |trace[l].rows|
    requires e == Checked(trace[l].version, trace[l].rows[done], l)
    ensures ChecksWell(w, trace + [e], |trace|) && (trace + [e])[|trace|] == e
    ensures Held(w, trace + [e]) == e.version && !w.check(|trace|, e.version, e.row).stop ==>
        Sweeping(w, trace + [e], l, done + 1)
  {
    var more := trace + [e];
    assert more[..|trace|] == trace;
    assert forall k :: 0 <= k < |trace| ==> more[k] == trace[k];
  }

  lemma ListNext<Row(!new)>(w: World<Row>, trace: seq<Event<Row>>, e: Event<Row>)
    requires e.Listed? && e.version == Held(w, trace) && e.batch > 0 && e.batch + Checks(trace) == BATCH_SIZE
    requires w.listing(|trace|, e.version, e.batch) == Some(e.rows)
    requires trace != [] ==> trace[|trace| - 1].Checked? && trace[|trace| - 1].version != Held(w, trace)
    ensures ListsWell(w, trace + [e], |trace|) && (trace + [e])[|trace|] == e
    ensures Sweeping(w, trace + [e], |trace|, 0)
  {
    var more := trace + [e];
    assert more[..|trace|] == trace && more[|trace|] == e;
    assert Held(w, more) == Held(w, trace);
    assert ListsWell(w, more, |trace|);
    hide ListsWell;
  }

  // The last check left another version held.
  ghost predicate Advanced<Row(!new)>(w: World<Row>, trace: seq<Event<Row>>) {
    trace != [] && trace[|trace| - 1].Checked? && trace[|trace| - 1].version != Held(w, trace)
  }

  lemma ListStep<Row(!new)>(w: World<Row>, trace: seq<Event<Row>>, e: Event<Row>)
    requires Faithful(w, trace) && (trace == [] || Advanced(w, trace))
    requires e.Listed? && e.version == Held(w, trace) && e.batch > 0 && e.batch + Checks(trace) == BATCH_SIZE
    requires w.listing(|trace|, e.version, e.batch) == Some(e.rows)
    ensures Faithful(w, trace + [e]) && Checks(trace + [e]) == Checks(trace)
        && Failures(w, trace + [e]) == Failures(w, trace)
    ensures Sweeping(w, trace + [e], |trace|, 0) && (trace + [e])[|trace|] == e
  {
    hide Faithful;
    ListNext(w, trace, e);
    hide ListsWell;
    FaithfulSnoc(w, trace, e);
    ChecksSnoc(w, trace, e);
  }

  lemma CheckStep<Row(!new)>(w: World<Row>, trace: seq<Event<Row>>, l: nat, done: nat, e: Event<Row>)
    requires Faithful(w, trace) && Sweeping(w, trace, l, done) && done < |trace[l].rows|
    requires e == Checked(trace[l].version, trace[l].rows[done], l)
    ensures Faithful(w, trace + [e]) && Checks(trace + [e]) == Checks(trace) + 1 && (trace + [e])[l] == trace[l]
    ensures Failures(w, trace + [e]) == Failures(w, trace) + if w.check(|trace|, e.version, e.row).failed then 1 else 0
    ensures w.check(|trace|, e.version, e.row).stop ==> EndsWell(w, trace + [e], Refused)
    ensures !w.check(|trace|, e.version, e.row).stop && Held(w, trace + [e]) == e.version ==>
        Sweeping(w, trace + [e], l, done + 1)
    ensures Held(w, trace + [e]) != e.version ==> Advanced(w, trace + [e])
  {
    hide Faithful;
    CheckNext(w, trace, l, done, e);
    hide ChecksWell;
    hide Sweeping;
    FaithfulSnoc(w, trace, e);
    ChecksSnoc(w, trace, e);
  }

  lemma SweptEnds<Row(!new)>(w: World<Row>, trace: seq<Event<Row>>, l: nat)
    requires l < |trace| && trace[l].Listed? && Sweeping(w, trace, l, |trace[l].rows|)
    ensures EndsWell(w, trace, Swept)
  {
  }

  lemma ExhaustedEnds<Row(!new)>(w: World<Row>, trace: seq<Event<Row>>)
    requires Advanced(w, trace) && Checks(trace) == BATCH_SIZE
    ensures EndsWell(w, trace, Exhausted)
  {
  }

  lemma CutShort<Row(!new)>(w: World<Row>, trace: seq<Event<Row>>)
    ensures w.cancelled(|trace|) ==> EndsWell(w, trace, Cancelled)
    ensures Checks(trace) <= BATCH_SIZE && w.listing(|trace|, Held(w, trace), BATCH_SIZE - Checks(trace)).None? ==>
        EndsWell(w, trace, ListFailed)
  {
  }

  // The rows of one listing, until they end, the version moves on, the budget
  // of the listing runs out or the pass is cut short.
  method CheckRows<Row(!new)>(w: World<Row>, version: string, rows: seq<Row>, before: nat, left: nat,
                       ghost trace0: seq<Event<Row>>)
    returns (ghost trace: seq<Event<Row>>, events: nat, budget: nat, failures: nat, advanced: bool, cut: Option<Ending>)
    requires before == |trace0| > 0 && |rows| <= left && Checks(trace0) + left == BATCH_SIZE
    requires Faithful(w, trace0) && Sweeping(w, trace0, before - 1, 0)
        && trace0[before - 1] == Listed(version, left, rows)
    ensures Faithful(w, trace) && events == |trace| && Checks(trace) + budget == BATCH_SIZE
    ensures Failures(w, trace) == Failures(w, trace0) + failures
    ensures cut.Some? ==> EndsWell(w, trace, cut.value)
    ensures cut.None? && advanced ==> Advanced(w, trace) && budget < left
    ensures cut.None? && !advanced ==> EndsWell(w, trace, Swept)
  {
    hide Faithful;
    hide EndsWell;
    hide Sweeping;
    hide Advanced;
    hide Checks;
    hide Failures;
    hide ListsWell;
    hide ChecksWell;
    trace, events, budget, failures, advanced, cut := trace0, before, left, 0, false, None;
    var i := 0;
    while i < |rows| && !advanced
      invariant i <= |rows| && events == |trace| == before + i && budget == left - i && (advanced ==> i > 0)
      invariant Faithful(w, trace) && Checks(trace) + budget == BATCH_SIZE
      invariant Failures(w, trace) == Failures(w, trace0) + failures
      invariant !advanced ==> Sweeping(w, trace, before - 1, i) && trace[before - 1] == Listed(version, left, rows)
      invariant advanced ==> Advanced(w, trace)
      decreases |rows| - i, !advanced
    {
      CutShort(w, trace);
      if w.cancelled(events) {
        cut := Some(Cancelled);
        return;
      }
      budget := budget - 1;
      var answer := w.check(events, version, rows[i]);
      CheckStep(w, trace, before - 1, i, Checked(version, rows[i], before - 1));
      trace := trace + [Checked(version, rows[i], before - 1)];
      events := events + 1;
      i := i + 1;
      if answer.failed {
        failures := failures + 1;
      }
      if answer.stop {
        cut := Some(Refused);
        return;
      }
      if w.held(BATCH_SIZE - budget) != version {
        advanced := true;
      }
    }
    if !advanced {
      SweptEnds(w, trace, before - 1);
    }
  }

  // Between two rounds: what is left of the budget, and that a listing is due.
  ghost predicate Due<Row(!new)>(w: World<Row>, trace: seq<Event<Row>>, events: nat, budget: nat) {
    && events == |trace| && Faithful(w, trace) && Checks(trace) + budget == BATCH_SIZE
    && (trace == [] || Advanced(w, trace)) && (budget == 0 ==> trace != [])
  }

  // One listing and its checks.
  method Round<Row(!new)>(w: World<Row>, before: nat, left: nat, ghost trace0: seq<Event<Row>>)
    returns (ghost trace: seq<Event<Row>>, events: nat, budget: nat, failures: nat, ended: Option<Ending>)
    requires Limited(w) && Due(w, trace0, before, left) && left > 0
    ensures Failures(w, trace) == Failures(w, trace0) + failures
    ensures ended.Some? ==> Faithful(w, trace) && Checks(trace) <= BATCH_SIZE && EndsWell(w, trace, ended.value)
    ensures ended.None? ==> Due(w, trace, events, budget) && budget < left
  {
    hide Faithful;
    hide EndsWell;
    hide Sweeping;
    hide Checks;
    hide Failures;
    hide ListsWell;
    hide ChecksWell;
    hide Advanced;
    trace, events, budget, failures := trace0, before, left, 0;
    var version := w.held(BATCH_SIZE - left);
    var listing := w.listing(before, version, left);
    if listing.None? {
      CutShort(w, trace0);
      ended := Some(ListFailed);
      return;
    }
    RowsFit(w, before, version, left);
    hide Limited;
    ListStep(w, trace0, Listed(version, left, listing.value));
    var advanced: bool;
    trace, events, budget, failures, advanced, ended := CheckRows(w, version, listing.value, before + 1, left,
      trace0 + [Listed(version, left, listing.value)]);
    if ended.None? {
      if !advanced {
        ended := Some(Swept);
      } else {
        AdvancedIsSomething(w, trace);
      }
    }
  }

  // A whole pass: what it listed and checked, why it ended, and how many of its
  // checks could not be recorded.
  ghost predicate Pass<Row(!new)>(w: World<Row>, trace: seq<Event<Row>>, ending: Ending, errors: nat) {
    Faithful(w, trace) && Checks(trace) <= BATCH_SIZE && EndsWell(w, trace, ending) && errors == Failures(w, trace)
  }

  // integrityTick after the health call: it checks at most BATCH_SIZE
  // transcripts however often the version moves on, and it ends.
  method Tick<Row(!new)>(w: World<Row>) returns (ending: Ending, errors: nat)
    requires Limited(w)
    ensures exists trace :: Pass(w, trace, ending, errors)
  {
    NothingYet(w);
    ghost var trace: seq<Event<Row>> := [];
    errors := 0;
    var events: nat, budget: nat := 0, BATCH_SIZE;
    while budget > 0
      invariant Due(w, trace, events, budget) && errors == Failures(w, trace)
      decreases budget
    {
      var failures, ended;
      trace, events, budget, failures, ended := Round(w, events, budget, trace);
      errors := errors + failures;
      if ended.Some? {
        assert Pass(w, trace, ended.value, errors);
        return ended.value, errors;
      }
    }
    ExhaustedEnds(w, trace);
    assert Pass(w, trace, Exhausted, errors);
    return Exhausted, errors;
  }

  lemma RowsFit<Row(!new)>(w: World<Row>, n: nat, version: string, batch: nat)
    requires Limited(w) && w.listing(n, version, batch).Some?
    ensures |w.listing(n, version, batch).value| <= batch
  {
  }

  lemma AdvancedIsSomething<Row(!new)>(w: World<Row>, trace: seq<Event<Row>>)
    requires Advanced(w, trace)
    ensures trace != []
  {
  }

  lemma NothingYet<Row(!new)>(w: World<Row>)
    ensures Due(w, [], 0, BATCH_SIZE) && Failures(w, []) == 0
  {
  }
}

// Concurrent sign-ins of one user.
module OrgSyncProtocol {
  import opened Text
  import opened OrgSync

  const MAX_GENERATION: int := 0x7fff_ffff_ffff_ffff

  datatype Flight = Fetching | Fetched(orgs: seq<Org>)

  // An owner shows or hides the organization of that login.
  datatype Toggle = Toggle(login: string, visible: bool)

  // flights holds each issued generation still under way; log what was
  // installed, oldest first; found is the table the newest installation came
  // upon, and toggles what was toggled since.
  datatype State = State(current: nat, flights: map<nat, Flight>, table: Table, log: seq<(nat, seq<Org>)>, found: Table,
                         toggles: seq<Toggle>)

  datatype Step =
    | Show(toggle: Toggle)
    | Issue
    | Fetch(generation: nat, orgs: seq<Org>)
    | Fail(generation: nat)
    | Finish(generation: nat)

  ghost predicate CanStep(s: State, step: Step) {
    match step
    case Show(_) => true
    case Issue => s.current < MAX_GENERATION
    case Fetch(g, orgs) => g in s.flights && s.flights[g] == Fetching && Distinct(orgs)
    case Fail(g) => g in s.flights
    case Finish(g) => g in s.flights && s.flights[g].Fetched?
  }

  // A fetched list is distinct, or the fetch fails; a transaction may also roll
  // back. The final one installs only while the generation is the newest.
  ghost function After(s: State, step: Step): State
    requires CanStep(s, step)
  {
    match step
    case Show(toggle) => s.(table := Toggled(s.table, toggle), toggles := s.toggles + [toggle])
    case Issue => s.(current := s.current + 1, flights := s.flights[s.current + 1 := Fetching])
    case Fetch(g, orgs) => s.(flights := s.flights[g := Fetched(orgs)])
    case Fail(g) => s.(flights := s.flights - {g})
    case Finish(g) =>
      var done := s.(flights := s.flights - {g});
      if s.current == g then
        done.(table := Installed(s.table, s.flights[g].orgs), log := s.log + [(g, s.flights[g].orgs)],
              found := s.table, toggles := [])
      else done
  }

  // SetOrgVisibility: the row of exactly this login, if there is one.
  function Toggled(t: Table, toggle: Toggle): (r: Table)
    ensures r.Keys == t.Keys
  {
    if toggle.login in t then t[toggle.login := t[toggle.login].(visible := toggle.visible)] else t
  }

  function ToggledAll(t: Table, toggles: seq<Toggle>): (r: Table)
    ensures r.Keys == t.Keys
  {
    if toggles == [] then t else Toggled(ToggledAll(t, toggles[..|toggles| - 1]), toggles[|toggles| - 1])
  }

  // What the last toggle of a login says, if there is one.
  function LastSaid(toggles: seq<Toggle>, login: string, before: bool): bool {
    if toggles == [] then before
    else
      var last := toggles[|toggles| - 1];
      if last.login == login then last.visible else LastSaid(toggles[..|toggles| - 1], login, before)
  }

  lemma {:induction false} ToggledRow(t: Table, toggles: seq<Toggle>, login: string)
    requires login in t
    ensures ToggledAll(t, toggles)[login] == t[login].(visible := LastSaid(toggles, login, t[login].visible))
  {
    if toggles != [] {
      ToggledRow(t, toggles[..|toggles| - 1], login);
    }
  }

  ghost predicate Inv(first: Table, s: State) {
    && (forall g :: g in s.flights ==> g <= s.current)
    && (forall i :: 0 <= i < |s.log| ==> s.log[i].0 <= s.current && s.log[i].0 !in s.flights)
    && (forall i, j :: 0 <= i < j < |s.log| ==> s.log[i].0 < s.log[j].0)
    && (forall g :: g in s.flights && s.flights[g].Fetched? ==> Distinct(s.flights[g].orgs))
    && (forall i :: 0 <= i < |s.log| ==> Distinct(s.log[i].1))
    && s.table == ToggledAll(Base(first, s), s.toggles)
  }

  // The table as the newest installation left it.
  function Base(first: Table, s: State): Table {
    if s.log == [] then first else Installed(s.found, s.log[|s.log| - 1].1)
  }

  lemma StepKeepsInv(first: Table, s: State, step: Step)
    requires Inv(first, s) && CanStep(s, step)
    ensures Inv(first, After(s, step))
  {
    hide Installed;
    hide Distinct;
    match step
    case Show(toggle) =>
      assert (s.toggles + [toggle])[..|s.toggles|] == s.toggles;
    case Finish(g) =>
      if s.current == g {
        FinishKeepsInv(first, s, g);
      }
    case Issue => FlightKeepsInv(first, s, step);
    case Fetch(_, _) => FlightKeepsInv(first, s, step);
    case Fail(_) => FlightKeepsInv(first, s, step);
  }

  // These steps leave the table and the log alone.
  lemma FlightKeepsInv(first: Table, s: State, step: Step)
    requires Inv(first, s) && CanStep(s, step) && (step.Issue? || step.Fetch? || step.Fail?)
    ensures Inv(first, After(s, step))
  {
    hide Installed;
    hide Distinct;
    hide ToggledAll;
  }

  lemma FinishKeepsInv(first: Table, s: State, g: nat)
    requires Inv(first, s) && CanStep(s, Finish(g)) && s.current == g
    ensures Inv(first, After(s, Finish(g)))
  {
    hide Installed;
    hide Distinct;
    assert ToggledAll(Installed(s.table, s.flights[g].orgs), []) == Installed(s.table, s.flights[g].orgs);
    hide ToggledAll;
    forall i | 0 <= i < |s.log|
      ensures s.log[i].0 < g
    {
      assert s.log[i].0 != g;
    }
  }

  ghost predicate IsRun(first: Table, states: seq<State>, steps: seq<Step>) {
    && |states| == |steps| + 1 && states[0] == State(0, map[], first, [], first, [])
    && forall i :: 0 <= i < |steps| ==> CanStep(states[i], steps[i]) && states[i + 1] == After(states[i], steps[i])
  }

  lemma {:induction false} RunKeepsInv(first: Table, states: seq<State>, steps: seq<Step>, i: nat)
    requires IsRun(first, states, steps) && i < |states|
    ensures Inv(first, states[i])
  {
    if i > 0 {
      RunKeepsInv(first, states, steps, i - 1);
      assert CanStep(states[i - 1], steps[i - 1]);
      StepKeepsInv(first, states[i - 1], steps[i - 1]);
    }
  }

  lemma StoredIs(first: Table, s: State)
    requires Inv(first, s) && s.log != []
    ensures Distinct(s.log[|s.log| - 1].1)
    ensures s.table == ToggledAll(Installed(s.found, s.log[|s.log| - 1].1), s.toggles)
  {
    hide Installed;
    hide Distinct;
  }

  // The main result: over every interleaving the installed generations strictly
  // increase, and without regard to case the stored organizations are the
  // initial ones or those of the newest installed snapshot, whole.
  lemma StoredIsOneSnapshot(first: Table, states: seq<State>, steps: seq<Step>, i: nat)
    requires IsRun(first, states, steps) && i < |states|
    ensures forall a, b :: 0 <= a < b < |states[i].log| ==> states[i].log[a].0 < states[i].log[b].0
    ensures states[i].log == [] ==> states[i].table == ToggledAll(first, states[i].toggles)
    ensures states[i].log != [] ==>
              var orgs := states[i].log[|states[i].log| - 1].1;
              Fold(states[i].table) == FoldedLogins(orgs) && LoginsOf(orgs) <= states[i].table.Keys
  {
    hide Installed;
    hide Distinct;
    RunKeepsInv(first, states, steps, i);
    var s := states[i];
    if s.log != [] {
      StoredIs(first, s);
      hide Inv;
      hide IsRun;
      InstalledFolds(s.found, s.log[|s.log| - 1].1);
    }
  }

  // The table holds the snapshot's organizations and nothing else, each shown
  // as the last toggle since says, or else as the table found before did.
  ghost predicate IsToggledSnapshot(r: Table, found: Table, orgs: seq<Org>, toggles: seq<Toggle>) {
    r.Keys == LoginsOf(orgs) && forall i :: 0 <= i < |orgs| ==>
      var row := RowOf(found, orgs[i]);
      orgs[i].login in r && r[orgs[i].login] == row.(visible := LastSaid(toggles, orgs[i].login, row.visible))
  }

  // The main result: the stored table is exactly the newest installed snapshot, rows and all, if
  // and only if no row stored before it differs from one of its logins in case
  // alone.
  lemma StoredExactly(first: Table, states: seq<State>, steps: seq<Step>, i: nat)
    requires IsRun(first, states, steps) && i < |states| && states[i].log != []
    ensures var s := states[i];
            var orgs := s.log[|s.log| - 1].1;
            IsToggledSnapshot(s.table, s.found, orgs, s.toggles) <==>
            forall l :: l in s.found && Lower(l) in FoldedLogins(orgs) ==> l in LoginsOf(orgs)
  {
    hide Installed;
    hide Distinct;
    hide Inv;
    RunKeepsInv(first, states, steps, i);
    StoredIs(first, states[i]);
    hide IsRun;
    var s := states[i];
    ToggledExactly(s.table, s.found, s.log[|s.log| - 1].1, s.toggles);
  }

  lemma ToggledExactly(r: Table, found: Table, orgs: seq<Org>, toggles: seq<Toggle>)
    requires Distinct(orgs) && r == ToggledAll(Installed(found, orgs), toggles)
    ensures IsToggledSnapshot(r, found, orgs, toggles) <==>
            forall l :: l in found && Lower(l) in FoldedLogins(orgs) ==> l in LoginsOf(orgs)
  {
    hide Distinct;
    hide RowOf;
    hide Installed;
    InstalledExactly(found, orgs);
    forall i | 0 <= i < |orgs|
      ensures var row, login := RowOf(found, orgs[i]), orgs[i].login;
              login in r && r[login] == row.(visible := LastSaid(toggles, login, row.visible))
      ensures orgs[i].login in Installed(found, orgs) && Installed(found, orgs)[orgs[i].login] == RowOf(found, orgs[i])
    {
      InstalledRow(found, orgs, i);
      ToggledRow(Installed(found, orgs), toggles, orgs[i].login);
    }
    assert IsSnapshot(Installed(found, orgs), found, orgs) <==> r.Keys == LoginsOf(orgs);
    assert IsToggledSnapshot(r, found, orgs, toggles) <==> r.Keys == LoginsOf(orgs);
  }

  // found is the stored table at the moment the newest snapshot was installed.
  lemma {:induction false} FoundWasStored(first: Table, states: seq<State>, steps: seq<Step>, i: nat) returns (j: nat)
    requires IsRun(first, states, steps) && i < |states| && states[i].log != []
    ensures j < i && steps[j] == Finish(states[i].log[|states[i].log| - 1].0)
    ensures states[j].table == states[i].found && states[j + 1].log == states[i].log
  {
    hide Installed;
    assert CanStep(states[i - 1], steps[i - 1]);
    if states[i].log != states[i - 1].log {
      j := i - 1;
    } else {
      j := FoundWasStored(first, states, steps, i - 1);
    }
  }

  // Once a newer generation is issued an older one installs nothing, even if
  // the newer one fails.
  lemma {:induction false} SupersededInstallsNothing(first: Table, states: seq<State>, steps: seq<Step>, i: nat, j: nat,
                                                     g: nat)
    requires IsRun(first, states, steps) && i <= j < |steps| && g < states[i].current
    requires steps[j] == Finish(g)
    ensures states[j + 1].table == states[j].table && states[j + 1].log == states[j].log
  {
    CurrentGrows(first, states, steps, i, j);
    assert CanStep(states[j], steps[j]);
  }

  lemma {:induction false} CurrentGrows(first: Table, states: seq<State>, steps: seq<Step>, i: nat, j: nat)
    requires IsRun(first, states, steps) && i <= j < |states|
    ensures states[i].current <= states[j].current
    decreases j
  {
    if i < j {
      CurrentGrows(first, states, steps, i, j - 1);
      assert CanStep(states[j - 1], steps[j - 1]);
    }
  }
}

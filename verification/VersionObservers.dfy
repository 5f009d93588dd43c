// observeVersion: goroutines racing to record what they were told.
module VersionObservers {
  import opened Options
  import V = Versions

  // Where one observer is in its load-compare-swap loop. What it loaded is the
  // pointer it will compare, named by the observer that stored it.
  datatype Phase = Loading | Loaded(held: Option<nat>) | Done

  // texts is what each observer was told; cell names the observer whose text
  // is held.
  datatype State = State(texts: seq<string>, phases: seq<Phase>, cell: Option<nat>)

  ghost predicate Wf(s: State) {
    && |s.phases| == |s.texts|
    && (s.cell.Some? ==> s.cell.value < |s.texts| && s.phases[s.cell.value] == Done)
    && forall i :: 0 <= i < |s.phases| && s.phases[i].Loaded? && s.phases[i].held.Some? ==>
      s.phases[i].held.value < |s.texts|
  }

  predicate CanStep(s: State, i: nat) {
    i < |s.phases| && s.phases[i] != Done
  }

  // One atomic operation of observer i.
  function Step(s: State, i: nat): State
    requires Wf(s) && CanStep(s, i)
  {
    match s.phases[i]
    case Loading =>
      if s.cell.Some? && V.Compare(s.texts[i], s.texts[s.cell.value]) <= 0 then s.(phases := s.phases[i := Done])
      else s.(phases := s.phases[i := Loaded(s.cell)])
    case Loaded(held) =>
      if s.cell == held then s.(phases := s.phases[i := Done], cell := Some(i))
      else s.(phases := s.phases[i := Loading])
    case Done => s
  }

  // The held version is at least this text.
  ghost predicate Covers(s: State, text: string)
    requires Wf(s)
  {
    s.cell.Some? && V.Compare(text, s.texts[s.cell.value]) <= 0
  }

  ghost predicate Inv(s: State) {
    && Wf(s)
    && (forall i :: 0 <= i < |s.texts| && s.phases[i] == Done ==> Covers(s, s.texts[i]))
    && (forall i :: 0 <= i < |s.phases| && s.phases[i].Loaded? && s.phases[i].held.Some? ==>
          V.Compare(s.texts[i], s.texts[s.phases[i].held.value]) > 0)
  }

  lemma StepKeepsInv(s: State, i: nat)
    requires Inv(s) && CanStep(s, i)
    ensures Inv(Step(s, i))
    ensures s.cell.Some? ==> Covers(Step(s, i), s.texts[s.cell.value])
    ensures Step(s, i).texts == s.texts
  {
    hide V.Compare;
    var t := Step(s, i);
    CoversSelf(s.texts[i]);
    if s.cell.Some? {
      CoversSelf(s.texts[s.cell.value]);
      if t.cell != s.cell {
        V.CompareIsTotal(s.texts[i], s.texts[s.cell.value], "");
      }
    }
    forall j | 0 <= j < |t.texts| && t.phases[j] == Done
      ensures Covers(t, t.texts[j])
    {
      if j != i && t.cell != s.cell {
        V.CompareIsTotal(s.texts[j], s.texts[s.cell.value], s.texts[i]);
      }
    }
  }

  lemma StepCovers(s: State, i: nat, held: string)
    requires Inv(s) && CanStep(s, i) && Covers(s, held)
    ensures Inv(Step(s, i)) && Covers(Step(s, i), held)
  {
    hide V.Compare;
    StepKeepsInv(s, i);
    hide Step;
    V.CompareIsTotal(held, s.texts[s.cell.value], s.texts[Step(s, i).cell.value]);
  }

  lemma CoversSelf(text: string)
    ensures V.Compare(text, text) == 0
  {
    V.CompareIsTotal(text, text, text);
  }

  ghost predicate IsRun(texts: seq<string>, states: seq<State>, who: seq<nat>) {
    && |states| == |who| + 1
    && states[0] == State(texts, seq(|texts|, _ => Loading), None)
    && forall k :: 0 <= k < |who| ==>
      Wf(states[k]) && CanStep(states[k], who[k]) && states[k + 1] == Step(states[k], who[k])
  }

  lemma {:induction false} RunKeepsInv(texts: seq<string>, states: seq<State>, who: seq<nat>, k: nat)
    requires IsRun(texts, states, who) && k < |states|
    ensures Inv(states[k]) && states[k].texts == texts
  {
    if k > 0 {
      RunKeepsInv(texts, states, who, k - 1);
      assert CanStep(states[k - 1], who[k - 1]);
      StepKeepsInv(states[k - 1], who[k - 1]);
    }
  }

  // Over every interleaving the held version never decreases.
  lemma {:induction false} HeldNeverDecreases(texts: seq<string>, states: seq<State>, who: seq<nat>, j: nat, k: nat)
    requires IsRun(texts, states, who) && j <= k < |states| && states[j].cell.Some?
    ensures Inv(states[j]) && Inv(states[k]) && states[j].texts == states[k].texts == texts
    ensures Covers(states[k], texts[states[j].cell.value])
    decreases k
  {
    hide V.Compare;
    hide Step;
    RunKeepsInv(texts, states, who, j);
    RunKeepsInv(texts, states, who, k);
    var held := texts[states[j].cell.value];
    if j == k {
      CoversSelf(held);
    } else {
      HeldNeverDecreases(texts, states, who, j, k - 1);
      RunSteps(texts, states, who, k - 1);
      hide IsRun;
      hide Inv;
      hide Covers;
      StepCovers(states[k - 1], who[k - 1], held);
    }
  }

  lemma RunSteps(texts: seq<string>, states: seq<State>, who: seq<nat>, k: nat)
    requires IsRun(texts, states, who) && k < |who|
    ensures k + 1 < |states| && Wf(states[k]) && CanStep(states[k], who[k]) && states[k + 1] == Step(states[k], who[k])
  {
    assert CanStep(states[k], who[k]);
  }

  // When every observer has returned, the held version is one that was
  // observed and no observed version is newer.
  lemma HeldIsTheMaximum(texts: seq<string>, states: seq<State>, who: seq<nat>)
    requires IsRun(texts, states, who) && texts != []
    requires forall i :: 0 <= i < |states[|who|].phases| ==> states[|who|].phases[i] == Done
    ensures states[|who|].cell.Some? && states[|who|].cell.value < |texts|
    ensures forall i :: 0 <= i < |texts| ==> V.Compare(texts[i], texts[states[|who|].cell.value]) <= 0
  {
    hide V.Compare;
    RunKeepsInv(texts, states, who, |who|);
    var last := states[|who|];
    assert last.phases[0] == Done && Covers(last, last.texts[0]);
    forall i | 0 <= i < |texts|
      ensures V.Compare(texts[i], texts[last.cell.value]) <= 0
    {
      assert Covers(last, last.texts[i]);
    }
  }

  // ---- every run ends ----

  function Live(phases: seq<Phase>): nat {
    if phases == [] then 0
    else
      var n := |phases| - 1;
      Live(phases[..n]) + if phases[n] == Done then 0 else 1
  }

  // A loaded pointer that is no longer held will cost another round.
  function Weight(p: Phase, cell: Option<nat>): nat {
    match p
    case Done => 0
    case Loaded(held) => if held == cell then 1 else 3
    case Loading => 2
  }

  function Weights(phases: seq<Phase>, cell: Option<nat>): nat {
    if phases == [] then 0
    else
      var n := |phases| - 1;
      Weights(phases[..n], cell) + Weight(phases[n], cell)
  }

  function Measure(s: State): nat { 2 * |s.phases| * Live(s.phases) + Weights(s.phases, s.cell) }

  lemma {:induction false} LiveUpdate(phases: seq<Phase>, i: nat, p: Phase)
    requires i < |phases|
    ensures Live(phases[i := p]) + (if phases[i] == Done then 0 else 1) == Live(phases) + if p == Done then 0 else 1
    ensures Live(phases) <= |phases|
  {
    var n := |phases| - 1;
    var after := phases[i := p];
    if i < n {
      assert after[..n] == phases[..n][i := p];
      LiveUpdate(phases[..n], i, p);
    } else {
      assert after[..n] == phases[..n];
      if n > 0 {
        LiveUpdate(phases[..n], 0, phases[0]);
        assert phases[..n][0 := phases[0]] == phases[..n];
      }
    }
  }

  lemma {:induction false} WeightsUpdate(phases: seq<Phase>, i: nat, p: Phase, cell: Option<nat>)
    requires i < |phases|
    ensures Weights(phases[i := p], cell) + Weight(phases[i], cell) == Weights(phases, cell) + Weight(p, cell)
  {
    var n := |phases| - 1;
    var after := phases[i := p];
    if i < n {
      assert after[..n] == phases[..n][i := p];
      WeightsUpdate(phases[..n], i, p, cell);
    } else {
      assert after[..n] == phases[..n];
    }
  }

  lemma {:induction false} WeightsMove(phases: seq<Phase>, before: Option<nat>, after: Option<nat>)
    ensures Weights(phases, after) <= Weights(phases, before) + 2 * |phases|
  {
    if phases != [] {
      WeightsMove(phases[..|phases| - 1], before, after);
    }
  }

  // A step of one observer, as it changes the phases and the cell.
  lemma StepIs(s: State, i: nat)
    requires Wf(s) && CanStep(s, i)
    ensures var t := Step(s, i);
            && |t.phases| == |s.phases| && t.phases == s.phases[i := t.phases[i]]
            && (t.cell != s.cell ==> t.phases[i] == Done)
            && Weight(t.phases[i], s.cell) < Weight(s.phases[i], s.cell)
  {
    hide V.Compare;
  }

  lemma StepDecreases(s: State, i: nat)
    requires Wf(s) && CanStep(s, i)
    ensures Measure(Step(s, i)) < Measure(s)
    ensures |Step(s, i).phases| == |s.phases|
  {
    StepIs(s, i);
    var t := Step(s, i);
    hide Step;
    hide Weight;
    LiveUpdate(s.phases, i, t.phases[i]);
    WeightsUpdate(s.phases, i, t.phases[i], s.cell);
    WeightsMove(t.phases, s.cell, t.cell);
    LiveTimes(|s.phases|, Live(s.phases), Live(t.phases));
  }

  lemma LiveTimes(n: nat, live: nat, more: nat)
    requires more == live || more == live - 1
    ensures 2 * n * live == 2 * n * more + if more == live then 0 else 2 * n
  {
  }

  lemma {:induction false} MeasureBounds(texts: seq<string>, states: seq<State>, who: seq<nat>, k: nat)
    requires IsRun(texts, states, who) && k < |states|
    ensures |states[k].phases| == |texts|
    ensures k + Measure(states[k]) <= Measure(states[0])
  {
    if k > 0 {
      MeasureBounds(texts, states, who, k - 1);
      assert CanStep(states[k - 1], who[k - 1]);
      StepDecreases(states[k - 1], who[k - 1]);
    }
  }

  lemma {:induction false} AllLoading(n: nat)
    ensures Live(seq(n, _ => Loading)) == n && Weights(seq(n, _ => Loading), None) == 2 * n
  {
    var phases := seq(n, _ => Loading);
    if n > 0 {
      assert phases[..n - 1] == seq(n - 1, _ => Loading);
      AllLoading(n - 1);
    }
  }

  // Each failed swap is another observer's success, so every run is finite: n
  // observers take at most 2n(n + 1) operations between them.
  lemma RunsEnd(texts: seq<string>, states: seq<State>, who: seq<nat>)
    requires IsRun(texts, states, who)
    ensures |who| <= 2 * |texts| * (|texts| + 1)
  {
    MeasureBounds(texts, states, who, |who|);
    AllLoading(|texts|);
    assert 2 * |texts| * |texts| + 2 * |texts| == 2 * |texts| * (|texts| + 1);
  }
}

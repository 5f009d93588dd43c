// No committed row loses its object, and which objects can belong to nobody.
module ObjectTheorems {
  import opened Options
  import opened ObjectLifecycle

  lemma EmptyInv()
    ensures Inv(Empty) && forall o :: !Orphan(Empty, o)
  {
  }

  // ---- safety ----

  lemma ReferencedIsNotPending(s: State, o: Object)
    requires Inv(s) && Referenced(s, o)
    ensures !Pending(s, o) && o < s.next
  {
    var t :| t in s.rows && s.rows[t] == o;
    if o in s.ops {
      assert OpSound(s, o);
    }
  }

  lemma BeginKeepsInv(s: State, operation: Operation, t: Id)
    requires Inv(s) && CanBegin(s, operation, t)
    ensures Inv(Begun(s, operation, t))
  {
    var n := Begun(s, operation, t);
    assert forall o :: Referenced(n, o) <==> Referenced(s, o);
    if t in s.rows {
      assert Referenced(s, s.rows[t]);
      ReferencedIsNotPending(s, s.rows[t]);
    }
    if Referenced(s, s.next) {
      ReferencedIsNotPending(s, s.next);
    }
    forall id | id in n.ops
      ensures OpSound(n, id)
    {
      if id != s.next {
        assert OpSound(s, id);
      }
    }
  }

  // After an operation's transaction the objects named are those named before,
  // without the one the row had and with the operation's candidate.
  lemma RowsAfterSettle(s: State, id: nat, completion: Completion, effective: bool, o: Object)
    requires Inv(s) && id in s.ops && CanSettle(s, s.ops[id], completion, effective)
    ensures var op := s.ops[id];
            Referenced(SettledState(s, id, completion, effective), o) <==>
              if !effective then Referenced(s, o)
              else op.candidate == Some(o) || (Referenced(s, o) && Reading(s, op.transcript) != Some(o))
  {
    var n, op := SettledState(s, id, completion, effective), s.ops[id];
    assert OpSound(s, id);
    if Referenced(n, o) {
      var t :| t in n.rows && n.rows[t] == o;
      if t != op.transcript {
        assert t in s.rows && s.rows[t] == o;
      }
    }
    if Referenced(s, o) {
      var t :| t in s.rows && s.rows[t] == o;
      assert effective && t != op.transcript ==> t in n.rows && n.rows[t] == o;
    }
    assert effective && op.candidate == Some(o) ==> op.transcript in n.rows && n.rows[op.transcript] == o;
  }

  lemma SettleKeepsRows(s: State, id: nat, completion: Completion, effective: bool)
    requires Inv(s) && id in s.ops && CanSettle(s, s.ops[id], completion, effective)
    ensures RowsSound(SettledState(s, id, completion, effective))
  {
    assert OpSound(s, id);
  }

  lemma SettleKeepsOther(s: State, id: nat, completion: Completion, effective: bool, j: nat)
    requires Inv(s) && id in s.ops && CanSettle(s, s.ops[id], completion, effective) && j in s.ops && j != id
    ensures OpSound(SettledState(s, id, completion, effective), j)
  {
    var n := SettledState(s, id, completion, effective);
    assert OpSound(s, id) && OpSound(s, j);
    RowsAfterSettle(s, id, completion, effective, j);
    forall o | o in Deletes(n.ops[j])
      ensures !Referenced(n, o) && !Pending(n, o)
    {
      RowsAfterSettle(s, id, completion, effective, o);
    }
  }

  lemma SettleKeepsOwn(s: State, id: nat, completion: Completion, effective: bool)
    requires Inv(s) && id in s.ops && CanSettle(s, s.ops[id], completion, effective)
    ensures OpSound(SettledState(s, id, completion, effective), id)
  {
    var n := SettledState(s, id, completion, effective);
    var op, after := s.ops[id], n.ops[id];
    assert OpSound(s, id);
    forall o | o in Deletes(after)
      ensures o < n.next && !Referenced(n, o) && !Pending(n, o)
    {
      RowsAfterSettle(s, id, completion, effective, o);
      if op.candidate != Some(o) {
        if completion == Committed && op.operation == Delete {
          assert Referenced(s, o);
          ReferencedIsNotPending(s, o);
        } else {
          assert op.read == Some(o);
          SupersededIsGone(s, id, completion, effective);
        }
      }
    }
  }

  // What a committed replacement read is referenced by nobody afterwards, even
  // when another operation had already replaced it.
  lemma SupersededIsGone(s: State, id: nat, completion: Completion, effective: bool)
    requires Inv(s) && id in s.ops && CanSettle(s, s.ops[id], completion, effective)
    requires completion == Committed && s.ops[id].operation != Delete && s.ops[id].read.Some?
    ensures !Referenced(SettledState(s, id, completion, effective), s.ops[id].read.value)
    ensures s.ops[id].read.value < s.next
  {
    var n := SettledState(s, id, completion, effective);
    var op := s.ops[id];
    assert OpSound(s, id);
    forall t | t in n.rows
      ensures n.rows[t] != op.read.value
    {
      if t != op.transcript {
        assert s.rows[t] in s.home && s.home[s.rows[t]] == t;
      }
    }
  }

  lemma CleanKeepsInv(s: State, id: nat, gone: bool, reported: bool)
    requires Inv(s) && id in s.ops && s.ops[id].stage.Settled?
    ensures Inv(Cleaned(s, id, gone, reported))
  {
    var n := Cleaned(s, id, gone, reported);
    assert OpSound(s, id);
    assert forall o :: Referenced(n, o) <==> Referenced(s, o);
    forall t | t in n.rows
      ensures n.rows[t] in n.stored
    {
      assert Referenced(s, s.rows[t]);
    }
    forall j | j in n.ops
      ensures OpSound(n, j)
    {
      assert OpSound(s, j);
      if s.ops[j].stage == Uploaded && s.ops[j].candidate.Some? {
        assert Pending(s, j);
      }
    }
  }

  lemma StepKeepsInv(s: State, step: Step)
    requires Inv(s) && CanStep(s, step)
    ensures Inv(After(s, step))
  {
    match step
    case Begin(operation, t) => BeginKeepsInv(s, operation, t);
    case Settle(id, completion, effective) =>
      SettleKeepsRows(s, id, completion, effective);
      SettleKeepsOwn(s, id, completion, effective);
      forall j | j in SettledState(s, id, completion, effective).ops
        ensures OpSound(SettledState(s, id, completion, effective), j)
      {
        if j != id {
          SettleKeepsOther(s, id, completion, effective, j);
        }
      }
    case Clean(id, gone, reported) => CleanKeepsInv(s, id, gone, reported);
  }

  // ---- nobody's objects ----

  // Another operation answers for the same objects after a step as before.
  lemma SameAnswer(op: Op, o: Object)
    ensures op.stage == Uploaded ==> (Answers(op, o) <==> op.candidate == Some(o))
    ensures op.stage != Uploaded ==> (Answers(op, o) <==> o in Deletes(op) || o in Marks(op))
  {
  }

  lemma NewOrphanBegin(s: State, operation: Operation, t: Id, o: Object)
    requires Inv(s) && CanBegin(s, operation, t)
    ensures Orphan(Begun(s, operation, t), o) ==> Orphan(s, o)
  {
    var n := Begun(s, operation, t);
    assert Referenced(n, o) <==> Referenced(s, o);
    if o == s.next && operation != Delete {
      assert s.next in n.ops && Answers(n.ops[s.next], o);
    } else if o !in s.marked && AnsweredFor(s, o) {
      var id :| id in s.ops && Answers(s.ops[id], o);
      assert OpSound(s, id);
      assert id in n.ops && Answers(n.ops[id], o);
    }
  }

  lemma NewOrphanClean(s: State, id: nat, gone: bool, reported: bool, o: Object)
    requires Inv(s) && id in s.ops && s.ops[id].stage.Settled? && (gone || reported)
    ensures Orphan(Cleaned(s, id, gone, reported), o) ==> Orphan(s, o)
  {
    var n := Cleaned(s, id, gone, reported);
    assert Referenced(n, o) <==> Referenced(s, o);
    if o !in s.marked && AnsweredFor(s, o) {
      var j :| j in s.ops && Answers(s.ops[j], o);
      if j != id {
        assert j in n.ops && Answers(n.ops[j], o);
      }
    }
  }

  // Whom a transaction leaves answering for an object: what answered before,
  // unless it was the operation itself, and the operation's own cleanup.
  lemma AnsweredAfterSettle(s: State, id: nat, completion: Completion, effective: bool, o: Object)
    requires id in s.ops && CanSettle(s, s.ops[id], completion, effective)
    ensures var n := SettledState(s, id, completion, effective);
            AnsweredFor(n, o) <==>
              || Answers(n.ops[id], o) || o in s.marked
              || exists j :: j in s.ops && j != id && Answers(s.ops[j], o)
  {
    var n := SettledState(s, id, completion, effective);
    forall j | j in s.ops && j != id
      ensures j in n.ops && n.ops[j] == s.ops[j]
    {
    }
  }

  // The object a row has is no operation's unfinished upload.
  lemma NamedIsNotUploading(s: State, o: Object, id: nat)
    requires Inv(s) && Referenced(s, o) && id in s.ops && s.ops[id].stage == Uploaded
    ensures s.ops[id].candidate != Some(o)
  {
    assert OpSound(s, id);
    ReferencedIsNotPending(s, o);
  }

  lemma NewOrphanSettle(s: State, id: nat, completion: Completion, effective: bool, o: Object)
    requires Inv(s) && id in s.ops && CanSettle(s, s.ops[id], completion, effective)
    ensures var step := Settle(id, completion, effective);
            Orphan(SettledState(s, id, completion, effective), o) && !Orphan(s, o) <==>
              Orphans(s, step) && o == Forgotten(s, step)
  {
    var n, op := SettledState(s, id, completion, effective), s.ops[id];
    assert OpSound(s, id);
    RowsAfterSettle(s, id, completion, effective, o);
    AnsweredAfterSettle(s, id, completion, effective, o);
    SameAnswer(op, o);
    if Referenced(s, o) {
      NamedIsNotUploading(s, o, id);
      assert o in s.stored;
    }
    if effective && Reading(s, op.transcript) == Some(o) {
      assert Referenced(s, o);
      ForgottenExactly(s, id, completion, o);
    }
  }

  // Of the object it displaces, a transaction forgets exactly what its own
  // cleanup does not answer for.
  lemma ForgottenExactly(s: State, id: nat, completion: Completion, o: Object)
    requires Inv(s) && id in s.ops && CanSettle(s, s.ops[id], completion, true)
        && Reading(s, s.ops[id].transcript) == Some(o)
    ensures Forgets(s, Settle(id, completion, true)) <==> !Answers(SettledOp(s, s.ops[id], completion), o)
  {
    assert OpSound(s, id);
    assert Referenced(s, o);
    NamedIsNotUploading(s, o, id);
  }

  // A step makes an object nobody's exactly when it forgets the object it
  // displaces and nobody else answers for it, and then it is that object.
  lemma NewOrphansExactly(s: State, step: Step, o: Object)
    requires Inv(s) && CanStep(s, step)
    ensures Orphan(After(s, step), o) && !Orphan(s, o) <==> Orphans(s, step) && o == Forgotten(s, step)
  {
    match step
    case Begin(operation, t) => NewOrphanBegin(s, operation, t, o);
    case Settle(id, completion, effective) => NewOrphanSettle(s, id, completion, effective, o);
    case Clean(id, gone, reported) => NewOrphanClean(s, id, gone, reported, o);
  }

  // ---- runs ----

  ghost predicate IsRun(states: seq<State>, steps: seq<Step>) {
    && |states| == |steps| + 1 && states[0] == Empty
    && forall i :: 0 <= i < |steps| ==> CanStep(states[i], steps[i]) && states[i + 1] == After(states[i], steps[i])
  }

  lemma {:induction false} RunKeepsInv(states: seq<State>, steps: seq<Step>, i: nat)
    requires IsRun(states, steps) && i < |states|
    ensures Inv(states[i])
  {
    if i == 0 {
      EmptyInv();
    } else {
      RunKeepsInv(states, steps, i - 1);
      assert CanStep(states[i - 1], steps[i - 1]);
      StepKeepsInv(states[i - 1], steps[i - 1]);
    }
  }

  // The main safety result: over every run, no object a committed row names is
  // ever deleted.
  lemma ReferencedObjectsExist(states: seq<State>, steps: seq<Step>, i: nat, t: Id)
    requires IsRun(states, steps) && i < |states| && t in states[i].rows
    ensures states[i].rows[t] in states[i].stored
  {
    RunKeepsInv(states, steps, i);
  }

  ghost predicate NoOrphans(s: State) { forall o: Object :: !Orphan(s, o) }

  // Over every run: each unreferenced object belongs to an operation under way
  // or is marked for reconciliation, in every state, if and only if no step
  // forgets an object that nobody else answers for.
  lemma {:induction false} NoOrphansExactly(states: seq<State>, steps: seq<Step>, i: nat)
    requires IsRun(states, steps) && i < |states|
    ensures (forall k :: 0 <= k <= i ==> NoOrphans(states[k])) <==>
        (forall j :: 0 <= j < i ==> !Orphans(states[j], steps[j]))
  {
    hide Orphan;
    hide Orphans;
    if i == 0 {
      EmptyInv();
    } else {
      NoOrphansExactly(states, steps, i - 1);
      if NoOrphans(states[i - 1]) {
        LastStepExactly(states, steps, i - 1);
      }
    }
  }

  lemma LastStepExactly(states: seq<State>, steps: seq<Step>, j: nat)
    requires IsRun(states, steps) && j < |steps| && NoOrphans(states[j])
    ensures NoOrphans(states[j + 1]) <==> !Orphans(states[j], steps[j])
  {
    hide Orphan;
    hide AnsweredFor;
    hide Forgets;
    hide After;
    var s, n, step := states[j], states[j + 1], steps[j];
    RunKeepsInv(states, steps, j);
    assert CanStep(s, step) && n == After(s, step);
    forall o: Object
      ensures Orphan(n, o) && !Orphan(s, o) <==> Orphans(s, step) && o == Forgotten(s, step)
    {
      NewOrphansExactly(s, step, o);
    }
    if Orphans(s, step) {
      assert Orphan(n, Forgotten(s, step));
    }
  }

  // It happens: a rewrite installs its object between the read and the commit
  // of a republish. When all is done the rewrite's object is stored, and no
  // row, operation or report knows of it.
  lemma RepublishCanStrand() returns (states: seq<State>, steps: seq<Step>)
    ensures IsRun(states, steps)
    ensures var last := states[|steps|];
            last.ops == map[] && last.marked == {} && exists o :: Orphan(last, o)
  {
    states, steps := [Empty], [];
    states, steps := Extend(states, steps, Begin(Create, 1));
    states, steps := Extend(states, steps, Settle(0, Committed, true));
    states, steps := Extend(states, steps, Clean(0, true, false));
    assert states[3] == State(map[1 := 0], {0}, map[], {}, 1, map[0 := 1]);
    states, steps := RaceFrom(states, steps);
    states, steps := RaceEnds(states, steps);
    assert Orphan(states[9], 2);
  }

  lemma RaceFrom(states: seq<State>, steps: seq<Step>) returns (states': seq<State>, steps': seq<Step>)
    requires IsRun(states, steps) && |steps| == 3
    requires states[3] == State(map[1 := 0], {0}, map[], {}, 1, map[0 := 1])
    ensures IsRun(states', steps') && |steps'| == 7
    ensures states'[7] == State(map[1 := 2], {1, 2}, map[1 := Op(Republish, 1, Some(0), Some(1), Uploaded)], {}, 3,
        map[0 := 1, 1 := 1, 2 := 1])
  {
    hide IsRun;
    states', steps' := Extend(states, steps, Begin(Republish, 1));
    states', steps' := Extend(states', steps', Begin(Rewrite, 1));
    states', steps' := Extend(states', steps', Settle(2, Committed, true));
    states', steps' := Extend(states', steps', Clean(2, true, false));
  }

  lemma RaceEnds(states: seq<State>, steps: seq<Step>) returns (states': seq<State>, steps': seq<Step>)
    requires IsRun(states, steps) && |steps| == 7
    requires states[7] == State(map[1 := 2], {1, 2}, map[1 := Op(Republish, 1, Some(0), Some(1), Uploaded)], {}, 3,
        map[0 := 1, 1 := 1, 2 := 1])
    ensures IsRun(states', steps') && |steps'| == 9
    ensures states'[9] == State(map[1 := 1], {1, 2}, map[], {}, 3, map[0 := 1, 1 := 1, 2 := 1])
  {
    states', steps' := Extend(states, steps, Settle(1, Committed, true));
    states', steps' := Extend(states', steps', Clean(1, true, false));
  }

  lemma Extend(states: seq<State>, steps: seq<Step>, step: Step) returns (states': seq<State>, steps': seq<Step>)
    requires IsRun(states, steps) && CanStep(states[|steps|], step)
    ensures IsRun(states', steps') && |steps'| == |steps| + 1
    ensures states'[|steps'|] == After(states[|steps|], step)
  {
    states', steps' := states + [After(states[|steps|], step)], steps + [step];
    forall i | 0 <= i < |steps'|
      ensures CanStep(states'[i], steps'[i]) && states'[i + 1] == After(states'[i], steps'[i])
    {
      if i < |steps| {
        assert states'[i] == states[i] && states'[i + 1] == states[i + 1] && steps'[i] == steps[i];
      }
    }
  }
}

// Ciphertext objects under concurrent creates, republishes, rewrites and
// deletes whose transactions commit, roll back, or end ambiguously.
module ObjectLifecycle {
  import opened Options

  datatype Operation = Create | Republish | Rewrite | Delete

  datatype Completion = Committed | KnownRollback | Ambiguous

  datatype Decision = Decision(deleteCandidate: bool, deleteSuperseded: bool, deleteTarget: bool, reconcile: bool)

  const NoCleanup := Decision(false, false, false, false)

  // cleanupDecision
  function CleanupDecision(operation: Operation, completion: Completion, installed: bool): Decision {
    if completion == Ambiguous then NoCleanup.(reconcile := true)
    else if completion == KnownRollback || !installed then
      NoCleanup.(deleteCandidate := operation == Create || operation == Republish || operation == Rewrite)
    else
      match operation
      case Republish => NoCleanup.(deleteSuperseded := true)
      case Rewrite => NoCleanup.(deleteSuperseded := true)
      case Delete => NoCleanup.(deleteTarget := true)
      case Create => NoCleanup
  }

  type Object = nat
  type Id = nat

  // read is the object the row named when the operation looked; candidate the
  // one it uploaded; target the one its deleting transaction returned.
  datatype Stage = Uploaded | Settled(completion: Completion, target: Option<Object>)

  datatype Op = Op(operation: Operation, transcript: Id, read: Option<Object>, candidate: Option<Object>, stage: Stage)

  // home is the transcript each object was uploaded for; marked what was reported
  // for reconciliation.
  datatype State = State(
    rows: map<Id, Object>, stored: set<Object>, ops: map<nat, Op>, marked: set<Object>, next: nat,
    home: map<Object, Id>)

  // ---- steps ----

  function Reading(s: State, t: Id): Option<Object> { if t in s.rows then Some(s.rows[t]) else None }

  // An operation reads the row, when it must exist, and uploads its candidate.
  predicate CanBegin(s: State, operation: Operation, t: Id) {
    if operation == Create then t !in s.rows else t in s.rows
  }

  function Begun(s: State, operation: Operation, t: Id): State {
    var uploads := operation != Delete;
    var op := Op(operation, t, Reading(s, t), if uploads then Some(s.next) else None, Uploaded);
    s.(ops := s.ops[s.next := op], next := s.next + 1,
       stored := if uploads then s.stored + {s.next} else s.stored,
       home := if uploads then s.home[s.next := t] else s.home)
  }

  // Whether the transaction's statement finds what it changes.
  predicate Applies(s: State, op: Op) {
    match op.operation
    case Create => op.transcript !in s.rows
    case Republish => op.transcript in s.rows
    case Rewrite => op.transcript in s.rows && op.read == Some(s.rows[op.transcript])
    case Delete => op.transcript in s.rows
  }

  function RowsAfter(s: State, op: Op): map<Id, Object> {
    if op.candidate.Some? then s.rows[op.transcript := op.candidate.value] else s.rows - {op.transcript}
  }

  // An effect takes place when the commit is confirmed, and may have when it is
  // ambiguous.
  predicate CanSettle(s: State, op: Op, completion: Completion, effective: bool) {
    && op.stage == Uploaded
    && (effective ==> Applies(s, op))
    && (completion == Committed ==> effective)
    && (completion == KnownRollback ==> !effective)
  }

  // What the operation's own cleanup will delete or mark.
  function Deletes(op: Op): set<Object> {
    if !op.stage.Settled? then {}
    else
      var d := CleanupDecision(op.operation, op.stage.completion, op.stage.completion == Committed);
      (if d.deleteCandidate && op.candidate.Some? then {op.candidate.value} else {}) +
      (if d.deleteSuperseded && op.read.Some? then {op.read.value} else {}) +
      (if d.deleteTarget && op.stage.target.Some? then {op.stage.target.value} else {})
  }

  // An ambiguous upload reports its candidate, an ambiguous delete what it read.
  function Marks(op: Op): set<Object> {
    if !op.stage.Settled? then {}
    else
      var d := CleanupDecision(op.operation, op.stage.completion, op.stage.completion == Committed);
      if !d.reconcile then {}
      else if op.operation == Delete then (if op.read.Some? then {op.read.value} else {})
      else if op.candidate.Some? then {op.candidate.value} else {}
  }

  function SettledOp(s: State, op: Op, completion: Completion): Op {
    op.(stage := Settled(completion,
      if op.operation == Delete && completion == Committed then Reading(s, op.transcript) else None))
  }

  function SettledState(s: State, id: nat, completion: Completion, effective: bool): State
    requires id in s.ops
  {
    var op := s.ops[id];
    s.(rows := if effective then RowsAfter(s, op) else s.rows, ops := s.ops[id := SettledOp(s, op, completion)])
  }

  // A deletion the object store did not confirm is reported, whether or not the
  // object is still there.
  function Cleaned(s: State, id: nat, gone: bool, reported: bool): State
    requires id in s.ops
  {
    var deletes := Deletes(s.ops[id]);
    s.(stored := if gone then s.stored - deletes else s.stored,
       marked := s.marked + Marks(s.ops[id]) + if reported then deletes else {},
       ops := s.ops - {id})
  }

  datatype Step =
    | Begin(operation: Operation, transcript: Id)
    | Settle(id: nat, completion: Completion, effective: bool)
    | Clean(id: nat, gone: bool, reported: bool)

  predicate CanStep(s: State, step: Step) {
    match step
    case Begin(operation, t) => CanBegin(s, operation, t)
    case Settle(id, completion, effective) => id in s.ops && CanSettle(s, s.ops[id], completion, effective)
    case Clean(id, gone, reported) => id in s.ops && s.ops[id].stage.Settled? && (gone || reported)
  }

  function After(s: State, step: Step): State
    requires CanStep(s, step)
  {
    match step
    case Begin(operation, t) => Begun(s, operation, t)
    case Settle(id, completion, effective) => SettledState(s, id, completion, effective)
    case Clean(id, gone, reported) => Cleaned(s, id, gone, reported)
  }

  const Empty := State(map[], {}, map[], {}, 0, map[])

  // ---- the invariant ----

  ghost predicate Referenced(s: State, o: Object) { exists t :: t in s.rows && s.rows[t] == o }

  // The candidate of an operation whose transaction has not run. An operation
  // is numbered as the object it uploads.
  predicate Pending(s: State, o: Object) {
    o in s.ops && s.ops[o].stage == Uploaded && s.ops[o].candidate == Some(o)
  }

  ghost predicate OpSound(s: State, id: nat)
    requires id in s.ops
  {
    var op := s.ops[id];
    && id < s.next
    && (op.candidate.None? <==> op.operation == Delete)
    && (op.candidate.Some? ==> op.candidate.value == id && id in s.home && s.home[id] == op.transcript)
    && (op.operation == Create ==> op.read == None)
    && (op.read.Some? ==>
      op.read.value in s.home && s.home[op.read.value] == op.transcript && !Pending(s, op.read.value))
    && (op.stage == Uploaded && op.candidate.Some? ==> id in s.stored && !Referenced(s, id))
    && (forall o :: o in Deletes(op) ==> o < s.next && !Referenced(s, o) && !Pending(s, o))
  }

  ghost predicate RowsSound(s: State) {
    && (forall t :: t in s.rows ==> s.rows[t] in s.stored && s.rows[t] in s.home && s.home[s.rows[t]] == t)
    && (forall o :: o in s.stored || o in s.home ==> o < s.next)
  }

  ghost predicate Inv(s: State) {
    RowsSound(s) && forall id :: id in s.ops ==> OpSound(s, id)
  }

  // An operation under way answers for what it uploaded and for what its own
  // cleanup will delete or report.
  predicate Answers(op: Op, o: Object) {
    (op.stage == Uploaded && op.candidate == Some(o)) || o in Deletes(op) || o in Marks(op)
  }

  ghost predicate AnsweredFor(s: State, o: Object) {
    o in s.marked || exists id :: id in s.ops && Answers(s.ops[id], o)
  }

  // Nobody's object: no row names it, no operation answers for it and no report
  // mentions it.
  ghost predicate Orphan(s: State, o: Object) {
    o in s.stored && !Referenced(s, o) && !AnsweredFor(s, o)
  }

  // A transaction that changes a row whose object its own cleanup will neither
  // delete nor report: a republish that commits over an object it did not read,
  // a replacement whose commit is ambiguous and did take place, and an ambiguous
  // delete of an object it did not read.
  predicate Forgets(s: State, step: Step) {
    step.Settle? && step.id in s.ops && step.effective &&
    var op := s.ops[step.id];
    op.transcript in s.rows &&
    match op.operation
    case Create => false
    case Republish => step.completion == Ambiguous || op.read != Some(s.rows[op.transcript])
    case Rewrite => step.completion == Ambiguous
    case Delete => step.completion == Ambiguous && op.read != Some(s.rows[op.transcript])
  }

  function Forgotten(s: State, step: Step): Object
    requires Forgets(s, step)
  {
    s.rows[s.ops[step.id].transcript]
  }

  // It forgets an object that nobody else answers for either.
  ghost predicate Orphans(s: State, step: Step) {
    Forgets(s, step) && !AnsweredFor(s, Forgotten(s, step))
  }
}

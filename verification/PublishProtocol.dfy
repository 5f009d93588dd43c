// Publishes and collective decisions running side by side: each pins one
// pooled connection, takes its publish keys and then its authority keys in
// order, and works on the shared ledger while it holds them. Transcripts may be
// deleted at any time, without those keys.
module PublishProtocol {
  import opened Options
  import Names
  import opened AssociationLedger
  import opened PublishLocks

  datatype Publish = Publish(owner: string, local: string, associations: seq<Association>)

  // One caller: the publish keys it takes, the authority keys it takes after
  // them, and what it publishes in between, if anything.
  datatype Client = Client(publishKeys: seq<string>, authorityKeys: seq<string>, publish: Option<Publish>)

  datatype Phase =
    | Waiting                   // for a connection
    | Publishing(taken: nat)    // holds the first publish keys
    | Preflighted               // validated once, about to upload
    | Uploaded                  // about to open the final transaction
    | Revalidated               // validated again, about to insert
    | Deciding(taken: nat)      // holds every publish key and the first authority keys
    | Releasing(left: nat)      // committed; holds the publish keys not yet unlocked
    | Done

  // What a publish knows from its last validation.
  datatype Memo = Nothing | Rejected | Accepted(existing: Option<nat>, added: seq<Association>)

  datatype State = State(
    phases: seq<Phase>, memos: seq<Memo>,
    transcripts: map<(string, string), nat>, next: nat, ledger: set<Binding>)

  // ---- callers ----

  ghost predicate HoldsPublishKeys(p: Publish, keys: seq<string>) {
    && IsAccount(p.owner)
    && SessionKey(p.owner, p.local) in keys
    && forall a :: a in p.associations ==> AssociationKey(p.owner, a.id) in keys
  }

  ghost predicate WellFormed(c: Client) {
    && Names.StrictlyIncreasing(c.publishKeys + c.authorityKeys)
    && (c.publish.Some? ==> HoldsPublishKeys(c.publish.value, c.publishKeys))
  }

  function AssociationKeys(owner: string, associations: seq<Association>): (r: seq<string>)
    ensures |r| == |associations|
    ensures forall i :: 0 <= i < |associations| ==> r[i] == AssociationKey(owner, associations[i].id)
  {
    seq(|associations|, i requires 0 <= i < |associations| => AssociationKey(owner, associations[i].id))
  }

  function SessionKeys(owner: string, locals: seq<string>): (r: seq<string>)
    ensures |r| == |locals|
    ensures forall i :: 0 <= i < |locals| ==> r[i] == SessionKey(owner, locals[i])
  {
    seq(|locals|, i requires 0 <= i < |locals| => SessionKey(owner, locals[i]))
  }

  function AuthorityKeys(actor: string, groups: seq<string>): (r: seq<string>)
    ensures forall k :: k in r ==> IsAuthorityKey(k)
  {
    [ACTOR + actor] + seq(|groups|, i requires 0 <= i < |groups| => AUTHORITY + groups[i])
  }

  // A single publish.
  function Publisher(p: Publish): Client {
    Client(LockOrder([SessionKey(p.owner, p.local)] + AssociationKeys(p.owner, p.associations)), [], Some(p))
  }

  // Work over sessions of one account that ends in a collective decision; with
  // no sessions, a decision alone.
  function Decider(owner: string, locals: seq<string>, actor: string, groups: seq<string>): Client {
    Client(LockOrder(SessionKeys(owner, locals)), LockOrder(AuthorityKeys(actor, groups)), None)
  }

  lemma PublisherIsWellFormed(p: Publish)
    requires IsAccount(p.owner)
    ensures WellFormed(Publisher(p))
  {
    var keys := [SessionKey(p.owner, p.local)] + AssociationKeys(p.owner, p.associations);
    LockOrderIncreases(keys);
    assert LockOrder(keys) + [] == LockOrder(keys);
    assert keys[0] in keys;
    forall a | a in p.associations
      ensures AssociationKey(p.owner, a.id) in keys
    {
      var i :| 0 <= i < |p.associations| && p.associations[i] == a;
      assert keys[i + 1] == AssociationKey(p.owner, a.id);
    }
  }

  lemma DeciderIsWellFormed(owner: string, locals: seq<string>, actor: string, groups: seq<string>)
    ensures WellFormed(Decider(owner, locals, actor, groups))
  {
    var p, a := SessionKeys(owner, locals), AuthorityKeys(actor, groups);
    LockOrderIncreases(p);
    LockOrderIncreases(a);
    forall k | k in LockOrder(p)
      ensures IsPublishKey(k)
    {
      var i :| 0 <= i < |p| && p[i] == k;
      assert k == PUBLISH + (owner + ":session:" + locals[i]) by {
        assert PUBLISH + owner + ":session:" + locals[i] == PUBLISH + (owner + ":session:" + locals[i]);
      }
    }
    ConcatIncreases(LockOrder(p), LockOrder(a));
  }

  // ---- what a caller holds and wants ----

  function KeySet(keys: seq<string>): set<string> { set k | k in keys }

  ghost predicate InRange(c: Client, phase: Phase) {
    match phase
    case Publishing(n) => n <= |c.publishKeys|
    case Deciding(n) => n <= |c.authorityKeys|
    case Releasing(n) => n <= |c.publishKeys|
    case Waiting => true
    case Done => true
    case _ => c.publish.Some?
  }

  function Held(c: Client, phase: Phase): set<string>
    requires InRange(c, phase)
  {
    match phase
    case Waiting => {}
    case Publishing(n) => KeySet(c.publishKeys[..n])
    case Deciding(n) => KeySet(c.publishKeys) + KeySet(c.authorityKeys[..n])
    case Releasing(n) => KeySet(c.publishKeys[..n])
    case Done => {}
    case _ => KeySet(c.publishKeys)
  }

  predicate Connected(phase: Phase) { phase != Waiting && phase != Done }

  function Wanted(c: Client, phase: Phase): Option<string>
    requires InRange(c, phase)
  {
    match phase
    case Publishing(n) => if n < |c.publishKeys| then Some(c.publishKeys[n]) else None
    case Deciding(n) => if n < |c.authorityKeys| then Some(c.authorityKeys[n]) else None
    case _ => None
  }

  // ---- steps ----

  ghost predicate Shaped(clients: seq<Client>, s: State) {
    && |s.phases| == |s.memos| == |clients|
    && forall c :: 0 <= c < |clients| ==> WellFormed(clients[c]) && InRange(clients[c], s.phases[c])
  }

  ghost function ConnectedClients(s: State): set<nat> {
    set c: nat | c < |s.phases| && Connected(s.phases[c])
  }

  ghost predicate HeldByOther(clients: seq<Client>, s: State, c: nat, key: string)
    requires Shaped(clients, s)
  {
    exists d: nat :: d < |clients| && d != c && key in Held(clients[d], s.phases[d])
  }

  // Whether the next step of c can be taken.
  ghost predicate Enabled(clients: seq<Client>, pool: nat, s: State, c: nat)
    requires Shaped(clients, s) && c < |clients|
  {
    match s.phases[c]
    case Waiting => |ConnectedClients(s)| < pool
    case Done => false
    case _ =>
      var k := Wanted(clients[c], s.phases[c]);
      k.Some? ==> !HeldByOther(clients, s, c, k.value)
  }

  function Existing(s: State, p: Publish): Option<nat> {
    if (p.owner, p.local) in s.transcripts then Some(s.transcripts[(p.owner, p.local)]) else None
  }

  ghost function Validation(s: State, p: Publish, existing: Option<nat>): Memo {
    var added := Validated(s.ledger, p.owner, existing, p.associations);
    if added.None? then Rejected else Accepted(existing, added.value)
  }

  // The transcript a validation was about has been deleted since.
  predicate Gone(s: State, existing: Option<nat>) { existing.Some? && existing.value !in s.transcripts.Values }

  // The final transaction: create the transcript when there is none, and add
  // the new bindings.
  function Inserted(s: State, p: Publish, m: Memo): State {
    if !m.Accepted? then s
    else if m.existing.Some? then s.(ledger := s.ledger + RowsOf(p.owner, m.existing.value, m.added))
    else
      s.(transcripts := s.transcripts[(p.owner, p.local) := s.next], next := s.next + 1,
         ledger := s.ledger + RowsOf(p.owner, s.next, m.added))
  }

  // The validation in the final transaction, which begins by locking the row it
  // replaces and is refused when there is none.
  ghost function Repeated(s: State, p: Publish, m: Memo): Memo {
    if !m.Accepted? then m else if Gone(s, m.existing) then Rejected else Validation(s, p, m.existing)
  }

  function Move(s: State, c: nat, phase: Phase): State
    requires c < |s.phases|
  {
    s.(phases := s.phases[c := phase])
  }

  // The state after c's next step.
  ghost function After(clients: seq<Client>, s: State, c: nat): State
    requires Shaped(clients, s) && c < |clients| && s.phases[c] != Done
  {
    var client := clients[c];
    match s.phases[c]
    case Waiting => Move(s, c, Publishing(0))
    case Publishing(n) =>
      if n < |client.publishKeys| then Move(s, c, Publishing(n + 1))
      else if client.publish.None? then Move(s, c, Deciding(0))
      else
        var p := client.publish.value;
        Move(s, c, Preflighted).(memos := s.memos[c := Validation(s, p, Existing(s, p))])
    case Preflighted => Move(s, c, Uploaded)
    case Uploaded => Move(s, c, Revalidated).(memos := s.memos[c := Repeated(s, client.publish.value, s.memos[c])])
    case Revalidated =>
      Move(Inserted(s, client.publish.value, s.memos[c]), c, Deciding(0)).(memos := s.memos[c := Nothing])
    case Deciding(n) =>
      if n < |client.authorityKeys| then Move(s, c, Deciding(n + 1)) else Move(s, c, Releasing(|client.publishKeys|))
    case Releasing(n) => if n > 0 then Move(s, c, Releasing(n - 1)) else Move(s, c, Done)
  }

  // A caller that is cancelled, refused, or loses its session gives up its
  // locks and its connection at once.
  function Cancelled(s: State, c: nat): State
    requires c < |s.phases| && c < |s.memos|
  {
    Move(s, c, Done).(memos := s.memos[c := Nothing])
  }

  // A final transaction that replaces a transcript holds its row until it ends.
  ghost predicate RowLocked(s: State, transcript: nat)
    requires |s.memos| == |s.phases|
  {
    exists c: nat ::
      c < |s.phases| && s.phases[c] == Revalidated && s.memos[c].Accepted? && s.memos[c].existing == Some(transcript)
  }

  ghost predicate CanDelete(s: State, key: (string, string))
    requires |s.memos| == |s.phases|
  {
    key in s.transcripts && !RowLocked(s, s.transcripts[key])
  }

  // Deleting a transcript takes its bindings with it.
  function Deleted(s: State, key: (string, string)): State
    requires key in s.transcripts
  {
    s.(transcripts := s.transcripts - {key}, ledger := s.ledger - BindingsOf(s, s.transcripts[key]))
  }

  function BindingsOf(s: State, transcript: nat): set<Binding> { set b | b in s.ledger && b.transcript == transcript }

  ghost predicate Next(clients: seq<Client>, pool: nat, s: State, t: State)
    requires Shaped(clients, s)
  {
    || (exists c: nat :: c < |clients| && s.phases[c] != Done &&
         ((Enabled(clients, pool, s, c) && t == After(clients, s, c)) || t == Cancelled(s, c)))
    || (exists key :: CanDelete(s, key) && t == Deleted(s, key))
  }

  ghost predicate Initial(clients: seq<Client>, s: State) {
    && |s.phases| == |s.memos| == |clients|
    && (forall c :: 0 <= c < |clients| ==> WellFormed(clients[c]) && s.phases[c] == Waiting && s.memos[c] == Nothing)
    && SoundStore(s)
  }

  // ---- the invariant ----

  ghost predicate TranscriptsDistinct(s: State) {
    && (forall j, k :: j in s.transcripts && k in s.transcripts && s.transcripts[j] == s.transcripts[k] ==> j == k)
    && (forall k :: k in s.transcripts ==> s.transcripts[k] < s.next)
  }

  // The ledger's two keys are unique, and each row belongs to its owner's
  // transcript.
  ghost predicate SoundStore(s: State) {
    && WellBound(s.ledger)
    && TranscriptsDistinct(s)
    && (forall b :: b in s.ledger ==>
      exists local :: (b.owner, local) in s.transcripts && s.transcripts[(b.owner, local)] == b.transcript)
  }

  ghost predicate Exclusive(clients: seq<Client>, s: State)
    requires Shaped(clients, s)
  {
    forall c: nat, d: nat, k ::
      c < |clients| && d < |clients| && k in Held(clients[c], s.phases[c]) && k in Held(clients[d], s.phases[d])
      ==> c == d
  }

  // An accepted validation would still come out the same, unless its transcript
  // was deleted.
  ghost predicate StillTrue(s: State, p: Publish, m: Memo) {
    m.Accepted? ==>
      if Gone(s, m.existing) then m.existing.value < s.next
      else m.existing == Existing(s, p) && Validated(s.ledger, p.owner, m.existing, p.associations) == Some(m.added)
  }

  predicate Validating(phase: Phase) { phase == Preflighted || phase == Uploaded || phase == Revalidated }

  ghost predicate MemosTrue(clients: seq<Client>, s: State)
    requires Shaped(clients, s)
  {
    forall c: nat :: c < |clients| && Validating(s.phases[c]) ==>
      && StillTrue(s, clients[c].publish.value, s.memos[c])
      && (s.phases[c] == Revalidated && s.memos[c].Accepted? ==> !Gone(s, s.memos[c].existing))
  }

  ghost predicate Inv(clients: seq<Client>, pool: nat, s: State) {
    && Shaped(clients, s)
    && Exclusive(clients, s)
    && |ConnectedClients(s)| <= pool
    && SoundStore(s)
    && MemosTrue(clients, s)
  }
}

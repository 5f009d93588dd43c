// Safety over every interleaving, and progress.
module PublishTheorems {
  import opened Options
  import Names
  import opened AssociationLedger
  import opened PublishLocks
  import opened PublishProtocol

  lemma InitialInv(clients: seq<Client>, pool: nat, s: State)
    requires Initial(clients, s)
    ensures Inv(clients, pool, s)
  {
    assert ConnectedClients(s) == {};
  }

  // ---- locks and connections ----

  lemma KeySetGrows(keys: seq<string>, n: nat)
    requires n < |keys|
    ensures KeySet(keys[..n + 1]) == KeySet(keys[..n]) + {keys[n]}
  {
    assert keys[..n + 1] == keys[..n] + [keys[n]];
  }

  lemma AllKeys(keys: seq<string>)
    ensures keys[..|keys|] == keys && KeySet(keys[..0]) == {}
  {
  }

  // A step of c adds at most the key it wants to what it holds.
  lemma StepHolds(clients: seq<Client>, s: State, c: nat)
    requires Shaped(clients, s) && c < |clients| && s.phases[c] != Done
    ensures var t := After(clients, s, c);
            var k := Wanted(clients[c], s.phases[c]);
            && InRange(clients[c], t.phases[c])
            && Held(clients[c], t.phases[c]) <= Held(clients[c], s.phases[c]) + (if k.Some? then {k.value} else {})
            && (s.phases[c] != Waiting ==> Connected(s.phases[c]))
  {
    var client := clients[c];
    AllKeys(client.publishKeys);
    AllKeys(client.authorityKeys);
    match s.phases[c]
    case Publishing(n) =>
      if n < |client.publishKeys| {
        KeySetGrows(client.publishKeys, n);
      }
    case Deciding(n) =>
      if n < |client.authorityKeys| {
        KeySetGrows(client.authorityKeys, n);
      }
    case Releasing(n) =>
      if n > 0 {
        KeySetGrows(client.publishKeys, n - 1);
      }
    case _ =>
  }

  lemma OthersStay(clients: seq<Client>, s: State, c: nat)
    requires Shaped(clients, s) && c < |clients| && s.phases[c] != Done
    ensures var t := After(clients, s, c);
            && |t.phases| == |s.phases| && |t.memos| == |s.memos|
            && (forall d :: 0 <= d < |clients| && d != c ==> t.phases[d] == s.phases[d] && t.memos[d] == s.memos[d])
            && Shaped(clients, t)
  {
    StepHolds(clients, s, c);
  }

  lemma ExclusiveStep(clients: seq<Client>, pool: nat, s: State, c: nat)
    requires Shaped(clients, s) && Exclusive(clients, s) && c < |clients| && s.phases[c] != Done
        && Enabled(clients, pool, s, c)
    ensures Shaped(clients, After(clients, s, c)) && Exclusive(clients, After(clients, s, c))
  {
    hide After;
    hide Held;
    hide Wanted;
    OthersStay(clients, s, c);
    StepHolds(clients, s, c);
    WantedOnlyByConnected(clients[c], s.phases[c]);
    var t := After(clients, s, c);
    forall d: nat, k | d < |clients| && d != c && k in Held(clients[d], t.phases[d])
      ensures k !in Held(clients[c], t.phases[c])
    {
      assert k in Held(clients[d], s.phases[d]);
      assert k !in Held(clients[c], s.phases[c]);
      assert HeldByOther(clients, s, c, k);
    }
  }

  lemma WantedOnlyByConnected(c: Client, phase: Phase)
    requires InRange(c, phase)
    ensures Wanted(c, phase).Some? ==> Connected(phase)
    ensures !Connected(phase) ==> Held(c, phase) == {}
  {
  }

  lemma ConnectedStep(clients: seq<Client>, pool: nat, s: State, c: nat)
    requires Shaped(clients, s) && c < |clients| && s.phases[c] != Done && Enabled(clients, pool, s, c)
    requires |ConnectedClients(s)| <= pool
    ensures |ConnectedClients(After(clients, s, c))| <= pool
  {
    var t := After(clients, s, c);
    OthersStay(clients, s, c);
    if s.phases[c] == Waiting {
      assert ConnectedClients(t) == ConnectedClients(s) + {c};
    } else {
      assert ConnectedClients(t) <= ConnectedClients(s);
      Smaller(ConnectedClients(t), ConnectedClients(s));
    }
  }

  lemma Smaller(a: set<nat>, b: set<nat>)
    requires a <= b
    ensures |a| <= |b|
  {
    var rest := b - a;
    assert b == a + rest && a !! rest;
    assert |b| == |a| + |rest|;
  }

  // ---- the store ----

  lemma InsertKeepsSound(s: State, p: Publish, m: Memo)
    requires SoundStore(s) && StillTrue(s, p, m) && (m.Accepted? ==> !Gone(s, m.existing))
    ensures SoundStore(Inserted(s, p, m))
    ensures s.ledger <= Inserted(s, p, m).ledger
    ensures forall k :: k in s.transcripts ==>
        k in Inserted(s, p, m).transcripts && Inserted(s, p, m).transcripts[k] == s.transcripts[k]
  {
    if m.Accepted? {
      var t := Inserted(s, p, m);
      var tid := if m.existing.Some? then m.existing.value else s.next;
      if m.existing.None? {
        forall b | b in s.ledger
          ensures b.transcript != s.next
        {
          var local :| (b.owner, local) in s.transcripts && s.transcripts[(b.owner, local)] == b.transcript;
        }
      }
      InsertKeepsWellBound(s.ledger, p.owner, m.existing, p.associations, tid);
      assert t.ledger == s.ledger + RowsOf(p.owner, tid, m.added);
      forall b | b in t.ledger
        ensures exists local :: (b.owner, local) in t.transcripts && t.transcripts[(b.owner, local)] == b.transcript
      {
        if b in s.ledger {
          var local :| (b.owner, local) in s.transcripts && s.transcripts[(b.owner, local)] == b.transcript;
          assert (b.owner, local) in t.transcripts;
        } else {
          assert (p.owner, p.local) in t.transcripts && t.transcripts[(p.owner, p.local)] == tid;
        }
      }
    }
  }

  // A deleted transcript's number is never given again.
  lemma InsertKeepsLive(s: State, p: Publish, m: Memo, existing: Option<nat>)
    requires TranscriptsDistinct(s) && (m.Accepted? && m.existing.Some? ==> m.existing == Existing(s, p))
    requires m.Accepted? && m.existing.None? ==> Existing(s, p).None?
    requires existing.Some? ==> existing.value < s.next
    ensures Gone(Inserted(s, p, m), existing) <==> Gone(s, existing)
  {
    var t := Inserted(s, p, m);
    if existing.Some? && existing.value in s.transcripts.Values {
      var k :| k in s.transcripts && s.transcripts[k] == existing.value;
      assert k in t.transcripts && t.transcripts[k] == existing.value;
    }
  }

  // What another publish inserts cannot change a verdict taken under locks it
  // does not share.
  lemma OtherInsertIsUnrelated(s: State, p: Publish, m: Memo, q: Publish, mq: Memo)
    requires SoundStore(s) && StillTrue(s, p, m) && StillTrue(s, q, mq) && (m.Accepted? ==> !Gone(s, m.existing))
    requires (p.owner, p.local) != (q.owner, q.local)
    requires forall a, b :: a in p.associations && b in q.associations && p.owner == q.owner ==> a.id != b.id
    ensures StillTrue(Inserted(s, p, m), q, mq)
    ensures mq.Accepted? && !Gone(s, mq.existing) ==> !Gone(Inserted(s, p, m), mq.existing)
  {
    if mq.Accepted? {
      InsertKeepsLive(s, p, m, mq.existing);
    }
    if m.Accepted? && mq.Accepted? && !Gone(s, mq.existing) {
      var t := Inserted(s, p, m);
      var tid := if m.existing.Some? then m.existing.value else s.next;
      var more := RowsOf(p.owner, tid, m.added);
      NewOnesAreRequested(s.ledger, p.owner, p.associations);
      assert t.ledger == s.ledger + more;
      assert Existing(t, q) == Existing(s, q);
      forall b, a | b in more && a in q.associations && b.owner == q.owner
        ensures b.id != a.id
      {
        var i :| 0 <= i < |m.added| && b == Binding(p.owner, m.added[i].id, tid, m.added[i].commit);
        assert m.added[i] in p.associations;
      }
      forall b | b in more && b.owner == q.owner && mq.existing.Some?
        ensures b.transcript != mq.existing.value
      {
        assert b.transcript == tid;
      }
      UnrelatedRows(s.ledger, more, q.owner, mq.existing, q.associations);
    }
  }

  // Two publishes under way at once share no session and no association.
  lemma PublishesAreApart(clients: seq<Client>, s: State, c: nat, d: nat)
    requires Shaped(clients, s) && Exclusive(clients, s) && c < |clients| && d < |clients| && c != d
    requires Validating(s.phases[c]) && Validating(s.phases[d])
    ensures var p, q := clients[c].publish.value, clients[d].publish.value;
            && (p.owner, p.local) != (q.owner, q.local)
            && forall a, b :: a in p.associations && b in q.associations && p.owner == q.owner ==> a.id != b.id
  {
    hide SessionKey;
    hide AssociationKey;
    var p, q := clients[c].publish.value, clients[d].publish.value;
    assert Held(clients[c], s.phases[c]) == KeySet(clients[c].publishKeys);
    assert Held(clients[d], s.phases[d]) == KeySet(clients[d].publishKeys);
    assert SessionKey(p.owner, p.local) in Held(clients[c], s.phases[c]);
    assert SessionKey(p.owner, p.local) !in Held(clients[d], s.phases[d]);
    assert SessionKey(q.owner, q.local) in Held(clients[d], s.phases[d]);
    forall a, b | a in p.associations && b in q.associations && p.owner == q.owner
      ensures a.id != b.id
    {
      assert AssociationKey(p.owner, a.id) in Held(clients[c], s.phases[c]);
      assert AssociationKey(p.owner, a.id) !in Held(clients[d], s.phases[d]);
      assert AssociationKey(q.owner, b.id) in Held(clients[d], s.phases[d]);
    }
  }

  lemma InsertStep(clients: seq<Client>, s: State, c: nat)
    requires Shaped(clients, s) && Exclusive(clients, s) && SoundStore(s) && MemosTrue(clients, s)
    requires c < |clients| && s.phases[c] == Revalidated
    ensures SoundStore(After(clients, s, c))
    ensures Shaped(clients, After(clients, s, c)) && MemosTrue(clients, After(clients, s, c))
  {
    hide Validated;
    hide SoundStore;
    var p, m := clients[c].publish.value, s.memos[c];
    var stored := Inserted(s, p, m);
    InsertKeepsSound(s, p, m);
    OthersStay(clients, s, c);
    var t := After(clients, s, c);
    SameStoreSound(stored, t);
    forall d: nat | d < |clients| && Validating(t.phases[d])
      ensures StillTrue(t, clients[d].publish.value, t.memos[d])
    {
      assert d != c;
      PublishesAreApart(clients, s, c, d);
      OtherInsertIsUnrelated(s, p, m, clients[d].publish.value, s.memos[d]);
    }
  }

  lemma SameStoreSound(s: State, t: State)
    requires s.ledger == t.ledger && s.transcripts == t.transcripts && s.next == t.next
    requires SoundStore(s)
    ensures SoundStore(t)
  {
  }

  lemma OtherSteps(clients: seq<Client>, s: State, c: nat)
    requires Shaped(clients, s) && SoundStore(s) && MemosTrue(clients, s)
    requires c < |clients| && s.phases[c] != Revalidated && s.phases[c] != Done
    ensures SoundStore(After(clients, s, c))
    ensures Shaped(clients, After(clients, s, c)) && MemosTrue(clients, After(clients, s, c))
    ensures After(clients, s, c).ledger == s.ledger
  {
    hide Validated;
    OthersStay(clients, s, c);
    SameStore(clients, s, c);
    OwnMemo(clients, s, c);
    hide After;
    var t := After(clients, s, c);
    SameStoreSound(s, t);
    hide SoundStore;
    forall d: nat | d < |clients| && Validating(t.phases[d])
      ensures StillTrue(t, clients[d].publish.value, t.memos[d])
      ensures t.phases[d] == Revalidated && t.memos[d].Accepted? ==> !Gone(t, t.memos[d].existing)
    {
      if d != c {
        assert StillTrue(s, clients[d].publish.value, s.memos[d]);
      }
    }
  }

  lemma OwnMemo(clients: seq<Client>, s: State, c: nat)
    requires Shaped(clients, s) && c < |clients| && s.phases[c] != Done && s.phases[c] != Revalidated
    requires TranscriptsDistinct(s)
    requires Validating(s.phases[c]) ==> StillTrue(s, clients[c].publish.value, s.memos[c])
    ensures var t := After(clients, s, c);
            Validating(t.phases[c]) ==>
              && StillTrue(s, clients[c].publish.value, t.memos[c])
              && (t.phases[c] == Revalidated && t.memos[c].Accepted? ==> !Gone(s, t.memos[c].existing))
  {
    hide Validated;
  }

  lemma CancelStep(clients: seq<Client>, pool: nat, s: State, c: nat)
    requires Inv(clients, pool, s) && c < |clients| && s.phases[c] != Done
    ensures Inv(clients, pool, Cancelled(s, c)) && Cancelled(s, c).ledger == s.ledger
  {
    hide Validated;
    var t := Cancelled(s, c);
    assert ConnectedClients(t) <= ConnectedClients(s);
    Smaller(ConnectedClients(t), ConnectedClients(s));
    forall a: nat, b: nat, k | a < |clients| && b < |clients| && k in Held(clients[a], t.phases[a])
      && k in Held(clients[b], t.phases[b])
      ensures a == b
    {
      assert k in Held(clients[a], s.phases[a]) && k in Held(clients[b], s.phases[b]);
    }
    forall d: nat | d < |clients| && Validating(t.phases[d])
      ensures StillTrue(t, clients[d].publish.value, t.memos[d])
    {
      assert StillTrue(s, clients[d].publish.value, s.memos[d]);
    }
  }

  // ---- deleting ----

  // What is left of the store is sound: the numbers of transcripts are distinct,
  // so only bindings of the deleted one go.
  lemma DeleteKeepsSound(s: State, key: (string, string))
    requires SoundStore(s) && key in s.transcripts
    ensures SoundStore(Deleted(s, key))
  {
    var t := Deleted(s, key);
    forall b | b in t.ledger
      ensures exists local :: (b.owner, local) in t.transcripts && t.transcripts[(b.owner, local)] == b.transcript
    {
      var local :| (b.owner, local) in s.transcripts && s.transcripts[(b.owner, local)] == b.transcript;
      assert (b.owner, local) in t.transcripts;
    }
  }

  lemma DeletedIsGone(s: State, key: (string, string), existing: Option<nat>)
    requires TranscriptsDistinct(s) && key in s.transcripts
    ensures Gone(Deleted(s, key), existing) <==> Gone(s, existing) || existing == Some(s.transcripts[key])
  {
    var t := Deleted(s, key);
    if existing.Some? && existing.value in s.transcripts.Values && existing.value != s.transcripts[key] {
      var k :| k in s.transcripts && s.transcripts[k] == existing.value;
      assert k in t.transcripts && t.transcripts[k] == existing.value;
    }
  }

  // A request accepted for another transcript names no id of the deleted one.
  lemma AcceptedIsElsewhere(s: State, q: Publish, mq: Memo, b: Binding, a: Association)
    requires WellBound(s.ledger) && mq.Accepted?
    requires Validated(s.ledger, q.owner, mq.existing, q.associations) == Some(mq.added)
    requires b in s.ledger && b.owner == q.owner && mq.existing != Some(b.transcript) && a in q.associations
    ensures b.id != a.id
  {
    assert Acceptable(s.ledger, q.owner, mq.existing, q.associations);
    if b.id == a.id {
      assert HasId(s.ledger, q.owner, a.id);
    }
  }

  lemma DeleteIsUnrelated(s: State, key: (string, string), q: Publish, mq: Memo)
    requires SoundStore(s) && key in s.transcripts && StillTrue(s, q, mq)
    ensures StillTrue(Deleted(s, key), q, mq)
  {
    if mq.Accepted? {
      var t, tid := Deleted(s, key), s.transcripts[key];
      DeletedIsGone(s, key, mq.existing);
      hide Validated;
      if Gone(s, mq.existing) || mq.existing == Some(tid) {
        assert mq.existing.value < t.next;
      } else {
        var rows := BindingsOf(s, tid);
        assert Existing(t, q) == Existing(s, q);
        forall b, a | b in rows && a in q.associations && b.owner == q.owner
          ensures b.id != a.id
        {
          AcceptedIsElsewhere(s, q, mq, b, a);
        }
        assert t.ledger + rows == s.ledger;
        UnrelatedRows(t.ledger, rows, q.owner, mq.existing, q.associations);
      }
    }
  }

  lemma DeleteStep(clients: seq<Client>, pool: nat, s: State, key: (string, string))
    requires Inv(clients, pool, s) && CanDelete(s, key)
    ensures Inv(clients, pool, Deleted(s, key))
  {
    hide Validated;
    var t := Deleted(s, key);
    DeleteKeepsSound(s, key);
    hide WellBound;
    assert ConnectedClients(t) == ConnectedClients(s);
    forall d: nat | d < |clients| && Validating(t.phases[d])
      ensures StillTrue(t, clients[d].publish.value, t.memos[d])
      ensures t.phases[d] == Revalidated && t.memos[d].Accepted? ==> !Gone(t, t.memos[d].existing)
    {
      DeleteIsUnrelated(s, key, clients[d].publish.value, s.memos[d]);
      DeletedIsGone(s, key, if s.memos[d].Accepted? then s.memos[d].existing else None);
    }
  }

  // Every step keeps the invariant.
  lemma NextKeepsInv(clients: seq<Client>, pool: nat, s: State, t: State)
    requires Inv(clients, pool, s) && Next(clients, pool, s, t)
    ensures Inv(clients, pool, t)
  {
    hide After;
    hide SoundStore;
    hide Exclusive;
    hide MemosTrue;
    hide Cancelled;
    hide Deleted;
    if key :| CanDelete(s, key) && t == Deleted(s, key) {
      DeleteStep(clients, pool, s, key);
    } else {
      var c: nat :| c < |clients| && s.phases[c] != Done &&
        ((Enabled(clients, pool, s, c) && t == After(clients, s, c)) || t == Cancelled(s, c));
      if t == Cancelled(s, c) {
        CancelStep(clients, pool, s, c);
      } else {
        ClientStep(clients, pool, s, c);
      }
    }
  }

  lemma ClientStep(clients: seq<Client>, pool: nat, s: State, c: nat)
    requires Inv(clients, pool, s) && c < |clients| && s.phases[c] != Done && Enabled(clients, pool, s, c)
    ensures Inv(clients, pool, After(clients, s, c))
  {
    hide After;
    hide SoundStore;
    hide Exclusive;
    hide MemosTrue;
    ExclusiveStep(clients, pool, s, c);
    ConnectedStep(clients, pool, s, c);
    if s.phases[c] == Revalidated {
      InsertStep(clients, s, c);
    } else {
      OtherSteps(clients, s, c);
    }
  }

  // A step keeps a binding exactly as long as its transcript, and brings no
  // deleted transcript back.
  lemma NextKeepsBinding(clients: seq<Client>, pool: nat, s: State, t: State, b: Binding)
    requires Inv(clients, pool, s) && Next(clients, pool, s, t)
    requires b.transcript < s.next && (b in s.ledger <==> b.transcript in s.transcripts.Values)
    ensures s.next <= t.next && (b in t.ledger <==> b.transcript in t.transcripts.Values)
  {
    hide After;
    hide Validated;
    hide Exclusive;
    hide Deleted;
    hide Enabled;
    hide Gone;
    if key :| CanDelete(s, key) && t == Deleted(s, key) {
      DeleteKeepsBinding(s, key, b);
    } else {
      var c: nat :| c < |clients| && s.phases[c] != Done &&
        ((Enabled(clients, pool, s, c) && t == After(clients, s, c)) || t == Cancelled(s, c));
      if t != Cancelled(s, c) {
        if s.phases[c] == Revalidated {
          InsertedStore(clients, s, c);
          InsertKeepsBinding(s, clients[c].publish.value, s.memos[c], b);
        } else {
          SameStore(clients, s, c);
        }
      }
    }
  }

  // Only the insertion touches the store.
  lemma SameStore(clients: seq<Client>, s: State, c: nat)
    requires Shaped(clients, s) && c < |clients| && s.phases[c] != Done && s.phases[c] != Revalidated
    ensures var t := After(clients, s, c);
            t.ledger == s.ledger && t.transcripts == s.transcripts && t.next == s.next
  {
    hide Repeated;
    hide Validation;
  }

  lemma InsertedStore(clients: seq<Client>, s: State, c: nat)
    requires Shaped(clients, s) && c < |clients| && s.phases[c] == Revalidated
    ensures var t, stored := After(clients, s, c), Inserted(s, clients[c].publish.value, s.memos[c]);
            t.ledger == stored.ledger && t.transcripts == stored.transcripts && t.next == stored.next
  {
    hide Inserted;
  }

  lemma DeleteKeepsBinding(s: State, key: (string, string), b: Binding)
    requires TranscriptsDistinct(s) && key in s.transcripts
    requires b in s.ledger <==> b.transcript in s.transcripts.Values
    ensures Deleted(s, key).next == s.next
    ensures b in Deleted(s, key).ledger <==> b.transcript in Deleted(s, key).transcripts.Values
  {
    DeletedIsGone(s, key, Some(b.transcript));
  }

  lemma InsertKeepsBinding(s: State, p: Publish, m: Memo, b: Binding)
    requires TranscriptsDistinct(s) && StillTrue(s, p, m) && (m.Accepted? ==> !Gone(s, m.existing))
    requires b.transcript < s.next && (b in s.ledger <==> b.transcript in s.transcripts.Values)
    ensures var t := Inserted(s, p, m);
            s.next <= t.next && (b in t.ledger <==> b.transcript in t.transcripts.Values)
  {
    hide Validated;
    InsertKeepsLive(s, p, m, Some(b.transcript));
  }

  // ---- runs ----

  ghost predicate IsRun(clients: seq<Client>, pool: nat, run: seq<State>) {
    && run != [] && Initial(clients, run[0])
    && (forall i :: 0 <= i < |run| ==> Shaped(clients, run[i]))
    && forall i :: 0 <= i < |run| - 1 ==> Next(clients, pool, run[i], run[i + 1])
  }

  lemma {:induction false} RunKeepsInv(clients: seq<Client>, pool: nat, run: seq<State>, i: nat)
    requires IsRun(clients, pool, run) && i < |run|
    ensures Inv(clients, pool, run[i])
  {
    if i == 0 {
      InitialInv(clients, pool, run[0]);
    } else {
      RunKeepsInv(clients, pool, run, i - 1);
      NextKeepsInv(clients, pool, run[i - 1], run[i]);
    }
  }

  // The main safety result: over every interleaving, each owner's ledger keeps
  // one binding per association id and one id per transcript and commit, and
  // a binding once present stays as it is for as long as its transcript.
  lemma LedgerIsSafe(clients: seq<Client>, pool: nat, run: seq<State>, i: nat, j: nat)
    requires IsRun(clients, pool, run) && i <= j < |run|
    ensures WellBound(run[j].ledger)
    ensures forall b :: b in run[i].ledger ==> (b in run[j].ledger <==> b.transcript in run[j].transcripts.Values)
  {
    RunKeepsInv(clients, pool, run, j);
    forall b | b in run[i].ledger
      ensures b in run[j].ledger <==> b.transcript in run[j].transcripts.Values
    {
      RunKeepsBinding(clients, pool, run, i, j, b);
    }
  }

  lemma {:induction false} RunKeepsBinding(clients: seq<Client>, pool: nat, run: seq<State>, i: nat, j: nat, b: Binding)
    requires IsRun(clients, pool, run) && i <= j < |run| && b in run[i].ledger
    ensures b.transcript < run[j].next && (b in run[j].ledger <==> b.transcript in run[j].transcripts.Values)
    decreases j
  {
    hide Next;
    hide MemosTrue;
    hide Exclusive;
    hide WellBound;
    if i < j {
      RunKeepsBinding(clients, pool, run, i, j - 1, b);
      RunKeepsInv(clients, pool, run, j - 1);
      hide Inv;
      NextKeepsBinding(clients, pool, run[j - 1], run[j], b);
    } else {
      RunKeepsInv(clients, pool, run, i);
    }
  }

  // The validation repeated in the final transaction, after the upload, gives
  // exactly the preflight's answer, unless the transcript it accepted has been
  // deleted: then, and only then, what was accepted is refused.
  lemma RevalidationAgrees(clients: seq<Client>, pool: nat, run: seq<State>, i: nat, c: nat)
    requires IsRun(clients, pool, run) && i < |run| && c < |clients|
    requires run[i].phases[c] == Uploaded
    ensures var m := run[i].memos[c];
            var deleted := m.Accepted? && Gone(run[i], m.existing);
            After(clients, run[i], c).memos[c] == if deleted then Rejected else m
  {
    RunKeepsInv(clients, pool, run, i);
    assert StillTrue(run[i], clients[c].publish.value, run[i].memos[c]);
  }

  // ---- progress ----

  // Everything a caller holds comes before what it wants.
  lemma HeldBeforeWanted(c: Client, phase: Phase, k: string)
    requires WellFormed(c) && InRange(c, phase) && Wanted(c, phase).Some? && k in Held(c, phase)
    ensures Names.Lt(k, Wanted(c, phase).value)
  {
    var all := c.publishKeys + c.authorityKeys;
    match phase
    case Publishing(n) =>
      var i :| 0 <= i < n && c.publishKeys[..n][i] == k;
      assert all[i] == k && all[n] == c.publishKeys[n];
    case Deciding(n) =>
      assert all[|c.publishKeys| + n] == c.authorityKeys[n];
      if k in c.publishKeys {
        var i :| 0 <= i < |c.publishKeys| && c.publishKeys[i] == k;
        assert all[i] == k;
      } else {
        var i :| 0 <= i < n && c.authorityKeys[..n][i] == k;
        assert all[|c.publishKeys| + i] == k;
      }
    case _ =>
  }

  ghost predicate Wants(clients: seq<Client>, s: State, c: nat)
    requires Shaped(clients, s)
  {
    c < |clients| && Wanted(clients[c], s.phases[c]).Some?
  }

  // Of the callers that want a key, one wants the last key of all.
  lemma {:induction false} GreatestWanted(clients: seq<Client>, s: State, n: nat) returns (c: nat)
    requires Shaped(clients, s) && n <= |clients|
    requires exists d: nat :: d < n && Wants(clients, s, d)
    ensures c < n && Wants(clients, s, c)
    ensures forall d: nat :: d < n && Wants(clients, s, d) ==>
              Names.Le(Wanted(clients[d], s.phases[d]).value, Wanted(clients[c], s.phases[c]).value)
  {
    hide Wanted;
    var last := n - 1;
    if exists d: nat :: d < last && Wants(clients, s, d) {
      c := GreatestWanted(clients, s, last);
      if Wants(clients, s, last) {
        var a, b := Wanted(clients[c], s.phases[c]).value, Wanted(clients[last], s.phases[last]).value;
        Names.LtTotal(a, b);
        if Names.Lt(a, b) {
          forall d: nat | d < n && Wants(clients, s, d)
            ensures Names.Le(Wanted(clients[d], s.phases[d]).value, b)
          {
            if d != last {
              var x := Wanted(clients[d], s.phases[d]).value;
              if x != a {
                Names.LtTransitive(x, a, b);
              }
            }
          }
          c := last;
        }
      }
    } else {
      c := last;
    }
  }

  // The caller wanting the last key can go on: whoever held it would want a
  // later one or be free to move.
  lemma SomeoneCanMove(clients: seq<Client>, pool: nat, s: State, u: nat) returns (c: nat)
    requires Inv(clients, pool, s) && pool >= 1 && u < |clients| && s.phases[u] != Done
    ensures c < |clients| && s.phases[c] != Done && Enabled(clients, pool, s, c)
  {
    if free: nat :| free < |clients| && Connected(s.phases[free]) && !Wants(clients, s, free) {
      c := free;
    } else if exists d: nat :: d < |clients| && Wants(clients, s, d) {
      c := GreatestWanted(clients, s, |clients|);
      var k := Wanted(clients[c], s.phases[c]).value;
      WantedOnlyByConnected(clients[c], s.phases[c]);
      if HeldByOther(clients, s, c, k) {
        var h: nat :| h < |clients| && h != c && k in Held(clients[h], s.phases[h]);
        WantedOnlyByConnected(clients[h], s.phases[h]);
        assert Wants(clients, s, h);
        HeldBeforeWanted(clients[h], s.phases[h], k);
        NoLater(k, Wanted(clients[h], s.phases[h]).value);
      }
    } else {
      forall d: nat | d < |clients|
        ensures !Connected(s.phases[d])
      {
        assert !Wants(clients, s, d);
      }
      assert ConnectedClients(s) == {};
      c := u;
    }
  }

  lemma NoLater(k: string, x: string)
    requires Names.Lt(k, x)
    ensures !Names.Le(x, k)
  {
    Names.LtIrreflexive(k);
    if Names.Lt(x, k) {
      Names.LtTransitive(k, x, k);
    }
  }

  // The main progress result: no reachable state has more callers connected than
  // the pool has connections, and one in which some caller is unfinished has an
  // enabled step of an unfinished caller if and only if there is a connection.
  lemma NoDeadlock(clients: seq<Client>, pool: nat, run: seq<State>, i: nat)
    requires IsRun(clients, pool, run) && i < |run|
    requires exists u: nat :: u < |clients| && run[i].phases[u] != Done
    ensures |ConnectedClients(run[i])| <= pool
    ensures (exists c: nat :: c < |clients| && run[i].phases[c] != Done && Enabled(clients, pool, run[i], c)) <==>
        pool >= 1
  {
    RunKeepsInv(clients, pool, run, i);
    var u: nat :| u < |clients| && run[i].phases[u] != Done;
    if pool >= 1 {
      var c := SomeoneCanMove(clients, pool, run[i], u);
    } else {
      NobodyStarts(clients, run[i]);
    }
  }

  lemma NobodyStarts(clients: seq<Client>, s: State)
    requires Inv(clients, 0, s)
    ensures forall c: nat :: c < |clients| ==> !Enabled(clients, 0, s, c)
  {
    assert ConnectedClients(s) == {};
    forall c: nat | c < |clients|
      ensures !Enabled(clients, 0, s, c)
    {
      assert c !in ConnectedClients(s);
    }
  }

  // ---- every run ends ----

  // The steps a caller still has before it.
  function Remaining(c: Client, phase: Phase): nat {
    var p, a := |c.publishKeys|, |c.authorityKeys|;
    match phase
    case Waiting => 2 * p + a + 9
    case Publishing(n) => if n <= p then (p - n) + p + a + 8 else 0
    case Preflighted => p + a + 7
    case Uploaded => p + a + 6
    case Revalidated => p + a + 5
    case Deciding(n) => if n <= a then p + (a - n) + 3 else 0
    case Releasing(n) => n + 1
    case Done => 0
  }

  ghost function TotalRemaining(clients: seq<Client>, s: State, n: nat): nat
    requires |s.phases| == |clients| && n <= |clients|
  {
    if n == 0 then 0 else TotalRemaining(clients, s, n - 1) + Remaining(clients[n - 1], s.phases[n - 1])
  }

  lemma {:induction false} LessAhead(clients: seq<Client>, s: State, t: State, c: nat, more: nat, n: nat)
    requires |s.phases| == |t.phases| == |clients| && c < |clients| && n <= |clients|
    requires forall d :: 0 <= d < |clients| && d != c ==> t.phases[d] == s.phases[d]
    requires Remaining(clients[c], t.phases[c]) + more < Remaining(clients[c], s.phases[c])
    ensures TotalRemaining(clients, t, n) <= TotalRemaining(clients, s, n)
    ensures c < n ==> TotalRemaining(clients, t, n) + more < TotalRemaining(clients, s, n)
  {
    if n > 0 {
      LessAhead(clients, s, t, c, more, n - 1);
    }
  }

  // What is still to come: the callers' steps, and a deletion for each
  // transcript there is or will be.
  ghost function Ahead(clients: seq<Client>, s: State): nat
    requires |s.phases| == |clients|
  {
    TotalRemaining(clients, s, |clients|) + |s.transcripts|
  }

  lemma NextDecreases(clients: seq<Client>, pool: nat, s: State, t: State)
    requires Shaped(clients, s) && Next(clients, pool, s, t)
    ensures |t.phases| == |clients| && Ahead(clients, t) < Ahead(clients, s)
  {
    if key :| CanDelete(s, key) && t == Deleted(s, key) {
      SamePhases(clients, s, t, |clients|);
      OneTranscriptLess(s, key);
    } else {
      var c: nat :| c < |clients| && s.phases[c] != Done &&
        ((Enabled(clients, pool, s, c) && t == After(clients, s, c)) || t == Cancelled(s, c));
      StepRemains(clients, s, c);
      StepCreates(clients, s, c);
      hide After;
      OthersStay(clients, s, c);
      var more := |t.transcripts| - |s.transcripts|;
      assert 0 <= more <= 1;
      LessAhead(clients, s, t, c, more, |clients|);
    }
  }

  lemma OneTranscriptLess(s: State, key: (string, string))
    requires key in s.transcripts
    ensures |Deleted(s, key).transcripts| == |s.transcripts| - 1
  {
    var rest := s.transcripts - {key};
    assert rest.Keys == s.transcripts.Keys - {key};
    assert |rest| == |rest.Keys| && |s.transcripts| == |s.transcripts.Keys|;
  }

  lemma {:induction false} SamePhases(clients: seq<Client>, s: State, t: State, n: nat)
    requires |s.phases| == |t.phases| == |clients| && n <= |clients| && s.phases == t.phases
    ensures TotalRemaining(clients, t, n) == TotalRemaining(clients, s, n)
  {
    if n > 0 {
      SamePhases(clients, s, t, n - 1);
    }
  }

  // Only inserting creates a transcript, and it creates one.
  lemma StepCreates(clients: seq<Client>, s: State, c: nat)
    requires Shaped(clients, s) && c < |clients| && s.phases[c] != Done
    ensures 0 <= |After(clients, s, c).transcripts| - |s.transcripts| <= if s.phases[c] == Revalidated then 1 else 0
  {
    if s.phases[c] == Revalidated && s.memos[c].Accepted? && s.memos[c].existing.None? {
      var p := clients[c].publish.value;
      var k := (p.owner, p.local);
      var more := s.transcripts[k := s.next];
      assert more.Keys == s.transcripts.Keys + {k};
      assert |more| == |more.Keys| && |s.transcripts| == |s.transcripts.Keys|;
    }
  }

  lemma StepRemains(clients: seq<Client>, s: State, c: nat)
    requires Shaped(clients, s) && c < |clients| && s.phases[c] != Done
    ensures var before := Remaining(clients[c], s.phases[c]);
            && Remaining(clients[c], After(clients, s, c).phases[c])
                 + (if s.phases[c] == Revalidated then 1 else 0) < before
            && Remaining(clients[c], Done) < before
  {
  }

  // No run is longer than the steps its callers have and the transcripts there
  // are to delete, so with NoDeadlock every run that is followed to its end
  // finishes every caller.
  lemma {:induction false} RunsEnd(clients: seq<Client>, pool: nat, run: seq<State>, i: nat)
    requires IsRun(clients, pool, run) && i < |run|
    ensures i + Ahead(clients, run[i]) <= Ahead(clients, run[0])
  {
    hide Ahead;
    hide Next;
    if i > 0 {
      RunsEnd(clients, pool, run, i - 1);
      NextDecreases(clients, pool, run[i - 1], run[i]);
    }
  }
}

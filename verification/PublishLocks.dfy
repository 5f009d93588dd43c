// Publish lock keys, the order they are taken in, and what is left behind when
// taking or dropping them fails.
module PublishLocks {
  import Names

  const PUBLISH: string := "village:association-publish:"
  const ACTOR: string := "village:collective-actor:"
  const AUTHORITY: string := "village:collective-authority:"

  function SessionKey(owner: string, local: string): string { PUBLISH + owner + ":session:" + local }

  function AssociationKey(owner: string, id: string): string { PUBLISH + owner + ":association:" + id }

  // An account's 16 bytes print as 32 hexadecimal digits.
  predicate IsAccount(owner: string) { |owner| == 32 }

  lemma SameTail(a: string, b: string, x: string, y: string)
    requires a + x == b + y && |a| == |b|
    ensures a == b && x == y
  {
    assert (a + x)[..|a|] == a && (b + y)[..|b|] == b;
    assert (a + x)[|a|..] == x && (b + y)[|b|..] == y;
  }

  lemma SessionKeyInjective(o: string, l: string, o': string, l': string)
    requires IsAccount(o) && IsAccount(o')
    ensures SessionKey(o, l) == SessionKey(o', l') <==> o == o' && l == l'
  {
    if SessionKey(o, l) == SessionKey(o', l') {
      SameTail(PUBLISH + o + ":session:", PUBLISH + o' + ":session:", l, l');
      SameTail(PUBLISH + o, PUBLISH + o', ":session:", ":session:");
      SameTail(PUBLISH, PUBLISH, o, o');
    }
  }

  lemma AssociationKeyInjective(o: string, i: string, o': string, i': string)
    requires IsAccount(o) && IsAccount(o')
    ensures AssociationKey(o, i) == AssociationKey(o', i') <==> o == o' && i == i'
  {
    if AssociationKey(o, i) == AssociationKey(o', i') {
      SameTail(PUBLISH + o + ":association:", PUBLISH + o' + ":association:", i, i');
      SameTail(PUBLISH + o, PUBLISH + o', ":association:", ":association:");
      SameTail(PUBLISH, PUBLISH, o, o');
    }
  }

  // ---- the lock order ----

  function Dedup(keys: seq<string>): (r: seq<string>)
    ensures forall k :: k in r <==> k in keys
  {
    if keys == [] then []
    else
      var n := |keys| - 1;
      var before := Dedup(keys[..n]);
      assert keys == keys[..n] + [keys[n]];
      if keys[n] in before then before else before + [keys[n]]
  }

  function LockOrder(keys: seq<string>): seq<string> { Names.SortNames(Dedup(keys)) }

  lemma {:induction false} DedupOnce(keys: seq<string>)
    ensures forall i, j :: 0 <= i < j < |Dedup(keys)| ==> Dedup(keys)[i] != Dedup(keys)[j]
  {
    if keys != [] {
      DedupOnce(keys[..|keys| - 1]);
      var before := Dedup(keys[..|keys| - 1]);
      assert forall i :: 0 <= i < |before| ==> before[i] in before;
    }
  }

  // The keys are taken once each, in increasing order.
  lemma LockOrderIncreases(keys: seq<string>)
    ensures Names.StrictlyIncreasing(LockOrder(keys))
    ensures forall k :: k in LockOrder(keys) <==> k in keys
  {
    DedupOnce(keys);
    Names.SortStrict(Dedup(keys));
  }

  // Two callers with the same keys, named in any order and any number of
  // times, take them in one order.
  lemma LockOrderAgrees(a: seq<string>, b: seq<string>)
    requires forall k :: k in a <==> k in b
    ensures LockOrder(a) == LockOrder(b)
  {
    LockOrderIncreases(a);
    LockOrderIncreases(b);
    Names.IncreasingUnique(LockOrder(a), LockOrder(b));
  }

  // ---- the authority keys come after every publish key ----

  predicate IsPublishKey(k: string) { PUBLISH <= k }

  predicate IsAuthorityKey(k: string) { ACTOR <= k || AUTHORITY <= k }

  lemma PublishBeforeAuthority(p: string, a: string)
    requires IsPublishKey(p) && IsAuthorityKey(a)
    ensures Names.Lt(p, a)
  {
    var village := "village:";
    assert PUBLISH[..8] == village && ACTOR[..8] == village && AUTHORITY[..8] == village;
    assert PUBLISH[8] == 'a' && ACTOR[8] == 'c' && AUTHORITY[8] == 'c';
    assert p[..8] == PUBLISH[..8] && p[8] == 'a';
    assert a[..8] == village && a[8] == 'c';
    assert p == village + p[8..] && a == village + a[8..];
    Names.LtPrefix(village, p[8..], a[8..]);
  }

  lemma ConcatIncreases(publish: seq<string>, authority: seq<string>)
    requires Names.StrictlyIncreasing(publish) && Names.StrictlyIncreasing(authority)
    requires forall k :: k in publish ==> IsPublishKey(k)
    requires forall k :: k in authority ==> IsAuthorityKey(k)
    ensures Names.StrictlyIncreasing(publish + authority)
  {
    var all := publish + authority;
    forall i, j | 0 <= i < j < |all|
      ensures Names.Lt(all[i], all[j])
    {
      if i < |publish| <= j {
        assert all[i] in publish && all[j] in authority;
        PublishBeforeAuthority(all[i], all[j]);
      }
    }
  }

  // ---- taking and dropping them on one session ----

  // What the server did and what the client saw of one lock request: a
  // cancelled request may have been granted all the same.
  datatype LockOutcome = Granted | GrantedUnseen | Refused

  // NothingPinned is a caller that got no session.
  datatype Returned = ToPool | Evicted | NothingPinned

  // A physical database session and the advisory locks it holds.
  class Session {
    var held: set<string>

    constructor ()
      ensures held == {}
    {
      held := {};
    }

    method Lock(key: string, outcome: LockOutcome) returns (ok: bool)
      modifies this
      ensures ok <==> outcome == Granted
      ensures held == old(held) + if outcome == Refused then {} else {key}
    {
      if outcome != Refused {
        held := held + {key};
      }
      ok := outcome == Granted;
    }

    // Unlocking a key the session never got is harmless; an answer that does
    // not arrive proves nothing.
    method Unlock(key: string, answered: bool) returns (ok: bool)
      modifies this
      ensures ok == answered
      ensures held == if answered then old(held) - {key} else old(held)
    {
      if answered {
        held := held - {key};
      }
      ok := answered;
    }
  }

  // Undoes the attempts in reverse. The session goes back to the pool only when
  // every unlock was answered; otherwise it is detached and closed.
  method Release(session: Session, attempted: seq<string>, answered: nat -> bool) returns (returned: Returned)
    requires forall k :: k in session.held ==> k in attempted
    modifies session
    ensures returned == if forall i: nat :: i < |attempted| ==> answered(i) then ToPool else Evicted
    ensures returned == ToPool ==> session.held == {}
  {
    var failed := false;
    var i := |attempted|;
    while i > 0
      invariant 0 <= i <= |attempted|
      invariant failed <==> exists j: nat :: i <= j < |attempted| && !answered(j)
      invariant forall k :: k in session.held ==> k in attempted
      invariant !failed ==> forall j :: i <= j < |attempted| ==> attempted[j] !in session.held
    {
      i := i - 1;
      var ok := session.Unlock(attempted[i], answered(i));
      if !ok {
        failed := true;
      }
    }
    if failed {
      returned := Evicted;
    } else {
      returned := ToPool;
    }
  }

  // What asking the pool for a connection gives: a handler may have no pool at
  // all, and the pool may refuse.
  datatype Connection = NoPool | NotAcquired | Pinned(session: Session)

  // withPublishLockKeys around its callback: with a pool the callback runs
  // exactly when every key is held, and no session goes back holding one;
  // without a pool it runs at once and holds nothing.
  method WithPublishLockKeys(connection: Connection, keys: seq<string>, outcome: nat -> LockOutcome,
                             answered: nat -> bool)
    returns (ran: bool, returned: Returned, ghost heldInside: set<string>)
    requires connection.Pinned? ==> connection.session.held == {}
    modifies if connection.Pinned? then {connection.session} else {}
    ensures connection.NoPool? ==> ran && heldInside == {}
    ensures connection.NotAcquired? ==> !ran
    ensures connection.Pinned? ==> (ran <==> forall i: nat :: i < |LockOrder(keys)| ==> outcome(i) == Granted)
    ensures connection.Pinned? && ran ==> heldInside == (set k | k in keys)
    ensures returned == NothingPinned <==> !connection.Pinned?
    ensures returned == ToPool ==> connection.session.held == {}
  {
    if connection.NoPool? {
      return true, NothingPinned, {};
    }
    var ordered := LockOrder(keys);
    if connection.NotAcquired? {
      return false, NothingPinned, {};
    }
    var session := connection.session;
    LockOrderIncreases(keys);
    var attempted: seq<string> := [];
    ran, heldInside := true, {};
    for i := 0 to |ordered|
      invariant attempted == ordered[..i]
      invariant ran
      invariant forall j: nat :: j < i ==> outcome(j) == Granted
      invariant forall k :: k in session.held <==> k in attempted
    {
      attempted := attempted + [ordered[i]];
      assert attempted == ordered[..i + 1];
      var ok := session.Lock(ordered[i], outcome(i));
      if !ok {
        ran := false;
        break;
      }
    }
    if ran {
      assert attempted == ordered;
      heldInside := session.held;
      assert forall k :: k in heldInside <==> k in keys;
      assert heldInside == set k | k in keys;
    }
    returned := Release(session, attempted, answered);
  }
}

// The service that mints and looks up disclosure tokens.
module ScopeCache {
  import opened Options
  import opened ScopeLog

  // A request as callers hold it: the tags are a slice they may go on changing.
  datatype Request = Request(variant: string, viewer: string, filters: seq<string>, tags: array<string>)

  datatype Entry = Entry(request: Request, groupId: string, expires: int)

  datatype Refusal = GroupScopeExpired

  ghost function ValueOf(r: Request): Value
    reads r.tags
  {
    Value(r.variant, r.viewer, r.filters, r.tags[..])
  }

  method CopyTags(tags: array<string>) returns (copy: array<string>)
    ensures fresh(copy) && copy[..] == tags[..]
  {
    copy := new string[tags.Length](i requires 0 <= i < tags.Length reads tags => tags[i]);
  }

  class GroupedScopeService {
    var entries: map<string, Entry>
    ghost var log: seq<Minted>
    ghost var clock: int
    ghost var slices: set<array<string>>

    ghost function Held(): map<string, Minted>
      reads this, slices
      requires forall t :: t in entries ==> entries[t].request.tags in slices
    {
      map t | t in entries :: Minted(t, entries[t].groupId, ValueOf(entries[t].request), entries[t].expires - LIFETIME)
    }

    ghost predicate Valid()
      reads this, slices
    {
      && (forall t :: t in entries ==> entries[t].request.tags in slices)
      && Refines(log, Held(), clock)
    }

    constructor ()
      ensures Valid() && log == [] && slices == {}
    {
      entries, log, clock, slices := map[], [], 0, {};
    }

    // Deletes what has expired, one entry after another in any order.
    method Purge(now: int)
      requires Valid() && clock <= now
      modifies this`entries
      ensures forall t :: t in entries <==> t in old(entries) && now < old(entries)[t].expires
      ensures forall t :: t in entries ==> entries[t] == old(entries)[t]
    {
      var rest := entries.Keys;
      while rest != {}
        invariant rest <= entries.Keys <= old(entries).Keys
        invariant forall t :: t in entries ==> entries[t] == old(entries)[t]
        invariant forall t :: t in old(entries) && t !in rest ==> (t in entries <==> now < old(entries)[t].expires)
      {
        var key :| key in rest;
        if !(now < entries[key].expires) {
          entries := entries - {key};
        }
        rest := rest - {key};
      }
    }

    // The entry with the earliest expiry.
    method Oldest() returns (oldest: string)
      requires entries != map[]
      ensures oldest in entries && forall t :: t in entries ==> entries[oldest].expires <= entries[t].expires
    {
      var rest := entries.Keys;
      oldest :| oldest in rest;
      while rest != {}
        invariant rest <= entries.Keys && oldest in entries
        invariant forall t :: t in entries && t !in rest ==> entries[oldest].expires <= entries[t].expires
      {
        var key :| key in rest;
        if entries[key].expires < entries[oldest].expires {
          oldest := key;
        }
        rest := rest - {key};
      }
    }

    method PurgeHeld(now: int)
      requires Valid() && clock <= now
      modifies this`entries
      ensures forall t :: t in entries ==> entries[t].request.tags in slices
      ensures Held() == Purged(old(Held()), now)
    {
      hide Refines;
      ghost var purged := Purged(Held(), now);
      Purge(now);
      assert entries.Keys == purged.Keys;
      forall t | t in entries
        ensures Held()[t] == purged[t]
      {
      }
    }

    method PurgeExpired(now: int)
      requires Valid() && clock <= now
      modifies this`entries, this`clock
      ensures Valid() && clock == now && entries.Keys == Live(log, now)
    {
      hide Refines;
      hide Live;
      hide Purged;
      PurgedRefines(log, Held(), clock, now);
      ghost var held := Held();
      PurgeHeld(now);
      clock := now;
      assert Held() == Purged(held, now);
      assert entries.Keys == Held().Keys;
    }

    method Store(token: string, copy: Request, groupId: string, now: int)
      requires forall t :: t in entries ==> entries[t].request.tags in slices
      requires copy.tags !in slices
      modifies this`entries, this`slices
      ensures slices == old(slices) + {copy.tags}
      ensures forall t :: t in entries ==> entries[t].request.tags in slices
      ensures entries == old(entries)[token := Entry(copy, groupId, now + LIFETIME)]
      ensures Held() == old(Held())[token := Minted(token, groupId, ValueOf(copy), now)]
    {
      ghost var kept := Held();
      slices := slices + {copy.tags};
      entries := entries[token := Entry(copy, groupId, now + LIFETIME)];
      ghost var m := Minted(token, groupId, ValueOf(copy), now);
      assert Held().Keys == kept[token := m].Keys;
      forall t | t in entries
        ensures Held()[t] == kept[token := m][t]
      {
      }
      assert Held() == kept[token := m];
    }

    method Drop(token: string)
      requires forall t :: t in entries ==> entries[t].request.tags in slices
      modifies this`entries
      ensures entries == old(entries) - {token}
      ensures forall t :: t in entries ==> entries[t].request.tags in slices
      ensures Held() == old(Held()) - {token}
    {
      ghost var held := Held();
      entries := entries - {token};
      assert Held() == held - {token};
    }

    // Makes room for one more entry in a full cache.
    method MakeRoom(ghost m: Minted)
      requires Valid() && clock == m.at && entries.Keys == Live(log, m.at) && WellLogged(log + [m], m.at)
      modifies this`entries
      ensures forall t :: t in entries ==> entries[t].request.tags in slices
      ensures Refines(log + [m], Held()[m.token := m], m.at)
      ensures Held()[m.token := m].Keys == Live(log + [m], m.at)
    {
      hide Refines;
      hide Live;
      hide WellLogged;
      assert |Held()| == |entries| by {
        assert Held().Keys == entries.Keys;
        assert |Held().Keys| == |Held()|;
      }
      if |entries| >= CAPACITY {
        var oldest := Oldest();
        assert IsOldest(Held(), oldest);
        MintWhenFull(log, Held(), m, oldest);
        Drop(oldest);
      } else {
        MintWithRoom(log, Held(), m);
      }
    }

    // Mints a token the random source has not given before. What is held
    // afterwards is exactly the live part of the log.
    method Mint(request: Request, groupId: string, now: int, token: string)
      requires Valid() && clock < now
      requires forall m :: m in log ==> m.token != token
      modifies this
      ensures Valid() && clock == now
      ensures log == old(log) + [Minted(token, groupId, old(ValueOf(request)), now)]
      ensures entries.Keys == Live(log, now)
      ensures fresh(slices - old(slices)) && old(slices) <= slices
    {
      hide Refines;
      hide Live;
      hide WellLogged;
      var tags := CopyTags(request.tags);
      var copy := Request(request.variant, request.viewer, request.filters, tags);
      ghost var m := Minted(token, groupId, ValueOf(request), now);
      LoggedSoFar(log, Held(), clock);
      LogGrows(log, clock, m);
      PurgeExpired(now);
      Install(copy, token, groupId, now, m);
    }

    method Install(copy: Request, token: string, groupId: string, now: int, ghost m: Minted)
      requires Valid() && clock == m.at && entries.Keys == Live(log, m.at) && WellLogged(log + [m], m.at)
      requires copy.tags !in slices && m == Minted(token, groupId, ValueOf(copy), now)
      modifies this
      ensures Valid() && clock == m.at && log == old(log) + [m] && slices == old(slices) + {copy.tags}
      ensures entries.Keys == Live(log, m.at)
    {
      hide Refines;
      hide Live;
      hide WellLogged;
      MakeRoom(m);
      ghost var kept := Held();
      Store(token, copy, groupId, now);
      assert Held() == kept[token := m];
      log := log + [m];
      assert Held() == kept[token := m];
      assert Held().Keys == entries.Keys;
    }

    // Succeeds exactly for the group and viewer a live token was minted for,
    // with the request as it was then.
    method Lookup(token: string, groupId: string, viewer: string, now: int) returns (r: Result<Request, Refusal>)
      requires Valid() && clock <= now
      modifies this`entries, this`clock
      ensures Valid() && clock == now
      ensures r.Ok? <==> exists m ::
          m in Window(log) && m.token == token && Unexpired(m, now) && m.groupId == groupId && m.value.viewer == viewer
      ensures r.Ok? ==> fresh(r.value.tags) && r.value.tags !in slices
                        && exists m :: m in Window(log) && m.token == token && m.value == ValueOf(r.value)
      ensures entries.Keys <= old(entries).Keys
    {
      hide Refines;
      hide Live;
      hide Window;
      ghost var held := Held();
      if token !in entries || !(now < entries[token].expires) {
        AbsentIsDead(log, held, clock, now, token);
        Drop(token);
        clock := now;
        assert Held() == held - {token};
        return Err(GroupScopeExpired);
      }
      var entry := entries[token];
      ghost var m := held[token];
      FoundIsMinted(log, held, clock, now, token);
      clock := now;
      assert Held() == held;
      if entry.groupId != groupId || entry.request.viewer != viewer {
        return Err(GroupScopeExpired);
      }
      var source := entry.request.tags;
      var tags := CopyTags(source);
      assert Held() == held;
      r := Ok(Request(entry.request.variant, entry.request.viewer, entry.request.filters, tags));
      assert m.value == ValueOf(r.value);
    }
  }

  // In every reachable state at most 4096 entries are held.
  lemma SizeIsBounded(s: GroupedScopeService)
    requires s.Valid()
    ensures |s.entries| <= CAPACITY
  {
    HeldIsBounded(s.log, s.Held(), s.clock);
    assert s.Held().Keys == s.entries.Keys;
    assert |s.entries.Keys| == |s.entries|;
  }

  lemma LoggedSoFar(log: seq<Minted>, held: map<string, Minted>, clock: int)
    requires Refines(log, held, clock)
    ensures WellLogged(log, clock)
  {
  }

  lemma LogGrows(log: seq<Minted>, clock: int, m: Minted)
    requires WellLogged(log, clock) && clock < m.at && forall n :: n in log ==> n.token != m.token
    ensures WellLogged(log + [m], m.at)
  {
    var all := log + [m];
    forall i, j | 0 <= i < j < |all|
      ensures all[i].at < all[j].at && all[i].token != all[j].token
    {
      assert all[i] == log[i] && log[i] in log;
    }
  }

  lemma AbsentIsDead(log: seq<Minted>, held: map<string, Minted>, clock: int, now: int, token: string)
    requires Refines(log, held, clock) && clock <= now
    requires token in held ==> !Unexpired(held[token], now)
    ensures forall m :: m in Window(log) && m.token == token ==> !Unexpired(m, now)
    ensures Refines(log, held - {token}, now)
  {
    hide Window;
    forall m | m in Window(log) && m.token == token
      ensures !Unexpired(m, now)
    {
      if Unexpired(m, now) {
        assert m.token in held;
        TokenNamesMint(log, held, clock, m);
      }
    }
  }

  // The entry held under a token is the one mint of the window that has it.
  lemma FoundIsMinted(log: seq<Minted>, held: map<string, Minted>, clock: int, now: int, token: string)
    requires Refines(log, held, clock) && clock <= now && token in held
    ensures Refines(log, held, now)
    ensures held[token] in Window(log) && held[token].token == token
    ensures forall m :: m in Window(log) && m.token == token ==> m == held[token]
  {
    forall m | m in Window(log) && m.token == token
      ensures m == held[token]
    {
      TokenNamesMint(log, held, clock, m);
    }
  }

  // A caller may change its own slices afterwards: nothing minted changes.
  method CallerKeepsItsSlice(s: GroupedScopeService, request: Request, groupId: string, now: int, token: string,
                             junk: string)
    requires s.Valid() && s.clock < now && request.tags !in s.slices
    requires forall m :: m in s.log ==> m.token != token
    modifies s, request.tags
    ensures s.Valid()
    ensures s.log == old(s.log) + [Minted(token, groupId, old(ValueOf(request)), now)]
  {
    s.Mint(request, groupId, now, token);
    var i := 0;
    while i < request.tags.Length
      invariant s.Valid() && request.tags !in s.slices
      invariant s.log == old(s.log) + [Minted(token, groupId, old(ValueOf(request)), now)]
    {
      request.tags[i] := junk;
      i := i + 1;
    }
  }
}

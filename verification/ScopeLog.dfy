// The log a bounded, expiring cache of disclosure tokens refines: the unexpired
// ones among the last mints.
module ScopeLog {

  const LIFETIME: int := 900_000_000_000  // 15 minutes in nanoseconds
  const CAPACITY: nat := 4096

  // A parsed request: its route and viewer, the other filters, and the tags.
  datatype Value = Value(variant: string, viewer: string, filters: seq<string>, tags: seq<string>)

  datatype Minted = Minted(token: string, groupId: string, value: Value, at: int)

  predicate Unexpired(m: Minted, now: int) { now < m.at + LIFETIME }

  ghost predicate WellLogged(log: seq<Minted>, clock: int) {
    && (forall i, j :: 0 <= i < j < |log| ==> log[i].at < log[j].at && log[i].token != log[j].token)
    && (forall i :: 0 <= i < |log| ==> log[i].at <= clock)
  }

  // The last 4096 mints.
  function Window(log: seq<Minted>): seq<Minted> {
    if |log| <= CAPACITY then log else log[|log| - CAPACITY..]
  }

  // Tokens minted among the last 4096 and not yet expired.
  ghost function Live(log: seq<Minted>, now: int): set<string> {
    set m | m in Window(log) && Unexpired(m, now) :: m.token
  }

  // The held entries are mints of the window, and none unexpired is missing.
  ghost predicate Refines(log: seq<Minted>, held: map<string, Minted>, clock: int) {
    && WellLogged(log, clock)
    && (forall t :: t in held ==> held[t].token == t && held[t] in Window(log))
    && (forall m :: m in Window(log) && Unexpired(m, clock) ==> m.token in held)
  }

  function Purged(held: map<string, Minted>, now: int): map<string, Minted> {
    map t | t in held && Unexpired(held[t], now) :: held[t]
  }

  ghost predicate IsOldest(held: map<string, Minted>, t: string) {
    t in held && forall u :: u in held ==> held[t].at <= held[u].at
  }

  lemma {:induction false} WindowTokens(s: seq<Minted>, tokens: set<string>)
    requires forall i, j :: 0 <= i < j < |s| ==> s[i].token != s[j].token
    requires tokens == set m | m in s :: m.token
    ensures |tokens| == |s|
  {
    if s != [] {
      var rest := set m | m in s[1..] :: m.token;
      assert forall i :: 1 <= i < |s| ==> s[i] == s[1..][i - 1];
      forall i, j | 0 <= i < j < |s[1..]|
        ensures s[1..][i].token != s[1..][j].token
      {
        assert s[1..][i] == s[i + 1] && s[1..][j] == s[j + 1];
      }
      WindowTokens(s[1..], rest);
      forall t
        ensures t in tokens <==> t == s[0].token || t in rest
      {
        if t in tokens {
          var m :| m in s && m.token == t;
          assert m == s[0] || m in s[1..];
        }
      }
      assert s[0].token !in rest;
      assert tokens == rest + {s[0].token};
    } else {
      assert tokens == {};
    }
  }

  lemma SubsetSize(a: set<string>, b: set<string>)
    requires a <= b
    ensures |a| <= |b|
    ensures |a| == |b| ==> a == b
  {
    var c := b - a;
    assert b == a + c && a !! c;
    assert |b| == |a| + |c|;
  }

  ghost function Tokens(log: seq<Minted>): set<string> { set m | m in Window(log) :: m.token }

  lemma WindowDistinct(log: seq<Minted>, clock: int)
    requires WellLogged(log, clock)
    ensures var w := Window(log);
            forall i, j :: 0 <= i < j < |w| ==> w[i].at < w[j].at && w[i].token != w[j].token
    ensures |Tokens(log)| == |Window(log)| <= CAPACITY
  {
    var w := Window(log);
    forall i, j | 0 <= i < j < |w|
      ensures w[i].at < w[j].at && w[i].token != w[j].token
    {
      assert w[i] == log[|log| - |w| + i] && w[j] == log[|log| - |w| + j];
    }
    WindowTokens(w, Tokens(log));
  }

  lemma HeldTokens(log: seq<Minted>, held: map<string, Minted>, clock: int)
    requires Refines(log, held, clock)
    ensures held.Keys <= Tokens(log)
  {
    hide Window;
    forall t | t in held.Keys
      ensures t in Tokens(log)
    {
      assert held[t] in Window(log);
    }
  }

  // Never more than 4096 entries.
  lemma HeldIsBounded(log: seq<Minted>, held: map<string, Minted>, clock: int)
    requires Refines(log, held, clock)
    ensures |held| <= CAPACITY
    ensures |held| >= CAPACITY ==> held.Keys == Tokens(log) && |Window(log)| == CAPACITY && |log| >= CAPACITY
  {
    HeldTokens(log, held, clock);
    WindowDistinct(log, clock);
    SubsetSize(held.Keys, Tokens(log));
    assert |held| == |held.Keys|;
  }

  lemma TokenNamesMint(log: seq<Minted>, held: map<string, Minted>, clock: int, m: Minted)
    requires Refines(log, held, clock) && m in Window(log) && m.token in held
    ensures held[m.token] == m
  {
    hide Window;
    WindowDistinct(log, clock);
    var w := Window(log);
    var i :| 0 <= i < |w| && w[i] == m;
    var j :| 0 <= j < |w| && w[j] == held[m.token];
  }

  lemma PurgedRefines(log: seq<Minted>, held: map<string, Minted>, clock: int, now: int)
    requires Refines(log, held, clock) && clock <= now
    ensures Refines(log, Purged(held, now), now)
    ensures Purged(held, now).Keys == Live(log, now)
  {
    forall m | m in Window(log) && Unexpired(m, now)
      ensures m.token in Purged(held, now)
    {
      TokenNamesMint(log, held, clock, m);
    }
  }

  lemma WindowGrows(log: seq<Minted>, m: Minted)
    ensures |log| < CAPACITY ==> Window(log + [m]) == Window(log) + [m]
    ensures |log| >= CAPACITY ==> |Window(log)| == CAPACITY && Window(log + [m]) == Window(log)[1..] + [m]
  {
  }

  // Minting with room left: the eldest mint leaving the window, if any, had
  // already expired.
  lemma MintWithRoom(log: seq<Minted>, held: map<string, Minted>, m: Minted)
    requires Refines(log, held, m.at) && held.Keys == Live(log, m.at) && |held| < CAPACITY
    requires WellLogged(log + [m], m.at)
    ensures Refines(log + [m], held[m.token := m], m.at)
    ensures held[m.token := m].Keys == Live(log + [m], m.at)
  {
    WindowGrows(log, m);
    var w, w' := Window(log), Window(log + [m]);
    assert (log + [m])[|log|] == m;
    if |log| >= CAPACITY {
      var eldest := w[0];
      assert w == [eldest] + w[1..];
      if Unexpired(eldest, m.at) {
        AllUnexpired(log, m.at);
        FullWindow(log, held, m.at);
      }
      assert !Unexpired(eldest, m.at);
      forall t | t in held
        ensures held[t] in w'
      {
        assert t in Live(log, m.at);
        var n :| n in w && Unexpired(n, m.at) && n.token == t;
        TokenNamesMint(log, held, m.at, n);
      }
    }
    NewTokenIsNew(log, m);
    AddedKeys(log, held, m);
  }

  lemma AllUnexpired(log: seq<Minted>, now: int)
    requires WellLogged(log, now) && |log| >= CAPACITY && Unexpired(Window(log)[0], now)
    ensures forall n :: n in Window(log) ==> Unexpired(n, now)
  {
    var w := Window(log);
    forall n | n in w
      ensures Unexpired(n, now)
    {
      var i :| 0 <= i < |w| && w[i] == n;
      assert w[i] == log[|log| - CAPACITY + i] && w[0] == log[|log| - CAPACITY];
    }
  }

  lemma FullWindow(log: seq<Minted>, held: map<string, Minted>, now: int)
    requires Refines(log, held, now) && |log| >= CAPACITY
    requires forall n :: n in Window(log) ==> Unexpired(n, now)
    ensures |held| >= CAPACITY
  {
    WindowDistinct(log, now);
    SubsetSize(Tokens(log), held.Keys);
  }

  lemma NewTokenIsNew(log: seq<Minted>, m: Minted)
    requires WellLogged(log + [m], m.at)
    ensures forall n :: n in log ==> n.token != m.token
  {
    forall n | n in log
      ensures n.token != m.token
    {
      var i :| 0 <= i < |log| && log[i] == n;
      assert (log + [m])[i] == n && (log + [m])[|log|] == m;
    }
  }

  lemma AddedKeys(log: seq<Minted>, held: map<string, Minted>, m: Minted)
    requires WellLogged(log + [m], m.at)
    requires forall t :: t in held ==> held[t].token == t && held[t] in Window(log + [m]) && Unexpired(held[t], m.at)
    requires forall n :: n in Window(log) && Unexpired(n, m.at) && n in Window(log + [m]) ==> n.token in held
    ensures Refines(log + [m], held[m.token := m], m.at)
    ensures held[m.token := m].Keys == Live(log + [m], m.at)
  {
    var w, w' := Window(log), Window(log + [m]);
    WindowEnds(log, m);
    hide Window;
    assert m in w' && Unexpired(m, m.at);
    var held' := held[m.token := m];
    forall n | n in w' && Unexpired(n, m.at)
      ensures n.token in held'
    {
      assert n == m || n in w;
    }
    forall t
      ensures t in held'.Keys <==> t in Live(log + [m], m.at)
    {
      if t in held && t != m.token {
        assert held[t] in w' && Unexpired(held[t], m.at);
      }
    }
  }

  lemma WindowEnds(log: seq<Minted>, m: Minted)
    ensures m in Window(log + [m])
    ensures forall n :: n in Window(log + [m]) ==> n == m || n in Window(log)
  {
    WindowGrows(log, m);
    var w' := Window(log + [m]);
    assert w'[|w'| - 1] == m;
  }

  // Minting into a full cache: what is evicted is the mint leaving the window.
  lemma MintWhenFull(log: seq<Minted>, held: map<string, Minted>, m: Minted, oldest: string)
    requires Refines(log, held, m.at) && held.Keys == Live(log, m.at) && |held| >= CAPACITY
    requires IsOldest(held, oldest)
    requires WellLogged(log + [m], m.at)
    ensures Refines(log + [m], (held - {oldest})[m.token := m], m.at)
    ensures (held - {oldest})[m.token := m].Keys == Live(log + [m], m.at)
  {
    hide Window;
    hide Live;
    HeldIsBounded(log, held, m.at);
    OldestLeaves(log, held, m.at, oldest);
    WindowShifts(log, m);
    forall t | t in held - {oldest}
      ensures held[t] in Window(log + [m]) && Unexpired(held[t], m.at)
    {
      HeldIsLive(log, held, m.at, t);
    }
    forall n | n in Window(log) && Unexpired(n, m.at) && n in Window(log + [m])
      ensures n.token in held - {oldest}
    {
      NewTokenIsNew(log, m);
      InOlderLog(log, n);
    }
    AddedKeys(log, held - {oldest}, m);
  }

  lemma InOlderLog(log: seq<Minted>, n: Minted)
    requires n in Window(log)
    ensures n in log
  {
  }

  // With a full window the eldest mint leaves and every other one stays.
  lemma WindowShifts(log: seq<Minted>, m: Minted)
    requires WellLogged(log + [m], m.at) && |Window(log)| == CAPACITY && |log| >= CAPACITY
    ensures forall n :: n in Window(log) && n.token != Window(log)[0].token ==> n in Window(log + [m])
    ensures forall n :: n in Window(log + [m]) && n != m ==> n.token != Window(log)[0].token
  {
    WindowGrows(log, m);
    var w := Window(log);
    hide Window;
    assert w == [w[0]] + w[1..];
    forall n | n in w[1..]
      ensures n.token != w[0].token
    {
      OlderLog(log, m);
      LaterTokens(log, m.at, n);
    }
  }

  lemma OlderLog(log: seq<Minted>, m: Minted)
    requires WellLogged(log + [m], m.at)
    ensures WellLogged(log, m.at)
  {
    var all := log + [m];
    forall i | 0 <= i < |log|
      ensures log[i].at <= m.at
    {
      assert all[i] == log[i];
    }
    forall i, j | 0 <= i < j < |log|
      ensures log[i].at < log[j].at && log[i].token != log[j].token
    {
      assert all[i] == log[i] && all[j] == log[j];
    }
  }

  lemma HeldIsLive(log: seq<Minted>, held: map<string, Minted>, now: int, t: string)
    requires Refines(log, held, now) && held.Keys == Live(log, now) && t in held
    ensures Unexpired(held[t], now)
  {
    hide Window;
    assert t in Live(log, now);
    var n :| n in Window(log) && Unexpired(n, now) && n.token == t;
    TokenNamesMint(log, held, now, n);
  }

  lemma OldestLeaves(log: seq<Minted>, held: map<string, Minted>, clock: int, oldest: string)
    requires Refines(log, held, clock) && held.Keys == Tokens(log) && |Window(log)| == CAPACITY
    requires IsOldest(held, oldest)
    ensures Window(log)[0].token == oldest
  {
    hide Window;
    WindowDistinct(log, clock);
    var w := Window(log);
    var eldest := w[0];
    assert eldest in w;
    assert eldest.token in Tokens(log);
    TokenNamesMint(log, held, clock, eldest);
    assert held[oldest].at <= eldest.at;
    var i :| 0 <= i < |w| && w[i] == held[oldest];
  }

  lemma LaterTokens(log: seq<Minted>, clock: int, n: Minted)
    requires WellLogged(log, clock) && Window(log) != [] && n in Window(log)[1..]
    ensures n.token != Window(log)[0].token
  {
    hide Window;
    WindowDistinct(log, clock);
    var w := Window(log);
    var i :| 0 <= i < |w[1..]| && w[1..][i] == n;
    assert w[i + 1] == n;
  }
}

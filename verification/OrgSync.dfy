// A user's GitHub organizations: fetched as one complete snapshot, installed
// only by the newest sign-in.
module OrgSync {
  import opened Options
  import opened Text

  datatype Org = Org(id: int, login: string, avatar: string)

  // What one page said about where the list goes on.
  datatype Link = NoNext | NextPage | Untrusted

  // One response: whether it was a 200 within its size, its rows when they were
  // a bounded JSON array, and its link.
  datatype Response = Response(available: bool, rows: Option<seq<Org>>, link: Link)

  datatype FetchError = FetchFailed

  const MAX_PAGES: nat := 100
  const MAX_ROWS: nat := 100

  // ---- the page walk ----

  predicate GoodLogin(login: string) { login != "" && TrimSpace(login) == login }

  predicate UsablePage(r: Response) {
    r.available && r.rows.Some? && |r.rows.value| <= MAX_ROWS && r.link != Untrusted
  }

  // Positive ids and clean logins, each named once whatever its case.
  ghost predicate Distinct(orgs: seq<Org>) {
    && (forall i :: 0 <= i < |orgs| ==> orgs[i].id > 0 && GoodLogin(Lower(orgs[i].login)))
    && (forall i, j :: 0 <= i < j < |orgs| ==> orgs[i].id != orgs[j].id && Lower(orgs[i].login) != Lower(orgs[j].login))
  }

  function IdsOf(orgs: seq<Org>): set<int> { set o | o in orgs :: o.id }

  function LoginsOf(orgs: seq<Org>): set<string> { set o | o in orgs :: o.login }

  function FoldedLogins(orgs: seq<Org>): set<string> { set o | o in orgs :: Lower(o.login) }

  function RowsOf(r: Response): seq<Org> { if r.rows.Some? then r.rows.value else [] }

  // The rows of pages 1 to n, in order.
  function Gathered(pages: nat -> Response, n: nat): seq<Org> {
    if n == 0 then [] else Gathered(pages, n - 1) + RowsOf(pages(n))
  }

  // Pages 1 to n are the complete list: each leads to the next, none of those
  // is empty, and the last one ends it.
  ghost predicate Complete(pages: nat -> Response, n: nat) {
    && 1 <= n <= MAX_PAGES
    && (forall p :: 1 <= p <= n ==> UsablePage(pages(p)))
    && (forall p :: 1 <= p < n ==> pages(p).link == NextPage && RowsOf(pages(p)) != [])
    && pages(n).link == NoNext
    && Distinct(Gathered(pages, n))
  }

  lemma DistinctPrefix(a: seq<Org>, b: seq<Org>)
    requires Distinct(a + b)
    ensures Distinct(a)
  {
    forall i | 0 <= i < |a|
      ensures a[i].id > 0 && GoodLogin(Lower(a[i].login))
    {
      assert (a + b)[i] == a[i];
    }
    forall i, j | 0 <= i < j < |a|
      ensures a[i].id != a[j].id && Lower(a[i].login) != Lower(a[j].login)
    {
      assert (a + b)[i] == a[i] && (a + b)[j] == a[j];
    }
  }

  lemma {:induction false} GatheredPrefix(pages: nat -> Response, m: nat, n: nat)
    requires m <= n && Distinct(Gathered(pages, n))
    ensures Distinct(Gathered(pages, m))
  {
    if m < n {
      DistinctPrefix(Gathered(pages, n - 1), RowsOf(pages(n)));
      GatheredPrefix(pages, m, n - 1);
    }
  }

  // Two complete walks of the same pages end at the same page.
  lemma CompleteOnce(pages: nat -> Response, m: nat, n: nat)
    requires Complete(pages, m) && Complete(pages, n)
    ensures m == n
  {
  }

  // Pages before this one each lead to the next.
  ghost predicate WalkedTo(pages: nat -> Response, page: nat) {
    forall p: nat :: 1 <= p < page ==> UsablePage(pages(p)) && pages(p).link == NextPage && RowsOf(pages(p)) != []
  }

  // fetchGitHubOrgSnapshot: the complete list, or nothing.
  method FetchSnapshot(pages: nat -> Response) returns (r: Result<seq<Org>, FetchError>)
    ensures r.Ok? <==> exists n: nat :: Complete(pages, n)
    ensures forall n: nat :: Complete(pages, n) ==> r == Ok(Gathered(pages, n))
  {
    hide Lower;
    hide GoodLogin;
    hide Distinct;
    var all: seq<Org> := [];
    var ids: set<int> := {};
    var logins: set<string> := {};
    var page: nat := 1;
    NothingDistinct(pages);
    hide WalkedTo;
    hide Complete;
    while page <= MAX_PAGES
      invariant 1 <= page <= MAX_PAGES + 1
      invariant all == Gathered(pages, page - 1) && Distinct(all)
      invariant ids == IdsOf(all) && logins == FoldedLogins(all)
      invariant WalkedTo(pages, page)
    {
      var response := pages(page);
      if !response.available || response.rows.None? || |response.rows.value| > MAX_ROWS || response.link == Untrusted {
        NotComplete(pages, page);
        return Err(FetchFailed);
      }
      var added: bool;
      all, ids, logins, added := AddPage(response.rows.value, all, ids, logins);
      if !added {
        NotDistinct(pages, page);
        return Err(FetchFailed);
      }
      if response.link == NoNext {
        EndsHere(pages, page);
        forall n: nat | Complete(pages, n)
          ensures n == page
        {
          CompleteOnce(pages, page, n);
        }
        return Ok(all);
      }
      if |response.rows.value| == 0 {
        NotComplete(pages, page);
        return Err(FetchFailed);
      }
      WalksOn(pages, page);
      page := page + 1;
    }
    NeverEnds(pages);
    return Err(FetchFailed);
  }

  lemma NothingDistinct(pages: nat -> Response)
    ensures Distinct([]) && IdsOf([]) == {} && FoldedLogins([]) == {} && WalkedTo(pages, 1)
  {
  }

  lemma EndsHere(pages: nat -> Response, page: nat)
    requires 1 <= page <= MAX_PAGES && WalkedTo(pages, page) && UsablePage(pages(page)) && pages(page).link == NoNext
    requires Distinct(Gathered(pages, page))
    ensures Complete(pages, page)
  {
    hide Distinct;
  }

  lemma WalksOn(pages: nat -> Response, page: nat)
    requires WalkedTo(pages, page) && UsablePage(pages(page)) && pages(page).link == NextPage
        && RowsOf(pages(page)) != []
    ensures WalkedTo(pages, page + 1)
  {
  }

  method AddPage(rows: seq<Org>, before: seq<Org>, ids0: set<int>, logins0: set<string>)
    returns (all: seq<Org>, ids: set<int>, logins: set<string>, added: bool)
    requires Distinct(before) && ids0 == IdsOf(before) && logins0 == FoldedLogins(before)
    ensures added <==> Distinct(before + rows)
    ensures added ==> all == before + rows && ids == IdsOf(all) && logins == FoldedLogins(all)
  {
    hide Lower;
    hide GoodLogin;
    hide Distinct;
    all, ids, logins := before, ids0, logins0;
    for k := 0 to |rows|
      invariant all == before + rows[..k] && Distinct(all)
      invariant ids == IdsOf(all) && logins == FoldedLogins(all)
    {
      var org := rows[k];
      var login := Lower(org.login);
      Snoc(before, rows, k);
      if org.id <= 0 || !GoodLogin(login) || org.id in ids || login in logins {
        RepeatBreaks(all, org, before + rows);
        return all, ids, logins, false;
      }
      AddOne(all, org);
      ids := ids + {org.id};
      logins := logins + {login};
      all := all + [org];
    }
    assert rows[..|rows|] == rows;
    added := true;
  }

  lemma Snoc(before: seq<Org>, rows: seq<Org>, k: nat)
    requires k < |rows|
    ensures before + rows[..k + 1] == before + rows[..k] + [rows[k]]
    ensures (before + rows)[..|before| + k + 1] == before + rows[..k] + [rows[k]]
  {
  }

  lemma AddOne(all: seq<Org>, org: Org)
    requires Distinct(all) && org.id > 0 && GoodLogin(Lower(org.login))
    requires org.id !in IdsOf(all) && Lower(org.login) !in FoldedLogins(all)
    ensures Distinct(all + [org])
    ensures IdsOf(all + [org]) == IdsOf(all) + {org.id}
        && FoldedLogins(all + [org]) == FoldedLogins(all) + {Lower(org.login)}
  {
    hide Lower;
    hide GoodLogin;
    var more := all + [org];
    assert more[|all|] == org;
    forall i | 0 <= i < |all|
      ensures more[i] == all[i] && all[i].id != org.id && Lower(all[i].login) != Lower(org.login)
    {
      assert all[i] in all;
    }
  }

  lemma RepeatBreaks(all: seq<Org>, org: Org, rows: seq<Org>)
    requires |all| < |rows| && rows[..|all| + 1] == all + [org]
    requires org.id <= 0 || !GoodLogin(Lower(org.login)) || org.id in IdsOf(all)
        || Lower(org.login) in FoldedLogins(all)
    ensures !Distinct(rows)
  {
    hide Lower;
    hide GoodLogin;
    assert rows[|all|] == rows[..|all| + 1][|all|] == org;
    forall i | 0 <= i < |all|
      ensures rows[i] == all[i]
    {
      assert rows[i] == rows[..|all| + 1][i];
    }
    if org.id in IdsOf(all) {
      var i :| 0 <= i < |all| && all[i].id == org.id;
      assert rows[i].id == rows[|all|].id;
    } else if Lower(org.login) in FoldedLogins(all) {
      var i :| 0 <= i < |all| && Lower(all[i].login) == Lower(org.login);
      assert Lower(rows[i].login) == Lower(rows[|all|].login);
    }
  }

  lemma NotComplete(pages: nat -> Response, page: nat)
    requires 1 <= page && WalkedTo(pages, page)
    requires !UsablePage(pages(page)) || (pages(page).link != NoNext && RowsOf(pages(page)) == [])
    ensures forall n: nat :: !Complete(pages, n)
  {
    hide Distinct;
    forall n: nat
      ensures !Complete(pages, n)
    {
      CompleteIsAhead(pages, page, n);
    }
  }

  lemma NotDistinct(pages: nat -> Response, page: nat)
    requires 1 <= page && WalkedTo(pages, page)
    requires !Distinct(Gathered(pages, page))
    ensures forall n: nat :: !Complete(pages, n)
  {
    hide Distinct;
    forall n: nat
      ensures !Complete(pages, n)
    {
      CompleteIsAhead(pages, page, n);
      if n >= page && Distinct(Gathered(pages, n)) {
        GatheredPrefix(pages, page, n);
      }
    }
  }

  // A hundred pages that each lead on are never a complete list.
  lemma NeverEnds(pages: nat -> Response)
    requires WalkedTo(pages, MAX_PAGES + 1)
    ensures forall n: nat :: !Complete(pages, n)
  {
    hide Distinct;
    forall n: nat
      ensures !Complete(pages, n)
    {
      CompleteIsAhead(pages, MAX_PAGES + 1, n);
    }
  }

  lemma CompleteIsAhead(pages: nat -> Response, page: nat, n: nat)
    requires WalkedTo(pages, page)
    ensures Complete(pages, n) ==> n >= page
  {
    hide Distinct;
  }

  // ---- installing a snapshot ----

  // One stored organization; the table's key is the login as it was spelled.
  datatype Stored = Stored(id: int, avatar: string, visible: bool)

  type Table = map<string, Stored>

  // A new row starts hidden; a known one keeps its visibility.
  function Upsert(t: Table, org: Org): Table {
    t[org.login := Stored(org.id, org.avatar, org.login in t && t[org.login].visible)]
  }

  function UpsertAll(t: Table, orgs: seq<Org>): Table {
    if orgs == [] then t else Upsert(UpsertAll(t, orgs[..|orgs| - 1]), orgs[|orgs| - 1])
  }

  // What the install transaction leaves: every organization of the snapshot,
  // and whatever else folds to one of its logins.
  function Installed(t: Table, orgs: seq<Org>): Table {
    var all := UpsertAll(t, orgs);
    map l | l in all && Lower(l) in FoldedLogins(orgs) :: all[l]
  }

  lemma {:induction false} UpsertAllKeys(t: Table, orgs: seq<Org>)
    ensures UpsertAll(t, orgs).Keys == t.Keys + LoginsOf(orgs)
  {
    if orgs != [] {
      var n := |orgs| - 1;
      UpsertAllKeys(t, orgs[..n]);
      assert orgs == orgs[..n] + [orgs[n]];
    }
  }

  method InstallSnapshot(t: Table, orgs: seq<Org>) returns (r: Table)
    ensures r == Installed(t, orgs)
  {
    hide Lower;
    r := t;
    var logins: set<string> := {};
    for i := 0 to |orgs|
      invariant r == UpsertAll(t, orgs[..i])
      invariant logins == FoldedLogins(orgs[..i])
    {
      assert orgs[..i + 1][..i] == orgs[..i] && orgs[..i + 1] == orgs[..i] + [orgs[i]];
      logins := logins + {Lower(orgs[i].login)};
      r := Upsert(r, orgs[i]);
    }
    assert orgs[..|orgs|] == orgs;
    r := map l | l in r && Lower(l) in logins :: r[l];
  }

  function Fold(t: Table): set<string> { set l | l in t :: Lower(l) }

  // Compared without case, the stored logins are the snapshot's.
  lemma InstalledFolds(t: Table, orgs: seq<Org>)
    ensures Fold(Installed(t, orgs)) == FoldedLogins(orgs)
    ensures LoginsOf(orgs) <= Installed(t, orgs).Keys
  {
    hide Lower;
    UpsertAllKeys(t, orgs);
    var r := Installed(t, orgs);
    forall o | o in orgs
      ensures o.login in r
    {
    }
  }

  // An organization renamed in case leaves its old row behind, beside the new.
  lemma CaseRenameLeavesTheOldRow(t: Table, orgs: seq<Org>, former: string, renamed: Org)
    requires former in t && renamed in orgs && Lower(renamed.login) == Lower(former) && former !in LoginsOf(orgs)
    ensures former in Installed(t, orgs) && renamed.login in Installed(t, orgs) && renamed.login != former
    ensures Installed(t, orgs)[former] == t[former]
  {
    hide Lower;
    UpsertAllKeys(t, orgs);
    UntouchedRow(t, orgs, former);
    InstalledFolds(t, orgs);
  }

  lemma {:induction false} UntouchedRow(t: Table, orgs: seq<Org>, l: string)
    requires l in t && l !in LoginsOf(orgs)
    ensures l in UpsertAll(t, orgs) && UpsertAll(t, orgs)[l] == t[l]
  {
    if orgs != [] {
      var n := |orgs| - 1;
      assert orgs == orgs[..n] + [orgs[n]];
      assert orgs[n] in orgs;
      UntouchedRow(t, orgs[..n], l);
    }
  }

  // What a snapshot says of one organization; what was visible stays visible.
  function RowOf(t: Table, org: Org): Stored { Stored(org.id, org.avatar, org.login in t && t[org.login].visible) }

  // The table holds the snapshot's organizations and nothing else.
  ghost predicate IsSnapshot(r: Table, t: Table, orgs: seq<Org>) {
    r.Keys == LoginsOf(orgs) && forall i :: 0 <= i < |orgs| ==>
      orgs[i].login in r && r[orgs[i].login] == RowOf(t, orgs[i])
  }

  // The installed row of each organization is the snapshot's.
  lemma InstalledRow(t: Table, orgs: seq<Org>, i: nat)
    requires Distinct(orgs) && i < |orgs|
    ensures orgs[i].login in Installed(t, orgs) && Installed(t, orgs)[orgs[i].login] == RowOf(t, orgs[i])
  {
    hide GoodLogin;
    InstalledFolds(t, orgs);
    assert orgs[i] in orgs;
    UpsertedRow(t, orgs, i);
  }

  lemma {:induction false} UpsertedRow(t: Table, orgs: seq<Org>, i: nat)
    requires Distinct(orgs) && i < |orgs|
    ensures orgs[i].login in UpsertAll(t, orgs) && UpsertAll(t, orgs)[orgs[i].login] == RowOf(t, orgs[i])
  {
    hide GoodLogin;
    var n := |orgs| - 1;
    assert orgs == orgs[..n] + [orgs[n]];
    DistinctPrefix(orgs[..n], [orgs[n]]);
    if i < n {
      UpsertedRow(t, orgs[..n], i);
      assert Lower(orgs[i].login) != Lower(orgs[n].login);
    } else {
      NotYetStored(t, orgs);
    }
  }

  // The last organization of a snapshot is stored as it was before the others.
  lemma NotYetStored(t: Table, orgs: seq<Org>)
    requires Distinct(orgs) && orgs != []
    ensures var login, before := orgs[|orgs| - 1].login, UpsertAll(t, orgs[..|orgs| - 1]);
            (login in before <==> login in t) && (login in t ==> before[login] == t[login])
  {
    hide GoodLogin;
    var n := |orgs| - 1;
    var login := orgs[n].login;
    forall o | o in orgs[..n]
      ensures o.login != login
    {
      var i :| 0 <= i < n && orgs[i] == o;
      assert Lower(orgs[i].login) != Lower(orgs[n].login);
    }
    assert login !in LoginsOf(orgs[..n]);
    UpsertAllKeys(t, orgs[..n]);
    if login in t {
      UntouchedRow(t, orgs[..n], login);
    }
  }

  // The table is exactly the snapshot if and only if no row stored before
  // differs from a login of the snapshot in case alone.
  lemma InstalledExactly(t: Table, orgs: seq<Org>)
    requires Distinct(orgs)
    ensures IsSnapshot(Installed(t, orgs), t, orgs) <==>
            forall l :: l in t && Lower(l) in FoldedLogins(orgs) ==> l in LoginsOf(orgs)
  {
    forall i | 0 <= i < |orgs|
      ensures orgs[i].login in Installed(t, orgs) && Installed(t, orgs)[orgs[i].login] == RowOf(t, orgs[i])
    {
      InstalledRow(t, orgs, i);
    }
    hide Distinct;
    hide RowOf;
    InstalledLogins(t, orgs);
  }

  lemma InstalledLogins(t: Table, orgs: seq<Org>)
    ensures Installed(t, orgs).Keys == LoginsOf(orgs) <==>
            forall l :: l in t && Lower(l) in FoldedLogins(orgs) ==> l in LoginsOf(orgs)
  {
    hide Lower;
    UpsertAllKeys(t, orgs);
    InstalledFolds(t, orgs);
    var r := Installed(t, orgs);
    if r.Keys == LoginsOf(orgs) {
      forall l | l in t && Lower(l) in FoldedLogins(orgs)
        ensures l in LoginsOf(orgs)
      {
        assert l in r.Keys;
      }
    }
  }
}

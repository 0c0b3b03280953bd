/**
 Assigning accounts to Telegram developer apps of limited capacity: preferred apps first, then by weight
 or round robin over the apps that are healthy and have room, with fallback tiers behind; and moving the
 accounts of an unhealthy app elsewhere, one after the other.
 */
module Allocator {
  import opened Common

  type AppId = int
  type AccountId = int

  /** `healthy` is the recorded health status; `maxAccounts` <= 0 means no limit. */
  datatype App = App(id: AppId, active: bool, healthy: bool, maxAccounts: int, weight: int, credentialsVersion: int)

  datatype Reason = NoReason | DeveloperAppUnhealthy

  datatype Account = Account(userId: int, appId: Option<AppId>, appVersion: int, online: bool, reauthRequired: bool, reason: Reason)

  type Accounts = map<AccountId, Account>

  datatype AssignmentMode = Weight | RoundRobin

  datatype Candidate = Candidate(app: App, usage: nat)

  datatype Pool = Pool(apps: seq<App>, accounts: Accounts, mode: AssignmentMode, cursor: Option<AppId>,
                       defaultApp: Option<AppId>, userPreferred: map<int, AppId>)

  datatype Request = Request(userId: int, preferred: Option<AppId>, exclude: Option<AccountId>, blocked: set<AppId>,
                             reassign: bool, existing: Option<AppId>)

  datatype Outcome = Assigned(id: AppId) | NoActiveApp | Exhausted

  /** Apps come from the table in the order of their ids. */
  predicate InIdOrder(apps: seq<App>) {
    forall i, j | 0 <= i < j < |apps| :: apps[i].id < apps[j].id
  }

  // ---------------------------------------------------------------- capacity

  function UsersOf(accounts: Accounts, id: AppId, exclude: Option<AccountId>): set<AccountId> {
    set a | a in accounts && accounts[a].appId == Some(id) && Some(a) != exclude
  }

  function Usage(accounts: Accounts, id: AppId, exclude: Option<AccountId>): nat {
    |UsersOf(accounts, id, exclude)|
  }

  predicate RowHealthy(app: App) {
    app.active && app.healthy
  }

  predicate HasRoom(app: App, usage: nat) {
    app.maxAccounts <= 0 || usage < app.maxAccounts
  }

  function FindApp(apps: seq<App>, id: AppId): (r: Option<App>)
    ensures r.Some? ==> r.value in apps && r.value.id == id
    ensures r.None? ==> forall i | 0 <= i < |apps| :: apps[i].id != id
  {
    if apps == [] then None else if apps[0].id == id then Some(apps[0]) else FindApp(apps[1..], id)
  }

  /** The check of one app by id. */
  function IsCapacityAvailable(p: Pool, id: AppId, exclude: Option<AccountId>): bool {
    var app := FindApp(p.apps, id);
    app.Some? && RowHealthy(app.value)
    && (app.value.maxAccounts <= 0 || Usage(p.accounts, id, exclude) < app.value.maxAccounts)
  }

  predicate Assignable(app: App, accounts: Accounts, exclude: Option<AccountId>, blocked: set<AppId>) {
    app.id !in blocked && RowHealthy(app) && HasRoom(app, Usage(accounts, app.id, exclude))
  }

  function Candidates(apps: seq<App>, accounts: Accounts, exclude: Option<AccountId>, blocked: set<AppId>): seq<Candidate> {
    if apps == [] then []
    else (if Assignable(apps[0], accounts, exclude, blocked)
          then [Candidate(apps[0], Usage(accounts, apps[0].id, exclude))] else [])
         + Candidates(apps[1..], accounts, exclude, blocked)
  }

  function Ids(candidates: seq<Candidate>): (r: seq<AppId>)
    ensures |r| == |candidates| && forall i | 0 <= i < |r| :: r[i] == candidates[i].app.id
  {
    seq(|candidates|, i requires 0 <= i < |candidates| => candidates[i].app.id)
  }

  // ---------------------------------------------------------------- picking

  /** The sort key of the weight pick: heavier first, then less used, then the lower id. */
  predicate Better(a: Candidate, b: Candidate) {
    a.app.weight > b.app.weight
    || (a.app.weight == b.app.weight && (a.usage < b.usage || (a.usage == b.usage && a.app.id <= b.app.id)))
  }

  function PickWeight(candidates: seq<Candidate>): (best: Candidate)
    requires candidates != []
    ensures best in candidates && forall i | 0 <= i < |candidates| :: Better(best, candidates[i])
  {
    if |candidates| == 1 then candidates[0]
    else
      var rest := PickWeight(candidates[1..]);
      if Better(candidates[0], rest) then candidates[0] else rest
  }

  /** The first id above the cursor, or the first of all. */
  function NextAfter(ids: seq<AppId>, cursor: AppId): AppId
    requires ids != []
  {
    var above := FirstAbove(ids, cursor);
    if above.Some? then above.value else ids[0]
  }

  function FirstAbove(ids: seq<AppId>, cursor: AppId): Option<AppId> {
    if ids == [] then None else if ids[0] > cursor then Some(ids[0]) else FirstAbove(ids[1..], cursor)
  }

  function PickRoundRobin(candidates: seq<Candidate>, cursor: Option<AppId>): AppId
    requires candidates != []
  {
    var ids := Ids(candidates);
    if cursor.None? then ids[0]
    else if cursor.value !in ids then PickWeight(candidates).app.id
    else NextAfter(ids, cursor.value)
  }

  // ---------------------------------------------------------------- resolution

  function Available(p: Pool, r: Request, id: Option<AppId>): Option<AppId> {
    if id.Some? && id.value !in r.blocked && IsCapacityAvailable(p, id.value, r.exclude) then id else None
  }

  function UserPreferred(p: Pool, userId: int): Option<AppId> {
    if userId !in p.userPreferred then None
    else
      var app := FindApp(p.apps, p.userPreferred[userId]);
      if app.Some? && app.value.active then Some(p.userPreferred[userId]) else None
  }

  function FirstActive(apps: seq<App>): Option<AppId> {
    if apps == [] then None else if apps[0].active then Some(apps[0].id) else FirstActive(apps[1..])
  }

  /** The default app, and the setting after the call (an unusable one is replaced). */
  function DefaultApp(p: Pool): (Option<AppId>, Option<AppId>) {
    if p.defaultApp.Some? && FindApp(p.apps, p.defaultApp.value).Some? && FindApp(p.apps, p.defaultApp.value).value.active
    then (p.defaultApp, p.defaultApp)
    else if FirstActive(p.apps).Some? then (FirstActive(p.apps), FirstActive(p.apps))
    else (None, p.defaultApp)
  }

  function Fallback(p: Pool, r: Request): (Pool, Outcome) {
    if r.reassign && Available(p, r, r.existing).Some? then (p, Assigned(r.existing.value))
    else
      var (id, setting) := DefaultApp(p);
      var p' := p.(defaultApp := setting);
      if Available(p, r, id).Some? then (p', Assigned(id.value))
      else if FirstActive(p.apps).Some? then (p', Exhausted)
      else (p', NoActiveApp)
  }

  function Resolve(p: Pool, r: Request): (Pool, Outcome) {
    var candidates := Candidates(p.apps, p.accounts, r.exclude, r.blocked);
    if Available(p, r, r.preferred).Some? then (p, Assigned(r.preferred.value))
    else if Available(p, r, UserPreferred(p, r.userId)).Some? then (p, Assigned(UserPreferred(p, r.userId).value))
    else if candidates != [] then
      if p.mode == Weight then (p, Assigned(PickWeight(candidates).app.id))
      else
        var id := PickRoundRobin(candidates, p.cursor);
        (p.(cursor := Some(id)), Assigned(id))
    else Fallback(p, r)
  }

  // ---------------------------------------------------------------- migration

  function MigrationRequest(account: Account, a: AccountId, from: AppId): Request {
    Request(account.userId, None, Some(a), {from}, false, None)
  }

  function Stalled(account: Account): Account {
    account.(online := false, reauthRequired := false, reason := DeveloperAppUnhealthy)
  }

  function Moved(account: Account, apps: seq<App>, id: AppId): Account {
    var app := FindApp(apps, id);
    account.(appId := Some(id), appVersion := if app.Some? then app.value.credentialsVersion else 1,
             online := false, reauthRequired := false, reason := NoReason)
  }

  /** One turn of the loop: the pool after it, and whether the account was moved. */
  function MigrateOne(p: Pool, a: AccountId, from: AppId): (Pool, bool)
    requires a in p.accounts
  {
    var (p', outcome) := Resolve(p, MigrationRequest(p.accounts[a], a, from));
    if outcome.Assigned? then (p'.(accounts := p.accounts[a := Moved(p.accounts[a], p.apps, outcome.id)]), true)
    else (p'.(accounts := p.accounts[a := Stalled(p.accounts[a])]), false)
  }

  function Migrate(p: Pool, rows: seq<AccountId>, from: AppId, migrated: seq<AccountId>, stalled: seq<AccountId>)
    : (Pool, seq<AccountId>, seq<AccountId>)
    requires forall i | 0 <= i < |rows| :: rows[i] in p.accounts
    decreases |rows|
  {
    if rows == [] then (p, migrated, stalled)
    else
      var (p', moved) := MigrateOne(p, rows[0], from);
      assert p'.accounts.Keys == p.accounts.Keys;
      if moved then Migrate(p', rows[1..], from, migrated + [rows[0]], stalled)
      else Migrate(p', rows[1..], from, migrated, stalled + [rows[0]])
  }

  // ---------------------------------------------------------------- the service

  class DeveloperAppService {
    const apps: seq<App>
    const mode: AssignmentMode
    const userPreferred: map<int, AppId>
    var accounts: Accounts
    var cursor: Option<AppId>
    var defaultApp: Option<AppId>

    constructor (p: Pool)
      ensures Contents() == p
    {
      apps, mode, userPreferred := p.apps, p.mode, p.userPreferred;
      accounts, cursor, defaultApp := p.accounts, p.cursor, p.defaultApp;
    }

    function Contents(): Pool
      reads this
    {
      Pool(apps, accounts, mode, cursor, defaultApp, userPreferred)
    }

    method ListAssignableCandidates(exclude: Option<AccountId>, blocked: set<AppId>) returns (candidates: seq<Candidate>)
      ensures candidates == Candidates(apps, accounts, exclude, blocked)
    {
      candidates := [];
      var i := 0;
      while i < |apps|
        invariant i <= |apps|
        invariant Candidates(apps, accounts, exclude, blocked) == candidates + Candidates(apps[i..], accounts, exclude, blocked)
      {
        var row := apps[i];
        assert apps[i..][1..] == apps[i + 1..];
        i := i + 1;
        if row.id in blocked {
          continue;
        }
        if !RowHealthy(row) {
          continue;
        }
        var usage := Usage(accounts, row.id, exclude);
        if row.maxAccounts > 0 && usage >= row.maxAccounts {
          continue;
        }
        candidates := candidates + [Candidate(row, usage)];
      }
    }

    method GetDefaultAppId() returns (id: Option<AppId>)
      modifies this`defaultApp
      ensures (id, defaultApp) == DefaultApp(old(Contents()))
    {
      if defaultApp.Some? {
        var row := FindApp(apps, defaultApp.value);
        if row.Some? && row.value.active {
          return defaultApp;
        }
      }
      id := FirstActive(apps);
      if id.None? {
        return;
      }
      defaultApp := id;
    }

    method ResolveAssignableAppId(r: Request) returns (outcome: Outcome)
      modifies this`cursor, this`defaultApp
      ensures (Contents(), outcome) == Resolve(old(Contents()), r)
    {
      var candidates := ListAssignableCandidates(r.exclude, r.blocked);
      var chosen := Available(Contents(), r, r.preferred);
      if chosen.Some? {
        return Assigned(chosen.value);
      }
      chosen := Available(Contents(), r, UserPreferred(Contents(), r.userId));
      if chosen.Some? {
        return Assigned(chosen.value);
      }
      if candidates != [] {
        if mode == Weight {
          return Assigned(PickWeight(candidates).app.id);
        }
        var id := PickRoundRobin(candidates, cursor);
        cursor := Some(id);
        return Assigned(id);
      }
      if r.reassign {
        chosen := Available(Contents(), r, r.existing);
        if chosen.Some? {
          return Assigned(chosen.value);
        }
      }
      var id := GetDefaultAppId();
      chosen := Available(Contents(), r, id);
      if chosen.Some? {
        return Assigned(chosen.value);
      }
      if FirstActive(apps).Some? {
        return Exhausted;
      }
      return NoActiveApp;
    }

    method MigrateAccountsFromUnhealthyApp(from: AppId, rows: seq<AccountId>) returns (migrated: seq<AccountId>, stalled: seq<AccountId>)
      requires forall i | 0 <= i < |rows| :: rows[i] in accounts
      modifies this
      ensures forall i | 0 <= i < |rows| :: rows[i] in old(Contents()).accounts
      ensures (Contents(), migrated, stalled) == Migrate(old(Contents()), rows, from, [], [])
    {
      migrated, stalled := [], [];
      var i := 0;
      while i < |rows|
        invariant i <= |rows|
        invariant forall j | 0 <= j < |rows| :: rows[j] in accounts
        invariant Migrate(old(Contents()), rows, from, [], []) == Migrate(Contents(), rows[i..], from, migrated, stalled)
      {
        var a := rows[i];
        assert rows[i..][0] == a && rows[i..][1..] == rows[i + 1..];
        ghost var before := Contents();
        var outcome := ResolveAssignableAppId(MigrationRequest(accounts[a], a, from));
        if outcome.Assigned? {
          accounts := accounts[a := Moved(accounts[a], apps, outcome.id)];
          migrated := migrated + [a];
        } else {
          accounts := accounts[a := Stalled(accounts[a])];
          stalled := stalled + [a];
        }
        assert MigrateOne(before, a, from) == (Contents(), outcome.Assigned?);
        i := i + 1;
      }
    }
  }

  // ---------------------------------------------------------------- the list and the single check agree

  lemma {:induction false} CandidatesAre(apps: seq<App>, accounts: Accounts, exclude: Option<AccountId>, blocked: set<AppId>, c: Candidate)
    ensures c in Candidates(apps, accounts, exclude, blocked)
       <==> c.app in apps && Assignable(c.app, accounts, exclude, blocked) && c.usage == Usage(accounts, c.app.id, exclude)
  {
    hide Assignable, Usage;
    if apps != [] {
      CandidatesAre(apps[1..], accounts, exclude, blocked, c);
      assert apps == [apps[0]] + apps[1..];
    }
  }

  lemma {:induction false} CandidatesInOrder(apps: seq<App>, accounts: Accounts, exclude: Option<AccountId>, blocked: set<AppId>)
    requires InIdOrder(apps)
    ensures var cs := Candidates(apps, accounts, exclude, blocked);
            forall i, j | 0 <= i < j < |cs| :: cs[i].app.id < cs[j].app.id
  {
    hide Assignable, Usage;
    if apps != [] {
      var rest := Candidates(apps[1..], accounts, exclude, blocked);
      CandidatesInOrder(apps[1..], accounts, exclude, blocked);
      forall j | 0 <= j < |rest| ensures apps[0].id < rest[j].app.id {
        CandidatesAre(apps[1..], accounts, exclude, blocked, rest[j]);
      }
    }
  }

  lemma CandidatesAreAssignable(apps: seq<App>, accounts: Accounts, exclude: Option<AccountId>, blocked: set<AppId>)
    requires InIdOrder(apps)
    ensures var cs := Candidates(apps, accounts, exclude, blocked);
            && (forall c | c in cs :: c.app in apps && Assignable(c.app, accounts, exclude, blocked)
                                      && c.usage == Usage(accounts, c.app.id, exclude))
            && (forall app | app in apps && Assignable(app, accounts, exclude, blocked) ::
                  Candidate(app, Usage(accounts, app.id, exclude)) in cs)
            && (forall i, j | 0 <= i < j < |cs| :: cs[i].app.id < cs[j].app.id)
  {
    var cs := Candidates(apps, accounts, exclude, blocked);
    CandidatesInOrder(apps, accounts, exclude, blocked);
    hide Candidates, Assignable, Usage;
    forall c | c in cs ensures c.app in apps && Assignable(c.app, accounts, exclude, blocked) && c.usage == Usage(accounts, c.app.id, exclude) {
      CandidatesAre(apps, accounts, exclude, blocked, c);
    }
    forall app | app in apps && Assignable(app, accounts, exclude, blocked)
      ensures Candidate(app, Usage(accounts, app.id, exclude)) in cs
    {
      CandidatesAre(apps, accounts, exclude, blocked, Candidate(app, Usage(accounts, app.id, exclude)));
    }
  }

  lemma FindAppUnique(apps: seq<App>, app: App)
    requires InIdOrder(apps) && app in apps
    ensures FindApp(apps, app.id) == Some(app)
  {
  }

  /** An app passes the check by id exactly when it is in the list of candidates. */
  lemma AvailableExactlyWhenListed(p: Pool, r: Request, id: AppId)
    requires InIdOrder(p.apps)
    ensures Available(p, r, Some(id)).Some? <==> id in Ids(Candidates(p.apps, p.accounts, r.exclude, r.blocked))
  {
    var cs := Candidates(p.apps, p.accounts, r.exclude, r.blocked);
    CandidatesAreAssignable(p.apps, p.accounts, r.exclude, r.blocked);
    hide Usage, Candidates;
    assert forall i | 0 <= i < |cs| :: cs[i] in cs && Ids(cs)[i] == cs[i].app.id;
    if id in Ids(cs) {
      var i :| 0 <= i < |cs| && Ids(cs)[i] == id;
      FindAppUnique(p.apps, cs[i].app);
    }
  }

  lemma PicksListed(candidates: seq<Candidate>, cursor: Option<AppId>)
    requires candidates != []
    ensures PickWeight(candidates).app.id in Ids(candidates)
    ensures PickRoundRobin(candidates, cursor) in Ids(candidates)
  {
    var best := PickWeight(candidates);
    var i :| 0 <= i < |candidates| && candidates[i] == best;
    assert Ids(candidates)[i] == best.app.id;
    if cursor.Some? {
      FirstAboveListed(Ids(candidates), cursor.value);
    }
  }

  lemma {:induction false} FirstAboveListed(ids: seq<AppId>, cursor: AppId)
    ensures FirstAbove(ids, cursor).Some? ==> FirstAbove(ids, cursor).value in ids
  {
    if ids != [] && ids[0] <= cursor {
      FirstAboveListed(ids[1..], cursor);
    }
  }

  /** Without a candidate no tier finds an app. */
  lemma FallbackFindsNothing(p: Pool, r: Request)
    requires InIdOrder(p.apps) && Candidates(p.apps, p.accounts, r.exclude, r.blocked) == []
    ensures forall id :: Available(p, r, id).None?
    ensures !Fallback(p, r).1.Assigned?
    ensures Fallback(p, r).1.Exhausted? <==> FirstActive(p.apps).Some?
    ensures Fallback(p, r).0 == p.(defaultApp := DefaultApp(p).1)
  {
    forall id ensures Available(p, r, id).None? {
      if id.Some? {
        AvailableExactlyWhenListed(p, r, id.value);
      }
    }
    hide Available, DefaultApp, FirstActive;
  }

  // ---------------------------------------------------------------- what a resolution decides

  /** How many accounts use an app, not counting the excluded one. */
  ghost function Used(p: Pool, r: Request, app: App): nat {
    |set a | a in p.accounts && p.accounts[a].appId == Some(app.id) && Some(a) != r.exclude|
  }

  /** An app that may be assigned: of the table, active, healthy, not blocked, and with room. */
  ghost predicate Takes(p: Pool, r: Request, app: App) {
    app in p.apps && app.active && app.healthy && app.id !in r.blocked && (app.maxAccounts <= 0 || Used(p, r, app) < app.maxAccounts)
  }

  ghost predicate TakesId(p: Pool, r: Request, id: AppId) {
    exists app :: Takes(p, r, app) && app.id == id
  }

  lemma TakesExactly(p: Pool, r: Request, app: App)
    ensures Takes(p, r, app) <==> app in p.apps && Assignable(app, p.accounts, r.exclude, r.blocked)
    ensures Used(p, r, app) == Usage(p.accounts, app.id, r.exclude)
  {
    assert (set a | a in p.accounts && p.accounts[a].appId == Some(app.id) && Some(a) != r.exclude)
        == UsersOf(p.accounts, app.id, r.exclude);
  }

  /** The candidates are exactly the apps that may be assigned, each once with its usage, by rising id. */
  lemma CandidatesExactly(p: Pool, r: Request)
    requires InIdOrder(p.apps)
    ensures var cs := Candidates(p.apps, p.accounts, r.exclude, r.blocked);
            && (forall c | c in cs :: Takes(p, r, c.app) && c.usage == Used(p, r, c.app))
            && (forall app | Takes(p, r, app) :: Candidate(app, Used(p, r, app)) in cs)
            && (forall i, j | 0 <= i < j < |cs| :: cs[i].app.id < cs[j].app.id)
  {
    var cs := Candidates(p.apps, p.accounts, r.exclude, r.blocked);
    CandidatesAreAssignable(p.apps, p.accounts, r.exclude, r.blocked);
    hide Candidates, Assignable, Usage, Takes, Used;
    forall c | c in cs ensures Takes(p, r, c.app) && c.usage == Used(p, r, c.app) {
      TakesExactly(p, r, c.app);
    }
    forall app | Takes(p, r, app) ensures Candidate(app, Used(p, r, app)) in cs {
      TakesExactly(p, r, app);
    }
  }

  lemma ListedExactly(p: Pool, r: Request, id: AppId)
    requires InIdOrder(p.apps)
    ensures id in Ids(Candidates(p.apps, p.accounts, r.exclude, r.blocked)) <==> TakesId(p, r, id)
  {
    var cs := Candidates(p.apps, p.accounts, r.exclude, r.blocked);
    CandidatesExactly(p, r);
    hide Candidates, Takes, Used;
    if id in Ids(cs) {
      var i :| 0 <= i < |cs| && Ids(cs)[i] == id;
      assert cs[i] in cs;
    }
    if TakesId(p, r, id) {
      var app :| Takes(p, r, app) && app.id == id;
      var i :| 0 <= i < |cs| && cs[i] == Candidate(app, Used(p, r, app));
      assert Ids(cs)[i] == id;
    }
  }

  /** An id passes the check of one app exactly when its app may be assigned. */
  lemma AvailableExactly(p: Pool, r: Request, id: AppId)
    requires InIdOrder(p.apps)
    ensures Available(p, r, Some(id)).Some? <==> TakesId(p, r, id)
  {
    AvailableExactlyWhenListed(p, r, id);
    ListedExactly(p, r, id);
  }

  /** The stored default stays while it names an active app; otherwise the active app of least id becomes it,
      and without an active app nothing changes. */
  ghost predicate DefaultFits(p: Pool, setting: Option<AppId>) {
    if p.defaultApp.Some? && exists app :: app in p.apps && app.id == p.defaultApp.value && app.active then setting == p.defaultApp
    else if exists app :: app in p.apps && app.active then
      setting.Some? && (exists app :: app in p.apps && app.active && app.id == setting.value)
      && forall app | app in p.apps && app.active :: setting.value <= app.id
    else setting == p.defaultApp
  }

  lemma {:induction false} FirstActiveIsLeast(apps: seq<App>)
    requires InIdOrder(apps)
    ensures FirstActive(apps).Some? <==> exists app :: app in apps && app.active
    ensures FirstActive(apps).Some? ==>
              && (exists app :: app in apps && app.active && app.id == FirstActive(apps).value)
              && forall app | app in apps && app.active :: FirstActive(apps).value <= app.id
  {
    if apps != [] {
      FirstActiveIsLeast(apps[1..]);
      assert apps == [apps[0]] + apps[1..];
      assert apps[0] in apps;
    }
  }

  lemma DefaultAppExactly(p: Pool)
    requires InIdOrder(p.apps)
    ensures var (id, setting) := DefaultApp(p);
            DefaultFits(p, setting) && id == if exists app :: app in p.apps && app.active then setting else None
  {
    FirstActiveIsLeast(p.apps);
    if p.defaultApp.Some? {
      forall app | app in p.apps && app.id == p.defaultApp.value ensures FindApp(p.apps, p.defaultApp.value) == Some(app) {
        FindAppUnique(p.apps, app);
      }
    }
  }

  lemma ResolveWithoutCandidate(p: Pool, r: Request)
    requires InIdOrder(p.apps) && Candidates(p.apps, p.accounts, r.exclude, r.blocked) == []
    ensures var (p', outcome) := Resolve(p, r);
            && !outcome.Assigned? && p' == p.(defaultApp := p'.defaultApp) && DefaultFits(p, p'.defaultApp)
            && (outcome.Exhausted? <==> exists app :: app in p.apps && app.active)
  {
    FirstActiveIsLeast(p.apps);
    DefaultAppExactly(p);
    FallbackFindsNothing(p, r);
    hide Candidates, Fallback, Available, FirstActive, DefaultApp, DefaultFits, InIdOrder;
  }

  lemma ResolveWithCandidate(p: Pool, r: Request)
    requires InIdOrder(p.apps) && Candidates(p.apps, p.accounts, r.exclude, r.blocked) != []
    ensures var (p', outcome) := Resolve(p, r);
            outcome.Assigned? && TakesId(p, r, outcome.id) && p' == p.(cursor := p'.cursor)
  {
    var cs := Candidates(p.apps, p.accounts, r.exclude, r.blocked);
    if r.preferred.Some? {
      AvailableExactly(p, r, r.preferred.value);
    }
    UserPreferredTakes(p, r);
    PicksListed(cs, p.cursor);
    ListedExactly(p, r, PickWeight(cs).app.id);
    ListedExactly(p, r, PickRoundRobin(cs, p.cursor));
    hide Candidates, PickRoundRobin, PickWeight, Ids, IsCapacityAvailable, UserPreferred, Fallback, TakesId, InIdOrder;
  }

  /** Resolution assigns an app exactly when one may be assigned, and always such a one: no preferred, existing or
      default tier adds or loses a solution, and the tiers behind the pick never decide. Otherwise it only sees to
      the default setting, and fails loudly exactly when some app is active. */
  lemma ResolveExactly(p: Pool, r: Request)
    requires InIdOrder(p.apps)
    ensures var (p', outcome) := Resolve(p, r);
            && (outcome.Assigned? <==> exists app :: Takes(p, r, app))
            && (outcome.Assigned? ==> TakesId(p, r, outcome.id) && p' == p.(cursor := p'.cursor))
            && (!outcome.Assigned? ==> p' == p.(defaultApp := p'.defaultApp) && DefaultFits(p, p'.defaultApp))
            && (!outcome.Assigned? ==> (outcome.Exhausted? <==> exists app :: app in p.apps && app.active))
  {
    var cs := Candidates(p.apps, p.accounts, r.exclude, r.blocked);
    CandidatesExactly(p, r);
    hide Resolve, Candidates, Takes, TakesId, DefaultFits;
    if cs == [] {
      ResolveWithoutCandidate(p, r);
    } else {
      assert cs[0] in cs;
      ResolveWithCandidate(p, r);
    }
  }

  /** Whether a request names an app that may be assigned, or its user has set one. */
  ghost predicate Prefers(p: Pool, r: Request) {
    || (r.preferred.Some? && TakesId(p, r, r.preferred.value))
    || (r.userId in p.userPreferred && TakesId(p, r, p.userPreferred[r.userId]))
  }

  /** Heavier than any other app that may be assigned, then less used, then of lower id. */
  ghost predicate IsBest(p: Pool, r: Request, app: App) {
    Takes(p, r, app) && forall o | Takes(p, r, o) ::
      || app.weight > o.weight
      || (app.weight == o.weight && Used(p, r, app) < Used(p, r, o))
      || (app.weight == o.weight && Used(p, r, app) == Used(p, r, o) && app.id <= o.id)
  }

  lemma UserPreferredTakes(p: Pool, r: Request)
    requires InIdOrder(p.apps)
    ensures Available(p, r, UserPreferred(p, r.userId)) ==
            if r.userId in p.userPreferred && TakesId(p, r, p.userPreferred[r.userId]) then Some(p.userPreferred[r.userId]) else None
  {
    if r.userId in p.userPreferred {
      var id := p.userPreferred[r.userId];
      AvailableExactly(p, r, id);
      hide TakesId;
      assert IsCapacityAvailable(p, id, r.exclude) ==> FindApp(p.apps, id).Some? && FindApp(p.apps, id).value.active;
    }
  }

  lemma WeightPicksBest(p: Pool, r: Request)
    requires InIdOrder(p.apps) && Candidates(p.apps, p.accounts, r.exclude, r.blocked) != []
    ensures IsBest(p, r, PickWeight(Candidates(p.apps, p.accounts, r.exclude, r.blocked)).app)
  {
    var cs := Candidates(p.apps, p.accounts, r.exclude, r.blocked);
    CandidatesExactly(p, r);
    var best := PickWeight(cs);
    hide Candidates, PickWeight, Takes, Used;
    var i :| 0 <= i < |cs| && cs[i] == best;
    forall o | Takes(p, r, o)
      ensures || best.app.weight > o.weight
              || (best.app.weight == o.weight && Used(p, r, best.app) < Used(p, r, o))
              || (best.app.weight == o.weight && Used(p, r, best.app) == Used(p, r, o) && best.app.id <= o.id)
    {
      var k :| 0 <= k < |cs| && cs[k] == Candidate(o, Used(p, r, o));
      assert Better(best, cs[k]);
    }
  }

  /** Preferences are honoured while they can be, the request's before the user's, and move no cursor; otherwise
      the weight pick is the best of all apps that may be assigned. */
  lemma ResolveHonoursPreferences(p: Pool, r: Request)
    requires InIdOrder(p.apps)
    ensures var (p', outcome) := Resolve(p, r);
            if r.preferred.Some? && TakesId(p, r, r.preferred.value) then outcome == Assigned(r.preferred.value) && p' == p
            else if Prefers(p, r) then outcome == Assigned(p.userPreferred[r.userId]) && p' == p
            else p.mode == Weight && (exists app :: Takes(p, r, app)) ==>
              p' == p && exists app: App :: outcome == Assigned(app.id) && IsBest(p, r, app)
  {
    var cs := Candidates(p.apps, p.accounts, r.exclude, r.blocked);
    if r.preferred.Some? {
      AvailableExactly(p, r, r.preferred.value);
    }
    UserPreferredTakes(p, r);
    CandidatesExactly(p, r);
    if cs != [] {
      WeightPicksBest(p, r);
    }
    hide Candidates, Ids, IsCapacityAvailable, FindApp, Better, UserPreferred, PickWeight, PickRoundRobin, IsBest, Takes, TakesId;
  }

  // ---------------------------------------------------------------- round robin is fair

  predicate Increasing(ids: seq<AppId>) {
    forall i, j | 0 <= i < j < |ids| :: ids[i] < ids[j]
  }

  lemma {:induction false} FirstAboveAt(ids: seq<AppId>, i: nat)
    requires Increasing(ids) && i < |ids|
    ensures FirstAbove(ids, ids[i]) == if i + 1 < |ids| then Some(ids[i + 1]) else None
  {
    if i == 0 {
      assert FirstAbove(ids, ids[0]) == FirstAbove(ids[1..], ids[0]);
    } else {
      FirstAboveAt(ids[1..], i - 1);
    }
  }

  function Wrap(i: nat, n: nat): nat {
    if i < n then i else i - n
  }

  /** The requests one after the other, while nothing else changes: the pool after them and their outcomes. */
  function ResolveAll(p: Pool, rs: seq<Request>): (Pool, seq<Outcome>)
    decreases |rs|
  {
    if rs == [] then (p, [])
    else
      var (p', outcome) := Resolve(p, rs[0]);
      var (end, outcomes) := ResolveAll(p', rs[1..]);
      (end, [outcome] + outcomes)
  }

  /** A request without a preference that can be met, for which exactly the apps `ids` may be assigned. */
  ghost predicate Open(p: Pool, r: Request, ids: seq<AppId>) {
    !Prefers(p, r) && forall id :: TakesId(p, r, id) <==> id in ids
  }

  lemma {:induction false} SortedUnique(a: seq<AppId>, b: seq<AppId>)
    requires Increasing(a) && Increasing(b) && forall id :: id in a <==> id in b
    ensures a == b
  {
    assert a != [] ==> a[0] in a && a[0] in b;
    assert b != [] ==> b[0] in b && b[0] in a;
    if a == [] || b == [] {
      return;
    }
    var i :| 0 <= i < |b| && b[i] == a[0];
    var j :| 0 <= j < |a| && a[j] == b[0];
    assert a[0] == b[0];
    forall id ensures id in a[1..] <==> id in b[1..] {
      TailMember(a, id);
      TailMember(b, id);
    }
    SortedUnique(a[1..], b[1..]);
    assert a == [a[0]] + a[1..] && b == [b[0]] + b[1..];
  }

  lemma TailMember(a: seq<AppId>, id: AppId)
    requires Increasing(a) && a != []
    ensures id in a[1..] <==> id in a && id != a[0]
  {
    assert a == [a[0]] + a[1..];
    if id in a[1..] {
      var k :| 0 <= k < |a[1..]| && a[1..][k] == id;
      assert a[k + 1] == id;
    }
  }

  lemma CandidateIds(p: Pool, r: Request, ids: seq<AppId>)
    requires InIdOrder(p.apps) && Open(p, r, ids) && Increasing(ids)
    ensures Ids(Candidates(p.apps, p.accounts, r.exclude, r.blocked)) == ids
  {
    var cs := Candidates(p.apps, p.accounts, r.exclude, r.blocked);
    CandidatesExactly(p, r);
    forall id ensures id in Ids(cs) <==> id in ids {
      ListedExactly(p, r, id);
    }
    hide Candidates, TakesId, Takes;
    SortedUnique(Ids(cs), ids);
  }

  /** A request in round-robin mode: the app after the cursor's, the first one after the last, and any one if the
      cursor is on none. The cursor moves to it, and nothing else changes. */
  lemma RoundRobinTakesNext(p: Pool, r: Request, ids: seq<AppId>)
    requires InIdOrder(p.apps) && p.mode == RoundRobin && Open(p, r, ids) && Increasing(ids) && ids != []
    ensures var (p', outcome) := Resolve(p, r);
            && outcome.Assigned? && outcome.id in ids && p' == p.(cursor := Some(outcome.id))
            && (p.cursor.None? ==> outcome.id == ids[0])
            && (forall i: nat | i < |ids| && p.cursor == Some(ids[i]) :: outcome.id == ids[Wrap(i + 1, |ids|)])
            && (p.cursor.Some? && p.cursor.value !in ids ==> exists app: App :: app.id == outcome.id && IsBest(p, r, app))
  {
    var cs := Candidates(p.apps, p.accounts, r.exclude, r.blocked);
    CandidateIds(p, r, ids);
    assert cs != [];
    UserPreferredTakes(p, r);
    if r.preferred.Some? {
      AvailableExactly(p, r, r.preferred.value);
    }
    PicksListed(cs, p.cursor);
    WeightPicksBest(p, r);
    forall i: nat | i < |ids| && p.cursor == Some(ids[i]) ensures PickRoundRobin(cs, p.cursor) == ids[Wrap(i + 1, |ids|)] {
      FirstAboveAt(ids, i);
    }
    hide Candidates, Ids, IsCapacityAvailable, UserPreferred, PickWeight, IsBest, Takes, TakesId, FirstAbove;
  }

  lemma OpenStays(p: Pool, cursor: Option<AppId>, r: Request, ids: seq<AppId>)
    requires Open(p, r, ids)
    ensures Open(p.(cursor := cursor), r, ids)
  {
    var p' := p.(cursor := cursor);
    forall app ensures Takes(p', r, app) == Takes(p, r, app) {
    }
    hide Takes;
    forall id ensures TakesId(p', r, id) == TakesId(p, r, id) {
    }
  }

  lemma {:induction false} ResolvingGoesRound(p: Pool, rs: seq<Request>, ids: seq<AppId>, start: nat)
    requires InIdOrder(p.apps) && p.mode == RoundRobin && Increasing(ids) && start < |ids| && 0 < |rs| <= |ids|
    requires forall i | 0 <= i < |rs| :: Open(p, rs[i], ids)
    requires Resolve(p, rs[0]).1 == Assigned(ids[start])
    ensures var (end, outcomes) := ResolveAll(p, rs);
            |outcomes| == |rs| && end == p.(cursor := end.cursor) && GoesRound(ids, outcomes, start)
    decreases |rs|
  {
    var (p', outcome) := Resolve(p, rs[0]);
    RoundRobinTakesNext(p, rs[0], ids);
    hide Resolve, Open, IsBest, InIdOrder, Increasing, GoesRound;
    var rest := rs[1..];
    if rest == [] {
      assert ResolveAll(p', rest) == (p', []);
      StartsEarlier(ids, [], start);
      return;
    }
    forall i | 0 <= i < |rest| ensures Open(p', rest[i], ids) {
      OpenStays(p, p'.cursor, rs[i + 1], ids);
    }
    RoundRobinTakesNext(p', rest[0], ids);
    var next := Wrap(start + 1, |ids|);
    ResolvingGoesRound(p', rest, ids, next);
    StartsEarlier(ids, ResolveAll(p', rest).1, start);
  }

  ghost predicate GoesRound(ids: seq<AppId>, outcomes: seq<Outcome>, start: nat) {
    && start < |ids| && |outcomes| <= |ids|
    && forall k | 0 <= k < |outcomes| :: outcomes[k] == Assigned(ids[Wrap(start + k, |ids|)])
  }

  lemma StartsEarlier(ids: seq<AppId>, outcomes: seq<Outcome>, start: nat)
    requires start < |ids| && GoesRound(ids, outcomes, Wrap(start + 1, |ids|)) && |outcomes| < |ids|
    ensures GoesRound(ids, [Assigned(ids[start])] + outcomes, start)
  {
    var all := [Assigned(ids[start])] + outcomes;
    forall k | 0 <= k < |all| ensures all[k] == Assigned(ids[Wrap(start + k, |ids|)]) {
      assert k > 0 ==> Wrap(Wrap(start + 1, |ids|) + (k - 1), |ids|) == Wrap(start + k, |ids|);
    }
  }

  /** Of as many requests in a row as apps may be assigned - whatever each excludes and blocks, as long as it comes to
      the same apps and no preference can be met - each of these apps gets exactly one, wherever the cursor was. */
  lemma RoundRobinIsFair(p: Pool, rs: seq<Request>, ids: seq<AppId>)
    requires InIdOrder(p.apps) && p.mode == RoundRobin && Increasing(ids) && |rs| == |ids|
    requires forall i | 0 <= i < |rs| :: Open(p, rs[i], ids)
    ensures var (end, outcomes) := ResolveAll(p, rs);
            && |outcomes| == |ids| && end == p.(cursor := end.cursor)
            && (forall k | 0 <= k < |outcomes| :: outcomes[k].Assigned? && outcomes[k].id in ids)
            && (forall j, k | 0 <= j < k < |outcomes| :: outcomes[j].id != outcomes[k].id)
            && (forall id | id in ids :: Assigned(id) in outcomes)
  {
    if rs == [] {
      assert p == p.(cursor := p.cursor);
      return;
    }
    RoundRobinTakesNext(p, rs[0], ids);
    hide Resolve, Open;
    var start :| 0 <= start < |ids| && Resolve(p, rs[0]).1 == Assigned(ids[start]);
    ResolvingGoesRound(p, rs, ids, start);
    hide ResolveAll;
    GoingRoundIsFair(ids, ResolveAll(p, rs).1, start);
  }

  lemma GoingRoundIsFair(ids: seq<AppId>, outcomes: seq<Outcome>, start: nat)
    requires Increasing(ids) && |outcomes| == |ids| && GoesRound(ids, outcomes, start)
    ensures forall j, k | 0 <= j < k < |outcomes| :: outcomes[j].id != outcomes[k].id
    ensures forall id | id in ids :: Assigned(id) in outcomes
  {
    var n := |ids|;
    forall j, k | 0 <= j < k < n ensures outcomes[j].id != outcomes[k].id {
      var a, b := Wrap(start + j, n), Wrap(start + k, n);
      assert outcomes[j].id == ids[a] && outcomes[k].id == ids[b] && a != b;
    }
    forall i | 0 <= i < n ensures Assigned(ids[i]) in outcomes {
      var k := if start <= i then i - start else i + n - start;
      assert outcomes[k] == Assigned(ids[i]);
    }
  }

  // ---------------------------------------------------------------- migration uses exactly the free capacity

  predicate Target(app: App, from: AppId) {
    app.id != from && app.active && app.healthy
  }

  predicate Unlimited(apps: seq<App>, from: AppId) {
    exists i :: 0 <= i < |apps| && Target(apps[i], from) && apps[i].maxAccounts <= 0
  }

  function FreeIn(app: App, accounts: Accounts, from: AppId): nat {
    var usage := Usage(accounts, app.id, None);
    if Target(app, from) && app.maxAccounts > usage then app.maxAccounts - usage else 0
  }

  /** Room left in the limited apps an account of `from` can move to. */
  function Free(apps: seq<App>, accounts: Accounts, from: AppId): nat {
    if apps == [] then 0 else FreeIn(apps[0], accounts, from) + Free(apps[1..], accounts, from)
  }

  lemma UsageExcludingOwn(accounts: Accounts, a: AccountId, from: AppId, id: AppId)
    requires a in accounts && accounts[a].appId == Some(from) && id != from
    ensures Usage(accounts, id, Some(a)) == Usage(accounts, id, None)
  {
    assert UsersOf(accounts, id, Some(a)) == UsersOf(accounts, id, None);
  }

  lemma {:induction false} CandidatesExactlyWhenRoom(apps: seq<App>, accounts: Accounts, a: AccountId, from: AppId)
    requires a in accounts && accounts[a].appId == Some(from)
    ensures Candidates(apps, accounts, Some(a), {from}) != [] <==> Unlimited(apps, from) || Free(apps, accounts, from) > 0
  {
    if apps != [] {
      CandidatesExactlyWhenRoom(apps[1..], accounts, a, from);
      if apps[0].id != from {
        UsageExcludingOwn(accounts, a, from, apps[0].id);
      }
      hide Usage, Candidates;
      assert Candidates(apps, accounts, Some(a), {from}) != [] <==>
             Assignable(apps[0], accounts, Some(a), {from}) || Candidates(apps[1..], accounts, Some(a), {from}) != [] by {
        CandidatesUnfold(apps, accounts, Some(a), {from});
      }
      assert Unlimited(apps, from) <==> (Target(apps[0], from) && apps[0].maxAccounts <= 0) || Unlimited(apps[1..], from) by {
        assert forall i | 1 <= i < |apps| :: apps[1..][i - 1] == apps[i];
      }
    }
  }

  lemma CandidatesUnfold(apps: seq<App>, accounts: Accounts, exclude: Option<AccountId>, blocked: set<AppId>)
    requires apps != []
    ensures Candidates(apps, accounts, exclude, blocked) != [] <==>
            Assignable(apps[0], accounts, exclude, blocked) || Candidates(apps[1..], accounts, exclude, blocked) != []
  {
  }

  /** Moving one account changes the usage of two apps only. */
  lemma UsageAfterMove(accounts: Accounts, a: AccountId, account: Account, id: AppId)
    requires a in accounts
    ensures var after := accounts[a := account];
            && (accounts[a].appId != Some(id) && account.appId == Some(id) ==> Usage(after, id, None) == Usage(accounts, id, None) + 1)
            && (accounts[a].appId != Some(id) && account.appId != Some(id) ==> Usage(after, id, None) == Usage(accounts, id, None))
            && (accounts[a].appId == Some(id) ==> Usage(after, id, None) <= Usage(accounts, id, None))
            && (account.appId == accounts[a].appId ==> Usage(after, id, None) == Usage(accounts, id, None))
  {
    var after := accounts[a := account];
    var was, will := UsersOf(accounts, id, None), UsersOf(after, id, None);
    if account.appId == Some(id) {
      assert will == was + {a};
    } else {
      assert will == was - {a};
    }
  }

  lemma {:induction false} FreeAfterMove(apps: seq<App>, accounts: Accounts, a: AccountId, account: Account, from: AppId)
    requires InIdOrder(apps) && a in accounts && accounts[a].appId == Some(from)
    requires account.appId.Some? && account.appId != Some(from)
    ensures var after := accounts[a := account];
            Free(apps, after, from) == Free(apps, accounts, from)
              - if exists i :: 0 <= i < |apps| && account.appId == Some(apps[i].id) && FreeIn(apps[i], accounts, from) > 0 then 1 else 0
  {
    if apps != [] {
      FreeAfterMove(apps[1..], accounts, a, account, from);
      UsageAfterMove(accounts, a, account, apps[0].id);
      hide Usage;
      var here := account.appId == Some(apps[0].id) && FreeIn(apps[0], accounts, from) > 0;
      var there := exists i :: 0 <= i < |apps[1..]| && account.appId == Some(apps[1..][i].id) && FreeIn(apps[1..][i], accounts, from) > 0;
      assert there ==> account.appId != Some(apps[0].id);
      assert (exists i :: 0 <= i < |apps| && account.appId == Some(apps[i].id) && FreeIn(apps[i], accounts, from) > 0) <==> here || there by {
        assert forall i | 1 <= i < |apps| :: apps[1..][i - 1] == apps[i];
      }
    }
  }

  lemma {:induction false} FreeUnchanged(apps: seq<App>, accounts: Accounts, a: AccountId, account: Account, from: AppId)
    requires a in accounts && account.appId == accounts[a].appId
    ensures Free(apps, accounts[a := account], from) == Free(apps, accounts, from)
  {
    if apps != [] {
      UsageAfterMove(accounts, a, account, apps[0].id);
      FreeUnchanged(apps[1..], accounts, a, account, from);
    }
  }

  /** No app that was within its limit is pushed over it. */
  ghost predicate LimitsKept(apps: seq<App>, before: Accounts, after: Accounts) {
    forall app | app in apps && app.maxAccounts > 0 && Usage(before, app.id, None) <= app.maxAccounts ::
      Usage(after, app.id, None) <= app.maxAccounts
  }

  /** One turn moves the account exactly if there is room - to the app its user prefers, if there is room there - and
      uses one place of it. */
  lemma MigrateOneExactly(p: Pool, a: AccountId, from: AppId)
    requires InIdOrder(p.apps) && a in p.accounts && p.accounts[a].appId == Some(from)
    ensures var (p', moved) := MigrateOne(p, a, from);
            && (moved <==> Unlimited(p.apps, from) || Free(p.apps, p.accounts, from) > 0)
            && p'.apps == p.apps && a in p'.accounts && p'.accounts == p.accounts[a := p'.accounts[a]]
            && (moved ==> MovedOff(p.apps, p.accounts[a], p'.accounts[a], from))
            && (!moved ==> StalledAs(p.accounts[a], p'.accounts[a]) && Free(p.apps, p'.accounts, from) == Free(p.apps, p.accounts, from))
            && (moved && !Unlimited(p.apps, from) ==> Free(p.apps, p'.accounts, from) == Free(p.apps, p.accounts, from) - 1)
            && LimitsKept(p.apps, p.accounts, p'.accounts)
  {
    var r := MigrationRequest(p.accounts[a], a, from);
    var outcome := Resolve(p, r).1;
    ResolveExactly(p, r);
    TurnAssignsExactly(p, a, from);
    if outcome.Assigned? {
      MoveTargetHasRoom(p, a, from, outcome.id);
      MovedColumns(p, a, from, outcome.id);
      MoveUsesOnePlace(p, a, from, outcome.id, Moved(p.accounts[a], p.apps, outcome.id));
    } else {
      StallUsesNone(p, a, from);
    }
    hide Resolve, Candidates, Free, Unlimited, LimitsKept, MovedOff, Takes, TakesId, DefaultFits;
  }

  lemma TurnAssignsExactly(p: Pool, a: AccountId, from: AppId)
    requires InIdOrder(p.apps) && a in p.accounts && p.accounts[a].appId == Some(from)
    ensures Resolve(p, MigrationRequest(p.accounts[a], a, from)).1.Assigned? <==> Unlimited(p.apps, from) || Free(p.apps, p.accounts, from) > 0
  {
    var r := MigrationRequest(p.accounts[a], a, from);
    var cs := Candidates(p.apps, p.accounts, Some(a), {from});
    ResolveExactly(p, r);
    CandidatesExactly(p, r);
    CandidatesExactlyWhenRoom(p.apps, p.accounts, a, from);
    hide Resolve, Candidates, Free, Unlimited, Takes, Used;
    assert cs != [] ==> cs[0] in cs;
  }

  /** The user's own preference decides where its account goes, if there is room. */
  lemma MigrationHonoursPreference(p: Pool, a: AccountId, from: AppId)
    requires InIdOrder(p.apps) && a in p.accounts && p.accounts[a].appId == Some(from)
    requires p.accounts[a].userId in p.userPreferred && RoomAt(p, from, p.userPreferred[p.accounts[a].userId])
    ensures var (p', moved) := MigrateOne(p, a, from);
            moved && a in p'.accounts && p'.accounts[a].appId == Some(p.userPreferred[p.accounts[a].userId])
  {
    var r := MigrationRequest(p.accounts[a], a, from);
    var id := p.userPreferred[p.accounts[a].userId];
    var i :| 0 <= i < |p.apps| && p.apps[i].id == id && Target(p.apps[i], from)
             && (p.apps[i].maxAccounts <= 0 || FreeIn(p.apps[i], p.accounts, from) > 0);
    ResolveHonoursPreferences(p, r);
    TakesExactly(p, r, p.apps[i]);
    UsageExcludingOwn(p.accounts, a, from, id);
    hide Resolve, Usage, Used, IsBest;
    assert Takes(p, r, p.apps[i]);
    assert TakesId(p, r, id);
  }

  lemma MovedColumns(p: Pool, a: AccountId, from: AppId, id: AppId)
    requires InIdOrder(p.apps) && a in p.accounts && RoomAt(p, from, id)
    ensures MovedOff(p.apps, p.accounts[a], Moved(p.accounts[a], p.apps, id), from)
  {
    var i :| 0 <= i < |p.apps| && p.apps[i].id == id && Target(p.apps[i], from)
             && (p.apps[i].maxAccounts <= 0 || FreeIn(p.apps[i], p.accounts, from) > 0);
    FindAppUnique(p.apps, p.apps[i]);
  }

  ghost predicate RoomAt(p: Pool, from: AppId, id: AppId) {
    exists i :: && 0 <= i < |p.apps| && p.apps[i].id == id && Target(p.apps[i], from)
                && (p.apps[i].maxAccounts <= 0 || FreeIn(p.apps[i], p.accounts, from) > 0)
  }

  lemma MoveUsesOnePlace(p: Pool, a: AccountId, from: AppId, id: AppId, account: Account)
    requires InIdOrder(p.apps) && a in p.accounts && p.accounts[a].appId == Some(from)
    requires RoomAt(p, from, id) && account.appId == Some(id)
    ensures !Unlimited(p.apps, from) ==> Free(p.apps, p.accounts[a := account], from) == Free(p.apps, p.accounts, from) - 1
    ensures LimitsKept(p.apps, p.accounts, p.accounts[a := account])
  {
    FreeAfterMove(p.apps, p.accounts, a, account, from);
    var i :| 0 <= i < |p.apps| && p.apps[i].id == id && Target(p.apps[i], from)
             && (p.apps[i].maxAccounts <= 0 || FreeIn(p.apps[i], p.accounts, from) > 0);
    hide Usage, Free;
    forall app | app in p.apps && app.maxAccounts > 0 && Usage(p.accounts, app.id, None) <= app.maxAccounts
      ensures Usage(p.accounts[a := account], app.id, None) <= app.maxAccounts
    {
      UsageAfterMove(p.accounts, a, account, app.id);
      FindAppUnique(p.apps, app);
      FindAppUnique(p.apps, p.apps[i]);
    }
  }

  lemma StallUsesNone(p: Pool, a: AccountId, from: AppId)
    requires a in p.accounts
    ensures var after := p.accounts[a := Stalled(p.accounts[a])];
            Free(p.apps, after, from) == Free(p.apps, p.accounts, from) && LimitsKept(p.apps, p.accounts, after)
  {
    var account := Stalled(p.accounts[a]);
    FreeUnchanged(p.apps, p.accounts, a, account, from);
    forall app | app in p.apps ensures Usage(p.accounts[a := account], app.id, None) == Usage(p.accounts, app.id, None) {
      UsageAfterMove(p.accounts, a, account, app.id);
    }
  }

  /** The account left `from` for a healthy app, with that app's version, and has to log in again. */
  ghost predicate MovedOff(apps: seq<App>, before: Account, after: Account, from: AppId) {
    exists i :: && 0 <= i < |apps| && Target(apps[i], from)
                && after == Account(before.userId, Some(apps[i].id), apps[i].credentialsVersion, false, false, NoReason)
  }

  /** The account stays where it is, offline and marked. */
  ghost predicate StalledAs(before: Account, after: Account) {
    after == Account(before.userId, before.appId, before.appVersion, false, false, DeveloperAppUnhealthy)
  }

  lemma MoveTargetHasRoom(p: Pool, a: AccountId, from: AppId, id: AppId)
    requires InIdOrder(p.apps) && a in p.accounts && p.accounts[a].appId == Some(from)
    requires TakesId(p, MigrationRequest(p.accounts[a], a, from), id)
    ensures RoomAt(p, from, id)
  {
    var r := MigrationRequest(p.accounts[a], a, from);
    var app :| Takes(p, r, app) && app.id == id;
    TakesExactly(p, r, app);
    var i :| 0 <= i < |p.apps| && p.apps[i] == app;
    UsageExcludingOwn(p.accounts, a, from, id);
  }

  ghost predicate AllOn(accounts: Accounts, rows: seq<AccountId>, from: AppId) {
    && (forall i | 0 <= i < |rows| :: rows[i] in accounts && accounts[rows[i]].appId == Some(from))
    && (forall i, j | 0 <= i < j < |rows| :: rows[i] != rows[j])
  }

  /** The places there are for `n` accounts of `from`. */
  function Places(p: Pool, from: AppId, n: nat): nat {
    if Unlimited(p.apps, from) || n <= Free(p.apps, p.accounts, from) then n else Free(p.apps, p.accounts, from)
  }

  ghost predicate MigrationFits(p: Pool, end: Pool, rows: seq<AccountId>, k: nat, from: AppId) {
    && k <= |rows| && end.apps == p.apps && end.accounts.Keys == p.accounts.Keys
    && (forall i | 0 <= i < k :: rows[i] in end.accounts && rows[i] in p.accounts && MovedOff(p.apps, p.accounts[rows[i]], end.accounts[rows[i]], from))
    && (forall i | k <= i < |rows| :: rows[i] in end.accounts && rows[i] in p.accounts
                                      && StalledAs(p.accounts[rows[i]], end.accounts[rows[i]]))
    && (forall a | a in p.accounts && a !in rows :: end.accounts[a] == p.accounts[a])
    && LimitsKept(p.apps, p.accounts, end.accounts)
  }

  ghost predicate MigratesExactly(p: Pool, rows: seq<AccountId>, from: AppId, migrated: seq<AccountId>, stalled: seq<AccountId>) {
    var k := Places(p, from, |rows|);
    && k <= |rows|
    && (forall i | 0 <= i < |rows| :: rows[i] in p.accounts)
    && var (end, m, s) := Migrate(p, rows, from, migrated, stalled);
       m == migrated + rows[..k] && s == stalled + rows[k..] && MigrationFits(p, end, rows, k, from)
  }

  lemma AfterMove(p: Pool, mid: Pool, rows: seq<AccountId>, from: AppId, migrated: seq<AccountId>, stalled: seq<AccountId>)
    requires rows != [] && AllOn(p.accounts, rows, from) && MigrateOne(p, rows[0], from) == (mid, true)
    requires mid.apps == p.apps && mid.accounts.Keys == p.accounts.Keys && mid.accounts == p.accounts[rows[0] := mid.accounts[rows[0]]]
    requires MovedOff(p.apps, p.accounts[rows[0]], mid.accounts[rows[0]], from) && LimitsKept(p.apps, p.accounts, mid.accounts)
    requires Places(p, from, |rows|) == Places(mid, from, |rows| - 1) + 1
    requires MigratesExactly(mid, rows[1..], from, migrated + [rows[0]], stalled)
    ensures MigratesExactly(p, rows, from, migrated, stalled)
  {
    hide AllOn, MigrateOne, Places, MigrationFits, MovedOff, LimitsKept;
    var rest, k := rows[1..], Places(p, from, |rows|);
    assert forall i | 1 <= i < |rows| :: rest[i - 1] == rows[i];
    FitsFromFirst(p, mid, Migrate(mid, rest, from, migrated + [rows[0]], stalled).0, rows, k, k - 1, from, true);
    assert migrated + [rows[0]] + rest[..k - 1] == migrated + rows[..k] && rest[k - 1..] == rows[k..];
  }

  lemma AfterStall(p: Pool, mid: Pool, rows: seq<AccountId>, from: AppId, migrated: seq<AccountId>, stalled: seq<AccountId>)
    requires rows != [] && AllOn(p.accounts, rows, from) && MigrateOne(p, rows[0], from) == (mid, false)
    requires mid.apps == p.apps && mid.accounts.Keys == p.accounts.Keys && mid.accounts == p.accounts[rows[0] := mid.accounts[rows[0]]]
    requires StalledAs(p.accounts[rows[0]], mid.accounts[rows[0]]) && LimitsKept(p.apps, p.accounts, mid.accounts)
    requires Places(p, from, |rows|) == 0 == Places(mid, from, |rows| - 1)
    requires MigratesExactly(mid, rows[1..], from, migrated, stalled + [rows[0]])
    ensures MigratesExactly(p, rows, from, migrated, stalled)
  {
    hide AllOn, MigrateOne, Places, MigrationFits, MovedOff, LimitsKept, StalledAs;
    var rest := rows[1..];
    assert forall i | 1 <= i < |rows| :: rest[i - 1] == rows[i];
    FitsFromFirst(p, mid, Migrate(mid, rest, from, migrated, stalled + [rows[0]]).0, rows, 0, 0, from, false);
    assert stalled + [rows[0]] + rest[0..] == stalled + rows[0..] && migrated + rest[..0] == migrated + rows[..0];
  }

  /** Migration away from an app moves exactly as many of its accounts as there are places - the first ones,
      all of them if an unlimited healthy app exists - off that app onto healthy ones, marks the others as
      stalled where they are, touches no further account, and pushes no app over its limit. */
  lemma {:induction false} MigrateExactly(p: Pool, rows: seq<AccountId>, from: AppId, migrated: seq<AccountId>, stalled: seq<AccountId>)
    requires InIdOrder(p.apps) && AllOn(p.accounts, rows, from)
    ensures MigratesExactly(p, rows, from, migrated, stalled)
    decreases |rows|
  {
    if rows == [] {
      assert migrated + rows[..0] == migrated && stalled + rows[0..] == stalled;
      return;
    }
    assert rows[0] in p.accounts && p.accounts[rows[0]].appId == Some(from);
    hide MigrateOne, Places, InIdOrder, Unlimited, Free, MigratesExactly, LimitsKept, MovedOff, AllOn, StalledAs;
    MigrateOneExactly(p, rows[0], from);
    var step := MigrateOne(p, rows[0], from);
    StillOn(p.accounts, step.0.accounts, rows, from);
    PlacesAfterOne(p, step.0, |rows|, from, step.1);
    if step.1 {
      MigrateExactly(step.0, rows[1..], from, migrated + [rows[0]], stalled);
      AfterMove(p, step.0, rows, from, migrated, stalled);
    } else {
      MigrateExactly(step.0, rows[1..], from, migrated, stalled + [rows[0]]);
      AfterStall(p, step.0, rows, from, migrated, stalled);
    }
  }

  lemma StillOn(before: Accounts, after: Accounts, rows: seq<AccountId>, from: AppId)
    requires rows != [] && AllOn(before, rows, from)
    requires rows[0] in after && after == before[rows[0] := after[rows[0]]]
    ensures AllOn(after, rows[1..], from) && (forall i | 0 <= i < |rows| :: rows[i] in before)
  {
    assert forall i | 1 <= i < |rows| :: rows[1..][i - 1] == rows[i];
  }

  lemma PlacesAfterOne(p: Pool, p': Pool, n: nat, from: AppId, moved: bool)
    requires n > 0 && p'.apps == p.apps
    requires moved <==> Unlimited(p.apps, from) || Free(p.apps, p.accounts, from) > 0
    requires !moved ==> Free(p.apps, p'.accounts, from) == Free(p.apps, p.accounts, from)
    requires moved && !Unlimited(p.apps, from) ==> Free(p.apps, p'.accounts, from) == Free(p.apps, p.accounts, from) - 1
    ensures Places(p, from, n) == if moved then Places(p', from, n - 1) + 1 else 0
    ensures !moved ==> Places(p', from, n - 1) == 0
  {
    hide Unlimited, Free;
  }

  lemma RowUntouched(p: Pool, end: Pool, rows: seq<AccountId>, k: nat, from: AppId, a: AccountId)
    requires MigrationFits(p, end, rows, k, from) && a in p.accounts && a !in rows
    ensures a in end.accounts && end.accounts[a] == p.accounts[a]
  {
  }

  lemma FitsFromFirst(p: Pool, mid: Pool, end: Pool, rows: seq<AccountId>, k: nat, k': nat, from: AppId, moved: bool)
    requires rows != [] && AllOn(p.accounts, rows, from)
    requires rows[0] in mid.accounts && mid.apps == p.apps && mid.accounts == p.accounts[rows[0] := mid.accounts[rows[0]]]
    requires moved ==> MovedOff(p.apps, p.accounts[rows[0]], mid.accounts[rows[0]], from) && k == k' + 1
    requires !moved ==> StalledAs(p.accounts[rows[0]], mid.accounts[rows[0]]) && k == 0 && k' == 0
    requires LimitsKept(p.apps, p.accounts, mid.accounts)
    requires MigrationFits(mid, end, rows[1..], k', from)
    ensures MigrationFits(p, end, rows, k, from)
  {
    assert rows[0] !in rows[1..];
    assert forall i | 1 <= i < |rows| :: rows[1..][i - 1] == rows[i];
    assert LimitsKept(p.apps, p.accounts, end.accounts);
    hide LimitsKept, MovedOff;
    RowUntouched(mid, end, rows[1..], k', from, rows[0]);
    forall a | a in p.accounts && a !in rows ensures end.accounts[a] == p.accounts[a] {
      assert a !in rows[1..];
    }
  }
}

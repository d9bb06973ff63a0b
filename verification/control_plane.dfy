/** The services as objects: the control-plane store with the request handlers of
    crates/admin-api/src/routes.rs, sesame's directory, and the reconcile loop of
    crates/job-runner/src/reconcile.rs. Every method is tied to the transactions of Store or to a
    run of Protocol, whose properties are proved in the other modules. */
module ControlPlane {
  import opened Strings
  import opened Validators
  import opened Store
  import opened Protocol
  import S = Store
  import T = Thresholds

  // ------------------------------------------------------------------------
  // ORDER BY created_at LIMIT n
  // ------------------------------------------------------------------------

  lemma {:induction false} OldestExists(created: map<Id, nat>, among: set<Id>) returns (oldest: Id)
    requires among != {} && among <= created.Keys
    ensures oldest in among && forall b :: b in among ==> created[oldest] <= created[b]
  {
    var x :| x in among;
    if among == {x} { return x; }
    var a := OldestExists(created, among - {x});
    oldest := if created[x] <= created[a] then x else a;
  }

  /** The ids are the `limit` oldest keys (or all of them), oldest first, each once. */
  ghost predicate OldestFirst(created: map<Id, nat>, limit: nat, ids: seq<Id>) {
    && |ids| == Min(limit, |created.Keys|)
    && (forall i :: 0 <= i < |ids| ==> ids[i] in created)
    && (forall i, j :: 0 <= i < j < |ids| ==> ids[i] != ids[j])
    && (forall i, j :: 0 <= i < j < |ids| ==> created[ids[i]] <= created[ids[j]])
    && (forall i, a :: 0 <= i < |ids| && a in created && a !in ids ==> created[ids[i]] <= created[a])
  }

  method OrderByCreation(created: map<Id, nat>, limit: nat) returns (ids: seq<Id>)
    ensures OldestFirst(created, limit, ids)
  {
    ids := [];
    var rest := created.Keys;
    while |ids| < limit && rest != {}
      invariant |ids| <= limit && |ids| + |rest| == |created.Keys|
      invariant rest <= created.Keys
      invariant forall a :: a in created ==> (a in rest <==> a !in ids)
      invariant forall i :: 0 <= i < |ids| ==> ids[i] in created
      invariant forall i, j :: 0 <= i < j < |ids| ==> ids[i] != ids[j]
      invariant forall i, j :: 0 <= i < j < |ids| ==> created[ids[i]] <= created[ids[j]]
      invariant forall i, a :: 0 <= i < |ids| && a in rest ==> created[ids[i]] <= created[a]
    {
      ghost var _ := OldestExists(created, rest);
      var a :| a in rest && forall b :: b in rest ==> created[a] <= created[b];
      ids, rest := ids + [a], rest - {a};
    }
  }

  /** Every visible row once, oldest first. */
  ghost predicate Lists<R>(rows: map<Id, R>, createdAt: map<Id, nat>, listing: seq<(Id, R)>) {
    && rows.Keys == createdAt.Keys
    && |listing| == |rows|
    && (forall i :: 0 <= i < |listing| ==> listing[i].0 in rows && listing[i].1 == rows[listing[i].0])
    && (forall i, j :: 0 <= i < j < |listing| ==>
          listing[i].0 != listing[j].0 && createdAt[listing[i].0] <= createdAt[listing[j].0])
  }

  /** A listing leaves no row out. */
  lemma ListsEveryRow<R>(rows: map<Id, R>, createdAt: map<Id, nat>, listing: seq<(Id, R)>, id: Id) returns (k: nat)
    requires Lists(rows, createdAt, listing) && id in rows
    ensures k < |listing| && listing[k] == (id, rows[id])
  {
    var ids := seq(|listing|, i requires 0 <= i < |listing| => listing[i].0);
    assert |rows| == |rows.Keys|;
    if id !in ids {
      AllDifferentFit(ids, rows.Keys - {id});
      assert false;
    }
    k :| 0 <= k < |ids| && ids[k] == id;
  }

  lemma ListsAllRows<R>(rows: map<Id, R>, createdAt: map<Id, nat>, listing: seq<(Id, R)>)
    requires Lists(rows, createdAt, listing)
    ensures forall id :: id in rows ==> (id, rows[id]) in listing
  {
    forall id | id in rows ensures (id, rows[id]) in listing {
      var k := ListsEveryRow(rows, createdAt, listing, id);
      assert listing[k] == (id, rows[id]);
    }
  }

  lemma {:induction false} AllDifferentFit(ids: seq<Id>, among: set<Id>)
    requires forall i, j :: 0 <= i < j < |ids| ==> ids[i] != ids[j]
    requires forall i :: 0 <= i < |ids| ==> ids[i] in among
    ensures |ids| <= |among|
  {
    if ids != [] { AllDifferentFit(ids[..|ids| - 1], among - {ids[|ids| - 1]}); }
  }

  method ListRows<R>(rows: map<Id, R>, createdAt: map<Id, nat>) returns (listing: seq<(Id, R)>)
    requires rows.Keys == createdAt.Keys
    ensures Lists(rows, createdAt, listing)
  {
    assert |rows| == |rows.Keys|;
    var ids := OrderByCreation(createdAt, |rows|);
    listing := seq(|ids|, i requires 0 <= i < |ids| && ids[i] in rows => (ids[i], rows[ids[i]]));
  }

  // ------------------------------------------------------------------------
  // sesame
  // ------------------------------------------------------------------------

  class Sesame {
    var users: Directory

    constructor ()
      ensures users == map[]
    {
      users := map[];
    }

    /** `provision_user`: create or fetch by email. `reply` says how the call ends. */
    method ProvisionUser(email: string, reply: Reply) returns (user: Option<Id>)
      modifies this
      ensures (users, user) == Provision(old(users), email, reply)
      ensures user.Some? ==> email in users && users[email] == user.value
      ensures forall e :: e in old(users) ==> e in users && users[e] == old(users)[e]
    {
      if reply.Refused? { return None; }
      if email in users { return if reply.Answered? then Some(users[email]) else None; }
      if reply.newId in users.Values { return None; }
      users := users[email := reply.newId];
      user := if reply.Answered? then Some(reply.newId) else None;
    }
  }

  function ReplyAt(replies: seq<Reply>, i: nat): Reply { if i < |replies| then replies[i] else Refused }

  /** A cycle with nothing in between. A persisting event without an answer changes nothing. */
  function CycleEvents(batch: nat, ids: seq<Id>, replies: seq<Reply>, n: nat): seq<Event> {
    if n == 0 then [WorkerStarts(batch, ids)]
    else CycleEvents(batch, ids, replies, n - 1) + [WorkerCalls(0, ReplyAt(replies, n - 1))] + [WorkerPersists(0)]
  }

  function Iterate(f: (System, Reply) -> System, t: System, replies: seq<Reply>, n: nat): System {
    if n == 0 then t else f(Iterate(f, t, replies, n - 1), ReplyAt(replies, n - 1))
  }

  lemma {:induction false} FixedPointStays(f: (System, Reply) -> System, t: System, replies: seq<Reply>, m: nat, n: nat)
    requires m <= n && forall reply :: f(Iterate(f, t, replies, m), reply) == Iterate(f, t, replies, m)
    ensures Iterate(f, t, replies, n) == Iterate(f, t, replies, m)
    decreases n
  {
    if m < n { FixedPointStays(f, t, replies, m, n - 1); }
  }

  /** Where that run stands after `n` rows. */
  function CycleState(s: System, batch: nat, ids: seq<Id>, replies: seq<Reply>, n: nat): System {
    Iterate(RowDone, Apply(s, WorkerStarts(batch, ids)), replies, n)
  }

  function RowDone(t: System, reply: Reply): System { Apply(Apply(t, WorkerCalls(0, reply)), WorkerPersists(0)) }

  lemma {:induction false} CycleStateIsRun(s: System, batch: nat, ids: seq<Id>, replies: seq<Reply>, n: nat)
    ensures CycleState(s, batch, ids, replies, n) == Run(s, CycleEvents(batch, ids, replies, n))
  {
    if n == 0 {
      var e := WorkerStarts(batch, ids);
      assert [e] == [] + [e];
      RunSnoc(s, [], e);
      assert Run(s, []) == s;
    } else {
      CycleStateIsRun(s, batch, ids, replies, n - 1);
      var events, call := CycleEvents(batch, ids, replies, n - 1), WorkerCalls(0, ReplyAt(replies, n - 1));
      RunSnoc(s, events, call);
      RunSnoc(s, events + [call], WorkerPersists(0));
    }
  }

  lemma StartOfCycle(s: System, batch: nat, ids: seq<Id>)
    requires s.workers == [] && s.handlers == [] && IsBatch(s.db, batch, ids)
    ensures At(Apply(s, WorkerStarts(batch, ids)), s.db, s.sesame, RowsOf(s.db, ids), 0, 0)
  {
    assert s.workers + [Worker(Looping, RowsOf(s.db, ids), 0, None, 0, {}, [])] ==
           [Worker(Looping, RowsOf(s.db, ids), 0, None, 0, {}, [])];
  }

  predicate Single(t: System) { |t.workers| == 1 && t.handlers == [] }

  /** The lone worker has done the rows before `i`. */
  predicate At(t: System, db: Db, users: Directory, rows: seq<PendingRow>, i: nat, activated: nat) {
    && t.db == db && t.sesame == users && Single(t)
    && var w := t.workers[0];
       w.status == Looping && w.rows == rows && w.next == i && w.answer == None && w.activated == activated
  }

  predicate Halted(t: System, db: Db, users: Directory) {
    t.db == db && t.sesame == users && Single(t) && t.workers[0].status == Stopped
  }

  lemma OneRow(t: System, rows: seq<PendingRow>, i: nat, activated: nat, reply: Reply)
    requires At(t, t.db, t.sesame, rows, i, activated) && i < |rows|
    ensures var (users, user) := Provision(t.sesame, rows[i].email, reply);
            if user.None? then At(RowDone(t, reply), t.db, users, rows, i + 1, activated)
            else match ReconcileAccount(t.db, rows[i].tenant, rows[i].id, user.value)
              case Err(_) => Halted(RowDone(t, reply), t.db, users)
              case Ok((db, updated)) =>
                At(RowDone(t, reply), db, users, rows, i + 1, activated + if updated then 1 else 0)
  {}

  /** The same for the cycle of a given batch. */
  lemma NextRow(s: System, batch: nat, ids: seq<Id>, replies: seq<Reply>, rows: seq<PendingRow>, i: nat, activated: nat)
    requires var t := CycleState(s, batch, ids, replies, i); At(t, t.db, t.sesame, rows, i, activated)
    requires i < |rows|
    ensures var t, t' := CycleState(s, batch, ids, replies, i), CycleState(s, batch, ids, replies, i + 1);
            var (users, user) := Provision(t.sesame, rows[i].email, ReplyAt(replies, i));
            if user.None? then At(t', t.db, users, rows, i + 1, activated)
            else match ReconcileAccount(t.db, rows[i].tenant, rows[i].id, user.value)
              case Err(_) => Halted(CycleState(s, batch, ids, replies, |rows|), t.db, users)
              case Ok((db, updated)) => At(t', db, users, rows, i + 1, activated + if updated then 1 else 0)
  {
    var t := CycleState(s, batch, ids, replies, i);
    OneRow(t, rows, i, activated, ReplyAt(replies, i));
    var (users, user) := Provision(t.sesame, rows[i].email, ReplyAt(replies, i));
    if user.Some? && ReconcileAccount(t.db, rows[i].tenant, rows[i].id, user.value).Err? {
      HaltedStays(s, batch, ids, replies, i + 1, |rows|);
    }
  }

  lemma HaltedStays(s: System, batch: nat, ids: seq<Id>, replies: seq<Reply>, m: nat, n: nat)
    requires m <= n
    requires var t := CycleState(s, batch, ids, replies, m); Halted(t, t.db, t.sesame)
    ensures CycleState(s, batch, ids, replies, n) == CycleState(s, batch, ids, replies, m)
  {
    var t := CycleState(s, batch, ids, replies, m);
    forall reply ensures RowDone(t, reply) == t { HaltedDoesNothing(t, reply); }
    FixedPointStays(RowDone, Apply(s, WorkerStarts(batch, ids)), replies, m, n);
  }

  lemma HaltedDoesNothing(t: System, reply: Reply)
    requires Halted(t, t.db, t.sesame)
    ensures RowDone(t, reply) == t
  {}

  // ------------------------------------------------------------------------
  // The store
  // ------------------------------------------------------------------------

  /** What the three events of a request that runs alone do. */
  lemma LoneRequest(db: Db, users: Directory, t: Id, id: Id, req: NewAccount, actor: string, now: nat, reply: Reply)
    ensures var s := System(db, users, [], []);
            var s' := Apply(Apply(Apply(s, AccountPost(t, id, req, actor, now, true)), HandlerCalls(0, reply)), HandlerPersists(0));
            var r := S.CreateAccount(db, t, id, req, actor, now);
            if r.Err? then s'.db == db && s'.sesame == users
            else
              && id in r.value.accounts
              && var row := r.value.accounts[id];
                 && s'.sesame == (if reply.Refused? || row.email in users || reply.newId in users.Values then users
                                  else users[row.email := reply.newId])
                 && s'.db == if reply.Answered? && row.email in s'.sesame
                             then r.value.(accounts := r.value.accounts[id := row.(status := AccountActive, sesameUser := Some(s'.sesame[row.email]))],
                                           audit := r.value.audit + [Entry(Some(t), actor, AccountProvisioned(s'.sesame[row.email]), Row(id))])
                             else r.value
  {}

  class Plane {
    var tenants: map<Id, Tenant>
    var domains: map<Id, Domain>
    var accounts: map<Id, Account>
    var policies: map<Id, T.Policy>
    var audit: seq<Entry>

    function State(): Db
      reads this
    {
      Db(tenants, domains, accounts, policies, audit)
    }

    constructor ()
      ensures State() == EmptyDb
    {
      tenants, domains, accounts, policies, audit := map[], map[], map[], map[], [];
    }

    method CreateTenant(id: Id, slug: string, name: string, plan: string, actor: string, now: nat) returns (r: Result<Tenant>)
      modifies this
      ensures var spec := S.CreateTenant(old(State()), id, slug, name, plan, actor, now);
              && State() == Settle(old(State()), spec)
              && (spec.Err? ==> r == Err(spec.error))
              && (spec.Ok? ==> id in tenants && r == Ok(tenants[id]))
    {
      if !ValidateSlug(slug) { return Err(Validation); }
      if !SlugColumn(slug) { return Err(Internal); }
      if id in tenants || (exists t :: t in tenants && tenants[t].slug == slug) { return Err(Conflict); }
      var row := Tenant(slug, name, plan, TenantActive, now);
      tenants := tenants[id := row];
      audit := audit + [Entry(Some(id), actor, TenantCreate(slug, plan), Row(id))];
      r := Ok(row);
    }

    method CreateDomain(t: Id, id: Id, fqdn: string, actor: string, now: nat) returns (r: Result<Domain>)
      modifies this
      ensures var spec := S.CreateDomain(old(State()), t, id, fqdn, actor, now);
              && State() == Settle(old(State()), spec)
              && (spec.Err? ==> r == Err(spec.error))
              && (spec.Ok? ==> id in domains && r == Ok(domains[id]))
    {
      if !ValidateFqdn(fqdn) { return Err(Validation); }
      if !FqdnColumn(fqdn) { return Err(Internal); }
      if id in domains || (exists d :: d in domains && domains[d].fqdn == fqdn) { return Err(Conflict); }
      if t !in tenants { return Err(Internal); }
      var row := Domain(t, fqdn, PendingDns, now);
      domains := domains[id := row];
      audit := audit + [Entry(Some(t), actor, DomainCreate(fqdn), Row(id))];
      r := Ok(row);
    }

    /** The first transaction of `create_account`. */
    method InsertAccount(t: Id, id: Id, req: NewAccount, actor: string, now: nat) returns (r: Result<Account>)
      modifies this
      ensures var spec := S.CreateAccount(old(State()), t, id, req, actor, now);
              && State() == Settle(old(State()), spec)
              && (spec.Err? ==> r == Err(spec.error))
              && (spec.Ok? ==> id in accounts && r == Ok(accounts[id]) && accounts[id].tenant == t)
    {
      if !ValidateLocalPart(req.local) { return Err(Validation); }
      var visible := VisibleDomains(State(), TenantSession(t));
      if req.domain !in visible || visible[req.domain].status == DomainSuspended { return Err(NotFound); }
      var email := req.local + "@" + visible[req.domain].fqdn;
      if !(1 <= req.quotaMb <= 1048576) { return Err(Internal); }
      if id in accounts || (exists a :: a in accounts && accounts[a].email == email) { return Err(Conflict); }
      if t !in tenants { return Err(Internal); }
      var row := Account(t, req.domain, email, req.displayName, req.quotaMb, PendingProvisioning, None, now);
      accounts := accounts[id := row];
      audit := audit + [Entry(Some(t), actor, AccountCreate(email, req.quotaMb), Row(id))];
      r := Ok(row);
    }

    /** The second transaction, on whatever the account is by then. */
    method PersistProvisioned(t: Id, id: Id, user: Id, actor: string) returns (r: Result<Account>)
      modifies this
      ensures var spec := ProvisionAccount(old(State()), t, id, user, actor);
              && State() == Settle(old(State()), spec)
              && (spec.Err? ==> r == Err(spec.error))
              && (spec.Ok? ==> id in accounts && r == Ok(accounts[id]) && accounts[id].status == AccountActive)
    {
      if id !in accounts || accounts[id].tenant != t || t !in tenants { return Err(Internal); }
      var row := accounts[id].(status := AccountActive, sesameUser := Some(user));
      accounts := accounts[id := row];
      audit := audit + [Entry(Some(t), actor, AccountProvisioned(user), Row(id))];
      r := Ok(row);
    }

    /** `provision_into_sesame`: asks sesame, and exactly if it answers and the row is the tenant's
        sets the row active with the id and logs that; otherwise nothing but sesame may change. */
    method ProvisionIntoSesame(sesame: Sesame, t: Id, id: Id, account: Account, actor: string, reply: Reply) returns (r: Account)
      modifies this, sesame
      ensures sesame.users ==
              if reply.Refused? || account.email in old(sesame.users) || reply.newId in old(sesame.users).Values
              then old(sesame.users) else old(sesame.users)[account.email := reply.newId]
      ensures if reply.Answered? && account.email in sesame.users && t in tenants && id in old(accounts) && old(accounts)[id].tenant == t then
                var user := sesame.users[account.email];
                && r == old(accounts)[id].(status := AccountActive, sesameUser := Some(user))
                && accounts == old(accounts)[id := r]
                && audit == old(audit) + [Entry(Some(t), actor, AccountProvisioned(user), Row(id))]
              else
                r == account && accounts == old(accounts) && audit == old(audit)
      ensures tenants == old(tenants) && domains == old(domains) && policies == old(policies)
    {
      var user := sesame.ProvisionUser(account.email, reply);
      if user == None { return account; }
      var updated := PersistProvisioned(t, id, user.value, actor);
      r := if updated.Ok? then updated.value else account;
    }

    /** `create_account` from start to end when nothing else runs: three events of the protocol. */
    method CreateAccount(sesame: Sesame?, t: Id, id: Id, req: NewAccount, actor: string, now: nat, reply: Reply)
      returns (r: Result<Account>)
      modifies this, sesame
      ensures sesame == null ==> State() == Settle(old(State()), S.CreateAccount(old(State()), t, id, req, actor, now))
      ensures sesame != null ==>
              var s := System(old(State()), old(sesame.users), [], []);
              var s' := Apply(Apply(Apply(s, AccountPost(t, id, req, actor, now, true)), HandlerCalls(0, reply)), HandlerPersists(0));
              State() == s'.db && sesame.users == s'.sesame
      ensures var spec := S.CreateAccount(old(State()), t, id, req, actor, now);
              if spec.Err? then r == Err(spec.error) else id in accounts && r == Ok(accounts[id])
      // In full: when the account is created,
      ensures r.Ok? <==>
              && ValidateLocalPart(req.local) && 1 <= req.quotaMb <= 1048576 && t in old(tenants)
              && req.domain in old(domains) && old(domains)[req.domain].tenant == t && old(domains)[req.domain].status != DomainSuspended
              && id !in old(accounts)
              && forall a :: a in old(accounts) ==> old(accounts)[a].email != req.local + "@" + old(domains)[req.domain].fqdn
      // what sesame knows afterwards,
      ensures sesame != null ==>
              var email := if req.domain in old(domains) then req.local + "@" + old(domains)[req.domain].fqdn else "";
              sesame.users == if r.Err? || reply.Refused? || email in old(sesame.users) || reply.newId in old(sesame.users).Values
                              then old(sesame.users) else old(sesame.users)[email := reply.newId]
      // and the new row and the entries: active exactly if sesame was asked and answered.
      ensures r.Ok? ==>
              var email := req.local + "@" + old(domains)[req.domain].fqdn;
              var pending := Account(t, req.domain, email, req.displayName, req.quotaMb, PendingProvisioning, None, now);
              var created := Entry(Some(t), actor, AccountCreate(email, req.quotaMb), Row(id));
              if sesame != null && reply.Answered? && (email in old(sesame.users) || reply.newId !in old(sesame.users).Values) then
                && email in sesame.users
                && accounts == old(accounts)[id := pending.(status := AccountActive, sesameUser := Some(sesame.users[email]))]
                && audit == old(audit) + [created, Entry(Some(t), actor, AccountProvisioned(sesame.users[email]), Row(id))]
              else
                accounts == old(accounts)[id := pending] && audit == old(audit) + [created]
      ensures r.Err? ==> accounts == old(accounts) && audit == old(audit)
      ensures tenants == old(tenants) && domains == old(domains) && policies == old(policies)
    {
      if sesame != null { LoneRequest(State(), sesame.users, t, id, req, actor, now, reply); }
      r := InsertAccount(t, id, req, actor, now);
      if r.Err? || sesame == null { return; }
      var account := ProvisionIntoSesame(sesame, t, id, r.value, actor, reply);
      r := Ok(account);
    }

    method GetPolicy(t: Id) returns (p: T.Policy)
      ensures p == S.GetPolicy(State(), t)
      ensures p == if t in policies then policies[t] else T.Policy(T.Whole(15), T.Whole(6), T.Whole(4))
    {
      p := if t in policies then policies[t] else T.ApiDefaults();
    }

    method PutPolicy(t: Id, p: T.Policy, actor: string) returns (r: Result<T.Policy>)
      modifies this
      ensures var spec := S.PutPolicy(old(State()), t, p, actor);
              && State() == Settle(old(State()), spec)
              && (spec.Err? ==> r == Err(spec.error))
              && (spec.Ok? ==> r == Ok(p) && S.GetPolicy(State(), t) == p)
    {
      if !T.ValidatePolicy(p) { return Err(Validation); }
      if !T.PolicyCheck(p) { return Err(Internal); }
      if t !in tenants { return Err(Internal); }
      policies := policies[t := p];
      audit := audit + [Entry(Some(t), actor, PolicySet(p), Row(t))];
      r := Ok(p);
    }

    /** The audit transaction of the config compiler. */
    method RecordCompile(path: string, nTenants: nat, nDomains: nat)
      modifies this`audit
      ensures audit == old(audit) + [Entry(None, "config-compiler", ConfigCompiled(nTenants, nDomains), File(path))]
      ensures Ok(State()) == S.RecordCompile(old(State()), path, nTenants, nDomains)
    {
      audit := audit + [Entry(None, "config-compiler", ConfigCompiled(nTenants, nDomains), File(path))];
    }

    /** Every tenant. */
    method ListTenants() returns (listing: seq<(Id, Tenant)>)
      ensures Lists(tenants, map t | t in tenants :: tenants[t].createdAt, listing)
      ensures forall t :: t in tenants ==> (t, tenants[t]) in listing
    {
      listing := ListRows(tenants, map t | t in tenants :: tenants[t].createdAt);
      ListsAllRows(tenants, map t | t in tenants :: tenants[t].createdAt, listing);
    }

    /** The tenant's own domains, all of them. */
    method ListDomains(t: Id) returns (listing: seq<(Id, Domain)>)
      ensures var rows := VisibleDomains(State(), TenantSession(t));
              Lists(rows, map d | d in rows :: rows[d].createdAt, listing)
      ensures forall k :: 0 <= k < |listing| ==>
                var (d, row) := listing[k]; d in domains && row == domains[d] && domains[d].tenant == t
      ensures forall d :: d in domains && domains[d].tenant == t ==> (d, domains[d]) in listing
    {
      var rows := VisibleDomains(State(), TenantSession(t));
      listing := ListRows(rows, map d | d in rows :: rows[d].createdAt);
      assert forall d :: d in domains && domains[d].tenant == t ==> d in rows && rows[d] == domains[d];
      ListsAllRows(rows, map d | d in rows :: rows[d].createdAt, listing);
    }

    /** The tenant's own accounts, all of them. */
    method ListAccounts(t: Id) returns (listing: seq<(Id, Account)>)
      ensures var rows := VisibleAccounts(State(), TenantSession(t));
              Lists(rows, map a | a in rows :: rows[a].createdAt, listing)
      ensures forall k :: 0 <= k < |listing| ==>
                var (a, row) := listing[k]; a in accounts && row == accounts[a] && accounts[a].tenant == t
      ensures forall a :: a in accounts && accounts[a].tenant == t ==> (a, accounts[a]) in listing
    {
      var rows := VisibleAccounts(State(), TenantSession(t));
      listing := ListRows(rows, map a | a in rows :: rows[a].createdAt);
      assert forall a :: a in accounts && accounts[a].tenant == t ==> a in rows && rows[a] == accounts[a];
      ListsAllRows(rows, map a | a in rows :: rows[a].createdAt, listing);
    }

    // ----------------------------------------------------------------------
    // The reconcile loop
    // ----------------------------------------------------------------------

    method PendingBatch(batch: nat) returns (ids: seq<Id>)
      ensures IsBatch(State(), batch, ids)
    {
      var created := map a | a in Pending(State()) :: accounts[a].createdAt;
      assert created.Keys == Pending(State());
      ids := OrderByCreation(created, batch);
    }

    method PersistReconciled(t: Id, id: Id, user: Id) returns (r: Result<bool>)
      modifies this
      ensures var spec := ReconcileAccount(old(State()), t, id, user);
              && (spec.Err? ==> State() == old(State()) && r == Err(spec.error))
              && (spec.Ok? ==> State() == spec.value.0 && r == Ok(spec.value.1))
    {
      if id !in accounts || accounts[id].status != PendingProvisioning { return Ok(false); }
      if t !in tenants { return Err(Internal); }
      accounts := accounts[id := accounts[id].(status := AccountActive, sesameUser := Some(user))];
      audit := audit + [Entry(Some(t), "job-runner", AccountReconciled(user), Row(id))];
      r := Ok(true);
    }

    /** `reconcile_once` when nothing else runs is the corresponding run of the protocol, and it
        returns what that run's worker counted. */
    method ReconcileOnce(sesame: Sesame, batch: nat, replies: seq<Reply>) returns (r: Result<nat>, ghost ids: seq<Id>)
      modifies this, sesame
      ensures IsBatch(old(State()), batch, ids)
      ensures var t := Run(System(old(State()), old(sesame.users), [], []), CycleEvents(batch, ids, replies, |ids|));
              match r
              case Ok(n) => At(t, State(), sesame.users, RowsOf(old(State()), ids), |ids|, n)
              case Err(_) => Halted(t, State(), sesame.users)
    {
      ghost var s := System(State(), sesame.users, [], []);
      var batchIds := PendingBatch(batch);
      ids := batchIds;
      var rows := RowsOf(State(), batchIds);
      StartOfCycle(s, batch, ids);
      CycleStateIsRun(s, batch, ids, replies, |ids|);
      r := ReconcileRows(sesame, rows, replies, s, batch, ids);
    }

    /** The loop over the batch. */
    method ReconcileRows(sesame: Sesame, rows: seq<PendingRow>, replies: seq<Reply>, ghost s: System, ghost batch: nat, ghost ids: seq<Id>)
      returns (r: Result<nat>)
      requires At(CycleState(s, batch, ids, replies, 0), State(), sesame.users, rows, 0, 0)
      modifies this, sesame
      ensures var t := CycleState(s, batch, ids, replies, |rows|);
              match r
              case Ok(n) => At(t, State(), sesame.users, rows, |rows|, n)
              case Err(_) => Halted(t, State(), sesame.users)
    {
      var activated := 0;
      for i := 0 to |rows|
        invariant At(CycleState(s, batch, ids, replies, i), State(), sesame.users, rows, i, activated)
      {
        NextRow(s, batch, ids, replies, rows, i, activated);
        var user := sesame.ProvisionUser(rows[i].email, ReplyAt(replies, i));
        if user == None { continue; }
        var updated := PersistReconciled(rows[i].tenant, rows[i].id, user.value);
        if updated.Err? {
          r := Err(updated.error);
          return;
        }
        if updated.value { activated := activated + 1; }
      }
      r := Ok(activated);
    }
  }
}

/** What every transaction of the control plane does, in full: which inputs it refuses and with what,
    and otherwise the whole new store. Conditions are over the rows themselves. */
module Outcomes {
  import opened Strings
  import opened Validators
  import opened Store
  import opened Protocol
  import opened Invariants
  import opened Provisioning
  import Progress
  import T = Thresholds

  // ------------------------------------------------------------------------
  // Requests
  // ------------------------------------------------------------------------

  /** A slug that passes the validator never fails the column's CHECK, so a tenant request has two
      errors only. */
  lemma TenantOutcome(db: Db, id: Id, slug: string, name: string, plan: string, actor: string, now: nat)
    ensures var r := CreateTenant(db, id, slug, name, plan, actor, now);
            if !ValidateSlug(slug) then r == Err(Validation)
            else if id in db.tenants || exists t :: t in db.tenants && db.tenants[t].slug == slug then r == Err(Conflict)
            else r == Ok(Db(db.tenants[id := Tenant(slug, name, plan, TenantActive, now)], db.domains, db.accounts, db.policies,
                            db.audit + [Entry(Some(id), actor, TenantCreate(slug, plan), Row(id))]))
  {
    SlugCheckVersusValidator(slug);
  }

  lemma DomainOutcome(db: Db, t: Id, id: Id, fqdn: string, actor: string, now: nat)
    ensures var r := CreateDomain(db, t, id, fqdn, actor, now);
            if !ValidateFqdn(fqdn) then r == Err(Validation)
            else if !(|LastLabel(fqdn)| >= 2 && All(LastLabel(fqdn), IsLower)) then r == Err(Internal)
            else if id in db.domains || exists d :: d in db.domains && db.domains[d].fqdn == fqdn then r == Err(Conflict)
            else if t !in db.tenants then r == Err(Internal)
            else r == Ok(Db(db.tenants, db.domains[id := Domain(t, fqdn, PendingDns, now)], db.accounts, db.policies,
                            db.audit + [Entry(Some(t), actor, DomainCreate(fqdn), Row(id))]))
  {}

  /** The first transaction of `create_account`. */
  lemma AccountOutcome(db: Db, t: Id, id: Id, req: NewAccount, actor: string, now: nat)
    ensures var r := CreateAccount(db, t, id, req, actor, now);
            if !ValidateLocalPart(req.local) then r == Err(Validation)
            else if req.domain !in db.domains || db.domains[req.domain].tenant != t || db.domains[req.domain].status == DomainSuspended
            then r == Err(NotFound)
            else
              var email := req.local + "@" + db.domains[req.domain].fqdn;
              if req.quotaMb < 1 || req.quotaMb > 1048576 then r == Err(Internal)
              else if id in db.accounts || exists a :: a in db.accounts && db.accounts[a].email == email then r == Err(Conflict)
              else if t !in db.tenants then r == Err(Internal)
              else r == Ok(Db(db.tenants, db.domains,
                              db.accounts[id := Account(t, req.domain, email, req.displayName, req.quotaMb, PendingProvisioning, None, now)],
                              db.policies, db.audit + [Entry(Some(t), actor, AccountCreate(email, req.quotaMb), Row(id))]))
  {}

  /** The row with the two columns an activation sets. */
  lemma ActivatedRow(a: Account, user: Id)
    ensures Activated(a, user) ==
            Account(a.tenant, a.domain, a.email, a.displayName, a.quotaMb, AccountActive, Some(user), a.createdAt)
  {}

  /** The second transaction of `create_account`: commits whatever the account's status. */
  lemma ProvisionOutcome(db: Db, t: Id, id: Id, user: Id, actor: string)
    ensures var r := ProvisionAccount(db, t, id, user, actor);
            if id !in db.accounts || db.accounts[id].tenant != t || t !in db.tenants then r == Err(Internal)
            else
              var a := db.accounts[id];
              r == Ok(Db(db.tenants, db.domains,
                         db.accounts[id := Account(a.tenant, a.domain, a.email, a.displayName, a.quotaMb, AccountActive, Some(user), a.createdAt)],
                         db.policies, db.audit + [Entry(Some(t), actor, AccountProvisioned(user), Row(id))]))
  {}

  /** The guarded update of the job runner: only a pending account, and an entry only then. */
  lemma ReconcileOutcome(db: Db, t: Id, id: Id, user: Id)
    ensures var r := ReconcileAccount(db, t, id, user);
            if id !in db.accounts || db.accounts[id].status == AccountActive then r == Ok((db, false))
            else if t !in db.tenants then r == Err(Internal)
            else
              var a := db.accounts[id];
              r == Ok((Db(db.tenants, db.domains,
                          db.accounts[id := Account(a.tenant, a.domain, a.email, a.displayName, a.quotaMb, AccountActive, Some(user), a.createdAt)],
                          db.policies, db.audit + [Entry(Some(t), "job-runner", AccountReconciled(user), Row(id))]), true))
  {}

  /** A policy request commits exactly if its thresholds are finite, positive and in order and the
      tenant exists; the tenant's stored policy is then the request's. */
  lemma PolicyOutcome(db: Db, t: Id, p: T.Policy, actor: string)
    ensures var r := PutPolicy(db, t, p, actor);
            if !(p.reject.Finite? && p.addHeader.Finite? && p.greylist.Finite? &&
                 0.0 < T.Value(p.greylist) < T.Value(p.addHeader) < T.Value(p.reject))
            then r == Err(Validation)
            else if t !in db.tenants then r == Err(Internal)
            else r == Ok(Db(db.tenants, db.domains, db.accounts, db.policies[t := p],
                            db.audit + [Entry(Some(t), actor, PolicySet(p), Row(t))]))
  {
    T.ValidMeansOrdered(p);
    T.ValidatorVersusCheck(p);
  }

  /** The policy a tenant reads: its row, or 15, 6 and 4. */
  lemma PolicyRead(db: Db, t: Id)
    ensures GetPolicy(db, t) ==
            if t in db.policies then db.policies[t]
            else T.Policy(T.Finite(false, T.Decimal(15, 0)), T.Finite(false, T.Decimal(6, 0)), T.Finite(false, T.Decimal(4, 0)))
  {}

  lemma CompileOutcome(db: Db, path: string, tenants: nat, domains: nat)
    ensures RecordCompile(db, path, tenants, domains) ==
            Ok(Db(db.tenants, db.domains, db.accounts, db.policies,
                  db.audit + [Entry(None, "config-compiler", ConfigCompiled(tenants, domains), File(path))]))
  {}

  // ------------------------------------------------------------------------
  // What a session sees
  // ------------------------------------------------------------------------

  /** A tenant session sees the tenant's own rows and all of them. */
  lemma TenantSees(db: Db, t: Id, id: Id)
    ensures id in VisibleTenants(db, TenantSession(t)) <==> id in db.tenants && id == t
    ensures id in VisibleDomains(db, TenantSession(t)) <==> id in db.domains && db.domains[id].tenant == t
    ensures id in VisibleAccounts(db, TenantSession(t)) <==> id in db.accounts && db.accounts[id].tenant == t
    ensures id in VisiblePolicies(db, TenantSession(t)) <==> id in db.policies && id == t
    ensures id in VisibleTenants(db, TenantSession(t)) ==> VisibleTenants(db, TenantSession(t))[id] == db.tenants[id]
    ensures id in VisibleDomains(db, TenantSession(t)) ==> VisibleDomains(db, TenantSession(t))[id] == db.domains[id]
    ensures id in VisibleAccounts(db, TenantSession(t)) ==> VisibleAccounts(db, TenantSession(t))[id] == db.accounts[id]
    ensures id in VisiblePolicies(db, TenantSession(t)) ==> VisiblePolicies(db, TenantSession(t))[id] == db.policies[id]
  {}

  /** A platform session sees everything. */
  lemma PlatformSees(db: Db)
    ensures VisibleTenants(db, PlatformSession) == db.tenants && VisibleDomains(db, PlatformSession) == db.domains
    ensures VisibleAccounts(db, PlatformSession) == db.accounts && VisiblePolicies(db, PlatformSession) == db.policies
  {}

  // ------------------------------------------------------------------------
  // Events
  // ------------------------------------------------------------------------

  /** The store after a transaction: its commit, or the store before it. */
  lemma SettledIs(db: Db, r: Result<Db>)
    ensures r.Ok? ==> Settle(db, r) == r.value
    ensures r.Err? ==> Settle(db, r) == db
  {}

  /** A request is its transaction on the store as it is then, and touches nothing but the store. */
  lemma RequestsTakeEffect(s: System, t: Id, id: Id, slug: string, name: string, plan: string, fqdn: string, p: T.Policy,
                           actor: string, now: nat)
    ensures Apply(s, TenantPost(id, slug, name, plan, actor, now)) ==
            var r := CreateTenant(s.db, id, slug, name, plan, actor, now);
            System(if r.Ok? then r.value else s.db, s.sesame, s.handlers, s.workers)
    ensures Apply(s, DomainPost(t, id, fqdn, actor, now)) ==
            var r := CreateDomain(s.db, t, id, fqdn, actor, now);
            System(if r.Ok? then r.value else s.db, s.sesame, s.handlers, s.workers)
    ensures Apply(s, PolicyPut(t, p, actor)) ==
            var r := PutPolicy(s.db, t, p, actor);
            System(if r.Ok? then r.value else s.db, s.sesame, s.handlers, s.workers)
  {}

  /** Of the account request: the store it leaves, and the handler it starts. */
  lemma AccountPostTakesEffect(s: System, t: Id, id: Id, req: NewAccount, actor: string, now: nat, configured: bool)
    ensures var r, s' := CreateAccount(s.db, t, id, req, actor, now), Apply(s, AccountPost(t, id, req, actor, now, configured));
            if r.Err? then s' == s
            else
              && s' == System(r.value, s.sesame,
                              s.handlers + (if configured then [Calling(t, id, req.local + "@" + s.db.domains[req.domain].fqdn, actor)] else []),
                              s.workers)
              && req.domain in s.db.domains
  {
    if CreateAccount(s.db, t, id, req, actor, now).Ok? {
      EffectOfAccountPost(s.db, t, id, req, actor, now);
      assert s.handlers + [] == s.handlers;
    }
  }

  /** The unaudited steps: a status is set if the row exists, and nothing else changes. */
  lemma StatusChangesTakeEffect(s: System, id: Id, tenantStatus: TenantStatus, domainStatus: DomainStatus)
    ensures var s' := Apply(s, TenantStatusChanges(id, tenantStatus));
            if id !in s.db.tenants then s' == s
            else
              var row := s.db.tenants[id];
              s' == s.(db := s.db.(tenants := s.db.tenants[id := Tenant(row.slug, row.name, row.plan, tenantStatus, row.createdAt)]))
    ensures var s' := Apply(s, DomainStatusChanges(id, domainStatus));
            if id !in s.db.domains then s' == s
            else
              var row := s.db.domains[id];
              s' == s.(db := s.db.(domains := s.db.domains[id := Domain(row.tenant, row.fqdn, domainStatus, row.createdAt)]))
  {}

  /** A cycle starts with exactly the rows the query answered, ends only when all are done, and may
      stop anywhere; none of this touches store or directory. */
  lemma WorkersComeAndGo(s: System, batch: nat, ids: seq<Id>, i: nat)
    ensures IsBatch(s.db, batch, ids) ==>
            var s' := Apply(s, WorkerStarts(batch, ids));
            && s'.db == s.db && s'.sesame == s.sesame && s'.handlers == s.handlers && |s'.workers| == |s.workers| + 1
            && s'.workers[..|s.workers|] == s.workers
            && var w := s'.workers[|s.workers|];
               && w.status == Looping && w.next == 0 && w.answer == None && w.activated == 0 && w.failed == {} && w.wrote == []
               && |w.rows| == |ids|
               && forall k :: 0 <= k < |ids| ==>
                    w.rows[k] == PendingRow(ids[k], s.db.accounts[ids[k]].tenant, s.db.accounts[ids[k]].email, s.db.accounts[ids[k]].displayName)
    ensures !IsBatch(s.db, batch, ids) ==> Apply(s, WorkerStarts(batch, ids)) == s
    ensures i < |s.workers| && s.workers[i].status == Looping ==>
            && Apply(s, WorkerStops(i)) == s.(workers := s.workers[i := s.workers[i].(status := Stopped)])
            && Apply(s, WorkerReturns(i)) == if s.workers[i].next < |s.workers[i].rows| then s
                                             else s.(workers := s.workers[i := s.workers[i].(status := Returned)])
  {}

  /** A worker's call, for every reply: it learns the id sesame holds afterwards, or passes over the
      row as failed. */
  lemma WorkerCallExactly(s: System, i: nat, reply: Reply)
    requires i < |s.workers|
    requires s.workers[i].status == Looping && s.workers[i].next < |s.workers[i].rows| && s.workers[i].answer == None
    ensures var w, s' := s.workers[i], Apply(s, WorkerCalls(i, reply));
            var row := w.rows[w.next];
            && s'.db == s.db && s'.handlers == s.handlers && s'.sesame == Provision(s.sesame, row.email, reply).0
            && s'.workers == s.workers[i :=
                 if reply.Answered? && row.email in s'.sesame
                 then Worker(Looping, w.rows, w.next, Some(s'.sesame[row.email]), w.activated, w.failed, w.wrote)
                 else Worker(Looping, w.rows, w.next + 1, None, w.activated, w.failed + {row.id}, w.wrote)]
  {
    ProvisionExactly(s.sesame, s.workers[i].rows[s.workers[i].next].email, reply);
  }

  /** A worker that holds an answer, persisting: nothing but its own progress if the account is
      active; otherwise the account becomes active with that id, with an entry that is counted. */
  lemma WorkerPersistExactly(s: System, i: nat)
    requires i < |s.workers| && s.workers[i].status == Looping && s.workers[i].next < |s.workers[i].rows| && s.workers[i].answer.Some?
    requires var row := s.workers[i].rows[s.workers[i].next];
             row.id in s.db.accounts && s.db.accounts[row.id].tenant == row.tenant && row.tenant in s.db.tenants
    ensures var w, s' := s.workers[i], Apply(s, WorkerPersists(i));
            var row, user := w.rows[w.next], w.answer.value;
            var a := s.db.accounts[row.id];
            && s'.sesame == s.sesame && s'.handlers == s.handlers
            && (a.status == AccountActive ==>
                  && s'.db == s.db
                  && s'.workers == s.workers[i := Worker(Looping, w.rows, w.next + 1, None, w.activated, w.failed, w.wrote)])
            && (a.status != AccountActive ==>
                  && s'.db == Db(s.db.tenants, s.db.domains,
                       s.db.accounts[row.id := Account(a.tenant, a.domain, a.email, a.displayName, a.quotaMb, AccountActive, Some(user), a.createdAt)],
                       s.db.policies, s.db.audit + [Entry(Some(a.tenant), "job-runner", AccountReconciled(user), Row(row.id))])
                  && s'.workers == s.workers[i := Worker(Looping, w.rows, w.next + 1, None, w.activated + 1, w.failed, w.wrote + [|s.db.audit|])])
  {
    var row := s.workers[i].rows[s.workers[i].next];
    ReconcileOutcome(s.db, row.tenant, row.id, s.workers[i].answer.value);
  }

  /** In every reachable system that is what happens: a worker never fails to persist. */
  lemma WorkerRowsExist(events: seq<Event>, i: nat)
    requires i < |Run(Initial, events).workers| && Run(Initial, events).workers[i].next < |Run(Initial, events).workers[i].rows|
    ensures var s := Run(Initial, events);
            var row := s.workers[i].rows[s.workers[i].next];
            && row.id in s.db.accounts && s.db.accounts[row.id].tenant == row.tenant && row.tenant in s.db.tenants
            && s.db.accounts[row.id].email == row.email
            && (Holding(s.workers[i]) ==> Apply(s, WorkerPersists(i)).workers[i].status == Looping &&
                                          IsActive(Apply(s, WorkerPersists(i)).db, row.id))
  {
    var s := Run(Initial, events);
    var row := s.workers[i].rows[s.workers[i].next];
    RunStaysSafe(Initial, events);
    assert WorkerOk(s.db, s.sesame, s.workers[i]);
    assert Owns(s.db, row.id, row.tenant, row.email);
    AccountAlwaysOk(events, row.id);
    if Holding(s.workers[i]) { WorkerPersistExactly(s, i); }
  }

  // ------------------------------------------------------------------------
  // The batch query
  // ------------------------------------------------------------------------

  /** Exactly the answers of the query: pending accounts, oldest first, each once, at most the limit;
      a pending account is left out only if the limit is reached and none that is in is younger. */
  lemma BatchIsOldestPending(db: Db, batch: nat, ids: seq<Id>)
    ensures IsBatch(db, batch, ids) <==>
            && |ids| <= batch
            && (forall i :: 0 <= i < |ids| ==> ids[i] in db.accounts && db.accounts[ids[i]].status == PendingProvisioning)
            && (forall i, j :: 0 <= i < j < |ids| ==> ids[i] != ids[j])
            && (forall i, j :: 0 <= i < j < |ids| ==> db.accounts[ids[i]].createdAt <= db.accounts[ids[j]].createdAt)
            && (forall a :: a in db.accounts && db.accounts[a].status == PendingProvisioning && a !in ids ==>
                  |ids| == batch && forall i :: 0 <= i < |ids| ==> db.accounts[ids[i]].createdAt <= db.accounts[a].createdAt)
  {
    if forall i, j :: 0 <= i < j < |ids| ==> ids[i] != ids[j] {
      Progress.ElementsCount(ids);
      forall a ensures a in Progress.Elements(ids) <==> a in ids {
        if a in ids { var i :| 0 <= i < |ids| && ids[i] == a; assert a in Progress.Elements(ids); }
      }
      if forall i :: 0 <= i < |ids| ==> ids[i] in Pending(db) { Progress.SubsetSize(Progress.Elements(ids), Pending(db)); }
    }
  }
}

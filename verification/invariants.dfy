/** What every reachable control-plane store satisfies. Each event changes the store in one of a
    few ways, and each of those ways keeps the invariant. */
module Invariants {
  import opened Strings
  import opened Validators
  import opened Store
  import opened Protocol
  import T = Thresholds

  // ------------------------------------------------------------------------
  // The changes events make
  // ------------------------------------------------------------------------

  datatype Change =
    | Nothing
    | AddTenant(id: Id, tenantRow: Tenant, actor: string)
    | AddDomain(id: Id, domainRow: Domain, actor: string)
    | AddAccount(id: Id, accountRow: Account, local: string, actor: string)
    | SetPolicy(tenant: Id, policy: T.Policy, actor: string)
    | Provisioned(id: Id, user: Id, actor: string)
    | Reconciled(entryTenant: Id, id: Id, user: Id)
    | CompileNoted(path: string, nTenants: nat, nDomains: nat)
    | TenantStatusSet(tenant: Id, tenantStatus: TenantStatus)
    | DomainStatusSet(id: Id, domainStatus: DomainStatus)

  predicate Legal(db: Db, c: Change) {
    match c
    case Nothing => true
    case AddTenant(id, row, _) =>
      id !in db.tenants && !SlugTaken(db, row.slug) && ValidateSlug(row.slug) && row.status == TenantActive
    case AddDomain(id, row, _) =>
      && id !in db.domains && !FqdnTaken(db, row.fqdn) && ValidateFqdn(row.fqdn) && FqdnColumn(row.fqdn)
      && row.tenant in db.tenants && row.status == PendingDns
    case AddAccount(id, row, local, _) =>
      && id !in db.accounts && !EmailTaken(db, row.email) && row.tenant in db.tenants
      && row.domain in db.domains && db.domains[row.domain].tenant == row.tenant
      && ValidateLocalPart(local) && row.email == local + "@" + db.domains[row.domain].fqdn
      && 1 <= row.quotaMb <= 1048576 && row.status == PendingProvisioning && row.sesameUser == None
    case SetPolicy(t, p, _) => t in db.tenants && T.ValidatePolicy(p)
    case Provisioned(id, _, _) => id in db.accounts
    case Reconciled(_, id, _) => id in db.accounts && db.accounts[id].status == PendingProvisioning
    case CompileNoted(_, _, _) => true
    case TenantStatusSet(t, _) => t in db.tenants
    case DomainStatusSet(d, _) => d in db.domains
  }

  function EntriesOf(db: Db, c: Change): seq<Entry>
    requires Legal(db, c)
  {
    match c
    case AddTenant(id, row, actor) => [Entry(Some(id), actor, TenantCreate(row.slug, row.plan), Row(id))]
    case AddDomain(id, row, actor) => [Entry(Some(row.tenant), actor, DomainCreate(row.fqdn), Row(id))]
    case AddAccount(id, row, _, actor) => [Entry(Some(row.tenant), actor, AccountCreate(row.email, row.quotaMb), Row(id))]
    case SetPolicy(t, p, actor) => [Entry(Some(t), actor, PolicySet(p), Row(t))]
    case Provisioned(id, user, actor) => [Entry(Some(db.accounts[id].tenant), actor, AccountProvisioned(user), Row(id))]
    case Reconciled(t, id, user) => [Entry(Some(t), "job-runner", AccountReconciled(user), Row(id))]
    case CompileNoted(path, n, m) => [Entry(None, "config-compiler", ConfigCompiled(n, m), File(path))]
    case _ => []
  }

  function Make(db: Db, c: Change): Db
    requires Legal(db, c)
  {
    var db1 := match c
      case AddTenant(id, row, _) => db.(tenants := db.tenants[id := row])
      case AddDomain(id, row, _) => db.(domains := db.domains[id := row])
      case AddAccount(id, row, _, _) => db.(accounts := db.accounts[id := row])
      case SetPolicy(t, p, _) => db.(policies := db.policies[t := p])
      case Provisioned(id, user, _) => db.(accounts := db.accounts[id := Activated(db.accounts[id], user)])
      case Reconciled(_, id, user) => db.(accounts := db.accounts[id := Activated(db.accounts[id], user)])
      case TenantStatusSet(t, st) => db.(tenants := db.tenants[t := db.tenants[t].(status := st)])
      case DomainStatusSet(d, st) => db.(domains := db.domains[d := db.domains[d].(status := st)])
      case _ => db;
    db1.(audit := db.audit + EntriesOf(db, c))
  }

  /** The change of the store an event stands for. */
  function ChangeOf(s: System, e: Event): Change {
    match e
    case TenantPost(id, slug, name, plan, actor, now) =>
      if CreateTenant(s.db, id, slug, name, plan, actor, now).Ok?
      then AddTenant(id, Tenant(slug, name, plan, TenantActive, now), actor) else Nothing
    case DomainPost(t, id, fqdn, actor, now) =>
      if CreateDomain(s.db, t, id, fqdn, actor, now).Ok?
      then AddDomain(id, Domain(t, fqdn, PendingDns, now), actor) else Nothing
    case AccountPost(t, id, req, actor, now, _) =>
      if CreateAccount(s.db, t, id, req, actor, now).Ok? && req.domain in s.db.domains
      then AddAccount(id, Account(t, req.domain, req.local + "@" + s.db.domains[req.domain].fqdn, req.displayName,
                                  req.quotaMb, PendingProvisioning, None, now), req.local, actor)
      else Nothing
    case PolicyPut(t, p, actor) => if PutPolicy(s.db, t, p, actor).Ok? then SetPolicy(t, p, actor) else Nothing
    case HandlerPersists(h) =>
      if h < |s.handlers| && s.handlers[h].Updating? &&
         ProvisionAccount(s.db, s.handlers[h].tenant, s.handlers[h].account, s.handlers[h].user, s.handlers[h].actor).Ok?
      then Provisioned(s.handlers[h].account, s.handlers[h].user, s.handlers[h].actor) else Nothing
    case WorkerPersists(w) =>
      if w < |s.workers| && Holding(s.workers[w]) then
        var row := s.workers[w].rows[s.workers[w].next];
        var r := ReconcileAccount(s.db, row.tenant, row.id, s.workers[w].answer.value);
        if r.Ok? && r.value.1 then Reconciled(row.tenant, row.id, s.workers[w].answer.value) else Nothing
      else Nothing
    case Compiled(path, n, m) => CompileNoted(path, n, m)
    case TenantStatusChanges(t, st) => if t in s.db.tenants then TenantStatusSet(t, st) else Nothing
    case DomainStatusChanges(d, st) => if d in s.db.domains then DomainStatusSet(d, st) else Nothing
    case _ => Nothing
  }

  lemma EffectOfTenantPost(db: Db, id: Id, slug: string, name: string, plan: string, actor: string, now: nat)
    requires CreateTenant(db, id, slug, name, plan, actor, now).Ok?
    ensures var c := AddTenant(id, Tenant(slug, name, plan, TenantActive, now), actor);
            Legal(db, c) && CreateTenant(db, id, slug, name, plan, actor, now).value == Make(db, c)
  {}

  lemma EffectOfAccountPost(db: Db, t: Id, id: Id, req: NewAccount, actor: string, now: nat)
    requires CreateAccount(db, t, id, req, actor, now).Ok?
    ensures req.domain in db.domains
    ensures var c := AddAccount(id, Account(t, req.domain, req.local + "@" + db.domains[req.domain].fqdn,
                       req.displayName, req.quotaMb, PendingProvisioning, None, now), req.local, actor);
            Legal(db, c) && CreateAccount(db, t, id, req, actor, now).value == Make(db, c)
  {}

  predicate IsOneChange(s: System, e: Event) {
    Legal(s.db, ChangeOf(s, e)) && Apply(s, e).db == Make(s.db, ChangeOf(s, e))
  }

  lemma RequestIsOneChange(s: System, e: Event)
    requires e.TenantPost? || e.DomainPost? || e.PolicyPut?
    ensures IsOneChange(s, e)
  {
    if e.TenantPost? && CreateTenant(s.db, e.id, e.slug, e.name, e.plan, e.actor, e.now).Ok? {
      EffectOfTenantPost(s.db, e.id, e.slug, e.name, e.plan, e.actor, e.now);
    }
  }

  lemma AccountPostIsOneChange(s: System, e: Event)
    requires e.AccountPost?
    ensures IsOneChange(s, e)
  {
    if CreateAccount(s.db, e.tenant, e.id, e.req, e.actor, e.now).Ok? {
      EffectOfAccountPost(s.db, e.tenant, e.id, e.req, e.actor, e.now);
    }
  }

  lemma HandlerPersistIsOneChange(s: System, h: nat)
    ensures IsOneChange(s, HandlerPersists(h))
  {}

  lemma WorkerPersistIsOneChange(s: System, w: nat)
    ensures IsOneChange(s, WorkerPersists(w))
  {}

  lemma StatusChangeIsOneChange(s: System, e: Event)
    requires e.TenantStatusChanges? || e.DomainStatusChanges? || e.Compiled?
    ensures IsOneChange(s, e)
  {}

  /** Every event does exactly the change it stands for: at most one row of one table, together
      with its audit entry. */
  lemma EveryEventIsOneChange(s: System, e: Event)
    ensures Legal(s.db, ChangeOf(s, e)) && Apply(s, e).db == Make(s.db, ChangeOf(s, e))
  {
    match e
    case TenantPost(_, _, _, _, _, _) => RequestIsOneChange(s, e);
    case DomainPost(_, _, _, _, _) => RequestIsOneChange(s, e);
    case PolicyPut(_, _, _) => RequestIsOneChange(s, e);
    case AccountPost(_, _, _, _, _, _) => AccountPostIsOneChange(s, e);
    case HandlerPersists(h) => HandlerPersistIsOneChange(s, h);
    case WorkerPersists(w) => WorkerPersistIsOneChange(s, w);
    case TenantStatusChanges(_, _) => StatusChangeIsOneChange(s, e);
    case DomainStatusChanges(_, _) => StatusChangeIsOneChange(s, e);
    case Compiled(_, _, _) => StatusChangeIsOneChange(s, e);
    case _ =>
  }

  // ------------------------------------------------------------------------
  // The invariant of the tables
  // ------------------------------------------------------------------------

  ghost predicate EmailAt(email: string, fqdn: string) {
    exists local :: ValidateLocalPart(local) && email == local + "@" + fqdn
  }

  ghost predicate TenantsOk(db: Db) {
    && (forall t :: t in db.tenants ==> ValidateSlug(db.tenants[t].slug))
    && (forall t, u :: t in db.tenants && u in db.tenants && db.tenants[t].slug == db.tenants[u].slug ==> t == u)
  }

  ghost predicate GoodFqdn(fqdn: string) { ValidateFqdn(fqdn) && FqdnColumn(fqdn) }

  ghost predicate DomainsOk(db: Db) {
    && (forall d :: d in db.domains ==> GoodFqdn(db.domains[d].fqdn) && db.domains[d].tenant in db.tenants)
    && (forall d, e :: d in db.domains && e in db.domains && db.domains[d].fqdn == db.domains[e].fqdn ==> d == e)
  }

  ghost predicate AccountOk(db: Db, a: Account) {
    && a.tenant in db.tenants
    && a.domain in db.domains && db.domains[a.domain].tenant == a.tenant
    && EmailAt(a.email, db.domains[a.domain].fqdn)
    && 1 <= a.quotaMb <= 1048576
    && (a.status == AccountActive <==> a.sesameUser.Some?)
  }

  ghost predicate AccountsOk(db: Db) {
    && (forall a :: a in db.accounts ==> AccountOk(db, db.accounts[a]))
    && (forall a, b :: a in db.accounts && b in db.accounts && db.accounts[a].email == db.accounts[b].email ==> a == b)
  }

  ghost predicate PoliciesOk(db: Db) {
    forall t :: t in db.policies ==> t in db.tenants && T.ValidatePolicy(db.policies[t])
  }

  ghost predicate TablesOk(db: Db) {
    TenantsOk(db) && DomainsOk(db) && AccountsOk(db) && PoliciesOk(db)
  }

  lemma ChangeKeepsTenants(db: Db, c: Change)
    requires Legal(db, c) && TenantsOk(db)
    ensures TenantsOk(Make(db, c))
  {}

  lemma ChangeKeepsNamesApart(db: Db, c: Change)
    requires Legal(db, c) && DomainsOk(db)
    ensures var rows := Make(db, c).domains;
            forall d, e :: d in rows && e in rows && rows[d].fqdn == rows[e].fqdn ==> d == e
  {}

  lemma ChangedDomainIsOk(db: Db, c: Change, d: Id)
    requires Legal(db, c) && DomainsOk(db) && d in Make(db, c).domains
    ensures GoodFqdn(Make(db, c).domains[d].fqdn) && Make(db, c).domains[d].tenant in db.tenants
  {
    if c.AddDomain? && d == c.id { assert GoodFqdn(c.domainRow.fqdn); } else { assert GoodFqdn(db.domains[d].fqdn); }
  }

  lemma ChangeKeepsTenantIds(db: Db, c: Change)
    requires Legal(db, c)
    ensures db.tenants.Keys <= Make(db, c).tenants.Keys
  {}

  lemma ChangeKeepsDomains(db: Db, c: Change)
    requires Legal(db, c) && DomainsOk(db)
    ensures DomainsOk(Make(db, c))
  {
    var db' := Make(db, c);
    ChangeKeepsTenantIds(db, c);
    forall d | d in db'.domains ensures GoodFqdn(db'.domains[d].fqdn) && db'.domains[d].tenant in db'.tenants {
      ChangedDomainIsOk(db, c, d);
    }
    ChangeKeepsNamesApart(db, c);
  }

  lemma ChangeKeepsAccountRow(db: Db, c: Change, a: Account)
    requires Legal(db, c) && AccountOk(db, a)
    ensures AccountOk(Make(db, c), a)
  {}

  lemma ChangedRowIsOk(db: Db, c: Change, a: Id)
    requires Legal(db, c) && AccountsOk(db) && a in Make(db, c).accounts
    ensures AccountOk(db, Make(db, c).accounts[a])
  {
    if a in db.accounts { assert AccountOk(db, db.accounts[a]); }
    if c.AddAccount? && a == c.id {
      assert ValidateLocalPart(c.local) && c.accountRow.email == c.local + "@" + db.domains[c.accountRow.domain].fqdn;
    }
  }

  lemma ChangeKeepsEmailsApart(db: Db, c: Change)
    requires Legal(db, c) && AccountsOk(db)
    ensures var rows := Make(db, c).accounts;
            forall a, b :: a in rows && b in rows && rows[a].email == rows[b].email ==> a == b
  {}

  lemma ChangeKeepsAccounts(db: Db, c: Change)
    requires Legal(db, c) && AccountsOk(db)
    ensures AccountsOk(Make(db, c))
  {
    var db' := Make(db, c);
    forall a | a in db'.accounts ensures AccountOk(db', db'.accounts[a]) {
      ChangedRowIsOk(db, c, a);
      ChangeKeepsAccountRow(db, c, db'.accounts[a]);
    }
    ChangeKeepsEmailsApart(db, c);
  }

  lemma ChangeKeepsPolicies(db: Db, c: Change)
    requires Legal(db, c) && PoliciesOk(db)
    ensures PoliciesOk(Make(db, c))
  {}

  lemma ChangeKeepsTables(db: Db, c: Change)
    requires Legal(db, c) && TablesOk(db)
    ensures TablesOk(Make(db, c))
  {
    ChangeKeepsPolicies(db, c);
    ChangeKeepsTenants(db, c);
    ChangeKeepsDomains(db, c);
    ChangeKeepsAccounts(db, c);
  }

  /** Constraints, ownership and validity hold in every store any run reaches: in particular an
      account's domain belongs to the account's own tenant, which no foreign key demands. */
  lemma {:induction false} TablesAlwaysOk(events: seq<Event>)
    ensures TablesOk(Run(Initial, events).db)
  {
    if events != [] {
      var before := events[..|events| - 1];
      TablesAlwaysOk(before);
      var s := Run(Initial, before);
      EveryEventIsOneChange(s, events[|events| - 1]);
      ChangeKeepsTables(s.db, ChangeOf(s, events[|events| - 1]));
    }
  }

  lemma AccountAlwaysOk(events: seq<Event>, a: Id)
    requires a in Run(Initial, events).db.accounts
    ensures AccountOk(Run(Initial, events).db, Run(Initial, events).db.accounts[a])
  {
    TablesAlwaysOk(events);
  }

  /** The first transaction of `create_account` is the only place the domain's owner is checked. */
  lemma ForeignDomainIsRefused(db: Db, t: Id, id: Id, req: NewAccount, actor: string, now: nat)
    requires TablesOk(db) && req.domain in db.domains && ValidateLocalPart(req.local)
    ensures db.domains[req.domain].tenant != t ==> CreateAccount(db, t, id, req, actor, now) == Err(NotFound)
    ensures db.domains[req.domain].status == DomainSuspended ==> CreateAccount(db, t, id, req, actor, now) == Err(NotFound)
  {}

  /** Which domain an account belongs to can be read off its email. */
  lemma DomainFromEmail(db: Db, a: Id, d: Id)
    requires TablesOk(db) && a in db.accounts && d in db.domains
    ensures db.accounts[a].domain == d <==> DomainPart(db.accounts[a].email) == Some(db.domains[d].fqdn)
  {
    var own := db.accounts[a].domain;
    assert AccountOk(db, db.accounts[a]);
    assert GoodFqdn(db.domains[own].fqdn);
    EmailHasDomain(db.accounts[a].email, db.domains[own].fqdn);
  }

  lemma EmailHasDomain(email: string, fqdn: string)
    requires EmailAt(email, fqdn) && GoodFqdn(fqdn)
    ensures DomainPart(email) == Some(fqdn)
  {
    var local :| ValidateLocalPart(local) && email == local + "@" + fqdn;
    GoodFqdnAlphabet(fqdn);
    DomainPartOf(local, fqdn);
  }

  lemma GoodFqdnAlphabet(fqdn: string)
    requires GoodFqdn(fqdn)
    ensures All(fqdn, IsFqdnChar) && '@' !in fqdn && fqdn != []
  {
    FqdnAlphabet(fqdn);
  }
}

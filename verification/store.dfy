/** The control-plane database: tables, constraints, row-level security and the transactions the
    services run on them. A transaction is one function from the store before it to the store it
    commits, or to the error that rolls it back. */
module Store {
  import opened Strings
  import opened Validators
  import T = Thresholds

  /** A uuid. */
  type Id = nat

  datatype TenantStatus = TenantActive | TenantSuspended | TenantTerminated
  datatype DomainStatus = PendingDns | DomainActive | DomainSuspended
  datatype AccountStatus = PendingProvisioning | AccountActive

  datatype Tenant = Tenant(slug: string, name: string, plan: string, status: TenantStatus, createdAt: nat)
  datatype Domain = Domain(tenant: Id, fqdn: string, status: DomainStatus, createdAt: nat)
  datatype Account = Account(tenant: Id, domain: Id, email: string, displayName: string, quotaMb: int,
                             status: AccountStatus, sesameUser: Option<Id>, createdAt: nat)

  /** The `action` of an audit row with its payload; it also determines `entity_type`. */
  datatype Action =
    | TenantCreate(slug: string, plan: string)
    | DomainCreate(fqdn: string)
    | AccountCreate(email: string, quotaMb: int)
    | AccountProvisioned(user: Id)
    | AccountReconciled(user: Id)
    | PolicySet(policy: T.Policy)
    | ConfigCompiled(tenants: nat, domains: nat)

  datatype Entity = Row(id: Id) | File(path: string)

  datatype Entry = Entry(tenant: Option<Id>, actor: string, action: Action, entity: Entity)

  datatype Db = Db(tenants: map<Id, Tenant>, domains: map<Id, Domain>, accounts: map<Id, Account>,
                   policies: map<Id, T.Policy>, audit: seq<Entry>)

  const EmptyDb := Db(map[], map[], map[], map[], [])

  datatype ApiError = Validation | NotFound | Conflict | Internal

  datatype Result<+R> = Ok(value: R) | Err(error: ApiError) {
    predicate IsFailure() { Err? }
    function PropagateFailure<U>(): Result<U> requires Err? { Err(error) }
    function Extract(): R requires Ok? { value }
  }

  function Need(condition: bool, error: ApiError): Result<()> {
    if condition then Ok(()) else Err(error)
  }

  // ------------------------------------------------------------------------
  // Sessions and row-level security
  // ------------------------------------------------------------------------

  /** The two transaction-local settings the policies read. */
  datatype Session = Session(tenant: Option<Id>, platform: bool)

  function TenantSession(t: Id): Session { Session(Some(t), false) }
  const PlatformSession := Session(None, true)

  /** USING of the tenant-scoped tables; a NULL owner equals nothing. */
  predicate Sees(s: Session, owner: Option<Id>) {
    s.platform || (owner.Some? && s.tenant == owner)
  }

  function VisibleTenants(db: Db, s: Session): map<Id, Tenant> {
    map t | t in db.tenants && Sees(s, Some(t)) :: db.tenants[t]
  }

  function VisibleDomains(db: Db, s: Session): map<Id, Domain> {
    map d | d in db.domains && Sees(s, Some(db.domains[d].tenant)) :: db.domains[d]
  }

  function VisibleAccounts(db: Db, s: Session): map<Id, Account> {
    map a | a in db.accounts && Sees(s, Some(db.accounts[a].tenant)) :: db.accounts[a]
  }

  function VisiblePolicies(db: Db, s: Session): map<Id, T.Policy> {
    map t | t in db.policies && Sees(s, Some(t)) :: db.policies[t]
  }

  // ------------------------------------------------------------------------
  // Statements: row-level security, CHECK, unique indexes, foreign keys
  // ------------------------------------------------------------------------

  predicate SlugTaken(db: Db, slug: string) { exists t :: t in db.tenants && db.tenants[t].slug == slug }
  predicate FqdnTaken(db: Db, fqdn: string) { exists d :: d in db.domains && db.domains[d].fqdn == fqdn }
  predicate EmailTaken(db: Db, email: string) { exists a :: a in db.accounts && db.accounts[a].email == email }

  function InsertTenant(db: Db, s: Session, id: Id, row: Tenant): Result<Db> {
    var _ :- Need(s.platform, Internal);
    var _ :- Need(SlugColumn(row.slug), Internal);
    var _ :- Need(id !in db.tenants && !SlugTaken(db, row.slug), Conflict);
    Ok(db.(tenants := db.tenants[id := row]))
  }

  function InsertDomain(db: Db, s: Session, id: Id, row: Domain): Result<Db> {
    var _ :- Need(Sees(s, Some(row.tenant)), Internal);
    var _ :- Need(FqdnColumn(row.fqdn), Internal);
    var _ :- Need(id !in db.domains && !FqdnTaken(db, row.fqdn), Conflict);
    var _ :- Need(row.tenant in db.tenants, Internal);
    Ok(db.(domains := db.domains[id := row]))
  }

  function InsertAccount(db: Db, s: Session, id: Id, row: Account): Result<Db> {
    var _ :- Need(Sees(s, Some(row.tenant)), Internal);
    var _ :- Need(1 <= row.quotaMb <= 1048576, Internal);
    var _ :- Need(id !in db.accounts && !EmailTaken(db, row.email), Conflict);
    var _ :- Need(row.tenant in db.tenants && row.domain in db.domains, Internal);
    Ok(db.(accounts := db.accounts[id := row]))
  }

  function UpsertPolicy(db: Db, s: Session, tenant: Id, p: T.Policy): Result<Db> {
    var _ :- Need(Sees(s, Some(tenant)), Internal);
    var _ :- Need(T.PolicyCheck(p), Internal);
    var _ :- Need(tenant in db.tenants, Internal);
    Ok(db.(policies := db.policies[tenant := p]))
  }

  /** `og_db::record` */
  function Record(db: Db, s: Session, e: Entry): Result<Db> {
    var _ :- Need(Sees(s, e.tenant), Internal);
    var _ :- Need(e.tenant.Some? ==> e.tenant.value in db.tenants, Internal);
    Ok(db.(audit := db.audit + [e]))
  }

  // ------------------------------------------------------------------------
  // Handlers of the provisioning API
  // ------------------------------------------------------------------------

  function CreateTenant(db: Db, id: Id, slug: string, name: string, plan: string, actor: string, now: nat): Result<Db> {
    var _ :- Need(ValidateSlug(slug), Validation);
    var db1 :- InsertTenant(db, PlatformSession, id, Tenant(slug, name, plan, TenantActive, now));
    Record(db1, PlatformSession, Entry(Some(id), actor, TenantCreate(slug, plan), Row(id)))
  }

  function CreateDomain(db: Db, t: Id, id: Id, fqdn: string, actor: string, now: nat): Result<Db> {
    var _ :- Need(ValidateFqdn(fqdn), Validation);
    var db1 :- InsertDomain(db, TenantSession(t), id, Domain(t, fqdn, PendingDns, now));
    Record(db1, TenantSession(t), Entry(Some(t), actor, DomainCreate(fqdn), Row(id)))
  }

  datatype NewAccount = NewAccount(domain: Id, local: string, displayName: string, quotaMb: int)

  /** The first transaction of `create_account`. */
  function CreateAccount(db: Db, t: Id, id: Id, req: NewAccount, actor: string, now: nat): Result<Db> {
    var _ :- Need(ValidateLocalPart(req.local), Validation);
    var domains := VisibleDomains(db, TenantSession(t));
    var _ :- Need(req.domain in domains && domains[req.domain].status != DomainSuspended, NotFound);
    var email := req.local + "@" + domains[req.domain].fqdn;
    var db1 :- InsertAccount(db, TenantSession(t), id,
                 Account(t, req.domain, email, req.displayName, req.quotaMb, PendingProvisioning, None, now));
    Record(db1, TenantSession(t), Entry(Some(t), actor, AccountCreate(email, req.quotaMb), Row(id)))
  }

  function Activated(a: Account, user: Id): Account {
    a.(status := AccountActive, sesameUser := Some(user))
  }

  /** The second transaction of `create_account`: its UPDATE does not look at the status. */
  function ProvisionAccount(db: Db, t: Id, id: Id, user: Id, actor: string): Result<Db> {
    var _ :- Need(id in VisibleAccounts(db, TenantSession(t)), Internal);
    var db1 := db.(accounts := db.accounts[id := Activated(db.accounts[id], user)]);
    Record(db1, TenantSession(t), Entry(Some(t), actor, AccountProvisioned(user), Row(id)))
  }

  /** `get_policy` */
  function GetPolicy(db: Db, t: Id): T.Policy {
    var rows := VisiblePolicies(db, TenantSession(t));
    if t in rows then rows[t] else T.ApiDefaults()
  }

  function PutPolicy(db: Db, t: Id, p: T.Policy, actor: string): Result<Db> {
    var _ :- Need(T.ValidatePolicy(p), Validation);
    var db1 :- UpsertPolicy(db, TenantSession(t), t, p);
    Record(db1, TenantSession(t), Entry(Some(t), actor, PolicySet(p), Row(t)))
  }

  // ------------------------------------------------------------------------
  // The background services
  // ------------------------------------------------------------------------

  /** The persisting transaction of `reconcile_once`: guarded by the status. The flag says whether
      a row was updated. */
  function ReconcileAccount(db: Db, t: Id, id: Id, user: Id): Result<(Db, bool)> {
    if id in db.accounts && db.accounts[id].status == PendingProvisioning then
      var db1 := db.(accounts := db.accounts[id := Activated(db.accounts[id], user)]);
      var db2 :- Record(db1, PlatformSession, Entry(Some(t), "job-runner", AccountReconciled(user), Row(id)));
      Ok((db2, true))
    else
      Ok((db, false))
  }

  /** The audit transaction of `compile_once`. */
  function RecordCompile(db: Db, path: string, tenants: nat, domains: nat): Result<Db> {
    Record(db, PlatformSession, Entry(None, "config-compiler", ConfigCompiled(tenants, domains), File(path)))
  }

  // ------------------------------------------------------------------------
  // Status changes nobody audits: made outside these services
  // ------------------------------------------------------------------------

  function SetTenantStatus(db: Db, t: Id, status: TenantStatus): Db {
    if t in db.tenants then db.(tenants := db.tenants[t := db.tenants[t].(status := status)]) else db
  }

  function SetDomainStatus(db: Db, d: Id, status: DomainStatus): Db {
    if d in db.domains then db.(domains := db.domains[d := db.domains[d].(status := status)]) else db
  }

  /** What is left after a transaction: its commit, or the store before it. */
  function Settle(db: Db, r: Result<Db>): Db { if r.Ok? then r.value else db }
}

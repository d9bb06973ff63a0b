/** Tenants do not influence each other through the tenant-scoped transactions, except by taking a
    globally unique name first. */
module Isolation {
  import opened Strings
  import opened Validators
  import opened Store
  import T = Thresholds

  function VisibleAudit(log: seq<Entry>, s: Session): seq<Entry> {
    if log == [] then []
    else VisibleAudit(log[..|log| - 1], s) + if Sees(s, log[|log| - 1].tenant) then [log[|log| - 1]] else []
  }

  /** All a tenant session can read. */
  datatype Slice = Slice(tenants: map<Id, Tenant>, domains: map<Id, Domain>, accounts: map<Id, Account>,
                         policies: map<Id, T.Policy>, audit: seq<Entry>)

  function SliceOf(db: Db, t: Id): Slice {
    var s := TenantSession(t);
    Slice(VisibleTenants(db, s), VisibleDomains(db, s), VisibleAccounts(db, s), VisiblePolicies(db, s),
          VisibleAudit(db.audit, s))
  }

  /** The slice holds the tenant's own rows, all of them and unchanged, and of the log its own
      entries in order. */
  lemma SliceIsOwnRows(db: Db, t: Id, id: Id)
    ensures var v := SliceOf(db, t);
            && (id in v.tenants <==> id in db.tenants && id == t)
            && (id in v.domains <==> id in db.domains && db.domains[id].tenant == t)
            && (id in v.accounts <==> id in db.accounts && db.accounts[id].tenant == t)
            && (id in v.policies <==> id in db.policies && id == t)
            && (id in v.tenants ==> v.tenants[id] == db.tenants[id]) && (id in v.domains ==> v.domains[id] == db.domains[id])
            && (id in v.accounts ==> v.accounts[id] == db.accounts[id]) && (id in v.policies ==> v.policies[id] == db.policies[id])
  {}

  lemma SliceOfLog(db: Db, e: Entry, t: Id)
    ensures SliceOf(EmptyDb, t).audit == []
    ensures SliceOf(db.(audit := db.audit + [e]), t).audit == SliceOf(db, t).audit + if e.tenant == Some(t) then [e] else []
  {
    AuditAfter(db.audit, e, TenantSession(t));
  }

  /** The transactions that run under `tenant_tx`. */
  datatype TenantOp =
    | OpCreateDomain(id: Id, fqdn: string, actor: string, now: nat)
    | OpCreateAccount(id: Id, req: NewAccount, actor: string, now: nat)
    | OpProvision(id: Id, user: Id, actor: string)
    | OpPutPolicy(policy: T.Policy, actor: string)

  function Do(db: Db, t: Id, op: TenantOp): Result<Db> {
    match op
    case OpCreateDomain(id, fqdn, actor, now) => CreateDomain(db, t, id, fqdn, actor, now)
    case OpCreateAccount(id, req, actor, now) => CreateAccount(db, t, id, req, actor, now)
    case OpProvision(id, user, actor) => ProvisionAccount(db, t, id, user, actor)
    case OpPutPolicy(p, actor) => PutPolicy(db, t, p, actor)
  }

  /** Each is the handler's own transaction, whose outcomes `Outcomes` spells out. */
  lemma TransactionsAre(db: Db, t: Id, op: TenantOp)
    ensures op.OpCreateDomain? ==> Do(db, t, op) == CreateDomain(db, t, op.id, op.fqdn, op.actor, op.now)
    ensures op.OpCreateAccount? ==> Do(db, t, op) == CreateAccount(db, t, op.id, op.req, op.actor, op.now)
    ensures op.OpProvision? ==> Do(db, t, op) == ProvisionAccount(db, t, op.id, op.user, op.actor)
    ensures op.OpPutPolicy? ==> Do(db, t, op) == PutPolicy(db, t, op.policy, op.actor)
  {}

  /** What a committed tenant transaction did: one row of the tenant's own, and one audit entry. */
  datatype Effect =
    | NewDomain(id: Id, domainRow: Domain)
    | WrittenAccount(id: Id, accountRow: Account)
    | WrittenPolicy(policy: T.Policy)

  function EffectOf(db: Db, t: Id, op: TenantOp): (Effect, Action)
    requires Do(db, t, op).Ok?
  {
    match op
    case OpCreateDomain(id, fqdn, _, now) => (NewDomain(id, Domain(t, fqdn, PendingDns, now)), DomainCreate(fqdn))
    case OpCreateAccount(id, req, _, now) =>
      var email := req.local + "@" + db.domains[req.domain].fqdn;
      (WrittenAccount(id, Account(t, req.domain, email, req.displayName, req.quotaMb, PendingProvisioning, None, now)),
       AccountCreate(email, req.quotaMb))
    case OpProvision(id, user, _) => (WrittenAccount(id, Activated(db.accounts[id], user)), AccountProvisioned(user))
    case OpPutPolicy(p, _) => (WrittenPolicy(p), PolicySet(p))
  }

  function EntityOf(t: Id, op: TenantOp): Id { if op.OpPutPolicy? then t else op.id }

  /** The effect on the tables and log, or on a slice of them. */
  function WriteRow(db: Db, t: Id, e: Effect, entry: Entry): Db {
    var db1 := match e
      case NewDomain(id, row) => db.(domains := db.domains[id := row])
      case WrittenAccount(id, row) => db.(accounts := db.accounts[id := row])
      case WrittenPolicy(p) => db.(policies := db.policies[t := p]);
    db1.(audit := db.audit + [entry])
  }

  function WriteSlice(v: Slice, t: Id, e: Effect, entry: Entry): Slice {
    var v1 := match e
      case NewDomain(id, row) => v.(domains := v.domains[id := row])
      case WrittenAccount(id, row) => v.(accounts := v.accounts[id := row])
      case WrittenPolicy(p) => v.(policies := v.policies[t := p]);
    v1.(audit := v.audit + [entry])
  }

  /** The row belongs to the tenant and replaces nothing of anyone else's. */
  predicate Own(db: Db, t: Id, e: Effect) {
    match e
    case NewDomain(id, row) => row.tenant == t && id !in db.domains
    case WrittenAccount(id, row) => row.tenant == t && (id in db.accounts ==> db.accounts[id].tenant == t)
    case WrittenPolicy(_) => true
  }

  lemma OpWritesOwnRow(db: Db, t: Id, op: TenantOp)
    requires Do(db, t, op).Ok?
    ensures var (e, action) := EffectOf(db, t, op);
            Own(db, t, e) &&
            Do(db, t, op).value == WriteRow(db, t, e, Entry(Some(t), op.actor, action, Row(EntityOf(t, op))))
  {}

  lemma AuditAfter(log: seq<Entry>, entry: Entry, s: Session)
    ensures VisibleAudit(log + [entry], s) == VisibleAudit(log, s) + if Sees(s, entry.tenant) then [entry] else []
  {
    assert (log + [entry])[..|log|] == log;
  }

  lemma WriteKeepsOthers(db: Db, t: Id, e: Effect, entry: Entry, u: Id)
    requires Own(db, t, e) && entry.tenant == Some(t) && u != t
    ensures SliceOf(WriteRow(db, t, e, entry), u) == SliceOf(db, u)
  {
    var db', s := WriteRow(db, t, e, entry), TenantSession(u);
    AuditAfter(db.audit, entry, s);
    assert VisibleTenants(db', s) == VisibleTenants(db, s);
    assert VisibleDomains(db', s) == VisibleDomains(db, s);
    assert VisibleAccounts(db', s) == VisibleAccounts(db, s);
    assert VisiblePolicies(db', s) == VisiblePolicies(db, s);
  }

  lemma WriteShowsInOwnSlice(db: Db, t: Id, e: Effect, entry: Entry)
    requires Own(db, t, e) && entry.tenant == Some(t)
    ensures SliceOf(WriteRow(db, t, e, entry), t) == WriteSlice(SliceOf(db, t), t, e, entry)
  {
    var db', s := WriteRow(db, t, e, entry), TenantSession(t);
    AuditAfter(db.audit, entry, s);
    match e
    case NewDomain(id, row) => assert VisibleDomains(db', s) == VisibleDomains(db, s)[id := row];
    case WrittenAccount(id, row) => assert VisibleAccounts(db', s) == VisibleAccounts(db, s)[id := row];
    case WrittenPolicy(p) => assert VisiblePolicies(db', s) == VisiblePolicies(db, s)[t := p];
  }

  // ------------------------------------------------------------------------
  // Main results
  // ------------------------------------------------------------------------

  /** Confinement: a transaction of one tenant changes nothing another tenant can read. */
  lemma OthersAreUntouched(db: Db, t: Id, op: TenantOp, u: Id)
    requires u != t
    ensures SliceOf(Settle(db, Do(db, t, op)), u) == SliceOf(db, u)
  {
    if Do(db, t, op).Ok? {
      OpWritesOwnRow(db, t, op);
      var (e, action) := EffectOf(db, t, op);
      WriteKeepsOthers(db, t, e, Entry(Some(t), op.actor, action, Row(EntityOf(t, op))), u);
    }
  }

  ghost predicate SameFor(db1: Db, db2: Db, t: Id) { SliceOf(db1, t) == SliceOf(db2, t) }

  lemma SameVisibleRows(db1: Db, db2: Db, t: Id)
    requires SameFor(db1, db2, t)
    ensures t in db1.tenants <==> t in db2.tenants
    ensures forall d :: d in VisibleDomains(db1, TenantSession(t)) ==> d in db1.domains && d in db2.domains && db1.domains[d] == db2.domains[d]
    ensures forall a :: a in VisibleAccounts(db1, TenantSession(t)) ==> a in db1.accounts && a in db2.accounts && db1.accounts[a] == db2.accounts[a]
  {
    var s := TenantSession(t);
    assert t in VisibleTenants(db1, s) <==> t in VisibleTenants(db2, s);
    assert forall d :: d in VisibleDomains(db1, s) ==> VisibleDomains(db1, s)[d] == VisibleDomains(db2, s)[d];
    assert forall a :: a in VisibleAccounts(db1, s) ==> VisibleAccounts(db1, s)[a] == VisibleAccounts(db2, s)[a];
  }

  /** Same outcome and, on success, same effect. */
  ghost predicate Alike(db1: Db, db2: Db, t: Id, op: TenantOp) {
    && (Do(db1, t, op).Ok? <==> Do(db2, t, op).Ok?)
    && (Do(db1, t, op).Err? ==> Do(db1, t, op) == Do(db2, t, op))
    && (Do(db1, t, op).Ok? ==> EffectOf(db1, t, op) == EffectOf(db2, t, op))
  }

  /** The guard of the uniqueness conflict: the id is in use, or someone holds the name that would
      be inserted. */
  predicate Taken(db: Db, t: Id, op: TenantOp) {
    match op
    case OpCreateDomain(id, fqdn, _, _) => id in db.domains || FqdnTaken(db, fqdn)
    case OpCreateAccount(id, req, _, _) =>
      || id in db.accounts
      || (req.domain in db.domains && EmailTaken(db, req.local + "@" + db.domains[req.domain].fqdn))
    case _ => false
  }

  /** Every check before the unique indexes passes. */
  predicate Reaches(db: Db, t: Id, op: TenantOp) {
    match op
    case OpCreateDomain(_, fqdn, _, _) => ValidateFqdn(fqdn) && FqdnColumn(fqdn)
    case OpCreateAccount(_, req, _, _) =>
      && ValidateLocalPart(req.local) && 1 <= req.quotaMb <= 1048576
      && req.domain in VisibleDomains(db, TenantSession(t)) && db.domains[req.domain].status != DomainSuspended
    case _ => false
  }

  lemma ConflictExactly(db: Db, t: Id, op: TenantOp)
    ensures Do(db, t, op) == Err(Conflict) <==> Reaches(db, t, op) && Taken(db, t, op)
  {}

  lemma ReachesIsOwn(db1: Db, db2: Db, t: Id, op: TenantOp)
    requires SameFor(db1, db2, t)
    ensures Reaches(db1, t, op) <==> Reaches(db2, t, op)
  {
    SameVisibleRows(db1, db2, t);
    SameVisibleRows(db2, db1, t);
  }

  predicate NoConflict(db1: Db, db2: Db, t: Id, op: TenantOp) {
    Do(db1, t, op) != Err(Conflict) && Do(db2, t, op) != Err(Conflict)
  }

  lemma SameOutcomeOfAccount(db1: Db, db2: Db, t: Id, op: TenantOp)
    requires SameFor(db1, db2, t) && op.OpCreateAccount? && NoConflict(db1, db2, t, op)
    ensures Alike(db1, db2, t, op)
  {
    SameVisibleRows(db1, db2, t);
    SameVisibleRows(db2, db1, t);
  }

  lemma SameOutcomeOfDomain(db1: Db, db2: Db, t: Id, op: TenantOp)
    requires SameFor(db1, db2, t) && op.OpCreateDomain? && NoConflict(db1, db2, t, op)
    ensures Alike(db1, db2, t, op)
  {
    SameVisibleRows(db1, db2, t);
  }

  lemma SameOutcomeOfProvision(db1: Db, db2: Db, t: Id, op: TenantOp)
    requires SameFor(db1, db2, t) && op.OpProvision? && NoConflict(db1, db2, t, op)
    ensures Alike(db1, db2, t, op)
  {
    SameVisibleRows(db1, db2, t);
    assert op.id in VisibleAccounts(db1, TenantSession(t)) <==> op.id in VisibleAccounts(db2, TenantSession(t));
  }

  lemma SameOutcome(db1: Db, db2: Db, t: Id, op: TenantOp)
    requires SameFor(db1, db2, t) && NoConflict(db1, db2, t, op)
    ensures Alike(db1, db2, t, op)
  {
    match op
    case OpCreateDomain(_, _, _, _) => SameOutcomeOfDomain(db1, db2, t, op);
    case OpCreateAccount(_, _, _, _) => SameOutcomeOfAccount(db1, db2, t, op);
    case OpProvision(_, _, _) => SameOutcomeOfProvision(db1, db2, t, op);
    case OpPutPolicy(_, _) => SameVisibleRows(db1, db2, t);
  }

  lemma AlikeStaysSame(db1: Db, db2: Db, t: Id, op: TenantOp)
    requires SameFor(db1, db2, t) && Alike(db1, db2, t, op)
    ensures SameFor(Settle(db1, Do(db1, t, op)), Settle(db2, Do(db2, t, op)), t)
  {
    if Do(db1, t, op).Ok? {
      OpWritesOwnRow(db1, t, op);
      OpWritesOwnRow(db2, t, op);
      var (e, action) := EffectOf(db1, t, op);
      var entry := Entry(Some(t), op.actor, action, Row(EntityOf(t, op)));
      WriteShowsInOwnSlice(db1, t, e, entry);
      WriteShowsInOwnSlice(db2, t, e, entry);
    }
  }

  /** The name guards say the same in both stores wherever they are reached. */
  predicate GuardAgrees(db1: Db, db2: Db, t: Id, op: TenantOp) {
    Reaches(db1, t, op) ==> (Taken(db1, t, op) <==> Taken(db2, t, op))
  }

  /** Non-interference: let two stores agree on what tenant `t` can read. A transaction of `t` has
      the same outcome in both, and leaves them agreeing, exactly when it fails an earlier check
      or its id and name are taken in both or in neither. */
  lemma OnlyNamesLeak(db1: Db, db2: Db, t: Id, op: TenantOp)
    requires SameFor(db1, db2, t)
    ensures Alike(db1, db2, t, op) <==> GuardAgrees(db1, db2, t, op)
    ensures GuardAgrees(db1, db2, t, op) ==> SameFor(Settle(db1, Do(db1, t, op)), Settle(db2, Do(db2, t, op)), t)
    ensures Answer(db1, t, op) == Answer(db2, t, op) <==> GuardAgrees(db1, db2, t, op)
  {
    ConflictExactly(db1, t, op);
    ConflictExactly(db2, t, op);
    ReachesIsOwn(db1, db2, t, op);
    if NoConflict(db1, db2, t, op) { SameOutcome(db1, db2, t, op); }
    if Alike(db1, db2, t, op) { AlikeStaysSame(db1, db2, t, op); }
  }

  // ------------------------------------------------------------------------
  // Runs of several tenants
  // ------------------------------------------------------------------------

  datatype Deed = Deed(tenant: Id, op: TenantOp)

  /** The error a transaction answers with, if any. */
  function Answer(db: Db, t: Id, op: TenantOp): Option<ApiError> {
    if Do(db, t, op).Ok? then None else Some(Do(db, t, op).error)
  }

  function Exec(db: Db, deeds: seq<Deed>): Db {
    if deeds == [] then db
    else
      var before, d := Exec(db, deeds[..|deeds| - 1]), deeds[|deeds| - 1];
      Settle(before, Do(before, d.tenant, d.op))
  }

  function OnlyOf(deeds: seq<Deed>, t: Id): seq<Deed> {
    if deeds == [] then []
    else OnlyOf(deeds[..|deeds| - 1], t) + if deeds[|deeds| - 1].tenant == t then [deeds[|deeds| - 1]] else []
  }

  /** What tenant `t` is answered, in order. */
  function Answers(db: Db, deeds: seq<Deed>, t: Id): seq<Option<ApiError>> {
    if deeds == [] then []
    else
      var init, d := deeds[..|deeds| - 1], deeds[|deeds| - 1];
      Answers(db, init, t) + if d.tenant == t then [Answer(Exec(db, init), t, d.op)] else []
  }

  /** Whenever `t` acts, the guard is the same as it would be had the others done nothing. */
  predicate GuardsAgree(db1: Db, db2: Db, deeds: seq<Deed>, t: Id) {
    deeds != [] ==>
      var init, d := deeds[..|deeds| - 1], deeds[|deeds| - 1];
      GuardsAgree(db1, db2, init, t) &&
      (d.tenant == t ==> GuardAgrees(Exec(db1, init), Exec(db2, OnlyOf(init, t)), t, d.op))
  }

  lemma OwnDeedsSnoc(db: Db, deeds: seq<Deed>, d: Deed)
    ensures Exec(db, deeds + [d]) == Settle(Exec(db, deeds), Do(Exec(db, deeds), d.tenant, d.op))
    ensures Answers(db, deeds + [d], d.tenant) == Answers(db, deeds, d.tenant) + [Answer(Exec(db, deeds), d.tenant, d.op)]
  {
    assert (deeds + [d])[..|deeds|] == deeds;
  }

  lemma {:induction false} AnswersCount(db: Db, deeds: seq<Deed>, t: Id)
    ensures |Answers(db, deeds, t)| == |OnlyOf(deeds, t)|
    ensures OnlyOf(OnlyOf(deeds, t), t) == OnlyOf(deeds, t)
  {
    if deeds != [] {
      var init, d := deeds[..|deeds| - 1], deeds[|deeds| - 1];
      AnswersCount(db, init, t);
      if d.tenant == t {
        assert (OnlyOf(init, t) + [d])[..|OnlyOf(init, t)|] == OnlyOf(init, t);
      } else {
        assert OnlyOf(deeds, t) == OnlyOf(init, t);
      }
    }
  }

  /** Non-interference over runs: striking out everything the other tenants do leaves `t` with the
      same answers exactly when no name guard `t` reaches is changed by that, and then it sees the
      same rows at the end. */
  lemma {:induction false} OthersMayBeStruckOut(db1: Db, db2: Db, deeds: seq<Deed>, t: Id)
    requires SameFor(db1, db2, t)
    ensures Answers(db1, deeds, t) == Answers(db2, OnlyOf(deeds, t), t) <==> GuardsAgree(db1, db2, deeds, t)
    ensures GuardsAgree(db1, db2, deeds, t) ==> SameFor(Exec(db1, deeds), Exec(db2, OnlyOf(deeds, t)), t)
  {
    if deeds != [] {
      var init, d := deeds[..|deeds| - 1], deeds[|deeds| - 1];
      OthersMayBeStruckOut(db1, db2, init, t);
      var a, b := Exec(db1, init), Exec(db2, OnlyOf(init, t));
      if d.tenant == t {
        OwnDeedsSnoc(db2, OnlyOf(init, t), d);
        AnswersCount(db1, init, t);
        AnswersCount(db2, OnlyOf(init, t), t);
        SnocEquality(Answers(db1, init, t), Answers(db2, OnlyOf(init, t), t), Answer(a, t, d.op), Answer(b, t, d.op));
        if GuardsAgree(db1, db2, init, t) { OnlyNamesLeak(a, b, t, d.op); }
      } else {
        assert OnlyOf(deeds, t) == OnlyOf(init, t) && Answers(db1, deeds, t) == Answers(db1, init, t);
        OthersAreUntouched(a, d.tenant, d.op, t);
      }
    }
  }

  lemma SnocEquality<T>(a: seq<T>, b: seq<T>, x: T, y: T)
    requires |a| == |b|
    ensures a + [x] == b + [y] <==> a == b && x == y
  {
    if a + [x] == b + [y] {
      assert (a + [x])[..|a|] == a && (b + [y])[..|b|] == b;
      assert (a + [x])[|a|] == x && (b + [y])[|b|] == y;
    }
  }

  // ------------------------------------------------------------------------
  // Reads, and what leaks
  // ------------------------------------------------------------------------

  /** The tenant's effective policy depends on its slice alone. */
  lemma PolicyReadIsOwn(db1: Db, db2: Db, t: Id)
    requires SameFor(db1, db2, t)
    ensures GetPolicy(db1, t) == GetPolicy(db2, t)
  {}

  /** The influence that remains: a name another tenant holds is refused as taken, although the
      tenant cannot see who holds it. */
  lemma TakenNameIsSeen(db: Db, t: Id, u: Id, d: Id, id: Id, actor: string, now: nat)
    requires d in db.domains && db.domains[d].tenant == u && u != t
    requires ValidateFqdn(db.domains[d].fqdn) && FqdnColumn(db.domains[d].fqdn)
    ensures CreateDomain(db, t, id, db.domains[d].fqdn, actor, now) == Err(Conflict)
    ensures d !in SliceOf(db, t).domains
  {}

  /** For a tenant that exists, a domain request ends in an internal error exactly when its name
      passes the validator and has no top-level label of letters. */
  lemma InternalErrorExactly(db: Db, t: Id, id: Id, fqdn: string, actor: string, now: nat)
    requires t in db.tenants
    ensures CreateDomain(db, t, id, fqdn, actor, now) == Err(Internal) <==> ValidateFqdn(fqdn) && !LetterTld(fqdn)
  {}

  /** The same for accounts, whose quota no validator looks at: exactly when it is out of range. */
  lemma QuotaErrorExactly(db: Db, t: Id, id: Id, req: NewAccount, actor: string, now: nat)
    requires t in db.tenants && ValidateLocalPart(req.local)
    requires req.domain in VisibleDomains(db, TenantSession(t)) && db.domains[req.domain].status != DomainSuspended
    ensures CreateAccount(db, t, id, req, actor, now) == Err(Internal) <==> !(1 <= req.quotaMb <= 1048576)
  {}
}

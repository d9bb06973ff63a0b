/** The audit log as the history of the tables: folding it rebuilds them. */
module Replay {
  import opened Strings
  import opened Store
  import opened Protocol
  import opened Invariants
  import T = Thresholds

  datatype TenantView = TenantView(slug: string, plan: string)
  datatype DomainView = DomainView(tenant: Id, fqdn: string)
  datatype AccountView = AccountView(tenant: Id, email: string, quotaMb: int, status: AccountStatus, sesameUser: Option<Id>)

  /** The audited columns. */
  datatype View = View(tenants: map<Id, TenantView>, domains: map<Id, DomainView>,
                       accounts: map<Id, AccountView>, policies: map<Id, T.Policy>)

  const EmptyView := View(map[], map[], map[], map[])

  function Activate(v: View, a: Id, user: Id): View {
    if a in v.accounts then
      v.(accounts := v.accounts[a := v.accounts[a].(status := AccountActive, sesameUser := Some(user))])
    else v
  }

  function StepView(v: View, e: Entry): View {
    match (e.action, e.tenant, e.entity)
    case (TenantCreate(slug, plan), _, Row(id)) => v.(tenants := v.tenants[id := TenantView(slug, plan)])
    case (DomainCreate(fqdn), Some(t), Row(id)) => v.(domains := v.domains[id := DomainView(t, fqdn)])
    case (AccountCreate(email, quota), Some(t), Row(id)) =>
      v.(accounts := v.accounts[id := AccountView(t, email, quota, PendingProvisioning, None)])
    case (AccountProvisioned(user), _, Row(id)) => Activate(v, id, user)
    case (AccountReconciled(user), _, Row(id)) => Activate(v, id, user)
    case (PolicySet(p), _, Row(t)) => v.(policies := v.policies[t := p])
    case _ => v
  }

  function Rebuild(log: seq<Entry>): View {
    if log == [] then EmptyView else StepView(Rebuild(log[..|log| - 1]), log[|log| - 1])
  }

  function ViewOfAccount(a: Account): AccountView { AccountView(a.tenant, a.email, a.quotaMb, a.status, a.sesameUser) }

  function TenantViews(rows: map<Id, Tenant>): map<Id, TenantView> {
    map t | t in rows :: TenantView(rows[t].slug, rows[t].plan)
  }

  function DomainViews(rows: map<Id, Domain>): map<Id, DomainView> {
    map d | d in rows :: DomainView(rows[d].tenant, rows[d].fqdn)
  }

  function AccountViews(rows: map<Id, Account>): map<Id, AccountView> {
    map a | a in rows :: ViewOfAccount(rows[a])
  }

  function ViewOf(db: Db): View {
    View(TenantViews(db.tenants), DomainViews(db.domains), AccountViews(db.accounts), db.policies)
  }

  function StepAll(v: View, es: seq<Entry>): View {
    if es == [] then v else StepView(v, es[0])
  }

  lemma ChangeIsReplayed(db: Db, c: Change)
    requires Legal(db, c)
    ensures ViewOf(Make(db, c)) == StepAll(ViewOf(db), EntriesOf(db, c))
  {
    if c.AddTenant? || c.AddDomain? || c.AddAccount? {
      AdditionIsReplayed(db, c);
    } else if c.Provisioned? || c.Reconciled? {
      ActivationIsReplayed(db.accounts, c.id, c.user);
    } else if c.TenantStatusSet? || c.DomainStatusSet? {
      StatusIsInvisible(db, c);
    }
  }

  lemma AdditionIsReplayed(db: Db, c: Change)
    requires Legal(db, c) && (c.AddTenant? || c.AddDomain? || c.AddAccount?)
    ensures ViewOf(Make(db, c)) == StepAll(ViewOf(db), EntriesOf(db, c))
  {
    match c
    case AddTenant(id, row, _) =>
      assert TenantViews(db.tenants[id := row]) == TenantViews(db.tenants)[id := TenantView(row.slug, row.plan)];
    case AddDomain(id, row, _) =>
      assert DomainViews(db.domains[id := row]) == DomainViews(db.domains)[id := DomainView(row.tenant, row.fqdn)];
    case AddAccount(id, row, _, _) =>
      assert AccountViews(db.accounts[id := row]) == AccountViews(db.accounts)[id := ViewOfAccount(row)];
  }

  lemma StatusIsInvisible(db: Db, c: Change)
    requires Legal(db, c) && (c.TenantStatusSet? || c.DomainStatusSet?)
    ensures ViewOf(Make(db, c)) == ViewOf(db) && EntriesOf(db, c) == []
  {
    match c
    case TenantStatusSet(t, st) =>
      assert TenantViews(db.tenants[t := db.tenants[t].(status := st)]) == TenantViews(db.tenants);
    case DomainStatusSet(d, st) =>
      assert DomainViews(db.domains[d := db.domains[d].(status := st)]) == DomainViews(db.domains);
  }

  lemma ActivationIsReplayed(rows: map<Id, Account>, id: Id, user: Id)
    requires id in rows
    ensures AccountViews(rows[id := Activated(rows[id], user)]) ==
            AccountViews(rows)[id := AccountViews(rows)[id].(status := AccountActive, sesameUser := Some(user))]
  {}

  /** In every reachable store, replaying the audit log gives the audited columns of the tables
      exactly. */
  lemma {:induction false} ReplayRebuildsTables(events: seq<Event>)
    ensures Rebuild(Run(Initial, events).db.audit) == ViewOf(Run(Initial, events).db)
  {
    if events == [] {
      assert ViewOf(EmptyDb) == EmptyView;
    } else {
      var before, e := events[..|events| - 1], events[|events| - 1];
      ReplayRebuildsTables(before);
      var s := Run(Initial, before);
      var c := ChangeOf(s, e);
      EveryEventIsOneChange(s, e);
      ChangeIsReplayed(s.db, c);
      var log := Make(s.db, c).audit;
      if EntriesOf(s.db, c) != [] { assert log[..|log| - 1] == s.db.audit; } else { assert log == s.db.audit; }
    }
  }

  /** The rebuilt columns, one by one. */
  lemma RebuiltColumns(events: seq<Event>, id: Id)
    ensures var db, v := Run(Initial, events).db, Rebuild(Run(Initial, events).db.audit);
            && (id in v.tenants <==> id in db.tenants)
            && (id in db.tenants ==> v.tenants[id].slug == db.tenants[id].slug && v.tenants[id].plan == db.tenants[id].plan)
            && (id in v.domains <==> id in db.domains)
            && (id in db.domains ==> v.domains[id].tenant == db.domains[id].tenant && v.domains[id].fqdn == db.domains[id].fqdn)
            && (id in v.accounts <==> id in db.accounts)
            && (id in db.accounts ==>
                  && v.accounts[id].tenant == db.accounts[id].tenant && v.accounts[id].email == db.accounts[id].email
                  && v.accounts[id].quotaMb == db.accounts[id].quotaMb && v.accounts[id].status == db.accounts[id].status
                  && v.accounts[id].sesameUser == db.accounts[id].sesameUser)
            && v.policies == db.policies
  {
    ReplayRebuildsTables(events);
  }

  /** The audit log only grows at its end, by at most one entry an event; an event that appends
      none leaves the audited columns as they were, and one that appends an entry other than
      `config.compiled` changes just what replaying that entry changes. */
  lemma OneEntryPerChange(s: System, e: Event)
    ensures var log, log' := s.db.audit, Apply(s, e).db.audit;
            && log <= log' && |log'| <= |log| + 1
            && (|log'| == |log| ==> ViewOf(Apply(s, e).db) == ViewOf(s.db))
            && (|log'| == |log| + 1 ==> ViewOf(Apply(s, e).db) == StepView(ViewOf(s.db), log'[|log|]))
  {
    EveryEventIsOneChange(s, e);
    ChangeIsReplayed(s.db, ChangeOf(s, e));
  }

  lemma {:induction false} LogOnlyGrows(s: System, events: seq<Event>)
    ensures s.db.audit <= Run(s, events).db.audit
  {
    if events != [] {
      LogOnlyGrows(s, events[..|events| - 1]);
      OneEntryPerChange(Run(s, events[..|events| - 1]), events[|events| - 1]);
    }
  }

  /** The one audited-table column the log does not name, an account's domain, is the rebuilt
      domain whose name follows the `@` of the account's email. */
  lemma DomainIsRebuiltToo(events: seq<Event>, a: Id, d: Id)
    requires a in Run(Initial, events).db.accounts
    ensures var db, v := Run(Initial, events).db, Rebuild(Run(Initial, events).db.audit);
            db.accounts[a].domain == d <==>
            d in v.domains && a in v.accounts && DomainPart(v.accounts[a].email) == Some(v.domains[d].fqdn)
  {
    var db := Run(Initial, events).db;
    ReplayRebuildsTables(events);
    TablesAlwaysOk(events);
    assert AccountOk(db, db.accounts[a]);
    if d in db.domains { DomainFromEmail(db, a, d); }
  }
}

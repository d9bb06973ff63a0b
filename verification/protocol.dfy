/** Everything that runs against the control plane at once: requests, the two halves of account
    creation around the call to sesame, reconcile cycles, compile cycles and unaudited status
    changes. A run is a sequence of events; an event that is not possible changes nothing, and a
    process may stop for good between any two of its events. */
module Protocol {
  import opened Strings
  import opened Store
  import T = Thresholds

  /** A `create_account` request after its first commit. */
  datatype Handler =
    | Calling(tenant: Id, account: Id, email: string, actor: string)
    | Updating(tenant: Id, account: Id, email: string, actor: string, user: Id)
    | Finished

  datatype PendingRow = PendingRow(id: Id, tenant: Id, email: string, displayName: string)

  datatype WorkerStatus = Looping | Returned | Stopped

  /** A `reconcile_once` cycle. `failed` and `wrote` record what it did: the accounts whose
      provisioning failed, and the positions of the audit rows it appended. */
  datatype Worker = Worker(status: WorkerStatus, rows: seq<PendingRow>, next: nat, answer: Option<Id>,
                           activated: nat, failed: set<Id>, wrote: seq<nat>)

  /** sesame: email to user id. */
  type Directory = map<string, Id>

  datatype System = System(db: Db, sesame: Directory, handlers: seq<Handler>, workers: seq<Worker>)

  const Initial := System(EmptyDb, map[], [], [])

  /** How a provisioning call ends. `newId` is the id sesame would give a new user; the call may
      also take effect without its answer arriving. */
  datatype Reply = Answered(newId: Id) | Refused | Lost(newId: Id)

  /** Idempotent by email; new ids are unused. Returns the directory after the call and the id the
      caller learns. */
  function Provision(sesame: Directory, email: string, reply: Reply): (Directory, Option<Id>) {
    match reply
    case Refused => (sesame, None)
    case Answered(newId) =>
      if email in sesame then (sesame, Some(sesame[email]))
      else if newId in sesame.Values then (sesame, None)
      else (sesame[email := newId], Some(newId))
    case Lost(newId) =>
      if email in sesame || newId in sesame.Values then (sesame, None)
      else (sesame[email := newId], None)
  }

  function Pending(db: Db): set<Id> {
    set a | a in db.accounts && db.accounts[a].status == PendingProvisioning
  }

  function Min(a: nat, b: nat): nat { if a < b then a else b }

  /** A result of the batch query: pending accounts ordered by creation time, the oldest `batch`
      of them; rows with equal times may come in any order. */
  predicate IsBatch(db: Db, batch: nat, ids: seq<Id>) {
    && (forall i :: 0 <= i < |ids| ==> ids[i] in Pending(db))
    && (forall i, j :: 0 <= i < j < |ids| ==> ids[i] != ids[j])
    && (forall i, j :: 0 <= i < j < |ids| ==> db.accounts[ids[i]].createdAt <= db.accounts[ids[j]].createdAt)
    && |ids| == Min(batch, |Pending(db)|)
    && (forall i, a :: 0 <= i < |ids| && a in Pending(db) && a !in ids ==>
          db.accounts[ids[i]].createdAt <= db.accounts[a].createdAt)
  }

  function RowOf(db: Db, a: Id): PendingRow
    requires a in db.accounts
  {
    PendingRow(a, db.accounts[a].tenant, db.accounts[a].email, db.accounts[a].displayName)
  }

  function RowsOf(db: Db, ids: seq<Id>): (rows: seq<PendingRow>)
    requires forall i :: 0 <= i < |ids| ==> ids[i] in db.accounts
  {
    seq(|ids|, i requires 0 <= i < |ids| => RowOf(db, ids[i]))
  }

  datatype Event =
    | TenantPost(id: Id, slug: string, name: string, plan: string, actor: string, now: nat)
    | DomainPost(tenant: Id, id: Id, fqdn: string, actor: string, now: nat)
    | AccountPost(tenant: Id, id: Id, req: NewAccount, actor: string, now: nat, sesameConfigured: bool)
    | PolicyPut(tenant: Id, policy: T.Policy, actor: string)
    | HandlerCalls(h: nat, reply: Reply)
    | HandlerPersists(h: nat)
    | HandlerStops(h: nat)
    | WorkerStarts(batch: nat, ids: seq<Id>)
    | WorkerCalls(w: nat, reply: Reply)
    | WorkerPersists(w: nat)
    | WorkerReturns(w: nat)
    | WorkerStops(w: nat)
    | Compiled(path: string, nTenants: nat, nDomains: nat)
    | TenantStatusChanges(tenant: Id, tenantStatus: TenantStatus)
    | DomainStatusChanges(domain: Id, domainStatus: DomainStatus)

  function Apply(s: System, e: Event): System {
    match e
    case TenantPost(id, slug, name, plan, actor, now) =>
      s.(db := Settle(s.db, CreateTenant(s.db, id, slug, name, plan, actor, now)))
    case DomainPost(t, id, fqdn, actor, now) =>
      s.(db := Settle(s.db, CreateDomain(s.db, t, id, fqdn, actor, now)))
    case AccountPost(t, id, req, actor, now, configured) =>
      PostAccount(s, t, id, req, actor, now, configured)
    case PolicyPut(t, p, actor) => s.(db := Settle(s.db, PutPolicy(s.db, t, p, actor)))
    case HandlerCalls(h, reply) => if h < |s.handlers| then HandlerCall(s, h, reply) else s
    case HandlerPersists(h) => if h < |s.handlers| then HandlerPersist(s, h) else s
    case HandlerStops(h) => if h < |s.handlers| then s.(handlers := s.handlers[h := Finished]) else s
    case WorkerStarts(batch, ids) =>
      if IsBatch(s.db, batch, ids) then
        s.(workers := s.workers + [Worker(Looping, RowsOf(s.db, ids), 0, None, 0, {}, [])])
      else s
    case WorkerCalls(w, reply) => if w < |s.workers| then WorkerCall(s, w, reply) else s
    case WorkerPersists(w) => if w < |s.workers| then WorkerPersist(s, w) else s
    case WorkerReturns(w) =>
      if w < |s.workers| && s.workers[w].status == Looping && s.workers[w].next >= |s.workers[w].rows| then
        s.(workers := s.workers[w := s.workers[w].(status := Returned)])
      else s
    case WorkerStops(w) =>
      if w < |s.workers| && s.workers[w].status == Looping then
        s.(workers := s.workers[w := s.workers[w].(status := Stopped)])
      else s
    case Compiled(path, n, m) => s.(db := Settle(s.db, RecordCompile(s.db, path, n, m)))
    case TenantStatusChanges(t, status) => s.(db := SetTenantStatus(s.db, t, status))
    case DomainStatusChanges(d, status) => s.(db := SetDomainStatus(s.db, d, status))
  }

  function PostAccount(s: System, t: Id, id: Id, req: NewAccount, actor: string, now: nat, configured: bool): System {
    var r := CreateAccount(s.db, t, id, req, actor, now);
    if r.Err? then s
    else if configured && id in r.value.accounts then
      s.(db := r.value, handlers := s.handlers + [Calling(t, id, r.value.accounts[id].email, actor)])
    else s.(db := r.value)
  }

  function HandlerCall(s: System, h: nat, reply: Reply): System
    requires h < |s.handlers|
  {
    match s.handlers[h]
    case Calling(t, a, email, actor) =>
      var (sesame, user) := Provision(s.sesame, email, reply);
      s.(sesame := sesame,
         handlers := s.handlers[h := if user.Some? then Updating(t, a, email, actor, user.value) else Finished])
    case _ => s
  }

  function HandlerPersist(s: System, h: nat): System
    requires h < |s.handlers|
  {
    match s.handlers[h]
    case Updating(t, a, email, actor, user) =>
      s.(db := Settle(s.db, ProvisionAccount(s.db, t, a, user, actor)), handlers := s.handlers[h := Finished])
    case _ => s
  }

  predicate Awaiting(w: Worker) { w.status == Looping && w.next < |w.rows| && w.answer.None? }
  predicate Holding(w: Worker) { w.status == Looping && w.next < |w.rows| && w.answer.Some? }

  function WorkerCall(s: System, i: nat, reply: Reply): System
    requires i < |s.workers|
  {
    var w := s.workers[i];
    if !Awaiting(w) then s
    else
      var (sesame, user) := Provision(s.sesame, w.rows[w.next].email, reply);
      var w' := if user.Some? then w.(answer := user)
                else w.(next := w.next + 1, failed := w.failed + {w.rows[w.next].id});
      s.(sesame := sesame, workers := s.workers[i := w'])
  }

  /** A database error ends the cycle. */
  function WorkerPersist(s: System, i: nat): System
    requires i < |s.workers|
  {
    var w := s.workers[i];
    if !Holding(w) then s
    else
      var row := w.rows[w.next];
      var r := ReconcileAccount(s.db, row.tenant, row.id, w.answer.value);
      if r.Err? then s.(workers := s.workers[i := w.(status := Stopped)])
      else
        var w' := w.(next := w.next + 1, answer := None);
        var w'' := if r.value.1 then w'.(activated := w.activated + 1, wrote := w.wrote + [|s.db.audit|]) else w';
        s.(db := r.value.0, workers := s.workers[i := w''])
  }

  function Run(s: System, events: seq<Event>): System {
    if events == [] then s else Apply(Run(s, events[..|events| - 1]), events[|events| - 1])
  }

  lemma RunSnoc(s: System, events: seq<Event>, e: Event)
    ensures Run(s, events + [e]) == Apply(Run(s, events), e)
  {
    assert (events + [e])[..|events|] == events;
  }

  lemma {:induction false} RunConcat(s: System, a: seq<Event>, b: seq<Event>)
    ensures Run(s, a + b) == Run(Run(s, a), b)
  {
    if b == [] {
      assert a + b == a;
    } else {
      RunConcat(s, a, b[..|b| - 1]);
      assert (a + b)[..|a + b| - 1] == a + b[..|b| - 1];
    }
  }
}

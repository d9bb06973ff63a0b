/** What the audit log says about activations: who activated an account, how often, in what order,
    and how the counts the workers return relate to it. */
module Accounting {
  import opened Store
  import opened Protocol
  import opened Invariants
  import opened Provisioning

  predicate IsReconciled(e: Entry, a: Id) { e.action.AccountReconciled? && e.entity == Row(a) }
  predicate IsProvisioned(e: Entry, a: Id) { e.action.AccountProvisioned? && e.entity == Row(a) }

  function Reconciliations(log: seq<Entry>, a: Id): nat {
    if log == [] then 0
    else Reconciliations(log[..|log| - 1], a) + if IsReconciled(log[|log| - 1], a) then 1 else 0
  }

  function Provisionings(log: seq<Entry>, a: Id): nat {
    if log == [] then 0
    else Provisionings(log[..|log| - 1], a) + if IsProvisioned(log[|log| - 1], a) then 1 else 0
  }

  function AllReconciliations(log: seq<Entry>): nat {
    if log == [] then 0
    else AllReconciliations(log[..|log| - 1]) + if log[|log| - 1].action.AccountReconciled? then 1 else 0
  }

  predicate Live(h: Handler) { !h.Finished? }

  predicate TallyOk(db: Db, a: Id) {
    var r, p := Reconciliations(db.audit, a), Provisionings(db.audit, a);
    && r <= 1 && p <= 1
    && (IsActive(db, a) <==> r + p >= 1)
  }

  /** The request that created an account is the only one that may write `account.provisioned`. */
  ghost predicate OneHandlerEach(s: System) {
    && (forall i :: 0 <= i < |s.handlers| && Live(s.handlers[i]) ==>
          Provisionings(s.db.audit, s.handlers[i].account) == 0)
    && (forall i, j :: 0 <= i < j < |s.handlers| && Live(s.handlers[i]) && Live(s.handlers[j]) ==>
          s.handlers[i].account != s.handlers[j].account)
  }

  ghost predicate ReconciledFirst(log: seq<Entry>) {
    forall i, j, a :: 0 <= i < |log| && 0 <= j < |log| && IsReconciled(log[i], a) && IsProvisioned(log[j], a) ==> i < j
  }

  ghost predicate Tallied(s: System) {
    && Safe(s)
    && (forall a :: TallyOk(s.db, a))
    && OneHandlerEach(s)
    && ReconciledFirst(s.db.audit)
  }

  lemma {:induction false} NoProvisioningEntry(log: seq<Entry>, a: Id)
    requires Provisionings(log, a) == 0
    ensures forall j :: 0 <= j < |log| ==> !IsProvisioned(log[j], a)
  {
    if log != [] { NoProvisioningEntry(log[..|log| - 1], a); }
  }

  /** The tallies of the log after a change. */
  lemma TallyAfter(db: Db, c: Change, a: Id)
    requires Legal(db, c)
    ensures Reconciliations(Make(db, c).audit, a) == Reconciliations(db.audit, a) + if c.Reconciled? && c.id == a then 1 else 0
    ensures Provisionings(Make(db, c).audit, a) == Provisionings(db.audit, a) + if c.Provisioned? && c.id == a then 1 else 0
    ensures AllReconciliations(Make(db, c).audit) == AllReconciliations(db.audit) + if c.Reconciled? then 1 else 0
  {
    AuditAfter(db, c);
    if EntriesOf(db, c) != [] {
      EntryTells(db, c, a);
      TallySnoc(db.audit, EntriesOf(db, c)[0], a);
    } else {
      assert Make(db, c).audit == db.audit;
    }
  }

  lemma AuditAfter(db: Db, c: Change)
    requires Legal(db, c)
    ensures Make(db, c).audit == db.audit + EntriesOf(db, c) && |EntriesOf(db, c)| <= 1
    ensures EntriesOf(db, c) == [] ==> !c.Reconciled? && !c.Provisioned?
    ensures EntriesOf(db, c) != [] ==> EntriesOf(db, c) == [EntriesOf(db, c)[0]]
  {}

  lemma EntryTells(db: Db, c: Change, a: Id)
    requires Legal(db, c) && |EntriesOf(db, c)| == 1
    ensures var e := EntriesOf(db, c)[0];
            && (IsReconciled(e, a) <==> c.Reconciled? && c.id == a)
            && (IsProvisioned(e, a) <==> c.Provisioned? && c.id == a)
            && (e.action.AccountReconciled? <==> c.Reconciled?)
  {}

  lemma TallySnoc(log: seq<Entry>, e: Entry, a: Id)
    ensures Reconciliations(log + [e], a) == Reconciliations(log, a) + if IsReconciled(e, a) then 1 else 0
    ensures Provisionings(log + [e], a) == Provisionings(log, a) + if IsProvisioned(e, a) then 1 else 0
    ensures AllReconciliations(log + [e]) == AllReconciliations(log) + if e.action.AccountReconciled? then 1 else 0
  {
    assert (log + [e])[..|log|] == log;
  }

  /** How the requests in flight and a change of the store go together. */
  ghost predicate HandlerStep(s: System, s': System, c: Change) {
    && |s.handlers| <= |s'.handlers| <= |s.handlers| + 1
    && (forall i :: 0 <= i < |s.handlers| && Live(s'.handlers[i]) ==>
          Live(s.handlers[i]) && s'.handlers[i].account == s.handlers[i].account)
    && (|s'.handlers| > |s.handlers| && Live(s'.handlers[|s.handlers|]) ==>
          c.AddAccount? && s'.handlers[|s.handlers|].account == c.id)
    && (c.Provisioned? ==>
          exists h :: 0 <= h < |s.handlers| && Live(s.handlers[h]) && s.handlers[h].account == c.id && !Live(s'.handlers[h]))
  }

  lemma EveryEventIsAHandlerStep(s: System, e: Event)
    ensures HandlerStep(s, Apply(s, e), ChangeOf(s, e))
  {
    var s', c := Apply(s, e), ChangeOf(s, e);
    match e
    case AccountPost(t, id, req, actor, now, _) =>
      if CreateAccount(s.db, t, id, req, actor, now).Ok? { EffectOfAccountPost(s.db, t, id, req, actor, now); }
    case HandlerPersists(h) =>
      if c.Provisioned? { assert Live(s.handlers[h]) && s.handlers[h].account == c.id && !Live(s'.handlers[h]); }
    case _ =>
  }

  lemma HandlersStayApart(s: System, s': System, c: Change)
    requires Tallied(s) && Legal(s.db, c) && s'.db == Make(s.db, c) && HandlerStep(s, s', c)
    ensures OneHandlerEach(s')
  {
    forall i | 0 <= i < |s'.handlers| && Live(s'.handlers[i])
      ensures Provisionings(s'.db.audit, s'.handlers[i].account) == 0
    {
      TallyAfter(s.db, c, s'.handlers[i].account);
      if i >= |s.handlers| { assert TallyOk(s.db, s'.handlers[i].account); }
    }
    forall i, j | 0 <= i < j < |s'.handlers| && Live(s'.handlers[i]) && Live(s'.handlers[j])
      ensures s'.handlers[i].account != s'.handlers[j].account
    {
      assert HandlerOk(s.db, s.sesame, s.handlers[i]);
    }
  }

  lemma TalliesStayOk(s: System, s': System, c: Change, a: Id)
    requires Tallied(s) && Legal(s.db, c) && s'.db == Make(s.db, c) && HandlerStep(s, s', c)
    ensures TallyOk(s'.db, a)
  {
    if c.Provisioned? && c.id == a {
      var h :| 0 <= h < |s.handlers| && Live(s.handlers[h]) && s.handlers[h].account == c.id;
      assert Provisionings(s.db.audit, s.handlers[h].account) == 0;
    }
    assert TallyOk(s.db, a);
    TallyStaysOk(s.db, c, a);
  }

  lemma TallyStaysOk(db: Db, c: Change, a: Id)
    requires Legal(db, c) && TallyOk(db, a)
    requires c.Provisioned? && c.id == a ==> Provisionings(db.audit, a) == 0
    ensures TallyOk(Make(db, c), a)
  {
    TallyAfter(db, c, a);
    ActiveAfter(db, c, a);
  }

  lemma ActiveAfter(db: Db, c: Change, a: Id)
    requires Legal(db, c)
    ensures IsActive(Make(db, c), a) <==> IsActive(db, a) || ((c.Provisioned? || c.Reconciled?) && c.id == a)
    ensures c.Reconciled? ==> !IsActive(db, c.id)
  {}

  lemma OrderStaysOk(s: System, s': System, c: Change)
    requires Tallied(s) && Legal(s.db, c) && s'.db == Make(s.db, c)
    ensures ReconciledFirst(s'.db.audit)
  {
    if c.Reconciled? {
      assert TallyOk(s.db, c.id);
      NoProvisioningEntry(s.db.audit, c.id);
    }
  }

  lemma {:induction false} AlwaysTallied(events: seq<Event>)
    ensures Tallied(Run(Initial, events))
  {
    if events != [] {
      AlwaysTallied(events[..|events| - 1]);
      var s, e := Run(Initial, events[..|events| - 1]), events[|events| - 1];
      EventStaysSafe(s, e);
      var s', c := Apply(s, e), ChangeOf(s, e);
      EveryEventIsOneChange(s, e);
      EveryEventIsAHandlerStep(s, e);
      HandlersStayApart(s, s', c);
      forall a ensures TallyOk(s'.db, a) { TalliesStayOk(s, s', c, a); }
      OrderStaysOk(s, s', c);
    }
  }

  /** After any run: at most one `account.reconciled` and at most one `account.provisioned` entry
      per account, at least one of them exactly when it is active, and reconciled comes first when
      there are both. */
  lemma ActivationEntries(events: seq<Event>, a: Id)
    ensures var db := Run(Initial, events).db;
            && Reconciliations(db.audit, a) <= 1 && Provisionings(db.audit, a) <= 1
            && (IsActive(db, a) <==> Reconciliations(db.audit, a) + Provisionings(db.audit, a) >= 1)
            && ReconciledFirst(db.audit)
  {
    AlwaysTallied(events);
    assert TallyOk(Run(Initial, events).db, a);
  }

  // ------------------------------------------------------------------------
  // Counts
  // ------------------------------------------------------------------------

  function TotalActivated(ws: seq<Worker>): nat {
    if ws == [] then 0 else TotalActivated(ws[..|ws| - 1]) + ws[|ws| - 1].activated
  }

  function TotalReturned(ws: seq<Worker>): nat {
    if ws == [] then 0
    else TotalReturned(ws[..|ws| - 1]) + if ws[|ws| - 1].status == Returned then ws[|ws| - 1].activated else 0
  }

  lemma {:induction false} TotalAfterUpdate(ws: seq<Worker>, i: nat, w: Worker)
    requires i < |ws|
    ensures TotalActivated(ws[i := w]) == TotalActivated(ws) - ws[i].activated + w.activated
  {
    var us := ws[i := w];
    if i < |ws| - 1 {
      TotalAfterUpdate(ws[..|ws| - 1], i, w);
      assert us[..|us| - 1] == ws[..|ws| - 1][i := w];
    } else {
      assert us[..|us| - 1] == ws[..|ws| - 1];
    }
  }

  lemma {:induction false} ReturnedIsPart(ws: seq<Worker>)
    ensures TotalReturned(ws) <= TotalActivated(ws)
  {
    if ws != [] { ReturnedIsPart(ws[..|ws| - 1]); }
  }

  /** The positions a worker recorded are distinct `account.reconciled` entries, as many as it counted. */
  predicate WroteOk(log: seq<Entry>, w: Worker) {
    && |w.wrote| == w.activated
    && (forall k :: 0 <= k < |w.wrote| ==> w.wrote[k] < |log| && log[w.wrote[k]].action.AccountReconciled?)
    && (forall k, l :: 0 <= k < l < |w.wrote| ==> w.wrote[k] < w.wrote[l])
  }

  /** No audit row was written by both. */
  predicate Apart(w: Worker, x: Worker) {
    forall k, l :: 0 <= k < |w.wrote| && 0 <= l < |x.wrote| ==> w.wrote[k] != x.wrote[l]
  }

  ghost predicate Counted(s: System) {
    && (forall i :: 0 <= i < |s.workers| ==> WroteOk(s.db.audit, s.workers[i]))
    && (forall i, j :: 0 <= i < j < |s.workers| ==> Apart(s.workers[i], s.workers[j]))
    && AllReconciliations(s.db.audit) == TotalActivated(s.workers)
  }

  /** How the workers and a change of the store go together: only a persisting step counts, and it
      does so together with the entry it appends. `writer` is the worker that took the step. */
  ghost predicate WorkerStep(s: System, s': System, c: Change, writer: nat) {
    && (c.Reconciled? ==> writer < |s.workers|)
    && |s.workers| <= |s'.workers| <= |s.workers| + 1
    && (forall i :: 0 <= i < |s.workers| && i != writer ==> s'.workers[i] == s.workers[i])
    && (writer < |s.workers| ==> Counts(s.workers[writer], s'.workers[writer], c.Reconciled?, |s.db.audit|))
    && (|s'.workers| > |s.workers| ==> s'.workers[|s.workers|].activated == 0 && s'.workers[|s.workers|].wrote == [])
  }

  predicate Counts(w: Worker, w': Worker, counted: bool, position: nat) {
    if counted then w'.activated == w.activated + 1 && w'.wrote == w.wrote + [position]
    else w'.activated == w.activated && w'.wrote == w.wrote
  }

  function WriterOf(s: System, e: Event): nat {
    match e
    case WorkerCalls(w, _) => w
    case WorkerPersists(w) => w
    case WorkerReturns(w) => w
    case WorkerStops(w) => w
    case _ => |s.workers|
  }

  lemma EveryEventIsAWorkerStep(s: System, e: Event)
    ensures WorkerStep(s, Apply(s, e), ChangeOf(s, e), WriterOf(s, e))
  {}

  lemma WroteStaysOk(s: System, s': System, c: Change, writer: nat)
    requires Counted(s) && Legal(s.db, c) && s'.db == Make(s.db, c) && WorkerStep(s, s', c, writer)
    ensures forall i :: 0 <= i < |s'.workers| ==> WroteOk(s'.db.audit, s'.workers[i])
  {
    assert s'.db.audit == s.db.audit + EntriesOf(s.db, c);
    forall i | 0 <= i < |s'.workers| ensures WroteOk(s'.db.audit, s'.workers[i]) {
      if i < |s.workers| { assert WroteOk(s.db.audit, s.workers[i]); }
    }
  }

  lemma WroteStaysApart(s: System, s': System, c: Change, writer: nat)
    requires Counted(s) && Legal(s.db, c) && s'.db == Make(s.db, c) && WorkerStep(s, s', c, writer)
    ensures forall i, j :: 0 <= i < j < |s'.workers| ==> Apart(s'.workers[i], s'.workers[j])
  {
    var n := |s.db.audit|;
    forall i, j | 0 <= i < j < |s'.workers| ensures Apart(s'.workers[i], s'.workers[j]) {
      if j < |s.workers| {
        assert WroteOk(s.db.audit, s.workers[i]) && WroteOk(s.db.audit, s.workers[j]);
        assert Apart(s.workers[i], s.workers[j]);
        WrittenApart(s.workers[i], s.workers[j], s'.workers[i], s'.workers[j], n);
      }
    }
  }

  /** Of two workers at most one writes, at a position that is new to both. */
  lemma WrittenApart(w: Worker, x: Worker, w': Worker, x': Worker, n: nat)
    requires Apart(w, x)
    requires forall k :: 0 <= k < |w.wrote| ==> w.wrote[k] < n
    requires forall k :: 0 <= k < |x.wrote| ==> x.wrote[k] < n
    requires w'.wrote == w.wrote || (w'.wrote == w.wrote + [n] && x'.wrote == x.wrote)
    requires x'.wrote == x.wrote || (x'.wrote == x.wrote + [n] && w'.wrote == w.wrote)
    ensures Apart(w', x')
  {}

  lemma TotalStaysOk(s: System, s': System, c: Change, writer: nat)
    requires WorkerStep(s, s', c, writer)
    ensures TotalActivated(s'.workers) == TotalActivated(s.workers) + if c.Reconciled? then 1 else 0
  {
    var ws := s'.workers[..|s.workers|];
    if writer < |s.workers| {
      assert ws == s.workers[writer := s'.workers[writer]];
      TotalAfterUpdate(s.workers, writer, s'.workers[writer]);
    } else {
      assert ws == s.workers;
    }
    if |s'.workers| > |s.workers| { assert s'.workers[..|s'.workers| - 1] == ws; } else { assert ws == s'.workers; }
  }

  lemma CountsStayOk(s: System, e: Event)
    requires Counted(s)
    ensures Counted(Apply(s, e))
  {
    var s', c, writer := Apply(s, e), ChangeOf(s, e), WriterOf(s, e);
    EveryEventIsOneChange(s, e);
    EveryEventIsAWorkerStep(s, e);
    TallyAfter(s.db, c, 0);
    WroteStaysOk(s, s', c, writer);
    WroteStaysApart(s, s', c, writer);
    TotalStaysOk(s, s', c, writer);
  }

  lemma {:induction false} AlwaysCounted(events: seq<Event>)
    ensures Counted(Run(Initial, events))
  {
    if events != [] {
      AlwaysCounted(events[..|events| - 1]);
      CountsStayOk(Run(Initial, events[..|events| - 1]), events[|events| - 1]);
    }
  }

  /** After any run: each cycle's count is the number of `account.reconciled` entries it wrote, no
      two cycles wrote the same entry, and all counts together are the log's `account.reconciled`
      entries, so what the cycles returned never exceeds the log. */
  lemma ReturnedCountsAreTrue(events: seq<Event>)
    ensures var s := Run(Initial, events);
            && (forall i :: 0 <= i < |s.workers| ==> WroteOk(s.db.audit, s.workers[i]))
            && (forall i, j :: 0 <= i < j < |s.workers| ==> Apart(s.workers[i], s.workers[j]))
            && AllReconciliations(s.db.audit) == TotalActivated(s.workers)
            && TotalReturned(s.workers) <= AllReconciliations(s.db.audit)
  {
    AlwaysCounted(events);
    ReturnedIsPart(Run(Initial, events).workers);
  }
}

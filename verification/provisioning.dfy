/** Account provisioning under every interleaving of requests, reconcile workers, lost answers and
    crashes. One of the two activating updates checks the status and the other does not. */
module Provisioning {
  import opened Strings
  import opened Store
  import opened Protocol
  import opened Invariants

  ghost predicate DirectoryOk(sesame: Directory) {
    forall e, f :: e in sesame && f in sesame && sesame[e] == sesame[f] ==> e == f
  }

  predicate Knows(sesame: Directory, email: string, user: Id) { email in sesame && sesame[email] == user }

  predicate Owns(db: Db, a: Id, t: Id, email: string) {
    a in db.accounts && db.accounts[a].tenant == t && db.accounts[a].email == email
  }

  predicate HandlerOk(db: Db, sesame: Directory, h: Handler) {
    match h
    case Calling(t, a, email, _) => Owns(db, a, t, email)
    case Updating(t, a, email, _, user) => Owns(db, a, t, email) && Knows(sesame, email, user)
    case Finished => true
  }

  predicate RowsOk(db: Db, rows: seq<PendingRow>) {
    forall i :: 0 <= i < |rows| ==> Owns(db, rows[i].id, rows[i].tenant, rows[i].email)
  }

  predicate WorkerOk(db: Db, sesame: Directory, w: Worker) {
    && w.next <= |w.rows|
    && RowsOk(db, w.rows)
    && (w.answer.Some? ==> w.next < |w.rows| && Knows(sesame, w.rows[w.next].email, w.answer.value))
  }

  predicate IsActive(db: Db, a: Id) { a in db.accounts && db.accounts[a].status == AccountActive }

  predicate ActiveOk(sesame: Directory, a: Account) {
    a.status == AccountActive ==> a.sesameUser.Some? && Knows(sesame, a.email, a.sesameUser.value)
  }

  ghost predicate Safe(s: System) {
    && DirectoryOk(s.sesame)
    && (forall i :: 0 <= i < |s.handlers| ==> HandlerOk(s.db, s.sesame, s.handlers[i]))
    && (forall i :: 0 <= i < |s.workers| ==> WorkerOk(s.db, s.sesame, s.workers[i]))
    && (forall a :: a in s.db.accounts ==> ActiveOk(s.sesame, s.db.accounts[a]))
  }

  // ------------------------------------------------------------------------
  // What one event may do to an account and to sesame
  // ------------------------------------------------------------------------

  /** Everything known in the first directory is still known in the second. */
  predicate Extends(sesame: Directory, sesame': Directory) {
    forall e :: e in sesame ==> e in sesame' && sesame'[e] == sesame[e]
  }

  lemma ProvisionIsIdempotent(sesame: Directory, email: string, reply: Reply)
    requires DirectoryOk(sesame)
    ensures var (sesame', user) := Provision(sesame, email, reply);
            && DirectoryOk(sesame') && Extends(sesame, sesame')
            && (user.Some? ==> Knows(sesame', email, user.value))
  {}

  /** Both results of a call, for every reply: sesame gains at most the one user it was asked for,
      under an unused id; the caller learns an id only from an answer, and then the one sesame holds. */
  lemma ProvisionExactly(sesame: Directory, email: string, reply: Reply)
    ensures var (sesame', user) := Provision(sesame, email, reply);
            && sesame' == (if reply.Refused? || email in sesame || reply.newId in sesame.Values then sesame
                           else sesame[email := reply.newId])
            && user == (if reply.Answered? && email in sesame' then Some(sesame'[email]) else None)
  {}

  /** Accounts keep their tenant, domain, email and creation time, and activation is final. */
  ghost predicate AccountsKept(db: Db, db': Db) {
    forall a :: a in db.accounts ==>
      && a in db'.accounts
      && db'.accounts[a].tenant == db.accounts[a].tenant && db'.accounts[a].domain == db.accounts[a].domain
      && db'.accounts[a].email == db.accounts[a].email && db'.accounts[a].createdAt == db.accounts[a].createdAt
      && (db.accounts[a].status == AccountActive ==> db'.accounts[a].status == AccountActive)
  }

  lemma ChangeKeepsAccountColumns(db: Db, c: Change)
    requires Legal(db, c)
    ensures AccountsKept(db, Make(db, c))
  {}

  lemma EventKeepsAccounts(s: System, e: Event)
    ensures AccountsKept(s.db, Apply(s, e).db)
  {
    EveryEventIsOneChange(s, e);
    ChangeKeepsAccountColumns(s.db, ChangeOf(s, e));
  }

  lemma EventKeepsSesame(s: System, e: Event)
    requires DirectoryOk(s.sesame)
    ensures DirectoryOk(Apply(s, e).sesame) && Extends(s.sesame, Apply(s, e).sesame)
  {
    match e
    case HandlerCalls(h, reply) =>
      if h < |s.handlers| && s.handlers[h].Calling? { ProvisionIsIdempotent(s.sesame, s.handlers[h].email, reply); }
    case WorkerCalls(w, reply) =>
      if w < |s.workers| && Awaiting(s.workers[w]) {
        ProvisionIsIdempotent(s.sesame, s.workers[w].rows[s.workers[w].next].email, reply);
      }
    case _ =>
  }

  lemma HandlersStaySafe(s: System, e: Event)
    requires Safe(s)
    ensures forall i :: 0 <= i < |Apply(s, e).handlers| ==>
              HandlerOk(Apply(s, e).db, Apply(s, e).sesame, Apply(s, e).handlers[i])
  {
    var s' := Apply(s, e);
    EventKeepsAccounts(s, e);
    EventKeepsSesame(s, e);
    forall i | 0 <= i < |s'.handlers| ensures HandlerOk(s'.db, s'.sesame, s'.handlers[i]) {
      if i < |s.handlers| && s'.handlers[i] == s.handlers[i] {
        HandlerCarriesOver(s.db, s'.db, s.sesame, s'.sesame, s.handlers[i]);
      } else {
        MovedHandlerIsOk(s, e, i);
      }
    }
  }

  lemma HandlerCarriesOver(db: Db, db': Db, sesame: Directory, sesame': Directory, h: Handler)
    requires AccountsKept(db, db') && Extends(sesame, sesame') && HandlerOk(db, sesame, h)
    ensures HandlerOk(db', sesame', h)
  {}

  lemma MovedHandlerIsOk(s: System, e: Event, i: nat)
    requires Safe(s) && i < |Apply(s, e).handlers| && (i < |s.handlers| ==> Apply(s, e).handlers[i] != s.handlers[i])
    ensures HandlerOk(Apply(s, e).db, Apply(s, e).sesame, Apply(s, e).handlers[i])
  {
    if i < |s.handlers| {
      assert HandlerOk(s.db, s.sesame, s.handlers[i]);
      if e.HandlerCalls? && s.handlers[i].Calling? { ProvisionIsIdempotent(s.sesame, s.handlers[i].email, e.reply); }
    }
  }

  lemma WorkerCarriesOver(db: Db, db': Db, sesame: Directory, sesame': Directory, w: Worker)
    requires AccountsKept(db, db') && Extends(sesame, sesame') && WorkerOk(db, sesame, w)
    ensures WorkerOk(db', sesame', w)
  {
    assert forall i :: 0 <= i < |w.rows| ==> Owns(db, w.rows[i].id, w.rows[i].tenant, w.rows[i].email);
  }

  lemma WorkerCallStaysSafe(s: System, w: nat, reply: Reply)
    requires Safe(s) && w < |s.workers|
    ensures WorkerOk(s.db, WorkerCall(s, w, reply).sesame, WorkerCall(s, w, reply).workers[w])
  {
    assert WorkerOk(s.db, s.sesame, s.workers[w]);
    if Awaiting(s.workers[w]) {
      ProvisionIsIdempotent(s.sesame, s.workers[w].rows[s.workers[w].next].email, reply);
    }
  }

  lemma WorkersStaySafe(s: System, e: Event)
    requires Safe(s)
    ensures forall i :: 0 <= i < |Apply(s, e).workers| ==>
              WorkerOk(Apply(s, e).db, Apply(s, e).sesame, Apply(s, e).workers[i])
  {
    var s' := Apply(s, e);
    EventKeepsAccounts(s, e);
    EventKeepsSesame(s, e);
    forall i | 0 <= i < |s'.workers| ensures WorkerOk(s'.db, s'.sesame, s'.workers[i]) {
      if i < |s.workers| {
        assert WorkerOk(s.db, s.sesame, s.workers[i]);
        WorkerCarriesOver(s.db, s'.db, s.sesame, s'.sesame, s.workers[i]);
        if e.WorkerCalls? && e.w == i { WorkerCallStaysSafe(s, i, e.reply); }
      }
    }
  }

  lemma PersistedIdIsKnown(s: System, e: Event)
    requires Safe(s)
    ensures var c := ChangeOf(s, e);
            (c.Provisioned? || c.Reconciled?) && c.id in s.db.accounts ==> Knows(s.sesame, s.db.accounts[c.id].email, c.user)
  {
    if e.HandlerPersists? && e.h < |s.handlers| { assert HandlerOk(s.db, s.sesame, s.handlers[e.h]); }
    if e.WorkerPersists? && e.w < |s.workers| { assert WorkerOk(s.db, s.sesame, s.workers[e.w]); }
  }

  lemma ChangeKeepsActiveOk(db: Db, sesame: Directory, c: Change, a: Id)
    requires Legal(db, c) && a in Make(db, c).accounts && (a in db.accounts ==> ActiveOk(sesame, db.accounts[a]))
    requires (c.Provisioned? || c.Reconciled?) ==> Knows(sesame, db.accounts[c.id].email, c.user)
    ensures ActiveOk(sesame, Make(db, c).accounts[a])
  {}

  lemma ActiveStaySafe(s: System, e: Event)
    requires Safe(s)
    ensures forall a :: a in Apply(s, e).db.accounts ==> ActiveOk(Apply(s, e).sesame, Apply(s, e).db.accounts[a])
  {
    var s', c := Apply(s, e), ChangeOf(s, e);
    EveryEventIsOneChange(s, e);
    EventKeepsSesame(s, e);
    PersistedIdIsKnown(s, e);
    forall a | a in s'.db.accounts ensures ActiveOk(s'.sesame, s'.db.accounts[a]) {
      ChangeKeepsActiveOk(s.db, s.sesame, c, a);
      KnownStaysKnown(s.sesame, s'.sesame, s'.db.accounts[a]);
    }
  }

  lemma KnownStaysKnown(sesame: Directory, sesame': Directory, a: Account)
    requires Extends(sesame, sesame') && ActiveOk(sesame, a)
    ensures ActiveOk(sesame', a)
  {}

  lemma EventStaysSafe(s: System, e: Event)
    requires Safe(s)
    ensures Safe(Apply(s, e))
  {
    EventKeepsSesame(s, e);
    HandlersStaySafe(s, e);
    WorkersStaySafe(s, e);
    ActiveStaySafe(s, e);
  }

  lemma {:induction false} RunStaysSafe(s: System, events: seq<Event>)
    requires Safe(s)
    ensures Safe(Run(s, events))
  {
    if events != [] {
      RunStaysSafe(s, events[..|events| - 1]);
      EventStaysSafe(Run(s, events[..|events| - 1]), events[|events| - 1]);
    }
  }

  // ------------------------------------------------------------------------
  // Main results
  // ------------------------------------------------------------------------

  /** After any run, an active account carries the id sesame holds for its email, and no two
      accounts carry the same id. */
  lemma ActiveAccountsCarryTheirId(events: seq<Event>, a: Id)
    requires IsActive(Run(Initial, events).db, a)
    ensures var s := Run(Initial, events);
            && s.db.accounts[a].sesameUser.Some?
            && Knows(s.sesame, s.db.accounts[a].email, s.db.accounts[a].sesameUser.value)
            && forall b :: IsActive(s.db, b) && s.db.accounts[b].sesameUser == s.db.accounts[a].sesameUser ==> b == a
  {
    var s := Run(Initial, events);
    RunStaysSafe(Initial, events);
    TablesAlwaysOk(events);
    assert ActiveOk(s.sesame, s.db.accounts[a]);
    forall b | IsActive(s.db, b) && s.db.accounts[b].sesameUser == s.db.accounts[a].sesameUser ensures b == a {
      assert ActiveOk(s.sesame, s.db.accounts[b]);
      assert s.db.accounts[a].email == s.db.accounts[b].email;
    }
  }

  lemma {:induction false} RunKeepsAccounts(s: System, events: seq<Event>)
    requires DirectoryOk(s.sesame)
    ensures AccountsKept(s.db, Run(s, events).db) && Extends(s.sesame, Run(s, events).sesame)
    ensures DirectoryOk(Run(s, events).sesame)
  {
    if events != [] {
      var mid, e := Run(s, events[..|events| - 1]), events[|events| - 1];
      RunKeepsAccounts(s, events[..|events| - 1]);
      EventKeepsAccounts(mid, e);
      EventKeepsSesame(mid, e);
    }
  }

  /** Whatever happens later, an active account stays active with the same id. The handler's
      update may run again on an active account: it writes the id that is already there. */
  lemma ActivationIsFinal(before: seq<Event>, after: seq<Event>, a: Id)
    requires IsActive(Run(Initial, before).db, a)
    ensures var s, s' := Run(Initial, before), Run(Initial, before + after);
            IsActive(s'.db, a) && s'.db.accounts[a].sesameUser == s.db.accounts[a].sesameUser &&
            s'.db.accounts[a].email == s.db.accounts[a].email
  {
    var s := Run(Initial, before);
    RunConcat(Initial, before, after);
    RunStaysSafe(Initial, before);
    RunKeepsAccounts(s, after);
    ActiveAccountsCarryTheirId(before, a);
    ActiveAccountsCarryTheirId(before + after, a);
  }

  /** A handler that holds sesame's answer can always commit it: row-level security shows it the
      account, whatever the account's status is by then. */
  lemma HandlerPersistSucceeds(events: seq<Event>, h: nat)
    requires h < |Run(Initial, events).handlers| && Run(Initial, events).handlers[h].Updating?
    ensures var s := Run(Initial, events); var u := s.handlers[h];
            ProvisionAccount(s.db, u.tenant, u.account, u.user, u.actor).Ok? &&
            IsActive(Apply(s, HandlerPersists(h)).db, u.account) &&
            Apply(s, HandlerPersists(h)).db.accounts[u.account].sesameUser == Some(u.user)
  {
    var s := Run(Initial, events);
    RunStaysSafe(Initial, events);
    assert HandlerOk(s.db, s.sesame, s.handlers[h]);
    AccountAlwaysOk(events, s.handlers[h].account);
  }

  // ------------------------------------------------------------------------
  // From the request to the active account
  // ------------------------------------------------------------------------

  /** An accepted request creates the account and, exactly if sesame is configured, one handler that
      is about it; no other handler ever is. */
  lemma AcceptedPostStartsOneHandler(events: seq<Event>, t: Id, id: Id, req: NewAccount, actor: string, now: nat, configured: bool)
    requires var s := Run(Initial, events);
             id !in s.db.accounts && id in Apply(s, AccountPost(t, id, req, actor, now, configured)).db.accounts
    ensures var s, s' := Run(Initial, events), Apply(Run(Initial, events), AccountPost(t, id, req, actor, now, configured));
            && s'.handlers == s.handlers + (if configured then [Calling(t, id, s'.db.accounts[id].email, actor)] else [])
            && (forall h :: 0 <= h < |s'.handlers| && !s'.handlers[h].Finished? && s'.handlers[h].account == id ==>
                  configured && h == |s.handlers|)
            && s'.sesame == s.sesame && s'.workers == s.workers
            && s'.db.accounts[id].status == PendingProvisioning && s'.db.accounts[id].sesameUser == None
  {
    var s, s' := Run(Initial, events), Apply(Run(Initial, events), AccountPost(t, id, req, actor, now, configured));
    RunStaysSafe(Initial, events);
    EffectOfAccountPost(s.db, t, id, req, actor, now);
    forall h | 0 <= h < |s.handlers| ensures s.handlers[h].Finished? || s.handlers[h].account != id {
      assert HandlerOk(s.db, s.sesame, s.handlers[h]);
    }
  }

  /** The event is a step of handler `h`. */
  predicate StepOf(e: Event, h: nat) {
    (e.HandlerCalls? && e.h == h) || (e.HandlerPersists? && e.h == h) || (e.HandlerStops? && e.h == h)
  }

  lemma EventLeavesHandler(s: System, e: Event, h: nat)
    requires h < |s.handlers| && !StepOf(e, h)
    ensures h < |Apply(s, e).handlers| && Apply(s, e).handlers[h] == s.handlers[h]
  {}

  lemma {:induction false} HandlerWaits(s: System, events: seq<Event>, h: nat)
    requires h < |s.handlers| && forall k :: 0 <= k < |events| ==> !StepOf(events[k], h)
    ensures h < |Run(s, events).handlers| && Run(s, events).handlers[h] == s.handlers[h]
  {
    if events != [] {
      HandlerWaits(s, events[..|events| - 1], h);
      EventLeavesHandler(Run(s, events[..|events| - 1]), events[|events| - 1], h);
    }
  }

  /** What a handler's call does to the handler, for every reply. */
  lemma HandlerCallExactly(s: System, h: nat, reply: Reply)
    requires h < |s.handlers| && s.handlers[h].Calling?
    ensures var x, s' := s.handlers[h], Apply(s, HandlerCalls(h, reply));
            && s'.db == s.db && s'.workers == s.workers
            && s'.sesame == Provision(s.sesame, x.email, reply).0
            && s'.handlers == s.handlers[h := if reply.Answered? && x.email in s'.sesame
                                              then Updating(x.tenant, x.account, x.email, x.actor, s'.sesame[x.email])
                                              else Finished]
  {
    ProvisionExactly(s.sesame, s.handlers[h].email, reply);
  }

  /** An answered call and, after anything else, the update make the account active with the id
      sesame holds for its email. */
  lemma AnsweredHandlerActivates(events: seq<Event>, h: nat, newId: Id, later: seq<Event>)
    requires h < |Run(Initial, events).handlers| && Run(Initial, events).handlers[h].Calling?
    requires var s := Run(Initial, events); s.handlers[h].email in s.sesame || newId !in s.sesame.Values
    requires forall k :: 0 <= k < |later| ==> !StepOf(later[k], h)
    ensures var x := Run(Initial, events).handlers[h];
            var s' := Run(Initial, events + [HandlerCalls(h, Answered(newId))] + later + [HandlerPersists(h)]);
            && IsActive(s'.db, x.account) && x.email in s'.sesame
            && s'.db.accounts[x.account].sesameUser == Some(s'.sesame[x.email])
            && s'.db.accounts[x.account].email == x.email && s'.db.accounts[x.account].tenant == x.tenant
  {
    var s, e := Run(Initial, events), HandlerCalls(h, Answered(newId));
    var x := s.handlers[h];
    RunSnoc(Initial, events, e);
    HandlerCallExactly(s, h, Answered(newId));
    ProvisionExactly(s.sesame, x.email, Answered(newId));
    RunConcat(Initial, events + [e], later);
    HandlerWaits(Apply(s, e), later, h);
    PersistActivates(events + [e] + later, h);
  }

  lemma PersistActivates(events: seq<Event>, h: nat)
    requires h < |Run(Initial, events).handlers| && Run(Initial, events).handlers[h].Updating?
    ensures var x, s' := Run(Initial, events).handlers[h], Run(Initial, events + [HandlerPersists(h)]);
            && IsActive(s'.db, x.account) && x.email in s'.sesame
            && s'.db.accounts[x.account].sesameUser == Some(s'.sesame[x.email])
            && s'.db.accounts[x.account].email == x.email && s'.db.accounts[x.account].tenant == x.tenant
  {
    var s := Run(Initial, events);
    RunSnoc(Initial, events, HandlerPersists(h));
    HandlerPersistSucceeds(events, h);
    RunStaysSafe(Initial, events);
    assert HandlerOk(s.db, s.sesame, s.handlers[h]);
    EventKeepsAccounts(s, HandlerPersists(h));
  }

  /** The whole way, under every interleaving: an accepted request with sesame configured, anything
      else, an answered call, anything else, the update. */
  lemma PostedAccountIsActivated(events: seq<Event>, post: Event, mid: seq<Event>, newId: Id, later: seq<Event>)
    requires post.AccountPost? && post.sesameConfigured
    requires var s := Run(Initial, events); post.id !in s.db.accounts && post.id in Apply(s, post).db.accounts
    requires var h := |Run(Initial, events).handlers|;
             (forall k :: 0 <= k < |mid| ==> !StepOf(mid[k], h)) && (forall k :: 0 <= k < |later| ==> !StepOf(later[k], h))
    requires var s, email := Run(Initial, events + [post] + mid), Apply(Run(Initial, events), post).db.accounts[post.id].email;
             email in s.sesame || newId !in s.sesame.Values
    ensures var h, email := |Run(Initial, events).handlers|, Apply(Run(Initial, events), post).db.accounts[post.id].email;
            var s' := Run(Initial, events + [post] + mid + [HandlerCalls(h, Answered(newId))] + later + [HandlerPersists(h)]);
            && IsActive(s'.db, post.id) && email in s'.sesame
            && s'.db.accounts[post.id].sesameUser == Some(s'.sesame[email])
  {
    var h := |Run(Initial, events).handlers|;
    PostedHandlerWaits(events, post, mid);
    AnsweredHandlerActivates(events + [post] + mid, h, newId, later);
  }

  lemma PostedHandlerWaits(events: seq<Event>, post: Event, mid: seq<Event>)
    requires post.AccountPost? && post.sesameConfigured
    requires var s := Run(Initial, events); post.id !in s.db.accounts && post.id in Apply(s, post).db.accounts
    requires forall k :: 0 <= k < |mid| ==> !StepOf(mid[k], |Run(Initial, events).handlers|)
    ensures var h, email := |Run(Initial, events).handlers|, Apply(Run(Initial, events), post).db.accounts[post.id].email;
            var hs := Run(Initial, events + [post] + mid).handlers;
            h < |hs| && hs[h] == Calling(post.tenant, post.id, email, post.actor)
  {
    var s, h := Run(Initial, events), |Run(Initial, events).handlers|;
    AcceptedPostStartsOneHandler(events, post.tenant, post.id, post.req, post.actor, post.now, true);
    assert post == AccountPost(post.tenant, post.id, post.req, post.actor, post.now, true);
    RunSnoc(Initial, events, post);
    RunConcat(Initial, events + [post], mid);
    HandlerWaits(Apply(s, post), mid, h);
  }
}

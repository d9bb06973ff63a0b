/** Which pending accounts the reconcile loop reaches: exactly when the batch query can, must or
    cannot select one, and exactly when an account is activated while others keep failing. */
module Starvation {
  import opened Strings
  import opened Store
  import opened Protocol
  import opened Provisioning
  import opened Progress
  import ControlPlane

  /** The pending accounts strictly older than `a`. */
  function Older(db: Db, a: Id): set<Id>
    requires a in db.accounts
  {
    set p | p in Pending(db) && db.accounts[p].createdAt < db.accounts[a].createdAt
  }

  /** The other pending accounts at least as old as `a`. */
  function NotYounger(db: Db, a: Id): set<Id>
    requires a in db.accounts
  {
    set p | p in Pending(db) && p != a && db.accounts[p].createdAt <= db.accounts[a].createdAt
  }

  // ------------------------------------------------------------------------
  // One query
  // ------------------------------------------------------------------------

  lemma BatchAvoids(db: Db, batch: nat, ids: seq<Id>, a: Id)
    requires IsBatch(db, batch, ids) && a in db.accounts && |Older(db, a)| >= batch
    ensures a !in ids
  {
    if a in ids {
      var i :| 0 <= i < |ids| && ids[i] == a;
      assert forall p :: p in Older(db, a) ==> p in ids;
      ElementsCount(ids);
      assert Older(db, a) + {a} <= Elements(ids);
      SubsetSize(Older(db, a) + {a}, Elements(ids));
      assert false;
    }
  }

  lemma BatchIncludes(db: Db, batch: nat, ids: seq<Id>, a: Id)
    requires IsBatch(db, batch, ids) && a in Pending(db) && |NotYounger(db, a)| < batch
    ensures a in ids
  {
    if a !in ids {
      assert Elements(ids) <= NotYounger(db, a);
      ElementsCount(ids);
      SubsetSize(Elements(ids), NotYounger(db, a));
      assert NotYounger(db, a) <= Pending(db) - {a};
      SubsetSize(NotYounger(db, a), Pending(db) - {a});
      assert false;
    }
  }

  lemma OneMoreOldest(weight: map<Id, nat>, limit: nat, ids: seq<Id>, x: Id)
    requires ControlPlane.OldestFirst(weight, limit, ids) && |ids| == limit < |weight.Keys|
    requires x in weight && x !in ids && forall y :: y in weight && y !in ids ==> weight[x] <= weight[y]
    ensures ControlPlane.OldestFirst(weight, limit + 1, ids + [x])
  {
    var ids' := ids + [x];
    forall i, y | 0 <= i < |ids'| && y in weight && y !in ids' ensures weight[ids'[i]] <= weight[y] {
      assert y !in ids;
    }
  }

  lemma {:induction false} OldestFirstExist(weight: map<Id, nat>, limit: nat) returns (ids: seq<Id>)
    ensures ControlPlane.OldestFirst(weight, limit, ids)
  {
    if limit == 0 { return []; }
    ids := OldestFirstExist(weight, limit - 1);
    if |ids| < |weight.Keys| && |ids| == limit - 1 {
      var rest := weight.Keys - Elements(ids);
      ElementsCount(ids);
      SubsetSize(Elements(ids), weight.Keys);
      var x := ControlPlane.OldestExists(weight, rest);
      OneMoreOldest(weight, limit - 1, ids, x);
      ids := ids + [x];
    }
  }

  /** Creation time, with `a` before or after the accounts created at the same time. */
  function Weight(db: Db, a: Id, first: bool): map<Id, nat> {
    map p | p in Pending(db) :: 2 * db.accounts[p].createdAt + if (p == a) == first then 0 else 1
  }

  lemma SomeBatch(db: Db, batch: nat, a: Id, first: bool) returns (ids: seq<Id>)
    ensures IsBatch(db, batch, ids) && ControlPlane.OldestFirst(Weight(db, a, first), batch, ids)
  {
    var weight := Weight(db, a, first);
    ids := OldestFirstExist(weight, batch);
    assert weight.Keys == Pending(db);
    forall i, j | 0 <= i < j < |ids| ensures db.accounts[ids[i]].createdAt <= db.accounts[ids[j]].createdAt {
      assert weight[ids[i]] <= weight[ids[j]];
    }
    forall i, p | 0 <= i < |ids| && p in Pending(db) && p !in ids
      ensures db.accounts[ids[i]].createdAt <= db.accounts[p].createdAt
    {
      assert weight[ids[i]] <= weight[p];
    }
  }

  lemma BatchCanInclude(db: Db, batch: nat, a: Id) returns (ids: seq<Id>)
    requires a in Pending(db) && |Older(db, a)| < batch
    ensures IsBatch(db, batch, ids) && a in ids
  {
    ids := SomeBatch(db, batch, a, true);
    var weight := Weight(db, a, true);
    if a !in ids {
      forall i | 0 <= i < |ids| ensures ids[i] in Older(db, a) { assert weight[ids[i]] <= weight[a]; }
      assert Elements(ids) <= Older(db, a);
      ElementsCount(ids);
      SubsetSize(Elements(ids), Older(db, a));
      assert Older(db, a) <= Pending(db) - {a};
      SubsetSize(Older(db, a), Pending(db) - {a});
      assert false;
    }
  }

  lemma LastOfEquals(db: Db, batch: nat, ids: seq<Id>, a: Id)
    requires a in Pending(db) && a in ids && IsBatch(db, batch, ids)
    requires ControlPlane.OldestFirst(Weight(db, a, false), batch, ids)
    ensures NotYounger(db, a) + {a} <= Elements(ids)
  {
    var weight := Weight(db, a, false);
    var k :| 0 <= k < |ids| && ids[k] == a;
    forall p | p in NotYounger(db, a) ensures p in ids {
      assert weight[p] < weight[ids[k]];
    }
  }

  lemma BatchCanExclude(db: Db, batch: nat, a: Id) returns (ids: seq<Id>)
    requires a in Pending(db) && |NotYounger(db, a)| >= batch
    ensures IsBatch(db, batch, ids) && a !in ids
  {
    ids := SomeBatch(db, batch, a, false);
    if a in ids {
      LastOfEquals(db, batch, ids, a);
      ElementsCount(ids);
      SubsetSize(NotYounger(db, a) + {a}, Elements(ids));
      assert false;
    }
  }

  /** No answer of the query selects a pending account exactly when a batch of strictly older ones
      is pending; every answer selects it exactly when fewer than a batch are at least as old. In
      between the query's order of equal creation times decides. */
  lemma SelectedExactly(db: Db, batch: nat, a: Id)
    requires a in Pending(db)
    ensures (forall ids :: IsBatch(db, batch, ids) ==> a !in ids) <==> |Older(db, a)| >= batch
    ensures (forall ids :: IsBatch(db, batch, ids) ==> a in ids) <==> |NotYounger(db, a)| < batch
  {
    if |Older(db, a)| >= batch {
      forall ids | IsBatch(db, batch, ids) ensures a !in ids { BatchAvoids(db, batch, ids, a); }
    } else {
      var ids := BatchCanInclude(db, batch, a);
    }
    if |NotYounger(db, a)| < batch {
      forall ids | IsBatch(db, batch, ids) ensures a in ids { BatchIncludes(db, batch, ids, a); }
    } else {
      var ids := BatchCanExclude(db, batch, a);
    }
  }

  // ------------------------------------------------------------------------
  // Every run
  // ------------------------------------------------------------------------

  predicate AboutOther(h: Handler, a: Id) { h.Finished? || h.account != a }

  predicate Past(w: Worker, a: Id) {
    w.status == Looping ==> forall i :: w.next <= i < |w.rows| ==> w.rows[i].id != a
  }

  /** No request and no running cycle is still going to activate `a`. */
  predicate NobodyHolds(s: System, a: Id) {
    && (forall i :: 0 <= i < |s.handlers| ==> AboutOther(s.handlers[i], a))
    && (forall i :: 0 <= i < |s.workers| ==> Past(s.workers[i], a))
  }

  /** A batch of pending accounts strictly older than the pending account `a`. */
  predicate Ahead(db: Db, blockers: set<Id>, batch: nat, a: Id) {
    a in Pending(db) && blockers <= Older(db, a) && |blockers| >= batch
  }

  /** Cycles take at most `batch` rows. */
  predicate SmallStart(e: Event, batch: nat) { e.WorkerStarts? ==> e.batch <= batch }

  /** No cycle started after the first `n` selects `a`. */
  predicate Unselected(s: System, n: nat, a: Id) {
    forall w :: n <= w < |s.workers| ==> forall i :: 0 <= i < |s.workers[w].rows| ==> s.workers[w].rows[i].id != a
  }

  lemma HandlersStayElsewhere(s: System, e: Event, a: Id)
    requires NobodyHolds(s, a) && a in s.db.accounts
    ensures forall i :: 0 <= i < |Apply(s, e).handlers| ==> AboutOther(Apply(s, e).handlers[i], a)
  {
    var s' := Apply(s, e);
    forall i | 0 <= i < |s'.handlers| ensures AboutOther(s'.handlers[i], a) {
      if i < |s.handlers| { assert AboutOther(s.handlers[i], a); }
    }
  }

  lemma NewBatchAvoids(s: System, e: Event, blockers: set<Id>, batch: nat, a: Id)
    requires Ahead(s.db, blockers, batch, a) && SmallStart(e, batch)
    ensures |s.workers| <= |Apply(s, e).workers|
    ensures Unselected(Apply(s, e), |s.workers|, a)
  {
    if e.WorkerStarts? && IsBatch(s.db, e.batch, e.ids) {
      SubsetSize(blockers, Older(s.db, a));
      BatchAvoids(s.db, e.batch, e.ids, a);
    }
  }

  lemma WorkersStayPast(s: System, e: Event, blockers: set<Id>, batch: nat, a: Id)
    requires NobodyHolds(s, a) && Ahead(s.db, blockers, batch, a) && SmallStart(e, batch)
    ensures forall i :: 0 <= i < |Apply(s, e).workers| ==> Past(Apply(s, e).workers[i], a)
  {
    var s' := Apply(s, e);
    NewBatchAvoids(s, e, blockers, batch, a);
    forall i | 0 <= i < |s'.workers| ensures Past(s'.workers[i], a) {
      if i < |s.workers| {
        assert Past(s.workers[i], a);
        WorkerMoves(s, e, i);
      }
    }
  }

  lemma HandlerLeavesPending(s: System, h: nat, a: Id)
    requires NobodyHolds(s, a) && a in Pending(s.db)
    ensures a in Pending(Apply(s, HandlerPersists(h)).db)
  {
    if h < |s.handlers| { assert AboutOther(s.handlers[h], a); }
  }

  lemma WorkerLeavesPending(s: System, w: nat, a: Id)
    requires NobodyHolds(s, a) && a in Pending(s.db)
    ensures a in Pending(Apply(s, WorkerPersists(w)).db)
  {
    if w < |s.workers| { assert Past(s.workers[w], a); }
  }

  lemma StaysPending(s: System, e: Event, a: Id)
    requires NobodyHolds(s, a) && a in Pending(s.db)
    ensures a in Pending(Apply(s, e).db)
  {
    match e
    case HandlerPersists(h) => HandlerLeavesPending(s, h, a);
    case WorkerPersists(w) => WorkerLeavesPending(s, w, a);
    case _ => OtherEventsLeavePending(s, e, a);
  }

  lemma OtherEventsLeavePending(s: System, e: Event, a: Id)
    requires a in Pending(s.db) && !e.HandlerPersists? && !e.WorkerPersists?
    ensures a in Pending(Apply(s, e).db)
  {}

  lemma AheadStays(db: Db, db': Db, blockers: set<Id>, batch: nat, a: Id)
    requires Ahead(db, blockers, batch, a) && AccountsKept(db, db') && a in Pending(db') && blockers <= Pending(db')
    ensures Ahead(db', blockers, batch, a)
  {}

  lemma {:induction false} RowsOfOldWorkersStay(s: System, e: Event, n: nat, a: Id)
    requires n <= |s.workers| && Unselected(s, n, a) && Unselected(Apply(s, e), |s.workers|, a)
    requires |s.workers| <= |Apply(s, e).workers|
    ensures Unselected(Apply(s, e), n, a)
  {
    forall w | n <= w < |s.workers| ensures Apply(s, e).workers[w].rows == s.workers[w].rows { WorkerMoves(s, e, w); }
  }

  /** Whatever else runs: while a batch of strictly older accounts stays pending, no cycle selects
      `a`, and `a` stays pending unless someone held it already. */
  lemma {:induction false} BlockedStaysPending(s: System, events: seq<Event>, blockers: set<Id>, batch: nat, a: Id)
    requires DirectoryOk(s.sesame) && NobodyHolds(s, a) && Ahead(s.db, blockers, batch, a)
    requires forall k :: 0 <= k < |events| ==> SmallStart(events[k], batch)
    requires forall k :: 0 <= k <= |events| ==> blockers <= Pending(Run(s, events[..k]).db)
    ensures NobodyHolds(Run(s, events), a) && Ahead(Run(s, events).db, blockers, batch, a)
    ensures |s.workers| <= |Run(s, events).workers| && Unselected(Run(s, events), |s.workers|, a)
  {
    if events != [] {
      var init, e := events[..|events| - 1], events[|events| - 1];
      assert forall k :: 0 <= k <= |init| ==> init[..k] == events[..k];
      BlockedStaysPending(s, init, blockers, batch, a);
      RunKeepsAccounts(s, init);
      assert events[..|events|] == events;
      BlockedOneMore(Run(s, init), e, blockers, batch, a, |s.workers|);
    }
  }

  lemma BlockedOneMore(t: System, e: Event, blockers: set<Id>, batch: nat, a: Id, n: nat)
    requires NobodyHolds(t, a) && Ahead(t.db, blockers, batch, a) && SmallStart(e, batch)
    requires blockers <= Pending(Apply(t, e).db) && n <= |t.workers| && Unselected(t, n, a)
    ensures NobodyHolds(Apply(t, e), a) && Ahead(Apply(t, e).db, blockers, batch, a)
    ensures n <= |Apply(t, e).workers| && Unselected(Apply(t, e), n, a)
  {
    HandlersStayElsewhere(t, e, a);
    WorkersStayPast(t, e, blockers, batch, a);
    StaysPending(t, e, a);
    EventKeepsAccounts(t, e);
    AheadStays(t.db, Apply(t, e).db, blockers, batch, a);
    NewBatchAvoids(t, e, blockers, batch, a);
    RowsOfOldWorkersStay(t, e, n, a);
  }

  // ------------------------------------------------------------------------
  // The exact condition
  // ------------------------------------------------------------------------

  function EventsOf(rounds: seq<Round>): seq<Event> {
    if rounds == [] then []
    else EventsOf(rounds[..|rounds| - 1]) + (rounds[|rounds| - 1].idle + rounds[|rounds| - 1].cycle)
  }

  lemma {:induction false} RoundsAreRuns(s: System, rounds: seq<Round>)
    ensures AfterAll(s, rounds) == Run(s, EventsOf(rounds))
  {
    if rounds != [] {
      var init, r := rounds[..|rounds| - 1], rounds[|rounds| - 1];
      RoundsAreRuns(s, init);
      RunConcat(s, EventsOf(init), r.idle + r.cycle);
      RunConcat(Run(s, EventsOf(init)), r.idle, r.cycle);
    }
  }

  /** All accounts created no later than `a`. */
  function UpTo(db: Db, a: Id): set<Id>
    requires a in db.accounts
  {
    set x | x in db.accounts && db.accounts[x].createdAt <= db.accounts[a].createdAt
  }

  function StrictlyOlder(db: Db, a: Id, failing: set<Id>): set<Id>
    requires a in db.accounts && failing <= db.accounts.Keys
  {
    set f | f in failing && db.accounts[f].createdAt < db.accounts[a].createdAt
  }

  /** The failing accounts are never activated during the run. */
  ghost predicate KeepFailing(s: System, events: seq<Event>, failing: set<Id>) {
    forall k :: 0 <= k <= |events| ==> failing <= Pending(Run(s, events[..k]).db)
  }

  /** Enough error-free cycles of one batch size, interleaved with anything else, in which of the
      accounts created no later than `a` only those in `failing` are refused, and those always. */
  ghost predicate EnoughCycles(s: System, batch: nat, a: Id, failing: set<Id>, rounds: seq<Round>)
    requires a in s.db.accounts
  {
    var group := UpTo(s.db, a);
    && failing <= group
    && GoodRounds(s, batch, group, failing, rounds)
    && KeepFailing(s, EventsOf(rounds), failing)
    && (forall k :: 0 <= k < |EventsOf(rounds)| ==> SmallStart(EventsOf(rounds)[k], batch))
    && (|failing| < batch ==> |rounds| >= CeilDiv(|Waiting(s.db, group, failing)|, batch - |failing|))
  }

  lemma FewFailingIsActivated(s: System, batch: nat, a: Id, failing: set<Id>, rounds: seq<Round>)
    requires DirectoryOk(s.sesame) && a in Pending(s.db) && a !in failing && EnoughCycles(s, batch, a, failing, rounds)
    requires |failing| < batch
    ensures IsActive(AfterAll(s, rounds).db, a)
  {
    EveryoneElseIsActivated(s, batch, UpTo(s.db, a), failing, rounds);
  }

  lemma ManyFailingBlock(s: System, batch: nat, a: Id, failing: set<Id>, rounds: seq<Round>)
    requires DirectoryOk(s.sesame) && a in Pending(s.db) && NobodyHolds(s, a) && EnoughCycles(s, batch, a, failing, rounds)
    requires |StrictlyOlder(s.db, a, failing)| >= batch
    ensures a in Pending(AfterAll(s, rounds).db) && Unselected(AfterAll(s, rounds), |s.workers|, a)
  {
    var blockers, events := StrictlyOlder(s.db, a, failing), EventsOf(rounds);
    assert events[..0] == [] && Run(s, []) == s;
    assert blockers <= Older(s.db, a);
    RoundsAreRuns(s, rounds);
    BlockedStaysPending(s, events, blockers, batch, a);
  }

  /** When an account that sesame would take gets activated, for every run with enough cycles:
      certainly if fewer than a batch of the accounts created no later keep failing, certainly
      not (and no cycle even selects it) if a batch of strictly older ones does. Without equal
      creation times: exactly if fewer than a batch of older accounts keep failing. */
  lemma ActivatedExactly(s: System, batch: nat, a: Id, failing: set<Id>, rounds: seq<Round>)
    requires DirectoryOk(s.sesame) && a in Pending(s.db) && a !in failing && NobodyHolds(s, a)
    requires EnoughCycles(s, batch, a, failing, rounds)
    ensures |failing| < batch ==> IsActive(AfterAll(s, rounds).db, a)
    ensures |StrictlyOlder(s.db, a, failing)| >= batch ==>
              a in Pending(AfterAll(s, rounds).db) && Unselected(AfterAll(s, rounds), |s.workers|, a)
    ensures (forall f :: f in failing ==> s.db.accounts[f].createdAt != s.db.accounts[a].createdAt) ==>
              (IsActive(AfterAll(s, rounds).db, a) <==> |StrictlyOlder(s.db, a, failing)| < batch)
  {
    if |failing| < batch { FewFailingIsActivated(s, batch, a, failing, rounds); }
    if |StrictlyOlder(s.db, a, failing)| >= batch { ManyFailingBlock(s, batch, a, failing, rounds); }
    if forall f :: f in failing ==> s.db.accounts[f].createdAt != s.db.accounts[a].createdAt {
      assert StrictlyOlder(s.db, a, failing) == failing;
    }
  }

  // ------------------------------------------------------------------------
  // Such runs exist
  // ------------------------------------------------------------------------

  /** Events of a cycle whose calls are all refused. */
  predicate Quiet(e: Event) {
    e.WorkerStarts? || e.WorkerReturns? || (e.WorkerCalls? && e.reply == Refused)
  }

  lemma {:induction false} QuietChangesNothing(s: System, events: seq<Event>)
    requires forall k :: 0 <= k < |events| ==> Quiet(events[k])
    ensures Run(s, events).db == s.db && Run(s, events).sesame == s.sesame
  {
    if events != [] { QuietChangesNothing(s, events[..|events| - 1]); }
  }

  lemma {:induction false} RefusedCallsAreQuiet(s: System, batch: nat, ids: seq<Id>, n: nat)
    ensures forall k :: 0 <= k < |RefusedCalls(s, batch, ids, n)| ==>
              Quiet(RefusedCalls(s, batch, ids, n)[k]) && SmallStart(RefusedCalls(s, batch, ids, n)[k], batch)
  {
    if n > 0 { RefusedCallsAreQuiet(s, batch, ids, n - 1); }
  }

  lemma StarvedRoundIsGood(s: System, batch: nat, ids: seq<Id>, group: set<Id>)
    requires IsBatch(s.db, batch, ids) && Oldest(s.db, group)
    ensures var r := Round([], ids, StarvedCycle(s, batch, ids));
            GoodRound(s, batch, group, Elements(ids), r) && After(s, r).db == s.db
  {
    HeadOfLineBlocks(s, batch, ids, group);
    assert Run(s, []) == s;
  }

  lemma OneMoreGoodRound(s: System, batch: nat, group: set<Id>, failing: set<Id>, init: seq<Round>, r: Round)
    requires GoodRounds(s, batch, group, failing, init) && GoodRound(AfterAll(s, init), batch, group, failing, r)
    ensures GoodRounds(s, batch, group, failing, init + [r])
    ensures AfterAll(s, init + [r]) == After(AfterAll(s, init), r)
  {
    assert (init + [r])[..|init|] == init;
  }

  ghost predicate AllQuiet(events: seq<Event>, batch: nat) {
    forall k :: 0 <= k < |events| ==> Quiet(events[k]) && SmallStart(events[k], batch)
  }

  lemma StarvedRoundIsQuiet(s: System, batch: nat, ids: seq<Id>, init: seq<Round>)
    requires AllQuiet(EventsOf(init), batch)
    ensures AllQuiet(EventsOf(init + [Round([], ids, StarvedCycle(s, batch, ids))]), batch)
  {
    var r := Round([], ids, StarvedCycle(s, batch, ids));
    RefusedCallsAreQuiet(s, batch, ids, |ids|);
    assert (init + [r])[..|init|] == init;
    assert EventsOf(init + [r]) == EventsOf(init) + ([] + StarvedCycle(s, batch, ids));
  }

  /** Error-free cycles, refused throughout and without effect. */
  ghost predicate Starved(s: System, batch: nat, group: set<Id>, failing: set<Id>, rounds: seq<Round>) {
    GoodRounds(s, batch, group, failing, rounds) && AfterAll(s, rounds).db == s.db && AllQuiet(EventsOf(rounds), batch)
  }

  lemma OneMoreStarvedRound(s: System, batch: nat, ids: seq<Id>, group: set<Id>, init: seq<Round>) returns (rounds: seq<Round>)
    requires IsBatch(s.db, batch, ids) && Oldest(s.db, group) && Starved(s, batch, group, Elements(ids), init)
    ensures |rounds| == |init| + 1 && Starved(s, batch, group, Elements(ids), rounds)
  {
    var mid := AfterAll(s, init);
    var r := Round([], ids, StarvedCycle(mid, batch, ids));
    StarvedRoundIsGood(mid, batch, ids, group);
    OneMoreGoodRound(s, batch, group, Elements(ids), init, r);
    StarvedRoundIsQuiet(mid, batch, ids, init);
    rounds := init + [r];
  }

  lemma StarvedRounds(s: System, batch: nat, ids: seq<Id>, group: set<Id>, n: nat) returns (rounds: seq<Round>)
    requires IsBatch(s.db, batch, ids) && Oldest(s.db, group)
    ensures |rounds| == n && Starved(s, batch, group, Elements(ids), rounds)
  {
    rounds := [];
    for i := 0 to n
      invariant |rounds| == i && Starved(s, batch, group, Elements(ids), rounds)
    {
      rounds := OneMoreStarvedRound(s, batch, ids, group, rounds);
    }
  }

  lemma QuietKeepsFailing(s: System, events: seq<Event>, batch: nat, failing: set<Id>)
    requires AllQuiet(events, batch) && failing <= Pending(s.db)
    ensures KeepFailing(s, events, failing)
  {
    forall k | 0 <= k <= |events| ensures failing <= Pending(Run(s, events[..k]).db) { QuietChangesNothing(s, events[..k]); }
  }

  /** Such runs exist, of any length: if the refused batch at the head is strictly older than `a`,
      any number of error-free cycles in a row change nothing at all. */
  lemma StarvationCanLast(s: System, batch: nat, ids: seq<Id>, a: Id, n: nat) returns (rounds: seq<Round>)
    requires IsBatch(s.db, batch, ids) && |ids| == batch && a in Pending(s.db)
    requires forall i :: 0 <= i < |ids| ==> s.db.accounts[ids[i]].createdAt < s.db.accounts[a].createdAt
    ensures |rounds| == n && AfterAll(s, rounds).db == s.db
    ensures EnoughCycles(s, batch, a, Elements(ids), rounds) && |StrictlyOlder(s.db, a, Elements(ids))| >= batch
  {
    var failing := Elements(ids);
    rounds := StarvedRounds(s, batch, ids, UpTo(s.db, a), n);
    QuietKeepsFailing(s, EventsOf(rounds), batch, failing);
    ElementsCount(ids);
    assert StrictlyOlder(s.db, a, failing) == failing;
  }

  // ------------------------------------------------------------------------
  // Equal creation times: what can happen
  // ------------------------------------------------------------------------

  /** Every account's tenant exists, as in every reachable store. */
  predicate Housed(db: Db) { forall x :: x in db.accounts ==> db.accounts[x].tenant in db.tenants }

  /** The same accounts with the same tenants, emails and creation times. */
  predicate SameAccounts(db: Db, db': Db) {
    && db'.tenants == db.tenants && db'.accounts.Keys == db.accounts.Keys
    && forall x :: x in db.accounts ==>
         && db'.accounts[x].tenant == db.accounts[x].tenant && db'.accounts[x].email == db.accounts[x].email
         && db'.accounts[x].createdAt == db.accounts[x].createdAt
  }

  /** A cycle started at `t` on `ids` has done `i` rows: it activated all but the failing ones. */
  predicate Halfway(t: System, u: System, ids: seq<Id>, failing: set<Id>, i: nat)
    requires forall k :: 0 <= k < |ids| ==> ids[k] in t.db.accounts
  {
    && i <= |ids| && |u.workers| == |t.workers| + 1
    && (var w := u.workers[|t.workers|];
        w.status == Looping && w.rows == RowsOf(t.db, ids) && w.next == i && w.answer == None && w.failed <= failing)
    && SameAccounts(t.db, u.db)
    && Pending(u.db) == Pending(t.db) - (Elements(ids[..i]) - failing)
  }

  lemma {:induction false} FreshId(used: set<Id>) returns (n: Id)
    ensures forall x :: x in used ==> x < n
  {
    if used == {} { return 0; }
    var x :| x in used;
    var m := FreshId(used - {x});
    n := if m > x then m else x + 1;
    forall y | y in used ensures y < n { assert y == x || y in used - {x}; }
  }

  lemma ElementsSnoc(ids: seq<Id>, i: nat)
    requires i < |ids|
    ensures Elements(ids[..i + 1]) == Elements(ids[..i]) + {ids[i]}
  {
    forall x ensures x in Elements(ids[..i + 1]) <==> x in Elements(ids[..i]) + {ids[i]} {
      if x in Elements(ids[..i]) {
        var k :| 0 <= k < i && ids[..i][k] == x;
        assert ids[..i + 1][k] == x;
      }
      assert ids[..i + 1][i] == ids[i];
    }
  }

  lemma CycleStarted(t: System, batch: nat, ids: seq<Id>, failing: set<Id>)
    requires IsBatch(t.db, batch, ids)
    ensures Halfway(t, Apply(t, WorkerStarts(batch, ids)), ids, failing, 0)
  {
    assert Elements(ids[..0]) == {};
  }

  lemma RowRefused(t: System, u: System, ids: seq<Id>, failing: set<Id>, i: nat)
    requires (forall k :: 0 <= k < |ids| ==> ids[k] in t.db.accounts) && i < |ids|
    requires Halfway(t, u, ids, failing, i) && ids[i] in failing
    ensures Halfway(t, Apply(u, WorkerCalls(|t.workers|, Refused)), ids, failing, i + 1)
    ensures Apply(u, WorkerCalls(|t.workers|, Refused)).db == u.db
  {
    ElementsSnoc(ids, i);
  }

  /** The worker has sesame's answer for row `i`. */
  predicate Answering(t: System, u: System, ids: seq<Id>, failing: set<Id>, i: nat)
    requires forall k :: 0 <= k < |ids| ==> ids[k] in t.db.accounts
  {
    && i < |ids| && |u.workers| == |t.workers| + 1
    && u.workers[|t.workers|].answer.Some?
    && Halfway(t, u.(workers := u.workers[|t.workers| := u.workers[|t.workers|].(answer := None)]), ids, failing, i)
  }

  lemma RowAnswered(t: System, u: System, ids: seq<Id>, failing: set<Id>, i: nat, newId: Id)
    requires (forall k :: 0 <= k < |ids| ==> ids[k] in t.db.accounts) && i < |ids|
    requires Halfway(t, u, ids, failing, i) && newId !in u.sesame.Values
    ensures Answering(t, Apply(u, WorkerCalls(|t.workers|, Answered(newId))), ids, failing, i)
    ensures Apply(u, WorkerCalls(|t.workers|, Answered(newId))).db == u.db
  {
    var u' := Apply(u, WorkerCalls(|t.workers|, Answered(newId)));
    assert u'.workers[|t.workers| := u'.workers[|t.workers|].(answer := None)] == u.workers;
  }

  lemma RowPersisted(t: System, u: System, ids: seq<Id>, failing: set<Id>, i: nat)
    requires (forall k :: 0 <= k < |ids| ==> ids[k] in t.db.accounts) && Housed(t.db)
    requires forall k :: 0 <= k < |ids| ==> ids[k] in Pending(t.db)
    requires forall k, l :: 0 <= k < l < |ids| ==> ids[k] != ids[l]
    requires Answering(t, u, ids, failing, i) && ids[i] !in failing
    ensures Halfway(t, Apply(u, WorkerPersists(|t.workers|)), ids, failing, i + 1)
  {
    ElementsSnoc(ids, i);
    var w := u.workers[|t.workers|];
    assert w.rows[i] == RowOf(t.db, ids[i]);
    assert ids[i] in Pending(u.db);
    var r := ReconcileAccount(u.db, w.rows[i].tenant, w.rows[i].id, w.answer.value);
    assert r.Ok? && r.value.1;
    var u' := Apply(u, WorkerPersists(|t.workers|));
    assert u'.db == r.value.0;
    assert Pending(u'.db) == Pending(u.db) - {ids[i]};
  }

  lemma KeepFailingNothing(s: System, failing: set<Id>)
    requires failing <= Pending(s.db)
    ensures KeepFailing(s, [], failing)
  {
    var none: seq<Event> := [];
    assert forall k :: 0 <= k <= 0 ==> none[..k] == none;
  }

  lemma KeepFailingSnoc(s: System, events: seq<Event>, e: Event, failing: set<Id>)
    requires KeepFailing(s, events, failing) && failing <= Pending(Apply(Run(s, events), e).db)
    ensures KeepFailing(s, events + [e], failing) && Run(s, events + [e]) == Apply(Run(s, events), e)
  {
    var events' := events + [e];
    RunSnoc(s, events, e);
    forall k | 0 <= k <= |events'| ensures failing <= Pending(Run(s, events'[..k]).db) {
      if k <= |events| { assert events'[..k] == events[..k]; } else { assert events'[..k] == events'; }
    }
  }

  /** The events so far of a cycle at `t` on `ids`. */
  ghost predicate Cycling(t: System, batch: nat, ids: seq<Id>, failing: set<Id>, i: nat, events: seq<Event>)
    requires forall k :: 0 <= k < |ids| ==> ids[k] in t.db.accounts
  {
    && events != [] && events[0] == WorkerStarts(batch, ids)
    && (forall k :: 0 <= k < |events| ==> SmallStart(events[k], batch))
    && KeepFailing(t, events, failing)
    && Halfway(t, Run(t, events), ids, failing, i)
  }

  lemma CyclingMore(t: System, batch: nat, ids: seq<Id>, failing: set<Id>, events: seq<Event>, e: Event)
    requires events != [] && events[0] == WorkerStarts(batch, ids) && KeepFailing(t, events, failing) && SmallStart(e, batch)
    requires forall k :: 0 <= k < |events| ==> SmallStart(events[k], batch)
    requires failing <= Pending(Apply(Run(t, events), e).db)
    ensures var events' := events + [e];
            && events'[0] == WorkerStarts(batch, ids) && KeepFailing(t, events', failing)
            && (forall k :: 0 <= k < |events'| ==> SmallStart(events'[k], batch))
            && Run(t, events') == Apply(Run(t, events), e)
  {
    KeepFailingSnoc(t, events, e, failing);
  }

  lemma FailingStaysHalfway(t: System, u: System, ids: seq<Id>, failing: set<Id>, i: nat)
    requires forall k :: 0 <= k < |ids| ==> ids[k] in t.db.accounts
    requires Halfway(t, u, ids, failing, i) && failing <= Pending(t.db)
    ensures failing <= Pending(u.db)
  {}

  lemma OneRowRefused(t: System, batch: nat, ids: seq<Id>, failing: set<Id>, i: nat, events: seq<Event>) returns (events': seq<Event>)
    requires IsBatch(t.db, batch, ids) && failing <= Pending(t.db) && i < |ids| && ids[i] in failing
    requires Cycling(t, batch, ids, failing, i, events)
    ensures Cycling(t, batch, ids, failing, i + 1, events')
  {
    var u, call := Run(t, events), WorkerCalls(|t.workers|, Refused);
    RowRefused(t, u, ids, failing, i);
    FailingStaysHalfway(t, u, ids, failing, i);
    CyclingMore(t, batch, ids, failing, events, call);
    events' := events + [call];
  }

  lemma OneRowAnswered(t: System, batch: nat, ids: seq<Id>, failing: set<Id>, i: nat, events: seq<Event>) returns (events': seq<Event>)
    requires IsBatch(t.db, batch, ids) && Housed(t.db) && failing <= Pending(t.db) && i < |ids| && ids[i] !in failing
    requires Cycling(t, batch, ids, failing, i, events)
    ensures Cycling(t, batch, ids, failing, i + 1, events')
  {
    var u := Run(t, events);
    var newId := FreshId(u.sesame.Values);
    var call, persist := WorkerCalls(|t.workers|, Answered(newId)), WorkerPersists(|t.workers|);
    RowAnswered(t, u, ids, failing, i, newId);
    FailingStaysHalfway(t, u, ids, failing, i);
    CyclingMore(t, batch, ids, failing, events, call);
    var v := Apply(u, call);
    RowPersisted(t, v, ids, failing, i);
    FailingStaysHalfway(t, Apply(v, persist), ids, failing, i + 1);
    CyclingMore(t, batch, ids, failing, events + [call], persist);
    events' := events + [call] + [persist];
  }

  lemma OneRowMore(t: System, batch: nat, ids: seq<Id>, failing: set<Id>, i: nat, events: seq<Event>) returns (events': seq<Event>)
    requires IsBatch(t.db, batch, ids) && Housed(t.db) && failing <= Pending(t.db) && i < |ids|
    requires Cycling(t, batch, ids, failing, i, events)
    ensures Cycling(t, batch, ids, failing, i + 1, events')
  {
    if ids[i] in failing {
      events' := OneRowRefused(t, batch, ids, failing, i, events);
    } else {
      events' := OneRowAnswered(t, batch, ids, failing, i, events);
    }
  }

  lemma CycleReturned(t: System, u: System, ids: seq<Id>, failing: set<Id>)
    requires forall k :: 0 <= k < |ids| ==> ids[k] in t.db.accounts
    requires Halfway(t, u, ids, failing, |ids|)
    ensures var v := Apply(u, WorkerReturns(|t.workers|));
            && v.db == u.db && |v.workers| == |t.workers| + 1
            && v.workers[|t.workers|].status == Returned && v.workers[|t.workers|].failed <= failing
  {}

  lemma CycleBegun(t: System, batch: nat, ids: seq<Id>, failing: set<Id>)
    requires IsBatch(t.db, batch, ids) && failing <= Pending(t.db)
    ensures Cycling(t, batch, ids, failing, 0, [WorkerStarts(batch, ids)])
  {
    var e := WorkerStarts(batch, ids);
    CycleStarted(t, batch, ids, failing);
    assert [] + [e] == [e];
    KeepFailingNothing(t, failing);
    KeepFailingSnoc(t, [], e, failing);
  }

  /** A whole cycle on any batch, in which exactly the failing accounts are refused. */
  lemma SomeCycle(t: System, batch: nat, ids: seq<Id>, failing: set<Id>, group: set<Id>) returns (events: seq<Event>)
    requires IsBatch(t.db, batch, ids) && Housed(t.db) && failing <= Pending(t.db)
    ensures IsCycle(t, batch, ids, events, group, failing) && KeepFailing(t, events, failing)
    ensures forall k :: 0 <= k < |events| ==> SmallStart(events[k], batch)
    ensures SameAccounts(t.db, Run(t, events).db) && Pending(Run(t, events).db) == Pending(t.db) - (Elements(ids) - failing)
  {
    CycleBegun(t, batch, ids, failing);
    events := [WorkerStarts(batch, ids)];
    for i := 0 to |ids|
      invariant Cycling(t, batch, ids, failing, i, events)
    {
      events := OneRowMore(t, batch, ids, failing, i, events);
    }
    assert ids[..|ids|] == ids;
    CycleReturned(t, Run(t, events), ids, failing);
    KeepFailingSnoc(t, events, WorkerReturns(|t.workers|), failing);
    events := events + [WorkerReturns(|t.workers|)];
  }

  // ------------------------------------------------------------------------
  // Rounds of such cycles
  // ------------------------------------------------------------------------

  /** Error-free cycles from `s` in which exactly the failing accounts are refused. */
  ghost predicate Going(s: System, batch: nat, a: Id, failing: set<Id>, rounds: seq<Round>)
    requires a in s.db.accounts
  {
    && GoodRounds(s, batch, UpTo(s.db, a), failing, rounds)
    && KeepFailing(s, EventsOf(rounds), failing)
    && (forall k :: 0 <= k < |EventsOf(rounds)| ==> SmallStart(EventsOf(rounds)[k], batch))
    && SameAccounts(s.db, AfterAll(s, rounds).db)
  }

  lemma KeepFailingConcat(s: System, before: seq<Event>, after: seq<Event>, failing: set<Id>)
    requires KeepFailing(s, before, failing) && KeepFailing(Run(s, before), after, failing)
    ensures KeepFailing(s, before + after, failing)
  {
    var events := before + after;
    forall k | 0 <= k <= |events| ensures failing <= Pending(Run(s, events[..k]).db) {
      if k <= |before| {
        assert events[..k] == before[..k];
      } else {
        assert events[..k] == before + after[..k - |before|];
        RunConcat(s, before, after[..k - |before|]);
      }
    }
  }

  lemma OldestStays(db: Db, db': Db, a: Id)
    requires a in db.accounts && SameAccounts(db, db')
    ensures Oldest(db', UpTo(db, a))
  {}

  lemma EventsSnoc(rounds: seq<Round>, r: Round)
    requires r.idle == []
    ensures EventsOf(rounds + [r]) == EventsOf(rounds) + r.cycle
  {
    assert (rounds + [r])[..|rounds|] == rounds;
    assert [] + r.cycle == r.cycle;
  }

  /** A cycle from `t` that fits. */
  ghost predicate Fits(t: System, batch: nat, group: set<Id>, failing: set<Id>, r: Round) {
    && r.idle == [] && IsCycle(t, batch, r.ids, r.cycle, group, failing) && KeepFailing(t, r.cycle, failing)
    && (forall k :: 0 <= k < |r.cycle| ==> SmallStart(r.cycle[k], batch))
    && SameAccounts(t.db, Run(t, r.cycle).db)
  }

  lemma FittingIsGood(t: System, batch: nat, group: set<Id>, failing: set<Id>, r: Round)
    requires Fits(t, batch, group, failing, r) && Oldest(t.db, group)
    ensures GoodRound(t, batch, group, failing, r) && After(t, r) == Run(t, r.cycle)
  {
    assert Run(t, []) == t;
  }

  lemma SameAccountsChain(db: Db, mid: Db, db': Db)
    requires SameAccounts(db, mid) && SameAccounts(mid, db')
    ensures SameAccounts(db, db')
  {}

  lemma GoingMore(s: System, batch: nat, a: Id, failing: set<Id>, rounds: seq<Round>, r: Round)
    requires a in s.db.accounts && Going(s, batch, a, failing, rounds)
    requires Fits(AfterAll(s, rounds), batch, UpTo(s.db, a), failing, r)
    ensures Going(s, batch, a, failing, rounds + [r])
    ensures AfterAll(s, rounds + [r]) == Run(AfterAll(s, rounds), r.cycle)
  {
    var t, rounds' := AfterAll(s, rounds), rounds + [r];
    OldestStays(s.db, t.db, a);
    FittingIsGood(t, batch, UpTo(s.db, a), failing, r);
    assert GoodRounds(s, batch, UpTo(s.db, a), failing, rounds') && AfterAll(s, rounds') == Run(t, r.cycle) by {
      OneMoreGoodRound(s, batch, UpTo(s.db, a), failing, rounds, r);
    }
    EventsSnoc(rounds, r);
    assert KeepFailing(s, EventsOf(rounds'), failing) by {
      RoundsAreRuns(s, rounds);
      KeepFailingConcat(s, EventsOf(rounds), r.cycle, failing);
    }
    SameAccountsChain(s.db, t.db, Run(t, r.cycle).db);
  }

  lemma NextRound(s: System, batch: nat, a: Id, failing: set<Id>, rounds: seq<Round>, ids: seq<Id>) returns (rounds': seq<Round>)
    requires a in s.db.accounts && Housed(s.db) && Going(s, batch, a, failing, rounds)
    requires IsBatch(AfterAll(s, rounds).db, batch, ids)
    ensures Going(s, batch, a, failing, rounds') && |rounds'| == |rounds| + 1
    ensures Pending(AfterAll(s, rounds').db) == Pending(AfterAll(s, rounds).db) - (Elements(ids) - failing)
  {
    var t := AfterAll(s, rounds);
    FailingStillPending(s, batch, a, failing, rounds);
    var cycle := SomeCycle(t, batch, ids, failing, UpTo(s.db, a));
    GoingMore(s, batch, a, failing, rounds, Round([], ids, cycle));
    rounds' := rounds + [Round([], ids, cycle)];
  }

  lemma FailingStillPending(s: System, batch: nat, a: Id, failing: set<Id>, rounds: seq<Round>)
    requires a in s.db.accounts && Going(s, batch, a, failing, rounds)
    ensures failing <= Pending(AfterAll(s, rounds).db)
  {
    RoundsAreRuns(s, rounds);
    var events := EventsOf(rounds);
    assert events[..|events|] == events;
  }

  lemma GoingBegins(s: System, batch: nat, a: Id, failing: set<Id>)
    requires a in s.db.accounts && failing <= Pending(s.db)
    ensures Going(s, batch, a, failing, [])
  {
    KeepFailingNothing(s, failing);
  }

  /** With a batch of failing accounts no younger than `a`, the query may pass over `a` forever. */
  lemma CanStarve(s: System, batch: nat, a: Id, failing: set<Id>, n: nat) returns (rounds: seq<Round>)
    requires Housed(s.db) && a in Pending(s.db) && a !in failing && failing <= Pending(s.db) * UpTo(s.db, a) && |failing| >= batch
    ensures |rounds| == n && Going(s, batch, a, failing, rounds) && a in Pending(AfterAll(s, rounds).db)
  {
    rounds := [];
    GoingBegins(s, batch, a, failing);
    for i := 0 to n
      invariant |rounds| == i && Going(s, batch, a, failing, rounds) && a in Pending(AfterAll(s, rounds).db)
    {
      var t := AfterAll(s, rounds);
      FailingStillPending(s, batch, a, failing, rounds);
      FailingNotYounger(s.db, t.db, a, failing);
      SubsetSize(failing, NotYounger(t.db, a));
      var ids := BatchCanExclude(t.db, batch, a);
      rounds := NextRound(s, batch, a, failing, rounds, ids);
    }
  }

  lemma FailingNotYounger(db: Db, db': Db, a: Id, failing: set<Id>)
    requires a in db.accounts && SameAccounts(db, db') && a !in failing && failing <= UpTo(db, a) && failing <= Pending(db')
    ensures failing <= NotYounger(db', a)
  {}

  /** While a batch of strictly older accounts is pending, the query answers with such accounts
      only; if not all of them fail, fewer are left after the cycle. */
  lemma OlderBatch(db: Db, batch: nat, ids: seq<Id>, a: Id)
    requires IsBatch(db, batch, ids) && a in Pending(db) && |Older(db, a)| >= batch
    ensures Elements(ids) <= Older(db, a) && |ids| == batch
  {
    BatchAvoids(db, batch, ids, a);
    SubsetSize(Older(db, a), Pending(db));
    forall i | 0 <= i < |ids| ensures ids[i] in Older(db, a) {
      if ids[i] !in Older(db, a) {
        assert forall p :: p in Older(db, a) ==> p in ids;
        ElementsCount(ids);
        assert Older(db, a) + {ids[i]} <= Elements(ids);
        SubsetSize(Older(db, a) + {ids[i]}, Elements(ids));
        assert false;
      }
    }
  }

  lemma OlderShrinks(db: Db, db': Db, batch: nat, ids: seq<Id>, a: Id, failing: set<Id>)
    requires IsBatch(db, batch, ids) && a in Pending(db) && |Older(db, a)| >= batch > |Older(db, a) * failing|
    requires SameAccounts(db, db') && Pending(db') == Pending(db) - (Elements(ids) - failing)
    ensures |Older(db', a) - failing| < |Older(db, a) - failing|
  {
    OlderBatch(db, batch, ids, a);
    ElementsCount(ids);
    var before, after := Older(db, a) - failing, Older(db', a) - failing;
    if Elements(ids) <= failing {
      SubsetSize(Elements(ids), Older(db, a) * failing);
      assert false;
    }
    var p :| p in Elements(ids) && p !in failing;
    assert after <= before - {p};
    SubsetSize(after, before - {p});
  }

  lemma OlderFailing(db: Db, db': Db, a: Id, failing: set<Id>)
    requires a in db.accounts && SameAccounts(db, db') && failing <= db.accounts.Keys && failing <= Pending(db')
    ensures Older(db', a) * failing == StrictlyOlder(db, a, failing)
  {}

  /** With fewer than a batch of strictly older failing accounts, the query may take `a`. */
  lemma CanActivate(s: System, batch: nat, a: Id, failing: set<Id>, n: nat) returns (rounds: seq<Round>)
    requires Housed(s.db) && a in Pending(s.db) && a !in failing && failing <= Pending(s.db) * UpTo(s.db, a)
    requires |StrictlyOlder(s.db, a, failing)| < batch
    ensures |rounds| >= n && Going(s, batch, a, failing, rounds) && a !in Pending(AfterAll(s, rounds).db)
  {
    rounds := [];
    GoingBegins(s, batch, a, failing);
    while a in Pending(AfterAll(s, rounds).db)
      invariant Going(s, batch, a, failing, rounds)
      decreases if a in Pending(AfterAll(s, rounds).db) then 1 + |Older(AfterAll(s, rounds).db, a) - failing| else 0
    {
      var t := AfterAll(s, rounds);
      FailingStillPending(s, batch, a, failing, rounds);
      OlderFailing(s.db, t.db, a, failing);
      if |Older(t.db, a)| < batch {
        var ids := BatchCanInclude(t.db, batch, a);
        rounds := NextRound(s, batch, a, failing, rounds, ids);
        assert a in Elements(ids);
      } else {
        var ids := SomeBatch(t.db, batch, a, true);
        var rounds' := NextRound(s, batch, a, failing, rounds, ids);
        SameAccountsBetween(s.db, t.db, AfterAll(s, rounds').db);
        OlderShrinks(t.db, AfterAll(s, rounds').db, batch, ids, a, failing);
        rounds := rounds';
      }
    }
    while |rounds| < n
      invariant Going(s, batch, a, failing, rounds) && a !in Pending(AfterAll(s, rounds).db)
    {
      var ids := SomeBatch(AfterAll(s, rounds).db, batch, a, true);
      rounds := NextRound(s, batch, a, failing, rounds, ids);
    }
  }

  lemma SameAccountsBetween(db: Db, mid: Db, db': Db)
    requires SameAccounts(db, mid) && SameAccounts(db, db')
    ensures SameAccounts(mid, db')
  {}

  /** A run with at least `n` error-free cycles, and enough of them, after which `a` is (not) active. */
  ghost predicate SomeRun(s: System, batch: nat, a: Id, failing: set<Id>, n: nat, active: bool)
    requires a in s.db.accounts
  {
    exists rounds :: |rounds| >= n && EnoughCycles(s, batch, a, failing, rounds) && IsActive(AfterAll(s, rounds).db, a) == active
  }

  lemma NotPendingIsActive(db: Db, db': Db, a: Id)
    requires a in db.accounts && SameAccounts(db, db')
    ensures a in Pending(db') <==> !IsActive(db', a)
  {}

  function Needed(s: System, batch: nat, a: Id, failing: set<Id>): nat
    requires a in s.db.accounts
  {
    if |failing| < batch then CeilDiv(|Waiting(s.db, UpTo(s.db, a), failing)|, batch - |failing|) else 0
  }

  lemma SomeStarve(s: System, batch: nat, a: Id, failing: set<Id>, n: nat)
    requires Housed(s.db) && a in Pending(s.db) && a !in failing && failing <= Pending(s.db) * UpTo(s.db, a) && |failing| >= batch
    ensures SomeRun(s, batch, a, failing, n, false)
  {
    var rounds := CanStarve(s, batch, a, failing, n);
    NotPendingIsActive(s.db, AfterAll(s, rounds).db, a);
    assert EnoughCycles(s, batch, a, failing, rounds);
  }

  lemma SomeActivate(s: System, batch: nat, a: Id, failing: set<Id>, n: nat)
    requires Housed(s.db) && a in Pending(s.db) && a !in failing && failing <= Pending(s.db) * UpTo(s.db, a)
    requires |StrictlyOlder(s.db, a, failing)| < batch
    ensures SomeRun(s, batch, a, failing, n, true)
  {
    var need := Needed(s, batch, a, failing);
    var rounds := CanActivate(s, batch, a, failing, if n > need then n else need);
    NotPendingIsActive(s.db, AfterAll(s, rounds).db, a);
    assert EnoughCycles(s, batch, a, failing, rounds);
  }

  /** The two exact conditions over runs, equal creation times included. However many error-free
      cycles there are, `a` can still be waiting exactly if a batch of accounts created no later
      keeps failing; and it can have been activated exactly if fewer than a batch of strictly
      older ones keep failing. */
  lemma StarvationExactly(s: System, batch: nat, a: Id, failing: set<Id>)
    requires DirectoryOk(s.sesame) && Housed(s.db) && NobodyHolds(s, a)
    requires a in Pending(s.db) && a !in failing && failing <= Pending(s.db) * UpTo(s.db, a)
    ensures (forall n: nat :: SomeRun(s, batch, a, failing, n, false)) <==> |failing| >= batch
    ensures (forall n: nat :: SomeRun(s, batch, a, failing, n, true)) <==> |StrictlyOlder(s.db, a, failing)| < batch
    ensures SomeRun(s, batch, a, failing, 0, false) <==> |failing| >= batch
    ensures SomeRun(s, batch, a, failing, 0, true) <==> |StrictlyOlder(s.db, a, failing)| < batch
  {
    if |failing| >= batch { forall n: nat ensures SomeRun(s, batch, a, failing, n, false) { SomeStarve(s, batch, a, failing, n); } }
    if |StrictlyOlder(s.db, a, failing)| < batch {
      forall n: nat ensures SomeRun(s, batch, a, failing, n, true) { SomeActivate(s, batch, a, failing, n); }
    }
    if SomeRun(s, batch, a, failing, 0, false) {
      var rounds :| EnoughCycles(s, batch, a, failing, rounds) && !IsActive(AfterAll(s, rounds).db, a);
      ActivatedExactly(s, batch, a, failing, rounds);
    }
    if SomeRun(s, batch, a, failing, 0, true) {
      var rounds :| EnoughCycles(s, batch, a, failing, rounds) && IsActive(AfterAll(s, rounds).db, a);
      ActivatedExactly(s, batch, a, failing, rounds);
    }
  }
}

/** Reconcile cycles make progress: a bound on how many are needed, whatever else runs, and a
    cycle that makes none. */
module Progress {
  import opened Strings
  import opened Store
  import opened Protocol
  import opened Provisioning

  /** The accounts of `group` that are pending although sesame would take them. */
  function Waiting(db: Db, group: set<Id>, failing: set<Id>): set<Id> {
    group * Pending(db) - failing
  }

  /** Every account outside the group was created after all of the group. */
  ghost predicate Oldest(db: Db, group: set<Id>) {
    forall a, b :: a in group && a in db.accounts && b in db.accounts && b !in group ==>
      db.accounts[a].createdAt < db.accounts[b].createdAt
  }

  // ------------------------------------------------------------------------
  // One cycle, with anything else in between
  // ------------------------------------------------------------------------

  /** `events` starts a worker on the batch `ids` and runs, interleaved with anything else, until
      that worker has returned. Of the group, only accounts in `failing` were refused by sesame. */
  ghost predicate IsCycle(s: System, batch: nat, ids: seq<Id>, events: seq<Event>, group: set<Id>, failing: set<Id>) {
    && events != [] && events[0] == WorkerStarts(batch, ids) && IsBatch(s.db, batch, ids)
    && var ws := Run(s, events).workers;
       && |s.workers| < |ws| && ws[|s.workers|].status == Returned
       && ws[|s.workers|].failed * group <= failing
  }

  ghost predicate Worked(t: System, w: nat, ids: seq<Id>) {
    && w < |t.workers|
    && var k := t.workers[w];
       && |k.rows| == |ids| && k.next <= |ids|
       && (forall i :: 0 <= i < |ids| ==> k.rows[i].id == ids[i])
       && (forall i :: 0 <= i < k.next ==> IsActive(t.db, ids[i]) || ids[i] in k.failed)
       && (k.status == Returned ==> k.next == |ids|)
  }

  /** What an event does to a worker: the row it leaves behind was activated or refused. */
  lemma WorkerMoves(t: System, e: Event, w: nat)
    requires w < |t.workers|
    ensures var t', k := Apply(t, e), t.workers[w];
            && w < |t'.workers| && t'.workers[w].rows == k.rows && k.failed <= t'.workers[w].failed
            && (t'.workers[w].next == k.next ||
                (t'.workers[w].next == k.next + 1 && k.next < |k.rows| &&
                 (k.rows[k.next].id in t'.workers[w].failed || (e == WorkerPersists(w) && Holding(k)))))
            && (t'.workers[w].status == Returned ==> k.status == Returned || k.next >= |k.rows|)
            && (k.status != Looping ==> t'.workers[w] == k)
  {}

  lemma PersistedIsActive(t: System, w: nat)
    requires w < |t.workers| && Holding(t.workers[w])
    requires Apply(t, WorkerPersists(w)).workers[w].next == t.workers[w].next + 1
    requires t.workers[w].rows[t.workers[w].next].id in t.db.accounts
    ensures IsActive(Apply(t, WorkerPersists(w)).db, t.workers[w].rows[t.workers[w].next].id)
  {}

  lemma WorkedStays(t: System, e: Event, w: nat, ids: seq<Id>)
    requires Worked(t, w, ids)
    requires forall i :: 0 <= i < |ids| ==> ids[i] in t.db.accounts
    ensures Worked(Apply(t, e), w, ids)
  {
    var k, t' := t.workers[w], Apply(t, e);
    EventKeepsAccounts(t, e);
    WorkerMoves(t, e, w);
    if t'.workers[w].next == k.next + 1 {
      assert k.rows[k.next].id == ids[k.next];
      if e == WorkerPersists(w) && Holding(k) { PersistedIsActive(t, w); }
    }
  }

  lemma {:induction false} WorkedThroughout(s: System, batch: nat, ids: seq<Id>, events: seq<Event>)
    requires DirectoryOk(s.sesame)
    requires events != [] && events[0] == WorkerStarts(batch, ids) && IsBatch(s.db, batch, ids)
    ensures Worked(Run(s, events), |s.workers|, ids)
    ensures AccountsKept(s.db, Run(s, events).db)
    decreases |events|
  {
    RunKeepsAccounts(s, events);
    if |events| == 1 {
      assert events[..0] == [];
      assert Run(s, events[..0]) == s;
      assert Run(s, events) == Apply(s, events[0]);
    } else {
      var before := events[..|events| - 1];
      WorkedThroughout(s, batch, ids, before);
      WorkedStays(Run(s, before), events[|events| - 1], |s.workers|, ids);
    }
  }

  /** After an error-free cycle every account of its batch is active or was refused. */
  lemma CycleSettlesItsBatch(s: System, batch: nat, ids: seq<Id>, events: seq<Event>, group: set<Id>, failing: set<Id>)
    requires DirectoryOk(s.sesame) && IsCycle(s, batch, ids, events, group, failing)
    ensures forall a :: a in ids && a in group && a !in failing ==> IsActive(Run(s, events).db, a)
  {
    WorkedThroughout(s, batch, ids, events);
  }

  function Elements(ids: seq<Id>): set<Id> { set i | 0 <= i < |ids| :: ids[i] }

  lemma {:induction false} ElementsCount(ids: seq<Id>)
    requires forall i, j :: 0 <= i < j < |ids| ==> ids[i] != ids[j]
    ensures |Elements(ids)| == |ids|
  {
    if ids != [] {
      var init, last := ids[..|ids| - 1], ids[|ids| - 1];
      ElementsCount(init);
      assert Elements(ids) == Elements(init) + {last};
    }
  }

  lemma SubsetSize(a: set<Id>, b: set<Id>)
    requires a <= b
    ensures |a| <= |b| && |b - a| == |b| - |a|
  {
    assert b == a + (b - a);
  }

  lemma WaitingOnlyShrinks(db: Db, db': Db, group: set<Id>, failing: set<Id>)
    requires AccountsKept(db, db') && group <= db.accounts.Keys
    ensures Waiting(db', group, failing) <= Waiting(db, group, failing)
  {}

  /** A batch either takes every waiting account of an oldest group or is full of the group. */
  lemma BatchFavoursTheGroup(db: Db, batch: nat, ids: seq<Id>, group: set<Id>, failing: set<Id>)
    requires IsBatch(db, batch, ids) && Oldest(db, group)
    ensures Waiting(db, group, failing) <= Elements(ids) || (Elements(ids) <= group && |ids| == batch)
  {
    if !(Waiting(db, group, failing) <= Elements(ids)) {
      var x :| x in Waiting(db, group, failing) && x !in Elements(ids);
      assert x !in ids;
      forall i | 0 <= i < |ids| ensures ids[i] in group {
        assert db.accounts[ids[i]].createdAt <= db.accounts[x].createdAt;
      }
      if |ids| == |Pending(db)| {
        ElementsCount(ids);
        assert Elements(ids) < Pending(db);
        SubsetSize(Elements(ids), Pending(db) - {x});
        assert false;
      }
    }
  }

  /** A batch that lies in the waiting set but for its failing part takes the rest of it out. */
  lemma BatchShrinks(batch: nat, ids: seq<Id>, failing: set<Id>, before: set<Id>, after: set<Id>)
    requires (forall i, j :: 0 <= i < j < |ids| ==> ids[i] != ids[j]) && |ids| == batch && |failing| < batch
    requires Elements(ids) - failing <= before && after <= before && (Elements(ids) - failing) !! after
    ensures |after| + (batch - |failing|) <= |before|
  {
    var done := Elements(ids) - failing;
    ElementsCount(ids);
    SubsetSize(Elements(ids) * failing, failing);
    SubsetSize(Elements(ids) * failing, Elements(ids));
    assert done == Elements(ids) - Elements(ids) * failing;
    SubsetSize(done, before);
    SubsetSize(after, before - done);
  }

  lemma CycleReducesWaiting(s: System, batch: nat, ids: seq<Id>, events: seq<Event>, group: set<Id>, failing: set<Id>)
    requires DirectoryOk(s.sesame) && IsCycle(s, batch, ids, events, group, failing)
    requires group <= s.db.accounts.Keys && Oldest(s.db, group) && |failing| < batch
    ensures var n, n' := |Waiting(s.db, group, failing)|, |Waiting(Run(s, events).db, group, failing)|;
            n' == 0 || n' + (batch - |failing|) <= n
  {
    var db' := Run(s, events).db;
    RunKeepsAccounts(s, events);
    WaitingOnlyShrinks(s.db, db', group, failing);
    CycleSettlesItsBatch(s, batch, ids, events, group, failing);
    BatchFavoursTheGroup(s.db, batch, ids, group, failing);
    SettledBatchReduces(s.db, db', batch, ids, group, failing);
  }

  lemma SettledBatchReduces(db: Db, db': Db, batch: nat, ids: seq<Id>, group: set<Id>, failing: set<Id>)
    requires IsBatch(db, batch, ids) && |failing| < batch
    requires Waiting(db', group, failing) <= Waiting(db, group, failing)
    requires forall a :: a in ids && a in group && a !in failing ==> IsActive(db', a)
    requires Waiting(db, group, failing) <= Elements(ids) || (Elements(ids) <= group && |ids| == batch)
    ensures var n, n' := |Waiting(db, group, failing)|, |Waiting(db', group, failing)|;
            n' == 0 || n' + (batch - |failing|) <= n
  {
    var before, after := Waiting(db, group, failing), Waiting(db', group, failing);
    if before <= Elements(ids) {
      assert after == {};
    } else {
      BatchShrinks(batch, ids, failing, before, after);
    }
  }

  // ------------------------------------------------------------------------
  // Many cycles
  // ------------------------------------------------------------------------

  /** Some other events, then a cycle. */
  datatype Round = Round(idle: seq<Event>, ids: seq<Id>, cycle: seq<Event>)

  function After(s: System, r: Round): System { Run(Run(s, r.idle), r.cycle) }

  function AfterAll(s: System, rounds: seq<Round>): System {
    if rounds == [] then s else After(AfterAll(s, rounds[..|rounds| - 1]), rounds[|rounds| - 1])
  }

  ghost predicate GoodRound(s: System, batch: nat, group: set<Id>, failing: set<Id>, r: Round) {
    var t := Run(s, r.idle);
    IsCycle(t, batch, r.ids, r.cycle, group, failing) && Oldest(t.db, group)
  }

  /** Each round is an error-free cycle, and accounts created meanwhile are younger than the group. */
  ghost predicate GoodRounds(s: System, batch: nat, group: set<Id>, failing: set<Id>, rounds: seq<Round>) {
    rounds != [] ==>
      var init, r := rounds[..|rounds| - 1], rounds[|rounds| - 1];
      GoodRounds(s, batch, group, failing, init) && GoodRound(AfterAll(s, init), batch, group, failing, r)
  }

  lemma KeptTransitive(a: Db, b: Db, c: Db)
    requires AccountsKept(a, b) && AccountsKept(b, c)
    ensures AccountsKept(a, c)
  {}

  lemma RoundReducesWaiting(s: System, batch: nat, group: set<Id>, failing: set<Id>, r: Round)
    requires DirectoryOk(s.sesame) && group <= s.db.accounts.Keys && |failing| < batch
    requires GoodRound(s, batch, group, failing, r)
    ensures AccountsKept(s.db, After(s, r).db) && DirectoryOk(After(s, r).sesame)
    ensures var n, n' := |Waiting(s.db, group, failing)|, |Waiting(After(s, r).db, group, failing)|;
            n' == 0 || n' + (batch - |failing|) <= n
  {
    var t := Run(s, r.idle);
    RunKeepsAccounts(s, r.idle);
    RunKeepsAccounts(t, r.cycle);
    KeptTransitive(s.db, t.db, After(s, r).db);
    WaitingOnlyShrinks(s.db, t.db, group, failing);
    SubsetSize(Waiting(t.db, group, failing), Waiting(s.db, group, failing));
    CycleReducesWaiting(t, batch, r.ids, r.cycle, group, failing);
  }

  /** After `k` rounds that take out `d` each, from `n` none or at most `n - k * d` are left. */
  predicate Reduced(n: nat, n': nat, k: nat, d: nat) { n' == 0 || n' + k * d <= n }

  lemma OneMoreRound(db: Db, n: nat, mid: System, batch: nat, group: set<Id>, failing: set<Id>, r: Round, k: nat)
    requires AccountsKept(db, mid.db) && DirectoryOk(mid.sesame) && group <= db.accounts.Keys && |failing| < batch
    requires Reduced(n, |Waiting(mid.db, group, failing)|, k, batch - |failing|)
    requires GoodRound(mid, batch, group, failing, r)
    ensures AccountsKept(db, After(mid, r).db) && DirectoryOk(After(mid, r).sesame)
    ensures Reduced(n, |Waiting(After(mid, r).db, group, failing)|, k + 1, batch - |failing|)
  {
    RoundReducesWaiting(mid, batch, group, failing, r);
    var after := After(mid, r);
    KeptTransitive(db, mid.db, after.db);
    ReducedAgain(n, |Waiting(mid.db, group, failing)|, |Waiting(after.db, group, failing)|, k, batch - |failing|);
  }

  lemma {:induction false} RoundsReduceWaiting(s: System, batch: nat, group: set<Id>, failing: set<Id>, rounds: seq<Round>)
    requires DirectoryOk(s.sesame) && group <= s.db.accounts.Keys && |failing| < batch
    requires GoodRounds(s, batch, group, failing, rounds)
    ensures AccountsKept(s.db, AfterAll(s, rounds).db) && DirectoryOk(AfterAll(s, rounds).sesame)
    ensures Reduced(|Waiting(s.db, group, failing)|, |Waiting(AfterAll(s, rounds).db, group, failing)|, |rounds|, batch - |failing|)
  {
    if rounds != [] {
      var init, r := rounds[..|rounds| - 1], rounds[|rounds| - 1];
      RoundsReduceWaiting(s, batch, group, failing, init);
      var mid := AfterAll(s, init);
      OneMoreRound(s.db, |Waiting(s.db, group, failing)|, mid, batch, group, failing, r, |init|);
    }
  }

  lemma ReducedAgain(n: nat, mid: nat, n': nat, k: nat, d: nat)
    requires Reduced(n, mid, k, d) && (n' == 0 || n' + d <= mid)
    ensures Reduced(n, n', k + 1, d)
  {
    assert (k + 1) * d == k * d + d;
  }

  function CeilDiv(n: nat, d: nat): nat
    requires d > 0
  {
    (n + d - 1) / d
  }

  lemma CeilDivCovers(n: nat, d: nat, k: nat)
    requires d > 0 && k >= CeilDiv(n, d)
    ensures k * d >= n
  {
    var q := CeilDiv(n, d);
    assert q * d + (n + d - 1) % d == n + d - 1;
    assert k * d == q * d + (k - q) * d;
  }

  /** If fewer accounts than a batch always fail, every other account of the group is active after
      at most ceil(N / (batch - f)) error-free cycles, whatever else happens meanwhile, as long as
      accounts created later are younger. */
  lemma EveryoneElseIsActivated(s: System, batch: nat, group: set<Id>, failing: set<Id>, rounds: seq<Round>)
    requires DirectoryOk(s.sesame) && group <= s.db.accounts.Keys && |failing| < batch
    requires GoodRounds(s, batch, group, failing, rounds)
    requires |rounds| >= CeilDiv(|Waiting(s.db, group, failing)|, batch - |failing|)
    ensures forall a :: a in group && a !in failing ==> IsActive(AfterAll(s, rounds).db, a)
  {
    RoundsReduceWaiting(s, batch, group, failing, rounds);
    EnoughRoundsEmpty(s.db, AfterAll(s, rounds).db, batch, group, failing, |rounds|);
  }

  lemma EnoughRoundsEmpty(db: Db, db': Db, batch: nat, group: set<Id>, failing: set<Id>, k: nat)
    requires group <= db.accounts.Keys && |failing| < batch && AccountsKept(db, db')
    requires k >= CeilDiv(|Waiting(db, group, failing)|, batch - |failing|)
    requires Reduced(|Waiting(db, group, failing)|, |Waiting(db', group, failing)|, k, batch - |failing|)
    ensures forall a :: a in group && a !in failing ==> IsActive(db', a)
  {
    EnoughRounds(|Waiting(db, group, failing)|, |Waiting(db', group, failing)|, batch - |failing|, k);
    NobodyWaits(db, db', group, failing);
  }

  lemma EnoughRounds(n: nat, n': nat, d: nat, k: nat)
    requires d > 0 && k >= CeilDiv(n, d) && Reduced(n, n', k, d)
    ensures n' == 0
  {
    CeilDivCovers(n, d, k);
  }

  lemma NobodyWaits(db: Db, db': Db, group: set<Id>, failing: set<Id>)
    requires group <= db.accounts.Keys && AccountsKept(db, db') && |Waiting(db', group, failing)| == 0
    ensures forall a :: a in group && a !in failing ==> IsActive(db', a)
  {
    assert Waiting(db', group, failing) == {};
    forall a | a in group && a !in failing ensures IsActive(db', a) { assert a !in Waiting(db', group, failing); }
  }

  // ------------------------------------------------------------------------
  // No progress
  // ------------------------------------------------------------------------

  /** A worker takes the batch and the first `n` of its calls are refused. */
  function RefusedCalls(s: System, batch: nat, ids: seq<Id>, n: nat): seq<Event> {
    if n == 0 then [WorkerStarts(batch, ids)] else RefusedCalls(s, batch, ids, n - 1) + [WorkerCalls(|s.workers|, Refused)]
  }

  function StarvedCycle(s: System, batch: nat, ids: seq<Id>): seq<Event> {
    RefusedCalls(s, batch, ids, |ids|) + [WorkerReturns(|s.workers|)]
  }

  function With(s: System, w: Worker): System { s.(workers := s.workers + [w]) }

  function Looper(s: System, ids: seq<Id>, n: nat): Worker
    requires n <= |ids| && forall i :: 0 <= i < |ids| ==> ids[i] in s.db.accounts
  {
    Worker(Looping, RowsOf(s.db, ids), n, None, 0, Elements(ids[..n]), [])
  }

  lemma StartedOnce(s: System, batch: nat, ids: seq<Id>)
    requires IsBatch(s.db, batch, ids)
    ensures Run(s, [WorkerStarts(batch, ids)]) == With(s, Looper(s, ids, 0))
  {
    var e := WorkerStarts(batch, ids);
    assert [e][..0] == [];
    assert Run(s, [e][..0]) == s;
    assert Elements(ids[..0]) == {};
  }

  lemma RefusedOnce(s: System, ids: seq<Id>, n: nat)
    requires n < |ids| && forall i :: 0 <= i < |ids| ==> ids[i] in s.db.accounts
    ensures Apply(With(s, Looper(s, ids, n)), WorkerCalls(|s.workers|, Refused)) == With(s, Looper(s, ids, n + 1))
  {
    assert Elements(ids[..n + 1]) == Elements(ids[..n]) + {ids[n]};
    assert (s.workers + [Looper(s, ids, n)])[|s.workers| := Looper(s, ids, n + 1)] == s.workers + [Looper(s, ids, n + 1)];
  }

  lemma ReturnedOnce(s: System, ids: seq<Id>)
    requires forall i :: 0 <= i < |ids| ==> ids[i] in s.db.accounts
    ensures Apply(With(s, Looper(s, ids, |ids|)), WorkerReturns(|s.workers|)) == With(s, Looper(s, ids, |ids|).(status := Returned))
  {
    var w := Looper(s, ids, |ids|);
    assert (s.workers + [w])[|s.workers| := w.(status := Returned)] == s.workers + [w.(status := Returned)];
  }

  /** Where that run stands. */
  function AfterRefusals(s: System, start: System, n: nat): System {
    if n == 0 then start else Apply(AfterRefusals(s, start, n - 1), WorkerCalls(|s.workers|, Refused))
  }

  lemma {:induction false} AfterRefusalsIsRun(s: System, batch: nat, ids: seq<Id>, n: nat)
    ensures Run(s, RefusedCalls(s, batch, ids, n)) == AfterRefusals(s, Run(s, [WorkerStarts(batch, ids)]), n)
  {
    if n > 0 {
      AfterRefusalsIsRun(s, batch, ids, n - 1);
      RunSnoc(s, RefusedCalls(s, batch, ids, n - 1), WorkerCalls(|s.workers|, Refused));
    }
  }

  lemma {:induction false} RefusedSoFar(s: System, ids: seq<Id>, n: nat)
    requires n <= |ids| && forall i :: 0 <= i < |ids| ==> ids[i] in s.db.accounts
    ensures AfterRefusals(s, With(s, Looper(s, ids, 0)), n) == With(s, Looper(s, ids, n))
  {
    if n > 0 {
      RefusedSoFar(s, ids, n - 1);
      RefusedOnce(s, ids, n - 1);
    }
  }

  lemma StarvedCycleEnds(s: System, batch: nat, ids: seq<Id>)
    requires IsBatch(s.db, batch, ids)
    ensures Run(s, StarvedCycle(s, batch, ids)) == With(s, Looper(s, ids, |ids|).(status := Returned))
    ensures StarvedCycle(s, batch, ids)[0] == WorkerStarts(batch, ids)
  {
    StartedOnce(s, batch, ids);
    AfterRefusalsIsRun(s, batch, ids, |ids|);
    RefusedSoFar(s, ids, |ids|);
    RunSnoc(s, RefusedCalls(s, batch, ids, |ids|), WorkerReturns(|s.workers|));
    ReturnedOnce(s, ids);
    StarvedCycleStarts(s, batch, ids, |ids|);
  }

  lemma {:induction false} StarvedCycleStarts(s: System, batch: nat, ids: seq<Id>, n: nat)
    ensures |RefusedCalls(s, batch, ids, n)| > 0 && RefusedCalls(s, batch, ids, n)[0] == WorkerStarts(batch, ids)
  {
    if n > 0 { StarvedCycleStarts(s, batch, ids, n - 1); }
  }

  /** A cycle whose calls are all refused ends without error and changes neither store nor
      directory, so the next query may well answer with the same batch. */
  lemma HeadOfLineBlocks(s: System, batch: nat, ids: seq<Id>, group: set<Id>)
    requires IsBatch(s.db, batch, ids)
    ensures var t := Run(s, StarvedCycle(s, batch, ids));
            && t.db == s.db && t.sesame == s.sesame
            && IsBatch(t.db, batch, ids)
            && IsCycle(s, batch, ids, StarvedCycle(s, batch, ids), group, Elements(ids))
            && t.workers[|s.workers|].activated == 0
  {
    StarvedCycleEnds(s, batch, ids);
    assert ids[..|ids|] == ids;
  }
}

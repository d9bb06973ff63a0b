/** The quarantine workflow (crates/abuse-api/src/routes.rs, migrations/0001_abuse.sql): scan
    decisions, held messages, release and feedback, each with its audit entry. */
module Quarantine {
  import opened Strings
  import opened Store
  import T = Thresholds
  import ControlPlane

  datatype Decision = Decision(tenant: Id, messageRef: string, direction: string, recipient: string, sender: string,
                               score: T.F64, action: string, verdict: string)

  datatype Status = Held | Released

  /** `reason` is the verdict and the score it was formatted from. */
  datatype Item = Item(tenant: Id, decision: Id, messageRef: string, recipient: string, sender: string, subject: string,
                       reason: (string, T.F64), status: Status, reportedAs: Option<string>, heldAt: nat,
                       resolvedAt: Option<nat>, resolvedBy: Option<string>)

  datatype AbuseAction =
    | DecisionMade(action: string, verdict: string, score: T.F64, messageRef: string)
    | ItemReleased(messageRef: string)
    | ItemReported(reportedAs: string, messageRef: string)

  datatype AbuseEntry = AbuseEntry(tenant: Id, actor: string, action: AbuseAction, entity: Id)

  datatype AbuseDb = AbuseDb(decisions: map<Id, Decision>, items: map<Id, Item>, audit: seq<AbuseEntry>)

  const EmptyAbuseDb := AbuseDb(map[], map[], [])

  // What the service accepts, abuse-api/src/models.rs
  const VALID_ACTIONS := {"accept", "junk", "quarantine", "reject", "discard"}
  const VALID_VERDICTS := {"ham", "spam", "phishing", "malware"}

  /** The CHECK constraints of `abuse_decision`. */
  predicate ActionCheck(action: string) {
    action == "accept" || action == "junk" || action == "quarantine" || action == "reject" || action == "discard"
  }
  predicate VerdictCheck(verdict: string) {
    verdict == "ham" || verdict == "spam" || verdict == "phishing" || verdict == "malware"
  }
  predicate DirectionCheck(direction: string) { direction == "inbound" || direction == "outbound" }

  /** The request checks on action and verdict are the table's, no more and no less; only the
      direction is left to the table. */
  lemma RequestChecksAreTheTables(value: string)
    ensures value in VALID_ACTIONS <==> ActionCheck(value)
    ensures value in VALID_VERDICTS <==> VerdictCheck(value)
  {}

  datatype Request = Request(messageRef: string, direction: string, recipient: string, sender: string,
                             score: T.F64, action: string, verdict: string, subject: string)

  // ------------------------------------------------------------------------
  // The transactions
  // ------------------------------------------------------------------------

  predicate HasItem(items: map<Id, Item>, t: Id, ref: string) {
    exists i :: i in items && items[i].tenant == t && items[i].messageRef == ref
  }

  /** `INSERT … ON CONFLICT (tenant_id, message_ref) DO NOTHING` */
  function HoldMessage(db: AbuseDb, t: Id, item: Id, decision: Id, req: Request, now: nat): Result<AbuseDb> {
    if HasItem(db.items, t, req.messageRef) then Ok(db)
    else
      var _ :- Need(item !in db.items, Conflict);
      Ok(db.(items := db.items[item := Item(t, decision, req.messageRef, req.recipient, req.sender, req.subject,
                                            (req.verdict, req.score), Held, None, now, None, None)]))
  }

  function RecordDecision(db: AbuseDb, t: Id, decision: Id, item: Id, req: Request, actor: string, now: nat): Result<AbuseDb> {
    var _ :- Need(req.action in VALID_ACTIONS, Validation);
    var _ :- Need(req.verdict in VALID_VERDICTS, Validation);
    var _ :- Need(ActionCheck(req.action) && VerdictCheck(req.verdict) && DirectionCheck(req.direction), Internal);
    var _ :- Need(decision !in db.decisions, Conflict);
    var row := Decision(t, req.messageRef, req.direction, req.recipient, req.sender, req.score, req.action, req.verdict);
    var db1 := db.(decisions := db.decisions[decision := row]);
    var db2 :- if req.action == "quarantine" then HoldMessage(db1, t, item, decision, req, now) else Ok(db1);
    Ok(db2.(audit := db2.audit + [AbuseEntry(t, actor, DecisionMade(req.action, req.verdict, req.score, req.messageRef), decision)]))
  }

  predicate VisibleItem(db: AbuseDb, t: Id, item: Id) {
    item in db.items && Sees(TenantSession(t), Some(db.items[item].tenant))
  }

  function ReleaseItem(db: AbuseDb, t: Id, item: Id, actor: string, now: nat): Result<AbuseDb> {
    var _ :- Need(VisibleItem(db, t, item) && db.items[item].status == Held, NotFound);
    var row := db.items[item].(status := Released, resolvedAt := Some(now), resolvedBy := Some(actor));
    Ok(db.(items := db.items[item := row],
           audit := db.audit + [AbuseEntry(t, actor, ItemReleased(row.messageRef), item)]))
  }

  function ReportItem(db: AbuseDb, t: Id, item: Id, verdict: string, actor: string): Result<AbuseDb> {
    var _ :- Need(verdict == "spam" || verdict == "ham", Validation);
    var _ :- Need(VisibleItem(db, t, item), NotFound);
    var row := db.items[item].(reportedAs := Some(verdict));
    Ok(db.(items := db.items[item := row],
           audit := db.audit + [AbuseEntry(t, actor, ItemReported(verdict, row.messageRef), item)]))
  }

  /** The rows `list_quarantine` selects. */
  function ListQuarantine(db: AbuseDb, t: Id): map<Id, Item> {
    map i | i in db.items && VisibleItem(db, t, i) && db.items[i].status == Held :: db.items[i]
  }

  datatype Event =
    | Decide(t: Id, decision: Id, item: Id, req: Request, actor: string, now: nat)
    | Release(t: Id, item: Id, actor: string, now: nat)
    | Report(t: Id, item: Id, verdict: string, actor: string)

  function Outcome(db: AbuseDb, e: Event): Result<AbuseDb> {
    match e
    case Decide(t, decision, item, req, actor, now) => RecordDecision(db, t, decision, item, req, actor, now)
    case Release(t, item, actor, now) => ReleaseItem(db, t, item, actor, now)
    case Report(t, item, verdict, actor) => ReportItem(db, t, item, verdict, actor)
  }

  function Apply(db: AbuseDb, e: Event): AbuseDb {
    var r := Outcome(db, e);
    if r.Ok? then r.value else db
  }

  function Run(db: AbuseDb, events: seq<Event>): AbuseDb {
    if events == [] then db else Apply(Run(db, events[..|events| - 1]), events[|events| - 1])
  }

  lemma {:induction false} RunConcat(db: AbuseDb, a: seq<Event>, b: seq<Event>)
    ensures Run(db, a + b) == Run(Run(db, a), b)
  {
    if b == [] {
      assert a + b == a;
    } else {
      RunConcat(db, a, b[..|b| - 1]);
      assert (a + b)[..|a + b| - 1] == a + b[..|b| - 1];
    }
  }

  // ------------------------------------------------------------------------
  // What each request does, in full
  // ------------------------------------------------------------------------

  /** Bad values are refused first, then a taken id; otherwise the decision is stored and logged, and
      a quarantined message without an item gets one, held. */
  lemma DecisionOutcome(db: AbuseDb, t: Id, decision: Id, item: Id, req: Request, actor: string, now: nat)
    ensures var r := RecordDecision(db, t, decision, item, req, actor, now);
            var holds := req.action == "quarantine" &&
                         forall i :: i in db.items ==> db.items[i].tenant != t || db.items[i].messageRef != req.messageRef;
            if !(req.action in {"accept", "junk", "quarantine", "reject", "discard"} && req.verdict in {"ham", "spam", "phishing", "malware"})
            then r == Err(Validation)
            else if req.direction != "inbound" && req.direction != "outbound" then r == Err(Internal)
            else if decision in db.decisions || (holds && item in db.items) then r == Err(Conflict)
            else r == Ok(AbuseDb(
              db.decisions[decision := Decision(t, req.messageRef, req.direction, req.recipient, req.sender, req.score, req.action, req.verdict)],
              if holds then db.items[item := Item(t, decision, req.messageRef, req.recipient, req.sender, req.subject,
                                                  (req.verdict, req.score), Held, None, now, None, None)] else db.items,
              db.audit + [AbuseEntry(t, actor, DecisionMade(req.action, req.verdict, req.score, req.messageRef), decision)]))
  {}

  /** A release commits exactly if the item exists, is the tenant's and is held, whatever else its
      columns say; it sets status, resolver and time, touches nothing else, and is logged. Otherwise
      nothing is found. */
  lemma ReleaseOutcome(db: AbuseDb, t: Id, item: Id, actor: string, now: nat)
    ensures var r := ReleaseItem(db, t, item, actor, now);
            if item in db.items && db.items[item].tenant == t && db.items[item].status == Held then
              var i := db.items[item];
              r == Ok(AbuseDb(db.decisions,
                              db.items[item := Item(i.tenant, i.decision, i.messageRef, i.recipient, i.sender, i.subject,
                                                    i.reason, Released, i.reportedAs, i.heldAt, Some(now), Some(actor))],
                              db.audit + [AbuseEntry(t, actor, ItemReleased(i.messageRef), item)]))
            else r == Err(NotFound)
  {}

  /** Feedback commits exactly if it says spam or ham and the item exists and is the tenant's,
      released or not; it sets the feedback and nothing else, and is logged. */
  lemma ReportOutcome(db: AbuseDb, t: Id, item: Id, verdict: string, actor: string)
    ensures var r := ReportItem(db, t, item, verdict, actor);
            if verdict != "spam" && verdict != "ham" then r == Err(Validation)
            else if item in db.items && db.items[item].tenant == t then
              var i := db.items[item];
              r == Ok(AbuseDb(db.decisions,
                              db.items[item := Item(i.tenant, i.decision, i.messageRef, i.recipient, i.sender, i.subject,
                                                    i.reason, i.status, Some(verdict), i.heldAt, i.resolvedAt, i.resolvedBy)],
                              db.audit + [AbuseEntry(t, actor, ItemReported(verdict, i.messageRef), item)]))
            else r == Err(NotFound)
  {}

  /** The selected rows are the tenant's held ones, all of them. */
  lemma SelectedExactly(db: AbuseDb, t: Id, i: Id)
    ensures i in ListQuarantine(db, t) <==> i in db.items && db.items[i].tenant == t && db.items[i].status == Held
    ensures i in ListQuarantine(db, t) ==> ListQuarantine(db, t)[i] == db.items[i]
  {}

  /** A committed request replaces the store by its outcome, a refused one leaves it alone. */
  lemma EventsTakeEffect(db: AbuseDb, t: Id, decision: Id, item: Id, req: Request, verdict: string, actor: string, now: nat)
    ensures var r := RecordDecision(db, t, decision, item, req, actor, now);
            Apply(db, Decide(t, decision, item, req, actor, now)) == if r.Ok? then r.value else db
    ensures var r := ReleaseItem(db, t, item, actor, now); Apply(db, Release(t, item, actor, now)) == if r.Ok? then r.value else db
    ensures var r := ReportItem(db, t, item, verdict, actor); Apply(db, Report(t, item, verdict, actor)) == if r.Ok? then r.value else db
  {}

  /** Only a release of the item by its tenant takes a held item out; feedback is all that may change
      meanwhile. */
  lemma EventKeepsHeld(db: AbuseDb, e: Event, i: Id)
    requires i in db.items && db.items[i].status == Held
    requires !(e.Release? && e.t == db.items[i].tenant && e.item == i)
    ensures i in Apply(db, e).items && Apply(db, e).items[i].(reportedAs := None) == db.items[i].(reportedAs := None)
  {}

  lemma {:induction false} RunKeepsHeld(db: AbuseDb, events: seq<Event>, i: Id)
    requires i in db.items && db.items[i].status == Held
    requires forall k :: 0 <= k < |events| ==> !(events[k].Release? && events[k].t == db.items[i].tenant && events[k].item == i)
    ensures i in Run(db, events).items && Run(db, events).items[i].(reportedAs := None) == db.items[i].(reportedAs := None)
  {
    if events != [] {
      RunKeepsHeld(db, events[..|events| - 1], i);
      EventKeepsHeld(Run(db, events[..|events| - 1]), events[|events| - 1], i);
    }
  }

  lemma DecisionHolds(db: AbuseDb, d: Event)
    requires d.Decide? && d.item !in db.items && d.item in Apply(db, d).items
    ensures Apply(db, d).items[d.item] == Item(d.t, d.decision, d.req.messageRef, d.req.recipient, d.req.sender, d.req.subject,
                                               (d.req.verdict, d.req.score), Held, None, d.now, None, None)
  {}

  lemma RunSnoc(db: AbuseDb, events: seq<Event>, e: Event)
    ensures Run(db, events + [e]) == Apply(Run(db, events), e)
  {
    assert (events + [e])[..|events|] == events;
  }

  /** An item some decision held stays listed until its tenant releases it, whatever reports,
      decisions and other tenants' requests come between. */
  lemma HeldStaysListed(before: seq<Event>, d: Event, later: seq<Event>)
    requires d.Decide? && d.item !in Run(EmptyAbuseDb, before).items && d.item in Apply(Run(EmptyAbuseDb, before), d).items
    requires forall k :: 0 <= k < |later| ==> !(later[k].Release? && later[k].t == d.t && later[k].item == d.item)
    ensures var db := Run(EmptyAbuseDb, before + [d] + later);
            && d.item in ListQuarantine(db, d.t) && d.item in db.items
            && db.items[d.item].(reportedAs := None) ==
               Item(d.t, d.decision, d.req.messageRef, d.req.recipient, d.req.sender, d.req.subject,
                    (d.req.verdict, d.req.score), Held, None, d.now, None, None)
  {
    var held := Apply(Run(EmptyAbuseDb, before), d);
    RunSnoc(EmptyAbuseDb, before, d);
    RunConcat(EmptyAbuseDb, before + [d], later);
    DecisionHolds(Run(EmptyAbuseDb, before), d);
    RunKeepsHeld(held, later, d.item);
    SameHeld(held.items[d.item], Run(held, later).items[d.item]);
    SelectedExactly(Run(held, later), d.t, d.item);
  }

  lemma SameHeld(i: Item, j: Item)
    requires j.(reportedAs := None) == i.(reportedAs := None)
    ensures j.tenant == i.tenant && j.status == i.status && j.messageRef == i.messageRef
  {
    assert j.(reportedAs := None).tenant == i.tenant && j.(reportedAs := None).status == i.status;
    assert j.(reportedAs := None).messageRef == i.messageRef;
  }

  /** And the tenant's next release succeeds. */
  lemma HeldIsReleasedNext(before: seq<Event>, d: Event, later: seq<Event>, actor: string, now: nat)
    requires d.Decide? && d.item !in Run(EmptyAbuseDb, before).items && d.item in Apply(Run(EmptyAbuseDb, before), d).items
    requires forall k :: 0 <= k < |later| ==> !(later[k].Release? && later[k].t == d.t && later[k].item == d.item)
    ensures var db := Run(EmptyAbuseDb, before + [d] + later);
            var db' := Run(EmptyAbuseDb, before + [d] + later + [Release(d.t, d.item, actor, now)]);
            && d.item in db.items
            && db'.items == db.items[d.item := db.items[d.item].(status := Released, resolvedAt := Some(now), resolvedBy := Some(actor))]
            && db'.audit == db.audit + [AbuseEntry(d.t, actor, ItemReleased(d.req.messageRef), d.item)]
  {
    var all := before + [d] + later;
    var db := Run(EmptyAbuseDb, all);
    HeldStaysListed(before, d, later);
    SelectedExactly(db, d.t, d.item);
    SameHeld(Item(d.t, d.decision, d.req.messageRef, d.req.recipient, d.req.sender, d.req.subject,
                  (d.req.verdict, d.req.score), Held, None, d.now, None, None), db.items[d.item]);
    RunSnoc(EmptyAbuseDb, all, Release(d.t, d.item, actor, now));
    ReleaseTakesEffect(db, d.t, d.item, actor, now);
  }

  lemma ReleaseTakesEffect(db: AbuseDb, t: Id, item: Id, actor: string, now: nat)
    requires item in db.items && db.items[item].tenant == t && db.items[item].status == Held
    ensures var db' := Apply(db, Release(t, item, actor, now));
            && db'.items == db.items[item := db.items[item].(status := Released, resolvedAt := Some(now), resolvedBy := Some(actor))]
            && db'.audit == db.audit + [AbuseEntry(t, actor, ItemReleased(db.items[item].messageRef), item)]
  {}

  // ------------------------------------------------------------------------
  // Replaying the audit log
  // ------------------------------------------------------------------------

  datatype ItemView = ItemView(decision: Id, status: Status, resolvedBy: Option<string>, reportedAs: Option<string>)

  type Key = (Id, string)

  function KeyOf(i: Item): Key { (i.tenant, i.messageRef) }
  function ViewOf(i: Item): ItemView { ItemView(i.decision, i.status, i.resolvedBy, i.reportedAs) }

  function StepView(v: map<Key, ItemView>, e: AbuseEntry): map<Key, ItemView> {
    match e.action
    case DecisionMade(action, _, _, ref) =>
      if action == "quarantine" && (e.tenant, ref) !in v then v[(e.tenant, ref) := ItemView(e.entity, Held, None, None)] else v
    case ItemReleased(ref) =>
      if (e.tenant, ref) in v then v[(e.tenant, ref) := v[(e.tenant, ref)].(status := Released, resolvedBy := Some(e.actor))] else v
    case ItemReported(verdict, ref) =>
      if (e.tenant, ref) in v then v[(e.tenant, ref) := v[(e.tenant, ref)].(reportedAs := Some(verdict))] else v
  }

  function Rebuild(log: seq<AbuseEntry>): map<Key, ItemView> {
    if log == [] then map[] else StepView(Rebuild(log[..|log| - 1]), log[|log| - 1])
  }

  /** The view has exactly the keys of the items, each with its item's columns. */
  ghost predicate Mirrors(v: map<Key, ItemView>, items: map<Id, Item>) {
    && (forall k :: k in v ==> HasItem(items, k.0, k.1))
    && (forall i :: i in items ==> KeyOf(items[i]) in v && v[KeyOf(items[i])] == ViewOf(items[i]))
  }

  ghost predicate UniqueKeys(items: map<Id, Item>) {
    forall i, j :: i in items && j in items && KeyOf(items[i]) == KeyOf(items[j]) ==> i == j
  }

  /** What an event does to the items and the log. */
  datatype Change = Nothing | Logged | Added(id: Id, row: Item) | Resolved(id: Id, actor: string, now: nat) | Reported(id: Id, verdict: string)

  ghost predicate Legal(db: AbuseDb, c: Change, entry: AbuseEntry) {
    match c
    case Nothing => true
    case Logged =>
      entry.action.DecisionMade? && (entry.action.action == "quarantine" ==> HasItem(db.items, entry.tenant, entry.action.messageRef))
    case Added(id, row) =>
      && id !in db.items && !HasItem(db.items, row.tenant, row.messageRef)
      && row.status == Held && row.resolvedBy == None && row.resolvedAt == None && row.reportedAs == None
      && entry.tenant == row.tenant && entry.entity == row.decision
      && entry.action.DecisionMade? && entry.action.action == "quarantine" && entry.action.messageRef == row.messageRef
    case Resolved(id, actor, _) =>
      id in db.items && db.items[id].status == Held && entry.tenant == db.items[id].tenant && entry.actor == actor &&
      entry.action == ItemReleased(db.items[id].messageRef)
    case Reported(id, verdict) =>
      id in db.items && entry.tenant == db.items[id].tenant && entry.action == ItemReported(verdict, db.items[id].messageRef)
  }

  function NewItems(items: map<Id, Item>, c: Change): map<Id, Item> {
    match c
    case Added(id, row) => items[id := row]
    case Resolved(id, actor, now) =>
      if id in items then items[id := items[id].(status := Released, resolvedAt := Some(now), resolvedBy := Some(actor))] else items
    case Reported(id, verdict) => if id in items then items[id := items[id].(reportedAs := Some(verdict))] else items
    case _ => items
  }

  lemma EveryEventIsOneChange(db: AbuseDb, e: Event) returns (c: Change, entry: AbuseEntry)
    ensures Legal(db, c, entry)
    ensures Apply(db, e).items == NewItems(db.items, c)
    ensures Apply(db, e).audit == if c.Nothing? then db.audit else db.audit + [entry]
  {
    c, entry := Nothing, AbuseEntry(0, "", ItemReleased(""), 0);
    if Outcome(db, e).Ok? {
      match e
      case Decide(t, decision, item, req, actor, now) =>
        entry := AbuseEntry(t, actor, DecisionMade(req.action, req.verdict, req.score, req.messageRef), decision);
        if req.action == "quarantine" && !HasItem(db.items, t, req.messageRef) {
          c := Added(item, Item(t, decision, req.messageRef, req.recipient, req.sender, req.subject,
                                (req.verdict, req.score), Held, None, now, None, None));
        } else {
          c := Logged;
        }
      case Release(t, item, actor, now) =>
        c, entry := Resolved(item, actor, now), AbuseEntry(t, actor, ItemReleased(db.items[item].messageRef), item);
      case Report(t, item, verdict, actor) =>
        c, entry := Reported(item, verdict), AbuseEntry(t, actor, ItemReported(verdict, db.items[item].messageRef), item);
    }
  }

  lemma ChangeKeepsKeys(db: AbuseDb, c: Change, entry: AbuseEntry)
    requires Legal(db, c, entry) && UniqueKeys(db.items)
    ensures UniqueKeys(NewItems(db.items, c))
  {}

  lemma MirrorsUpdate(v: map<Key, ItemView>, items: map<Id, Item>, i: Id, row: Item)
    requires UniqueKeys(items) && Mirrors(v, items)
    requires if i in items then KeyOf(row) == KeyOf(items[i]) else !HasItem(items, row.tenant, row.messageRef)
    ensures Mirrors(v[KeyOf(row) := ViewOf(row)], items[i := row])
  {
    var v', items' := v[KeyOf(row) := ViewOf(row)], items[i := row];
    forall k | k in v' ensures HasItem(items', k.0, k.1) {
      if k == KeyOf(row) {
        assert items'[i].tenant == k.0 && items'[i].messageRef == k.1;
      } else {
        var j :| j in items && items[j].tenant == k.0 && items[j].messageRef == k.1;
        assert items'[j].tenant == k.0 && items'[j].messageRef == k.1;
      }
    }
  }

  lemma ChangeIsReplayed(db: AbuseDb, c: Change, entry: AbuseEntry, v: map<Key, ItemView>)
    requires Legal(db, c, entry) && UniqueKeys(db.items) && Mirrors(v, db.items) && !c.Nothing?
    ensures Mirrors(StepView(v, entry), NewItems(db.items, c))
  {
    match c
    case Logged =>
      if HasItem(db.items, entry.tenant, entry.action.messageRef) {
        var i :| i in db.items && db.items[i].tenant == entry.tenant && db.items[i].messageRef == entry.action.messageRef;
        assert KeyOf(db.items[i]) in v;
      }
    case Added(id, row) =>
      assert KeyOf(row) !in v;
      MirrorsUpdate(v, db.items, id, row);
    case Resolved(id, _, _) => MirrorsUpdate(v, db.items, id, NewItems(db.items, c)[id]);
    case Reported(id, _) => MirrorsUpdate(v, db.items, id, NewItems(db.items, c)[id]);
    case Nothing =>
  }

  /** After any run: one item per tenant and message, and replaying the audit log yields exactly
      the items, each with the decision that held it, its status, who resolved it and how it was
      reported. */
  lemma {:induction false} ReplayRebuildsItems(events: seq<Event>)
    ensures var db := Run(EmptyAbuseDb, events); UniqueKeys(db.items) && Mirrors(Rebuild(db.audit), db.items)
  {
    if events != [] {
      var before := events[..|events| - 1];
      ReplayRebuildsItems(before);
      var db := Run(EmptyAbuseDb, before);
      var c, entry := EveryEventIsOneChange(db, events[|events| - 1]);
      ChangeKeepsKeys(db, c, entry);
      if !c.Nothing? {
        ChangeIsReplayed(db, c, entry, Rebuild(db.audit));
        assert (db.audit + [entry])[..|db.audit|] == db.audit;
      }
    }
  }

  /** The rebuilt columns, one by one. */
  lemma RebuiltItem(events: seq<Event>, i: Id)
    requires i in Run(EmptyAbuseDb, events).items
    ensures var row, v := Run(EmptyAbuseDb, events).items[i], Rebuild(Run(EmptyAbuseDb, events).audit);
            && (row.tenant, row.messageRef) in v
            && var view := v[(row.tenant, row.messageRef)];
               && view.decision == row.decision && view.status == row.status
               && view.resolvedBy == row.resolvedBy && view.reportedAs == row.reportedAs
  {
    ReplayRebuildsItems(events);
    assert KeyOf(Run(EmptyAbuseDb, events).items[i]) in Rebuild(Run(EmptyAbuseDb, events).audit);
  }

  // ------------------------------------------------------------------------
  // Which decision an item is tied to
  // ------------------------------------------------------------------------

  predicate Quarantines(e: AbuseEntry, k: Key) {
    e.tenant == k.0 && e.action.DecisionMade? && e.action.action == "quarantine" && e.action.messageRef == k.1
  }

  /** The first decision in the log that quarantines the message. */
  function FirstQuarantining(log: seq<AbuseEntry>, k: Key): Option<Id> {
    if log == [] then None
    else if Quarantines(log[0], k) then Some(log[0].entity)
    else FirstQuarantining(log[1..], k)
  }

  lemma {:induction false} FirstSnoc(log: seq<AbuseEntry>, e: AbuseEntry, k: Key)
    ensures FirstQuarantining(log + [e], k) ==
            if FirstQuarantining(log, k).Some? then FirstQuarantining(log, k)
            else if Quarantines(e, k) then Some(e.entity) else None
  {
    if log != [] {
      FirstSnoc(log[1..], e, k);
      assert (log + [e])[1..] == log[1..] + [e];
    }
  }

  lemma {:induction false} RebuildTiesFirst(log: seq<AbuseEntry>, k: Key)
    ensures k in Rebuild(log) <==> FirstQuarantining(log, k).Some?
    ensures k in Rebuild(log) ==> FirstQuarantining(log, k) == Some(Rebuild(log)[k].decision)
  {
    if log != [] {
      var init, last := log[..|log| - 1], log[|log| - 1];
      RebuildTiesFirst(init, k);
      FirstSnoc(init, last, k);
      assert log == init + [last];
    }
  }

  /** A message has an item exactly when some decision quarantined it, and the item is tied to the
      earliest such decision. */
  lemma ItemsComeFromFirstDecision(events: seq<Event>, t: Id, ref: string)
    ensures var db := Run(EmptyAbuseDb, events);
            && (HasItem(db.items, t, ref) <==> FirstQuarantining(db.audit, (t, ref)).Some?)
            && (forall i :: i in db.items && KeyOf(db.items[i]) == (t, ref) ==>
                  FirstQuarantining(db.audit, (t, ref)) == Some(db.items[i].decision))
  {
    var db := Run(EmptyAbuseDb, events);
    ReplayRebuildsItems(events);
    RebuildTiesFirst(db.audit, (t, ref));
    if HasItem(db.items, t, ref) {
      var i :| i in db.items && db.items[i].tenant == t && db.items[i].messageRef == ref;
      assert KeyOf(db.items[i]) == (t, ref);
    }
  }

  // ------------------------------------------------------------------------
  // Release is final
  // ------------------------------------------------------------------------

  /** Items stay, keep their identity, and once released are never touched by a release again. */
  ghost predicate Kept(items: map<Id, Item>, items': map<Id, Item>) {
    forall i :: i in items ==>
      && i in items'
      && KeyOf(items'[i]) == KeyOf(items[i]) && items'[i].decision == items[i].decision && items'[i].heldAt == items[i].heldAt
      && (items[i].status == Released ==>
            items'[i].status == Released && items'[i].resolvedBy == items[i].resolvedBy && items'[i].resolvedAt == items[i].resolvedAt)
  }

  lemma {:induction false} RunKeepsItems(db: AbuseDb, events: seq<Event>)
    ensures Kept(db.items, Run(db, events).items)
  {
    if events != [] {
      var before := events[..|events| - 1];
      RunKeepsItems(db, before);
      var mid := Run(db, before);
      var c, entry := EveryEventIsOneChange(mid, events[|events| - 1]);
      assert Kept(mid.items, NewItems(mid.items, c));
    }
  }

  /** A released item stays released, with the same resolver, and its message is never listed
      again, even if it is quarantined anew. */
  lemma ReleasedNeverReappears(before: seq<Event>, after: seq<Event>, i: Id)
    requires i in Run(EmptyAbuseDb, before).items && Run(EmptyAbuseDb, before).items[i].status == Released
    ensures var db, db' := Run(EmptyAbuseDb, before), Run(EmptyAbuseDb, before + after);
            && i in db'.items && db'.items[i].status == Released
            && db'.items[i].resolvedBy == db.items[i].resolvedBy && db'.items[i].resolvedAt == db.items[i].resolvedAt
            && forall j :: j in ListQuarantine(db', db.items[i].tenant) ==>
                 db'.items[j].messageRef != db.items[i].messageRef
  {
    RunConcat(EmptyAbuseDb, before, after);
    var db, db' := Run(EmptyAbuseDb, before), Run(EmptyAbuseDb, before + after);
    RunKeepsItems(db, after);
    ReplayRebuildsItems(before + after);
    forall j | j in ListQuarantine(db', db.items[i].tenant) ensures db'.items[j].messageRef != db.items[i].messageRef {
      assert j != i;
      assert KeyOf(db'.items[j]) == KeyOf(db'.items[i]) ==> j == i;
    }
  }

  function Releases(log: seq<AbuseEntry>, k: Key): nat {
    if log == [] then 0
    else Releases(log[..|log| - 1], k) +
         if log[|log| - 1].tenant == k.0 && log[|log| - 1].action == ItemReleased(k.1) then 1 else 0
  }

  ghost predicate ReleasesOk(db: AbuseDb, k: Key) {
    && Releases(db.audit, k) <= 1
    && (Releases(db.audit, k) == 1 <==> exists i :: i in db.items && KeyOf(db.items[i]) == k && db.items[i].status == Released)
  }

  /** Each message is released at most once, and the log shows it exactly when it was. */
  lemma {:induction false} ReleasedAtMostOnce(events: seq<Event>, k: Key)
    ensures ReleasesOk(Run(EmptyAbuseDb, events), k)
  {
    if events != [] {
      var before := events[..|events| - 1];
      ReleasedAtMostOnce(before, k);
      ReplayRebuildsItems(before);
      var db := Run(EmptyAbuseDb, before);
      var c, entry := EveryEventIsOneChange(db, events[|events| - 1]);
      ReleasesAfter(db, Apply(db, events[|events| - 1]), c, entry, k);
    }
  }

  lemma ReleasesAfter(db: AbuseDb, db': AbuseDb, c: Change, entry: AbuseEntry, k: Key)
    requires Legal(db, c, entry) && UniqueKeys(db.items) && ReleasesOk(db, k)
    requires db'.items == NewItems(db.items, c) && db'.audit == if c.Nothing? then db.audit else db.audit + [entry]
    ensures ReleasesOk(db', k)
  {
    if !c.Nothing? { assert db'.audit[..|db'.audit| - 1] == db.audit; }
    if i :| i in db.items && KeyOf(db.items[i]) == k && db.items[i].status == Released {
      assert i in db'.items && KeyOf(db'.items[i]) == k && db'.items[i].status == Released;
    }
    if c.Resolved? && KeyOf(db.items[c.id]) == k {
      assert db'.items[c.id].status == Released && KeyOf(db'.items[c.id]) == k;
    }
  }

  // ------------------------------------------------------------------------
  // Tenants apart
  // ------------------------------------------------------------------------

  function VisibleLog(log: seq<AbuseEntry>, t: Id): seq<AbuseEntry> {
    if log == [] then []
    else VisibleLog(log[..|log| - 1], t) + if Sees(TenantSession(t), Some(log[|log| - 1].tenant)) then [log[|log| - 1]] else []
  }

  /** All a tenant session can read. */
  datatype AbuseSlice = AbuseSlice(decisions: map<Id, Decision>, items: map<Id, Item>, audit: seq<AbuseEntry>)

  function VisibleDecisions(db: AbuseDb, t: Id): map<Id, Decision> {
    map d | d in db.decisions && Sees(TenantSession(t), Some(db.decisions[d].tenant)) :: db.decisions[d]
  }

  function VisibleItems(db: AbuseDb, t: Id): map<Id, Item> {
    map i | i in db.items && VisibleItem(db, t, i) :: db.items[i]
  }

  function SliceOf(db: AbuseDb, t: Id): AbuseSlice {
    AbuseSlice(VisibleDecisions(db, t), VisibleItems(db, t), VisibleLog(db.audit, t))
  }

  /** The slice holds the tenant's own rows, all of them and unchanged, and of the log its own
      entries in order. */
  lemma SliceIsOwnRows(db: AbuseDb, t: Id, id: Id)
    ensures var v := SliceOf(db, t);
            && (id in v.decisions <==> id in db.decisions && db.decisions[id].tenant == t)
            && (id in v.items <==> id in db.items && db.items[id].tenant == t)
            && (id in v.decisions ==> v.decisions[id] == db.decisions[id]) && (id in v.items ==> v.items[id] == db.items[id])
  {}

  lemma LogSnoc(log: seq<AbuseEntry>, e: AbuseEntry, t: Id)
    ensures VisibleLog(log + [e], t) == VisibleLog(log, t) + if e.tenant == t then [e] else []
  {
    assert (log + [e])[..|log|] == log;
  }

  /** The rows and the entry a committed request writes. */
  datatype Write = Write(decisions: map<Id, Decision>, items: map<Id, Item>, entry: AbuseEntry)

  function WriteOf(db: AbuseDb, e: Event): Write
    requires Outcome(db, e).Ok?
  {
    match e
    case Decide(t, d, item, req, actor, now) =>
      Write(map[d := Decision(t, req.messageRef, req.direction, req.recipient, req.sender, req.score, req.action, req.verdict)],
            if req.action == "quarantine" && !HasItem(db.items, t, req.messageRef)
            then map[item := Item(t, d, req.messageRef, req.recipient, req.sender, req.subject,
                                  (req.verdict, req.score), Held, None, now, None, None)] else map[],
            AbuseEntry(t, actor, DecisionMade(req.action, req.verdict, req.score, req.messageRef), d))
    case Release(t, item, actor, now) =>
      Write(map[], map[item := db.items[item].(status := Released, resolvedAt := Some(now), resolvedBy := Some(actor))],
            AbuseEntry(t, actor, ItemReleased(db.items[item].messageRef), item))
    case Report(t, item, verdict, actor) =>
      Write(map[], map[item := db.items[item].(reportedAs := Some(verdict))],
            AbuseEntry(t, actor, ItemReported(verdict, db.items[item].messageRef), item))
  }

  /** What is written is the tenant's own and replaces nothing of anyone else's. */
  predicate OwnWrite(db: AbuseDb, t: Id, w: Write) {
    && w.entry.tenant == t
    && (forall d :: d in w.decisions ==> w.decisions[d].tenant == t && (d in db.decisions ==> db.decisions[d].tenant == t))
    && (forall i :: i in w.items ==> w.items[i].tenant == t && (i in db.items ==> db.items[i].tenant == t))
  }

  lemma RequestWritesOwn(db: AbuseDb, e: Event)
    requires Outcome(db, e).Ok?
    ensures var w := WriteOf(db, e);
            && OwnWrite(db, e.t, w)
            && Apply(db, e) == AbuseDb(db.decisions + w.decisions, db.items + w.items, db.audit + [w.entry])
  {
    var w, db' := WriteOf(db, e), Apply(db, e);
    assert db'.decisions == db.decisions + w.decisions;
    assert db'.items == db.items + w.items;
  }

  /** Confinement: a request of one tenant changes nothing another tenant can read. */
  lemma OthersAreUntouched(db: AbuseDb, e: Event, u: Id)
    requires u != e.t
    ensures SliceOf(Apply(db, e), u) == SliceOf(db, u)
  {
    if Outcome(db, e).Ok? {
      RequestWritesOwn(db, e);
      WriteKeepsOthers(db, e.t, WriteOf(db, e), u);
    }
  }

  lemma WriteKeepsOthers(db: AbuseDb, t: Id, w: Write, u: Id)
    requires OwnWrite(db, t, w) && u != t
    ensures SliceOf(AbuseDb(db.decisions + w.decisions, db.items + w.items, db.audit + [w.entry]), u) == SliceOf(db, u)
  {
    LogSnoc(db.audit, w.entry, u);
    DecisionsKept(db, t, w, u);
    ItemsKept(db, t, w, u);
  }

  lemma DecisionsKept(db: AbuseDb, t: Id, w: Write, u: Id)
    requires OwnWrite(db, t, w) && u != t
    ensures VisibleDecisions(AbuseDb(db.decisions + w.decisions, db.items + w.items, db.audit + [w.entry]), u) == VisibleDecisions(db, u)
  {}

  lemma ItemsKept(db: AbuseDb, t: Id, w: Write, u: Id)
    requires OwnWrite(db, t, w) && u != t
    ensures VisibleItems(AbuseDb(db.decisions + w.decisions, db.items + w.items, db.audit + [w.entry]), u) == VisibleItems(db, u)
  {}

  lemma WriteShowsInOwn(db: AbuseDb, t: Id, w: Write)
    requires OwnWrite(db, t, w)
    ensures SliceOf(AbuseDb(db.decisions + w.decisions, db.items + w.items, db.audit + [w.entry]), t) ==
            AbuseSlice(VisibleDecisions(db, t) + w.decisions, VisibleItems(db, t) + w.items, VisibleLog(db.audit, t) + [w.entry])
  {
    var db' := AbuseDb(db.decisions + w.decisions, db.items + w.items, db.audit + [w.entry]);
    LogSnoc(db.audit, w.entry, t);
    assert VisibleDecisions(db', t) == VisibleDecisions(db, t) + w.decisions;
    assert VisibleItems(db', t) == VisibleItems(db, t) + w.items;
  }

  /** The guard of the conflict: an id the request brings is in use. */
  predicate IdTaken(db: AbuseDb, e: Event) {
    e.Decide? &&
    (e.decision in db.decisions ||
     (e.req.action == "quarantine" && !HasItem(db.items, e.t, e.req.messageRef) && e.item in db.items))
  }

  /** Every check before the ids passes. */
  predicate Reaches(e: Event) {
    e.Decide? && e.req.action in VALID_ACTIONS && e.req.verdict in VALID_VERDICTS && DirectionCheck(e.req.direction)
  }

  lemma ConflictExactly(db: AbuseDb, e: Event)
    ensures Outcome(db, e) == Err(Conflict) <==> Reaches(e) && IdTaken(db, e)
  {}

  function Answer(db: AbuseDb, e: Event): Option<ApiError> {
    if Outcome(db, e).Ok? then None else Some(Outcome(db, e).error)
  }

  lemma SameVisible(db1: AbuseDb, db2: AbuseDb, t: Id)
    requires SliceOf(db1, t) == SliceOf(db2, t)
    ensures forall i :: VisibleItem(db1, t, i) ==> VisibleItem(db2, t, i) && db1.items[i] == db2.items[i]
    ensures forall ref :: HasItem(db1.items, t, ref) ==> HasItem(db2.items, t, ref)
  {
    forall i | VisibleItem(db1, t, i) ensures VisibleItem(db2, t, i) && db1.items[i] == db2.items[i] {
      assert i in VisibleItems(db1, t) && VisibleItems(db1, t)[i] == VisibleItems(db2, t)[i];
    }
    forall ref | HasItem(db1.items, t, ref) ensures HasItem(db2.items, t, ref) {
      var i :| i in db1.items && db1.items[i].tenant == t && db1.items[i].messageRef == ref;
      assert VisibleItem(db1, t, i);
    }
  }

  lemma SameOutcome(db1: AbuseDb, db2: AbuseDb, e: Event)
    requires SliceOf(db1, e.t) == SliceOf(db2, e.t)
    requires Outcome(db1, e) != Err(Conflict) && Outcome(db2, e) != Err(Conflict)
    ensures Answer(db1, e) == Answer(db2, e)
    ensures Outcome(db1, e).Ok? ==> WriteOf(db1, e) == WriteOf(db2, e)
  {
    SameVisible(db1, db2, e.t);
    SameVisible(db2, db1, e.t);
    match e
    case Decide(t, _, _, req, _, _) => assert HasItem(db1.items, t, req.messageRef) <==> HasItem(db2.items, t, req.messageRef);
    case Release(t, item, _, _) => assert VisibleItem(db1, t, item) <==> VisibleItem(db2, t, item);
    case Report(t, item, _, _) => assert VisibleItem(db1, t, item) <==> VisibleItem(db2, t, item);
  }

  /** Non-interference: in two stores that look alike to the requesting tenant the answer is the
      same exactly when the request fails an earlier check or its ids are taken in both or in
      neither, and then the stores still look alike. */
  lemma OnlyIdsLeak(db1: AbuseDb, db2: AbuseDb, e: Event)
    requires SliceOf(db1, e.t) == SliceOf(db2, e.t)
    ensures Answer(db1, e) == Answer(db2, e) <==> (Reaches(e) ==> (IdTaken(db1, e) <==> IdTaken(db2, e)))
    ensures Answer(db1, e) == Answer(db2, e) ==> SliceOf(Apply(db1, e), e.t) == SliceOf(Apply(db2, e), e.t)
  {
    ConflictExactly(db1, e);
    ConflictExactly(db2, e);
    if Outcome(db1, e) != Err(Conflict) && Outcome(db2, e) != Err(Conflict) {
      SameOutcome(db1, db2, e);
      if Outcome(db1, e).Ok? {
        RequestWritesOwn(db1, e); RequestWritesOwn(db2, e);
        WriteShowsInOwn(db1, e.t, WriteOf(db1, e)); WriteShowsInOwn(db2, e.t, WriteOf(db2, e));
      }
    }
  }

  /** Another tenant's item is not found: it can be neither released nor reported. */
  lemma ForeignItemIsHidden(db: AbuseDb, t: Id, item: Id, verdict: string, actor: string, now: nat)
    requires item in db.items && db.items[item].tenant != t && (verdict == "spam" || verdict == "ham")
    ensures ReleaseItem(db, t, item, actor, now) == Err(NotFound) && ReportItem(db, t, item, verdict, actor) == Err(NotFound)
    ensures item !in ListQuarantine(db, t)
  {}

  // ------------------------------------------------------------------------
  // The service
  // ------------------------------------------------------------------------

  /** The tenant's held items, all of them and nothing else, newest first. */
  ghost predicate ListsHeld(items: map<Id, Item>, t: Id, listing: seq<(Id, Item)>) {
    && (forall k :: 0 <= k < |listing| ==>
          var (i, row) := listing[k]; i in items && row == items[i] && items[i].tenant == t && items[i].status == Held)
    && (forall i :: i in items && items[i].tenant == t && items[i].status == Held ==> (i, items[i]) in listing)
    && (forall k, l :: 0 <= k < l < |listing| ==>
          listing[k].0 != listing[l].0 && listing[k].1.heldAt >= listing[l].1.heldAt)
  }

  lemma ReversedListsAll(rows: map<Id, Item>, heldAt: map<Id, nat>, oldestFirst: seq<(Id, Item)>, listing: seq<(Id, Item)>)
    requires ControlPlane.Lists(rows, heldAt, oldestFirst) && |listing| == |oldestFirst|
    requires forall k :: 0 <= k < |listing| ==> listing[k] == oldestFirst[|listing| - 1 - k]
    ensures forall i :: i in rows ==> (i, rows[i]) in listing
  {
    forall i | i in rows ensures (i, rows[i]) in listing {
      var k := ControlPlane.ListsEveryRow(rows, heldAt, oldestFirst, i);
      assert listing[|listing| - 1 - k] == (i, rows[i]);
    }
  }

  lemma NewestFirst(rows: map<Id, Item>, heldAt: map<Id, nat>, oldestFirst: seq<(Id, Item)>, listing: seq<(Id, Item)>)
    requires ControlPlane.Lists(rows, heldAt, oldestFirst) && |listing| == |oldestFirst|
    requires forall i :: i in rows ==> i in heldAt && heldAt[i] == rows[i].heldAt
    requires forall k :: 0 <= k < |listing| ==> listing[k] == oldestFirst[|listing| - 1 - k]
    ensures forall k, l :: 0 <= k < l < |listing| ==>
              listing[k].0 != listing[l].0 && listing[k].1.heldAt >= listing[l].1.heldAt
  {
    forall k, l | 0 <= k < l < |listing| ensures listing[k].0 != listing[l].0 && listing[k].1.heldAt >= listing[l].1.heldAt {
      var a, b := |listing| - 1 - l, |listing| - 1 - k;
      assert oldestFirst[a].0 != oldestFirst[b].0 && heldAt[oldestFirst[a].0] <= heldAt[oldestFirst[b].0];
    }
  }

  lemma ReversedListsHeld(db: AbuseDb, t: Id, rows: map<Id, Item>, heldAt: map<Id, nat>, oldestFirst: seq<(Id, Item)>,
                          listing: seq<(Id, Item)>)
    requires rows == ListQuarantine(db, t) && ControlPlane.Lists(rows, heldAt, oldestFirst) && |listing| == |oldestFirst|
    requires forall i :: i in rows ==> i in heldAt && heldAt[i] == rows[i].heldAt
    requires forall k :: 0 <= k < |listing| ==> listing[k] == oldestFirst[|listing| - 1 - k]
    ensures ListsHeld(db.items, t, listing)
  {
    forall i ensures i in rows <==> i in db.items && db.items[i].tenant == t && db.items[i].status == Held { SelectedExactly(db, t, i); }
    ReversedListsAll(rows, heldAt, oldestFirst, listing);
    NewestFirst(rows, heldAt, oldestFirst, listing);
  }

  class Desk {
    var decisions: map<Id, Decision>
    var items: map<Id, Item>
    var audit: seq<AbuseEntry>

    function State(): AbuseDb
      reads this
    {
      AbuseDb(decisions, items, audit)
    }

    constructor ()
      ensures State() == EmptyAbuseDb
    {
      decisions, items, audit := map[], map[], [];
    }

    method Decide(t: Id, decision: Id, item: Id, req: Request, actor: string, now: nat) returns (r: Result<Decision>)
      modifies this
      ensures var spec := RecordDecision(old(State()), t, decision, item, req, actor, now);
              && (spec.Err? ==> State() == old(State()) && r == Err(spec.error))
              && (spec.Ok? ==> State() == spec.value && decision in decisions && r == Ok(decisions[decision]))
    {
      if req.action !in VALID_ACTIONS || req.verdict !in VALID_VERDICTS { return Err(Validation); }
      if !DirectionCheck(req.direction) { return Err(Internal); }
      if decision in decisions { return Err(Conflict); }
      var row := Decision(t, req.messageRef, req.direction, req.recipient, req.sender, req.score, req.action, req.verdict);
      if req.action == "quarantine" && !HasItem(items, t, req.messageRef) {
        if item in items { return Err(Conflict); }
        items := items[item := Item(t, decision, req.messageRef, req.recipient, req.sender, req.subject,
                                    (req.verdict, req.score), Held, None, now, None, None)];
      }
      decisions := decisions[decision := row];
      audit := audit + [AbuseEntry(t, actor, DecisionMade(req.action, req.verdict, req.score, req.messageRef), decision)];
      r := Ok(row);
    }

    method Release(t: Id, item: Id, actor: string, now: nat) returns (r: Result<Item>)
      modifies this
      ensures var spec := ReleaseItem(old(State()), t, item, actor, now);
              && (spec.Err? ==> State() == old(State()) && r == Err(spec.error))
              && (spec.Ok? ==> State() == spec.value && item in items && r == Ok(items[item]))
    {
      if item !in items || items[item].tenant != t || items[item].status != Held { return Err(NotFound); }
      var row := items[item].(status := Released, resolvedAt := Some(now), resolvedBy := Some(actor));
      items := items[item := row];
      audit := audit + [AbuseEntry(t, actor, ItemReleased(row.messageRef), item)];
      r := Ok(row);
    }

    method Report(t: Id, item: Id, verdict: string, actor: string) returns (r: Result<Item>)
      modifies this
      ensures var spec := ReportItem(old(State()), t, item, verdict, actor);
              && (spec.Err? ==> State() == old(State()) && r == Err(spec.error))
              && (spec.Ok? ==> State() == spec.value && item in items && r == Ok(items[item]))
    {
      if verdict != "spam" && verdict != "ham" { return Err(Validation); }
      if item !in items || items[item].tenant != t { return Err(NotFound); }
      var row := items[item].(reportedAs := Some(verdict));
      items := items[item := row];
      audit := audit + [AbuseEntry(t, actor, ItemReported(verdict, row.messageRef), item)];
      r := Ok(row);
    }

    /** `list_quarantine` */
    method List(t: Id) returns (listing: seq<(Id, Item)>)
      ensures |listing| == |ListQuarantine(State(), t)| && ListsHeld(items, t, listing)
    {
      var rows := ListQuarantine(State(), t);
      var heldAt := map i | i in rows :: rows[i].heldAt;
      var oldestFirst := ControlPlane.ListRows(rows, heldAt);
      var n := |oldestFirst|;
      listing := seq(n, k requires 0 <= k < n => oldestFirst[n - 1 - k]);
      ReversedListsHeld(State(), t, rows, heldAt, oldestFirst, listing);
    }
  }
}

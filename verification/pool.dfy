/** Pooled connections and the settings row-level security reads (crates/og-db/src/db.rs).
    `set_config(…, true)` is local to the transaction; `set_config(…, false)` would not be. */
module Pool {
  import opened Strings
  import opened Store
  import T = Thresholds

  datatype Setting = CurrentTenantId | IsPlatformAdmin
  type Settings = map<Setting, string>

  /** An open transaction: the session's settings when it began and its own local ones. */
  datatype Transaction = Transaction(before: Settings, local: Settings)

  datatype Connection = Connection(session: Settings, tx: Option<Transaction>)

  const Fresh := Connection(map[], None)

  function Begin(c: Connection): Connection { c.(tx := Some(Transaction(c.session, map[]))) }

  /** A custom setting that was ever set keeps a place in the session, empty if nothing was set
      there, and keeps it after the transaction, however that ends. */
  function Placed(session: Settings, k: Setting): Settings { if k in session then session else session[k := ""] }

  function SetConfig(c: Connection, k: Setting, v: string, isLocal: bool): Connection {
    match c.tx
    case None => if isLocal then c.(session := Placed(c.session, k)) else c.(session := c.session[k := v])
    case Some(tx) =>
      if isLocal then c.(session := Placed(c.session, k), tx := Some(tx.(local := tx.local[k := v])))
      else c.(session := c.session[k := v], tx := Some(tx.(local := tx.local - {k})))
  }

  function Commit(c: Connection): Connection { c.(tx := None) }
  function Rollback(c: Connection): Connection {
    if c.tx.Some? then Connection(Restored(c.session, c.tx.value.before), None) else c
  }

  /** The session's settings after a rollback to `before`. */
  function Restored(session: Settings, before: Settings): Settings {
    map k | k in session :: if k in before then before[k] else ""
  }

  /** `current_setting(k, true)`; None stands for NULL. */
  function CurrentSetting(c: Connection, k: Setting): Option<string> {
    if c.tx.Some? && k in c.tx.value.local then Some(c.tx.value.local[k])
    else if k in c.session then Some(c.session[k])
    else None
  }

  /** A uuid as text, the same on both sides of the comparison. */
  function IdText(id: Id): string { T.Digits(id) }

  /** The USING clause of the policies. */
  predicate Admits(c: Connection, owner: Option<Id>) {
    || (owner.Some? && CurrentSetting(c, CurrentTenantId) == Some(IdText(owner.value)))
    || CurrentSetting(c, IsPlatformAdmin) == Some("true")
  }

  /** `tenant_tx` and `platform_tx` */
  function TenantTx(c: Connection, t: Id): Connection {
    SetConfig(Begin(c), CurrentTenantId, IdText(t), true)
  }
  function PlatformTx(c: Connection): Connection {
    SetConfig(Begin(c), IsPlatformAdmin, "true", true)
  }

  /** One earlier use of the connection. A transaction whose setting failed, or that was dropped,
      is rolled back before the connection is used again. */
  datatype Ending = Committed | RolledBack | SetupFailed
  datatype Use = TenantUse(t: Id, ending: Ending) | PlatformUse(ending: Ending)

  function AfterUse(c: Connection, u: Use): Connection {
    if u.ending == SetupFailed then Rollback(Begin(c))
    else
      var open := match u case TenantUse(t, _) => TenantTx(c, t) case PlatformUse(_) => PlatformTx(c);
      if u.ending == Committed then Commit(open) else Rollback(open)
  }

  function AfterUses(c: Connection, uses: seq<Use>): Connection {
    if uses == [] then c else AfterUse(AfterUses(c, uses[..|uses| - 1]), uses[|uses| - 1])
  }

  /** No transaction is open and no setting has a value. */
  ghost predicate Bare(c: Connection) { c.tx == None && forall k :: k in c.session ==> c.session[k] == "" }

  /** No use leaves more than empty settings behind. */
  lemma {:induction false} UsesLeaveNothingSet(c: Connection, uses: seq<Use>)
    requires Bare(c)
    ensures Bare(AfterUses(c, uses))
  {
    if uses != [] { UsesLeaveNothingSet(c, uses[..|uses| - 1]); }
  }

  lemma IdTextInjective(a: Id, b: Id)
    requires IdText(a) == IdText(b)
    ensures a == b
  {
    T.NumberOfDigits(a);
    T.NumberOfDigits(b);
  }

  /** On a bare connection a tenant transaction sees as that tenant and not as a platform
      administrator, and a platform transaction sees everything. */
  lemma BareSessionsAreExact(c: Connection, t: Id, owner: Option<Id>)
    requires Bare(c)
    ensures Admits(TenantTx(c, t), owner) <==> owner == Some(t)
    ensures Admits(PlatformTx(c), owner)
  {
    if owner.Some? && IdText(owner.value) == IdText(t) { IdTextInjective(owner.value, t); }
  }

  /** The same whatever ran on the connection before; and so are the sessions of the store. */
  lemma SessionsAreExact(uses: seq<Use>, t: Id, owner: Option<Id>)
    ensures Admits(TenantTx(AfterUses(Fresh, uses), t), owner) <==> owner == Some(t)
    ensures Admits(PlatformTx(AfterUses(Fresh, uses)), owner)
    ensures Sees(TenantSession(t), owner) <==> owner == Some(t)
    ensures Sees(PlatformSession, owner)
  {
    UsesLeaveNothingSet(Fresh, uses);
    BareSessionsAreExact(AfterUses(Fresh, uses), t, owner);
  }

  /** With session-level settings the next tenant on the connection would see everything. */
  lemma SessionLevelSettingsWouldLeak(t: Id, owner: Option<Id>)
    ensures var used := Commit(SetConfig(Begin(Fresh), IsPlatformAdmin, "true", false));
            Admits(TenantTx(used, t), owner)
  {}

  /** A connection of the pool as the object `og_db` drives. */
  class PooledConnection {
    var session: Settings
    var tx: Option<Transaction>

    ghost function State(): Connection
      reads this
    {
      Connection(session, tx)
    }

    /** Between uses no setting has a value. */
    ghost predicate Idle()
      reads this
    {
      Bare(State())
    }

    constructor ()
      ensures Idle()
    {
      session := map[];
      tx := None;
    }

    method OpenTenantTx(t: Id)
      requires Idle()
      modifies this
      ensures State() == TenantTx(old(State()), t)
      ensures forall owner :: Admits(State(), owner) <==> owner == Some(t)
    {
      forall owner ensures Admits(TenantTx(State(), t), owner) <==> owner == Some(t) {
        BareSessionsAreExact(State(), t, owner);
      }
      tx := Some(Transaction(session, map[]));
      if CurrentTenantId !in session { session := session[CurrentTenantId := ""]; }
      tx := Some(tx.value.(local := tx.value.local[CurrentTenantId := IdText(t)]));
    }

    method OpenPlatformTx()
      requires Idle()
      modifies this
      ensures State() == PlatformTx(old(State()))
      ensures forall owner :: Admits(State(), owner)
    {
      tx := Some(Transaction(session, map[]));
      if IsPlatformAdmin !in session { session := session[IsPlatformAdmin := ""]; }
      tx := Some(tx.value.(local := tx.value.local[IsPlatformAdmin := "true"]));
    }

    /** COMMIT or ROLLBACK of a transaction one of the two methods above opened. */
    method Close(commit: bool, ghost before: Connection)
      requires Bare(before) && ((exists t :: State() == TenantTx(before, t)) || State() == PlatformTx(before))
      modifies this
      ensures State() == if commit then Commit(old(State())) else Rollback(old(State()))
      ensures Idle()
    {
      if !commit { session := Restored(session, tx.value.before); }
      tx := None;
    }
  }
}

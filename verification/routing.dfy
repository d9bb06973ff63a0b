/** End to end: from any store a run of the system reaches, through the query, the grouping, the
    schema check and the emitted text, to the block Rspamd applies to a recipient. */
module Routing {
  import opened Strings
  import opened Validators
  import opened Store
  import opened Protocol
  import opened Invariants
  import opened Grouping
  import opened Rcpt
  import opened Ucl
  import opened UclRoundTrip
  import Schema
  import T = Thresholds

  /** `ps` is what a compile cycle makes of the store. */
  ghost predicate Compiles(db: Db, ds: seq<Id>, ps: seq<TenantPolicy>) {
    IsAnswer(db, ds) && IsGrouping(RowsFor(db, ds), ps)
  }

  ghost predicate Reachable(db: Db) { exists events :: Run(Initial, events).db == db }

  lemma ReachableIsOk(db: Db)
    requires Reachable(db)
    ensures TablesOk(db)
  {
    var events :| Run(Initial, events).db == db;
    TablesAlwaysOk(events);
  }

  // ------------------------------------------------------------------------
  // The effective policy
  // ------------------------------------------------------------------------

  /** The API and the compiler agree on every tenant's policy: its row, or 15, 6 and 4; and it is
      always finite, positive and in order. */
  lemma EffectivePolicy(db: Db, t: Id)
    requires Reachable(db)
    ensures GetPolicy(db, t) == CompiledPolicy(db, t)
    ensures GetPolicy(db, t) == if t in db.policies then db.policies[t] else T.Policy(T.Whole(15), T.Whole(6), T.Whole(4))
    ensures var p := GetPolicy(db, t);
            T.AllFinite(p) && 0.0 < T.Value(p.greylist) < T.Value(p.addHeader) < T.Value(p.reject)
    ensures T.ValidatePolicy(GetPolicy(db, t))
  {
    T.DefaultsAreValid();
    T.ValidMeansOrdered(GetPolicy(db, t));
    ReachableIsOk(db);
    assert t in db.policies ==> T.ValidatePolicy(db.policies[t]);
  }

  /** A tenant without a row renders like one whose row holds the defaults. */
  lemma NoRowIsDefaultRow(db: Db, t: Id, ds: seq<Id>)
    requires t !in db.policies && IsAnswer(db, ds)
    ensures var db' := db.(policies := db.policies[t := T.ApiDefaults()]);
            IsAnswer(db', ds) && RowsFor(db', ds) == RowsFor(db, ds) && GetPolicy(db', t) == GetPolicy(db, t)
  {
    T.DefaultsAreValid();
    var db' := db.(policies := db.policies[t := T.ApiDefaults()]);
    assert ActiveDomains(db') == ActiveDomains(db);
    forall i | 0 <= i < |ds| ensures RowFor(db', ds[i]) == RowFor(db, ds[i]) {}
  }

  // ------------------------------------------------------------------------
  // Compiled policies are fit to be checked and printed
  // ------------------------------------------------------------------------

  lemma RowOfGroup(db: Db, ds: seq<Id>, slug: string) returns (t: Id)
    requires TablesOk(db) && IsAnswer(db, ds) && FirstPolicy(RowsFor(db, ds), slug).Some?
    ensures t in ServedTenants(db) && t in db.tenants && db.tenants[t].slug == slug
    ensures FirstPolicy(RowsFor(db, ds), slug) == Some(CompiledPolicy(db, t))
  {
    var k := PolicyHasRow(RowsFor(db, ds), slug);
    assert RowsFor(db, ds)[k] == RowFor(db, ds[k]);
    t := db.domains[ds[k]].tenant;
  }

  /** Taking the thresholds from a tenant's first row is as good as from any other of its rows. */
  lemma RowsOfOneTenantAgree(db: Db, ds: seq<Id>, ps: seq<TenantPolicy>, i: nat, k: nat)
    requires Reachable(db) && Compiles(db, ds, ps) && i < |ps| && k < |ds|
    requires RowsFor(db, ds)[k].slug == ps[i].slug
    ensures RowsFor(db, ds)[k].policy == ps[i].policy
  {
    ReachableIsOk(db);
    assert IsGroup(RowsFor(db, ds), ps[i]);
    var t := RowOfGroup(db, ds, ps[i].slug);
    assert RowsFor(db, ds)[k] == RowFor(db, ds[k]);
  }

  lemma TenantSlugIsGood(db: Db, t: Id)
    requires TenantsOk(db) && t in db.tenants
    ensures var slug := db.tenants[t].slug; All(slug, IsNameChar) && slug != "" && '_' !in slug
  {
    assert ValidateSlug(db.tenants[t].slug);
    NameCharsAreAscii(db.tenants[t].slug);
  }

  lemma DomainNameIsGood(db: Db, d: Id)
    requires DomainsOk(db) && d in db.domains
    ensures All(db.domains[d].fqdn, IsFqdnChar) && db.domains[d].fqdn != ""
  {
    GoodFqdnAlphabet(db.domains[d].fqdn);
  }

  lemma GroupDomainsAreGood(db: Db, ds: seq<Id>, slug: string)
    requires DomainsOk(db) && IsAnswer(db, ds)
    ensures forall i :: 0 <= i < |DomainsOf(RowsFor(db, ds), slug)| ==>
              All(DomainsOf(RowsFor(db, ds), slug)[i], IsFqdnChar) && DomainsOf(RowsFor(db, ds), slug)[i] != ""
  {
    var rows := RowsFor(db, ds);
    var names := DomainsOf(rows, slug);
    forall i | 0 <= i < |names| ensures All(names[i], IsFqdnChar) && names[i] != "" {
      DomainsOfMembers(rows, slug, names[i]);
      assert names[i] in names;
      var k :| 0 <= k < |rows| && rows[k].slug == slug && rows[k].fqdn == names[i];
      assert rows[k] == RowFor(db, ds[k]);
      DomainNameIsGood(db, ds[k]);
    }
  }

  lemma PolicyIsGood(db: Db, t: Id)
    requires PoliciesOk(db)
    ensures T.ValidatePolicy(CompiledPolicy(db, t))
  {
    T.DefaultsAreValid();
  }

  lemma {:induction false} IdIsWord(slug: string)
    requires All(slug, IsNameChar)
    ensures All(Replace(slug, '-', "_"), IsWordChar)
  {
    if slug != [] { IdIsWord(slug[1..]); }
  }

  lemma SettingsIdIsWord(slug: string)
    requires All(slug, IsNameChar)
    ensures SettingsId(slug) != [] && All(SettingsId(slug), IsWordChar)
  {
    IdIsWord(slug);
    assert All("tenant_", IsWordChar);
  }

  /** What every compiled policy looks like. */
  ghost predicate Sound(p: TenantPolicy) {
    && All(p.slug, IsNameChar) && p.slug != "" && '_' !in p.slug
    && p.settingsId == SettingsId(p.slug)
    && p.domains != []
    && (forall i :: 0 <= i < |p.domains| ==> All(p.domains[i], IsFqdnChar) && p.domains[i] != "")
    && T.ValidatePolicy(p.policy)
  }

  lemma CompiledAreSound(db: Db, ds: seq<Id>, ps: seq<TenantPolicy>, i: nat)
    requires TablesOk(db) && Compiles(db, ds, ps) && i < |ps|
    ensures Sound(ps[i])
  {
    var rows, p := RowsFor(db, ds), ps[i];
    assert IsGroup(rows, p);
    var t := RowOfGroup(db, ds, p.slug);
    TenantSlugIsGood(db, t);
    PolicyIsGood(db, t);
    GroupDomainsAreGood(db, ds, p.slug);
    GroupsAreNotEmpty(rows, p.slug);
  }

  lemma SoundIsPresentable(p: TenantPolicy)
    requires Sound(p)
    ensures Schema.Presentable(p)
  {
    Schema.SettingsIdFits(p.slug);
  }

  lemma SoundIsPrintable(p: TenantPolicy)
    requires Sound(p)
    ensures Printable(p)
  {
    SettingsIdIsWord(p.slug);
    T.ValidMeansUnsigned(p.policy);
  }

  /** The compiler never rejects its own output. */
  lemma OwnOutputPasses(db: Db, ds: seq<Id>, ps: seq<TenantPolicy>)
    requires Reachable(db) && Compiles(db, ds, ps)
    ensures Schema.Valid(Schema.SettingsSchema(), Schema.RenderDoc(ps))
  {
    ReachableIsOk(db);
    forall i | 0 <= i < |ps| ensures Schema.Presentable(ps[i]) {
      CompiledAreSound(db, ds, ps, i);
      SoundIsPresentable(ps[i]);
    }
    Schema.DocumentPasses(ps);
  }

  // ------------------------------------------------------------------------
  // The text determines the policies
  // ------------------------------------------------------------------------

  function Unescape(s: string): string {
    if s == [] then []
    else if |s| >= 2 && s[0] == '\\' && s[1] == '.' then "." + Unescape(s[2..])
    else [s[0]] + Unescape(s[1..])
  }

  lemma {:induction false} UnescapeUndoes(d: string)
    requires All(d, IsFqdnChar)
    ensures Unescape(EscapeDots(d)) == d
  {
    if d != [] {
      UnescapeUndoes(d[1..]);
      var e := EscapeDots(d);
      if d[0] == '.' { assert e[2..] == EscapeDots(d[1..]); } else { assert e[1..] == EscapeDots(d[1..]); }
      assert d == [d[0]] + d[1..];
    }
  }

  /** The domain a `/@…$/` expression was made from. */
  function DomainOfRegex(r: string): string
    requires |r| >= 4
  {
    Unescape(r[2..|r| - 2])
  }

  /** Long enough for a settings id and for `/@…$/` expressions. */
  predicate WellShaped(b: Block) { |b.id| >= 7 && forall k :: 0 <= k < |b.rcpts| ==> |b.rcpts[k]| >= 4 }

  /** The policy a block was rendered from. */
  function PolicyOfBlock(b: Block): TenantPolicy
    requires WellShaped(b)
  {
    TenantPolicy(SlugOfId(b.id), b.id,
                 seq(|b.rcpts|, k requires 0 <= k < |b.rcpts| => DomainOfRegex(b.rcpts[k])),
                 T.Policy(T.Finite(false, b.reject), T.Finite(false, b.addHeader), T.Finite(false, b.greylist)))
  }

  lemma BlockDetermines(p: TenantPolicy)
    requires Sound(p) && Printable(p)
    ensures WellShaped(BlockOf(p)) && PolicyOfBlock(BlockOf(p)) == p
  {
    var b := BlockOf(p);
    SettingsIdInjective(p.slug, p.slug);
    forall k | 0 <= k < |b.rcpts| ensures |b.rcpts[k]| >= 4 && DomainOfRegex(b.rcpts[k]) == p.domains[k] {
      UnescapeUndoes(p.domains[k]);
      var r := b.rcpts[k];
      assert r == "/@" + EscapeDots(p.domains[k]) + "$/";
      assert r[2..|r| - 2] == EscapeDots(p.domains[k]);
    }
    assert PolicyOfBlock(b).domains == p.domains;
  }

  /** Rendering loses nothing: equal texts come from equal lists of policies. */
  lemma RenderingIsInjective(ps: seq<TenantPolicy>, ps': seq<TenantPolicy>)
    requires forall i :: 0 <= i < |ps| ==> Sound(ps[i])
    requires forall i :: 0 <= i < |ps'| ==> Sound(ps'[i])
    requires RenderUcl(ps) == RenderUcl(ps')
    ensures ps == ps'
  {
    forall i | 0 <= i < |ps| ensures Printable(ps[i]) { SoundIsPrintable(ps[i]); }
    forall i | 0 <= i < |ps'| ensures Printable(ps'[i]) { SoundIsPrintable(ps'[i]); }
    UclReadsBack(ps);
    UclReadsBack(ps');
    forall i | 0 <= i < |ps| ensures ps[i] == ps'[i] {
      assert BlocksOf(ps)[i] == BlocksOf(ps')[i];
      BlockDetermines(ps[i]);
      BlockDetermines(ps'[i]);
    }
  }

  /** The reader recovers the policies themselves: slugs, ids, domains in order and thresholds. */
  lemma PoliciesReadBack(ps: seq<TenantPolicy>, i: nat)
    requires (forall k :: 0 <= k < |ps| ==> Sound(ps[k])) && i < |ps|
    ensures Read(RenderUcl(ps)).Some? && |Read(RenderUcl(ps)).value| == |ps|
    ensures var b := Read(RenderUcl(ps)).value[i]; WellShaped(b) && PolicyOfBlock(b) == ps[i]
  {
    forall k | 0 <= k < |ps| ensures Printable(ps[k]) { SoundIsPrintable(ps[k]); }
    UclReadsBack(ps);
    BlockDetermines(ps[i]);
  }

  /** Block names never collide. */
  lemma BlockNamesDiffer(db: Db, ds: seq<Id>, ps: seq<TenantPolicy>, i: nat, j: nat)
    requires TablesOk(db) && Compiles(db, ds, ps) && i < j < |ps|
    ensures ps[i].settingsId != ps[j].settingsId
  {
    CompiledAreSound(db, ds, ps, i);
    CompiledAreSound(db, ds, ps, j);
    SettingsIdInjective(ps[i].slug, ps[j].slug);
    LessIrreflexive(ps[i].slug);
  }

  // ------------------------------------------------------------------------
  // Which block applies to a recipient
  // ------------------------------------------------------------------------

  /** One of the block's expressions selects the recipient. */
  ghost predicate Applies(b: Block, recipient: string) {
    exists k :: 0 <= k < |b.rcpts| && Selects(b.rcpts[k], recipient)
  }

  /** The recipient is at this active domain of an active tenant. */
  predicate Serves(db: Db, d: Id, recipient: string) {
    && d in db.domains && db.domains[d].status == DomainActive
    && db.domains[d].tenant in db.tenants && db.tenants[db.domains[d].tenant].status == TenantActive
    && DomainPart(Chomp(recipient)) == Some(db.domains[d].fqdn)
  }

  lemma BlockAppliesToItsDomains(p: TenantPolicy, recipient: string)
    requires Printable(p)
    ensures Applies(BlockOf(p), recipient) <==>
            DomainPart(Chomp(recipient)).Some? && DomainPart(Chomp(recipient)).value in p.domains
  {
    var b := BlockOf(p);
    forall k | 0 <= k < |p.domains|
      ensures Selects(b.rcpts[k], recipient) <==> DomainPart(Chomp(recipient)) == Some(p.domains[k])
    {
      SelectsExactlyTheDomain(p.domains[k], recipient);
    }
    if DomainPart(Chomp(recipient)).Some? && DomainPart(Chomp(recipient)).value in p.domains {
      var k :| 0 <= k < |p.domains| && p.domains[k] == DomainPart(Chomp(recipient)).value;
      assert Selects(b.rcpts[k], recipient);
    }
  }

  /** A tenant's group holds exactly the names of its own active domains. */
  lemma GroupHoldsOwnDomains(db: Db, ds: seq<Id>, t: Id, d: Id)
    requires TablesOk(db) && IsAnswer(db, ds) && t in db.tenants && d in ActiveDomains(db)
    ensures db.domains[d].fqdn in DomainsOf(RowsFor(db, ds), db.tenants[t].slug) <==> db.domains[d].tenant == t
  {
    var rows, slug, fqdn := RowsFor(db, ds), db.tenants[t].slug, db.domains[d].fqdn;
    DomainsOfMembers(rows, slug, fqdn);
    if k :| 0 <= k < |rows| && rows[k].slug == slug && rows[k].fqdn == fqdn {
      assert rows[k] == RowFor(db, ds[k]);
      assert ds[k] == d;
    }
    if db.domains[d].tenant == t {
      var k :| 0 <= k < |ds| && ds[k] == d;
      assert rows[k] == RowFor(db, d);
    }
  }

  lemma GroupNamesAreActive(db: Db, ds: seq<Id>, slug: string, name: string) returns (d: Id)
    requires IsAnswer(db, ds) && name in DomainsOf(RowsFor(db, ds), slug)
    ensures d in ActiveDomains(db) && db.domains[d].fqdn == name && db.tenants[db.domains[d].tenant].slug == slug
  {
    var rows := RowsFor(db, ds);
    DomainsOfMembers(rows, slug, name);
    var k :| 0 <= k < |rows| && rows[k].slug == slug && rows[k].fqdn == name;
    assert rows[k] == RowFor(db, ds[k]);
    d := ds[k];
  }

  lemma TenantHasGroup(db: Db, ds: seq<Id>, ps: seq<TenantPolicy>, d: Id) returns (i: nat)
    requires Compiles(db, ds, ps) && d in ActiveDomains(db)
    ensures i < |ps| && ps[i].slug == db.tenants[db.domains[d].tenant].slug
  {
    var k :| 0 <= k < |ds| && ds[k] == d;
    assert RowsFor(db, ds)[k] == RowFor(db, d);
    assert HasSlug(ps, RowsFor(db, ds)[k].slug);
    i :| 0 <= i < |ps| && ps[i].slug == db.tenants[db.domains[d].tenant].slug;
  }

  /** Block `i` belongs to tenant `t` and carries the policy the API reports for it. */
  ghost predicate IsBlockFor(db: Db, b: Block, t: Id) {
    && t in db.tenants
    && b.id == SettingsId(db.tenants[t].slug)
    && T.Policy(T.Finite(false, b.reject), T.Finite(false, b.addHeader), T.Finite(false, b.greylist)) == GetPolicy(db, t)
  }

  lemma BlockIsTenants(db: Db, ds: seq<Id>, ps: seq<TenantPolicy>, i: nat, t: Id)
    requires Reachable(db) && Compiles(db, ds, ps) && i < |ps| && Printable(ps[i])
    requires t in db.tenants && db.tenants[t].slug == ps[i].slug
    ensures IsBlockFor(db, BlockOf(ps[i]), t)
  {
    ReachableIsOk(db);
    assert IsGroup(RowsFor(db, ds), ps[i]);
    var u := RowOfGroup(db, ds, ps[i].slug);
    assert u == t;
    EffectivePolicy(db, t);
    T.ValidMeansUnsigned(GetPolicy(db, t));
  }

  /** One block of the emitted text against one recipient. */
  lemma BlockAgainstRecipient(db: Db, ds: seq<Id>, ps: seq<TenantPolicy>, i: nat, recipient: string)
    requires TablesOk(db) && Compiles(db, ds, ps) && i < |ps| && Printable(ps[i])
    ensures Applies(BlockOf(ps[i]), recipient) <==>
            exists d :: Serves(db, d, recipient) && db.tenants[db.domains[d].tenant].slug == ps[i].slug
  {
    var p := ps[i];
    assert IsGroup(RowsFor(db, ds), p);
    BlockAppliesToItsDomains(p, recipient);
    if Applies(BlockOf(p), recipient) {
      var d := GroupNamesAreActive(db, ds, p.slug, DomainPart(Chomp(recipient)).value);
      assert Serves(db, d, recipient);
    }
    if d :| Serves(db, d, recipient) && db.tenants[db.domains[d].tenant].slug == p.slug {
      GroupHoldsOwnDomains(db, ds, db.domains[d].tenant, d);
    }
  }

  lemma AllPrintable(db: Db, ds: seq<Id>, ps: seq<TenantPolicy>)
    requires TablesOk(db) && Compiles(db, ds, ps)
    ensures forall i :: 0 <= i < |ps| ==> Printable(ps[i])
  {
    forall i | 0 <= i < |ps| ensures Printable(ps[i]) {
      CompiledAreSound(db, ds, ps, i);
      SoundIsPrintable(ps[i]);
    }
  }

  /** How a settings file must treat a recipient: some block applies exactly when the text after the
      recipient's last `@` (up to one final line feed) is an active domain of an active tenant; no
      two blocks apply; and the one that does is named after the domain's tenant and carries the
      thresholds `get_policy` returns for it. */
  ghost predicate RoutesExactly(db: Db, bs: seq<Block>, recipient: string) {
    && ((exists i :: 0 <= i < |bs| && Applies(bs[i], recipient)) <==> (exists d :: Serves(db, d, recipient)))
    && (forall i, j :: 0 <= i < |bs| && 0 <= j < |bs| && Applies(bs[i], recipient) && Applies(bs[j], recipient) ==> i == j)
    && (forall i, d :: 0 <= i < |bs| && Applies(bs[i], recipient) && Serves(db, d, recipient) ==>
          IsBlockFor(db, bs[i], db.domains[d].tenant))
  }

  /** Compilation preserves meaning, for every reachable store and every recipient whatsoever. */
  lemma RoutingIsExact(db: Db, ds: seq<Id>, ps: seq<TenantPolicy>, recipient: string)
    requires Reachable(db) && Compiles(db, ds, ps)
    ensures Read(RenderUcl(ps)).Some? && RoutesExactly(db, Read(RenderUcl(ps)).value, recipient)
  {
    ReachableIsOk(db);
    AllPrintable(db, ds, ps);
    UclReadsBack(ps);
    BlocksRouteExactly(db, ds, ps, recipient);
  }

  lemma BlocksRouteExactly(db: Db, ds: seq<Id>, ps: seq<TenantPolicy>, recipient: string)
    requires Reachable(db) && Compiles(db, ds, ps) && forall i :: 0 <= i < |ps| ==> Printable(ps[i])
    ensures RoutesExactly(db, BlocksOf(ps), recipient)
  {
    ReachableIsOk(db);
    var bs := BlocksOf(ps);
    SomeBlockApplies(db, ds, ps, bs, recipient);
    forall i, j | 0 <= i < |bs| && 0 <= j < |bs| && Applies(bs[i], recipient) && Applies(bs[j], recipient) ensures i == j {
      OneBlockApplies(db, ds, ps, i, j, recipient);
    }
    forall i, d | 0 <= i < |bs| && Applies(bs[i], recipient) && Serves(db, d, recipient)
      ensures IsBlockFor(db, bs[i], db.domains[d].tenant)
    {
      BlockIsHome(db, ds, ps, i, d, recipient);
    }
  }

  lemma SomeBlockApplies(db: Db, ds: seq<Id>, ps: seq<TenantPolicy>, bs: seq<Block>, recipient: string)
    requires TablesOk(db) && Compiles(db, ds, ps) && forall i :: 0 <= i < |ps| ==> Printable(ps[i])
    requires |bs| == |ps| && forall i :: 0 <= i < |ps| ==> bs[i] == BlockOf(ps[i])
    ensures (exists i :: 0 <= i < |bs| && Applies(bs[i], recipient)) <==> (exists d :: Serves(db, d, recipient))
  {
    if i :| 0 <= i < |bs| && Applies(bs[i], recipient) { BlockAgainstRecipient(db, ds, ps, i, recipient); }
    if d :| Serves(db, d, recipient) {
      var i := TenantHasGroup(db, ds, ps, d);
      BlockAgainstRecipient(db, ds, ps, i, recipient);
      assert Applies(bs[i], recipient);
    }
  }

  lemma OneBlockApplies(db: Db, ds: seq<Id>, ps: seq<TenantPolicy>, i: nat, j: nat, recipient: string)
    requires TablesOk(db) && Compiles(db, ds, ps) && i < |ps| && j < |ps| && Printable(ps[i]) && Printable(ps[j])
    requires Applies(BlockOf(ps[i]), recipient) && Applies(BlockOf(ps[j]), recipient)
    ensures i == j
  {
    BlockAgainstRecipient(db, ds, ps, i, recipient);
    BlockAgainstRecipient(db, ds, ps, j, recipient);
    OneServingDomain(db, recipient);
    LessIrreflexive(ps[i].slug);
  }

  lemma BlockIsHome(db: Db, ds: seq<Id>, ps: seq<TenantPolicy>, i: nat, d: Id, recipient: string)
    requires Reachable(db) && Compiles(db, ds, ps) && i < |ps| && Printable(ps[i])
    requires Applies(BlockOf(ps[i]), recipient) && Serves(db, d, recipient)
    ensures IsBlockFor(db, BlockOf(ps[i]), db.domains[d].tenant)
  {
    ReachableIsOk(db);
    BlockAgainstRecipient(db, ds, ps, i, recipient);
    OneServingDomain(db, recipient);
    BlockIsTenants(db, ds, ps, i, db.domains[d].tenant);
  }

  lemma OneServingDomain(db: Db, recipient: string)
    requires TablesOk(db)
    ensures forall d, e :: Serves(db, d, recipient) && Serves(db, e, recipient) ==> d == e
  {}

  lemma EmailHasNoLineFeedAtEnd(email: string, fqdn: string)
    requires EmailAt(email, fqdn) && GoodFqdn(fqdn)
    ensures Chomp(email) == email
  {
    var local :| ValidateLocalPart(local) && email == local + "@" + fqdn;
    GoodFqdnAlphabet(fqdn);
    assert email[|email| - 1] == fqdn[|fqdn| - 1];
  }

  lemma EmailServedByOwnDomain(db: Db, a: Id, d: Id)
    requires TablesOk(db) && a in db.accounts
    ensures Serves(db, d, db.accounts[a].email) <==> d == db.accounts[a].domain && d in ActiveDomains(db)
  {
    var email, own := db.accounts[a].email, db.accounts[a].domain;
    assert AccountOk(db, db.accounts[a]);
    assert GoodFqdn(db.domains[own].fqdn);
    EmailHasNoLineFeedAtEnd(email, db.domains[own].fqdn);
    if d in db.domains { DomainFromEmail(db, a, d); }
  }

  lemma AccountServedBy(db: Db, a: Id, d: Id)
    requires TablesOk(db) && a in db.accounts
    ensures db.accounts[a].domain in db.domains && db.accounts[a].tenant in db.tenants
    ensures db.domains[db.accounts[a].domain].tenant == db.accounts[a].tenant
    ensures Serves(db, d, db.accounts[a].email) <==>
            d == db.accounts[a].domain && db.domains[db.accounts[a].domain].status == DomainActive &&
            db.tenants[db.accounts[a].tenant].status == TenantActive
  {
    assert AccountOk(db, db.accounts[a]);
    EmailServedByOwnDomain(db, a, d);
  }

  lemma AccountIsServed(db: Db, a: Id)
    requires TablesOk(db) && a in db.accounts
    ensures db.accounts[a].domain in db.domains && db.accounts[a].tenant in db.tenants
    ensures (exists d :: Serves(db, d, db.accounts[a].email)) <==>
            db.domains[db.accounts[a].domain].status == DomainActive && db.tenants[db.accounts[a].tenant].status == TenantActive
    ensures forall d :: Serves(db, d, db.accounts[a].email) ==> db.domains[d].tenant == db.accounts[a].tenant
  {
    AccountServedBy(db, a, db.accounts[a].domain);
    forall d | Serves(db, d, db.accounts[a].email) ensures d == db.accounts[a].domain { AccountServedBy(db, a, d); }
  }

  /** End to end: mail to an account is handled by the block of the account's own tenant, with that
      tenant's thresholds, exactly while tenant and domain are active. */
  lemma AccountsAreRoutedHome(db: Db, ds: seq<Id>, ps: seq<TenantPolicy>, a: Id)
    requires Reachable(db) && Compiles(db, ds, ps) && a in db.accounts
    ensures db.accounts[a].domain in db.domains && db.accounts[a].tenant in db.tenants
    ensures Read(RenderUcl(ps)).Some?
    ensures var bs := Read(RenderUcl(ps)).value;
            && ((exists i :: 0 <= i < |bs| && Applies(bs[i], db.accounts[a].email)) <==>
                  db.domains[db.accounts[a].domain].status == DomainActive && db.tenants[db.accounts[a].tenant].status == TenantActive)
            && (forall i :: 0 <= i < |bs| && Applies(bs[i], db.accounts[a].email) ==> IsBlockFor(db, bs[i], db.accounts[a].tenant))
  {
    ReachableIsOk(db);
    AccountIsServed(db, a);
    RoutingIsExact(db, ds, ps, db.accounts[a].email);
  }

  /** Mail to any domain of a tenant that is not active is under nobody's settings. */
  lemma InactiveTenantIsNotRouted(db: Db, ds: seq<Id>, ps: seq<TenantPolicy>, t: Id, d: Id, recipient: string)
    requires Reachable(db) && Compiles(db, ds, ps)
    requires t in db.tenants && db.tenants[t].status != TenantActive
    requires d in db.domains && db.domains[d].tenant == t && DomainPart(Chomp(recipient)) == Some(db.domains[d].fqdn)
    ensures Read(RenderUcl(ps)).Some?
    ensures forall i :: 0 <= i < |Read(RenderUcl(ps)).value| ==> !Applies(Read(RenderUcl(ps)).value[i], recipient)
  {
    NotServedIsNotRouted(db, ds, ps, d, recipient);
  }

  /** The same for a domain that is not active, whoever owns it. */
  lemma InactiveDomainIsNotRouted(db: Db, ds: seq<Id>, ps: seq<TenantPolicy>, d: Id, recipient: string)
    requires Reachable(db) && Compiles(db, ds, ps)
    requires d in db.domains && db.domains[d].status != DomainActive && DomainPart(Chomp(recipient)) == Some(db.domains[d].fqdn)
    ensures Read(RenderUcl(ps)).Some?
    ensures forall i :: 0 <= i < |Read(RenderUcl(ps)).value| ==> !Applies(Read(RenderUcl(ps)).value[i], recipient)
  {
    NotServedIsNotRouted(db, ds, ps, d, recipient);
  }

  lemma NotServedIsNotRouted(db: Db, ds: seq<Id>, ps: seq<TenantPolicy>, d: Id, recipient: string)
    requires Reachable(db) && Compiles(db, ds, ps)
    requires d in db.domains && DomainPart(Chomp(recipient)) == Some(db.domains[d].fqdn) && !Serves(db, d, recipient)
    ensures Read(RenderUcl(ps)).Some?
    ensures forall i :: 0 <= i < |Read(RenderUcl(ps)).value| ==> !Applies(Read(RenderUcl(ps)).value[i], recipient)
  {
    ReachableIsOk(db);
    RoutingIsExact(db, ds, ps, recipient);
    assert forall e :: Serves(db, e, recipient) ==> e == d;
  }

  /** The active tenants that have an active domain. */
  ghost function ServedTenants(db: Db): set<Id> {
    set t | t in db.tenants && db.tenants[t].status == TenantActive &&
            exists d :: d in db.domains && db.domains[d].tenant == t && db.domains[d].status == DomainActive
  }

  ghost predicate IsServed(db: Db, t: Id, slug: string) {
    t in ServedTenants(db) && t in db.tenants && db.tenants[t].slug == slug
  }

  ghost predicate Represent(db: Db, ts: seq<Id>, ps: seq<TenantPolicy>) {
    |ts| <= |ps| && forall i :: 0 <= i < |ts| ==> IsServed(db, ts[i], ps[i].slug)
  }

  lemma GroupTenant(db: Db, ds: seq<Id>, ps: seq<TenantPolicy>, i: nat) returns (t: Id)
    requires TablesOk(db) && Compiles(db, ds, ps) && i < |ps|
    ensures IsServed(db, t, ps[i].slug)
  {
    assert IsGroup(RowsFor(db, ds), ps[i]);
    t := RowOfGroup(db, ds, ps[i].slug);
  }

  lemma OneMoreTenant(db: Db, ts: seq<Id>, ps: seq<TenantPolicy>, t: Id)
    requires Represent(db, ts, ps) && |ts| < |ps| && IsServed(db, t, ps[|ts|].slug)
    ensures Represent(db, ts + [t], ps)
  {}

  lemma GroupTenants(db: Db, ds: seq<Id>, ps: seq<TenantPolicy>, n: nat) returns (ts: seq<Id>)
    requires TablesOk(db) && Compiles(db, ds, ps) && n <= |ps|
    ensures |ts| == n && Represent(db, ts, ps)
  {
    ts := [];
    for i := 0 to n
      invariant |ts| == i && Represent(db, ts, ps)
    {
      var t := GroupTenant(db, ds, ps, i);
      OneMoreTenant(db, ts, ps, t);
      ts := ts + [t];
    }
  }

  lemma ServedIsRepresented(db: Db, ds: seq<Id>, ps: seq<TenantPolicy>, ts: seq<Id>, t: Id)
    requires TenantsOk(db) && Compiles(db, ds, ps) && |ts| == |ps| && Represent(db, ts, ps) && t in ServedTenants(db)
    ensures t in ts
  {
    var d :| d in ActiveDomains(db) && db.domains[d].tenant == t;
    var i := TenantHasGroup(db, ds, ps, d);
    assert IsServed(db, ts[i], ps[i].slug);
    assert ts[i] == t;
  }

  lemma RepresentativesDiffer(db: Db, ts: seq<Id>, ps: seq<TenantPolicy>, i: nat, j: nat)
    requires Represent(db, ts, ps) && i < j < |ts| && Less(ps[i].slug, ps[j].slug)
    ensures ts[i] != ts[j]
  {
    assert IsServed(db, ts[i], ps[i].slug) && IsServed(db, ts[j], ps[j].slug);
    LessIrreflexive(ps[i].slug);
  }

  lemma OneGroupPerServedTenant(db: Db, ds: seq<Id>, ps: seq<TenantPolicy>)
    requires TablesOk(db) && Compiles(db, ds, ps)
    ensures |ps| == |ServedTenants(db)|
  {
    var ts := GroupTenants(db, ds, ps, |ps|);
    forall i, j | 0 <= i < j < |ts| ensures ts[i] != ts[j] { RepresentativesDiffer(db, ts, ps, i, j); }
    forall t ensures t in ts <==> t in ServedTenants(db) {
      if t in ServedTenants(db) { ServedIsRepresented(db, ds, ps, ts, t); }
      if t in ts { var i :| 0 <= i < |ts| && ts[i] == t; assert IsServed(db, ts[i], ps[i].slug); }
    }
    DistinctCover(ts, ServedTenants(db));
  }

  /** The active domains of active tenants. */
  ghost function ServedDomains(db: Db): set<Id> {
    set d | d in db.domains && db.domains[d].status == DomainActive && db.domains[d].tenant in db.tenants &&
            db.tenants[db.domains[d].tenant].status == TenantActive
  }

  lemma DomainFigure(db: Db, ds: seq<Id>, ps: seq<TenantPolicy>)
    requires Compiles(db, ds, ps)
    ensures TotalDomains(ps) == |ServedDomains(db)|
  {
    GroupingConservesRows(RowsFor(db, ds), ps);
    DistinctCover(ds, ServedDomains(db));
  }

  /** The audited figures: as many tenants as are active and have an active domain, as many domains
      as are active under an active tenant. */
  lemma AuditedFigures(db: Db, ds: seq<Id>, ps: seq<TenantPolicy>)
    requires Reachable(db) && Compiles(db, ds, ps)
    ensures |ps| == |ServedTenants(db)| && TotalDomains(ps) == |ServedDomains(db)|
    ensures forall t :: t in ServedTenants(db) <==>
              t in db.tenants && db.tenants[t].status == TenantActive &&
              exists d :: d in db.domains && db.domains[d].tenant == t && db.domains[d].status == DomainActive
    ensures forall d :: d in ServedDomains(db) <==>
              d in db.domains && db.domains[d].status == DomainActive &&
              db.domains[d].tenant in db.tenants && db.tenants[db.domains[d].tenant].status == TenantActive
  {
    ReachableIsOk(db);
    OneGroupPerServedTenant(db, ds, ps);
    DomainFigure(db, ds, ps);
  }

  lemma {:induction false} DistinctCover(ds: seq<Id>, s: set<Id>)
    requires forall i, j :: 0 <= i < j < |ds| ==> ds[i] != ds[j]
    requires forall d :: d in ds <==> d in s
    ensures |ds| == |s|
  {
    if ds == [] {
      assert s == {};
    } else {
      var init, last := ds[..|ds| - 1], ds[|ds| - 1];
      assert ds == init + [last];
      DistinctCover(init, s - {last});
    }
  }
}

/** From the store to one policy per tenant: the query of `load_policies`, its grouping loop and
    the settings id (crates/config-compiler/src/render.rs). */
module Grouping {
  import opened Strings
  import opened Store
  import T = Thresholds

  datatype QueryRow = QueryRow(slug: string, fqdn: string, policy: T.Policy)

  datatype TenantPolicy = TenantPolicy(slug: string, settingsId: string, domains: seq<string>, policy: T.Policy)

  /** `settings_id` */
  function SettingsId(slug: string): string { "tenant_" + Replace(slug, '-', "_") }

  // ------------------------------------------------------------------------
  // The query
  // ------------------------------------------------------------------------

  /** The joined and filtered rows, named by their domain. */
  function ActiveDomains(db: Db): set<Id> {
    set d | d in db.domains && db.domains[d].status == DomainActive && db.domains[d].tenant in db.tenants &&
            db.tenants[db.domains[d].tenant].status == TenantActive
  }

  /** COALESCE of the joined policy columns with the compiler's fallbacks. */
  function CompiledPolicy(db: Db, t: Id): T.Policy {
    if t in db.policies then db.policies[t] else T.Policy(T.REJECT, T.ADD_HEADER, T.GREYLIST)
  }

  function RowFor(db: Db, d: Id): QueryRow
    requires d in ActiveDomains(db)
  {
    var t := db.domains[d].tenant;
    QueryRow(db.tenants[t].slug, db.domains[d].fqdn, CompiledPolicy(db, t))
  }

  /** An answer of the query: every active domain of an active tenant once. The database's collation decides the order,
      and nothing below relies on it. */
  ghost predicate IsAnswer(db: Db, ds: seq<Id>) {
    && (forall i :: 0 <= i < |ds| ==>
          && ds[i] in db.domains && db.domains[ds[i]].status == DomainActive
          && db.domains[ds[i]].tenant in db.tenants && db.tenants[db.domains[ds[i]].tenant].status == TenantActive)
    && (forall d ::
          (d in db.domains && db.domains[d].status == DomainActive
           && db.domains[d].tenant in db.tenants && db.tenants[db.domains[d].tenant].status == TenantActive) ==> d in ds)
    && (forall i, j :: 0 <= i < j < |ds| ==> ds[i] != ds[j])
  }

  function RowsFor(db: Db, ds: seq<Id>): (rows: seq<QueryRow>)
    requires forall i :: 0 <= i < |ds| ==> ds[i] in ActiveDomains(db)
    ensures |rows| == |ds|
  {
    seq(|ds|, i requires 0 <= i < |ds| => RowFor(db, ds[i]))
  }

  // ------------------------------------------------------------------------
  // What grouping means
  // ------------------------------------------------------------------------

  function DomainsOf(rows: seq<QueryRow>, slug: string): seq<string> {
    if rows == [] then []
    else DomainsOf(rows[..|rows| - 1], slug) + if rows[|rows| - 1].slug == slug then [rows[|rows| - 1].fqdn] else []
  }

  /** The policy of the first row with that slug. */
  function FirstPolicy(rows: seq<QueryRow>, slug: string): Option<T.Policy> {
    if rows == [] then None
    else if rows[0].slug == slug then Some(rows[0].policy)
    else FirstPolicy(rows[1..], slug)
  }

  predicate IsGroup(rows: seq<QueryRow>, p: TenantPolicy) {
    && p.settingsId == SettingsId(p.slug)
    && p.domains == DomainsOf(rows, p.slug)
    && FirstPolicy(rows, p.slug) == Some(p.policy)
  }

  /** One policy per slug that occurs, in increasing byte order of the slugs; its domains are the
      slug's rows in row order and its thresholds those of the slug's first row. */
  ghost predicate IsGrouping(rows: seq<QueryRow>, ps: seq<TenantPolicy>) {
    && (forall i, j :: 0 <= i < j < |ps| ==> Less(ps[i].slug, ps[j].slug))
    && (forall i :: 0 <= i < |ps| ==> IsGroup(rows, ps[i]))
    && (forall k :: 0 <= k < |rows| ==> HasSlug(ps, rows[k].slug))
  }

  predicate HasSlug(ps: seq<TenantPolicy>, slug: string) { exists i :: 0 <= i < |ps| && ps[i].slug == slug }

  // ------------------------------------------------------------------------
  // The loop
  // ------------------------------------------------------------------------

  datatype Group = Group(domains: seq<string>, policy: T.Policy)

  lemma {:induction false} LeastExists(keys: set<string>) returns (least: string)
    requires keys != {}
    ensures least in keys && forall k :: k in keys && k != least ==> Less(least, k)
  {
    var x :| x in keys;
    if keys == {x} { return x; }
    var y := LeastExists(keys - {x});
    LessTotal(x, y);
    if Less(x, y) {
      forall k | k in keys && k != x ensures Less(x, k) { if k != y { LessTransitive(x, y, k); } }
      least := x;
    } else {
      least := y;
    }
  }

  lemma {:induction false} FirstPolicySnoc(rows: seq<QueryRow>, r: QueryRow, slug: string)
    ensures FirstPolicy(rows + [r], slug) ==
            if FirstPolicy(rows, slug).Some? then FirstPolicy(rows, slug)
            else if r.slug == slug then Some(r.policy) else None
  {
    if rows != [] {
      FirstPolicySnoc(rows[1..], r, slug);
      assert (rows + [r])[1..] == rows[1..] + [r];
    }
  }

  lemma DomainsOfSnoc(rows: seq<QueryRow>, r: QueryRow, slug: string)
    ensures DomainsOf(rows + [r], slug) == DomainsOf(rows, slug) + if r.slug == slug then [r.fqdn] else []
  {
    assert (rows + [r])[..|rows|] == rows;
  }

  /** The map holds the groups of the rows seen so far. */
  ghost predicate Holds(grouped: map<string, Group>, rows: seq<QueryRow>) {
    && (forall slug :: slug in grouped <==> FirstPolicy(rows, slug).Some?)
    && (forall slug :: slug in grouped ==>
          grouped[slug].domains == DomainsOf(rows, slug) && FirstPolicy(rows, slug) == Some(grouped[slug].policy))
  }

  lemma {:induction false} NoRowsNoDomains(rows: seq<QueryRow>, slug: string)
    requires FirstPolicy(rows, slug).None?
    ensures DomainsOf(rows, slug) == []
  {
    if rows != [] {
      var init, last := rows[..|rows| - 1], rows[|rows| - 1];
      assert rows == init + [last];
      FirstPolicySnoc(init, last, slug);
      NoRowsNoDomains(init, slug);
    }
  }

  lemma HoldsNext(grouped: map<string, Group>, rows: seq<QueryRow>, r: QueryRow)
    requires Holds(grouped, rows)
    ensures var entry := if r.slug in grouped then grouped[r.slug] else Group([], r.policy);
            Holds(grouped[r.slug := entry.(domains := entry.domains + [r.fqdn])], rows + [r])
  {
    forall slug
      ensures FirstPolicy(rows + [r], slug) ==
              if FirstPolicy(rows, slug).Some? then FirstPolicy(rows, slug)
              else if r.slug == slug then Some(r.policy) else None
      ensures DomainsOf(rows + [r], slug) == DomainsOf(rows, slug) + if r.slug == slug then [r.fqdn] else []
    {
      FirstPolicySnoc(rows, r, slug);
      DomainsOfSnoc(rows, r, slug);
    }
    if r.slug !in grouped { NoRowsNoDomains(rows, r.slug); }
  }

  lemma {:induction false} RowHasPolicy(rows: seq<QueryRow>, k: nat)
    requires k < |rows|
    ensures FirstPolicy(rows, rows[k].slug).Some?
  {
    if k > 0 && rows[0].slug != rows[k].slug { RowHasPolicy(rows[1..], k - 1); }
  }

  /** The grouping loop of `load_policies`, and the ordered walk over its map. */
  method GroupRows(rows: seq<QueryRow>) returns (ps: seq<TenantPolicy>)
    ensures IsGrouping(rows, ps)
  {
    var grouped: map<string, Group> := map[];
    for i := 0 to |rows|
      invariant Holds(grouped, rows[..i])
    {
      var r := rows[i];
      HoldsNext(grouped, rows[..i], r);
      assert rows[..i] + [r] == rows[..i + 1];
      var entry := if r.slug in grouped then grouped[r.slug] else Group([], r.policy);
      grouped := grouped[r.slug := entry.(domains := entry.domains + [r.fqdn])];
    }
    assert rows[..|rows|] == rows;
    ps := Drain(rows, grouped);
  }

  /** `ps` is the ordered part of the map that is not `left`. */
  ghost predicate Drained(rows: seq<QueryRow>, grouped: map<string, Group>, ps: seq<TenantPolicy>, left: set<string>) {
    && left <= grouped.Keys
    && (forall i :: 0 <= i < |ps| ==> IsGroup(rows, ps[i]))
    && (forall i, j :: 0 <= i < j < |ps| ==> Less(ps[i].slug, ps[j].slug))
    && (forall i, k :: 0 <= i < |ps| && k in left ==> Less(ps[i].slug, k))
    && (forall k :: k in grouped && k !in left ==> HasSlug(ps, k))
  }

  function PolicyFor(grouped: map<string, Group>, slug: string): TenantPolicy
    requires slug in grouped
  {
    TenantPolicy(slug, SettingsId(slug), grouped[slug].domains, grouped[slug].policy)
  }

  lemma DrainNext(rows: seq<QueryRow>, grouped: map<string, Group>, ps: seq<TenantPolicy>, left: set<string>, slug: string)
    requires Holds(grouped, rows) && Drained(rows, grouped, ps, left)
    requires slug in left && forall k :: k in left && k != slug ==> Less(slug, k)
    ensures Drained(rows, grouped, ps + [PolicyFor(grouped, slug)], left - {slug})
  {
    var ps' := ps + [PolicyFor(grouped, slug)];
    forall k | k in grouped && k !in left - {slug} ensures HasSlug(ps', k) {
      if k == slug {
        assert ps'[|ps|].slug == k;
      } else {
        assert HasSlug(ps, k);
        var i :| 0 <= i < |ps| && ps[i].slug == k;
        assert ps'[i].slug == k;
      }
    }
  }

  /** `into_iter().map(…).collect()` of a BTreeMap: by increasing key. */
  method Drain(ghost rows: seq<QueryRow>, grouped: map<string, Group>) returns (ps: seq<TenantPolicy>)
    requires Holds(grouped, rows)
    ensures IsGrouping(rows, ps)
  {
    ps := [];
    var left := grouped.Keys;
    while left != {}
      invariant Drained(rows, grouped, ps, left)
    {
      ghost var _ := LeastExists(left);
      var slug :| slug in left && forall k :: k in left && k != slug ==> Less(slug, k);
      DrainNext(rows, grouped, ps, left, slug);
      ps, left := ps + [PolicyFor(grouped, slug)], left - {slug};
    }
    forall k | 0 <= k < |rows| ensures HasSlug(ps, rows[k].slug) {
      RowHasPolicy(rows, k);
      assert rows[k].slug in grouped && rows[k].slug !in left;
    }
  }

  // ------------------------------------------------------------------------
  // What follows from the specification
  // ------------------------------------------------------------------------

  ghost predicate SameGroups(rows: seq<QueryRow>, rows': seq<QueryRow>) {
    forall slug :: DomainsOf(rows, slug) == DomainsOf(rows', slug) && FirstPolicy(rows, slug) == FirstPolicy(rows', slug)
  }

  ghost predicate Increasing(ss: seq<string>) { forall i, j :: 0 <= i < j < |ss| ==> Less(ss[i], ss[j]) }

  lemma {:induction false} SortedIsUnique(a: seq<string>, b: seq<string>)
    requires Increasing(a) && Increasing(b)
    requires forall x :: x in a <==> x in b
    ensures a == b
  {
    assert a != [] ==> a[0] in b;
    assert b != [] ==> b[0] in a;
    if a != [] {
      var i :| 0 <= i < |b| && b[i] == a[0];
      var j :| 0 <= j < |a| && a[j] == b[0];
      if i > 0 && j > 0 { LessTransitive(a[0], b[0], a[0]); LessIrreflexive(a[0]); assert false; }
      assert a[0] == b[0];
      var a', b' := a[1..], b[1..];
      forall x ensures x in a' <==> x in b' {
        if x in a' { NotBefore(a, x); assert x in b; }
        if x in b' { NotBefore(b, x); assert x in a; }
      }
      SortedIsUnique(a', b');
    }
  }

  lemma NotBefore(a: seq<string>, x: string)
    requires Increasing(a) && a != [] && x in a[1..]
    ensures x != a[0]
  {
    var k :| 0 <= k < |a| - 1 && a[1..][k] == x;
    assert Less(a[0], a[k + 1]);
    LessIrreflexive(x);
  }

  function SlugsOf(ps: seq<TenantPolicy>): (ss: seq<string>)
    ensures |ss| == |ps| && forall i :: 0 <= i < |ps| ==> ss[i] == ps[i].slug
  {
    seq(|ps|, i requires 0 <= i < |ps| => ps[i].slug)
  }

  lemma {:induction false} PolicyHasRow(rows: seq<QueryRow>, slug: string) returns (k: nat)
    requires FirstPolicy(rows, slug).Some?
    ensures k < |rows| && rows[k].slug == slug && FirstPolicy(rows, slug) == Some(rows[k].policy)
  {
    if rows[0].slug == slug { k := 0; } else { k := PolicyHasRow(rows[1..], slug); k := k + 1; }
  }

  lemma GroupedSlugs(rows: seq<QueryRow>, ps: seq<TenantPolicy>, slug: string)
    requires IsGrouping(rows, ps)
    ensures slug in SlugsOf(ps) <==> FirstPolicy(rows, slug).Some?
  {
    if slug in SlugsOf(ps) {
      var i :| 0 <= i < |ps| && SlugsOf(ps)[i] == slug;
      assert IsGroup(rows, ps[i]);
    }
    if FirstPolicy(rows, slug).Some? {
      var k := PolicyHasRow(rows, slug);
      assert HasSlug(ps, rows[k].slug);
      var i :| 0 <= i < |ps| && ps[i].slug == rows[k].slug;
      assert SlugsOf(ps)[i] == slug;
    }
  }

  /** The grouping is determined by each slug's own rows: the result is unique, and reordering rows
      of different slugs does not change it. */
  lemma GroupingIsDetermined(rows: seq<QueryRow>, rows': seq<QueryRow>, ps: seq<TenantPolicy>, ps': seq<TenantPolicy>)
    requires IsGrouping(rows, ps) && IsGrouping(rows', ps') && SameGroups(rows, rows')
    ensures ps == ps'
  {
    forall slug ensures slug in SlugsOf(ps) <==> slug in SlugsOf(ps') {
      GroupedSlugs(rows, ps, slug);
      GroupedSlugs(rows', ps', slug);
    }
    SortedIsUnique(SlugsOf(ps), SlugsOf(ps'));
    forall i | 0 <= i < |ps| ensures ps[i] == ps'[i] {
      assert IsGroup(rows, ps[i]) && IsGroup(rows', ps'[i]) && SlugsOf(ps)[i] == SlugsOf(ps')[i];
    }
  }

  /** Exchanging two neighbouring rows of different slugs keeps every group. */
  lemma {:induction false} ExchangeKeepsGroups(before: seq<QueryRow>, a: QueryRow, b: QueryRow, after: seq<QueryRow>)
    requires a.slug != b.slug
    ensures SameGroups(before + [a, b] + after, before + [b, a] + after)
    decreases |after|
  {
    var x, y := before + [a, b] + after, before + [b, a] + after;
    if after == [] {
      forall slug ensures DomainsOf(x, slug) == DomainsOf(y, slug) && FirstPolicy(x, slug) == FirstPolicy(y, slug) {
        assert x == (before + [a]) + [b] && y == (before + [b]) + [a];
        DomainsOfSnoc(before, a, slug); DomainsOfSnoc(before + [a], b, slug);
        DomainsOfSnoc(before, b, slug); DomainsOfSnoc(before + [b], a, slug);
        FirstPolicySnoc(before, a, slug); FirstPolicySnoc(before + [a], b, slug);
        FirstPolicySnoc(before, b, slug); FirstPolicySnoc(before + [b], a, slug);
      }
    } else {
      var init, last := after[..|after| - 1], after[|after| - 1];
      ExchangeKeepsGroups(before, a, b, init);
      var x', y' := before + [a, b] + init, before + [b, a] + init;
      assert x == x' + [last] && y == y' + [last];
      forall slug ensures DomainsOf(x, slug) == DomainsOf(y, slug) && FirstPolicy(x, slug) == FirstPolicy(y, slug) {
        DomainsOfSnoc(x', last, slug); DomainsOfSnoc(y', last, slug);
        FirstPolicySnoc(x', last, slug); FirstPolicySnoc(y', last, slug);
      }
    }
  }

  /** The `domains` figure of the audit entry. */
  function TotalDomains(ps: seq<TenantPolicy>): nat {
    if ps == [] then 0 else TotalDomains(ps[..|ps| - 1]) + |ps[|ps| - 1].domains|
  }

  function RowsUnder(slugs: seq<string>, rows: seq<QueryRow>): nat {
    if slugs == [] then 0 else RowsUnder(slugs[..|slugs| - 1], rows) + |DomainsOf(rows, slugs[|slugs| - 1])|
  }

  predicate Distinct(slugs: seq<string>) { forall i, j :: 0 <= i < j < |slugs| ==> slugs[i] != slugs[j] }

  lemma {:induction false} OneMoreRow(slugs: seq<string>, rows: seq<QueryRow>, r: QueryRow)
    requires Distinct(slugs)
    ensures RowsUnder(slugs, rows + [r]) == RowsUnder(slugs, rows) + if r.slug in slugs then 1 else 0
  {
    if slugs != [] {
      var init, last := slugs[..|slugs| - 1], slugs[|slugs| - 1];
      OneMoreRow(init, rows, r);
      DomainsOfSnoc(rows, r, last);
      assert slugs == init + [last];
    }
  }

  lemma {:induction false} AllRowsUnder(slugs: seq<string>, rows: seq<QueryRow>)
    requires Distinct(slugs) && forall k :: 0 <= k < |rows| ==> rows[k].slug in slugs
    ensures RowsUnder(slugs, rows) == |rows|
  {
    if rows == [] {
      NoneUnder(slugs);
    } else {
      var init, last := rows[..|rows| - 1], rows[|rows| - 1];
      AllRowsUnder(slugs, init);
      OneMoreRow(slugs, init, last);
      assert rows == init + [last];
    }
  }

  lemma {:induction false} NoneUnder(slugs: seq<string>)
    ensures RowsUnder(slugs, []) == 0
  {
    if slugs != [] { NoneUnder(slugs[..|slugs| - 1]); }
  }

  lemma {:induction false} TotalIsRowsUnder(rows: seq<QueryRow>, ps: seq<TenantPolicy>)
    requires forall i :: 0 <= i < |ps| ==> IsGroup(rows, ps[i])
    ensures TotalDomains(ps) == RowsUnder(SlugsOf(ps), rows)
  {
    if ps != [] {
      TotalIsRowsUnder(rows, ps[..|ps| - 1]);
      assert SlugsOf(ps)[..|ps| - 1] == SlugsOf(ps[..|ps| - 1]);
      assert IsGroup(rows, ps[|ps| - 1]);
    }
  }

  /** No row is lost or repeated: the audited number of domains is the number of rows. */
  lemma GroupingConservesRows(rows: seq<QueryRow>, ps: seq<TenantPolicy>)
    requires IsGrouping(rows, ps)
    ensures TotalDomains(ps) == |rows|
  {
    var slugs := SlugsOf(ps);
    forall i, j | 0 <= i < j < |slugs| ensures slugs[i] != slugs[j] {
      LessIrreflexive(slugs[i]);
      assert Less(ps[i].slug, ps[j].slug);
    }
    forall k | 0 <= k < |rows| ensures rows[k].slug in slugs {
      assert HasSlug(ps, rows[k].slug);
      var i :| 0 <= i < |ps| && ps[i].slug == rows[k].slug;
      assert slugs[i] == rows[k].slug;
    }
    TotalIsRowsUnder(rows, ps);
    AllRowsUnder(slugs, rows);
  }

  /** A group is never empty. */
  lemma {:induction false} GroupsAreNotEmpty(rows: seq<QueryRow>, slug: string)
    requires FirstPolicy(rows, slug).Some?
    ensures DomainsOf(rows, slug) != []
  {
    var init, last := rows[..|rows| - 1], rows[|rows| - 1];
    assert rows == init + [last];
    FirstPolicySnoc(init, last, slug);
    if last.slug != slug { GroupsAreNotEmpty(init, slug); }
  }

  /** Which domains a group holds. */
  lemma {:induction false} DomainsOfMembers(rows: seq<QueryRow>, slug: string, fqdn: string)
    ensures fqdn in DomainsOf(rows, slug) <==> exists k :: 0 <= k < |rows| && rows[k].slug == slug && rows[k].fqdn == fqdn
  {
    if rows != [] {
      var init, last := rows[..|rows| - 1], rows[|rows| - 1];
      DomainsOfMembers(init, slug, fqdn);
      if fqdn in DomainsOf(init, slug) {
        var k :| 0 <= k < |init| && init[k].slug == slug && init[k].fqdn == fqdn;
        assert rows[k].slug == slug && rows[k].fqdn == fqdn;
      }
      if k :| 0 <= k < |rows| && rows[k].slug == slug && rows[k].fqdn == fqdn {
        if k < |init| { assert init[k] == rows[k]; }
      }
    }
  }

  // ------------------------------------------------------------------------
  // Settings ids
  // ------------------------------------------------------------------------

  lemma {:induction false} ReplaceUndone(s: string)
    requires '_' !in s
    ensures Replace(Replace(s, '-', "_"), '_', "-") == s
  {
    if s != [] {
      ReplaceUndone(s[1..]);
      var r := Replace(s, '-', "_");
      assert r[1..] == Replace(s[1..], '-', "_");
      assert s == [s[0]] + s[1..];
    }
  }

  /** The id is `tenant_` and the slug with every hyphen an underscore. */
  lemma SettingsIdSpelled(slug: string)
    ensures |SettingsId(slug)| == 7 + |slug| && SettingsId(slug)[..7] == "tenant_"
    ensures forall i :: 0 <= i < |slug| ==> SettingsId(slug)[7 + i] == if slug[i] == '-' then '_' else slug[i]
  {
    ReplacedChars(slug);
  }

  lemma {:induction false} ReplacedChars(s: string)
    ensures |Replace(s, '-', "_")| == |s|
    ensures forall i :: 0 <= i < |s| ==> Replace(s, '-', "_")[i] == if s[i] == '-' then '_' else s[i]
  {
    if s != [] { ReplacedChars(s[1..]); }
  }

  /** The slug a settings id stands for. */
  function SlugOfId(id: string): string
    requires |id| >= 7
  {
    Replace(id[7..], '_', "-")
  }

  /** Slugs have no underscore, so different tenants never share a settings id. */
  lemma SettingsIdInjective(a: string, b: string)
    requires '_' !in a && '_' !in b
    ensures SlugOfId(SettingsId(a)) == a
    ensures SettingsId(a) == SettingsId(b) ==> a == b
  {
    ReplaceUndone(a);
    ReplaceUndone(b);
    assert SettingsId(a)[7..] == Replace(a, '-', "_") && SettingsId(b)[7..] == Replace(b, '-', "_");
  }
}

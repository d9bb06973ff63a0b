/** Signing keys: parsing a key set and the cache of crates/og-auth/src/lib.rs under concurrent
    lookups. A lookup reads the cache, on a miss fetches the key set, overwrites the cache, and
    reads it again; other lookups run between any two of these. */
module Jwks {
  import opened Strings
  import opened Base64Url
  import opened Token

  datatype Jwk = Jwk(kid: string, x: string, kty: string, crv: string)

  /** An Ed25519 key of section 2 of RFC 8037 whose `x` decodes. */
  predicate Usable(k: Jwk) { k.kty == "OKP" && k.crv == "Ed25519" && Decode(k.x).Some? }

  type Keys = map<string, Bytes>

  function KeysOf(doc: seq<Jwk>): Keys {
    if doc == [] then map[]
    else
      var before, k := KeysOf(doc[..|doc| - 1]), doc[|doc| - 1];
      if Usable(k) then before[k.kid := Decode(k.x).value] else before
  }

  /** `parse_jwks` */
  method ParseJwks(doc: seq<Jwk>) returns (keys: Keys)
    ensures keys == KeysOf(doc)
  {
    keys := map[];
    for i := 0 to |doc|
      invariant keys == KeysOf(doc[..i])
    {
      assert doc[..i + 1][..i] == doc[..i];
      if doc[i].kty != "OKP" || doc[i].crv != "Ed25519" { continue; }
      var raw := Decode(doc[i].x);
      if raw.Some? { keys := keys[doc[i].kid := raw.value]; }
    }
    assert doc[..|doc|] == doc;
  }

  /** Entry `i` is the last usable one for `kid`. */
  predicate IsLastUsable(doc: seq<Jwk>, kid: string, i: nat) {
    && i < |doc| && Usable(doc[i]) && doc[i].kid == kid
    && forall j :: i < j < |doc| ==> !(Usable(doc[j]) && doc[j].kid == kid)
  }

  ghost predicate HasUsable(doc: seq<Jwk>, kid: string) { exists i: nat :: IsLastUsable(doc, kid, i) }

  /** The parsed map holds, for each kid, the key of its last usable entry, and nothing else. */
  lemma {:induction false} ParsedKeyIsLastUsable(doc: seq<Jwk>, kid: string)
    ensures kid in KeysOf(doc) <==> HasUsable(doc, kid)
    ensures forall i: nat :: IsLastUsable(doc, kid, i) ==> kid in KeysOf(doc) && KeysOf(doc)[kid] == Decode(doc[i].x).value
  {
    if doc != [] {
      var init, n := doc[..|doc| - 1], |doc| - 1;
      ParsedKeyIsLastUsable(init, kid);
      if Usable(doc[n]) && doc[n].kid == kid {
        assert IsLastUsable(doc, kid, n);
        assert forall i: nat :: IsLastUsable(doc, kid, i) ==> i == n;
      } else {
        forall i: nat ensures IsLastUsable(doc, kid, i) <==> IsLastUsable(init, kid, i) {
          LastUsableOfInit(doc, kid, i);
        }
        assert KeysOf(doc) == KeysOf(init) || (kid != doc[n].kid && KeysOf(doc) == KeysOf(init)[doc[n].kid := Decode(doc[n].x).value]);
      }
    }
  }

  /** Which entries are usable, and which of them counts. */
  lemma UsableMeans(doc: seq<Jwk>, kid: string, i: nat)
    ensures IsLastUsable(doc, kid, i) <==>
            && i < |doc| && doc[i].kid == kid && doc[i].kty == "OKP" && doc[i].crv == "Ed25519" && Decode(doc[i].x) != None
            && forall j :: i < j < |doc| && doc[j].kid == kid ==>
                 doc[j].kty != "OKP" || doc[j].crv != "Ed25519" || Decode(doc[j].x) == None
  {}

  lemma LastUsableOfInit(doc: seq<Jwk>, kid: string, i: nat)
    requires doc != [] && !(Usable(doc[|doc| - 1]) && doc[|doc| - 1].kid == kid)
    ensures IsLastUsable(doc, kid, i) <==> IsLastUsable(doc[..|doc| - 1], kid, i)
  {
    var init, n := doc[..|doc| - 1], |doc| - 1;
    if IsLastUsable(init, kid, i) {
      assert forall j :: i < j < |doc| && j != n ==> init[j] == doc[j];
    }
    if IsLastUsable(doc, kid, i) {
      assert forall j :: i < j < n ==> init[j] == doc[j];
    }
  }

  /** The document the mock provider serves yields its own key under its own kid. */
  function ServedDoc(s: Scheme, idp: Idp): seq<Jwk> {
    [Jwk(idp.kid, Encode(s.publicKey(idp.key)), "OKP", "Ed25519")]
  }

  lemma ServedKeyResolves(s: Scheme, idp: Idp)
    ensures KeysOf(ServedDoc(s, idp)) == map[idp.kid := s.publicKey(idp.key)]
  {
    DecodeOfEncode(s.publicKey(idp.key));
    assert ServedDoc(s, idp)[..0] == [];
  }

  /** Fetch, parse, mint and verify together. */
  lemma EndToEnd(s: Scheme, c: Codec, idp: Idp, subject: string, tenantId: string, roles: seq<string>, ttl: int, minted: int, now: int)
    requires Correct(s) && Faithful(c)
    requires var exp := WrapI64(minted + ttl); exp == 0 || exp >= now
    ensures var keys := KeysOf(ServedDoc(s, idp));
            var keyFor := (kid: string) => if kid in keys then Auth.Ok(keys[kid]) else Err(UnknownKey);
            Verify(s, c, Mint(s, c, idp, subject, tenantId, roles, ttl, minted), keyFor, Some(idp.issuer), now) ==
            Auth.Ok(Caller(subject, c.parseUuid(tenantId), roles))
  {
    ServedKeyResolves(s, idp);
    var keys := KeysOf(ServedDoc(s, idp));
    var keyFor := (kid: string) => if kid in keys then Auth.Ok(keys[kid]) else Err(UnknownKey);
    MintedTokenVerifies(s, c, idp, subject, tenantId, roles, ttl, minted, keyFor, Some(idp.issuer), now);
  }

  // ------------------------------------------------------------------------
  // The cache under concurrency
  // ------------------------------------------------------------------------

  datatype Cached = Cached(keys: Keys, fetchedAt: nat)

  /** `cached`: a key of a cache that is not older than the time to live. */
  function CachedKey(cache: Option<Cached>, ttl: nat, clock: nat, kid: string): Option<Bytes> {
    if cache.Some? && clock <= cache.value.fetchedAt + ttl && kid in cache.value.keys
    then Some(cache.value.keys[kid]) else None
  }

  /** A running or finished lookup. `at` and `writes` record when the deciding read happened and how
      many cache writes there had been. */
  datatype Lookup =
    | Fetching(kid: string)
    | Holding(kid: string, doc: nat)
    | Rereading(kid: string)
    | Found(kid: string, key: Bytes, at: nat, writes: nat)
    | NotFound(kid: string, at: nat, writes: nat)
    | FetchFailed(kid: string)
    | Dropped

  /** A fetched key set and its stamp. The stamp is taken before the write lock is awaited, so
      between the two other lookups may write. */
  datatype Fetched = Fetched(keys: seq<Jwk>, at: nat)

  /** `writes` lists the documents written to the cache, in order. */
  datatype State = State(clock: nat, cache: Option<Cached>, lookups: seq<Lookup>, docs: seq<Fetched>, writes: seq<nat>)

  const Initial := State(0, None, [], [], [])

  datatype Event =
    | Tick(dt: nat)
    | Starts(kid: string)
    | Fetches(l: nat, reply: Option<seq<Jwk>>)
    | Writes(l: nat)
    | Rereads(l: nat)
    | Drops(l: nat)

  function SetLookup(s: State, l: nat, x: Lookup): State
    requires l < |s.lookups|
  {
    s.(lookups := s.lookups[l := x])
  }

  function CacheOf(d: Fetched): Cached { Cached(KeysOf(d.keys), d.at) }

  function Apply(s: State, ttl: nat, e: Event): State {
    match e
    case Tick(dt) => s.(clock := s.clock + dt)
    case Starts(kid) =>
      var k := CachedKey(s.cache, ttl, s.clock, kid);
      s.(lookups := s.lookups + [if k.Some? then Found(kid, k.value, s.clock, |s.writes|) else Fetching(kid)])
    case Fetches(l, reply) =>
      if l < |s.lookups| && s.lookups[l].Fetching? then
        if reply.None? then SetLookup(s, l, FetchFailed(s.lookups[l].kid))
        else SetLookup(s, l, Holding(s.lookups[l].kid, |s.docs|)).(docs := s.docs + [Fetched(reply.value, s.clock)])
      else s
    case Writes(l) =>
      if l < |s.lookups| && s.lookups[l].Holding? && s.lookups[l].doc < |s.docs| then
        SetLookup(s, l, Rereading(s.lookups[l].kid)).(
          cache := Some(CacheOf(s.docs[s.lookups[l].doc])), writes := s.writes + [s.lookups[l].doc])
      else s
    case Rereads(l) =>
      if l < |s.lookups| && s.lookups[l].Rereading? then
        var k := CachedKey(s.cache, ttl, s.clock, s.lookups[l].kid);
        SetLookup(s, l, if k.Some? then Found(s.lookups[l].kid, k.value, s.clock, |s.writes|)
                        else NotFound(s.lookups[l].kid, s.clock, |s.writes|))
      else s
    case Drops(l) => if l < |s.lookups| then SetLookup(s, l, Dropped) else s
  }

  function Run(ttl: nat, events: seq<Event>): State {
    if events == [] then Initial else Apply(Run(ttl, events[..|events| - 1]), ttl, events[|events| - 1])
  }

  /** The document in the cache after the first `n` writes. */
  predicate Wrote(s: State, n: nat, d: Fetched) {
    0 < n <= |s.writes| && s.writes[n - 1] < |s.docs| && s.docs[s.writes[n - 1]] == d
  }

  ghost predicate FoundOk(s: State, ttl: nat, x: Lookup)
    requires x.Found?
  {
    exists d :: Wrote(s, x.writes, d) && x.kid in KeysOf(d.keys) && KeysOf(d.keys)[x.kid] == x.key && d.at <= x.at <= d.at + ttl
  }

  ghost predicate NotFoundOk(s: State, ttl: nat, x: Lookup)
    requires x.NotFound?
  {
    exists d :: Wrote(s, x.writes, d) && (x.kid !in KeysOf(d.keys) || d.at + ttl < x.at)
  }

  ghost predicate LookupOk(s: State, ttl: nat, x: Lookup) {
    match x
    case Holding(_, doc) => doc < |s.docs|
    case Rereading(_) => |s.writes| > 0
    case Found(_, _, _, _) => FoundOk(s, ttl, x)
    case NotFound(_, _, _) => NotFoundOk(s, ttl, x)
    case _ => true
  }

  predicate CacheOk(s: State) {
    && (forall i :: 0 <= i < |s.docs| ==> s.docs[i].at <= s.clock)
    && (forall i :: 0 <= i < |s.writes| ==> s.writes[i] < |s.docs|)
    && match s.cache
       case None => s.writes == []
       case Some(c) => s.writes != [] && c == CacheOf(s.docs[s.writes[|s.writes| - 1]])
  }

  ghost predicate Ok(s: State, ttl: nat) {
    CacheOk(s) && forall i :: 0 <= i < |s.lookups| ==> LookupOk(s, ttl, s.lookups[i])
  }

  /** Documents and writes are only added. */
  predicate Grows(s: State, s': State) { s.docs <= s'.docs && s.writes <= s'.writes && s.clock <= s'.clock }

  lemma LookupCarriesOver(s: State, s': State, ttl: nat, x: Lookup)
    requires Grows(s, s') && LookupOk(s, ttl, x)
    ensures LookupOk(s', ttl, x)
  {
    if x.Found? {
      var d :| Wrote(s, x.writes, d) && x.kid in KeysOf(d.keys) && KeysOf(d.keys)[x.kid] == x.key && d.at <= x.at <= d.at + ttl;
      assert Wrote(s', x.writes, d);
    }
    if x.NotFound? {
      var d :| Wrote(s, x.writes, d) && (x.kid !in KeysOf(d.keys) || d.at + ttl < x.at);
      assert Wrote(s', x.writes, d);
    }
  }

  /** What a read of the cache decides. */
  lemma ReadIsOk(s: State, ttl: nat, kid: string)
    requires CacheOk(s)
    ensures var k := CachedKey(s.cache, ttl, s.clock, kid);
            && (k.Some? ==> FoundOk(s, ttl, Found(kid, k.value, s.clock, |s.writes|)))
            && (k.None? && s.writes != [] ==> NotFoundOk(s, ttl, NotFound(kid, s.clock, |s.writes|)))
  {
    if s.writes != [] { assert Wrote(s, |s.writes|, s.docs[s.writes[|s.writes| - 1]]); }
  }

  lemma EventKeepsCacheOk(s: State, ttl: nat, e: Event)
    requires CacheOk(s)
    ensures CacheOk(Apply(s, ttl, e)) && Grows(s, Apply(s, ttl, e))
  {}

  lemma EventKeepsOk(s: State, ttl: nat, e: Event)
    requires Ok(s, ttl)
    ensures Ok(Apply(s, ttl, e), ttl)
  {
    var s' := Apply(s, ttl, e);
    EventKeepsCacheOk(s, ttl, e);
    forall i | 0 <= i < |s'.lookups| ensures LookupOk(s', ttl, s'.lookups[i]) {
      if i < |s.lookups| && s'.lookups[i] == s.lookups[i] {
        LookupCarriesOver(s, s', ttl, s.lookups[i]);
      } else {
        NewLookupIsOk(s, ttl, e, i);
      }
    }
  }

  lemma NewLookupIsOk(s: State, ttl: nat, e: Event, i: nat)
    requires Ok(s, ttl) && i < |Apply(s, ttl, e).lookups|
    requires i < |s.lookups| ==> Apply(s, ttl, e).lookups[i] != s.lookups[i]
    ensures LookupOk(Apply(s, ttl, e), ttl, Apply(s, ttl, e).lookups[i])
  {
    var s' := Apply(s, ttl, e);
    match e
    case Starts(kid) => ReadIsOk(s, ttl, kid); if s'.lookups[i].Found? { LookupCarriesOver(s, s', ttl, s'.lookups[i]); }
    case Rereads(l) =>
      assert LookupOk(s, ttl, s.lookups[l]);
      ReadIsOk(s, ttl, s.lookups[l].kid);
      LookupCarriesOver(s, s', ttl, s'.lookups[i]);
    case _ =>
  }

  lemma {:induction false} RunIsOk(ttl: nat, events: seq<Event>)
    ensures Ok(Run(ttl, events), ttl)
  {
    if events != [] {
      RunIsOk(ttl, events[..|events| - 1]);
      EventKeepsOk(Run(ttl, events[..|events| - 1]), ttl, events[|events| - 1]);
    }
  }

  /** Under every interleaving: a key a lookup returned for a kid is the last usable entry for that
      kid in one fetched document, the one written last before the lookup read the cache, and its
      stamp was then at most the time to live old. */
  lemma FoundKeysAreFresh(ttl: nat, events: seq<Event>, l: nat) returns (d: Fetched, i: nat)
    requires l < |Run(ttl, events).lookups| && Run(ttl, events).lookups[l].Found?
    ensures var s := Run(ttl, events); var x := s.lookups[l];
            && Wrote(s, x.writes, d) && d.at <= x.at <= d.at + ttl
            && IsLastUsable(d.keys, x.kid, i) && Decode(d.keys[i].x) == Some(x.key)
  {
    RunIsOk(ttl, events);
    var s := Run(ttl, events);
    var x := s.lookups[l];
    assert LookupOk(s, ttl, x);
    d :| Wrote(s, x.writes, d) && x.kid in KeysOf(d.keys) && KeysOf(d.keys)[x.kid] == x.key && d.at <= x.at <= d.at + ttl;
    ParsedKeyIsLastUsable(d.keys, x.kid);
    i :| IsLastUsable(d.keys, x.kid, i);
  }

  // ------------------------------------------------------------------------
  // When a lookup is answered at once, and when it fetches
  // ------------------------------------------------------------------------

  /** The document written last, if any, is `d`; it is at most the time to live old and its last
      usable entry for `kid` is entry `i`. */
  predicate Answers(s: State, ttl: nat, kid: string, d: Fetched, i: nat) {
    && s.writes != [] && s.writes[|s.writes| - 1] < |s.docs| && d == s.docs[s.writes[|s.writes| - 1]]
    && s.clock <= d.at + ttl
    && IsLastUsable(d.keys, kid, i)
  }

  /** A read of the cache finds exactly that. */
  lemma ReadAnswers(s: State, ttl: nat, kid: string)
    requires CacheOk(s)
    ensures CachedKey(s.cache, ttl, s.clock, kid).Some? <==> exists d, i: nat :: Answers(s, ttl, kid, d, i)
    ensures forall d, i: nat :: Answers(s, ttl, kid, d, i) ==>
              CachedKey(s.cache, ttl, s.clock, kid) == Decode(d.keys[i].x)
  {
    if s.writes != [] {
      var d := s.docs[s.writes[|s.writes| - 1]];
      ParsedKeyIsLastUsable(d.keys, kid);
      if i: nat :| IsLastUsable(d.keys, kid, i) && s.clock <= d.at + ttl { assert Answers(s, ttl, kid, d, i); }
    }
  }

  /** Under every interleaving: a lookup that starts is answered at once, with the last usable entry
      for its kid in the document written last, if there is one and it is at most the time to live
      old; exactly otherwise it goes on to fetch. It changes nothing else. */
  lemma StartsExactly(ttl: nat, events: seq<Event>, kid: string)
    ensures var s, s' := Run(ttl, events), Run(ttl, events + [Starts(kid)]);
            && s'.clock == s.clock && s'.cache == s.cache && s'.docs == s.docs && s'.writes == s.writes
            && |s'.lookups| == |s.lookups| + 1 && s'.lookups[..|s.lookups|] == s.lookups
            && var x := s'.lookups[|s.lookups|];
               && (x == Fetching(kid) || (x.Found? && x.kid == kid && x.at == s.clock && x.writes == |s.writes|))
               && (x.Found? <==> exists d, i: nat :: Answers(s, ttl, kid, d, i))
               && (x.Found? ==> forall d, i: nat :: Answers(s, ttl, kid, d, i) ==> Decode(d.keys[i].x) == Some(x.key))
  {
    RunSnoc(ttl, events, Starts(kid));
    RunIsOk(ttl, events);
    ReadAnswers(Run(ttl, events), ttl, kid);
  }

  /** The second read, after the lookup's own write, decides in the same way. */
  lemma RereadsExactly(ttl: nat, events: seq<Event>, l: nat)
    requires l < |Run(ttl, events).lookups| && Run(ttl, events).lookups[l].Rereading?
    ensures var s, s' := Run(ttl, events), Run(ttl, events + [Rereads(l)]);
            && s'.clock == s.clock && s'.cache == s.cache && s'.docs == s.docs && s'.writes == s.writes
            && |s'.lookups| == |s.lookups| && (forall m :: 0 <= m < |s.lookups| && m != l ==> s'.lookups[m] == s.lookups[m])
            && var kid, x := s.lookups[l].kid, s'.lookups[l];
               && (x == NotFound(kid, s.clock, |s.writes|) || (x.Found? && x.kid == kid && x.at == s.clock && x.writes == |s.writes|))
               && (x.Found? <==> exists d, i: nat :: Answers(s, ttl, kid, d, i))
               && (x.Found? ==> forall d, i: nat :: Answers(s, ttl, kid, d, i) ==> Decode(d.keys[i].x) == Some(x.key))
  {
    RunSnoc(ttl, events, Rereads(l));
    RunIsOk(ttl, events);
    ReadAnswers(Run(ttl, events), ttl, Run(ttl, events).lookups[l].kid);
  }

  /** Step `k` of the run is the start of lookup `l`. */
  predicate StartedAt(ttl: nat, events: seq<Event>, k: nat, l: nat) {
    k < |events| && events[k].Starts? && |Run(ttl, events[..k]).lookups| == l
  }

  predicate Settled(x: Lookup) { x.Found? || x.Dropped? }

  /** What the past of lookup `l` looks like: where it started and, unless it was answered there,
      that nothing answered it; where its fetch failed, if it did. */
  ghost predicate Past(ttl: nat, events: seq<Event>, l: nat, x: Lookup, k: nat) {
    && StartedAt(ttl, events, k, l)
    && (!x.Dropped? ==> x.kid == events[k].kid)
    && ((exists d, i: nat :: Answers(Run(ttl, events[..k]), ttl, events[k].kid, d, i)) ==> Settled(x))
    && (x.FetchFailed? ==> exists j :: k < j < |events| && events[j] == Fetches(l, None))
  }

  lemma EventKeepsLookup(s: State, ttl: nat, e: Event, l: nat)
    requires l < |s.lookups|
    ensures l < |Apply(s, ttl, e).lookups|
    ensures var x, x' := s.lookups[l], Apply(s, ttl, e).lookups[l];
            && (!x'.Dropped? ==> !x.Dropped? && x'.kid == x.kid)
            && (Settled(x) ==> Settled(x'))
            && (x'.FetchFailed? ==> x.FetchFailed? || e == Fetches(l, None))
  {}

  lemma FetchStaysAsked(init: seq<Event>, e: Event, l: nat, k: nat)
    requires (exists j :: k < j < |init| && init[j] == Fetches(l, None)) || (k < |init| && e == Fetches(l, None))
    ensures exists j :: k < j < |init + [e]| && (init + [e])[j] == Fetches(l, None)
  {
    if j :| k < j < |init| && init[j] == Fetches(l, None) {
      assert (init + [e])[j] == Fetches(l, None);
    } else {
      assert (init + [e])[|init|] == Fetches(l, None);
    }
  }

  lemma PastStays(ttl: nat, init: seq<Event>, e: Event, l: nat, k: nat)
    requires l < |Run(ttl, init).lookups| && Past(ttl, init, l, Run(ttl, init).lookups[l], k)
    ensures l < |Run(ttl, init + [e]).lookups| && Past(ttl, init + [e], l, Run(ttl, init + [e]).lookups[l], k)
  {
    RunSnoc(ttl, init, e);
    EventKeepsLookup(Run(ttl, init), ttl, e, l);
    assert (init + [e])[..k] == init[..k] && (init + [e])[k] == init[k];
    if Run(ttl, init + [e]).lookups[l].FetchFailed? { FetchStaysAsked(init, e, l, k); }
  }

  lemma {:induction false} EveryLookupHasAPast(ttl: nat, events: seq<Event>, l: nat) returns (k: nat)
    requires l < |Run(ttl, events).lookups|
    ensures Past(ttl, events, l, Run(ttl, events).lookups[l], k)
  {
    var init, n := events[..|events| - 1], |events| - 1;
    if l < |Run(ttl, init).lookups| {
      k := EveryLookupHasAPast(ttl, init, l);
      assert events == init + [events[n]];
      PastStays(ttl, init, events[n], l, k);
    } else {
      k := n;
      assert events[n].Starts? && events == init + [events[n]];
      StartsExactly(ttl, init, events[n].kid);
    }
  }

  /** A lookup that failed to fetch did ask for the document, and it did so because at its start no
      document in the cache answered it. */
  lemma FetchesOnlyOnMiss(ttl: nat, events: seq<Event>, l: nat) returns (k: nat, j: nat)
    requires l < |Run(ttl, events).lookups| && Run(ttl, events).lookups[l].FetchFailed?
    ensures k < j < |events| && events[k] == Starts(Run(ttl, events).lookups[l].kid) && events[j] == Fetches(l, None)
    ensures |Run(ttl, events[..k]).lookups| == l
    ensures forall d, i: nat :: !Answers(Run(ttl, events[..k]), ttl, events[k].kid, d, i)
  {
    k := EveryLookupHasAPast(ttl, events, l);
    j :| k < j < |events| && events[j] == Fetches(l, None);
  }

  /** The steps of a lookup on which no other event intervenes. */
  function LoneSteps(l: nat, reply: Option<seq<Jwk>>, fetching: nat, writing: nat): seq<Event> {
    [Tick(fetching), Fetches(l, reply), Writes(l), Tick(writing), Rereads(l)]
  }

  /** From every reachable state, a lookup that fetches alone ends with the last usable entry for its
      kid in the document it fetched, if there is one and the second read comes within the time to
      live of the stamp; with unknown key otherwise; and with a failure if there was no document. */
  lemma LoneLookupExactly(ttl: nat, events: seq<Event>, l: nat, reply: Option<seq<Jwk>>, fetching: nat, writing: nat)
    requires l < |Run(ttl, events).lookups| && Run(ttl, events).lookups[l].Fetching?
    ensures var s, s' := Run(ttl, events), Run(ttl, events + LoneSteps(l, reply, fetching, writing));
            && l < |s'.lookups|
            && var x, kid := s'.lookups[l], s.lookups[l].kid;
               match reply
               case None => x == FetchFailed(kid) && s'.cache == s.cache && s'.writes == s.writes
               case Some(doc) =>
                 && s'.cache == Some(Cached(KeysOf(doc), s.clock + fetching))
                 && s'.docs == s.docs + [Fetched(doc, s.clock + fetching)] && s'.writes == s.writes + [|s.docs|]
                 && (x.Found? <==> writing <= ttl && HasUsable(doc, kid))
                 && (x.Found? ==> exists i: nat :: IsLastUsable(doc, kid, i) && Decode(doc[i].x) == Some(x.key))
                 && (!x.Found? ==> x.NotFound?)
  {
    var steps := LoneSteps(l, reply, fetching, writing);
    var s := Run(ttl, events);
    FiveSteps(ttl, events, steps[0], steps[1], steps[2], steps[3], steps[4]);
    assert steps == [steps[0], steps[1], steps[2], steps[3], steps[4]];
    match reply
    case None => FailsAlone(s.(clock := s.clock + fetching), ttl, l, writing);
    case Some(doc) => EndsAlone(s.(clock := s.clock + fetching), ttl, l, doc, writing);
  }

  lemma FiveSteps(ttl: nat, events: seq<Event>, e0: Event, e1: Event, e2: Event, e3: Event, e4: Event)
    ensures Run(ttl, events + [e0, e1, e2, e3, e4]) ==
            Apply(Apply(Apply(Apply(Apply(Run(ttl, events), ttl, e0), ttl, e1), ttl, e2), ttl, e3), ttl, e4)
  {
    assert events + [e0, e1, e2, e3, e4] == events + [e0] + [e1] + [e2] + [e3] + [e4];
    RunSnoc(ttl, events, e0);
    RunSnoc(ttl, events + [e0], e1);
    RunSnoc(ttl, events + [e0] + [e1], e2);
    RunSnoc(ttl, events + [e0] + [e1] + [e2], e3);
    RunSnoc(ttl, events + [e0] + [e1] + [e2] + [e3], e4);
  }

  lemma FailsAlone(s: State, ttl: nat, l: nat, writing: nat)
    requires l < |s.lookups| && s.lookups[l].Fetching?
    ensures var s' := Apply(Apply(Apply(Apply(s, ttl, Fetches(l, None)), ttl, Writes(l)), ttl, Tick(writing)), ttl, Rereads(l));
            && l < |s'.lookups| && s'.lookups[l] == FetchFailed(s.lookups[l].kid)
            && s'.cache == s.cache && s'.writes == s.writes
  {}

  lemma FetchedAlone(s: State, ttl: nat, l: nat, doc: seq<Jwk>)
    requires l < |s.lookups| && s.lookups[l].Fetching?
    ensures Apply(s, ttl, Fetches(l, Some(doc))) ==
            State(s.clock, s.cache, s.lookups[l := Holding(s.lookups[l].kid, |s.docs|)], s.docs + [Fetched(doc, s.clock)], s.writes)
  {}

  lemma WrittenAlone(s: State, ttl: nat, l: nat)
    requires l < |s.lookups| && s.lookups[l].Holding? && s.lookups[l].doc < |s.docs|
    ensures Apply(s, ttl, Writes(l)) ==
            State(s.clock, Some(CacheOf(s.docs[s.lookups[l].doc])), s.lookups[l := Rereading(s.lookups[l].kid)], s.docs,
                  s.writes + [s.lookups[l].doc])
  {}

  lemma RereadAlone(s: State, ttl: nat, l: nat, doc: seq<Jwk>, at: nat)
    requires l < |s.lookups| && s.lookups[l].Rereading? && s.cache == Some(Cached(KeysOf(doc), at))
    ensures var s', kid := Apply(s, ttl, Rereads(l)), s.lookups[l].kid;
            && s'.cache == s.cache && s'.docs == s.docs && s'.writes == s.writes && |s'.lookups| == |s.lookups|
            && var x := s'.lookups[l];
               && (x.Found? <==> s.clock <= at + ttl && HasUsable(doc, kid))
               && (x.Found? ==> exists i: nat :: IsLastUsable(doc, kid, i) && Decode(doc[i].x) == Some(x.key))
               && (!x.Found? ==> x.NotFound?)
  {
    ParsedKeyIsLastUsable(doc, s.lookups[l].kid);
    if HasUsable(doc, s.lookups[l].kid) {
      var i: nat :| IsLastUsable(doc, s.lookups[l].kid, i);
      assert KeysOf(doc)[s.lookups[l].kid] == Decode(doc[i].x).value;
    }
  }

  lemma EndsAlone(s: State, ttl: nat, l: nat, doc: seq<Jwk>, writing: nat)
    requires l < |s.lookups| && s.lookups[l].Fetching?
    ensures var s' := Apply(Apply(Apply(Apply(s, ttl, Fetches(l, Some(doc))), ttl, Writes(l)), ttl, Tick(writing)), ttl, Rereads(l));
            var kid := s.lookups[l].kid;
            && l < |s'.lookups| && s'.cache == Some(Cached(KeysOf(doc), s.clock))
            && s'.docs == s.docs + [Fetched(doc, s.clock)] && s'.writes == s.writes + [|s.docs|]
            && var x := s'.lookups[l];
               && (x.Found? <==> writing <= ttl && HasUsable(doc, kid))
               && (x.Found? ==> exists i: nat :: IsLastUsable(doc, kid, i) && Decode(doc[i].x) == Some(x.key))
               && (!x.Found? ==> x.NotFound?)
  {
    var s1 := Apply(s, ttl, Fetches(l, Some(doc)));
    FetchedAlone(s, ttl, l, doc);
    WrittenAlone(s1, ttl, l);
    var s2 := Apply(s1, ttl, Writes(l));
    assert s2.lookups[l] == Rereading(s.lookups[l].kid) && s2.cache == Some(Cached(KeysOf(doc), s.clock));
    RereadAlone(s2.(clock := s2.clock + writing), ttl, l, doc, s.clock);
  }

  /** No document stamped at `since` or later has `key` under `kid`. */
  predicate Withdrawn(s: State, kid: string, key: Bytes, since: nat) {
    forall i :: 0 <= i < |s.docs| && s.docs[i].at >= since && kid in KeysOf(s.docs[i].keys) ==>
      KeysOf(s.docs[i].keys)[kid] != key
  }

  /** Revocation: once a key is withdrawn, no lookup returns it after the time to live. */
  lemma WithdrawnKeysFade(ttl: nat, events: seq<Event>, l: nat, key: Bytes, since: nat)
    requires l < |Run(ttl, events).lookups| && Run(ttl, events).lookups[l].Found?
    requires Withdrawn(Run(ttl, events), Run(ttl, events).lookups[l].kid, key, since)
    requires Run(ttl, events).lookups[l].at >= since + ttl
    ensures Run(ttl, events).lookups[l].key != key
  {
    var d, i := FoundKeysAreFresh(ttl, events, l);
    ParsedKeyIsLastUsable(d.keys, Run(ttl, events).lookups[l].kid);
  }

  /** Lookup `l` answered with `key` for `kid`, reading the cache at `from` or later. */
  predicate Answered(s: State, l: nat, kid: string, key: Bytes, from: nat) {
    l < |s.lookups| && s.lookups[l].Found? && s.lookups[l].kid == kid && s.lookups[l].key == key && s.lookups[l].at >= from
  }

  /** Every key used for verification came from such a lookup. */
  ghost predicate FromCache(s: State, keyFor: string -> Auth<Bytes>, from: nat) {
    forall kid :: keyFor(kid).Ok? ==> exists l: nat :: Answered(s, l, kid, keyFor(kid).value, from)
  }

  /** The only key under which the token's signature verifies is `key`. */
  ghost predicate SignedOnlyBy(c: Scheme, token: string, key: Bytes) {
    forall h, p, sig, k ::
      (token == Encode(h) + "." + Encode(p) + "." + Encode(sig) && c.verify(k, Encode(h) + "." + Encode(p), sig)) ==>
      k == key
  }

  /** A token signed only by a withdrawn key is refused once the time to live is over. */
  lemma WithdrawnTokensAreRefused(ttl: nat, events: seq<Event>, sch: Scheme, c: Codec, token: string, keyFor: string -> Auth<Bytes>,
                                  issuer: Option<string>, now: int, key: Bytes, since: nat)
    requires forall kid :: Withdrawn(Run(ttl, events), kid, key, since)
    requires FromCache(Run(ttl, events), keyFor, since + ttl) && SignedOnlyBy(sch, token, key)
    ensures Verify(sch, c, token, keyFor, issuer, now).Err?
  {
    if Verify(sch, c, token, keyFor, issuer, now).Ok? {
      var h, p, sig := AcceptedIsSigned(sch, c, token, keyFor, issuer, now);
      var kid := c.readHeader(h).value.kid;
      assert keyFor(kid).value == key;
      var l: nat :| Answered(Run(ttl, events), l, kid, key, since + ttl);
      WithdrawnKeysFade(ttl, events, l, key, since);
    }
  }

  /** A lookup that got past its fetch fails only if, when it read the cache again, the document
      written last had no usable entry for the kid or had outlived the time to live. */
  lemma FailuresAreHonest(ttl: nat, events: seq<Event>, l: nat) returns (d: Fetched)
    requires l < |Run(ttl, events).lookups| && Run(ttl, events).lookups[l].NotFound?
    ensures var s := Run(ttl, events); var x := s.lookups[l];
            Wrote(s, x.writes, d) && (!HasUsable(d.keys, x.kid) || d.at + ttl < x.at)
  {
    RunIsOk(ttl, events);
    var s := Run(ttl, events);
    var x := s.lookups[l];
    assert LookupOk(s, ttl, x);
    d :| Wrote(s, x.writes, d) && (x.kid !in KeysOf(d.keys) || d.at + ttl < x.at);
    ParsedKeyIsLastUsable(d.keys, x.kid);
  }

  function Race(kid: string, older: seq<Jwk>, newer: seq<Jwk>, dt: nat): seq<Event> {
    [Starts(kid), Starts(kid), Fetches(0, Some(older)), Tick(dt), Fetches(1, Some(newer)), Writes(1), Writes(0)]
  }

  lemma RunSnoc(ttl: nat, events: seq<Event>, e: Event)
    ensures Run(ttl, events + [e]) == Apply(Run(ttl, events), ttl, e)
  {
    assert (events + [e])[..|events|] == events;
  }

  /** What does not hold: a document fetched earlier can overwrite one fetched later. */
  lemma OlderDocumentCanWin(ttl: nat, kid: string, older: seq<Jwk>, newer: seq<Jwk>, dt: nat)
    ensures var s := Run(ttl, Race(kid, older, newer, dt));
            s.docs == [Fetched(older, 0), Fetched(newer, dt)] && s.cache == Some(CacheOf(Fetched(older, 0)))
  {
    var e0, e1, e2, e3 := Starts(kid), Starts(kid), Fetches(0, Some(older)), Tick(dt);
    var e4, e5, e6 := Fetches(1, Some(newer)), Writes(1), Writes(0);
    assert Race(kid, older, newer, dt) == [] + [e0] + [e1] + [e2] + [e3] + [e4] + [e5] + [e6];
    RunSnoc(ttl, [], e0);
    RunSnoc(ttl, [] + [e0], e1);
    RunSnoc(ttl, [] + [e0] + [e1], e2);
    RunSnoc(ttl, [] + [e0] + [e1] + [e2], e3);
    RunSnoc(ttl, [] + [e0] + [e1] + [e2] + [e3], e4);
    RunSnoc(ttl, [] + [e0] + [e1] + [e2] + [e3] + [e4], e5);
    RunSnoc(ttl, [] + [e0] + [e1] + [e2] + [e3] + [e4] + [e5], e6);
  }

  // ------------------------------------------------------------------------
  // When the newest document stays in the cache
  // ------------------------------------------------------------------------

  predicate Increasing(ws: seq<nat>) { forall i, j :: 0 <= i < j < |ws| ==> ws[i] < ws[j] }

  /** The write `e` takes effect. */
  predicate TakesEffect(s: State, e: Event) {
    e.Writes? && e.l < |s.lookups| && s.lookups[e.l].Holding? && s.lookups[e.l].doc < |s.docs|
  }

  /** A write that takes effect finds no later-fetched document in the cache. */
  predicate InOrder(s: State, e: Event) {
    TakesEffect(s, e) ==> s.writes == [] || s.writes[|s.writes| - 1] < s.lookups[e.l].doc
  }

  ghost predicate AllInOrder(ttl: nat, events: seq<Event>) {
    forall k :: 0 <= k < |events| ==> InOrder(Run(ttl, events[..k]), events[k])
  }

  /** The cache holds the document fetched last among those ever written. */
  predicate CacheHoldsNewest(s: State) {
    s.writes != [] ==>
      var newest := s.writes[|s.writes| - 1];
      && newest < |s.docs| && s.cache == Some(CacheOf(s.docs[newest]))
      && forall i :: 0 <= i < |s.writes| ==> s.writes[i] <= newest
  }

  /** A document is held by one lookup and written at most once. */
  ghost predicate HeldOnce(s: State) {
    && (forall i :: 0 <= i < |s.lookups| && s.lookups[i].Holding? ==> s.lookups[i].doc < |s.docs| && s.lookups[i].doc !in s.writes)
    && (forall i, j :: 0 <= i < j < |s.lookups| && s.lookups[i].Holding? && s.lookups[j].Holding? ==>
          s.lookups[i].doc != s.lookups[j].doc)
    && (forall i :: 0 <= i < |s.writes| ==> s.writes[i] < |s.docs|)
  }

  lemma EventKeepsHeldOnce(s: State, ttl: nat, e: Event)
    requires HeldOnce(s)
    ensures HeldOnce(Apply(s, ttl, e))
  {}

  lemma {:induction false} RunHoldsOnce(ttl: nat, events: seq<Event>)
    ensures HeldOnce(Run(ttl, events))
  {
    if events != [] {
      RunHoldsOnce(ttl, events[..|events| - 1]);
      EventKeepsHeldOnce(Run(ttl, events[..|events| - 1]), ttl, events[|events| - 1]);
    }
  }

  lemma OneStepInOrder(s: State, ttl: nat, e: Event)
    ensures Increasing(Apply(s, ttl, e).writes) <==> Increasing(s.writes) && InOrder(s, e)
  {
    var ws, ws' := s.writes, Apply(s, ttl, e).writes;
    assert ws <= ws';
    if Increasing(ws') {
      assert forall i, j :: 0 <= i < j < |ws| ==> ws[i] == ws'[i] && ws[j] == ws'[j];
    }
    if TakesEffect(s, e) && ws != [] { assert ws'[|ws| - 1] == ws[|ws| - 1] && ws'[|ws|] == s.lookups[e.l].doc; }
  }

  lemma NewestAfterStep(s: State, ttl: nat, e: Event)
    requires HeldOnce(s) && CacheOk(s) && CacheHoldsNewest(s)
    ensures CacheHoldsNewest(Apply(s, ttl, e)) <==> InOrder(s, e)
  {
    var s' := Apply(s, ttl, e);
    if TakesEffect(s, e) {
      var doc := s.lookups[e.l].doc;
      assert s'.writes == s.writes + [doc];
      if s.writes != [] { assert s'.writes[|s.writes| - 1] == s.writes[|s.writes| - 1] && s.writes[|s.writes| - 1] != doc; }
    } else {
      EventKeepsCacheOk(s, ttl, e);
      assert s'.writes == s.writes && s'.cache == s.cache;
    }
  }

  ghost predicate AlwaysNewest(ttl: nat, events: seq<Event>) {
    forall k :: 0 <= k <= |events| ==> CacheHoldsNewest(Run(ttl, events[..k]))
  }

  lemma PrefixesOf(ttl: nat, events: seq<Event>)
    requires events != []
    ensures var init := events[..|events| - 1];
            && (AllInOrder(ttl, events) <==> AllInOrder(ttl, init) && InOrder(Run(ttl, init), events[|events| - 1]))
            && (AlwaysNewest(ttl, events) <==> AlwaysNewest(ttl, init) && CacheHoldsNewest(Run(ttl, events)))
  {
    var init := events[..|events| - 1];
    AllPrefixes((es: seq<Event>) => CacheHoldsNewest(Run(ttl, es)), init, events);
    AllSteps((es: seq<Event>, e: Event) => InOrder(Run(ttl, es), e), init, events);
  }

  /** Exactly when the race does not happen, for every run: the cache holds the newest document
      written so far at all times, if and only if documents are written in the order they were
      fetched, if and only if each write that takes effect finds none fetched later in the cache. */
  lemma {:induction false} NewestStaysCached(ttl: nat, events: seq<Event>)
    ensures AlwaysNewest(ttl, events) <==> AllInOrder(ttl, events)
    ensures Increasing(Run(ttl, events).writes) <==> AllInOrder(ttl, events)
  {
    if events == [] {
      assert events[..0] == [];
    } else {
      var init, e := events[..|events| - 1], events[|events| - 1];
      NewestStaysCached(ttl, init);
      PrefixesOf(ttl, events);
      OneStepInOrder(Run(ttl, init), ttl, e);
      if AlwaysNewest(ttl, init) {
        RunHoldsOnce(ttl, init);
        RunIsOk(ttl, init);
        assert init[..|init|] == init;
        NewestAfterStep(Run(ttl, init), ttl, e);
      }
    }
  }

  /** No document arrives while another lookup is between its fetch and its write. */
  predicate Alone(s: State, e: Event) {
    e.Fetches? && e.reply.Some? && e.l < |s.lookups| && s.lookups[e.l].Fetching? ==>
      forall i :: 0 <= i < |s.lookups| ==> !s.lookups[i].Holding?
  }

  /** At most the newest document is held, and it is newer than all that were written. */
  predicate HeldIsNewest(s: State) {
    && (forall i :: 0 <= i < |s.writes| ==> s.writes[i] < |s.docs|)
    && forall i :: 0 <= i < |s.lookups| && s.lookups[i].Holding? ==>
         && s.lookups[i].doc == |s.docs| - 1
         && forall k :: 0 <= k < |s.writes| ==> s.writes[k] < s.lookups[i].doc
  }

  lemma AloneKeepsHeldNewest(s: State, ttl: nat, e: Event)
    requires HeldIsNewest(s) && HeldOnce(s) && Alone(s, e)
    ensures HeldIsNewest(Apply(s, ttl, e)) && InOrder(s, e)
  {
    var s' := Apply(s, ttl, e);
    forall i | 0 <= i < |s'.lookups| && s'.lookups[i].Holding?
      ensures s'.lookups[i].doc == |s'.docs| - 1 && forall k :: 0 <= k < |s'.writes| ==> s'.writes[k] < s'.lookups[i].doc
    {
      assert TakesEffect(s, e) ==> i != e.l;
      if i < |s.lookups| && s.lookups[i].Holding? { assert s'.writes == s.writes; }
    }
  }

  lemma {:induction false} AloneRuns(ttl: nat, events: seq<Event>)
    requires forall k :: 0 <= k < |events| ==> Alone(Run(ttl, events[..k]), events[k])
    ensures HeldIsNewest(Run(ttl, events)) && AllInOrder(ttl, events)
  {
    if events != [] {
      var init, e := events[..|events| - 1], events[|events| - 1];
      assert forall k :: 0 <= k < |init| ==> init[..k] == events[..k] && init[k] == events[k];
      AloneRuns(ttl, init);
      RunHoldsOnce(ttl, init);
      AloneKeepsHeldNewest(Run(ttl, init), ttl, e);
      PrefixesOf(ttl, events);
    }
  }

  /** In particular when no two lookups are between fetch and write at the same time. */
  lemma SeparateRefreshesKeepNewest(ttl: nat, events: seq<Event>)
    requires forall k :: 0 <= k < |events| ==> Alone(Run(ttl, events[..k]), events[k])
    ensures AlwaysNewest(ttl, events)
  {
    AloneRuns(ttl, events);
    NewestStaysCached(ttl, events);
  }

  // ------------------------------------------------------------------------
  // The authenticator as an object
  // ------------------------------------------------------------------------

  class Authenticator {
    const ttl: nat
    var cache: Option<Cached>

    constructor (ttl: nat)
      ensures this.ttl == ttl && cache == None
    {
      this.ttl, cache := ttl, None;
    }

    /** `refresh`: fetch, parse, overwrite. */
    method Refresh(reply: Option<seq<Jwk>>, now: nat) returns (r: Auth<()>)
      modifies this
      ensures reply.None? ==> r == Err(JwksUnavailable) && cache == old(cache)
      ensures reply.Some? ==> r == Auth.Ok(()) && cache == Some(Cached(KeysOf(reply.value), now))
    {
      if reply.None? { return Err(JwksUnavailable); }
      var keys := ParseJwks(reply.value);
      cache := Some(Cached(keys, now));
      r := Auth.Ok(());
    }

    /** `key_for` when no other lookup runs; the clock shows `now` at the first read, `stamped` when
        the document is stamped and `later` at the second read. */
    method KeyFor(kid: string, reply: Option<seq<Jwk>>, now: nat, stamped: nat, later: nat) returns (r: Auth<Bytes>)
      requires now <= stamped <= later
      modifies this
      ensures old(cache).Some? && now <= old(cache).value.fetchedAt + ttl && kid in old(cache).value.keys ==>
              r == Auth.Ok(old(cache).value.keys[kid]) && cache == old(cache)
      ensures !(old(cache).Some? && now <= old(cache).value.fetchedAt + ttl && kid in old(cache).value.keys) && reply.None? ==>
              r == Err(JwksUnavailable) && cache == old(cache)
      ensures !(old(cache).Some? && now <= old(cache).value.fetchedAt + ttl && kid in old(cache).value.keys) && reply.Some? ==>
              && cache == Some(Cached(KeysOf(reply.value), stamped))
              && (r.Ok? <==> later <= stamped + ttl && HasUsable(reply.value, kid))
              && (r.Ok? ==> exists i: nat :: IsLastUsable(reply.value, kid, i) && Decode(reply.value[i].x) == Some(r.value))
              && (r.Err? ==> r == Err(UnknownKey))
    {
      var hit := CachedKey(cache, ttl, now, kid);
      if hit.Some? { return Auth.Ok(hit.value); }
      var refreshed := Refresh(reply, stamped);
      if refreshed.Err? { return Err(refreshed.error); }
      ParsedKeyIsLastUsable(reply.value, kid);
      var again := CachedKey(cache, ttl, later, kid);
      r := OrElse(again, UnknownKey);
    }
  }
}

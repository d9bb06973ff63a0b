/** Minting and verifying access tokens (crates/og-auth/src/mock.rs, crates/og-auth/src/lib.rs):
    the compact form of section 7.1 of RFC 7515 with the EdDSA keys of section 3.1 of RFC 8037.
    The signature scheme and the JSON encoding of header and claims are parameters. */
module Token {
  import opened Strings
  import opened Base64Url

  type Key = nat

  datatype Scheme = Scheme(publicKey: Key -> Bytes, sign: (Key, string) -> Bytes, verify: (Bytes, string, Bytes) -> bool)

  ghost predicate Correct(s: Scheme) {
    forall k, m :: s.verify(s.publicKey(k), m, s.sign(k, m))
  }

  datatype HeaderDoc = HeaderDoc(alg: string, typ: string, kid: string)
  datatype PayloadDoc = PayloadDoc(sub: string, iss: string, aud: seq<string>, iat: int, nbf: int, exp: int,
                                   tenantId: string, roles: seq<string>)

  /** What `verify` deserializes; absent claims take their defaults. */
  datatype Header = Header(alg: string, kid: string)
  datatype Claims = Claims(sub: string, exp: int, iss: string, tenantId: Option<string>, roles: Option<seq<string>>)

  datatype Codec = Codec(header: HeaderDoc -> Bytes, payload: PayloadDoc -> Bytes,
                         readHeader: Bytes -> Option<Header>, readClaims: Bytes -> Option<Claims>,
                         parseUuid: string -> Option<nat>)

  ghost predicate Faithful(c: Codec) {
    && (forall d :: c.readHeader(c.header(d)) == Some(Header(d.alg, d.kid)))
    && (forall p :: c.readClaims(c.payload(p)) == Some(Claims(p.sub, p.exp, p.iss, Some(p.tenantId), Some(p.roles))))
  }

  /** Addition of `i64` values. */
  const TWO63 := 0x8000_0000_0000_0000
  function WrapI64(n: int): int { (n + TWO63) % (2 * TWO63) - TWO63 }

  /** The value in the range of `i64` that differs from `n` by a multiple of 2^64. */
  lemma WrapsToI64(n: int)
    ensures -TWO63 <= WrapI64(n) < TWO63 && (WrapI64(n) - n) % (2 * TWO63) == 0
    ensures -0x8000_0000_0000_0000 <= n < 0x8000_0000_0000_0000 ==> WrapI64(n) == n
  {
    var q := (n + TWO63) / (2 * TWO63);
    assert WrapI64(n) - n == -q * (2 * TWO63);
  }

  datatype Idp = Idp(key: Key, kid: string, issuer: string)

  function MintedHeader(idp: Idp): HeaderDoc { HeaderDoc("EdDSA", "at+jwt", idp.kid) }

  function MintedPayload(idp: Idp, subject: string, tenantId: string, roles: seq<string>, ttl: int, now: int): PayloadDoc {
    PayloadDoc(subject, idp.issuer, ["sesame-idam"], now, now, WrapI64(now + ttl), tenantId, roles)
  }

  function SigningInput(c: Codec, h: HeaderDoc, p: PayloadDoc): string {
    Encode(c.header(h)) + "." + Encode(c.payload(p))
  }

  /** `mint` */
  function Mint(s: Scheme, c: Codec, idp: Idp, subject: string, tenantId: string, roles: seq<string>, ttl: int, now: int): string {
    var input := SigningInput(c, MintedHeader(idp), MintedPayload(idp, subject, tenantId, roles, ttl, now));
    input + "." + Encode(s.sign(idp.key, input))
  }

  datatype AuthError = MissingToken | Malformed | UnknownKey | BadSignature | Expired | IssuerMismatch | JwksUnavailable

  datatype Auth<+R> = Ok(value: R) | Err(error: AuthError) {
    predicate IsFailure() { Err? }
    function PropagateFailure<U>(): Auth<U> requires Err? { Err(error) }
    function Extract(): R requires Ok? { value }
  }

  function OrElse<R>(o: Option<R>, e: AuthError): Auth<R> {
    match o case Some(v) => Ok(v) case None => Err(e)
  }

  function Require(condition: bool, e: AuthError): Auth<()> { if condition then Ok(()) else Err(e) }

  function AndThen<A, B>(o: Option<A>, f: A -> Option<B>): Option<B> {
    match o case Some(v) => f(v) case None => None
  }

  datatype Caller = Caller(subject: string, tenantId: Option<nat>, roles: seq<string>)

  function CallerOf(c: Codec, claims: Claims): Caller {
    Caller(claims.sub, AndThen(claims.tenantId, c.parseUuid), if claims.roles.Some? then claims.roles.value else [])
  }

  /** `verify`; `keyFor` is the outcome of the key lookup, `issuer` the configured one if any. */
  function Verify(s: Scheme, c: Codec, token: string, keyFor: string -> Auth<Bytes>, issuer: Option<string>, now: int): Auth<Caller> {
    var parts := Split(token, '.');
    var _ :- Require(|parts| == 3, Malformed);
    var header :- OrElse(AndThen(Decode(parts[0]), c.readHeader), Malformed);
    var _ :- Require(header.alg == "EdDSA", BadSignature);
    var publicKey :- keyFor(header.kid);
    var signature :- OrElse(Decode(parts[2]), Malformed);
    var _ :- Require(s.verify(publicKey, parts[0] + "." + parts[1], signature), BadSignature);
    var claims :- OrElse(AndThen(Decode(parts[1]), c.readClaims), Malformed);
    var _ :- Require(claims.exp == 0 || claims.exp >= now, Expired);
    var _ :- Require(issuer.None? || claims.iss == issuer.value, IssuerMismatch);
    Ok(CallerOf(c, claims))
  }

  /** A minted token has exactly three segments: header, payload, and a signature of the first two
      under the provider's key. */
  lemma MintHasThreeSegments(s: Scheme, c: Codec, idp: Idp, subject: string, tenantId: string, roles: seq<string>, ttl: int, now: int)
    ensures var h := Encode(c.header(HeaderDoc("EdDSA", "at+jwt", idp.kid)));
            var p := Encode(c.payload(PayloadDoc(subject, idp.issuer, ["sesame-idam"], now, now, WrapI64(now + ttl), tenantId, roles)));
            Split(Mint(s, c, idp, subject, tenantId, roles, ttl, now), '.') == [h, p, Encode(s.sign(idp.key, h + "." + p))]
  {
    var h, p := MintedHeader(idp), MintedPayload(idp, subject, tenantId, roles, ttl, now);
    ThreeSegments(c.header(h), c.payload(p), s.sign(idp.key, SigningInput(c, h, p)));
  }

  lemma ThreeSegments(h: Bytes, p: Bytes, sig: Bytes)
    ensures Split(Encode(h) + "." + Encode(p) + "." + Encode(sig), '.') == [Encode(h), Encode(p), Encode(sig)]
  {
    NoDots(h); NoDots(p); NoDots(sig);
    SplitThree(Encode(h), Encode(p), Encode(sig));
  }

  lemma SplitThree(a: string, b: string, c: string)
    requires '.' !in a && '.' !in b && '.' !in c
    ensures Split(a + "." + b + "." + c, '.') == [a, b, c]
  {
    var token := a + "." + b + "." + c;
    assert token == a + ['.'] + (b + ['.'] + c);
    SplitPiece(a, '.', b + ['.'] + c);
    SplitPiece(b, '.', c);
    SplitWithout(c, '.');
  }

  /** Round trip: what `mint` produces, `verify` accepts and returns unchanged, whenever the key
      resolves, the token has not expired (an expiry of 0 never does) and the issuer fits; and when
      one of these fails, the answer is the corresponding error. */
  lemma MintedTokenVerifies(s: Scheme, c: Codec, idp: Idp, subject: string, tenantId: string, roles: seq<string>, ttl: int,
                            minted: int, keyFor: string -> Auth<Bytes>, issuer: Option<string>, now: int)
    requires Correct(s) && Faithful(c)
    requires keyFor(idp.kid).Ok? ==> keyFor(idp.kid).value == s.publicKey(idp.key)
    ensures var r := Verify(s, c, Mint(s, c, idp, subject, tenantId, roles, ttl, minted), keyFor, issuer, now);
            var exp := WrapI64(minted + ttl);
            if keyFor(idp.kid).Err? then r == Err(keyFor(idp.kid).error)
            else if exp != 0 && exp < now then r == Err(Expired)
            else if issuer.Some? && issuer.value != idp.issuer then r == Err(IssuerMismatch)
            else r == Ok(Caller(subject, c.parseUuid(tenantId), roles))
  {
    var h, p := MintedHeader(idp), MintedPayload(idp, subject, tenantId, roles, ttl, minted);
    var input := SigningInput(c, h, p);
    MintHasThreeSegments(s, c, idp, subject, tenantId, roles, ttl, minted);
    DecodeOfEncode(c.header(h));
    DecodeOfEncode(c.payload(p));
    DecodeOfEncode(s.sign(idp.key, input));
    assert s.verify(s.publicKey(idp.key), input, s.sign(idp.key, input));
  }

  /** The token is made of these three parts in their canonical text, the header names EdDSA and a
      key under which the signature verifies, and the claims are in force. */
  ghost predicate Authentic(s: Scheme, c: Codec, token: string, keyFor: string -> Auth<Bytes>, issuer: Option<string>, now: int,
                            h: Bytes, p: Bytes, sig: Bytes)
  {
    && token == Encode(h) + "." + Encode(p) + "." + Encode(sig)
    && (match c.readHeader(h)
        case Some(header) =>
          && header.alg == "EdDSA" && keyFor(header.kid).Ok?
          && s.verify(keyFor(header.kid).value, Encode(h) + "." + Encode(p), sig)
        case None => false)
    && (match c.readClaims(p)
        case Some(claims) => (claims.exp == 0 || claims.exp >= now) && (issuer.None? || claims.iss == issuer.value)
        case None => false)
  }

  /** The caller is the one the claims name: no roles are claimed, no roles; no tenant, or one that
      does not parse, no tenant. */
  ghost predicate AsClaimed(c: Codec, claims: Claims, caller: Caller) {
    && caller.subject == claims.sub
    && (match claims.roles case Some(roles) => caller.roles == roles case None => caller.roles == [])
    && (match claims.tenantId case Some(t) => caller.tenantId == c.parseUuid(t) case None => caller.tenantId == None)
  }

  /** Of every accepted token: its second segment decodes to claims, and subject, tenant and roles
      of the caller are theirs. In particular no caller has a role that its claims do not list. */
  lemma CallerIsAsClaimed(s: Scheme, c: Codec, token: string, keyFor: string -> Auth<Bytes>, issuer: Option<string>, now: int)
    requires Verify(s, c, token, keyFor, issuer, now).Ok?
    ensures |Split(token, '.')| == 3 && Decode(Split(token, '.')[1]).Some? && c.readClaims(Decode(Split(token, '.')[1]).value).Some?
    ensures var claims, caller := c.readClaims(Decode(Split(token, '.')[1]).value).value, Verify(s, c, token, keyFor, issuer, now).value;
            && caller.subject == claims.sub
            && caller.roles == (if claims.roles.Some? then claims.roles.value else [])
            && caller.tenantId == (if claims.tenantId.None? then None else c.parseUuid(claims.tenantId.value))
            && forall role :: role in caller.roles ==> claims.roles.Some? && role in claims.roles.value
  {}

  /** The first check that fails decides the answer. */
  lemma RefusedForFirstFailure(s: Scheme, c: Codec, token: string, keyFor: string -> Auth<Bytes>, issuer: Option<string>, now: int)
    ensures var r, parts := Verify(s, c, token, keyFor, issuer, now), Split(token, '.');
            if |parts| != 3 || Decode(parts[0]).None? || c.readHeader(Decode(parts[0]).value).None? then r == Err(Malformed)
            else
              var header := c.readHeader(Decode(parts[0]).value).value;
              if header.alg != "EdDSA" then r == Err(BadSignature)
              else if keyFor(header.kid).Err? then r == Err(keyFor(header.kid).error)
              else if Decode(parts[2]).None? then r == Err(Malformed)
              else if !s.verify(keyFor(header.kid).value, parts[0] + "." + parts[1], Decode(parts[2]).value) then r == Err(BadSignature)
              else if Decode(parts[1]).None? || c.readClaims(Decode(parts[1]).value).None? then r == Err(Malformed)
              else
                var claims := c.readClaims(Decode(parts[1]).value).value;
                if claims.exp != 0 && claims.exp < now then r == Err(Expired)
                else if issuer.Some? && claims.iss != issuer.value then r == Err(IssuerMismatch)
                else r.Ok?
  {}

  /** Soundness: an accepted token is authentic, and the caller is the one its claims name. */
  lemma AcceptedIsSigned(s: Scheme, c: Codec, token: string, keyFor: string -> Auth<Bytes>, issuer: Option<string>, now: int)
    returns (h: Bytes, p: Bytes, sig: Bytes)
    requires Verify(s, c, token, keyFor, issuer, now).Ok?
    ensures Authentic(s, c, token, keyFor, issuer, now, h, p, sig)
    ensures AsClaimed(c, c.readClaims(p).value, Verify(s, c, token, keyFor, issuer, now).value)
  {
    h, p, sig := AcceptedParts(s, c, token, keyFor, issuer, now);
    JoinOfThree(token, Encode(h), Encode(p), Encode(sig));
  }

  /** Completeness: an authentic token is accepted. */
  lemma AuthenticIsAccepted(s: Scheme, c: Codec, token: string, keyFor: string -> Auth<Bytes>, issuer: Option<string>, now: int,
                            h: Bytes, p: Bytes, sig: Bytes)
    requires Authentic(s, c, token, keyFor, issuer, now, h, p, sig)
    ensures Verify(s, c, token, keyFor, issuer, now).Ok?
    ensures AsClaimed(c, c.readClaims(p).value, Verify(s, c, token, keyFor, issuer, now).value)
  {
    ThreeSegments(h, p, sig);
    DecodeOfEncode(h); DecodeOfEncode(p); DecodeOfEncode(sig);
  }

  lemma AcceptedParts(s: Scheme, c: Codec, token: string, keyFor: string -> Auth<Bytes>, issuer: Option<string>, now: int)
    returns (h: Bytes, p: Bytes, sig: Bytes)
    requires Verify(s, c, token, keyFor, issuer, now).Ok?
    ensures Split(token, '.') == [Encode(h), Encode(p), Encode(sig)]
    ensures Decode(Split(token, '.')[0]) == Some(h) && Decode(Split(token, '.')[1]) == Some(p) && Decode(Split(token, '.')[2]) == Some(sig)
  {
    var parts := Split(token, '.');
    h, p, sig := Decode(parts[0]).value, Decode(parts[1]).value, Decode(parts[2]).value;
    EncodeOfDecode(parts[0]); EncodeOfDecode(parts[1]); EncodeOfDecode(parts[2]);
  }

  lemma JoinOfThree(token: string, a: string, b: string, c: string)
    requires Split(token, '.') == [a, b, c]
    ensures token == a + "." + b + "." + c
  {
    JoinOfSplit(token, '.');
    assert [a, b, c][1..] == [b, c] && [b, c][1..] == [c];
    assert Join([c], ['.']) == c && Join([b, c], ['.']) == b + ['.'] + c;
    assert Join([a, b, c], ['.']) == a + ['.'] + (b + ['.'] + c);
  }

  /** If only minted signing inputs verify under the resolved keys, then an accepted token carries
      the header and claims of a mint: altering either segment is always noticed. */
  lemma TamperingIsNoticed(s: Scheme, c: Codec, token: string, keyFor: string -> Auth<Bytes>, issuer: Option<string>, now: int,
                           signed: set<(HeaderDoc, PayloadDoc)>)
    requires Faithful(c) && Verify(s, c, token, keyFor, issuer, now).Ok?
    requires forall kid, m, sig :: keyFor(kid).Ok? && s.verify(keyFor(kid).value, m, sig) ==>
               exists d :: d in signed && m == SigningInput(c, d.0, d.1)
    ensures exists d :: d in signed && SigningInput(c, d.0, d.1) + "." <= token &&
                        Verify(s, c, token, keyFor, issuer, now) == Ok(Caller(d.1.sub, c.parseUuid(d.1.tenantId), d.1.roles))
  {
    var h, p, sig := AcceptedIsSigned(s, c, token, keyFor, issuer, now);
    var kid := c.readHeader(h).value.kid;
    var m := Encode(h) + "." + Encode(p);
    assert keyFor(kid).Ok? && s.verify(keyFor(kid).value, m, sig);
    var d :| d in signed && m == SigningInput(c, d.0, d.1);
    SegmentsAreUnique(h, p, c.header(d.0), c.payload(d.1));
    ThreeSegments(h, p, sig);
    DecodeOfEncode(p);
    assert SigningInput(c, d.0, d.1) + "." <= token;
    assert Verify(s, c, token, keyFor, issuer, now) == Ok(Caller(d.1.sub, c.parseUuid(d.1.tenantId), d.1.roles));
  }

  lemma SegmentsAreUnique(h: Bytes, p: Bytes, h': Bytes, p': Bytes)
    requires Encode(h) + "." + Encode(p) == Encode(h') + "." + Encode(p')
    ensures h == h' && p == p'
  {
    NoDots(h); NoDots(h'); NoDots(p); NoDots(p');
    PiecesAreUnique(Encode(h), Encode(p), Encode(h'), Encode(p'));
    DecodeOfEncode(h); DecodeOfEncode(h'); DecodeOfEncode(p); DecodeOfEncode(p');
  }

  lemma PiecesAreUnique(a: string, b: string, a': string, b': string)
    requires '.' !in a && '.' !in b && '.' !in a' && '.' !in b'
    requires a + "." + b == a' + "." + b'
    ensures a == a' && b == b'
  {
    SplitPiece(a, '.', b); SplitPiece(a', '.', b');
    SplitWithout(b, '.'); SplitWithout(b', '.');
    assert [a, b] == [a] + [b] && [a', b'] == [a'] + [b'];
    assert [a, b][0] == [a', b'][0] && [a, b][1] == [a', b'][1];
  }
}

/** The authorization endpoint and the token endpoint: what one call does to the contents of
    the stores, and exactly when it succeeds. */
module AuthorizationServer {
  import opened GoStrings
  import opened Durations
  import opened Encoding
  import opened Jwks
  import opened AuthCodeStore
  import RefreshTokenStore

  const DEFAULT_CLIENT_ID := "my-client-123"
  const DEFAULT_STATE := "abc123"

  datatype RegisteredClient = RegisteredClient(
    clientID: string, redirectURIs: seq<string>, allowedScopes: seq<string>)

  /** `GetByClientID` at one moment; a failing query finds no client. */
  type Registry = string -> Option<RegisteredClient>

  /** A signer holds at most one private key, which stands here as its public half, and
      publishes at most one public key. */
  datatype Signer = Signer(
    signingKey: Option<PublicKey>, publicKey: Option<PublicKey>, keyID: string, issuer: string, ttl: int)

  /** The hash of a text stands for SHA-256 of its bytes. */
  datatype Config = Config(sha256: string -> Bytes, signer: Signer, keepsRefreshTokens: bool)

  type Table = RefreshTokenStore.Table

  datatype Stores = Stores(codes: Codes, refresh: Table)

  // ---------- /authorize ----------

  datatype AuthorizeRequest = AuthorizeRequest(
    clientID: string,
    userID: Option<string>,
    redirectURI: string,
    responseType: string,
    scope: string,
    state: string,
    codeChallenge: string,
    codeChallengeMethod: string)

  datatype AuthorizeOutcome =
    | Authorized(redirectURI: string, code: string, state: string)
    | Refused(error: AuthorizeError)

  datatype AuthorizeError = UnauthorizedClient | InvalidRedirectURI | InvalidScope | SaveFailed

  /** The client id and the redirect URI are trimmed before they are used. */
  function TrimAuthorize(req: AuthorizeRequest): AuthorizeRequest {
    req.(clientID := TrimSpace(req.clientID), redirectURI := TrimSpace(req.redirectURI))
  }

  function RequestedClientID(req: AuthorizeRequest): string {
    if req.clientID == "" then DEFAULT_CLIENT_ID else req.clientID
  }

  /** The requested redirect URI, or the client's first one if none is requested. */
  function RequestedRedirectURI(req: AuthorizeRequest, client: RegisteredClient): Option<string> {
    if req.redirectURI != "" then Some(req.redirectURI)
    else if |client.redirectURIs| > 0 then Some(client.redirectURIs[0])
    else None
  }

  predicate ScopeAllowed(requested: string, allowed: seq<string>) {
    forall w :: w in Fields(requested) ==> w in allowed
  }

  /** `generateAuthCode`, of sixteen random bytes. */
  function GeneratedCode(nonce: Bytes): string {
    "authcode_" + Hex(nonce)
  }

  /** The record that a successful authorization saves. */
  function GrantedCode(client: RegisteredClient, uri: string, req: AuthorizeRequest, code: string, now: int): AuthCode {
    AuthCode(code, client.clientID, req.userID, uri, req.scope, req.codeChallenge,
             req.codeChallengeMethod, now + 5 * MINUTE)
  }

  /** A trimmed request of the client it names. */
  function GrantTo(codes: Codes, client: RegisteredClient, req: AuthorizeRequest, code: string, now: int, saved: bool)
    : (AuthorizeOutcome, Codes)
  {
    match RequestedRedirectURI(req, client)
    case None => (Refused(InvalidRedirectURI), codes)
    case Some(uri) =>
      if uri !in client.redirectURIs then (Refused(InvalidRedirectURI), codes)
      else if !ScopeAllowed(req.scope, client.allowedScopes) then (Refused(InvalidScope), codes)
      else if !saved then (Refused(SaveFailed), codes)
      else
        (Authorized(uri, code, if req.state == "" then DEFAULT_STATE else req.state),
         codes[code := GrantedCode(client, uri, req, code, now)])
  }

  /** A trimmed request at the authorization endpoint. */
  function Grant(codes: Codes, lookup: Registry, req: AuthorizeRequest, code: string, now: int, saved: bool)
    : (AuthorizeOutcome, Codes)
  {
    match lookup(RequestedClientID(req))
    case None => (Refused(UnauthorizedClient), codes)
    case Some(client) => GrantTo(codes, client, req, code, now, saved)
  }

  function Authorize(s: Stores, lookup: Registry, req: AuthorizeRequest, nonce: Bytes, now: int, saved: bool)
    : (AuthorizeOutcome, Stores)
  {
    var (outcome, codes) := Grant(s.codes, lookup, TrimAuthorize(req), GeneratedCode(nonce), now, saved);
    (outcome, s.(codes := codes))
  }

  // ---------- /token ----------

  datatype TokenRequest = TokenRequest(
    grantType: string,
    code: string,
    redirectURI: string,
    clientID: string,
    clientSecret: string,
    codeVerifier: string)

  datatype AccessClaims = AccessClaims(
    issuer: string, subject: string, audience: seq<string>,
    expiresAt: int, issuedAt: int, notBefore: int, id: string, clientID: string, scope: string)

  /** The claims of the ID token, without the display name and the e-mail address. */
  datatype IdClaims = IdClaims(
    issuer: string, subject: string, audience: seq<string>,
    expiresAt: int, issuedAt: int, notBefore: int, id: string, authTime: int)

  /** An RS256 token: its claims, the key id in its header, and the key that signed it. */
  datatype Signed<+C> = Signed(claims: C, keyID: string, signedWith: PublicKey)

  datatype TokenResponse = TokenResponse(
    accessToken: Signed<AccessClaims>,
    tokenType: string,
    expiresIn: int,
    refreshToken: string,
    idToken: Option<Signed<IdClaims>>)

  datatype TokenError = UnsupportedGrantType | InvalidRequest | InvalidGrant | InvalidClient | ServerError

  datatype TokenOutcome = Issued(response: TokenResponse) | Denied(error: TokenError)

  /** The random values one token call draws. */
  datatype Nonces = Nonces(tokenID: string, idTokenID: string, refresh: Bytes, recordID: string, family: string)

  /** The clock readings one token call makes: in the store, for the service's own expiry
      check, and for the new tokens. */
  datatype Clock = Clock(get: int, check: int, mint: int)

  predicate VerifyCodeChallenge(sha256: string -> Bytes, verifier: string, challenge: string, method_: string) {
    var m := ToUpper(method_);
    if m == "S256" then Base64Encode(sha256(verifier)) == challenge
    else if m == "PLAIN" || m == "" then verifier == challenge
    else false
  }

  /** Section 4.6 of RFC 7636, for a code that carries a challenge. */
  predicate ProofOfPossession(sha256: string -> Bytes, c: AuthCode, verifier: string) {
    c.codeChallenge != "" ==>
      verifier != "" && VerifyCodeChallenge(sha256, verifier, c.codeChallenge, c.codeChallengeMethod)
  }

  /** The first check that a code found in the store fails, if any, of a trimmed request. */
  function GrantProblem(registered: bool, c: AuthCode, req: TokenRequest, pkce: bool, now: int): Option<TokenError> {
    if now > c.expiresAt then Some(InvalidGrant)
    else if req.clientID != "" && c.clientID != req.clientID then Some(InvalidGrant)
    else if !registered then Some(InvalidClient)
    else if req.redirectURI != "" && c.redirectURI != req.redirectURI then Some(InvalidGrant)
    else if !pkce then Some(InvalidGrant)
    else None
  }

  function EffectiveTTL(signer: Signer): int {
    if signer.ttl <= 0 then HOUR else signer.ttl
  }

  /** `jwt.NewNumericDate`: a time cut down to whole seconds. */
  function NumericDate(t: int): (d: int)
    ensures t - SECOND < d <= t && d % SECOND == 0
  {
    t / SECOND * SECOND
  }

  function Subject(c: AuthCode): string {
    if c.userID.Some? && c.userID.value != "" then c.userID.value else c.clientID
  }

  function HashToken(cfg: Config, token: string): string {
    Hex(cfg.sha256(token))
  }

  function RefreshTokenText(n: Nonces): string {
    "rt_" + Hex(n.refresh)
  }

  function AccessTokenClaims(cfg: Config, c: AuthCode, n: Nonces, now: int): AccessClaims {
    AccessClaims(cfg.signer.issuer, Subject(c), [c.clientID],
                 NumericDate(now + EffectiveTTL(cfg.signer)), NumericDate(now), NumericDate(now),
                 n.tokenID, c.clientID, c.scope)
  }

  function IdTokenClaims(cfg: Config, c: AuthCode, n: Nonces, now: int): IdClaims {
    IdClaims(cfg.signer.issuer, Subject(c), [c.clientID],
             NumericDate(now + EffectiveTTL(cfg.signer)), NumericDate(now), NumericDate(now),
             n.idTokenID, NumericDate(now) / SECOND)
  }

  function WantsIdToken(c: AuthCode): bool {
    Contains(c.scope, "openid") || c.userID.Some?
  }

  function Response(cfg: Config, key: PublicKey, c: AuthCode, n: Nonces, now: int): TokenResponse {
    TokenResponse(
      Signed(AccessTokenClaims(cfg, c, n, now), cfg.signer.keyID, key),
      "Bearer",
      EffectiveTTL(cfg.signer) / SECOND,
      RefreshTokenText(n),
      if WantsIdToken(c) then Some(Signed(IdTokenClaims(cfg, c, n, now), cfg.signer.keyID, key)) else None)
  }

  /** The refresh-token record as the service hands it to the store. */
  function NewRecord(cfg: Config, c: AuthCode, n: Nonces, now: int): RefreshTokenStore.Record {
    RefreshTokenStore.Record(
      "", HashToken(cfg, RefreshTokenText(n)), c.userID, c.clientID, n.family,
      now, now + 30 * DAY, now + 90 * DAY, None, None)
  }

  function StoredRecord(cfg: Config, c: AuthCode, n: Nonces, now: int): RefreshTokenStore.Record {
    RefreshTokenStore.Completed(NewRecord(cfg, c, n, now), n.recordID, now)
  }

  const CODE_GRANT := "authorization_code"

  /** Every parameter but the secret is trimmed before it is used. */
  function TrimRequest(req: TokenRequest): TokenRequest {
    TokenRequest(TrimSpace(req.grantType), TrimSpace(req.code), TrimSpace(req.redirectURI),
                 TrimSpace(req.clientID), req.clientSecret, TrimSpace(req.codeVerifier))
  }

  /** A trimmed request gets as far as looking up its code. */
  predicate WellFormed(req: TokenRequest) {
    req.grantType == CODE_GRANT && req.code != ""
  }

  /** The tokens for a code that passed all checks; the record may fail to be stored. */
  function Mint(cfg: Config, refresh: Table, c: AuthCode, n: Nonces, now: int, stored: bool): (TokenOutcome, Table) {
    match cfg.signer.signingKey
    case None => (Denied(ServerError), refresh)
    case Some(key) =>
      var response := Response(cfg, key, c, n, now);
      if !cfg.keepsRefreshTokens then (Issued(response), refresh)
      else if !stored then (Denied(ServerError), refresh)
      else
        var record := StoredRecord(cfg, c, n, now);
        (Issued(response), refresh[record.tokenHash := record])
  }

  /** A live code redeemed with a trimmed request. */
  function Redeem(cfg: Config, refresh: Table, registered: bool, c: AuthCode, req: TokenRequest, n: Nonces,
                  clock: Clock, stored: bool)
    : (TokenOutcome, Table)
  {
    match GrantProblem(registered, c, req, ProofOfPossession(cfg.sha256, c, req.codeVerifier), clock.check)
    case Some(e) => (Denied(e), refresh)
    case None => Mint(cfg, refresh, c, n, clock.mint, stored)
  }

  /** A trimmed request at the token endpoint. */
  function Exchange(cfg: Config, s: Stores, lookup: Registry, req: TokenRequest, n: Nonces, clock: Clock, stored: bool)
    : (TokenOutcome, Stores)
  {
    if req.grantType != CODE_GRANT then (Denied(UnsupportedGrantType), s)
    else if req.code == "" then (Denied(InvalidRequest), s)
    else
      match MemoryGet(s.codes, req.code, clock.get)
      case NotFound => (Denied(InvalidGrant), s)
      case Expired => (Denied(InvalidGrant), s)
      case Found(c) =>
        var (outcome, refresh) := Redeem(cfg, s.refresh, lookup(c.clientID).Some?, c, req, n, clock, stored);
        (outcome, Stores(s.codes - {req.code}, refresh))
  }

  function Token(cfg: Config, s: Stores, lookup: Registry, req: TokenRequest, n: Nonces, clock: Clock, stored: bool)
    : (TokenOutcome, Stores)
  {
    Exchange(cfg, s, lookup, TrimRequest(req), n, clock, stored)
  }

  // ---------- what one call guarantees ----------

  lemma {:induction false} ScopeAllowedMeaning(requested: string, allowed: seq<string>)
    ensures ScopeAllowed(requested, allowed) <==> forall w :: HasWord(requested, w) ==> w in allowed
  {
    forall w ensures w in Fields(requested) <==> HasWord(requested, w) { FieldsAreWords(requested, w); }
  }

  /** What a trimmed authorization request needs to succeed: the client exists, the redirect
      URI is one of its own, and every word of the scope is allowed to it. */
  predicate Grantable(lookup: Registry, req: AuthorizeRequest) {
    && lookup(RequestedClientID(req)).Some?
    && (var client := lookup(RequestedClientID(req)).value;
        && RequestedRedirectURI(req, client).Some?
        && RequestedRedirectURI(req, client).value in client.redirectURIs
        && ScopeAllowed(req.scope, client.allowedScopes))
  }

  lemma {:induction false} AuthorizedIff(codes: Codes, lookup: Registry, req: AuthorizeRequest, code: string,
                                         now: int, saved: bool)
    ensures Grant(codes, lookup, req, code, now, saved).0.Authorized? <==> saved && Grantable(lookup, req)
  {
  }

  /** The client that a request names, or the demo client if it names none. */
  function NamedClient(lookup: Registry, req: AuthorizeRequest): Option<RegisteredClient> {
    lookup(if TrimSpace(req.clientID) == "" then "my-client-123" else TrimSpace(req.clientID))
  }

  /** The redirect URI it asks for is one of the client's own; if it asks for none, there is one. */
  predicate OwnsRedirect(client: RegisteredClient, req: AuthorizeRequest) {
    if TrimSpace(req.redirectURI) == "" then client.redirectURIs != []
    else TrimSpace(req.redirectURI) in client.redirectURIs
  }

  ghost predicate AllowsScope(client: RegisteredClient, req: AuthorizeRequest) {
    forall w :: HasWord(req.scope, w) ==> w in client.allowedScopes
  }

  lemma {:induction false} GrantDecides(codes: Codes, client: RegisteredClient, req: AuthorizeRequest, code: string,
                                        now: int, saved: bool)
    ensures var trimmed := TrimAuthorize(req);
      var (outcome, after) := GrantTo(codes, client, trimmed, code, now, saved);
      && (outcome == Refused(InvalidRedirectURI) <==> !OwnsRedirect(client, req))
      && (outcome == Refused(InvalidScope) <==> OwnsRedirect(client, req) && !AllowsScope(client, req))
      && (outcome == Refused(SaveFailed) <==> OwnsRedirect(client, req) && AllowsScope(client, req) && !saved)
      && outcome != Refused(UnauthorizedClient) && (outcome.Refused? ==> after == codes)
  {
    ScopeAllowedMeaning(req.scope, client.allowedScopes);
    if client.redirectURIs != [] { assert client.redirectURIs[0] in client.redirectURIs; }
  }

  /** Which error a refused authorization gives, for a request as it arrives; and a refused one
      changes nothing. */
  lemma {:induction false} AuthorizeErrors(s: Stores, lookup: Registry, req: AuthorizeRequest, nonce: Bytes, now: int,
                                           saved: bool)
    ensures var (outcome, after) := Authorize(s, lookup, req, nonce, now, saved);
      var named := NamedClient(lookup, req);
      && (outcome == Refused(UnauthorizedClient) <==> named.None?)
      && (outcome == Refused(InvalidRedirectURI) <==> named.Some? && !OwnsRedirect(named.value, req))
      && (outcome == Refused(InvalidScope) <==>
           named.Some? && OwnsRedirect(named.value, req) && !AllowsScope(named.value, req))
      && (outcome == Refused(SaveFailed) <==>
           named.Some? && OwnsRedirect(named.value, req) && AllowsScope(named.value, req) && !saved)
      && (outcome.Refused? ==> after == s)
  {
    var named := NamedClient(lookup, req);
    if named.Some? { GrantDecides(s.codes, named.value, req, GeneratedCode(nonce), now, saved); }
  }

  lemma {:induction false} GrantGives(codes: Codes, client: RegisteredClient, req: AuthorizeRequest, code: string,
                                      now: int, saved: bool)
    ensures var (outcome, after) := GrantTo(codes, client, TrimAuthorize(req), code, now, saved);
      outcome.Authorized? ==>
        && OwnsRedirect(client, req)
        && outcome.redirectURI
           == (if TrimSpace(req.redirectURI) != "" then TrimSpace(req.redirectURI) else client.redirectURIs[0])
        && outcome.code == code && outcome.state == (if req.state != "" then req.state else "abc123")
        && after == codes[code :=
             AuthCode(code, client.clientID, req.userID, outcome.redirectURI, req.scope,
                      req.codeChallenge, req.codeChallengeMethod, now + 300 * SECOND)]
  {
  }

  /** Where a granted authorization sends the browser, with what, and what is stored: the redirect
      goes to the URI that was asked for (the client's first one if none was), which is also the URI
      the code is bound to. */
  lemma {:induction false} AuthorizeGrants(s: Stores, lookup: Registry, req: AuthorizeRequest, nonce: Bytes, now: int,
                                           saved: bool)
    ensures var (outcome, after) := Authorize(s, lookup, req, nonce, now, saved);
      var named := NamedClient(lookup, req);
      outcome.Authorized? ==>
        && named.Some? && OwnsRedirect(named.value, req)
        && outcome.redirectURI
           == (if TrimSpace(req.redirectURI) != "" then TrimSpace(req.redirectURI) else named.value.redirectURIs[0])
        && outcome.code == "authcode_" + Hex(nonce)
        && outcome.state == (if req.state != "" then req.state else "abc123")
        && after == s.(codes := s.codes[outcome.code :=
             AuthCode(outcome.code, named.value.clientID, req.userID, outcome.redirectURI, req.scope,
                      req.codeChallenge, req.codeChallengeMethod, now + 300 * SECOND)])
  {
    var named := NamedClient(lookup, req);
    if named.Some? { GrantGives(s.codes, named.value, req, GeneratedCode(nonce), now, saved); }
  }

  /** What a trimmed token request needs to succeed with the code `c`, in no particular order. */
  predicate Redeemable(cfg: Config, lookup: Registry, c: AuthCode, req: TokenRequest, clock: Clock, stored: bool) {
    && clock.get <= c.expiresAt && clock.check <= c.expiresAt
    && (req.clientID == "" || req.clientID == c.clientID)
    && (req.redirectURI == "" || req.redirectURI == c.redirectURI)
    && lookup(c.clientID).Some?
    && ProofOfPossession(cfg.sha256, c, req.codeVerifier)
    && cfg.signer.signingKey.Some?
    && (cfg.keepsRefreshTokens ==> stored)
  }

  lemma MintIssuesIff(cfg: Config, refresh: Table, c: AuthCode, n: Nonces, now: int, stored: bool)
    ensures Mint(cfg, refresh, c, n, now, stored).0.Issued? <==>
      cfg.signer.signingKey.Some? && (cfg.keepsRefreshTokens ==> stored)
  {
  }

  lemma {:induction false} IssuedIff(cfg: Config, s: Stores, lookup: Registry, req: TokenRequest, n: Nonces,
                                     clock: Clock, stored: bool)
    ensures Exchange(cfg, s, lookup, req, n, clock, stored).0.Issued? <==>
      && WellFormed(req) && req.code in s.codes
      && Redeemable(cfg, lookup, s.codes[req.code], req, clock, stored)
  {
    if WellFormed(req) && req.code in s.codes {
      MintIssuesIff(cfg, s.refresh, s.codes[req.code], n, clock.mint, stored);
    }
  }

  /** The trimmed request gets hold of a live code. */
  predicate Finds(s: Stores, req: TokenRequest, clock: Clock) {
    WellFormed(req) && MemoryGet(s.codes, req.code, clock.get).Found?
  }

  /** A token call that finds a live code removes it, whatever happens afterwards; one that
      finds none issues nothing and leaves both stores as they were. */
  lemma {:induction false} TokenConsumes(cfg: Config, s: Stores, lookup: Registry, req: TokenRequest, n: Nonces,
                                         clock: Clock, stored: bool)
    ensures var (outcome, s') := Exchange(cfg, s, lookup, req, n, clock, stored);
      if Finds(s, req, clock) then s'.codes == s.codes - {req.code}
      else s' == s && outcome.Denied?
  {
  }

  lemma MintOnRefresh(cfg: Config, refresh: Table, c: AuthCode, n: Nonces, now: int, stored: bool)
    ensures var (outcome, after) := Mint(cfg, refresh, c, n, now, stored);
      if cfg.keepsRefreshTokens && outcome.Issued?
      then after == refresh[HashToken(cfg, RefreshTokenText(n)) := StoredRecord(cfg, c, n, now)]
      else after == refresh
  {
  }

  /** A token call adds one refresh record if it issues tokens, and none otherwise. */
  lemma {:induction false} TokenOnRefresh(cfg: Config, s: Stores, lookup: Registry, req: TokenRequest, n: Nonces,
                                          clock: Clock, stored: bool)
    ensures var (outcome, s') := Exchange(cfg, s, lookup, req, n, clock, stored);
      if cfg.keepsRefreshTokens && outcome.Issued?
      then req.code in s.codes && s'.refresh ==
             s.refresh[HashToken(cfg, RefreshTokenText(n)) := StoredRecord(cfg, s.codes[req.code], n, clock.mint)]
      else s'.refresh == s.refresh
  {
    if req.code in s.codes { MintOnRefresh(cfg, s.refresh, s.codes[req.code], n, clock.mint, stored); }
  }

  lemma MintResponse(cfg: Config, refresh: Table, c: AuthCode, n: Nonces, now: int, stored: bool)
    requires Mint(cfg, refresh, c, n, now, stored).0.Issued?
    ensures cfg.signer.signingKey.Some?
    ensures Mint(cfg, refresh, c, n, now, stored).0.response == Response(cfg, cfg.signer.signingKey.value, c, n, now)
  {
  }

  /** The response of a token call is the one for the code it redeems. */
  lemma {:induction false} TokenResponds(cfg: Config, s: Stores, lookup: Registry, req: TokenRequest, n: Nonces,
                                         clock: Clock, stored: bool)
    requires Exchange(cfg, s, lookup, req, n, clock, stored).0.Issued?
    ensures req.code in s.codes && cfg.signer.signingKey.Some?
    ensures Exchange(cfg, s, lookup, req, n, clock, stored).0.response
         == Response(cfg, cfg.signer.signingKey.value, s.codes[req.code], n, clock.mint)
  {
    if req.code in s.codes {
      IssuedIff(cfg, s, lookup, req, n, clock, stored);
      MintResponse(cfg, s.refresh, s.codes[req.code], n, clock.mint, stored);
    }
  }

  /** The texts that upper-case to "S256": the first letter may also be a long s (U+017F). */
  predicate NamesS256(m: string) {
    |m| == 4 && m[0] in {'S', 's', '\U{017F}'} && m[1..] == "256"
  }

  /** The texts that upper-case to "PLAIN": its i may also be dotless (U+0131). */
  predicate NamesPlain(m: string) {
    && |m| == 5 && m[0] in {'P', 'p'} && m[1] in {'L', 'l'} && m[2] in {'A', 'a'}
    && m[3] in {'I', 'i', '\U{0131}'} && m[4] in {'N', 'n'}
  }

  lemma {:induction false} UpperIsS256(m: string)
    ensures ToUpper(m) == "S256" <==> NamesS256(m)
  {
    var u := ToUpper(m);
    if u == "S256" {
      assert UpperChar(m[0]) == 'S' && UpperChar(m[1]) == '2' && UpperChar(m[2]) == '5' && UpperChar(m[3]) == '6';
      assert m[1..] == ['2', '5', '6'];
    }
    if NamesS256(m) {
      assert m[1] == m[1..][0] && m[2] == m[1..][1] && m[3] == m[1..][2];
      assert u == ['S', '2', '5', '6'];
    }
  }

  lemma {:induction false} UpperIsPlain(m: string)
    ensures ToUpper(m) == "PLAIN" <==> NamesPlain(m)
  {
    var u := ToUpper(m);
    if u == "PLAIN" {
      assert UpperChar(m[0]) == 'P' && UpperChar(m[1]) == 'L' && UpperChar(m[2]) == 'A';
      assert UpperChar(m[3]) == 'I' && UpperChar(m[4]) == 'N';
    }
    if NamesPlain(m) { assert u == ['P', 'L', 'A', 'I', 'N']; }
  }

  /** The code of a request as it arrives is in the store and has not expired. */
  predicate FindsLive(s: Stores, req: TokenRequest, clock: Clock) {
    TrimSpace(req.code) in s.codes && clock.get <= s.codes[TrimSpace(req.code)].expiresAt
  }

  /** An answer to the challenge of a code, where there is one. */
  predicate AnswersChallenge(sha256: string -> Bytes, c: AuthCode, verifier: string) {
    || c.codeChallenge == ""
    || (verifier != "" && VerifyCodeChallenge(sha256, verifier, c.codeChallenge, c.codeChallengeMethod))
  }

  lemma {:induction false} RedeemDecides(cfg: Config, refresh: Table, registered: bool, c: AuthCode, req: TokenRequest,
                                         n: Nonces, clock: Clock, stored: bool)
    ensures var (outcome, after) := Redeem(cfg, refresh, registered, c, TrimRequest(req), n, clock, stored);
      var inTime := clock.check <= c.expiresAt;
      var sameClient := TrimSpace(req.clientID) in {"", c.clientID};
      var sameURI := TrimSpace(req.redirectURI) in {"", c.redirectURI};
      var proved := AnswersChallenge(cfg.sha256, c, TrimSpace(req.codeVerifier));
      && (outcome == Denied(InvalidClient) <==> inTime && sameClient && !registered)
      && (outcome == Denied(InvalidGrant) <==>
           !inTime || !sameClient || (registered && (!sameURI || !proved)))
      && (outcome == Denied(ServerError) <==>
           inTime && sameClient && registered && sameURI && proved
           && (cfg.signer.signingKey.None? || (cfg.keepsRefreshTokens && !stored)))
      && outcome != Denied(UnsupportedGrantType) && outcome != Denied(InvalidRequest)
      && (outcome.Denied? ==> after == refresh)
  {
  }

  /** Which error a token call gives (section 5.2 of RFC 6749), for a request as it arrives; a call
      that is denied stores no refresh token. */
  lemma {:induction false} TokenErrors(cfg: Config, s: Stores, lookup: Registry, req: TokenRequest, n: Nonces,
                                       clock: Clock, stored: bool)
    ensures var (outcome, after) := Token(cfg, s, lookup, req, n, clock, stored);
      && (outcome == Denied(UnsupportedGrantType) <==> TrimSpace(req.grantType) != "authorization_code")
      && (outcome == Denied(InvalidRequest) <==>
           TrimSpace(req.grantType) == "authorization_code" && TrimSpace(req.code) == "")
      && (TrimSpace(req.grantType) == "authorization_code" && TrimSpace(req.code) != "" ==>
           if !FindsLive(s, req, clock) then outcome == Denied(InvalidGrant)
           else
             var c := s.codes[TrimSpace(req.code)];
             outcome == Redeem(cfg, s.refresh, lookup(c.clientID).Some?, c, TrimRequest(req), n, clock, stored).0)
      && (outcome.Denied? ==> after.refresh == s.refresh)
  {
    if TrimSpace(req.code) in s.codes {
      var c := s.codes[TrimSpace(req.code)];
      RedeemDecides(cfg, s.refresh, lookup(c.clientID).Some?, c, req, n, clock, stored);
    }
  }

  /** Section 4.6 of RFC 7636 for every method text: the two methods are known by their names in
      any case, no method means plain, and every other method fails. */
  lemma {:induction false} ChallengeByMethod(sha256: string -> Bytes, v: string, challenge: string, m: string)
    ensures VerifyCodeChallenge(sha256, v, challenge, m) <==>
      || (NamesS256(m) && challenge == Base64Encode(sha256(v)))
      || ((m == "" || NamesPlain(m)) && challenge == v)
  {
    UpperIsS256(m);
    UpperIsPlain(m);
    assert ToUpper(m) == "" <==> m == "";
  }

  /** An ID token comes with the response if the scope mentions "openid" or a user is known. It
      names the same subject and audience as the access token and is valid for the same time. */
  lemma {:induction false} IdTokenAgrees(cfg: Config, key: PublicKey, c: AuthCode, n: Nonces, now: int)
    ensures var r := Response(cfg, key, c, n, now);
      && r.tokenType == "Bearer" && r.refreshToken == "rt_" + Hex(n.refresh)
      && (r.idToken.Some? <==> c.userID.Some? || exists pre, post :: c.scope == pre + "openid" + post)
      && (r.idToken.Some? ==>
           var id, access := r.idToken.value, r.accessToken;
           && id.keyID == access.keyID && id.signedWith == access.signedWith
           && id.claims.issuer == access.claims.issuer && id.claims.subject == access.claims.subject
           && id.claims.audience == access.claims.audience
           && id.claims.issuedAt == id.claims.notBefore == access.claims.notBefore
           && id.claims.expiresAt == access.claims.expiresAt
           && id.claims.authTime * SECOND == access.claims.issuedAt
           && id.claims.id == n.idTokenID && access.claims.id == n.tokenID
           && access.claims.issuer == cfg.signer.issuer && access.keyID == cfg.signer.keyID)
  {
    ContainsIff(c.scope, "openid");
  }
}

/** The OAuth service over the in-memory stores: each endpoint carries out the function of the
    same name in `AuthorizationServer`. */
module OAuthService {
  import opened GoStrings
  import opened Durations
  import opened Encoding
  import opened Jwks
  import opened AuthCodeStore
  import opened AuthorizationServer
  import Endpoint = AuthorizationServer
  import RefreshTokenStore

  method IsScopeAllowed(requestedScope: string, allowedScopes: seq<string>) returns (ok: bool)
    ensures ok == ScopeAllowed(requestedScope, allowedScopes)
  {
    var allowedMap: map<string, bool> := map[];
    for i := 0 to |allowedScopes|
      invariant forall w :: w in allowedMap <==> w in allowedScopes[..i]
    {
      assert allowedScopes[..i + 1] == allowedScopes[..i] + [allowedScopes[i]];
      allowedMap := allowedMap[allowedScopes[i] := true];
    }
    assert allowedScopes[..|allowedScopes|] == allowedScopes;
    var requested := Fields(requestedScope);
    for i := 0 to |requested|
      invariant forall j :: 0 <= j < i ==> requested[j] in allowedScopes
    {
      if requested[i] !in allowedMap { return false; }
    }
    return true;
  }

  method IsRedirectURIAllowed(requestedURI: string, registeredURIs: seq<string>) returns (ok: bool)
    ensures ok == (requestedURI in registeredURIs)
  {
    for i := 0 to |registeredURIs|
      invariant requestedURI !in registeredURIs[..i]
    {
      if registeredURIs[i] == requestedURI { return true; }
    }
    assert registeredURIs[..|registeredURIs|] == registeredURIs;
    return false;
  }

  class DefaultOAuthService {
    const cfg: Config
    const authCodeRepo: MemoryAuthCodeRepository
    const refreshTokenRepo: RefreshTokenStore.MemoryRefreshTokenRepository?

    ghost predicate Valid()
      reads refreshTokenRepo, if refreshTokenRepo == null then {} else refreshTokenRepo.tokens.Values
    {
      && cfg.keepsRefreshTokens == (refreshTokenRepo != null)
      && (refreshTokenRepo != null ==> refreshTokenRepo.Valid())
    }

    ghost function State(): Stores
      reads authCodeRepo
      reads refreshTokenRepo, if refreshTokenRepo == null then {} else refreshTokenRepo.tokens.Values
    {
      Stores(authCodeRepo.codes, if refreshTokenRepo == null then map[] else refreshTokenRepo.Contents())
    }

    constructor (cfg: Config, authCodeRepo: MemoryAuthCodeRepository,
                 refreshTokenRepo: RefreshTokenStore.MemoryRefreshTokenRepository?)
      requires cfg.keepsRefreshTokens == (refreshTokenRepo != null)
      requires refreshTokenRepo != null ==> refreshTokenRepo.Valid()
      ensures Valid()
      ensures this.cfg == cfg && this.authCodeRepo == authCodeRepo && this.refreshTokenRepo == refreshTokenRepo
    {
      this.cfg, this.authCodeRepo, this.refreshTokenRepo := cfg, authCodeRepo, refreshTokenRepo;
    }

    /** The scope check of `Authorize`, which an empty scope skips. */
    method CheckScope(scope: string, allowedScopes: seq<string>) returns (ok: bool)
      ensures ok == ScopeAllowed(scope, allowedScopes)
    {
      if scope == "" { return true; }
      ok := IsScopeAllowed(scope, allowedScopes);
    }

    /** `Authorize` once the client is known, of a trimmed request. */
    method AuthorizeClient(client: RegisteredClient, req: AuthorizeRequest, code: string, now: int)
      returns (outcome: AuthorizeOutcome)
      modifies authCodeRepo
      ensures (outcome, authCodeRepo.codes) == GrantTo(old(authCodeRepo.codes), client, req, code, now, true)
    {
      var redirectURI := req.redirectURI;
      if redirectURI == "" {
        if |client.redirectURIs| > 0 {
          redirectURI := client.redirectURIs[0];
        } else {
          return Refused(InvalidRedirectURI);
        }
      }
      var uriAllowed := IsRedirectURIAllowed(redirectURI, client.redirectURIs);
      if !uriAllowed { return Refused(InvalidRedirectURI); }
      var scopeAllowed := CheckScope(req.scope, client.allowedScopes);
      if !scopeAllowed { return Refused(InvalidScope); }

      authCodeRepo.Save(AuthCode(code, client.clientID, req.userID, redirectURI, req.scope,
                                 req.codeChallenge, req.codeChallengeMethod, now + 5 * MINUTE));
      var state := req.state;
      if state == "" { state := DEFAULT_STATE; }
      return Authorized(redirectURI, code, state);
    }

    /** The body of `Authorize`, of a trimmed request. */
    method AuthorizeTrimmed(lookup: Registry, req: AuthorizeRequest, code: string, now: int)
      returns (outcome: AuthorizeOutcome)
      modifies authCodeRepo
      ensures (outcome, authCodeRepo.codes) == Grant(old(authCodeRepo.codes), lookup, req, code, now, true)
    {
      var clientID := req.clientID;
      if clientID == "" { clientID := DEFAULT_CLIENT_ID; }
      var client := lookup(clientID);
      if client.None? { return Refused(UnauthorizedClient); }
      outcome := AuthorizeClient(client.value, req, code, now);
    }

    method Authorize(lookup: Registry, req: AuthorizeRequest, nonce: Bytes, now: int)
      returns (outcome: AuthorizeOutcome)
      requires Valid()
      modifies authCodeRepo
      ensures Valid()
      ensures (outcome, State()) == Endpoint.Authorize(old(State()), lookup, req, nonce, now, true)
    {
      outcome := AuthorizeTrimmed(lookup, TrimAuthorize(req), GeneratedCode(nonce), now);
    }

    /** The checks of `Token`, of a trimmed request. */
    method Exchange(lookup: Registry, req: TokenRequest, n: Nonces, clock: Clock)
      returns (outcome: TokenOutcome)
      requires Valid()
      modifies authCodeRepo, if refreshTokenRepo == null then {} else {refreshTokenRepo}
      ensures Valid()
      ensures (outcome, State()) == Endpoint.Exchange(cfg, old(State()), lookup, req, n, clock, true)
    {
      if req.grantType != CODE_GRANT { return Denied(UnsupportedGrantType); }
      if req.code == "" { return Denied(InvalidRequest); }

      var got := authCodeRepo.Get(req.code, clock.get);
      if !got.Found? { return Denied(InvalidGrant); }
      authCodeRepo.Delete(req.code);
      outcome := RedeemCode(got.code, lookup, req, n, clock);
    }

    /** `Token` once the code is found and deleted. */
    method RedeemCode(c: AuthCode, lookup: Registry, req: TokenRequest, n: Nonces, clock: Clock)
      returns (outcome: TokenOutcome)
      requires Valid()
      modifies if refreshTokenRepo == null then {} else {refreshTokenRepo}
      ensures Valid()
      ensures (outcome, State().refresh) == Redeem(cfg, old(State().refresh), lookup(c.clientID).Some?, c, req, n,
                                                   clock, true)
      ensures State().codes == old(State().codes)
    {
      var problem := CheckGrant(lookup, c, req, clock.check);
      if problem.Some? { return Denied(problem.value); }
      outcome := IssueTokens(c, n, clock.mint);
    }

    /** The checks of a code that was found, in their order. */
    method CheckGrant(lookup: Registry, c: AuthCode, req: TokenRequest, now: int) returns (problem: Option<TokenError>)
      ensures problem == GrantProblem(lookup(c.clientID).Some?, c, req,
                                      ProofOfPossession(cfg.sha256, c, req.codeVerifier), now)
    {
      if now > c.expiresAt { return Some(InvalidGrant); }
      if req.clientID != "" && c.clientID != req.clientID { return Some(InvalidGrant); }
      var client := lookup(c.clientID);
      if client.None? { return Some(InvalidClient); }
      if req.redirectURI != "" && c.redirectURI != req.redirectURI { return Some(InvalidGrant); }
      if c.codeChallenge != "" {
        if req.codeVerifier == "" { return Some(InvalidGrant); }
        if !VerifyCodeChallenge(cfg.sha256, req.codeVerifier, c.codeChallenge, c.codeChallengeMethod) {
          return Some(InvalidGrant);
        }
      }
      return None;
    }

    /** The access token and, if one is due, the ID token. */
    method SignTokens(key: PublicKey, c: AuthCode, n: Nonces, now: int, ttl: int)
      returns (accessToken: Signed<AccessClaims>, idToken: Option<Signed<IdClaims>>)
      requires ttl == EffectiveTTL(cfg.signer)
      ensures accessToken == Signed(AccessTokenClaims(cfg, c, n, now), cfg.signer.keyID, key)
      ensures idToken == if WantsIdToken(c) then Some(Signed(IdTokenClaims(cfg, c, n, now), cfg.signer.keyID, key))
                         else None
    {
      var subject := c.clientID;
      if c.userID.Some? && c.userID.value != "" { subject := c.userID.value; }
      var issuedAt, expiresAt := NumericDate(now), NumericDate(now + ttl);
      accessToken := Signed(AccessClaims(cfg.signer.issuer, subject, [c.clientID], expiresAt, issuedAt, issuedAt,
                                         n.tokenID, c.clientID, c.scope), cfg.signer.keyID, key);
      idToken := None;
      if Contains(c.scope, "openid") || c.userID.Some? {
        idToken := Some(Signed(IdClaims(cfg.signer.issuer, subject, [c.clientID], expiresAt, issuedAt, issuedAt,
                                        n.idTokenID, issuedAt / SECOND), cfg.signer.keyID, key));
      }
    }

    /** The part of `Token` after the last check. */
    method IssueTokens(c: AuthCode, n: Nonces, now: int) returns (outcome: TokenOutcome)
      requires Valid()
      modifies if refreshTokenRepo == null then {} else {refreshTokenRepo}
      ensures Valid()
      ensures (outcome, State().refresh) == Mint(cfg, old(State().refresh), c, n, now, true)
      ensures State().codes == old(State().codes)
    {
      var key := cfg.signer.signingKey;
      if key.None? { return Denied(ServerError); }
      var ttl := cfg.signer.ttl;
      if ttl <= 0 { ttl := HOUR; }
      var accessToken, idToken := SignTokens(key.value, c, n, now, ttl);
      var rawRefreshToken := "rt_" + Hex(n.refresh);
      if refreshTokenRepo != null {
        var record := new RefreshTokenStore.RefreshToken(RefreshTokenStore.Record(
          "", HashToken(cfg, rawRefreshToken), c.userID, c.clientID, n.family,
          now, now + 30 * DAY, now + 90 * DAY, None, None));
        refreshTokenRepo.Create(record, n.recordID, now);
      }
      return Issued(TokenResponse(accessToken, "Bearer", ttl / SECOND, rawRefreshToken, idToken));
    }

    method Token(lookup: Registry, req: TokenRequest, n: Nonces, clock: Clock)
      returns (outcome: TokenOutcome)
      requires Valid()
      modifies authCodeRepo, if refreshTokenRepo == null then {} else {refreshTokenRepo}
      ensures Valid()
      ensures (outcome, State()) == Endpoint.Token(cfg, old(State()), lookup, req, n, clock, true)
    {
      outcome := Exchange(lookup, TrimRequest(req), n, clock);
    }
  }
}

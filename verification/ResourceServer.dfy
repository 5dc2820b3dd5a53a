/** The resource server's checks of an access token: signature, validity window, issuer,
    audience and scope. */
module ResourceServer {
  import opened GoStrings
  import opened Durations
  import opened Jwks
  import opened AuthCodeStore
  import opened AuthorizationServer
  import opened OAuthRuns

  datatype ResourceConfig = ResourceConfig(issuerURL: string, audience: string)

  /** The claims of a presented token that are looked at; anybody may have made it, so its dates
      may be missing. */
  datatype BearerClaims = BearerClaims(
    issuer: string, audience: seq<string>, expiresAt: Option<int>, notBefore: Option<int>, scope: string)

  type BearerToken = Signed<BearerClaims>

  /** An access token of the authorization server as it arrives. */
  function Presented(token: Signed<AccessClaims>): BearerToken {
    var c := token.claims;
    Signed(BearerClaims(c.issuer, c.audience, Some(c.expiresAt), Some(c.notBefore), c.scope),
           token.keyID, token.signedWith)
  }

  datatype Reason =
    | KeyNotFound | BadSignature | NoExpiry | TokenExpired | NotYetValid | IssuerMismatch | AudienceMismatch

  datatype Verdict = Accepted(claims: BearerClaims) | Rejected(reason: Reason)

  /** The clock readings of one verification: in the JWT library, then in the service. */
  datatype Readings = Readings(library: int, service: int)

  /** `VerifyToken`, given the key that was resolved for the token's key id. The library wants
      an expiry, and nbf <= now < exp (sections 4.1.4 and 4.1.5 of RFC 7519). */
  function Verify(cfg: ResourceConfig, key: Option<PublicKey>, token: BearerToken, at: Readings): Verdict {
    var c := token.claims;
    if key.None? then Rejected(KeyNotFound)
    else if token.signedWith != key.value then Rejected(BadSignature)
    else if c.expiresAt.None? then Rejected(NoExpiry)
    else if at.library >= c.expiresAt.value then Rejected(TokenExpired)
    else if c.notBefore.Some? && at.library < c.notBefore.value then Rejected(NotYetValid)
    else if at.service > c.expiresAt.value then Rejected(TokenExpired)
    else if cfg.issuerURL != "" && c.issuer != "" && c.issuer != cfg.issuerURL then Rejected(IssuerMismatch)
    else if cfg.audience != "" && cfg.audience !in c.audience then Rejected(AudienceMismatch)
    else Accepted(c)
  }

  method VerifyToken(cfg: ResourceConfig, key: Option<PublicKey>, token: BearerToken, at: Readings)
    returns (verdict: Verdict)
    ensures verdict == Verify(cfg, key, token, at)
  {
    var c := token.claims;
    if key.None? { return Rejected(KeyNotFound); }
    if token.signedWith != key.value { return Rejected(BadSignature); }
    if c.expiresAt.None? { return Rejected(NoExpiry); }
    if at.library >= c.expiresAt.value { return Rejected(TokenExpired); }
    if c.notBefore.Some? && at.library < c.notBefore.value { return Rejected(NotYetValid); }
    if at.service > c.expiresAt.value { return Rejected(TokenExpired); }
    if cfg.issuerURL != "" && c.issuer != "" && c.issuer != cfg.issuerURL {
      return Rejected(IssuerMismatch);
    }
    if cfg.audience != "" {
      var audMatched := false;
      for i := 0 to |c.audience|
        invariant !audMatched && cfg.audience !in c.audience[..i]
      {
        if c.audience[i] == cfg.audience {
          audMatched := true;
          break;
        }
      }
      if !audMatched {
        assert c.audience[..|c.audience|] == c.audience;
        return Rejected(AudienceMismatch);
      }
    }
    return Accepted(c);
  }

  /** Which tokens are accepted, whoever made them: the order of the checks does not matter. */
  lemma {:induction false} VerifiedIff(cfg: ResourceConfig, key: Option<PublicKey>, token: BearerToken, at: Readings)
    ensures var c := token.claims;
      Verify(cfg, key, token, at) == Accepted(c) <==>
        && key == Some(token.signedWith)
        && c.expiresAt.Some? && at.library < c.expiresAt.value && at.service <= c.expiresAt.value
        && (c.notBefore.Some? ==> c.notBefore.value <= at.library)
        && (cfg.issuerURL == "" || c.issuer in {"", cfg.issuerURL})
        && (cfg.audience == "" || cfg.audience in c.audience)
    ensures Verify(cfg, key, token, at).Accepted? ==> Verify(cfg, key, token, at).claims == token.claims
  {
  }

  /** Why a token is rejected. */
  lemma {:induction false} RejectedWhy(cfg: ResourceConfig, key: Option<PublicKey>, token: BearerToken, at: Readings)
    ensures var v, c := Verify(cfg, key, token, at), token.claims;
      var genuine := key == Some(token.signedWith);
      var early := c.notBefore.Some? && at.library < c.notBefore.value;
      && (v == Rejected(KeyNotFound) <==> key.None?)
      && (v == Rejected(BadSignature) <==> key.Some? && !genuine)
      && (v == Rejected(NoExpiry) <==> genuine && c.expiresAt.None?)
      && (v == Rejected(TokenExpired) <==>
           genuine && c.expiresAt.Some?
           && (at.library >= c.expiresAt.value || (!early && at.service > c.expiresAt.value)))
      && (v == Rejected(NotYetValid) <==>
           genuine && c.expiresAt.Some? && at.library < c.expiresAt.value && early)
      && (v == Rejected(IssuerMismatch) ==> cfg.issuerURL != "" && c.issuer !in {"", cfg.issuerURL})
      && (v == Rejected(AudienceMismatch) ==> cfg.audience != "" && cfg.audience !in c.audience)
  {
  }

  method HasScope(tokenScope: string, scope: string) returns (found: bool)
    ensures found == HasWord(tokenScope, scope)
  {
    FieldsAreWords(tokenScope, scope);
    var list := Fields(tokenScope);
    for i := 0 to |list|
      invariant scope !in list[..i]
    {
      if list[i] == scope { return true; }
    }
    assert list[..|list|] == list;
    return false;
  }

  /** One of the required scopes stands in the token's scope as a whole word. */
  ghost predicate ScopeSuffices(tokenScope: string, required: seq<string>) {
    exists w :: w in required && HasWord(tokenScope, w)
  }

  /** The decision of `RequireScope`. */
  method HasAnyScope(tokenScope: string, required: seq<string>) returns (found: bool)
    ensures found == ScopeSuffices(tokenScope, required)
  {
    for i := 0 to |required|
      invariant forall j :: 0 <= j < i ==> !HasWord(tokenScope, required[j])
    {
      var has := HasScope(tokenScope, required[i]);
      if has { return true; }
    }
    return false;
  }

  // ---------- the life of a token ----------

  /** The configuration fits the tokens that `cfg` issues to `clientID`. */
  predicate Fits(rcfg: ResourceConfig, cfg: Config, clientID: string) {
    && rcfg.issuerURL in {"", cfg.signer.issuer}
    && rcfg.audience in {"", clientID}
  }

  /** When a token minted at `mint` is accepted under the right key: at exactly the readings from
      the second of `mint` to the second of its expiry, and only by a server that is configured for
      its issuer and its client (or for any); and what the server then knows of it. */
  lemma {:induction false} AcceptedIff(rcfg: ResourceConfig, cfg: Config, key: PublicKey, c: AuthCode, n: Nonces,
                                       mint: int, at: Readings)
    ensures var token := Response(cfg, key, c, n, mint).accessToken;
      var verdict := Verify(rcfg, Some(key), Presented(token), at);
      && (verdict.Accepted? <==>
           && NumericDate(mint) <= at.library < token.claims.expiresAt && at.service <= token.claims.expiresAt
           && (rcfg.issuerURL == "" || cfg.signer.issuer in {"", rcfg.issuerURL})
           && rcfg.audience in {"", c.clientID})
      && (verdict.Accepted? ==> verdict.claims.scope == c.scope)
  {
  }

  /** How long a minted token lives, and what the response says about it: the life falls short
      of the configured one (an hour if none is) by less than a second, and `expires_in` is the
      configured life in whole seconds. A token with a configured life of a second or more is
      accepted when it is minted. */
  lemma {:induction false} LifeOfToken(rcfg: ResourceConfig, cfg: Config, key: PublicKey, c: AuthCode, n: Nonces,
                                       mint: int)
    requires Fits(rcfg, cfg, c.clientID)
    ensures var response := Response(cfg, key, c, n, mint);
      var life := response.accessToken.claims.expiresAt - mint;
      var configured := if cfg.signer.ttl > 0 then cfg.signer.ttl else 3600 * SECOND;
      && configured - SECOND < life <= configured
      && response.expiresIn * SECOND <= configured < (response.expiresIn + 1) * SECOND
      && -SECOND < life - response.expiresIn * SECOND < SECOND
      && (forall t :: mint <= t ==>
           (Verify(rcfg, Some(key), Presented(response.accessToken), Readings(t, t)).Accepted? <==> t < mint + life))
      && (configured >= SECOND ==> life > 0)
  {
    var response := Response(cfg, key, c, n, mint);
    forall t | mint <= t
      ensures Verify(rcfg, Some(key), Presented(response.accessToken), Readings(t, t)).Accepted?
         <==> t < response.accessToken.claims.expiresAt
    {
      AcceptedIff(rcfg, cfg, key, c, n, mint, Readings(t, t));
    }
  }

  // ---------- scope soundness ----------

  /** Whatever endpoint an issued token opens, one of the endpoint's scopes was allowed to the
      client when its authorization was granted. */
  lemma {:induction false} ScopeSoundness(cfg: Config, run: Run, j: nat, rcfg: ResourceConfig, key: Option<PublicKey>,
                                          at: Readings, required: seq<string>)
    ensures IssuedAt(cfg, run, j) ==>
      var v := Verify(rcfg, key, Presented(OutcomeAt(cfg, run, j).response.accessToken), at);
      v.Accepted? && ScopeSuffices(v.claims.scope, required) ==>
        exists w :: w in required && w in ClientAt(cfg, run, GrantOf(cfg, run, j)).allowedScopes
  {
    if IssuedAt(cfg, run, j) { IssuedAnswers(cfg, run, j); }
  }
}

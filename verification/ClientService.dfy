/** The client side of the flow: a state and a PKCE verifier are drawn, stored and sent out;
    later the state is taken and the code is exchanged together with the verifier. */
module ClientService {
  import opened GoStrings
  import opened Durations
  import opened Encoding
  import opened AuthCodeStore
  import opened AuthorizationServer
  import opened OAuthService
  import opened StateStore
  import Endpoint = AuthorizationServer

  const STATE_TTL: int := 10 * MINUTE

  datatype ClientConfig = ClientConfig(clientID: string, clientSecret: string, redirectURI: string, scopes: string)

  function CodeVerifier(verifierBytes: Bytes): string {
    Base64Encode(verifierBytes)
  }

  /** Section 4.1 of RFC 7636: a verifier has 43 unreserved characters, and different draws give
      different verifiers. */
  lemma {:induction false} VerifiersAreGood(a: Bytes, b: Bytes)
    requires |a| == 32
    ensures |CodeVerifier(a)| == 43
    ensures forall i :: 0 <= i < 43 ==> IsBase64URL(CodeVerifier(a)[i])
    ensures CodeVerifier(a) == CodeVerifier(b) ==> a == b
  {
    Base64RoundTrip(a);
    Base64RoundTrip(b);
    EncodesInAlphabet(a);
  }

  /** Section 4.2 of RFC 7636. */
  function CodeChallenge(sha256: string -> Bytes, verifier: string): string {
    Base64Encode(sha256(verifier))
  }

  /** The parameters that `BuildAuthorizeURL` puts in the URL, together with the user that the
      authorization server finds in the session. */
  function Ask(cfg: ClientConfig, sha256: string -> Bytes, state: string, verifier: string,
               user: Option<string>): AuthorizeRequest {
    AuthorizeRequest(cfg.clientID, user, cfg.redirectURI, "code", cfg.scopes, state,
                     CodeChallenge(sha256, verifier), "S256")
  }

  /** The form that `ExchangeCodeForToken` posts. */
  function Offer(cfg: ClientConfig, code: string, data: StateData): TokenRequest {
    TokenRequest(CODE_GRANT, TrimSpace(code), cfg.redirectURI, cfg.clientID, cfg.clientSecret, data.codeVerifier)
  }

  /** The tokens in an answer of the token endpoint. */
  function TokensIn(outcome: TokenOutcome): Option<TokenResponse> {
    match outcome
    case Issued(response) => Some(response)
    case Denied(_) => None
  }

  /** What follows on the take: without the state's data nothing is sent, with it the token
      endpoint is called with the verifier that was stored. */
  function AfterTake(server: Config, s: Stores, lookup: Registry, cfg: ClientConfig, code: string,
                     data: Option<StateData>, n: Nonces, clock: Clock)
    : (Option<TokenResponse>, Stores)
  {
    match data
    case None => (None, s)
    case Some(d) =>
      var (outcome, after) := Endpoint.Token(server, s, lookup, Offer(cfg, code, d), n, clock, true);
      (TokensIn(outcome), after)
  }

  /** The state check: without data nothing is sent and nothing comes back; with data exactly one
      form goes out, and it carries the verifier of that very data. */
  lemma {:induction false} AfterTakeSends(server: Config, s: Stores, lookup: Registry, cfg: ClientConfig,
                                          code: string, data: Option<StateData>, n: Nonces, clock: Clock)
    ensures var (tokens, after) := AfterTake(server, s, lookup, cfg, code, data, n, clock);
      if data.None? then tokens == None && after == s
      else
        var form := TokenRequest("authorization_code", TrimSpace(code), cfg.redirectURI, cfg.clientID,
                                 cfg.clientSecret, data.value.codeVerifier);
        && form == Offer(cfg, code, data.value) &&
        var (outcome, stores) := Endpoint.Token(server, s, lookup, form, n, clock, true);
        after == stores && tokens == if outcome.Issued? then Some(outcome.response) else None
  {
  }

  class OAuthClientService {
    const cfg: ClientConfig
    const sha256: string -> Bytes
    const stateStore: MemoryStateStore

    constructor (cfg: ClientConfig, sha256: string -> Bytes, stateStore: MemoryStateStore)
      ensures this.cfg == cfg && this.sha256 == sha256 && this.stateStore == stateStore
    {
      this.cfg, this.sha256, this.stateStore := cfg, sha256, stateStore;
    }

    method BuildAuthorizeURL(stateBytes: Bytes, verifierBytes: Bytes, user: Option<string>, now: int)
      returns (ask: AuthorizeRequest, state: string)
      requires |stateBytes| == 16 && |verifierBytes| == 32
      modifies stateStore
      ensures state == Hex(stateBytes)
      ensures ask == AuthorizeRequest(cfg.clientID, user, cfg.redirectURI, "code", cfg.scopes, state,
                                      Base64Encode(sha256(Base64Encode(verifierBytes))), "S256")
      ensures ask == Ask(cfg, sha256, state, CodeVerifier(verifierBytes), user)
      ensures stateStore.states == old(stateStore.states)[state :=
                Entry(StateData(state, CodeVerifier(verifierBytes), now), now + 600 * SECOND)]
    {
      state := Hex(stateBytes);
      var codeVerifier := Base64Encode(verifierBytes);
      var codeChallenge := Base64Encode(sha256(codeVerifier));
      var ok := stateStore.SaveState(state, StateData(state, codeVerifier, now), STATE_TTL, now);
      ask := AuthorizeRequest(cfg.clientID, user, cfg.redirectURI, "code", cfg.scopes, state, codeChallenge, "S256");
    }

    /** The token endpoint is called only if the state is found; the answer is then the
        endpoint's own. */
    method ExchangeCodeForToken(server: DefaultOAuthService, code: string, state: string, takenAt: int,
                                lookup: Registry, n: Nonces, clock: Clock)
      returns (tokens: Option<TokenResponse>)
      requires server.Valid()
      modifies stateStore, server.authCodeRepo,
               if server.refreshTokenRepo == null then {} else {server.refreshTokenRepo}
      ensures server.Valid()
      ensures tokens.Some? ==> MemoryTake(old(stateStore.states), TrimSpace(state), takenAt).0.Some?
      ensures MemoryTake(old(stateStore.states), TrimSpace(state), takenAt).0.None? ==>
        server.State() == old(server.State())
      ensures var (data, states) := MemoryTake(old(stateStore.states), TrimSpace(state), takenAt);
        && stateStore.states == states
        && (tokens, server.State()) == AfterTake(server.cfg, old(server.State()), lookup, cfg, code, data, n, clock)
    {
      var data := stateStore.GetAndDeleteState(TrimSpace(state), takenAt);
      assert server.State() == old(server.State());
      tokens := Redeem(server, code, data, lookup, n, clock);
    }

    /** The part of `ExchangeCodeForToken` after the look-up of the state. */
    method Redeem(server: DefaultOAuthService, code: string, data: Option<StateData>, lookup: Registry, n: Nonces,
                  clock: Clock)
      returns (tokens: Option<TokenResponse>)
      requires server.Valid()
      modifies server.authCodeRepo, if server.refreshTokenRepo == null then {} else {server.refreshTokenRepo}
      ensures server.Valid()
      ensures (tokens, server.State())
           == AfterTake(server.cfg, old(server.State()), lookup, cfg, code, data, n, clock)
    {
      if data.None? { return None; }
      var outcome := server.Token(lookup, Offer(cfg, code, data.value), n, clock);
      return if outcome.Issued? then Some(outcome.response) else None;
    }
  }
}

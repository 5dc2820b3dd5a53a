/** The whole flow of an honest client, in the midst of any other traffic at the state store and
    at the authorization server. */
module HonestFlow {
  import opened GoStrings
  import opened Durations
  import opened Encoding
  import opened Jwks
  import opened AuthCodeStore
  import opened AuthorizationServer
  import opened OAuthRuns
  import opened ClientService
  import opened ResourceServer
  import opened Ledger
  import opened JoinTables
  import StateStore
  import KeyCache
  import ClientRegistry
  import OrderedStrings

  /** A registry answers with the client that was asked for. */
  ghost predicate Faithful(lookup: Registry) {
    forall id :: lookup(id).Some? ==> lookup(id).value.clientID == id
  }

  lemma SpaceFreeIsTrimmed(s: string)
    requires SpaceFree(s)
    ensures TrimSpace(s) == s
  {
    TrimSpaceKeepsTrimmed(s);
  }

  lemma CodesAreSpaceFree(nonce: Bytes)
    ensures SpaceFree(GeneratedCode(nonce)) && GeneratedCode(nonce) != ""
  {
  }

  lemma MethodIsS256()
    ensures ToUpper("S256") == "S256"
  {
    assert UpperChar('S') == 'S' && UpperChar('2') == '2' && UpperChar('5') == '5' && UpperChar('6') == '6';
  }

  /** The server accepts the verifier whose challenge the client computed. */
  lemma {:induction false} OwnChallengeIsMet(sha256: string -> Bytes, verifierBytes: Bytes)
    requires verifierBytes != []
    ensures var v := CodeVerifier(verifierBytes);
      && TrimSpace(v) == v && v != ""
      && VerifyCodeChallenge(sha256, v, CodeChallenge(sha256, v), "S256")
  {
    SpaceFreeIsTrimmed(CodeVerifier(verifierBytes));
    MethodIsS256();
  }

  /** What the client drew and when it did so. */
  datatype Attempt = Attempt(stateBytes: Bytes, verifierBytes: Bytes, user: Option<string>, savedAt: int) {
    function State(): string { Hex(stateBytes) }

    function Data(): StateStore.StateData {
      StateStore.StateData(State(), CodeVerifier(verifierBytes), savedAt)
    }

    predicate WellDrawn() {
      |stateBytes| == 16 && |verifierBytes| == 32
    }
  }

  /** One flow amid other traffic: the operations at the state store, where operation `p` saves the
      attempt and operation `q` takes what came back, and the calls at the authorization server,
      where call `a` is the authorization request and call `t` offers the code. */
  datatype Flow = Flow(ops: seq<StateStore.Op>, p: nat, q: nat, run: Run, a: nat, t: nat, x: Attempt)

  /** What the browser carries back to the client. */
  ghost function RedirectAt(cfg: Config, run: Run, a: nat): AuthorizeOutcome
    requires a < |run| && run[a].AuthorizeCall?
  {
    var e := run[a];
    Authorize(After(cfg, run, a), e.lookup, e.ask, e.nonce, e.now, e.stored).0
  }

  /** The state is saved and later taken, and nobody else uses it in between. */
  predicate AtStateStore(f: Flow) {
    && f.p < f.q < |f.ops|
    && f.ops[f.p] == StateStore.Save(f.x.State(), f.x.Data(), STATE_TTL, f.x.savedAt)
    && f.ops[f.q].Take?
    && forall j :: f.p < j < f.q ==> f.ops[j].state != f.x.State()
  }

  /** The client's parameters reach the authorization endpoint, and nobody else offers the code
      before the client does. */
  ghost predicate AtServer(cfg: Config, ccfg: ClientConfig, f: Flow) {
    && FreshCodes(f.run)
    && f.a < f.t < |f.run|
    && f.run[f.a].AuthorizeCall? && f.run[f.t].TokenCall?
    && Faithful(f.run[f.a].lookup)
    && f.run[f.a].ask == Ask(ccfg, cfg.sha256, f.x.State(), CodeVerifier(f.x.verifierBytes), f.x.user)
    && forall j :: f.a < j < f.t && f.run[j].TokenCall? ==> OfferAt(f.run, j).code != CodeAt(f.run, f.a)
  }

  /** The client does its part: it hands the redirect's state to its store and, if it gets its data
      back, the redirect's code to the token endpoint. */
  ghost predicate Honest(cfg: Config, ccfg: ClientConfig, f: Flow) {
    && f.x.WellDrawn() && AtStateStore(f) && AtServer(cfg, ccfg, f)
    && var redirect, taken := RedirectAt(cfg, f.run, f.a), StateStore.MemoryTaken(f.ops, f.q);
    && (redirect.Authorized? ==> f.ops[f.q].state == TrimSpace(redirect.state))
    && (redirect.Authorized? && taken.Some? ==> f.run[f.t].offer == Offer(ccfg, redirect.code, taken.value))
  }

  /** The client ends up with tokens. */
  ghost predicate Succeeds(cfg: Config, f: Flow)
    requires f.q < |f.ops| && f.ops[f.q].Take?
    requires f.a < |f.run| && f.run[f.a].AuthorizeCall?
  {
    && RedirectAt(cfg, f.run, f.a).Authorized?
    && StateStore.MemoryTaken(f.ops, f.q).Some?
    && IssuedAt(cfg, f.run, f.t)
  }

  /** Call `t` makes the client's own offer. */
  predicate OffersOwnCode(ccfg: ClientConfig, f: Flow)
    requires f.a < |f.run| && f.run[f.a].AuthorizeCall?
  {
    f.t < |f.run| && f.run[f.t].TokenCall? && f.run[f.t].offer == Offer(ccfg, CodeAt(f.run, f.a), f.x.Data())
  }

  /** The client gets its own verifier back exactly if it returns within ten minutes, and nothing
      otherwise. */
  lemma {:induction false} StateComesBack(f: Flow)
    requires f.x.WellDrawn() && AtStateStore(f) && f.ops[f.q].state == TrimSpace(f.x.State())
    ensures StateStore.MemoryTaken(f.ops, f.q)
         == if f.ops[f.q].now <= f.x.savedAt + 10 * MINUTE then Some(f.x.Data()) else None
  {
    var taken := StateStore.MemoryTaken(f.ops, f.q);
    SpaceFreeIsTrimmed(f.x.State());
    assert StateStore.LastTouchSaves(f.ops, f.p, f.q, f.x.State());
    StateStore.TakeReturnsLastSave(f.ops, f.q, f.x.Data());
    if taken.Some? { StateStore.TakeReturnsLastSave(f.ops, f.q, taken.value); }
  }

  /** The code of a successful authorization is still there when the client offers it. */
  lemma CodeIsKept(cfg: Config, ccfg: ClientConfig, f: Flow)
    requires AtServer(cfg, ccfg, f) && GrantedAt(cfg, f.run, f.a)
    ensures CodeAt(f.run, f.a) in After(cfg, f.run, f.t).codes
    ensures After(cfg, f.run, f.t).codes[CodeAt(f.run, f.a)] == RecordAt(cfg, f.run, f.a)
  {
    var effects, code := CodeEffects(cfg, f.run), CodeAt(f.run, f.a);
    CodeEffectsAreSound(cfg, f.run);
    forall j | f.a < j < f.t ensures !Ledger.Touches(effects[j], code) {
      if effects[j].Put? { assert effects[f.a].Put?; }
    }
    assert LivePut(effects, f.a, f.t, code);
    HeldIff(effects, f.t, code, RecordAt(cfg, f.run, f.a));
    CodesFollowEffects(cfg, f.run, f.t);
  }

  lemma HeldWasGranted(cfg: Config, run: Run, t: nat, code: string) returns (i: nat)
    requires t <= |run| && code in After(cfg, run, t).codes
    ensures GrantedAt(cfg, run, i) && CodeAt(run, i) == code
  {
    CodesFollowEffects(cfg, run, t);
    i := HeldWasPut(CodeEffects(cfg, run), t, code);
  }

  lemma CodeIsNotThere(cfg: Config, run: Run, a: nat, t: nat)
    requires FreshCodes(run) && a < t < |run| && run[a].AuthorizeCall? && !GrantedAt(cfg, run, a)
    ensures CodeAt(run, a) !in After(cfg, run, t).codes
  {
    if CodeAt(run, a) in After(cfg, run, t).codes {
      var i := HeldWasGranted(cfg, run, t, CodeAt(run, a));
      if i < a { GrantedCodesDiffer(run, i, a); } else { GrantedCodesDiffer(run, a, i); }
    }
  }

  /** The trimmed form of the client's own offer. */
  lemma OfferTrims(ccfg: ClientConfig, nonce: Bytes, x: Attempt)
    requires x.WellDrawn()
    ensures var offer := TrimRequest(Offer(ccfg, GeneratedCode(nonce), x.Data()));
      && WellFormed(offer) && offer.code == GeneratedCode(nonce)
      && offer.clientID == TrimSpace(ccfg.clientID) && offer.redirectURI == TrimSpace(ccfg.redirectURI)
      && offer.codeVerifier == CodeVerifier(x.verifierBytes)
  {
    CodesAreSpaceFree(nonce);
    SpaceFreeIsTrimmed(GeneratedCode(nonce));
    SpaceFreeIsTrimmed(CODE_GRANT);
    SpaceFreeIsTrimmed(CodeVerifier(x.verifierBytes));
  }

  /** The client's own offer passes every comparison with its own code. */
  lemma OwnOfferMatches(cfg: Config, ccfg: ClientConfig, f: Flow)
    requires f.x.WellDrawn() && AtServer(cfg, ccfg, f) && OffersOwnCode(ccfg, f) && GrantedAt(cfg, f.run, f.a)
    ensures var offer, c := OfferAt(f.run, f.t), RecordAt(cfg, f.run, f.a);
      && WellFormed(offer) && offer.code == CodeAt(f.run, f.a)
      && (offer.clientID == "" || offer.clientID == c.clientID)
      && (offer.redirectURI == "" || offer.redirectURI == c.redirectURI)
      && ProofOfPossession(cfg.sha256, c, offer.codeVerifier)
      && c.scope == ccfg.scopes
      && c.clientID == RequestedClientID(TrimAuthorize(f.run[f.a].ask))
  {
    OfferTrims(ccfg, f.run[f.a].nonce, f.x);
    OwnChallengeIsMet(cfg.sha256, f.x.verifierBytes);
  }

  /** What the flow needs at the authorization server. */
  ghost predicate ServerAgrees(cfg: Config, run: Run, a: nat, t: nat)
    requires a < |run| && run[a].AuthorizeCall? && t < |run| && run[t].TokenCall?
  {
    && run[a].stored && Grantable(run[a].lookup, TrimAuthorize(run[a].ask))
    && run[t].lookup(RequestedClientID(TrimAuthorize(run[a].ask))).Some?
    && run[t].clock.get <= run[a].now + 5 * MINUTE && run[t].clock.check <= run[a].now + 5 * MINUTE
    && cfg.signer.signingKey.Some? && (cfg.keepsRefreshTokens ==> run[t].stored)
  }

  lemma {:induction false} OwnOfferIssuedIff(cfg: Config, ccfg: ClientConfig, f: Flow)
    requires f.x.WellDrawn() && AtServer(cfg, ccfg, f) && OffersOwnCode(ccfg, f)
    ensures IssuedAt(cfg, f.run, f.t) <==> ServerAgrees(cfg, f.run, f.a, f.t)
  {
    var e := f.run[f.t];
    IssuedIff(cfg, After(cfg, f.run, f.t), e.lookup, OfferAt(f.run, f.t), e.nonces, e.clock, e.stored);
    OfferTrims(ccfg, f.run[f.a].nonce, f.x);
    if GrantedAt(cfg, f.run, f.a) {
      CodeIsKept(cfg, ccfg, f);
      OwnOfferMatches(cfg, ccfg, f);
    } else {
      CodeIsNotThere(cfg, f.run, f.a, f.t);
    }
  }

  /** The redirect of a granted request carries the granted code and the client's own state. */
  lemma {:induction false} RedirectCarriesState(cfg: Config, ccfg: ClientConfig, f: Flow)
    requires f.x.WellDrawn() && AtServer(cfg, ccfg, f)
    ensures var redirect := RedirectAt(cfg, f.run, f.a);
      && (redirect.Authorized? <==> GrantedAt(cfg, f.run, f.a))
      && (redirect.Authorized? ==> redirect.code == CodeAt(f.run, f.a) && redirect.state == f.x.State())
  {
    var e := f.run[f.a];
    AuthorizedIff(After(cfg, f.run, f.a).codes, e.lookup, TrimAuthorize(e.ask), GeneratedCode(e.nonce), e.now,
                  e.stored);
    assert |f.x.State()| == 32;
  }

  lemma {:induction false} OffersOwnCodeIff(cfg: Config, ccfg: ClientConfig, f: Flow)
    requires Honest(cfg, ccfg, f) && GrantedAt(cfg, f.run, f.a)
    ensures StateStore.MemoryTaken(f.ops, f.q).Some? <==> f.ops[f.q].now <= f.x.savedAt + 10 * MINUTE
    ensures StateStore.MemoryTaken(f.ops, f.q).Some? ==> OffersOwnCode(ccfg, f)
  {
    RedirectCarriesState(cfg, ccfg, f);
    StateComesBack(f);
  }

  /** The whole flow across the client service, its state store and the authorization server: an
      honest client gets its tokens exactly if it comes back to its state within ten minutes, its
      configured client, redirect URI and scopes are registered when it asks, the code is stored,
      the client is still registered when it redeems the code within five minutes, and the server
      can sign and store: whatever other operations and calls run in between. */
  lemma {:induction false} HonestFlowSucceedsIff(cfg: Config, ccfg: ClientConfig, f: Flow)
    requires Honest(cfg, ccfg, f)
    ensures Succeeds(cfg, f) <==>
      f.ops[f.q].now <= f.x.savedAt + 10 * MINUTE && ServerAgrees(cfg, f.run, f.a, f.t)
  {
    RedirectCarriesState(cfg, ccfg, f);
    if GrantedAt(cfg, f.run, f.a) {
      OffersOwnCodeIff(cfg, ccfg, f);
      if OffersOwnCode(ccfg, f) { OwnOfferIssuedIff(cfg, ccfg, f); }
    }
  }

  /** The callback with data makes call `t`. */
  lemma CallbackMakesCall(cfg: Config, ccfg: ClientConfig, run: Run, t: nat, code: string, d: StateStore.StateData)
    requires t < |run| && run[t].TokenCall? && run[t].stored && run[t].offer == Offer(ccfg, code, d)
    ensures AfterTake(cfg, After(cfg, run, t), run[t].lookup, ccfg, code, Some(d), run[t].nonces, run[t].clock)
         == (TokensIn(OutcomeAt(cfg, run, t)), After(cfg, run, t + 1))
  {
  }

  /** `ExchangeCodeForToken` is the client's part of the flow: called at the authorization server with
      what the redirect brought, it makes call `t` and returns what that call issues if it got its
      data, and makes no call and returns nothing otherwise. */
  lemma {:induction false} CallbackCompletes(cfg: Config, ccfg: ClientConfig, f: Flow)
    requires Honest(cfg, ccfg, f)
    ensures var redirect, e := RedirectAt(cfg, f.run, f.a), f.run[f.t];
      redirect.Authorized? && e.stored ==>
        var taken := StateStore.MemoryTaken(f.ops, f.q);
        AfterTake(cfg, After(cfg, f.run, f.t), e.lookup, ccfg, redirect.code, taken, e.nonces, e.clock)
        == if taken.Some? then (TokensIn(OutcomeAt(cfg, f.run, f.t)), After(cfg, f.run, f.t + 1))
           else (None, After(cfg, f.run, f.t))
  {
    var redirect, taken := RedirectAt(cfg, f.run, f.a), StateStore.MemoryTaken(f.ops, f.q);
    if redirect.Authorized? && f.run[f.t].stored && taken.Some? {
      CallbackMakesCall(cfg, ccfg, f.run, f.t, redirect.code, taken.value);
    }
  }

  /** Tokens come back exactly in time and with the server's consent. */
  lemma {:induction false} CallbackReturnsIff(cfg: Config, ccfg: ClientConfig, f: Flow)
    requires Honest(cfg, ccfg, f)
    ensures var redirect, e := RedirectAt(cfg, f.run, f.a), f.run[f.t];
      redirect.Authorized? && e.stored ==>
        var taken := StateStore.MemoryTaken(f.ops, f.q);
        var (tokens, _) :=
          AfterTake(cfg, After(cfg, f.run, f.t), e.lookup, ccfg, redirect.code, taken, e.nonces, e.clock);
        tokens.Some? <==> f.ops[f.q].now <= f.x.savedAt + 10 * MINUTE && ServerAgrees(cfg, f.run, f.a, f.t)
  {
    CallbackCompletes(cfg, ccfg, f);
    HonestFlowSucceedsIff(cfg, ccfg, f);
  }

  lemma HonestResponse(cfg: Config, ccfg: ClientConfig, f: Flow)
    requires Honest(cfg, ccfg, f)
    ensures Succeeds(cfg, f) ==>
      && GrantedAt(cfg, f.run, f.a) && cfg.signer.signingKey.Some?
      && var c := RecordAt(cfg, f.run, f.a);
      && c.scope == ccfg.scopes && c.clientID == RequestedClientID(TrimAuthorize(f.run[f.a].ask))
      && OutcomeAt(cfg, f.run, f.t).response
         == Response(cfg, cfg.signer.signingKey.value, c, f.run[f.t].nonces, f.run[f.t].clock.mint)
  {
    if Succeeds(cfg, f) {
      var e := f.run[f.t];
      RedirectCarriesState(cfg, ccfg, f);
      OffersOwnCodeIff(cfg, ccfg, f);
      OwnOfferIssuedIff(cfg, ccfg, f);
      CodeIsKept(cfg, ccfg, f);
      OwnOfferMatches(cfg, ccfg, f);
      TokenResponds(cfg, After(cfg, f.run, f.t), e.lookup, OfferAt(f.run, f.t), e.nonces, e.clock, e.stored);
    }
  }

  /** A resource server that starts with no key and reads the signer's own document. */
  datatype Visit = Visit(rcfg: ResourceConfig, jwksURL: string, lastFetched: int, fetch: KeyCache.Request, at: Readings)

  ghost predicate Reads(v: Visit, signer: Signer) {
    && v.jwksURL != "" && v.fetch.response == KeyCache.ResponseOf(Some(PublishedKeys(signer.publicKey, signer.keyID)))
    && v.at.library <= v.at.service
  }

  function VerdictOf(v: Visit, token: Signed<AccessClaims>): Verdict {
    Verify(v.rcfg, KeyCache.Resolve(v.jwksURL, KeyCache.Cache(map[], v.lastFetched), v.fetch).0, Presented(token), v.at)
  }

  /** The signer signs with the key it publishes, an RSA key. */
  predicate SoundKeys(signer: Signer) {
    && signer.publicKey == signer.signingKey
    && (signer.publicKey.Some? ==> signer.publicKey.value.n >= 1 && signer.publicKey.value.e >= 1)
  }

  /** From the login click to the resource: the tokens of an honest flow open exactly the
      endpoints that ask for one of the configured scopes, at a resource server that knows nothing
      but the address of the signer's key document, until the whole second of their expiry. */
  lemma {:induction false} HonestFlowReachesResource(cfg: Config, ccfg: ClientConfig, f: Flow, v: Visit,
                                                     required: seq<string>)
    requires Honest(cfg, ccfg, f)
    ensures Succeeds(cfg, f) ==>
      var token := OutcomeAt(cfg, f.run, f.t).response.accessToken;
      && (ScopeSuffices(token.claims.scope, required) <==> ScopeSuffices(ccfg.scopes, required))
      && (SoundKeys(cfg.signer) && Reads(v, cfg.signer)
          && Fits(v.rcfg, cfg, RequestedClientID(TrimAuthorize(f.run[f.a].ask)))
          && f.run[f.t].clock.mint <= v.at.library ==>
            && (VerdictOf(v, token).Accepted? <==>
                 v.at.library < token.claims.expiresAt && v.at.service <= token.claims.expiresAt)
            && (VerdictOf(v, token).Accepted? ==>
                 (ScopeSuffices(VerdictOf(v, token).claims.scope, required) <==> ScopeSuffices(ccfg.scopes, required))))
  {
    if Succeeds(cfg, f) {
      HonestResponse(cfg, ccfg, f);
      if SoundKeys(cfg.signer) && Reads(v, cfg.signer) && f.run[f.t].clock.mint <= v.at.library
         && Fits(v.rcfg, cfg, RequestedClientID(TrimAuthorize(f.run[f.a].ask))) {
        var key, c := cfg.signer.signingKey.value, RecordAt(cfg, f.run, f.a);
        KeyCache.PublishedKeyResolves(v.jwksURL, v.lastFetched, v.fetch, key, cfg.signer.keyID);
        AcceptedIff(v.rcfg, cfg, key, c, f.run[f.t].nonces, f.run[f.t].clock.mint, v.at);
      }
    }
  }

  /** On the registry's own tables: they answer faithfully, and a client is granted exactly if every
      word of its scopes is a row of its own and so is the redirect URI it names; if it names none,
      any row will do. */
  lemma {:induction false} RegisteredClientIsGranted(clients: map<string, ClientRegistry.ClientRow>, scopes: Pairs,
                                                     uris: Pairs, ask: AuthorizeRequest)
    ensures var lookup := ClientRegistry.LookupIn(clients, scopes, uris);
      var id := RequestedClientID(ask);
      && Faithful(lookup)
      && (Grantable(lookup, ask) <==>
           && id in clients
           && (if ask.redirectURI != "" then (id, ask.redirectURI) in uris else exists u :: (id, u) in uris)
           && forall w :: HasWord(ask.scope, w) ==> (id, w) in scopes)
  {
    var id := RequestedClientID(ask);
    var ownURIs := OrderedStrings.Ordered(Column(uris, id));
    forall u ensures u in ownURIs <==> (id, u) in uris { ClientRegistry.ColumnMember(uris, id, u); }
    if u :| (id, u) in uris { assert u in ownURIs; }
    if ownURIs != [] { assert ownURIs[0] in ownURIs; }
    ScopeAllowedMeaning(ask.scope, OrderedStrings.Ordered(Column(scopes, id)));
    forall w ensures w in OrderedStrings.Ordered(Column(scopes, id)) <==> (id, w) in scopes {
      ClientRegistry.ColumnMember(scopes, id, w);
    }
  }
}

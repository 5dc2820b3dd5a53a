/** Runs of the authorization server: any sequence of authorization and token calls, each with
    the client registry, the clock and the random values it sees. */
module OAuthRuns {
  import opened GoStrings
  import opened Durations
  import opened Encoding
  import opened AuthCodeStore
  import opened AuthorizationServer
  import opened Ledger
  import RefreshTokenStore

  datatype Event =
    | AuthorizeCall(ask: AuthorizeRequest, lookup: Registry, nonce: Bytes, now: int, stored: bool)
    | TokenCall(offer: TokenRequest, lookup: Registry, nonces: Nonces, clock: Clock, stored: bool)

  type Run = seq<Event>

  ghost function StepFrom(cfg: Config, s: Stores, e: Event): Stores {
    match e
    case AuthorizeCall(ask, lookup, nonce, now, stored) => Authorize(s, lookup, ask, nonce, now, stored).1
    case TokenCall(offer, lookup, nonces, clock, stored) => Token(cfg, s, lookup, offer, nonces, clock, stored).1
  }

  /** The stores after the first `k` calls. */
  ghost function After(cfg: Config, run: Run, k: nat): Stores
    requires k <= |run|
  {
    if k == 0 then Stores(map[], map[]) else StepFrom(cfg, After(cfg, run, k - 1), run[k - 1])
  }

  // ---------- what a call does in a run ----------

  /** Call `i` is an authorization that succeeds. */
  ghost predicate GrantedAt(cfg: Config, run: Run, i: int) {
    && 0 <= i < |run| && run[i].AuthorizeCall?
    && run[i].stored && Grantable(run[i].lookup, TrimAuthorize(run[i].ask))
  }

  function CodeAt(run: Run, i: nat): string
    requires i < |run| && run[i].AuthorizeCall?
  {
    GeneratedCode(run[i].nonce)
  }

  ghost function ClientAt(cfg: Config, run: Run, i: nat): RegisteredClient
    requires GrantedAt(cfg, run, i)
  {
    run[i].lookup(RequestedClientID(TrimAuthorize(run[i].ask))).value
  }

  /** The data the code is bound to. */
  ghost function RecordAt(cfg: Config, run: Run, i: nat): AuthCode
    requires GrantedAt(cfg, run, i)
  {
    var ask, client := TrimAuthorize(run[i].ask), ClientAt(cfg, run, i);
    GrantedCode(client, RequestedRedirectURI(ask, client).value, ask, CodeAt(run, i), run[i].now)
  }

  function OfferAt(run: Run, j: nat): TokenRequest
    requires j < |run| && run[j].TokenCall?
  {
    TrimRequest(run[j].offer)
  }

  /** Call `j` is a token call that finds a live code. */
  ghost predicate FindsAt(cfg: Config, run: Run, j: int) {
    && 0 <= j < |run| && run[j].TokenCall?
    && Finds(After(cfg, run, j), OfferAt(run, j), run[j].clock)
  }

  ghost function OutcomeAt(cfg: Config, run: Run, j: nat): TokenOutcome
    requires j < |run| && run[j].TokenCall?
  {
    var e := run[j];
    Token(cfg, After(cfg, run, j), e.lookup, e.offer, e.nonces, e.clock, e.stored).0
  }

  /** Call `j` is a token call that succeeds. */
  ghost predicate IssuedAt(cfg: Config, run: Run, j: int) {
    0 <= j < |run| && run[j].TokenCall? && OutcomeAt(cfg, run, j).Issued?
  }

  /** Sixteen random bytes are never drawn twice. */
  predicate FreshCodes(run: Run) {
    forall i, j :: 0 <= i < j < |run| && run[i].AuthorizeCall? && run[j].AuthorizeCall?
      ==> run[i].nonce != run[j].nonce
  }

  lemma GrantedCodesDiffer(run: Run, i: nat, j: nat)
    requires FreshCodes(run) && i < j < |run| && run[i].AuthorizeCall? && run[j].AuthorizeCall?
    ensures CodeAt(run, i) != CodeAt(run, j)
  {
    var a, b := run[i].nonce, run[j].nonce;
    if CodeAt(run, i) == CodeAt(run, j) {
      assert Hex(a) == GeneratedCode(a)[9..] == GeneratedCode(b)[9..] == Hex(b);
      HexInjective(a, b);
    }
  }

  // ---------- the code store ----------

  /** What call `k` does to the code store. */
  ghost function CodeEffect(cfg: Config, run: Run, k: nat): Effect<AuthCode>
    requires k < |run|
  {
    if GrantedAt(cfg, run, k) then Put(CodeAt(run, k), RecordAt(cfg, run, k))
    else if FindsAt(cfg, run, k) then Cut(OfferAt(run, k).code)
    else Idle
  }

  ghost function CodeEffects(cfg: Config, run: Run): (effects: seq<Effect<AuthCode>>)
    ensures |effects| == |run|
    ensures forall k :: 0 <= k < |run| ==> effects[k] == CodeEffect(cfg, run, k)
  {
    seq(|run|, k requires 0 <= k < |run| => CodeEffect(cfg, run, k))
  }

  lemma StepOnCodes(cfg: Config, run: Run, k: nat)
    requires k < |run|
    ensures After(cfg, run, k + 1).codes == Apply(After(cfg, run, k).codes, CodeEffect(cfg, run, k))
  {
    var e, s := run[k], After(cfg, run, k);
    match e
    case AuthorizeCall(ask, lookup, nonce, now, stored) =>
      AuthorizedIff(s.codes, lookup, TrimAuthorize(ask), GeneratedCode(nonce), now, stored);
    case TokenCall(offer, lookup, nonces, clock, stored) =>
      TokenConsumes(cfg, s, lookup, TrimRequest(offer), nonces, clock, stored);
  }

  ghost function CodeStates(cfg: Config, run: Run): (states: seq<Codes>)
    ensures |states| == |run| + 1
    ensures forall i :: 0 <= i <= |run| ==> states[i] == After(cfg, run, i).codes
  {
    seq(|run| + 1, i requires 0 <= i <= |run| => After(cfg, run, i).codes)
  }

  lemma CodeStatesStep(cfg: Config, run: Run, i: nat)
    requires i < |run|
    ensures CodeStates(cfg, run)[i + 1] == Apply(CodeStates(cfg, run)[i], CodeEffects(cfg, run)[i])
  {
    StepOnCodes(cfg, run, i);
  }

  lemma CodesFollowEffects(cfg: Config, run: Run, k: nat)
    requires k <= |run|
    ensures After(cfg, run, k).codes == Held(CodeEffects(cfg, run), k)
  {
    var states, effects := CodeStates(cfg, run), CodeEffects(cfg, run);
    assert states[k] == After(cfg, run, k).codes;
    assert states[0] == map[];
    forall i | 0 <= i < |effects| ensures states[i + 1] == Apply(states[i], effects[i]) {
      CodeStatesStep(cfg, run, i);
    }
    StatesAreHeld(states, effects, k);
  }

  lemma CodeEffectsAreSound(cfg: Config, run: Run)
    ensures FreshCodes(run) ==> FreshPuts(CodeEffects(cfg, run))
    ensures GenuineCuts(CodeEffects(cfg, run))
  {
    var effects := CodeEffects(cfg, run);
    if FreshCodes(run) {
      forall i, j | 0 <= i < j < |effects| && effects[i].Put? && effects[j].Put?
        ensures effects[i].key != effects[j].key
      {
        GrantedCodesDiffer(run, i, j);
      }
    }
    forall j | 0 <= j < |effects| && effects[j].Cut?
      ensures effects[j].key in Held(effects, j)
    {
      CodesFollowEffects(cfg, run, j);
    }
  }

  // ---------- tokens correspond to authorizations ----------

  /** The tokens of call `j` answer the authorization of call `i`: same client, user and scope,
      a redirect URI of that client's own list at the time of the authorization, at most five
      minutes of age at the expiry check, and the challenge, if there is one, met by the verifier. */
  ghost predicate Answers(cfg: Config, run: Run, i: int, j: int) {
    && GrantedAt(cfg, run, i) && IssuedAt(cfg, run, j) && i < j
    && var grant, client, offer := run[i], ClientAt(cfg, run, i), OfferAt(run, j);
       var record := RecordAt(cfg, run, i);
       var claims := OutcomeAt(cfg, run, j).response.accessToken.claims;
    && offer.code == CodeAt(run, i)
    && claims.clientID == client.clientID && claims.audience == [client.clientID]
    && (offer.clientID == "" || offer.clientID == client.clientID)
    && claims.subject == (if grant.ask.userID.Some? && grant.ask.userID.value != ""
                          then grant.ask.userID.value else client.clientID)
    && claims.scope == grant.ask.scope
    && (forall w :: HasWord(claims.scope, w) ==> w in client.allowedScopes)
    && record.redirectURI in client.redirectURIs
    && (offer.redirectURI == "" || offer.redirectURI == record.redirectURI)
    && run[j].clock.check <= grant.now + 5 * MINUTE
    && (grant.ask.codeChallenge != "" ==>
         && offer.codeVerifier != ""
         && VerifyCodeChallenge(cfg.sha256, offer.codeVerifier, grant.ask.codeChallenge,
                                grant.ask.codeChallengeMethod))
  }

  lemma IssuedFinds(cfg: Config, run: Run, j: nat)
    requires IssuedAt(cfg, run, j)
    ensures FindsAt(cfg, run, j)
    ensures OfferAt(run, j).code in After(cfg, run, j).codes
    ensures Redeemable(cfg, run[j].lookup, After(cfg, run, j).codes[OfferAt(run, j).code], OfferAt(run, j),
                       run[j].clock, run[j].stored)
  {
    var e := run[j];
    IssuedIff(cfg, After(cfg, run, j), e.lookup, OfferAt(run, j), e.nonces, e.clock, e.stored);
  }

  /** The access token of call `j` carries the data of the code it redeems. */
  lemma IssuedClaims(cfg: Config, run: Run, j: nat)
    requires IssuedAt(cfg, run, j)
    ensures OfferAt(run, j).code in After(cfg, run, j).codes
    ensures OutcomeAt(cfg, run, j).response.accessToken.claims
         == AccessTokenClaims(cfg, After(cfg, run, j).codes[OfferAt(run, j).code], run[j].nonces, run[j].clock.mint)
  {
    var e := run[j];
    TokenResponds(cfg, After(cfg, run, j), e.lookup, OfferAt(run, j), e.nonces, e.clock, e.stored);
  }

  /** The authorization whose code a token call redeems. */
  ghost function GrantOf(cfg: Config, run: Run, j: nat): (i: nat)
    requires IssuedAt(cfg, run, j)
    ensures LivePut(CodeEffects(cfg, run), i, j, OfferAt(run, j).code)
    ensures OfferAt(run, j).code in After(cfg, run, j).codes
    ensures GrantedAt(cfg, run, i) && RecordAt(cfg, run, i) == After(cfg, run, j).codes[OfferAt(run, j).code]
  {
    IssuedFinds(cfg, run, j);
    var effects, code := CodeEffects(cfg, run), OfferAt(run, j).code;
    CodesFollowEffects(cfg, run, j);
    HeldIff(effects, j, code, After(cfg, run, j).codes[code]);
    var i: nat :| LivePut(effects, i, j, code) && effects[i].value == After(cfg, run, j).codes[code];
    i
  }

  lemma {:induction false} IssuedAnswers(cfg: Config, run: Run, j: nat)
    requires IssuedAt(cfg, run, j)
    ensures Answers(cfg, run, GrantOf(cfg, run, j), j)
  {
    var i := GrantOf(cfg, run, j);
    IssuedFinds(cfg, run, j);
    IssuedClaims(cfg, run, j);
    ScopeAllowedMeaning(run[i].ask.scope, ClientAt(cfg, run, i).allowedScopes);
  }

  /** No code is found twice, whatever came of the first time. */
  lemma {:induction false} FoundOnce(cfg: Config, run: Run, j: nat, m: nat)
    requires FreshCodes(run) && j < m
    ensures FindsAt(cfg, run, j) && FindsAt(cfg, run, m) ==> OfferAt(run, j).code != OfferAt(run, m).code
  {
    if FindsAt(cfg, run, j) && FindsAt(cfg, run, m) {
      CodeEffectsAreSound(cfg, run);
      CutOnce(CodeEffects(cfg, run), j, m);
    }
  }

  /** Over every run: each token set answers an earlier authorization, and no two token sets
      answer the same one. */
  lemma {:induction false} InjectiveCorrespondence(cfg: Config, run: Run)
    requires FreshCodes(run)
    ensures forall j :: IssuedAt(cfg, run, j) ==> Answers(cfg, run, GrantOf(cfg, run, j), j)
    ensures forall j, m :: IssuedAt(cfg, run, j) && IssuedAt(cfg, run, m) && j != m
              ==> GrantOf(cfg, run, j) != GrantOf(cfg, run, m)
  {
    forall j | IssuedAt(cfg, run, j)
      ensures Answers(cfg, run, GrantOf(cfg, run, j), j)
    {
      IssuedAnswers(cfg, run, j);
    }
    forall j, m | IssuedAt(cfg, run, j) && IssuedAt(cfg, run, m) && j != m
      ensures GrantOf(cfg, run, j) != GrantOf(cfg, run, m)
    {
      IssuedFinds(cfg, run, j);
      IssuedFinds(cfg, run, m);
      FoundOnce(cfg, run, if j < m then j else m, if j < m then m else j);
    }
  }

  // ---------- conservation ----------

  /** One of the first `k` calls granted `code`. */
  ghost predicate EverGranted(cfg: Config, run: Run, k: nat, code: string)
    requires k <= |run|
  {
    exists i :: 0 <= i < k && GrantedAt(cfg, run, i) && CodeAt(run, i) == code
  }

  /** One of the first `k` calls presented `code` while it was live. */
  ghost predicate Consumed(cfg: Config, run: Run, k: nat, code: string)
    requires k <= |run|
  {
    exists j :: 0 <= j < k && FindsAt(cfg, run, j) && OfferAt(run, j).code == code
  }

  lemma EverPutIsGranted(cfg: Config, run: Run, k: nat, code: string)
    requires k <= |run|
    ensures EverPut(CodeEffects(cfg, run), k, code) <==> EverGranted(cfg, run, k, code)
  {
    var effects := CodeEffects(cfg, run);
    if EverGranted(cfg, run, k, code) {
      var i :| 0 <= i < k && GrantedAt(cfg, run, i) && CodeAt(run, i) == code;
      assert effects[i].Put? && effects[i].key == code;
    }
  }

  lemma EverCutIsConsumed(cfg: Config, run: Run, k: nat, code: string)
    requires k <= |run|
    ensures EverCut(CodeEffects(cfg, run), k, code) <==> Consumed(cfg, run, k, code)
  {
    var effects := CodeEffects(cfg, run);
    if Consumed(cfg, run, k, code) {
      var j :| 0 <= j < k && FindsAt(cfg, run, j) && OfferAt(run, j).code == code;
      assert effects[j].Cut? && effects[j].key == code;
    }
  }

  /** In every reachable state the granted codes are partitioned into held and consumed ones,
      where a token call consumes the code it finds even if it then fails a check. */
  lemma {:induction false} CodesAreConserved(cfg: Config, run: Run, k: nat, code: string)
    requires k <= |run| && FreshCodes(run)
    ensures EverGranted(cfg, run, k, code) <==>
      code in After(cfg, run, k).codes || Consumed(cfg, run, k, code)
    ensures !(code in After(cfg, run, k).codes && Consumed(cfg, run, k, code))
  {
    CodeEffectsAreSound(cfg, run);
    CodesFollowEffects(cfg, run, k);
    Conserved(CodeEffects(cfg, run), k, code);
    EverPutIsGranted(cfg, run, k, code);
    EverCutIsConsumed(cfg, run, k, code);
  }

  // ---------- refresh tokens ----------

  function RefreshHashAt(cfg: Config, run: Run, j: nat): string
    requires j < |run| && run[j].TokenCall?
  {
    HashToken(cfg, RefreshTokenText(run[j].nonces))
  }

  /** No two token calls draw refresh tokens with the same hash, or the same family id. */
  predicate FreshRefreshTokens(cfg: Config, run: Run) {
    forall i, j :: 0 <= i < j < |run| && run[i].TokenCall? && run[j].TokenCall? ==>
      RefreshHashAt(cfg, run, i) != RefreshHashAt(cfg, run, j)
      && run[i].nonces.family != run[j].nonces.family
  }

  ghost function IssuedCount(cfg: Config, run: Run, k: nat): nat
    requires k <= |run|
  {
    if k == 0 then 0
    else IssuedCount(cfg, run, k - 1) + if IssuedAt(cfg, run, k - 1) then 1 else 0
  }

  /** What call `k` does to the refresh-token store. */
  ghost function RefreshEffect(cfg: Config, run: Run, k: nat): Effect<RefreshTokenStore.Record>
    requires k < |run|
  {
    if cfg.keepsRefreshTokens && IssuedAt(cfg, run, k) then
      Put(RefreshHashAt(cfg, run, k),
          StoredRecord(cfg, RecordAt(cfg, run, GrantOf(cfg, run, k)), run[k].nonces, run[k].clock.mint))
    else Idle
  }

  ghost function RefreshEffects(cfg: Config, run: Run): (effects: seq<Effect<RefreshTokenStore.Record>>)
    ensures |effects| == |run|
    ensures forall k :: 0 <= k < |run| ==> effects[k] == RefreshEffect(cfg, run, k)
  {
    seq(|run|, k requires 0 <= k < |run| => RefreshEffect(cfg, run, k))
  }

  lemma StepOnRefresh(cfg: Config, run: Run, k: nat)
    requires k < |run|
    ensures After(cfg, run, k + 1).refresh == Apply(After(cfg, run, k).refresh, RefreshEffect(cfg, run, k))
  {
    var e := run[k];
    if e.TokenCall? {
      TokenOnRefresh(cfg, After(cfg, run, k), e.lookup, TrimRequest(e.offer), e.nonces, e.clock, e.stored);
    }
  }

  ghost function RefreshStates(cfg: Config, run: Run): (states: seq<Table>)
    ensures |states| == |run| + 1
    ensures forall i :: 0 <= i <= |run| ==> states[i] == After(cfg, run, i).refresh
  {
    seq(|run| + 1, i requires 0 <= i <= |run| => After(cfg, run, i).refresh)
  }

  lemma RefreshStatesStep(cfg: Config, run: Run, i: nat)
    requires i < |run|
    ensures RefreshStates(cfg, run)[i + 1] == Apply(RefreshStates(cfg, run)[i], RefreshEffects(cfg, run)[i])
  {
    StepOnRefresh(cfg, run, i);
  }

  lemma RefreshFollowsEffects(cfg: Config, run: Run, k: nat)
    requires k <= |run|
    ensures After(cfg, run, k).refresh == Held(RefreshEffects(cfg, run), k)
  {
    var states, effects := RefreshStates(cfg, run), RefreshEffects(cfg, run);
    assert states[k] == After(cfg, run, k).refresh;
    assert states[0] == map[];
    forall i | 0 <= i < |effects| ensures states[i + 1] == Apply(states[i], effects[i]) {
      RefreshStatesStep(cfg, run, i);
    }
    StatesAreHeld(states, effects, k);
  }

  lemma {:induction false} IssuedCountIsPuts(cfg: Config, run: Run, k: nat)
    requires k <= |run| && cfg.keepsRefreshTokens
    ensures Puts(RefreshEffects(cfg, run), k) == IssuedCount(cfg, run, k)
  {
    if k > 0 { IssuedCountIsPuts(cfg, run, k - 1); }
  }

  /** Record `r` is what the successful token call `j` stores for the authorization it redeems. */
  ghost predicate RecordOf(cfg: Config, run: Run, j: int, r: RefreshTokenStore.Record) {
    && IssuedAt(cfg, run, j)
    && r == StoredRecord(cfg, RecordAt(cfg, run, GrantOf(cfg, run, j)), run[j].nonces, run[j].clock.mint)
  }

  lemma RecordShape(cfg: Config, c: AuthCode, n: Nonces, now: int)
    ensures var r := StoredRecord(cfg, c, n, now);
      && r.tokenHash == HashToken(cfg, RefreshTokenText(n)) && r.familyID == n.family
      && r.clientID == c.clientID && r.userID == c.userID && r.revokedAt.None? && r.replacedBy.None?
      && r.createdAt == now && r.expiresAt == now + 30 * DAY && r.familyExpiresAt == now + 90 * DAY
  {
  }

  lemma RefreshEffectsAreFresh(cfg: Config, run: Run)
    requires FreshRefreshTokens(cfg, run)
    ensures FreshPuts(RefreshEffects(cfg, run))
    ensures forall j :: 0 <= j < |run| ==> !RefreshEffects(cfg, run)[j].Cut?
  {
  }

  /** There are as many refresh records as successful token calls. */
  lemma {:induction false} RefreshRecordsAreCounted(cfg: Config, run: Run, k: nat)
    requires k <= |run| && cfg.keepsRefreshTokens && FreshRefreshTokens(cfg, run)
    ensures |After(cfg, run, k).refresh| == IssuedCount(cfg, run, k)
  {
    RefreshEffectsAreFresh(cfg, run);
    RefreshFollowsEffects(cfg, run, k);
    IssuedCountIsPuts(cfg, run, k);
    HoldsAllPuts(RefreshEffects(cfg, run), k);
  }

  /** Each refresh record belongs to one successful token call, with the client and the user of
      the authorization it redeems; it expires after 30 days and its family after 90. */
  lemma {:induction false} RefreshRecordOrigin(cfg: Config, run: Run, k: nat, h: string) returns (j: nat)
    requires k <= |run| && h in After(cfg, run, k).refresh
    ensures j < k && RecordOf(cfg, run, j, After(cfg, run, k).refresh[h])
    ensures var r := After(cfg, run, k).refresh[h];
      && r.tokenHash == h == RefreshHashAt(cfg, run, j) && r.familyID == run[j].nonces.family
      && r.createdAt == run[j].clock.mint
      && r.expiresAt == r.createdAt + 30 * DAY && r.familyExpiresAt == r.createdAt + 90 * DAY
  {
    RefreshFollowsEffects(cfg, run, k);
    j := HeldWasPut(RefreshEffects(cfg, run), k, h);
    RecordShape(cfg, RecordAt(cfg, run, GrantOf(cfg, run, j)), run[j].nonces, run[j].clock.mint);
  }

  /** What a successful call answers with, and what it puts in the store. */
  lemma HandsOut(cfg: Config, run: Run, j: nat)
    requires IssuedAt(cfg, run, j)
    ensures OutcomeAt(cfg, run, j).response.refreshToken == "rt_" + Hex(run[j].nonces.refresh)
    ensures Hex(cfg.sha256(OutcomeAt(cfg, run, j).response.refreshToken)) == RefreshHashAt(cfg, run, j)
  {
    var e := run[j];
    TokenResponds(cfg, After(cfg, run, j), e.lookup, OfferAt(run, j), e.nonces, e.clock, e.stored);
  }

  lemma PutStaysHeld(cfg: Config, run: Run, j: nat, k: nat)
    requires j < k <= |run| && cfg.keepsRefreshTokens && IssuedAt(cfg, run, j)
    requires k == j + 1 || FreshRefreshTokens(cfg, run)
    ensures var h, table := RefreshHashAt(cfg, run, j), After(cfg, run, k).refresh;
      h in table && RecordOf(cfg, run, j, table[h])
  {
    var effects, h := RefreshEffects(cfg, run), RefreshHashAt(cfg, run, j);
    RefreshFollowsEffects(cfg, run, k);
    assert effects[j] == RefreshEffect(cfg, run, j);
    if FreshRefreshTokens(cfg, run) { RefreshEffectsAreFresh(cfg, run); }
    assert LivePut(effects, j, k, h);
    HeldIff(effects, k, h, effects[j].value);
  }

  /** The refresh token that a call hands out is the one it stores: the hash of the text in the
      answer is a key of the store, right after the call and ever after if hashes are fresh, and the
      record there has the client and the user of the authorization that the call answers. */
  lemma {:induction false} HandedOutTokenIsStored(cfg: Config, run: Run, j: nat, k: nat)
    requires j < k <= |run| && cfg.keepsRefreshTokens
    requires k == j + 1 || FreshRefreshTokens(cfg, run)
    ensures IssuedAt(cfg, run, j) ==>
      var raw, table := OutcomeAt(cfg, run, j).response.refreshToken, After(cfg, run, k).refresh;
      var h, grant := Hex(cfg.sha256(raw)), GrantOf(cfg, run, j);
      && raw == "rt_" + Hex(run[j].nonces.refresh)
      && h in table && table[h].tokenHash == h && table[h].revokedAt.None?
      && table[h].clientID == ClientAt(cfg, run, grant).clientID && table[h].userID == run[grant].ask.userID
      && table[h].familyID == run[j].nonces.family && table[h].createdAt == run[j].clock.mint
      && table[h].expiresAt == run[j].clock.mint + 30 * DAY
  {
    if IssuedAt(cfg, run, j) {
      HandsOut(cfg, run, j);
      PutStaysHeld(cfg, run, j, k);
      RecordShape(cfg, RecordAt(cfg, run, GrantOf(cfg, run, j)), run[j].nonces, run[j].clock.mint);
    }
  }

  lemma FreshFamilies(cfg: Config, run: Run, i: nat, j: nat)
    requires FreshRefreshTokens(cfg, run) && i < |run| && j < |run|
    requires run[i].TokenCall? && run[j].TokenCall?
    requires RefreshHashAt(cfg, run, i) != RefreshHashAt(cfg, run, j)
    ensures run[i].nonces.family != run[j].nonces.family
  {
    if i < j {
      assert RefreshHashAt(cfg, run, i) != RefreshHashAt(cfg, run, j);
    } else {
      assert j < i;
    }
  }

  /** Each refresh record is alone in its family. */
  lemma {:induction false} FamiliesAreSingletons(cfg: Config, run: Run, k: nat, g: string, h: string)
    requires k <= |run| && FreshRefreshTokens(cfg, run)
    requires g in After(cfg, run, k).refresh && h in After(cfg, run, k).refresh && g != h
    ensures After(cfg, run, k).refresh[g].familyID != After(cfg, run, k).refresh[h].familyID
  {
    var i := RefreshRecordOrigin(cfg, run, k, g);
    var j := RefreshRecordOrigin(cfg, run, k, h);
    FreshFamilies(cfg, run, i, j);
  }
}

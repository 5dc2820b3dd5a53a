/** The same runs with the authorization codes in Redis: every call has the outcome it has with
    the in-memory code store, so what is proved of runs holds there too. */
module OAuthOnRedis {
  import opened AuthCodeStore
  import opened AuthorizationServer
  import opened OAuthRuns

  datatype RedisStores = RedisStores(codes: Slots, refresh: Table)

  /** The moments that matter on Redis only: when `Save` reads the clock for the time to live, and
      when the command for the code arrives at Redis. */
  datatype Moments = Moments(until: int, command: int)

  /** A trimmed request at the authorization endpoint; the outcome does not depend on what the
      store holds. */
  function RedisGrant(db: Slots, lookup: Registry, req: AuthorizeRequest, code: string, now: int, at: Moments,
                      saved: bool)
    : (AuthorizeOutcome, Slots)
  {
    var outcome := Grant(map[], lookup, req, code, now, saved).0;
    (outcome,
     if outcome.Refused? then db
     else
       var client := lookup(RequestedClientID(req)).value;
       RedisSave(db, GrantedCode(client, outcome.redirectURI, req, code, now), at.until, at.command))
  }

  /** A trimmed request at the token endpoint. */
  function RedisExchange(cfg: Config, s: RedisStores, lookup: Registry, req: TokenRequest, n: Nonces, clock: Clock,
                         at: Moments, stored: bool)
    : (TokenOutcome, RedisStores)
  {
    if req.grantType != CODE_GRANT then (Denied(UnsupportedGrantType), s)
    else if req.code == "" then (Denied(InvalidRequest), s)
    else
      var (found, db) := RedisGet(s.codes, req.code, at.command, clock.get);
      match found
      case NotFound => (Denied(InvalidGrant), s.(codes := db))
      case Expired => (Denied(InvalidGrant), s.(codes := db))
      case Found(c) =>
        var (outcome, refresh) := Redeem(cfg, s.refresh, lookup(c.clientID).Some?, c, req, n, clock, stored);
        (outcome, RedisStores(RedisDelete(db, req.code), refresh))
  }

  ghost function RedisStepFrom(cfg: Config, s: RedisStores, e: Event, at: Moments): RedisStores {
    match e
    case AuthorizeCall(ask, lookup, nonce, now, stored) =>
      s.(codes := RedisGrant(s.codes, lookup, TrimAuthorize(ask), GeneratedCode(nonce), now, at, stored).1)
    case TokenCall(offer, lookup, nonces, clock, stored) =>
      RedisExchange(cfg, s, lookup, TrimRequest(offer), nonces, clock, at, stored).1
  }

  /** The stores after the first `k` calls. */
  ghost function RedisRunAfter(cfg: Config, run: Run, at: seq<Moments>, k: nat): RedisStores
    requires k <= |run| == |at|
  {
    if k == 0 then RedisStores(map[], map[])
    else RedisStepFrom(cfg, RedisRunAfter(cfg, run, at, k - 1), run[k - 1], at[k - 1])
  }

  ghost function RedisOutcomeAt(cfg: Config, run: Run, at: seq<Moments>, j: nat): TokenOutcome
    requires j < |run| == |at| && run[j].TokenCall?
  {
    var e := run[j];
    RedisExchange(cfg, RedisRunAfter(cfg, run, at, j), e.lookup, OfferAt(run, j), e.nonces, e.clock, at[j], e.stored).0
  }

  /** The latest reading of a call that matters to the code store. */
  function LastReading(e: Event, at: Moments): int {
    if e.AuthorizeCall? then at.command else e.clock.get
  }

  /** Calls come one after the other; inside a call the readings come in this order. */
  predicate Timed(run: Run, at: seq<Moments>) {
    && |run| == |at|
    && (forall i :: 0 <= i < |run| ==>
         if run[i].AuthorizeCall? then run[i].now <= at[i].until <= at[i].command
         else at[i].command <= run[i].clock.get)
    && (forall i, j :: 0 <= i < j < |run| && run[j].TokenCall? ==> LastReading(run[i], at[i]) <= run[j].clock.get)
  }

  // ---------- the two runs side by side ----------

  /** Both runs hold the same codes, as far as they have not expired by `t`, and the same refresh
      tokens. */
  predicate InStep(s: Stores, r: RedisStores, code: string, t: int) {
    AgreeOn(s.codes, r.codes, code, t) && s.refresh == r.refresh
  }

  lemma GrantInStep(codes: Codes, db: Slots, lookup: Registry, req: AuthorizeRequest, granted: string, now: int,
                    at: Moments, saved: bool, code: string, t: int)
    requires AgreeOn(codes, db, code, t) && code != "" && at.until <= at.command
    ensures var (outcome, after) := Grant(codes, lookup, req, granted, now, saved);
      var (redisOutcome, redisAfter) := RedisGrant(db, lookup, req, granted, now, at, saved);
      outcome == redisOutcome && AgreeOn(after, redisAfter, code, t)
  {
    var outcome := Grant(codes, lookup, req, granted, now, saved).0;
    if outcome.Authorized? {
      var c := GrantedCode(lookup(RequestedClientID(req)).value, outcome.redirectURI, req, granted, now);
      SaveAgrees(codes, db, code, c, at.until, at.command, t);
    }
  }

  /** The outcome of a token call, and the refresh tokens it leaves. */
  lemma ExchangeAlike(cfg: Config, s: Stores, r: RedisStores, lookup: Registry, req: TokenRequest, n: Nonces,
                      clock: Clock, at: Moments, stored: bool)
    requires req.code != "" ==> InStep(s, r, req.code, clock.get)
    requires s.refresh == r.refresh && at.command <= clock.get
    ensures var (outcome, after) := Exchange(cfg, s, lookup, req, n, clock, stored);
      var (redisOutcome, redisAfter) := RedisExchange(cfg, r, lookup, req, n, clock, at, stored);
      outcome == redisOutcome && after.refresh == redisAfter.refresh
  {
    if req.code != "" { AgreeingFindTheSame(s.codes, r.codes, req.code, at.command, clock.get); }
  }

  lemma ExchangeKeepsCodes(cfg: Config, s: Stores, r: RedisStores, lookup: Registry, req: TokenRequest, n: Nonces,
                           clock: Clock, at: Moments, stored: bool, code: string, t: int)
    requires req.code != "" ==> InStep(s, r, req.code, clock.get)
    requires AgreeOn(s.codes, r.codes, code, t) && code != ""
    requires at.command <= clock.get <= t
    ensures AgreeOn(Exchange(cfg, s, lookup, req, n, clock, stored).1.codes,
                    RedisExchange(cfg, r, lookup, req, n, clock, at, stored).1.codes, code, t)
  {
    if WellFormed(req) {
      AgreeingFindTheSame(s.codes, r.codes, req.code, at.command, clock.get);
      var (found, db) := RedisGet(r.codes, req.code, at.command, clock.get);
      GetAgrees(s.codes, r.codes, code, req.code, at.command, clock.get, t);
      DeleteAgrees(s.codes, db, code, req.code, t);
    }
  }

  lemma AuthorizeInStep(cfg: Config, s: Stores, r: RedisStores, e: Event, at: Moments, code: string, t: int)
    requires e.AuthorizeCall? && at.until <= at.command && InStep(s, r, code, t) && code != ""
    ensures InStep(StepFrom(cfg, s, e), RedisStepFrom(cfg, r, e, at), code, t)
  {
    GrantInStep(s.codes, r.codes, e.lookup, TrimAuthorize(e.ask), GeneratedCode(e.nonce), e.now, at, e.stored, code, t);
  }

  lemma TokenInStep(cfg: Config, s: Stores, r: RedisStores, e: Event, at: Moments, code: string, t: int)
    requires e.TokenCall? && at.command <= e.clock.get <= t && InStep(s, r, code, t) && code != ""
    requires var offered := TrimRequest(e.offer).code; offered != "" ==> InStep(s, r, offered, e.clock.get)
    ensures InStep(StepFrom(cfg, s, e), RedisStepFrom(cfg, r, e, at), code, t)
  {
    var req := TrimRequest(e.offer);
    ExchangeAlike(cfg, s, r, e.lookup, req, e.nonces, e.clock, at, e.stored);
    ExchangeKeepsCodes(cfg, s, r, e.lookup, req, e.nonces, e.clock, at, e.stored, code, t);
  }

  /** Both runs hold the same code under the one that call `k` offers, at the moment it is looked up. */
  ghost predicate OfferInStep(cfg: Config, run: Run, at: seq<Moments>, k: nat)
    requires k < |run| == |at|
  {
    run[k].TokenCall? && OfferAt(run, k).code != "" ==>
      InStep(After(cfg, run, k), RedisRunAfter(cfg, run, at, k), OfferAt(run, k).code, run[k].clock.get)
  }

  lemma CallInStep(cfg: Config, run: Run, at: seq<Moments>, k: nat, code: string, t: int)
    requires Timed(run, at) && k < |run| && code != "" && LastReading(run[k], at[k]) <= t
    requires InStep(After(cfg, run, k), RedisRunAfter(cfg, run, at, k), code, t) && OfferInStep(cfg, run, at, k)
    ensures InStep(After(cfg, run, k + 1), RedisRunAfter(cfg, run, at, k + 1), code, t)
  {
    var e, s, r := run[k], After(cfg, run, k), RedisRunAfter(cfg, run, at, k);
    if e.AuthorizeCall? {
      AuthorizeInStep(cfg, s, r, e, at[k], code, t);
    } else {
      TokenInStep(cfg, s, r, e, at[k], code, t);
    }
  }

  lemma {:induction false} OffersInStep(cfg: Config, run: Run, at: seq<Moments>, k: nat)
    requires Timed(run, at) && k < |run|
    ensures OfferInStep(cfg, run, at, k)
    decreases k, 1
  {
    if run[k].TokenCall? && OfferAt(run, k).code != "" {
      RunsInStep(cfg, run, at, k, OfferAt(run, k).code, run[k].clock.get);
    }
  }

  lemma {:induction false} RunsInStep(cfg: Config, run: Run, at: seq<Moments>, k: nat, code: string, t: int)
    requires Timed(run, at) && k <= |run| && code != ""
    requires forall i :: 0 <= i < k ==> LastReading(run[i], at[i]) <= t
    ensures InStep(After(cfg, run, k), RedisRunAfter(cfg, run, at, k), code, t)
    decreases k, 0
  {
    if k > 0 {
      RunsInStep(cfg, run, at, k - 1, code, t);
      OffersInStep(cfg, run, at, k - 1);
      CallInStep(cfg, run, at, k - 1, code, t);
    }
  }

  /** Every token call of a run has the same outcome on Redis as in memory. */
  lemma {:induction false} OutcomesAgree(cfg: Config, run: Run, at: seq<Moments>, j: nat)
    requires Timed(run, at) && j < |run| && run[j].TokenCall?
    ensures RedisOutcomeAt(cfg, run, at, j) == OutcomeAt(cfg, run, j)
  {
    var e, req := run[j], OfferAt(run, j);
    RunsInStep(cfg, run, at, j, "any code", e.clock.get);
    if req.code != "" { RunsInStep(cfg, run, at, j, req.code, e.clock.get); }
    ExchangeAlike(cfg, After(cfg, run, j), RedisRunAfter(cfg, run, at, j), e.lookup, req, e.nonces, e.clock, at[j],
                  e.stored);
  }

  /** Call `j` is a token call that succeeds on Redis. */
  ghost predicate RedisIssuedAt(cfg: Config, run: Run, at: seq<Moments>, j: int)
    requires |run| == |at|
  {
    0 <= j < |run| && run[j].TokenCall? && RedisOutcomeAt(cfg, run, at, j).Issued?
  }

  /** Over every run on Redis: each token set is the one the in-memory run gives, it answers an
      earlier authorization, and no two token sets answer the same one. */
  lemma {:induction false} RedisCorrespondence(cfg: Config, run: Run, at: seq<Moments>)
    requires Timed(run, at) && FreshCodes(run)
    ensures forall j :: RedisIssuedAt(cfg, run, at, j) ==>
              IssuedAt(cfg, run, j) && Answers(cfg, run, GrantOf(cfg, run, j), j)
              && RedisOutcomeAt(cfg, run, at, j) == OutcomeAt(cfg, run, j)
    ensures forall j, m :: RedisIssuedAt(cfg, run, at, j) && RedisIssuedAt(cfg, run, at, m) && j != m
              ==> IssuedAt(cfg, run, j) && IssuedAt(cfg, run, m) && GrantOf(cfg, run, j) != GrantOf(cfg, run, m)
  {
    InjectiveCorrespondence(cfg, run);
    forall j | RedisIssuedAt(cfg, run, at, j)
      ensures IssuedAt(cfg, run, j) && RedisOutcomeAt(cfg, run, at, j) == OutcomeAt(cfg, run, j)
    {
      OutcomesAgree(cfg, run, at, j);
    }
  }
}

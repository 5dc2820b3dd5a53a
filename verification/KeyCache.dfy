/** The resource server's cache of verification keys, filled from the JWKS endpoint. */
module KeyCache {
  import opened GoStrings
  import opened Durations
  import opened Jwks

  const DEFAULT_KID := "default"

  type Keys = map<string, PublicKey>

  datatype Cache = Cache(keys: Keys, lastFetched: int)

  /** A document entry reduced to what the cache sees of it. */
  datatype Offer = Offer(kid: string, key: Option<PublicKey>)

  /** What a request to the JWKS endpoint brings: a transport error, a status other than 200 and
      an unreadable body all leave no document. */
  datatype Response = NoDocument | Document(offers: seq<Offer>)

  /** One call of `resolvePublicKey`: the key id asked for, the clock, and what a request to
      the endpoint would bring at that moment. */
  datatype Request = Request(kid: string, now: int, done: int, response: Response)

  function OfferOf(k: Jwk): Offer {
    Offer(k.kid, UsableKey(k))
  }

  function Offers(doc: seq<Jwk>): (o: seq<Offer>)
    ensures |o| == |doc|
    ensures forall i :: 0 <= i < |doc| ==> o[i] == OfferOf(doc[i])
  {
    seq(|doc|, i requires 0 <= i < |doc| => OfferOf(doc[i]))
  }

  /** A reply of the endpoint as the cache sees it. */
  function ResponseOf(reply: Option<seq<Jwk>>): Response {
    match reply
    case None => NoDocument
    case Some(doc) => Document(Offers(doc))
  }

  function Store(keys: Keys, o: Offer): Keys {
    match o.key
    case None => keys
    case Some(p) => (if o.kid != "" then keys[o.kid := p] else keys)[DEFAULT_KID := p]
  }

  /** The first `n` offers stored one after the other. */
  function Absorb(keys: Keys, offers: seq<Offer>, n: nat): Keys
    requires n <= |offers|
  {
    if n == 0 then keys else Store(Absorb(keys, offers, n - 1), offers[n - 1])
  }

  lemma AbsorbStep(keys: Keys, offers: seq<Offer>, n: nat)
    requires n < |offers|
    ensures Absorb(keys, offers, n + 1) == Store(Absorb(keys, offers, n), offers[n])
  {
  }

  /** The first `n` entries of a document stored one after the other. */
  function AbsorbDocument(keys: Keys, doc: seq<Jwk>, n: nat): Keys
    requires n <= |doc|
  {
    Absorb(keys, Offers(doc), n)
  }

  function Fetch(c: Cache, now: int, done: int, response: Response): (bool, Cache) {
    if now - c.lastFetched < MINUTE && |c.keys| > 0 then (true, c)
    else
      match response
      case NoDocument => (false, c)
      case Document(offers) => (true, Cache(Absorb(c.keys, offers, |offers|), done))
  }

  /** The key under `kid`, or else the default key. */
  function Choose(keys: Keys, kid: string): Option<PublicKey> {
    if kid in keys then Some(keys[kid])
    else if DEFAULT_KID in keys then Some(keys[DEFAULT_KID])
    else None
  }

  function Resolve(jwksURL: string, c: Cache, r: Request): (Option<PublicKey>, Cache) {
    if r.kid != "" && r.kid in c.keys then (Some(c.keys[r.kid]), c)
    else if DEFAULT_KID in c.keys then (Some(c.keys[DEFAULT_KID]), c)
    else if jwksURL == "" then (None, c)
    else
      var (ok, c') := Fetch(c, r.now, r.done, r.response);
      (if ok then Choose(c'.keys, r.kid) else None, c')
  }

  /** `AuthMiddleware`, as far as it concerns keys. */
  class AuthMiddleware {
    const jwksURL: string
    var cachedKeys: Keys
    var lastFetched: int

    function State(): Cache
      reads this
    {
      Cache(cachedKeys, lastFetched)
    }

    constructor (jwksURL: string, staticKey: Option<PublicKey>)
      ensures this.jwksURL == jwksURL
      ensures cachedKeys == if staticKey.Some? then map[DEFAULT_KID := staticKey.value] else map[]
      ensures CacheInvariant(cachedKeys)
    {
      this.jwksURL := jwksURL;
      cachedKeys := if staticKey.Some? then map[DEFAULT_KID := staticKey.value] else map[];
      lastFetched := 0;
    }

    /** The body of the loop in `fetchJWKS`. */
    method Take(k: Jwk)
      modifies this`cachedKeys
      ensures cachedKeys == Store(old(cachedKeys), OfferOf(k))
    {
      if k.kty == "RSA" && k.n != "" && k.e != "" {
        var pubKey := ParseRSAPublicKeyFromJWK(k.n, k.e);
        if pubKey.Some? {
          if k.kid != "" { cachedKeys := cachedKeys[k.kid := pubKey.value]; }
          cachedKeys := cachedKeys[DEFAULT_KID := pubKey.value];
        }
      }
    }

    /** The loop of `fetchJWKS` goes on with the next entry. */
    method TakeNext(ghost start: Keys, doc: seq<Jwk>, i: nat)
      requires i < |doc| && cachedKeys == AbsorbDocument(start, doc, i)
      modifies this`cachedKeys
      ensures cachedKeys == AbsorbDocument(start, doc, i + 1)
    {
      AbsorbStep(start, Offers(doc), i);
      Take(doc[i]);
    }

    /** The loop of `fetchJWKS`. */
    method TakeAll(doc: seq<Jwk>)
      modifies this`cachedKeys
      ensures cachedKeys == AbsorbDocument(old(cachedKeys), doc, |doc|)
    {
      for i := 0 to |doc|
        invariant cachedKeys == AbsorbDocument(old(cachedKeys), doc, i)
      {
        TakeNext(old(cachedKeys), doc, i);
      }
    }

    method FetchJWKS(now: int, done: int, reply: Option<seq<Jwk>>) returns (ok: bool)
      modifies this
      ensures (ok, State()) == Fetch(old(State()), now, done, ResponseOf(reply))
    {
      if now - lastFetched < MINUTE && |cachedKeys| > 0 { return true; }
      if reply.None? { return false; }
      TakeAll(reply.value);
      lastFetched := done;
      return true;
    }

    method ResolvePublicKey(kid: string, now: int, done: int, reply: Option<seq<Jwk>>) returns (key: Option<PublicKey>)
      modifies this
      ensures (key, State()) == Resolve(jwksURL, old(State()), Request(kid, now, done, ResponseOf(reply)))
    {
      if kid != "" && kid in cachedKeys { return Some(cachedKeys[kid]); }
      if DEFAULT_KID in cachedKeys { return Some(cachedKeys[DEFAULT_KID]); }
      if jwksURL != "" {
        var ok := FetchJWKS(now, done, reply);
        if ok {
          if kid in cachedKeys { return Some(cachedKeys[kid]); }
          if DEFAULT_KID in cachedKeys { return Some(cachedKeys[DEFAULT_KID]); }
        }
      }
      return None;
    }
  }

  /** The cache is empty or has a default key, and has no key under the empty id. */
  predicate CacheInvariant(keys: Keys) {
    (keys == map[] || DEFAULT_KID in keys) && "" !in keys
  }

  lemma {:induction false} AbsorbKeepsInvariant(keys: Keys, offers: seq<Offer>, n: nat)
    requires CacheInvariant(keys) && n <= |offers|
    ensures CacheInvariant(Absorb(keys, offers, n))
  {
    if n > 0 { AbsorbKeepsInvariant(keys, offers, n - 1); }
  }

  /** Also under concurrent resolves, whose only writing step is the locked fetch. */
  lemma {:induction false} FetchKeepsInvariant(c: Cache, now: int, done: int, response: Response)
    requires CacheInvariant(c.keys)
    ensures CacheInvariant(Fetch(c, now, done, response).1.keys)
  {
    if response.Document? { AbsorbKeepsInvariant(c.keys, response.offers, |response.offers|); }
  }

  // ---------- sequences of resolves ----------

  /** The cache after the first `k` resolves. */
  function After(jwksURL: string, c: Cache, rs: seq<Request>, k: nat): Cache
    requires k <= |rs|
  {
    if k == 0 then c else Resolve(jwksURL, After(jwksURL, c, rs, k - 1), rs[k - 1]).1
  }

  function Resolved(jwksURL: string, c: Cache, rs: seq<Request>, k: nat): Option<PublicKey>
    requires k < |rs|
  {
    Resolve(jwksURL, After(jwksURL, c, rs, k), rs[k]).0
  }

  lemma {:induction false} InvariantAlways(jwksURL: string, c: Cache, rs: seq<Request>, k: nat)
    requires CacheInvariant(c.keys) && k <= |rs|
    ensures CacheInvariant(After(jwksURL, c, rs, k).keys)
  {
    if k > 0 {
      InvariantAlways(jwksURL, c, rs, k - 1);
      var r := rs[k - 1];
      FetchKeepsInvariant(After(jwksURL, c, rs, k - 1), r.now, r.done, r.response);
    }
  }

  lemma FilledStays(jwksURL: string, c: Cache, r: Request)
    requires DEFAULT_KID in c.keys
    ensures Resolve(jwksURL, c, r).1 == c
  {
  }

  lemma {:induction false} FrozenOnceFilled(jwksURL: string, c: Cache, rs: seq<Request>, k: nat, m: nat)
    requires k <= m <= |rs| && DEFAULT_KID in After(jwksURL, c, rs, k).keys
    ensures After(jwksURL, c, rs, m) == After(jwksURL, c, rs, k)
  {
    if k < m {
      FrozenOnceFilled(jwksURL, c, rs, k, m - 1);
      FilledStays(jwksURL, After(jwksURL, c, rs, m - 1), rs[m - 1]);
    }
  }

  lemma FilledByResolve(jwksURL: string, c: Cache, r: Request)
    requires CacheInvariant(c.keys) && Resolve(jwksURL, c, r).0.Some?
    ensures DEFAULT_KID in Resolve(jwksURL, c, r).1.keys
    ensures Choose(Resolve(jwksURL, c, r).1.keys, r.kid) == Resolve(jwksURL, c, r).0
  {
    FetchKeepsInvariant(c, r.now, r.done, r.response);
  }

  lemma ResolveFilled(jwksURL: string, c: Cache, r: Request)
    requires CacheInvariant(c.keys) && DEFAULT_KID in c.keys
    ensures Resolve(jwksURL, c, r) == (Choose(c.keys, r.kid), c)
    ensures Resolve(jwksURL, c, r).0 == Some(if r.kid in c.keys then c.keys[r.kid] else c.keys["default"])
  {
  }

  lemma ResolvedSettles(jwksURL: string, c: Cache, rs: seq<Request>, k: nat)
    requires CacheInvariant(c.keys) && k < |rs| && Resolved(jwksURL, c, rs, k).Some?
    ensures var keys := After(jwksURL, c, rs, k + 1).keys;
      CacheInvariant(keys) && DEFAULT_KID in keys && Choose(keys, rs[k].kid) == Resolved(jwksURL, c, rs, k)
  {
    InvariantAlways(jwksURL, c, rs, k);
    InvariantAlways(jwksURL, c, rs, k + 1);
    FilledByResolve(jwksURL, After(jwksURL, c, rs, k), rs[k]);
  }

  lemma ResolvedFromFilled(jwksURL: string, c: Cache, rs: seq<Request>, k: nat, m: nat)
    requires k <= m < |rs| && CacheInvariant(After(jwksURL, c, rs, k).keys)
    requires DEFAULT_KID in After(jwksURL, c, rs, k).keys
    ensures Resolved(jwksURL, c, rs, m) == Choose(After(jwksURL, c, rs, k).keys, rs[m].kid)
  {
    FrozenOnceFilled(jwksURL, c, rs, k, m);
    ResolveFilled(jwksURL, After(jwksURL, c, rs, k), rs[m]);
  }

  /** Every resolve that finds a key settles that key id for good: every later resolve of it
      finds the same key, whatever documents are offered. */
  lemma {:induction false} ResolvedOnceForAll(jwksURL: string, c: Cache, rs: seq<Request>, k: nat, m: nat)
    requires CacheInvariant(c.keys) && k < m < |rs|
    requires Resolved(jwksURL, c, rs, k).Some? && rs[m].kid == rs[k].kid
    ensures Resolved(jwksURL, c, rs, m) == Resolved(jwksURL, c, rs, k)
  {
    ResolvedSettles(jwksURL, c, rs, k);
    ResolvedFromFilled(jwksURL, c, rs, k + 1, m);
  }

  /** The throttle in `fetchJWKS` never acts while resolves run one after the other: a resolve
      that reaches the fetch finds the cache empty. */
  lemma {:induction false} ThrottleIdle(jwksURL: string, c: Cache, rs: seq<Request>, k: nat)
    requires CacheInvariant(c.keys) && k < |rs|
    ensures var before := After(jwksURL, c, rs, k);
      Choose(before.keys, rs[k].kid).None? ==> |before.keys| == 0
  {
    InvariantAlways(jwksURL, c, rs, k);
  }

  // ---------- which entry wins ----------

  /** `p` is the key of the last usable one of the first `n` offers that carry `kid`. */
  ghost predicate LastWithKid(offers: seq<Offer>, n: nat, kid: string, p: PublicKey)
    requires n <= |offers|
  {
    exists i :: 0 <= i < n && offers[i] == Offer(kid, Some(p))
      && forall j :: i < j < n && offers[j].kid == kid ==> offers[j].key.None?
  }

  /** `p` is the key of the last usable one of the first `n` offers. */
  ghost predicate LastUsable(offers: seq<Offer>, n: nat, p: PublicKey)
    requires n <= |offers|
  {
    exists i :: 0 <= i < n && offers[i].key == Some(p)
      && forall j :: i < j < n ==> offers[j].key.None?
  }

  lemma {:induction false} AbsorbedDefault(offers: seq<Offer>, n: nat, p: PublicKey)
    requires n <= |offers|
    ensures DEFAULT_KID in Absorb(map[], offers, n) && Absorb(map[], offers, n)[DEFAULT_KID] == p
       <==> LastUsable(offers, n, p)
  {
    if n > 0 { AbsorbedDefault(offers, n - 1, p); }
  }

  lemma {:induction false} AbsorbedKid(offers: seq<Offer>, n: nat, kid: string, p: PublicKey)
    requires n <= |offers| && kid != "" && kid != DEFAULT_KID
    ensures kid in Absorb(map[], offers, n) && Absorb(map[], offers, n)[kid] == p
       <==> LastWithKid(offers, n, kid, p)
  {
    if n > 0 { AbsorbedKid(offers, n - 1, kid, p); }
  }

  /** What one fetch into an empty cache stores: under each key id the last usable entry that
      carries it, and as default the last usable entry of all. */
  lemma {:induction false} FetchedKeys(offers: seq<Offer>, now: int, done: int, lastFetched: int, kid: string,
                                       p: PublicKey)
    ensures var (ok, c) := Fetch(Cache(map[], lastFetched), now, done, Document(offers));
      && ok
      && (DEFAULT_KID in c.keys && c.keys[DEFAULT_KID] == p <==> LastUsable(offers, |offers|, p))
      && (kid != "" && kid != DEFAULT_KID ==>
           (kid in c.keys && c.keys[kid] == p <==> LastWithKid(offers, |offers|, kid, p)))
  {
    AbsorbedDefault(offers, |offers|, p);
    if kid != "" && kid != DEFAULT_KID { AbsorbedKid(offers, |offers|, kid, p); }
  }

  /** When a fetch does nothing: within a minute of the last one if there are keys, and when no
      document comes; otherwise the time of the fetch is kept. */
  lemma {:induction false} FetchActsIff(c: Cache, now: int, done: int, response: Response)
    ensures var (ok, c') := Fetch(c, now, done, response);
      var throttled := c.keys != map[] && now < c.lastFetched + 60 * SECOND;
      && (ok <==> throttled || response.Document?)
      && (throttled || response.NoDocument? ==> c' == c)
      && (!throttled && response.Document? ==> c'.lastFetched == done)
  {
    assert c.keys == map[] <==> |c.keys| == 0;
  }

  /** Some usable offer carries `kid`, which is not reserved. */
  predicate Carried(offers: seq<Offer>, kid: string) {
    kid != "" && kid != "default" && exists i :: 0 <= i < |offers| && offers[i].kid == kid && offers[i].key.Some?
  }

  lemma {:induction false} CarriedIsStored(offers: seq<Offer>, n: nat, kid: string)
    requires n <= |offers| && kid != "" && kid != DEFAULT_KID
    ensures kid in Absorb(map[], offers, n)
       <==> exists i :: 0 <= i < n && offers[i].kid == kid && offers[i].key.Some?
  {
    if n > 0 { CarriedIsStored(offers, n - 1, kid); }
  }

  /** Which key a server without any key resolves to: the last usable entry that carries the
      token's key id, and if none does, the last usable entry of all. */
  lemma {:induction false} FirstResolve(jwksURL: string, lastFetched: int, r: Request, p: PublicKey)
    ensures var (key, c) := Resolve(jwksURL, Cache(map[], lastFetched), r);
      if jwksURL == "" || r.response.NoDocument? then key == None && c == Cache(map[], lastFetched)
      else key == Some(p) <==>
        if Carried(r.response.offers, r.kid) then LastWithKid(r.response.offers, |r.response.offers|, r.kid, p)
        else LastUsable(r.response.offers, |r.response.offers|, p)
  {
    if r.response.Document? {
      var offers := r.response.offers;
      AbsorbKeepsInvariant(map[], offers, |offers|);
      AbsorbedDefault(offers, |offers|, p);
      if r.kid != "" && r.kid != DEFAULT_KID {
        CarriedIsStored(offers, |offers|, r.kid);
        AbsorbedKid(offers, |offers|, r.kid, p);
      }
    }
  }

  /** A resource server that starts with no key finds the signer's key in the signer's own
      JWKS document, under the signer's key id and under any other. */
  lemma {:induction false} PublishedKeyResolves(jwksURL: string, lastFetched: int, r: Request, k: PublicKey,
                                                keyID: string)
    requires jwksURL != "" && k.n >= 1 && k.e >= 1
    requires r.response == ResponseOf(Some(PublishedKeys(Some(k), keyID)))
    ensures Resolve(jwksURL, Cache(map[], lastFetched), r).0 == Some(k)
  {
    JwksRoundTrip(k, keyID);
    var offers := r.response.offers;
    assert Absorb(map[], offers, 1) == Store(Absorb(map[], offers, 0), offers[0]);
  }
}

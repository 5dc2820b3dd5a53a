/** The two stores of authorization codes, and their agreement on what `Get` finds. */
module AuthCodeStore {
  import opened GoStrings
  import opened Durations
  import opened Ledger
  import Redis

  /** A stored authorization code with the data it is bound to. */
  datatype AuthCode = AuthCode(
    code: string,
    clientID: string,
    userID: Option<string>,
    redirectURI: string,
    scope: string,
    codeChallenge: string,
    codeChallengeMethod: string,
    expiresAt: int)

  datatype Found = Found(code: AuthCode) | NotFound | Expired

  type Codes = map<string, AuthCode>

  function Payload(f: Found): Option<AuthCode> {
    if f.Found? then Some(f.code) else None
  }

  // ---------- the in-memory store ----------

  function MemoryGet(codes: Codes, code: string, now: int): Found {
    if code !in codes then NotFound
    else if now > codes[code].expiresAt then Expired
    else Found.Found(codes[code])
  }

  class MemoryAuthCodeRepository {
    var codes: Codes

    constructor ()
      ensures codes == map[]
    {
      codes := map[];
    }

    method Save(code: AuthCode)
      modifies this
      ensures codes == old(codes)[code.code := code]
    {
      codes := codes[code.code := code];
    }

    method Get(code: string, now: int) returns (r: Found)
      ensures r == MemoryGet(codes, code, now)
    {
      if code !in codes { return NotFound; }
      if now > codes[code].expiresAt { return Expired; }
      return Found.Found(codes[code]);
    }

    method Delete(code: string)
      modifies this
      ensures codes == old(codes) - {code}
    {
      codes := codes - {code};
    }
  }

  // ---------- the Redis store ----------

  type Slots = Redis.Db<AuthCode>

  function Key(code: string): string {
    "auth_code:" + code
  }

  lemma KeyInjective(a: string, b: string)
    ensures Key(a) == Key(b) ==> a == b
  {
    assert Key(a)[10..] == a && Key(b)[10..] == b;
  }

  /** `now` is the reading behind `time.Until`, `setAt` the moment of the Redis command. */
  function RedisSave(db: Slots, code: AuthCode, now: int, setAt: int): Slots {
    if code.code == "" then db
    else
      var ttl := code.expiresAt - now;
      Redis.Put(db, Key(code.code), code, if ttl <= 0 then 5 * MINUTE else ttl, setAt)
  }

  /** `at` is the moment of the Redis command, `now` the clock read after it. */
  function RedisGet(db: Slots, code: string, at: int, now: int): (Found, Slots) {
    if code == "" then (NotFound, db)
    else
      match Redis.Lookup(db, Key(code), at)
      case None => (NotFound, db)
      case Some(c) => if now > c.expiresAt then (Expired, db - {Key(code)}) else (Found.Found(c), db)
  }

  function RedisDelete(db: Slots, code: string): Slots {
    if code == "" then db else db - {Key(code)}
  }

  class RedisAuthCodeRepository {
    const rdb: Redis.Client<AuthCode>

    constructor (rdb: Redis.Client<AuthCode>)
      ensures this.rdb == rdb
    {
      this.rdb := rdb;
    }

    method Save(code: AuthCode, now: int, setAt: int) returns (ok: bool)
      modifies rdb
      ensures ok == (code.code != "")
      ensures rdb.db == RedisSave(old(rdb.db), code, now, setAt)
    {
      if code.code == "" { return false; }
      var ttl := code.expiresAt - now;
      if ttl <= 0 { ttl := 5 * MINUTE; }
      rdb.Set(Key(code.code), code, ttl, setAt);
      return true;
    }

    method Get(code: string, at: int, now: int) returns (r: Found)
      modifies rdb
      ensures (r, rdb.db) == RedisGet(old(rdb.db), code, at, now)
    {
      if code == "" { return NotFound; }
      var value := rdb.Get(Key(code), at);
      if value.None? { return NotFound; }
      if now > value.value.expiresAt {
        Delete(code);
        return Expired;
      }
      return Found.Found(value.value);
    }

    method Delete(code: string)
      modifies rdb
      ensures rdb.db == RedisDelete(old(rdb.db), code)
    {
      if code == "" { return; }
      rdb.Del(Key(code));
    }
  }

  // ---------- the two stores side by side ----------

  /** One call on either store, with the clock readings it makes. */
  datatype Call =
    | Save(saved: AuthCode, at: int, now: int)
    | Get(code: string, at: int, now: int)
    | Delete(code: string, at: int, now: int)

  function CodeOf(c: Call): string {
    match c
    case Save(saved, _, _) => saved.code
    case _ => c.code
  }

  /** Calls come one after the other in time; inside a call the earlier reading is `at`. */
  predicate Timed(calls: seq<Call>) {
    && (forall i :: 0 <= i < |calls| ==> calls[i].at <= calls[i].now)
    && (forall i, j :: 0 <= i < j < |calls| ==> calls[i].now <= calls[j].at)
  }

  function EffectOf(c: Call): Effect<AuthCode> {
    match c
    case Save(saved, _, _) => Put(saved.code, saved)
    case Get(_, _, _) => Idle
    case Delete(code, _, _) => Cut(code)
  }

  function Effects(calls: seq<Call>): (effects: seq<Effect<AuthCode>>)
    ensures |effects| == |calls| && forall i :: 0 <= i < |calls| ==> effects[i] == EffectOf(calls[i])
  {
    seq(|calls|, i requires 0 <= i < |calls| => EffectOf(calls[i]))
  }

  /** The in-memory store after the first `k` calls. */
  function MemoryAfter(calls: seq<Call>, k: nat): Codes
    requires k <= |calls|
  {
    Held(Effects(calls), k)
  }

  function RedisAfter(calls: seq<Call>, k: nat): Slots
    requires k <= |calls|
  {
    if k == 0 then map[]
    else
      var db := RedisAfter(calls, k - 1);
      match calls[k - 1]
      case Save(c, at, now) => RedisSave(db, c, at, now)
      case Get(code, at, now) => RedisGet(db, code, at, now).1
      case Delete(code, _, _) => RedisDelete(db, code)
  }

  /** The last of the first `k` calls that saves or deletes `code` is the saving of `c`. */
  ghost predicate LastSaved(calls: seq<Call>, k: nat, code: string, c: AuthCode)
    requires k <= |calls|
  {
    exists i :: LivePut(Effects(calls), i, k, code) && calls[i].saved == c
  }

  /** Both stores hold the same code under `code`, as far as it has not expired by `t`. */
  predicate AgreeOn(codes: Codes, db: Slots, code: string, t: int) {
    && (code in codes && t <= codes[code].expiresAt ==>
         Key(code) in db && db[Key(code)].value == codes[code]
         && db[Key(code)].deadline.Some? && codes[code].expiresAt <= db[Key(code)].deadline.value)
    && (Key(code) in db && t <= db[Key(code)].value.expiresAt ==>
         code in codes && codes[code] == db[Key(code)].value)
  }

  /** A save keeps the stores in agreement: Redis holds the code no shorter than it lives. */
  lemma SaveAgrees(codes: Codes, db: Slots, code: string, c: AuthCode, now: int, setAt: int, t: int)
    requires AgreeOn(codes, db, code, t) && code != "" && now <= setAt
    ensures AgreeOn(codes[c.code := c], RedisSave(db, c, now, setAt), code, t)
  {
    KeyInjective(code, c.code);
  }

  /** How long Redis keeps a code: for the rest of its life as seen when it is saved, or for five
      minutes if nothing is left of it. */
  lemma {:induction false} RedisKeepsFor(db: Slots, c: AuthCode, now: int, setAt: int, at: int)
    requires c.code != ""
    ensures Redis.Lookup(RedisSave(db, c, now, setAt), Key(c.code), at) == Some(c) <==>
      at <= setAt + if now < c.expiresAt then c.expiresAt - now else 300 * SECOND
  {
  }

  /** A read that finds a code expired deletes it, and no read changes anything else. */
  lemma {:induction false} ExpiredReadDeletes(db: Slots, code: string, at: int, now: int)
    ensures var (found, after) := RedisGet(db, code, at, now);
      after == if found == Expired then db - {"auth_code:" + code} else db
  {
  }

  /** A read deletes only what has expired by then. */
  lemma GetAgrees(codes: Codes, db: Slots, code: string, read: string, at: int, now: int, t: int)
    requires AgreeOn(codes, db, code, t) && now <= t
    ensures AgreeOn(codes, RedisGet(db, read, at, now).1, code, t)
  {
    KeyInjective(code, read);
  }

  lemma DeleteAgrees(codes: Codes, db: Slots, code: string, deleted: string, t: int)
    requires AgreeOn(codes, db, code, t) && code != ""
    ensures AgreeOn(codes - {deleted}, RedisDelete(db, deleted), code, t)
  {
    KeyInjective(code, deleted);
  }

  lemma AgreeingFindTheSame(codes: Codes, db: Slots, code: string, at: int, now: int)
    requires AgreeOn(codes, db, code, now) && code != "" && at <= now
    ensures Payload(MemoryGet(codes, code, now)) == Payload(RedisGet(db, code, at, now).0)
  {
  }

  lemma {:induction false} StoresAgree(calls: seq<Call>, k: nat, code: string, t: int)
    requires k <= |calls| && Timed(calls) && code != ""
    requires forall i :: 0 <= i < k ==> calls[i].now <= t
    ensures AgreeOn(MemoryAfter(calls, k), RedisAfter(calls, k), code, t)
  {
    if k > 0 {
      StoresAgree(calls, k - 1, code, t);
      var codes, db := MemoryAfter(calls, k - 1), RedisAfter(calls, k - 1);
      match calls[k - 1]
      case Save(c, at, now) => SaveAgrees(codes, db, code, c, at, now, t);
      case Get(read, at, now) => GetAgrees(codes, db, code, read, at, now, t);
      case Delete(deleted, _, _) => DeleteAgrees(codes, db, code, deleted, t);
    }
  }

  /** For every sequence of calls, a `Get` of a non-empty code finds the same data in both
      stores: what the last `Save` stored, if nothing deleted it since and it has not expired. */
  lemma {:induction false} StoresFindTheSame(calls: seq<Call>, k: nat, c: AuthCode)
    requires k < |calls| && Timed(calls) && calls[k].Get? && calls[k].code != ""
    ensures var code, at, now := calls[k].code, calls[k].at, calls[k].now;
      var memory := Payload(MemoryGet(MemoryAfter(calls, k), code, now));
      var redis := Payload(RedisGet(RedisAfter(calls, k), code, at, now).0);
      && memory == redis
      && (memory == Some(c) <==> LastSaved(calls, k, code, c) && now <= c.expiresAt)
  {
    var code, at, now := calls[k].code, calls[k].at, calls[k].now;
    StoresAgree(calls, k, code, now);
    AgreeingFindTheSame(MemoryAfter(calls, k), RedisAfter(calls, k), code, at, now);
    HeldIff(Effects(calls), k, code, c);
  }

  /** The empty code is the exception: only the in-memory store keeps it. */
  lemma {:induction false} EmptyCodeDiffers(c: AuthCode, at: int)
    requires c.code == "" && at <= c.expiresAt
    ensures var calls := [Save(c, at, at), Get("", at, at)];
      && MemoryGet(MemoryAfter(calls, 1), "", at) == Found.Found(c)
      && RedisGet(RedisAfter(calls, 1), "", at, at).0 == NotFound
  {
    var calls := [Save(c, at, at), Get("", at, at)];
    assert MemoryAfter(calls, 1) == MemoryAfter(calls, 0)["" := c];
    assert RedisAfter(calls, 1) == RedisAfter(calls, 0);
  }
}

/** The two stores of login sessions, and the gate they form in front of `Authorize`. */
module SessionStore {
  import opened GoStrings
  import opened Durations
  import opened Encoding
  import opened Ledger
  import Redis

  datatype SessionData = SessionData(
    sessionID: string, userID: string, email: string, name: string, createdAt: int, expiresAt: int)

  datatype User = User(id: string, email: string, name: string)

  type Sessions = map<string, SessionData>

  /** `generateSessionID`, of random bytes. */
  function SessionID(nonce: Bytes): string {
    "sess_" + Hex(nonce)
  }

  /** Different random bytes give different ids. */
  lemma {:induction false} SessionIDInjective(a: Bytes, b: Bytes)
    requires SessionID(a) == SessionID(b)
    ensures a == b
  {
    assert Hex(a) == SessionID(a)[5..] == SessionID(b)[5..] == Hex(b);
    HexInjective(a, b);
  }

  function EffectiveTTL(ttl: int): int {
    if ttl <= 0 then 24 * HOUR else ttl
  }

  function NewSession(user: User, ttl: int, nonce: Bytes, now: int): SessionData {
    SessionData(SessionID(nonce), user.id, user.email, user.name, now, now + EffectiveTTL(ttl))
  }

  // ---------- the in-memory store ----------

  /** An expired session is deleted when it is read. */
  function MemoryGet(sessions: Sessions, id: string, now: int): (Option<SessionData>, Sessions) {
    if id !in sessions then (None, sessions)
    else if now > sessions[id].expiresAt then (None, sessions - {id})
    else (Some(sessions[id]), sessions)
  }

  class MemorySessionStore {
    var sessions: Sessions

    constructor ()
      ensures sessions == map[]
    {
      sessions := map[];
    }

    method CreateSession(user: User, ttl: int, nonce: Bytes, now: int) returns (data: SessionData)
      modifies this
      ensures data == NewSession(user, ttl, nonce, now)
      ensures sessions == old(sessions)[data.sessionID := data]
    {
      var life := ttl;
      if life <= 0 { life := 24 * HOUR; }
      data := SessionData(SessionID(nonce), user.id, user.email, user.name, now, now + life);
      sessions := sessions[data.sessionID := data];
    }

    method GetSession(id: string, now: int) returns (data: Option<SessionData>)
      modifies this
      ensures (data, sessions) == MemoryGet(old(sessions), id, now)
    {
      if id !in sessions { return None; }
      if now > sessions[id].expiresAt {
        sessions := sessions - {id};
        return None;
      }
      return Some(sessions[id]);
    }

    method DeleteSession(id: string)
      modifies this
      ensures sessions == old(sessions) - {id}
    {
      sessions := sessions - {id};
    }
  }

  // ---------- the Redis store ----------

  type Slots = Redis.Db<SessionData>

  function Key(id: string): string {
    "auth_session:" + id
  }

  lemma KeyInjective(a: string, b: string)
    ensures Key(a) == Key(b) ==> a == b
  {
    assert Key(a)[13..] == a && Key(b)[13..] == b;
  }

  function RedisCreate(db: Slots, data: SessionData, ttl: int, setAt: int): Slots {
    Redis.Put(db, Key(data.sessionID), data, EffectiveTTL(ttl), setAt)
  }

  function RedisGet(db: Slots, id: string, at: int, now: int): (Option<SessionData>, Slots) {
    if id == "" then (None, db)
    else
      match Redis.Lookup(db, Key(id), at)
      case None => (None, db)
      case Some(data) => if now > data.expiresAt then (None, db - {Key(id)}) else (Some(data), db)
  }

  class RedisSessionStore {
    const client: Redis.Client<SessionData>

    constructor (client: Redis.Client<SessionData>)
      ensures this.client == client
    {
      this.client := client;
    }

    method CreateSession(user: User, ttl: int, nonce: Bytes, now: int, setAt: int) returns (data: SessionData)
      modifies client
      ensures data == NewSession(user, ttl, nonce, now)
      ensures client.db == RedisCreate(old(client.db), data, ttl, setAt)
    {
      var life := ttl;
      if life <= 0 { life := 24 * HOUR; }
      data := SessionData(SessionID(nonce), user.id, user.email, user.name, now, now + life);
      client.Set(Key(data.sessionID), data, life, setAt);
    }

    method GetSession(id: string, at: int, now: int) returns (data: Option<SessionData>)
      modifies client
      ensures (data, client.db) == RedisGet(old(client.db), id, at, now)
    {
      if id == "" { return None; }
      var found := client.Get(Key(id), at);
      if found.None? { return None; }
      if now > found.value.expiresAt {
        DeleteSession(id);
        return None;
      }
      return found;
    }

    method DeleteSession(id: string)
      modifies client
      ensures client.db == old(client.db) - {Key(id)}
    {
      client.Del(Key(id));
    }
  }

  // ---------- runs ----------

  /** One call on either store, with the clock readings it makes, the earlier one first. */
  datatype Call =
    | Create(user: User, ttl: int, nonce: Bytes, at: int, now: int)
    | Get(id: string, at: int, now: int)
    | Delete(id: string, at: int, now: int)

  predicate Timed(calls: seq<Call>) {
    && (forall i :: 0 <= i < |calls| ==> calls[i].at <= calls[i].now)
    && (forall i, j :: 0 <= i < j < |calls| ==> calls[i].now <= calls[j].at)
  }

  function Created(c: Call): SessionData
    requires c.Create?
  {
    NewSession(c.user, c.ttl, c.nonce, c.at)
  }

  function MemoryAfter(calls: seq<Call>, k: nat): Sessions
    requires k <= |calls|
  {
    if k == 0 then map[]
    else
      var sessions := MemoryAfter(calls, k - 1);
      match calls[k - 1]
      case Create(_, _, _, _, _) => var data := Created(calls[k - 1]); sessions[data.sessionID := data]
      case Get(id, _, now) => MemoryGet(sessions, id, now).1
      case Delete(id, _, _) => sessions - {id}
  }

  function RedisAfter(calls: seq<Call>, k: nat): Slots
    requires k <= |calls|
  {
    if k == 0 then map[]
    else
      var db := RedisAfter(calls, k - 1);
      match calls[k - 1]
      case Create(_, ttl, _, _, now) => RedisCreate(db, Created(calls[k - 1]), ttl, now)
      case Get(id, at, now) => RedisGet(db, id, at, now).1
      case Delete(id, _, _) => db - {Key(id)}
  }

  /** What a call does to the sessions, leaving expiry aside. */
  function EffectOf(c: Call): Effect<SessionData> {
    match c
    case Create(_, _, nonce, _, _) => Put(SessionID(nonce), Created(c))
    case Get(_, _, _) => Idle
    case Delete(id, _, _) => Cut(id)
  }

  function Effects(calls: seq<Call>): (effects: seq<Effect<SessionData>>)
    ensures |effects| == |calls| && forall i :: 0 <= i < |calls| ==> effects[i] == EffectOf(calls[i])
  {
    seq(|calls|, i requires 0 <= i < |calls| => EffectOf(calls[i]))
  }

  /** Call `i` creates the session `id`, and no later call before `k` creates it again or deletes it. */
  predicate LastCreated(calls: seq<Call>, i: int, k: nat, id: string)
    requires k <= |calls|
  {
    LivePut(Effects(calls), i, k, id)
  }

  /** Reads delete nothing that could still be found: the memory store holds the sessions that
      were created and not deleted, as far as they have not expired by `t`. */
  lemma {:induction false} ReadsDropExpiredOnly(calls: seq<Call>, k: nat, id: string, t: int)
    requires k <= |calls| && forall i :: 0 <= i < k ==> calls[i].now <= t
    ensures var all, left := Held(Effects(calls), k), MemoryAfter(calls, k);
      && (id in left ==> id in all && all[id] == left[id])
      && (id in all && t <= all[id].expiresAt ==> id in left)
  {
    if k > 0 { ReadsDropExpiredOnly(calls, k - 1, id, t); }
  }

  predicate AgreeOn(sessions: Sessions, db: Slots, id: string, t: int) {
    && (id in sessions && t <= sessions[id].expiresAt ==>
         Key(id) in db && db[Key(id)].value == sessions[id]
         && db[Key(id)].deadline.Some? && sessions[id].expiresAt <= db[Key(id)].deadline.value)
    && (Key(id) in db && t <= db[Key(id)].value.expiresAt ==>
         id in sessions && sessions[id] == db[Key(id)].value)
  }

  lemma CreateAgrees(sessions: Sessions, db: Slots, id: string, c: Call, t: int)
    requires AgreeOn(sessions, db, id, t) && c.Create? && c.at <= c.now
    ensures var data := Created(c);
      AgreeOn(sessions[data.sessionID := data], RedisCreate(db, data, c.ttl, c.now), id, t)
  {
    KeyInjective(id, SessionID(c.nonce));
  }

  /** A read that meets an expired session deletes it, in either store, and no read changes
      anything else. Redis keeps a session for its life from the moment of the command. */
  lemma {:induction false} ExpiredReadDeletes(sessions: Sessions, db: Slots, id: string, at: int, now: int)
    ensures MemoryGet(sessions, id, now).1
         == if id in sessions && now > sessions[id].expiresAt then sessions - {id} else sessions
    ensures var expired := id != "" && Redis.Live(db, Key(id), at) && now > db[Key(id)].value.expiresAt;
      RedisGet(db, id, at, now).1 == if expired then db - {"auth_session:" + id} else db
  {
  }

  lemma {:induction false} RedisKeepsFor(db: Slots, data: SessionData, ttl: int, setAt: int, at: int)
    ensures Redis.Lookup(RedisCreate(db, data, ttl, setAt), Key(data.sessionID), at) == Some(data) <==>
      at <= setAt + if ttl > 0 then ttl else 24 * HOUR
  {
  }

  /** A read deletes only what has expired by then. */
  lemma GetAgrees(sessions: Sessions, db: Slots, id: string, read: string, at: int, now: int, t: int)
    requires AgreeOn(sessions, db, id, t) && now <= t
    ensures AgreeOn(MemoryGet(sessions, read, now).1, RedisGet(db, read, at, now).1, id, t)
  {
    KeyInjective(id, read);
  }

  lemma DeleteAgrees(sessions: Sessions, db: Slots, id: string, deleted: string, t: int)
    requires AgreeOn(sessions, db, id, t)
    ensures AgreeOn(sessions - {deleted}, db - {Key(deleted)}, id, t)
  {
    KeyInjective(id, deleted);
  }

  lemma {:induction false} StoresAgree(calls: seq<Call>, k: nat, id: string, t: int)
    requires k <= |calls| && Timed(calls) && id != "" && forall i :: 0 <= i < k ==> calls[i].now <= t
    ensures AgreeOn(MemoryAfter(calls, k), RedisAfter(calls, k), id, t)
  {
    if k > 0 {
      StoresAgree(calls, k - 1, id, t);
      var sessions, db := MemoryAfter(calls, k - 1), RedisAfter(calls, k - 1);
      match calls[k - 1]
      case Create(_, _, _, _, _) => CreateAgrees(sessions, db, id, calls[k - 1], t);
      case Get(read, at, now) => GetAgrees(sessions, db, id, read, at, now, t);
      case Delete(deleted, _, _) => DeleteAgrees(sessions, db, id, deleted, t);
    }
  }

  // ---------- the gate ----------

  /** The handler of /authorize lets a request through exactly if its cookie finds a session; the
      request then carries that session's user. */
  function Gate(found: Option<SessionData>): Option<Option<string>> {
    match found
    case None => None
    case Some(data) => Some(UserOf(data))
  }

  /** Both stores find the same session. */
  lemma {:induction false} StoresFindTheSame(calls: seq<Call>, k: nat)
    requires k < |calls| && Timed(calls) && calls[k].Get? && calls[k].id != ""
    ensures MemoryGet(MemoryAfter(calls, k), calls[k].id, calls[k].now).0
         == RedisGet(RedisAfter(calls, k), calls[k].id, calls[k].at, calls[k].now).0
  {
    StoresAgree(calls, k, calls[k].id, calls[k].now);
  }

  /** What the `k`th call finds in the memory store. */
  function FoundAt(calls: seq<Call>, k: nat): Option<SessionData>
    requires k < |calls| && calls[k].Get?
  {
    MemoryGet(MemoryAfter(calls, k), calls[k].id, calls[k].now).0
  }

  /** A session is found exactly if the last call that created or deleted it created it, and it
      has not expired. */
  lemma {:induction false} FoundIff(calls: seq<Call>, k: nat, data: SessionData)
    requires k < |calls| && Timed(calls) && calls[k].Get?
    ensures FoundAt(calls, k) == Some(data) <==>
      calls[k].now <= data.expiresAt && exists i :: LastCreated(calls, i, k, calls[k].id) && Created(calls[i]) == data
  {
    ReadsDropExpiredOnly(calls, k, calls[k].id, calls[k].now);
    HeldIff(Effects(calls), k, calls[k].id, data);
  }

  function UserOf(data: SessionData): Option<string> {
    if data.userID == "" then None else Some(data.userID)
  }

  /** Call `i` is the login behind the cookie of call `k`, and its session has not expired. */
  predicate LoggedInBy(calls: seq<Call>, i: int, k: nat)
    requires k < |calls| && calls[k].Get?
  {
    LastCreated(calls, i, k, calls[k].id) && calls[k].now <= calls[i].at + EffectiveTTL(calls[i].ttl)
  }

  /** A request reaches `Authorize` exactly if the last call that created or deleted the session of
      its cookie created it and it has not expired, and then with the user who logged in there. */
  lemma {:induction false} GateOpensIff(calls: seq<Call>, k: nat, user: Option<string>)
    requires k < |calls| && Timed(calls) && calls[k].Get?
    ensures Gate(FoundAt(calls, k)) == Some(user) <==>
      exists i :: LoggedInBy(calls, i, k) && UserOf(Created(calls[i])) == user
  {
    var found := FoundAt(calls, k);
    if found.Some? {
      FoundIff(calls, k, found.value);
      var i :| LastCreated(calls, i, k, calls[k].id) && Created(calls[i]) == found.value;
      assert LoggedInBy(calls, i, k);
    }
    if i :| LoggedInBy(calls, i, k) && UserOf(Created(calls[i])) == user {
      FoundIff(calls, k, Created(calls[i]));
    }
  }

  /** No two logins draw the same random bytes. */
  predicate FreshSessions(calls: seq<Call>) {
    forall i, j :: 0 <= i < j < |calls| && calls[i].Create? && calls[j].Create? ==> calls[i].nonce != calls[j].nonce
  }

  /** The session of login `i` is deleted before call `k`. */
  predicate LoggedOut(calls: seq<Call>, i: nat, k: nat)
    requires i < k <= |calls| && calls[i].Create?
  {
    exists j :: i < j < k && calls[j].Delete? && calls[j].id == Created(calls[i]).sessionID
  }

  /** No other login returned the cookie that login `i` returned. */
  lemma {:induction false} CookieIsOwn(calls: seq<Call>, i: nat, j: nat)
    requires i < |calls| && j < |calls| && calls[i].Create? && calls[j].Create? && FreshSessions(calls)
    ensures Created(calls[i]).sessionID == Created(calls[j]).sessionID ==> i == j
  {
    if Created(calls[i]).sessionID == Created(calls[j]).sessionID {
      SessionIDInjective(calls[i].nonce, calls[j].nonce);
    }
  }

  lemma {:induction false} OwnLoginIsLast(calls: seq<Call>, i: nat, k: nat)
    requires i < k <= |calls| && FreshSessions(calls) && calls[i].Create?
    ensures LastCreated(calls, i, k, Created(calls[i]).sessionID) <==> !LoggedOut(calls, i, k)
    ensures forall l :: LastCreated(calls, l, k, Created(calls[i]).sessionID) ==> l == i
  {
    var effects, id := Effects(calls), Created(calls[i]).sessionID;
    forall j | 0 <= j < k && j != i && calls[j].Create? ensures SessionID(calls[j].nonce) != id {
      CookieIsOwn(calls, i, j);
    }
    if !LoggedOut(calls, i, k) {
      forall j | i < j < k ensures !Touches(effects[j], id) {}
    }
  }

  /** Whoever else logs in or out: the cookie that a login returned opens the gate, and with the
      user of that very login, exactly until the session is deleted or its life is over (24 hours
      if the configured one is not positive). */
  lemma {:induction false} CookieOpensOwnSession(calls: seq<Call>, i: nat, k: nat)
    requires i < k < |calls| && Timed(calls) && FreshSessions(calls)
    requires calls[i].Create? && calls[k].Get? && calls[k].id == Created(calls[i]).sessionID
    ensures var life := if calls[i].ttl > 0 then calls[i].ttl else 24 * HOUR;
      var user := calls[i].user;
      && FoundAt(calls, k) ==
           (if !LoggedOut(calls, i, k) && calls[k].now <= calls[i].at + life
            then Some(SessionData(calls[k].id, user.id, user.email, user.name, calls[i].at, calls[i].at + life))
            else None)
      && (FoundAt(calls, k).Some? ==> Gate(FoundAt(calls, k)) == Some(if user.id == "" then None else Some(user.id)))
      && (FoundAt(calls, k).None? ==> Gate(FoundAt(calls, k)) == None)
  {
    OwnLoginIsLast(calls, i, k);
    FoundIff(calls, k, Created(calls[i]));
    var found := FoundAt(calls, k);
    if found.Some? { FoundIff(calls, k, found.value); }
  }
}

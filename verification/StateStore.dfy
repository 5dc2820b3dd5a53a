/** The client service's store of OAuth states: each state is taken at most once. */
module StateStore {
  import opened GoStrings
  import opened Ledger
  import Redis

  datatype StateData = StateData(state: string, codeVerifier: string, createdAt: int)

  datatype Entry = Entry(data: StateData, expiresAt: int)

  type States = map<string, Entry>

  // ---------- the in-memory store ----------

  function MemorySave(states: States, state: string, data: StateData, ttl: int, now: int): States {
    if state == "" then states else states[state := Entry(data, now + ttl)]
  }

  function MemoryTake(states: States, state: string, now: int): (Option<StateData>, States) {
    if state == "" || state !in states then (None, states)
    else (if now > states[state].expiresAt then None else Some(states[state].data), states - {state})
  }

  class MemoryStateStore {
    var states: States

    constructor ()
      ensures states == map[]
    {
      states := map[];
    }

    method SaveState(state: string, data: StateData, ttl: int, now: int) returns (ok: bool)
      modifies this
      ensures ok == (state != "")
      ensures states == MemorySave(old(states), state, data, ttl, now)
    {
      if state == "" { return false; }
      states := states[state := Entry(data, now + ttl)];
      return true;
    }

    method GetAndDeleteState(state: string, now: int) returns (data: Option<StateData>)
      modifies this
      ensures (data, states) == MemoryTake(old(states), state, now)
    {
      if state == "" { return None; }
      if state !in states { return None; }
      var entry := states[state];
      states := states - {state};
      if now > entry.expiresAt { return None; }
      return Some(entry.data);
    }
  }

  // ---------- the Redis store ----------

  type Slots = Redis.Db<StateData>

  function Key(state: string): string {
    "oauth_state:" + state
  }

  lemma KeyInjective(a: string, b: string)
    ensures Key(a) == Key(b) ==> a == b
  {
    assert Key(a)[12..] == a && Key(b)[12..] == b;
  }

  function RedisSave(db: Slots, state: string, data: StateData, ttl: int, now: int): Slots {
    if state == "" then db else Redis.Put(db, Key(state), data, ttl, now)
  }

  function RedisTake(db: Slots, state: string, now: int): (Option<StateData>, Slots) {
    if state == "" then (None, db) else (Redis.Lookup(db, Key(state), now), db - {Key(state)})
  }

  class RedisStateStore {
    const rdb: Redis.Client<StateData>

    constructor (rdb: Redis.Client<StateData>)
      ensures this.rdb == rdb
    {
      this.rdb := rdb;
    }

    method SaveState(state: string, data: StateData, ttl: int, now: int) returns (ok: bool)
      modifies rdb
      ensures ok == (state != "")
      ensures rdb.db == RedisSave(old(rdb.db), state, data, ttl, now)
    {
      if state == "" { return false; }
      rdb.Set(Key(state), data, ttl, now);
      return true;
    }

    method GetAndDeleteState(state: string, now: int) returns (data: Option<StateData>)
      modifies rdb
      ensures (data, rdb.db) == RedisTake(old(rdb.db), state, now)
    {
      if state == "" { return None; }
      data := rdb.GetDel(Key(state), now);
    }
  }

  // ---------- runs of locked operations ----------

  /** One locked operation. Any interleaving of concurrent callers is a sequence of these. */
  datatype Op =
    | Save(state: string, data: StateData, ttl: int, now: int)
    | Take(state: string, now: int)

  function MemoryAfter(ops: seq<Op>, k: nat): States
    requires k <= |ops|
  {
    if k == 0 then map[]
    else
      var states := MemoryAfter(ops, k - 1);
      match ops[k - 1]
      case Save(state, data, ttl, now) => MemorySave(states, state, data, ttl, now)
      case Take(state, now) => MemoryTake(states, state, now).1
  }

  function RedisAfter(ops: seq<Op>, k: nat): Slots
    requires k <= |ops|
  {
    if k == 0 then map[]
    else
      var db := RedisAfter(ops, k - 1);
      match ops[k - 1]
      case Save(state, data, ttl, now) => RedisSave(db, state, data, ttl, now)
      case Take(state, now) => RedisTake(db, state, now).1
  }

  /** What the `k`th operation returns, if it is a take. */
  function MemoryTaken(ops: seq<Op>, k: nat): Option<StateData>
    requires k < |ops| && ops[k].Take?
  {
    MemoryTake(MemoryAfter(ops, k), ops[k].state, ops[k].now).0
  }

  function RedisTaken(ops: seq<Op>, k: nat): Option<StateData>
    requires k < |ops| && ops[k].Take?
  {
    RedisTake(RedisAfter(ops, k), ops[k].state, ops[k].now).0
  }

  /** What an operation does to the memory store. */
  function EffectOf(o: Op): Effect<Entry> {
    if o.state == "" then Idle
    else if o.Save? then Put(o.state, Entry(o.data, o.now + o.ttl))
    else Cut(o.state)
  }

  function Effects(ops: seq<Op>): (effects: seq<Effect<Entry>>)
    ensures |effects| == |ops| && forall i :: 0 <= i < |ops| ==> effects[i] == EffectOf(ops[i])
  {
    seq(|ops|, i requires 0 <= i < |ops| => EffectOf(ops[i]))
  }

  lemma {:induction false} MemoryFollowsEffects(ops: seq<Op>, k: nat)
    requires k <= |ops|
    ensures MemoryAfter(ops, k) == Held(Effects(ops), k)
  {
    if k > 0 { MemoryFollowsEffects(ops, k - 1); }
  }

  /** Operation `i` saves `state`, and no operation from there up to `k` touches it again. */
  ghost predicate LastTouchSaves(ops: seq<Op>, i: int, k: nat, state: string)
    requires k <= |ops|
  {
    && 0 <= i < k && ops[i].Save? && ops[i].state == state
    && forall j :: i < j < k ==> ops[j].state != state
  }

  lemma {:induction false} MemoryHolds(ops: seq<Op>, k: nat, state: string, e: Entry)
    requires k <= |ops| && state != ""
    ensures state in MemoryAfter(ops, k) && MemoryAfter(ops, k)[state] == e
       <==> exists i :: LastTouchSaves(ops, i, k, state) && e == Entry(ops[i].data, ops[i].now + ops[i].ttl)
  {
    MemoryFollowsEffects(ops, k);
    HeldIff(Effects(ops), k, state, e);
    assert forall i :: LivePut(Effects(ops), i, k, state) <==> LastTouchSaves(ops, i, k, state);
  }

  /** A take succeeds exactly when the last operation on its state is a save that has not
      expired, and then it returns what that save stored. */
  lemma {:induction false} TakeReturnsLastSave(ops: seq<Op>, k: nat, d: StateData)
    requires k < |ops| && ops[k].Take?
    ensures MemoryTaken(ops, k) == Some(d)
       <==> ops[k].state != "" && (exists i :: LastTouchSaves(ops, i, k, ops[k].state)
                                     && ops[i].data == d && ops[k].now <= ops[i].now + ops[i].ttl)
  {
    var state := ops[k].state;
    if state != "" {
      var states := MemoryAfter(ops, k);
      if state in states { MemoryHolds(ops, k, state, states[state]); }
      if i :| LastTouchSaves(ops, i, k, state) {
        MemoryHolds(ops, k, state, Entry(ops[i].data, ops[i].now + ops[i].ttl));
      }
    }
  }

  /** Single use: between two takes that return the same state lies a save of it, so no save
      is answered twice, however the operations interleave. */
  lemma {:induction false} TakenAtMostOncePerSave(ops: seq<Op>, k: nat, m: nat)
    requires k < m < |ops| && ops[k].Take? && ops[m].Take? && ops[k].state == ops[m].state
    requires MemoryTaken(ops, k).Some? && MemoryTaken(ops, m).Some?
    ensures exists i :: k < i < m && ops[i].Save? && ops[i].state == ops[k].state
  {
    TakeReturnsLastSave(ops, m, MemoryTaken(ops, m).value);
    var i :| LastTouchSaves(ops, i, m, ops[m].state);
    assert k < i < m;
  }

  // ---------- the two stores side by side ----------

  predicate PositiveTtls(ops: seq<Op>) {
    forall i :: 0 <= i < |ops| && ops[i].Save? ==> ops[i].ttl > 0
  }

  lemma {:induction false} StoresAgree(ops: seq<Op>, k: nat, state: string)
    requires k <= |ops| && state != "" && PositiveTtls(ops)
    ensures var states, db := MemoryAfter(ops, k), RedisAfter(ops, k);
      && (state in states <==> Key(state) in db)
      && (state in states ==>
           db[Key(state)] == Redis.Slot(states[state].data, Some(states[state].expiresAt)))
  {
    if k > 0 {
      StoresAgree(ops, k - 1, state);
      KeyInjective(state, ops[k - 1].state);
    }
  }

  /** With positive times to live both stores answer every take alike. */
  lemma {:induction false} StoresTakeTheSame(ops: seq<Op>, k: nat)
    requires k < |ops| && ops[k].Take? && PositiveTtls(ops)
    ensures MemoryTaken(ops, k) == RedisTaken(ops, k)
  {
    if ops[k].state != "" { StoresAgree(ops, k, ops[k].state); }
  }

  /** A positive time to live is also needed: a state saved alone is answered alike at every
      later moment exactly if its time to live is positive. */
  lemma {:induction false} StoresTakeTheSameIff(state: string, data: StateData, ttl: int, saved: int)
    requires state != ""
    ensures (forall now :: saved <= now ==>
              MemoryTake(MemorySave(map[], state, data, ttl, saved), state, now).0
              == RedisTake(RedisSave(map[], state, data, ttl, saved), state, now).0)
       <==> ttl > 0
  {
    if ttl <= 0 {
      var now := saved + 1;
      assert MemoryTake(MemorySave(map[], state, data, ttl, saved), state, now).0 == None;
      assert RedisTake(RedisSave(map[], state, data, ttl, saved), state, now).0 == Some(data);
    }
  }
}

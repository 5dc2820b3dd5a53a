/** The few Redis commands the stores use, as the Go client issues them. A slot is live up to
    and including its deadline; a slot without a deadline is live for ever. */
module Redis {
  import opened GoStrings

  datatype Slot<+V> = Slot(value: V, deadline: Option<int>)

  type Db<V> = map<string, Slot<V>>

  /** The client's marker for "keep the time to live the key already has". */
  const KEEP_TTL: int := -1

  predicate Live<V>(db: Db<V>, key: string, at: int) {
    key in db && (db[key].deadline.None? || at <= db[key].deadline.value)
  }

  function Lookup<V>(db: Db<V>, key: string, at: int): Option<V> {
    if Live(db, key, at) then Some(db[key].value) else None
  }

  /** `SET`: a positive time to live gives a deadline, `KEEP_TTL` keeps the old one, and any
      other time to live sets none. */
  function Put<V>(db: Db<V>, key: string, value: V, ttl: int, at: int): Db<V> {
    var deadline :=
      if ttl > 0 then Some(at + ttl)
      else if ttl == KEEP_TTL && Live(db, key, at) then db[key].deadline
      else None;
    db[key := Slot(value, deadline)]
  }

  class Client<V> {
    var db: Db<V>

    constructor ()
      ensures db == map[]
    {
      db := map[];
    }

    method Set(key: string, value: V, ttl: int, at: int)
      modifies this
      ensures db == Put(old(db), key, value, ttl, at)
    {
      var deadline := None;
      if ttl > 0 {
        deadline := Some(at + ttl);
      } else if ttl == KEEP_TTL && Live(db, key, at) {
        deadline := db[key].deadline;
      }
      db := db[key := Slot(value, deadline)];
    }

    method Get(key: string, at: int) returns (value: Option<V>)
      ensures value == Lookup(db, key, at)
    {
      value := Lookup(db, key, at);
    }

    method GetDel(key: string, at: int) returns (value: Option<V>)
      modifies this
      ensures value == Lookup(old(db), key, at)
      ensures db == old(db) - {key}
    {
      value := Lookup(db, key, at);
      db := db - {key};
    }

    method Del(key: string)
      modifies this
      ensures db == old(db) - {key}
    {
      db := db - {key};
    }
  }
}

/** The two stores of refresh tokens. The in-memory one keeps shared, mutable records. */
module RefreshTokenStore {
  import opened GoStrings

  /** The zero `time.Time`. */
  const ZERO_TIME: int := 0

  /** The fields of a record, as one value (a row of the table). */
  datatype Record = Record(
    id: string,
    tokenHash: string,
    userID: Option<string>,
    clientID: string,
    familyID: string,
    createdAt: int,
    expiresAt: int,
    familyExpiresAt: int,
    revokedAt: Option<int>,
    replacedBy: Option<string>)

  type Table = map<string, Record>

  // ---------- the in-memory store ----------

  class RefreshToken {
    var id: string
    var tokenHash: string
    var userID: Option<string>
    var clientID: string
    var familyID: string
    var createdAt: int
    var expiresAt: int
    var familyExpiresAt: int
    var revokedAt: Option<int>
    var replacedBy: Option<string>

    constructor (r: Record)
      ensures Value() == r
    {
      id, tokenHash, userID, clientID := r.id, r.tokenHash, r.userID, r.clientID;
      familyID, createdAt, expiresAt := r.familyID, r.createdAt, r.expiresAt;
      familyExpiresAt, revokedAt, replacedBy := r.familyExpiresAt, r.revokedAt, r.replacedBy;
    }

    function Value(): Record
      reads this
    {
      Record(id, tokenHash, userID, clientID, familyID, createdAt, expiresAt, familyExpiresAt,
             revokedAt, replacedBy)
    }

    /** `Create` fills in what is missing. */
    method Complete(freshID: string, now: int)
      modifies this`id, this`createdAt
      ensures Value() == Completed(old(Value()), freshID, now)
    {
      if id == "" { id := freshID; }
      if createdAt == ZERO_TIME { createdAt := now; }
    }
  }

  /** What `Create` fills in before it stores a record. */
  function Completed(r: Record, freshID: string, now: int): Record {
    r.(id := if r.id == "" then freshID else r.id,
       createdAt := if r.createdAt == ZERO_TIME then now else r.createdAt)
  }

  function Revoked(t: Table, hash: string, now: int): Table {
    if hash in t then t[hash := t[hash].(revokedAt := Some(now))] else t
  }

  function RevokedInFamily(r: Record, family: string, now: int): Record {
    if r.familyID == family then r.(revokedAt := Some(now)) else r
  }

  function FamilyRevoked(t: Table, family: string, now: int): Table {
    map h | h in t :: RevokedInFamily(t[h], family, now)
  }

  class MemoryRefreshTokenRepository {
    var tokens: map<string, RefreshToken>

    /** Every key is the hash of its record, so no record stands under two keys. */
    ghost predicate Valid()
      reads this, tokens.Values
    {
      forall h :: h in tokens ==> tokens[h].tokenHash == h
    }

    ghost function Contents(): Table
      reads this, tokens.Values
    {
      map h | h in tokens :: tokens[h].Value()
    }

    constructor ()
      ensures Valid() && Contents() == map[] && tokens == map[]
    {
      tokens := map[];
    }

    method Create(token: RefreshToken, freshID: string, now: int)
      requires Valid()
      modifies this, token
      ensures Valid()
      ensures tokens == old(tokens)[old(token.tokenHash) := token]
      ensures Contents() == old(Contents())[old(token.tokenHash) := Completed(old(token.Value()), freshID, now)]
    {
      assert forall h :: h in tokens && h != token.tokenHash ==> tokens[h] != token;
      token.Complete(freshID, now);
      tokens := tokens[token.tokenHash := token];
    }

    method GetByTokenHash(hash: string) returns (token: RefreshToken?)
      ensures token == if hash in tokens then tokens[hash] else null
    {
      token := if hash in tokens then tokens[hash] else null;
    }

    method Revoke(hash: string, now: int) returns (found: bool)
      requires Valid()
      modifies tokens.Values
      ensures Valid() && tokens == old(tokens)
      ensures found == (hash in tokens)
      ensures Contents() == Revoked(old(Contents()), hash, now)
    {
      if hash !in tokens { return false; }
      tokens[hash].revokedAt := Some(now);
      return true;
    }

    /** One turn of the loop in `RevokeFamily`. */
    method RevokeInFamily(hash: string, family: string, now: int)
      requires Valid() && hash in tokens
      modifies tokens[hash]
      ensures Valid()
      ensures Contents() == old(Contents())[hash := RevokedInFamily(old(Contents()[hash]), family, now)]
    {
      assert forall h :: h in tokens && h != hash ==> tokens[h] != tokens[hash];
      if tokens[hash].familyID == family {
        tokens[hash].revokedAt := Some(now);
      }
    }

    method RevokeFamily(family: string, now: int)
      requires Valid()
      modifies tokens.Values
      ensures Valid() && tokens == old(tokens)
      ensures Contents() == FamilyRevoked(old(Contents()), family, now)
    {
      var rest := tokens.Keys;
      ghost var before := Contents();
      ghost var after := FamilyRevoked(before, family, now);
      while rest != {}
        invariant rest <= tokens.Keys && Valid()
        invariant forall h :: h in before ==> Contents()[h] == if h in rest then before[h] else after[h]
        decreases rest
      {
        var h :| h in rest;
        rest := rest - {h};
        RevokeInFamily(h, family, now);
      }
    }
  }

  // ---------- the Postgres store ----------

  function NonEmpty(s: Option<string>): Option<string> {
    if s == Some("") then None else s
  }

  /** The row that the INSERT writes for `r`; the database chooses the id. */
  function Row(r: Record, freshID: string, now: int): Record {
    r.(id := freshID,
       userID := NonEmpty(r.userID),
       replacedBy := NonEmpty(r.replacedBy),
       createdAt := if r.createdAt == ZERO_TIME then now else r.createdAt)
  }

  /** `UPDATE … WHERE token_hash = $1 AND revoked_at IS NULL`. */
  function RowRevoked(t: Table, hash: string, now: int): Table {
    map h | h in t ::
      if h == hash && t[h].revokedAt.None? then t[h].(revokedAt := Some(now)) else t[h]
  }

  /** `UPDATE … WHERE family_id = $1 AND revoked_at IS NULL`. */
  function RowsRevoked(t: Table, family: string, now: int): Table {
    map h | h in t ::
      if t[h].familyID == family && t[h].revokedAt.None? then t[h].(revokedAt := Some(now)) else t[h]
  }

  /** The table `refresh_tokens`, whose column `token_hash` is unique. */
  class PostgresRefreshTokenRepository {
    var rows: Table

    constructor ()
      ensures rows == map[]
    {
      rows := map[];
    }

    method Create(r: Record, freshID: string, now: int) returns (ok: bool)
      modifies this
      ensures ok == (r.tokenHash !in old(rows))
      ensures rows == if ok then old(rows)[r.tokenHash := Row(r, freshID, now)] else old(rows)
    {
      if r.tokenHash in rows { return false; }
      var createdAt := r.createdAt;
      if createdAt == ZERO_TIME { createdAt := now; }
      rows := rows[r.tokenHash := r.(id := freshID, createdAt := createdAt,
                                     userID := NonEmpty(r.userID),
                                     replacedBy := NonEmpty(r.replacedBy))];
      return true;
    }

    method Revoke(hash: string, now: int)
      modifies this
      ensures rows == RowRevoked(old(rows), hash, now)
    {
      if hash in rows && rows[hash].revokedAt.None? {
        rows := rows[hash := rows[hash].(revokedAt := Some(now))];
      }
    }

    method RevokeFamily(family: string, now: int)
      modifies this
      ensures rows == RowsRevoked(old(rows), family, now)
    {
      rows := RowsRevoked(rows, family, now);
    }
  }

  // ---------- the two stores side by side ----------

  datatype Call =
    | Create(record: Record, freshID: string, now: int)
    | Revoke(hash: string, now: int)
    | RevokeFamily(family: string, now: int)

  function MemoryStep(t: Table, c: Call): Table {
    match c
    case Create(r, id, now) => t[r.tokenHash := Completed(r, id, now)]
    case Revoke(hash, now) => Revoked(t, hash, now)
    case RevokeFamily(family, now) => FamilyRevoked(t, family, now)
  }

  function MemoryAfter(calls: seq<Call>, k: nat): Table
    requires k <= |calls|
  {
    if k == 0 then map[] else MemoryStep(MemoryAfter(calls, k - 1), calls[k - 1])
  }

  function PostgresStep(t: Table, c: Call): Table {
    match c
    case Create(r, id, now) => if r.tokenHash in t then t else t[r.tokenHash := Row(r, id, now)]
    case Revoke(hash, now) => RowRevoked(t, hash, now)
    case RevokeFamily(family, now) => RowsRevoked(t, family, now)
  }

  function PostgresAfter(calls: seq<Call>, k: nat): Table
    requires k <= |calls|
  {
    if k == 0 then map[] else PostgresStep(PostgresAfter(calls, k - 1), calls[k - 1])
  }

  /** No hash is created twice. */
  predicate UniqueHashes(calls: seq<Call>) {
    forall i, j :: 0 <= i < j < |calls| && calls[i].Create? && calls[j].Create?
      ==> calls[i].record.tokenHash != calls[j].record.tokenHash
  }

  /** What both stores show of a token. */
  datatype Status = Status(family: string, revoked: bool)

  function Shown(r: Record): Status {
    Status(r.familyID, r.revokedAt.Some?)
  }

  function Statuses(t: Table): map<string, Status> {
    map h | h in t :: Shown(t[h])
  }

  lemma {:induction false} KeysWereCreated(calls: seq<Call>, k: nat, hash: string)
    requires k <= |calls| && hash in MemoryAfter(calls, k)
    ensures exists i :: 0 <= i < k && calls[i].Create? && calls[i].record.tokenHash == hash
  {
    if !(calls[k - 1].Create? && calls[k - 1].record.tokenHash == hash) {
      KeysWereCreated(calls, k - 1, hash);
    }
  }

  lemma CreateIsFresh(calls: seq<Call>, k: nat)
    requires k < |calls| && UniqueHashes(calls) && calls[k].Create?
    ensures calls[k].record.tokenHash !in MemoryAfter(calls, k)
  {
    if calls[k].record.tokenHash in MemoryAfter(calls, k) {
      KeysWereCreated(calls, k, calls[k].record.tokenHash);
    }
  }

  /** The in-memory store and the Postgres store show the same families and the same revoked
      tokens after every sequence of calls that creates no hash twice. */
  lemma {:induction false} StoresShowTheSame(calls: seq<Call>, k: nat)
    requires k <= |calls| && UniqueHashes(calls)
    ensures Statuses(MemoryAfter(calls, k)) == Statuses(PostgresAfter(calls, k))
  {
    if k > 0 {
      StoresShowTheSame(calls, k - 1);
      var m, p := MemoryAfter(calls, k - 1), PostgresAfter(calls, k - 1);
      SameShape(m, p);
      match calls[k - 1]
      case Create(r, id, now) =>
        CreateIsFresh(calls, k - 1);
        CreateShowsTheSame(m, p, r, id, now);
      case Revoke(hash, now) => RevokeShowsTheSame(m, p, hash, now);
      case RevokeFamily(family, now) => RevokeFamilyShowsTheSame(m, p, family, now);
    }
  }

  lemma SameShape(m: Table, p: Table)
    requires Statuses(m) == Statuses(p)
    ensures m.Keys == p.Keys
    ensures forall h :: h in m ==> Shown(m[h]) == Shown(p[h])
  {
    assert m.Keys == Statuses(m).Keys && p.Keys == Statuses(p).Keys;
    forall h | h in m
      ensures Shown(m[h]) == Shown(p[h])
    {
      assert Statuses(m)[h] == Statuses(p)[h];
    }
  }

  lemma CreateShowsTheSame(m: Table, p: Table, r: Record, id: string, now: int)
    requires Statuses(m) == Statuses(p) && r.tokenHash !in m && r.tokenHash !in p
    ensures Statuses(m[r.tokenHash := Completed(r, id, now)])
         == Statuses(p[r.tokenHash := Row(r, id, now)])
  {
    SameShape(m, p);
  }

  lemma ShownAlike(m: Table, p: Table)
    requires m.Keys == p.Keys && forall h :: h in m ==> Shown(m[h]) == Shown(p[h])
    ensures Statuses(m) == Statuses(p)
  {
  }

  lemma RevokeShowsTheSame(m: Table, p: Table, hash: string, now: int)
    requires Statuses(m) == Statuses(p)
    ensures Statuses(Revoked(m, hash, now)) == Statuses(RowRevoked(p, hash, now))
  {
    SameShape(m, p);
    var m', p' := Revoked(m, hash, now), RowRevoked(p, hash, now);
    assert m'.Keys == m.Keys && p'.Keys == p.Keys;
    forall h | h in m' ensures Shown(m'[h]) == Shown(p'[h]) { assert Shown(m[h]) == Shown(p[h]); }
    ShownAlike(m', p');
  }

  lemma RevokeFamilyShowsTheSame(m: Table, p: Table, family: string, now: int)
    requires Statuses(m) == Statuses(p)
    ensures Statuses(FamilyRevoked(m, family, now)) == Statuses(RowsRevoked(p, family, now))
  {
    SameShape(m, p);
    var m', p' := FamilyRevoked(m, family, now), RowsRevoked(p, family, now);
    assert m'.Keys == m.Keys && p'.Keys == p.Keys;
    forall h | h in m' ensures Shown(m'[h]) == Shown(p'[h]) { assert Shown(m[h]) == Shown(p[h]); }
    ShownAlike(m', p');
  }

  /** A revocation hits exactly its own tokens and changes nothing about them but the time. */
  lemma {:induction false} RevocationHitsExactly(t: Table, hash: string, family: string, now: int, h: string)
    ensures Revoked(t, hash, now).Keys == FamilyRevoked(t, family, now).Keys == t.Keys
    ensures RowRevoked(t, hash, now).Keys == RowsRevoked(t, family, now).Keys == t.Keys
    ensures h in t ==>
      var hit := t[h].(revokedAt := Some(now));
      && Revoked(t, hash, now)[h] == (if h == hash then hit else t[h])
      && FamilyRevoked(t, family, now)[h] == (if t[h].familyID == family then hit else t[h])
      && RowRevoked(t, hash, now)[h] == (if h == hash && t[h].revokedAt.None? then hit else t[h])
      && RowsRevoked(t, family, now)[h] == (if t[h].familyID == family && t[h].revokedAt.None? then hit else t[h])
  {
    assert Revoked(t, hash, now).Keys == t.Keys && RowRevoked(t, hash, now).Keys == t.Keys;
  }

  /** What a created record keeps, and what is filled in where it is missing; Postgres also takes
      an empty user or successor for none. */
  lemma {:induction false} CreationKeeps(r: Record, freshID: string, now: int)
    ensures var m, p := Completed(r, freshID, now), Row(r, freshID, now);
      && m.tokenHash == p.tokenHash == r.tokenHash && m.familyID == p.familyID == r.familyID
      && m.clientID == p.clientID == r.clientID && m.revokedAt == p.revokedAt == r.revokedAt
      && m.expiresAt == p.expiresAt == r.expiresAt && m.familyExpiresAt == p.familyExpiresAt == r.familyExpiresAt
      && m.createdAt == p.createdAt == (if r.createdAt != 0 then r.createdAt else now)
      && m.userID == r.userID && m.replacedBy == r.replacedBy
      && p.userID == (if r.userID == Some("") then None else r.userID)
      && p.replacedBy == (if r.replacedBy == Some("") then None else r.replacedBy)
      && m.id == (if r.id != "" then r.id else freshID) && p.id == freshID
  {
  }

  /** Which call undoes a revocation in the in-memory store. */
  lemma StepKeepsRevoked(t: Table, c: Call, hash: string)
    requires hash in t && t[hash].revokedAt.Some?
    ensures hash in MemoryStep(t, c)
    ensures MemoryStep(t, c)[hash].revokedAt.None?
       <==> c.Create? && c.record.tokenHash == hash && c.record.revokedAt.None?
  {
  }

  /** With unique hashes a revoked token stays in the in-memory store, revoked, for good. */
  lemma {:induction false} RevocationIsFinal(calls: seq<Call>, k: nat, m: nat, hash: string)
    requires k <= m <= |calls| && UniqueHashes(calls)
    requires hash in MemoryAfter(calls, k) && MemoryAfter(calls, k)[hash].revokedAt.Some?
    ensures hash in MemoryAfter(calls, m) && MemoryAfter(calls, m)[hash].revokedAt.Some?
  {
    if k < m {
      RevocationIsFinal(calls, k, m - 1, hash);
      var t, c := MemoryAfter(calls, m - 1), calls[m - 1];
      assert MemoryAfter(calls, m) == MemoryStep(t, c);
      StepKeepsRevoked(t, c, hash);
      if c.Create? { CreateIsFresh(calls, m - 1); }
    }
  }

  lemma StepKeepsRow(t: Table, c: Call, hash: string)
    requires hash in t && t[hash].revokedAt.Some?
    ensures hash in PostgresStep(t, c) && PostgresStep(t, c)[hash] == t[hash]
  {
  }

  /** Postgres keeps the whole record of a revoked token, its first revocation time included,
      even when hashes are created twice. */
  lemma {:induction false} FirstRevocationIsKept(calls: seq<Call>, k: nat, m: nat, hash: string)
    requires k <= m <= |calls|
    requires hash in PostgresAfter(calls, k) && PostgresAfter(calls, k)[hash].revokedAt.Some?
    ensures hash in PostgresAfter(calls, m)
    ensures PostgresAfter(calls, m)[hash] == PostgresAfter(calls, k)[hash]
  {
    if k < m {
      FirstRevocationIsKept(calls, k, m - 1, hash);
      StepKeepsRow(PostgresAfter(calls, m - 1), calls[m - 1], hash);
    }
  }

  /** Which calls undo a revocation in the in-memory store: exactly the creation of an
      unrevoked record under the same hash. */
  lemma {:induction false} RevocationUndoneIff(calls: seq<Call>, k: nat, hash: string)
    requires k < |calls|
    requires hash in MemoryAfter(calls, k) && MemoryAfter(calls, k)[hash].revokedAt.Some?
    ensures hash in MemoryAfter(calls, k + 1)
    ensures MemoryAfter(calls, k + 1)[hash].revokedAt.None?
       <==> calls[k].Create? && calls[k].record.tokenHash == hash && calls[k].record.revokedAt.None?
  {
    StepKeepsRevoked(MemoryAfter(calls, k), calls[k], hash);
  }
}

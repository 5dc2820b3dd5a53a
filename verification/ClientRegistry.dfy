/** The registry of OAuth clients: clients with their scopes and redirect URIs, written row by row
    by calls that may stop partway. */
module ClientRegistry {
  import opened GoStrings
  import opened Encoding
  import opened JoinTables
  import opened OrderedStrings
  import opened AuthorizationServer

  function Without(rows: Pairs, client: string): Pairs {
    set r | r in rows && r.0 != client
  }

  function PairsOf(client: string, values: set<string>): Pairs {
    set v | v in values :: (client, v)
  }

  /** Trimmed and not blank. */
  predicate Clean(s: string) {
    s != "" && Trimmed(s)
  }

  /** The first input that is blank, or their number. */
  function FirstBlank(xs: seq<string>): (n: nat)
    ensures n <= |xs|
    ensures forall i :: 0 <= i < n ==> TrimSpace(xs[i]) != ""
    ensures n < |xs| ==> TrimSpace(xs[n]) == ""
  {
    if xs == [] || TrimSpace(xs[0]) == "" then 0 else 1 + FirstBlank(xs[1..])
  }

  /** `url.ParseRequestURI` succeeds with the scheme http or https. */
  type UriTest = string -> bool

  /** The first input that is blank or not an acceptable URI, or their number. */
  function FirstBad(xs: seq<string>, acceptable: UriTest): (n: nat)
    ensures n <= |xs|
    ensures forall i :: 0 <= i < n ==> TrimSpace(xs[i]) != "" && acceptable(TrimSpace(xs[i]))
    ensures n < |xs| ==> TrimSpace(xs[n]) == "" || !acceptable(TrimSpace(xs[n]))
  {
    if xs == [] || TrimSpace(xs[0]) == "" || !acceptable(TrimSpace(xs[0])) then 0
    else 1 + FirstBad(xs[1..], acceptable)
  }

  /** The trimmed forms of the first `n` inputs. */
  function TrimmedSet(xs: seq<string>, n: nat): set<string>
    requires n <= |xs|
  {
    set i | 0 <= i < n :: TrimSpace(xs[i])
  }

  lemma TrimmedSetStep(rows: Pairs, id: string, xs: seq<string>, n: nat)
    requires n < |xs|
    ensures rows + PairsOf(id, TrimmedSet(xs, n + 1))
         == rows + PairsOf(id, TrimmedSet(xs, n)) + {(id, TrimSpace(xs[n]))}
  {
    assert TrimmedSet(xs, n + 1) == TrimmedSet(xs, n) + {TrimSpace(xs[n])};
  }

  lemma TrimmedSetIsClean(xs: seq<string>, n: nat)
    requires n <= FirstBlank(xs)
    ensures forall v :: v in TrimmedSet(xs, n) ==> Clean(v)
  {
    forall i | 0 <= i < n ensures Clean(TrimSpace(xs[i])) { TrimSpaceTrims(xs[i]); }
  }

  lemma TrimmedSetIsAcceptable(xs: seq<string>, n: nat, acceptable: UriTest)
    requires n <= FirstBad(xs, acceptable)
    ensures forall v :: v in TrimmedSet(xs, n) ==> Clean(v) && acceptable(v)
  {
    forall i | 0 <= i < n ensures Clean(TrimSpace(xs[i])) { TrimSpaceTrims(xs[i]); }
  }

  /** The trimmed inputs that are not blank, among the first `n`. */
  function Sanitized(xs: seq<string>, n: nat): seq<string>
    requires n <= |xs|
  {
    if n == 0 then []
    else Sanitized(xs, n - 1) + if TrimSpace(xs[n - 1]) == "" then [] else [TrimSpace(xs[n - 1])]
  }

  function Members(xs: seq<string>): set<string> {
    set i | 0 <= i < |xs| :: xs[i]
  }

  lemma {:induction false} SanitizedIff(xs: seq<string>, n: nat, v: string)
    requires n <= |xs|
    ensures v in Sanitized(xs, n) <==> v != "" && exists i :: 0 <= i < n && TrimSpace(xs[i]) == v
    ensures v in Sanitized(xs, n) ==> Clean(v)
  {
    if n > 0 {
      SanitizedIff(xs, n - 1, v);
      TrimSpaceTrims(xs[n - 1]);
    }
  }

  datatype ClientRow = ClientRow(name: string, clientType: string)

  const CONFIDENTIAL := "confidential"
  const PUBLIC := "public"

  datatype Error =
    | NameRequired | InvalidClientType | AlreadyExists | ClientIDRequired | NotFound | ValueRequired
    | InvalidURI | NotRegistered | DatabaseError

  datatype Reply = Done(values: seq<string>) | Failed(error: Error)

  /** What keeps the registry sound: every pair belongs to a client, every client id and every
      value is trimmed and not blank, every redirect URI is acceptable. */
  ghost predicate Sound(clients: map<string, ClientRow>, scopes: Pairs, uris: Pairs, acceptable: string -> bool) {
    && (forall c :: c in clients ==> Clean(c))
    && (forall r :: r in scopes ==> r.0 in clients && Clean(r.1))
    && (forall r :: r in uris ==> r.0 in clients && Clean(r.1) && acceptable(r.1))
  }

  lemma AddScopesKeepsSound(clients: map<string, ClientRow>, scopes: Pairs, uris: Pairs, acceptable: UriTest,
                            id: string, values: set<string>)
    requires Sound(clients, scopes, uris, acceptable) && id in clients && forall v :: v in values ==> Clean(v)
    ensures Sound(clients, scopes + PairsOf(id, values), uris, acceptable)
  {
  }

  lemma AddURIsKeepsSound(clients: map<string, ClientRow>, scopes: Pairs, uris: Pairs, acceptable: UriTest,
                          id: string, values: set<string>)
    requires Sound(clients, scopes, uris, acceptable) && id in clients
    requires forall v :: v in values ==> Clean(v) && acceptable(v)
    ensures Sound(clients, scopes, uris + PairsOf(id, values), acceptable)
  {
  }

  /** The first input that is neither blank nor an acceptable URI, or their number. */
  function FirstUnacceptable(xs: seq<string>, acceptable: UriTest): (n: nat)
    ensures n <= |xs|
    ensures forall i :: 0 <= i < n ==> TrimSpace(xs[i]) == "" || acceptable(TrimSpace(xs[i]))
    ensures n < |xs| ==> TrimSpace(xs[n]) != "" && !acceptable(TrimSpace(xs[n]))
  {
    if xs == [] || (TrimSpace(xs[0]) != "" && !acceptable(TrimSpace(xs[0]))) then 0
    else 1 + FirstUnacceptable(xs[1..], acceptable)
  }

  function Min(a: nat, b: nat): (m: nat)
    ensures m <= a && m <= b && (m == a || m == b)
  {
    if a < b then a else b
  }

  function ClientProblem(clients: map<string, ClientRow>, id: string): (problem: Option<Error>)
    ensures problem == Some(ClientIDRequired) <==> id == ""
    ensures problem == Some(NotFound) <==> id != "" && id !in clients
    ensures problem.None? <==> id != "" && id in clients
  {
    if id == "" then Some(ClientIDRequired) else if id !in clients then Some(NotFound) else None
  }

  datatype Registration = Registration(
    clientID: string, name: string, clientType: string, redirectURIs: seq<string>, scopes: seq<string>)

  function TypeOf(req: Registration): string {
    if req.clientType == "" then CONFIDENTIAL else req.clientType
  }

  /** The id asked for, or a generated one. */
  function RegistrationID(req: Registration, generated: Bytes): string {
    if TrimSpace(req.clientID) == "" then Hex(generated) else TrimSpace(req.clientID)
  }

  function RegistrationProblem(clients: map<string, ClientRow>, req: Registration, acceptable: UriTest): Option<Error> {
    if TrimSpace(req.name) == "" then Some(NameRequired)
    else if TypeOf(req) != CONFIDENTIAL && TypeOf(req) != PUBLIC then Some(InvalidClientType)
    else if TrimSpace(req.clientID) != "" && TrimSpace(req.clientID) in clients then Some(AlreadyExists)
    else if FirstUnacceptable(req.redirectURIs, acceptable) < |req.redirectURIs| then Some(InvalidURI)
    else None
  }

  /** The tables after the first `written` row writes of a registration: the client, then its
      redirect URIs `us`, then its scopes `ss`. */
  function ClientsAfter(clients: map<string, ClientRow>, id: string, row: ClientRow,
                        written: nat): map<string, ClientRow> {
    if written == 0 then clients else clients[id := row]
  }

  function URIsAfter(uris: Pairs, id: string, us: seq<string>, written: nat): Pairs {
    if written == 0 then uris else uris + PairsOf(id, Members(us[..Min(|us|, written - 1)]))
  }

  function ScopesAfter(scopes: Pairs, id: string, us: seq<string>, ss: seq<string>, written: nat): Pairs {
    if written <= |us| then scopes else scopes + PairsOf(id, Members(ss[..Min(|ss|, written - 1 - |us|)]))
  }

  lemma RegisteredRowsAreClean(req: Registration, acceptable: UriTest, generated: Bytes)
    requires |generated| == 16 && FirstUnacceptable(req.redirectURIs, acceptable) == |req.redirectURIs|
    ensures Clean(RegistrationID(req, generated))
    ensures forall v :: v in Sanitized(req.scopes, |req.scopes|) ==> Clean(v)
    ensures forall v :: v in Sanitized(req.redirectURIs, |req.redirectURIs|) ==> Clean(v) && acceptable(v)
  {
    TrimSpaceTrims(req.clientID);
    forall v ensures v in Sanitized(req.scopes, |req.scopes|) ==> Clean(v) {
      SanitizedIff(req.scopes, |req.scopes|, v);
    }
    forall v ensures v in Sanitized(req.redirectURIs, |req.redirectURIs|) ==> Clean(v) && acceptable(v) {
      SanitizedIff(req.redirectURIs, |req.redirectURIs|, v);
    }
  }

  /** `ClientService` and the tables behind it. Where a method takes the parameter `fails`, it is
      the number of row writes that succeed before the database fails; where it takes `commits`,
      it tells whether its one transaction commits. */
  class ClientService {
    const acceptable: UriTest
    var clients: map<string, ClientRow>
    var scopes: Pairs
    var uris: Pairs

    ghost predicate Valid()
      reads this
    {
      Sound(clients, scopes, uris, acceptable)
    }

    constructor (acceptable: UriTest)
      ensures Valid() && clients == map[] && scopes == {} && uris == {}
    {
      this.acceptable := acceptable;
      clients, scopes, uris := map[], {}, {};
    }

    /** The loop of `AddScopes`. */
    method AddEachScope(id: string, inputs: seq<string>, fails: nat) returns (stored: nat)
      requires Valid() && id in clients
      modifies this`scopes
      ensures Valid() && stored == Min(FirstBlank(inputs), fails)
      ensures scopes == old(scopes) + PairsOf(id, TrimmedSet(inputs, stored))
    {
      ghost var before := scopes;
      stored := 0;
      while stored < |inputs|
        invariant stored <= FirstBlank(inputs) && stored <= fails
        invariant scopes == before + PairsOf(id, TrimmedSet(inputs, stored))
        decreases |inputs| - stored
      {
        var trimmed := TrimSpace(inputs[stored]);
        if trimmed == "" || stored == fails { break; }
        scopes := scopes + {(id, trimmed)};
        TrimmedSetStep(before, id, inputs, stored);
        stored := stored + 1;
      }
      TrimmedSetIsClean(inputs, stored);
      AddScopesKeepsSound(clients, before, uris, acceptable, id, TrimmedSet(inputs, stored));
    }

    /** Stops at the first blank input or failed write, and leaves the rows written so far. */
    method AddScopes(clientID: string, inputs: seq<string>, fails: nat) returns (reply: Reply)
      requires Valid()
      modifies this`scopes
      ensures Valid()
      ensures var id, n := TrimSpace(clientID), Min(FirstBlank(inputs), fails);
        match ClientProblem(clients, id)
        case Some(e) => reply == Failed(e) && scopes == old(scopes)
        case None =>
          && scopes == old(scopes) + PairsOf(id, TrimmedSet(inputs, n))
          && reply == if n == |inputs| then Done(Ordered(Column(scopes, id)))
                      else Failed(if n == FirstBlank(inputs) then ValueRequired else DatabaseError)
    {
      var id := TrimSpace(clientID);
      if id == "" { return Failed(ClientIDRequired); }
      if id !in clients { return Failed(NotFound); }
      var n := AddEachScope(id, inputs, fails);
      if n < |inputs| {
        return Failed(if TrimSpace(inputs[n]) == "" then ValueRequired else DatabaseError);
      }
      return Done(Ordered(Column(scopes, id)));
    }

    /** The loop of `AddRedirectURIs`. */
    method AddEachURI(id: string, inputs: seq<string>, fails: nat) returns (stored: nat)
      requires Valid() && id in clients
      modifies this`uris
      ensures Valid() && stored == Min(FirstBad(inputs, acceptable), fails)
      ensures uris == old(uris) + PairsOf(id, TrimmedSet(inputs, stored))
    {
      ghost var before := uris;
      stored := 0;
      while stored < |inputs|
        invariant stored <= FirstBad(inputs, acceptable) && stored <= fails
        invariant uris == before + PairsOf(id, TrimmedSet(inputs, stored))
        decreases |inputs| - stored
      {
        var trimmed := TrimSpace(inputs[stored]);
        if trimmed == "" || !acceptable(trimmed) || stored == fails { break; }
        uris := uris + {(id, trimmed)};
        TrimmedSetStep(before, id, inputs, stored);
        stored := stored + 1;
      }
      TrimmedSetIsAcceptable(inputs, stored, acceptable);
      AddURIsKeepsSound(clients, scopes, before, acceptable, id, TrimmedSet(inputs, stored));
    }

    /** Stops at the first blank or unacceptable input or failed write, and leaves the rows
        written so far. */
    method AddRedirectURIs(clientID: string, inputs: seq<string>, fails: nat) returns (reply: Reply)
      requires Valid()
      modifies this`uris
      ensures Valid()
      ensures var id := TrimSpace(clientID);
        var n := Min(FirstBad(inputs, acceptable), fails);
        match ClientProblem(clients, id)
        case Some(e) => reply == Failed(e) && uris == old(uris)
        case None =>
          && uris == old(uris) + PairsOf(id, TrimmedSet(inputs, n))
          && reply == if n == |inputs| then Done(Ordered(Column(uris, id)))
                      else Failed(if n < FirstBad(inputs, acceptable) then DatabaseError
                                  else if TrimSpace(inputs[n]) == "" then ValueRequired
                                  else InvalidURI)
    {
      var id := TrimSpace(clientID);
      if id == "" { return Failed(ClientIDRequired); }
      if id !in clients { return Failed(NotFound); }
      var n := AddEachURI(id, inputs, fails);
      if n < |inputs| {
        var trimmed := TrimSpace(inputs[n]);
        return Failed(if trimmed == "" then ValueRequired
                      else if !acceptable(trimmed) then InvalidURI
                      else DatabaseError);
      }
      return Done(Ordered(Column(uris, id)));
    }

    /** Leaves the client with exactly the inputs that are not blank, trimmed. */
    method SetScopes(clientID: string, inputs: seq<string>, commits: bool) returns (reply: Reply)
      requires Valid()
      modifies this`scopes
      ensures Valid()
      ensures var id := TrimSpace(clientID);
        match ClientProblem(clients, id)
        case Some(e) => reply == Failed(e) && scopes == old(scopes)
        case None =>
          if commits then
            && Column(scopes, id) == Members(Sanitized(inputs, |inputs|))
            && (forall r: (string, string) :: r.0 != id ==> (r in scopes <==> r in old(scopes)))
            && reply == Done(Ordered(Column(scopes, id)))
          else scopes == old(scopes) && reply == Failed(DatabaseError)
    {
      var id := TrimSpace(clientID);
      if id == "" { return Failed(ClientIDRequired); }
      if id !in clients { return Failed(NotFound); }
      var sanitized := Sanitize(inputs);
      if !commits { return Failed(DatabaseError); }
      scopes := Replaced(scopes, id, sanitized);
      forall r | r in scopes ensures r.0 in clients && Clean(r.1) {
        if r !in old(scopes) { SanitizedIff(inputs, |inputs|, r.1); }
      }
      return Done(Ordered(Column(scopes, id)));
    }

    method Sanitize(inputs: seq<string>) returns (sanitized: seq<string>)
      ensures sanitized == Sanitized(inputs, |inputs|)
    {
      sanitized := [];
      for i := 0 to |inputs|
        invariant sanitized == Sanitized(inputs, i)
      {
        var trimmed := TrimSpace(inputs[i]);
        if trimmed != "" { sanitized := sanitized + [trimmed]; }
      }
    }

    /** The loop over redirect URIs: the first unacceptable one ends it. */
    method SanitizeURIs(inputs: seq<string>) returns (sanitized: Option<seq<string>>)
      ensures sanitized == if FirstUnacceptable(inputs, acceptable) == |inputs|
                           then Some(Sanitized(inputs, |inputs|)) else None
    {
      var result := [];
      for i := 0 to |inputs|
        invariant i <= FirstUnacceptable(inputs, acceptable)
        invariant result == Sanitized(inputs, i)
      {
        var trimmed := TrimSpace(inputs[i]);
        if trimmed == "" { continue; }
        if !acceptable(trimmed) { return None; }
        result := result + [trimmed];
      }
      return Some(result);
    }

    method SetRedirectURIs(clientID: string, inputs: seq<string>, commits: bool) returns (reply: Reply)
      requires Valid()
      modifies this`uris
      ensures Valid()
      ensures var id := TrimSpace(clientID);
        match ClientProblem(clients, id)
        case Some(e) => reply == Failed(e) && uris == old(uris)
        case None =>
          if FirstUnacceptable(inputs, acceptable) < |inputs| then uris == old(uris) && reply == Failed(InvalidURI)
          else if commits then
            && Column(uris, id) == Members(Sanitized(inputs, |inputs|))
            && (forall r: (string, string) :: r.0 != id ==> (r in uris <==> r in old(uris)))
            && reply == Done(Ordered(Column(uris, id)))
          else uris == old(uris) && reply == Failed(DatabaseError)
    {
      var id := TrimSpace(clientID);
      if id == "" { return Failed(ClientIDRequired); }
      if id !in clients { return Failed(NotFound); }
      var sanitized := SanitizeURIs(inputs);
      if sanitized.None? { return Failed(InvalidURI); }
      if !commits { return Failed(DatabaseError); }
      uris := Replaced(uris, id, sanitized.value);
      forall r | r in uris ensures r.0 in clients && Clean(r.1) && acceptable(r.1) {
        if r !in old(uris) { SanitizedIff(inputs, |inputs|, r.1); }
      }
      return Done(Ordered(Column(uris, id)));
    }

    method RemoveScope(clientID: string, scope: string) returns (reply: Reply)
      requires Valid()
      modifies this`scopes
      ensures Valid()
      ensures scopes == if reply.Done? then old(scopes) - {(TrimSpace(clientID), TrimSpace(scope))} else old(scopes)
      ensures reply.Done? <==> (TrimSpace(clientID), TrimSpace(scope)) in old(scopes)
    {
      var id, value := TrimSpace(clientID), TrimSpace(scope);
      if id == "" || value == "" { return Failed(ValueRequired); }
      if id !in clients { return Failed(NotFound); }
      if (id, value) !in scopes { return Failed(NotRegistered); }
      scopes := scopes - {(id, value)};
      return Done([]);
    }

    method RemoveRedirectURI(clientID: string, uri: string) returns (reply: Reply)
      requires Valid()
      modifies this`uris
      ensures Valid()
      ensures uris == if reply.Done? then old(uris) - {(TrimSpace(clientID), TrimSpace(uri))} else old(uris)
      ensures reply.Done? <==> (TrimSpace(clientID), TrimSpace(uri)) in old(uris)
    {
      var id, value := TrimSpace(clientID), TrimSpace(uri);
      if id == "" || value == "" { return Failed(ValueRequired); }
      if id !in clients { return Failed(NotFound); }
      if (id, value) !in uris { return Failed(NotRegistered); }
      uris := uris - {(id, value)};
      return Done([]);
    }

    /** The client's pairs go with it. */
    method DeleteClient(clientID: string) returns (reply: Reply)
      requires Valid()
      modifies this`clients, this`scopes, this`uris
      ensures Valid()
      ensures var id := TrimSpace(clientID);
        match ClientProblem(old(clients), id)
        case Some(e) => reply == Failed(e) && clients == old(clients) && scopes == old(scopes) && uris == old(uris)
        case None =>
          && reply == Done([]) && clients == old(clients) - {id}
          && (forall r :: r in scopes <==> r in old(scopes) && r.0 != id)
          && (forall r :: r in uris <==> r in old(uris) && r.0 != id)
    {
      var id := TrimSpace(clientID);
      if id == "" { return Failed(ClientIDRequired); }
      if id !in clients { return Failed(NotFound); }
      clients := clients - {id};
      scopes, uris := Without(scopes, id), Without(uris, id);
      return Done([]);
    }

    /** The writes of `RegisterClient`: the client first, then its redirect URIs, then its scopes,
        each row on its own. A failed write leaves the rows before it. */
    method WriteRegistration(id: string, row: ClientRow, us: seq<string>, ss: seq<string>, fails: nat)
      returns (ok: bool)
      requires Valid() && Clean(id)
      requires (forall v :: v in ss ==> Clean(v)) && forall v :: v in us ==> Clean(v) && acceptable(v)
      modifies this`clients, this`scopes, this`uris
      ensures Valid()
      ensures var written := if id in old(clients) then 0 else fails;
        && clients == ClientsAfter(old(clients), id, row, written)
        && uris == URIsAfter(old(uris), id, us, written)
        && scopes == ScopesAfter(old(scopes), id, us, ss, written)
        && (ok <==> written > |us| + |ss|)
    {
      if fails == 0 || id in clients { return false; }
      clients := clients[id := row];
      var written := InsertURIs(id, us, fails - 1);
      if written < |us| { return false; }
      var more := InsertScopes(id, ss, fails - 1 - written);
      if more == 0 { assert PairsOf(id, Members(ss[..0])) == {}; }
      return more == |ss|;
    }

    /** The checks of `RegisterClient`, and the values to write if they pass. */
    method CheckRegistration(req: Registration) returns (problem: Option<Error>, us: seq<string>, ss: seq<string>)
      ensures problem == RegistrationProblem(clients, req, acceptable)
      ensures problem.None? ==> us == Sanitized(req.redirectURIs, |req.redirectURIs|)
      ensures problem.None? ==> ss == Sanitized(req.scopes, |req.scopes|)
    {
      us, ss := [], [];
      if TrimSpace(req.name) == "" { return Some(NameRequired), us, ss; }
      var clientType := if req.clientType == "" then CONFIDENTIAL else req.clientType;
      if clientType != CONFIDENTIAL && clientType != PUBLIC { return Some(InvalidClientType), us, ss; }
      var id := TrimSpace(req.clientID);
      if id != "" && id in clients { return Some(AlreadyExists), us, ss; }
      var sanitizedURIs := SanitizeURIs(req.redirectURIs);
      if sanitizedURIs.None? { return Some(InvalidURI), us, ss; }
      us := sanitizedURIs.value;
      ss := Sanitize(req.scopes);
      return None, us, ss;
    }

    /** A generated id that is already taken makes the first write fail. */
    method RegisterClient(req: Registration, generated: Bytes, fails: nat) returns (reply: Reply)
      requires Valid() && |generated| == 16
      modifies this`clients, this`scopes, this`uris
      ensures Valid()
      ensures var id, row := RegistrationID(req, generated), ClientRow(TrimSpace(req.name), TypeOf(req));
        var us, ss := Sanitized(req.redirectURIs, |req.redirectURIs|), Sanitized(req.scopes, |req.scopes|);
        match RegistrationProblem(old(clients), req, acceptable)
        case Some(e) => reply == Failed(e) && clients == old(clients) && scopes == old(scopes) && uris == old(uris)
        case None =>
          var written := if id in old(clients) then 0 else fails;
          && clients == ClientsAfter(old(clients), id, row, written)
          && uris == URIsAfter(old(uris), id, us, written)
          && scopes == ScopesAfter(old(scopes), id, us, ss, written)
          && reply == if written > |us| + |ss| then Done([id]) else Failed(DatabaseError)
    {
      var problem, us, ss := CheckRegistration(req);
      if problem.Some? { return Failed(problem.value); }
      var id := RegistrationID(req, generated);
      RegisteredRowsAreClean(req, acceptable, generated);
      var ok := WriteRegistration(id, ClientRow(TrimSpace(req.name), TypeOf(req)), us, ss, fails);
      return if ok then Done([id]) else Failed(DatabaseError);
    }

    /** Writes pair after pair until the database fails. */
    method InsertScopes(id: string, values: seq<string>, fails: nat) returns (written: nat)
      requires Valid() && id in clients && forall v :: v in values ==> Clean(v)
      modifies this`scopes
      ensures Valid() && written == Min(|values|, fails)
      ensures scopes == old(scopes) + PairsOf(id, Members(values[..written]))
    {
      written := 0;
      while written < |values| && written < fails
        invariant written <= Min(|values|, fails) && Valid()
        invariant scopes == old(scopes) + PairsOf(id, Members(values[..written]))
      {
        scopes := scopes + {(id, values[written])};
        MembersStep(values, written);
        written := written + 1;
      }
    }

    method InsertURIs(id: string, values: seq<string>, fails: nat) returns (written: nat)
      requires Valid() && id in clients && forall v :: v in values ==> Clean(v) && acceptable(v)
      modifies this`uris
      ensures Valid() && written == Min(|values|, fails)
      ensures uris == old(uris) + PairsOf(id, Members(values[..written]))
    {
      written := 0;
      while written < |values| && written < fails
        invariant written <= Min(|values|, fails) && Valid()
        invariant uris == old(uris) + PairsOf(id, Members(values[..written]))
      {
        uris := uris + {(id, values[written])};
        MembersStep(values, written);
        written := written + 1;
      }
    }
  }

  function Replaced(rows: Pairs, client: string, values: seq<string>): (after: Pairs)
    ensures Column(after, client) == Members(values)
    ensures forall r: (string, string) :: r.0 != client ==> (r in after <==> r in rows)
  {
    var after := Without(rows, client) + PairsOf(client, Members(values));
    assert forall v :: v in Members(values) ==> (client, v) in after;
    after
  }

  lemma MembersStep(values: seq<string>, n: nat)
    requires n < |values|
    ensures Members(values[..n + 1]) == Members(values[..n]) + {values[n]}
  {
    assert values[..n + 1] == values[..n] + [values[n]];
    forall v | v in Members(values[..n]) ensures v in Members(values[..n + 1]) {
      var i :| 0 <= i < n && values[..n][i] == v;
      assert values[..n + 1][i] == v;
    }
    assert values[..n + 1][n] == values[n];
  }

  // ---------- the registry as the authorization server reads it ----------

  /** `GetByClientID` of the authorization server, on the same tables. */
  function LookupIn(clients: map<string, ClientRow>, scopes: Pairs, uris: Pairs): Registry {
    id => if id in clients
          then Some(RegisteredClient(id, Ordered(Column(uris, id)), Ordered(Column(scopes, id))))
          else None
  }

  lemma ColumnMember(rows: Pairs, client: string, v: string)
    ensures v in Ordered(Column(rows, client)) <==> (client, v) in rows
  {
    OrderedLists(Column(rows, client));
  }

  /** What a registration needs, and which error comes first. */
  lemma {:induction false} RegistrationErrors(clients: map<string, ClientRow>, req: Registration, acceptable: UriTest)
    ensures var problem := RegistrationProblem(clients, req, acceptable);
      var named := TrimSpace(req.name) != "";
      var typed := req.clientType in {"", "confidential", "public"};
      var free := TrimSpace(req.clientID) == "" || TrimSpace(req.clientID) !in clients;
      var usable := forall i :: 0 <= i < |req.redirectURIs| ==>
        TrimSpace(req.redirectURIs[i]) == "" || acceptable(TrimSpace(req.redirectURIs[i]));
      && (problem == Some(NameRequired) <==> !named)
      && (problem == Some(InvalidClientType) <==> named && !typed)
      && (problem == Some(AlreadyExists) <==> named && typed && !free)
      && (problem == Some(InvalidURI) <==> named && typed && free && !usable)
      && (problem.None? <==> named && typed && free && usable)
  {
  }

  /** The value is one of the inputs, trimmed, and not blank. */
  predicate Supplied(inputs: seq<string>, v: string) {
    v != "" && exists i :: 0 <= i < |inputs| && TrimSpace(inputs[i]) == v
  }

  lemma {:induction false} OthersUntouched(before: Pairs, after: Pairs, id: string, other: string)
    requires other != id && forall r: (string, string) :: r.0 != id ==> (r in after <==> r in before)
    ensures Column(after, other) == Column(before, other)
  {
    forall v ensures v in Column(after, other) <==> v in Column(before, other) {
      assert (other, v) in after <==> (other, v) in before;
    }
  }

  lemma {:induction false} FreshColumn(before: Pairs, id: string, values: seq<string>)
    requires forall r :: r in before ==> r.0 != id
    ensures Column(before + PairsOf(id, Members(values)), id) == Members(values)
  {
    forall v | v in Members(values) ensures v in Column(before + PairsOf(id, Members(values)), id) {
      assert (id, v) in PairsOf(id, Members(values));
    }
  }

  /** How far the rows of a registration reach after `written` writes. */
  lemma {:induction false} RegistrationStopsAt(clients: map<string, ClientRow>, scopes: Pairs, uris: Pairs, id: string,
                                               row: ClientRow, us: seq<string>, ss: seq<string>, written: nat,
                                               r: (string, string))
    ensures ClientsAfter(clients, id, row, written) == if written > 0 then clients[id := row] else clients
    ensures r in URIsAfter(uris, id, us, written) <==>
      r in uris || (r.0 == id && exists i :: 0 <= i < |us| && i + 1 < written && us[i] == r.1)
    ensures r in ScopesAfter(scopes, id, us, ss, written) <==>
      r in scopes || (r.0 == id && exists i :: 0 <= i < |ss| && |us| + i + 1 < written && ss[i] == r.1)
  {
    if written > 0 {
      var n := Min(|us|, written - 1);
      assert forall i :: 0 <= i < n ==> us[..n][i] == us[i];
    }
    if written > |us| {
      var n := Min(|ss|, written - 1 - |us|);
      assert forall i :: 0 <= i < n ==> ss[..n][i] == ss[i];
    }
  }

  /** After a registration whose writes all succeed the authorization server finds the client under
      the id that was asked for (the generated one if none was), with exactly the redirect URIs and
      the scopes that were supplied, and every other client as before. */
  lemma {:induction false} RegistrationIsFound(clients: map<string, ClientRow>, scopes: Pairs, uris: Pairs,
                                               acceptable: UriTest, req: Registration, generated: Bytes,
                                               written: nat, v: string, other: string)
    requires Sound(clients, scopes, uris, acceptable)
    requires RegistrationID(req, generated) !in clients
    requires written > |Sanitized(req.redirectURIs, |req.redirectURIs|)| + |Sanitized(req.scopes, |req.scopes|)|
    ensures var us, ss := Sanitized(req.redirectURIs, |req.redirectURIs|), Sanitized(req.scopes, |req.scopes|);
      var id := if TrimSpace(req.clientID) != "" then TrimSpace(req.clientID) else Hex(generated);
      var row := ClientRow(TrimSpace(req.name), TypeOf(req));
      var clients' := ClientsAfter(clients, id, row, written);
      var lookup := LookupIn(clients', ScopesAfter(scopes, id, us, ss, written), URIsAfter(uris, id, us, written));
      && lookup(id).Some? && lookup(id).value.clientID == id
      && (v in lookup(id).value.redirectURIs <==> Supplied(req.redirectURIs, v))
      && (v in lookup(id).value.allowedScopes <==> Supplied(req.scopes, v))
      && clients'[id].name == TrimSpace(req.name)
      && clients'[id].clientType == (if req.clientType != "" then req.clientType else "confidential")
      && (other != id ==> lookup(other) == LookupIn(clients, scopes, uris)(other))
  {
    var us, ss := Sanitized(req.redirectURIs, |req.redirectURIs|), Sanitized(req.scopes, |req.scopes|);
    var id := RegistrationID(req, generated);
    var uris', scopes' := URIsAfter(uris, id, us, written), ScopesAfter(scopes, id, us, ss, written);
    assert us[..|us|] == us && ss[..|ss|] == ss;
    FreshColumn(uris, id, us);
    FreshColumn(scopes, id, ss);
    OrderedLists(Column(uris', id));
    OrderedLists(Column(scopes', id));
    SanitizedIff(req.redirectURIs, |req.redirectURIs|, v);
    SanitizedIff(req.scopes, |req.scopes|, v);
    if other != id {
      OthersUntouched(uris, uris', id, other);
      OthersUntouched(scopes, scopes', id, other);
    }
  }

  /** From the registry to the authorization endpoint: a client whose scopes were set to some
      inputs is allowed a scope text exactly if every word of it is one of the inputs, trimmed. */
  lemma {:induction false} SetScopesDecideGrants(scopes: Pairs, id: string, inputs: seq<string>, requested: string)
    requires Column(scopes, id) == Members(Sanitized(inputs, |inputs|))
    ensures ScopeAllowed(requested, Ordered(Column(scopes, id))) <==>
      forall w :: HasWord(requested, w) ==> exists i :: 0 <= i < |inputs| && TrimSpace(inputs[i]) == w
  {
    ScopeAllowedMeaning(requested, Ordered(Column(scopes, id)));
    OrderedLists(Column(scopes, id));
    forall w | HasWord(requested, w)
      ensures w in Ordered(Column(scopes, id)) <==> exists i :: 0 <= i < |inputs| && TrimSpace(inputs[i]) == w
    {
      SanitizedIff(inputs, |inputs|, w);
      var i, j :| IsWordAt(requested, i, j) && requested[i..j] == w;
      assert w != "";
    }
  }

  /** A registered scope can be requested at all exactly if it has no white space inside: the
      registry accepts such scopes, but a request is split at white space. */
  lemma {:induction false} ScopeIsRequestableIff(scopes: Pairs, id: string, scope: string)
    requires (id, scope) in scopes && Clean(scope)
    ensures (exists requested :: HasWord(requested, scope)
               && ScopeAllowed(requested, Ordered(Column(scopes, id))))
       <==> SpaceFree(scope)
  {
    if SpaceFree(scope) {
      assert scope[0..|scope|] == scope;
      assert IsWordAt(scope, 0, |scope|);
      ColumnMember(scopes, id, scope);
      ScopeAllowedMeaning(scope, Ordered(Column(scopes, id)));
      forall w | HasWord(scope, w) ensures w == scope {
        var i, j :| IsWordAt(scope, i, j) && scope[i..j] == w;
      }
      assert HasWord(scope, scope);
    }
  }
}

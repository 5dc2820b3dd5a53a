/** Runs of the authorization server behind the session gate: who a token speaks for. */
module LoginRuns {
  import opened GoStrings
  import opened AuthorizationServer
  import opened OAuthRuns
  import AuthCodeStore
  import SessionStore

  /** Codes and sessions live in the same Redis under different keys. */
  lemma {:induction false} KeysAreApart(code: string, id: string)
    ensures AuthCodeStore.Key(code) != SessionStore.Key(id)
  {
    assert AuthCodeStore.Key(code)[5] == 'c' && SessionStore.Key(id)[5] == 's';
  }

  /** Every authorization request of the run came through the gate: read number `gate[i]` at the
      session store, made before, found the session whose user request `i` carries. */
  predicate ThroughGate(run: Run, calls: seq<SessionStore.Call>, gate: seq<nat>) {
    && SessionStore.Timed(calls) && |gate| == |run|
    && forall i :: 0 <= i < |run| && run[i].AuthorizeCall? ==>
         && gate[i] < |calls| && calls[gate[i]].Get? && calls[gate[i]].now <= run[i].now
         && SessionStore.Gate(SessionStore.FoundAt(calls, gate[i])) == Some(run[i].ask.userID)
  }

  /** Whom the tokens of a login speak for: its user, or the client itself if the login has no user id. */
  function SubjectOf(login: SessionStore.Call, clientID: string): string
    requires login.Create?
  {
    if login.user.id != "" then login.user.id else clientID
  }

  /** Call `l` is a login that returned the cookie `id`. */
  predicate ReturnedCookie(calls: seq<SessionStore.Call>, l: int, id: string) {
    0 <= l < |calls| && calls[l].Create? && SessionStore.Created(calls[l]).sessionID == id
  }

  lemma LoginBehind(calls: seq<SessionStore.Call>, k: nat, user: Option<string>) returns (login: nat)
    requires SessionStore.Timed(calls) && k < |calls| && calls[k].Get?
    requires SessionStore.Gate(SessionStore.FoundAt(calls, k)) == Some(user)
    ensures SessionStore.LoggedInBy(calls, login, k)
    ensures forall clientID :: SubjectOf(calls[login], clientID)
                            == if user.Some? && user.value != "" then user.value else clientID
  {
    SessionStore.GateOpensIff(calls, k, user);
    login :| SessionStore.LoggedInBy(calls, login, k)
      && SessionStore.UserOf(SessionStore.Created(calls[login])) == user;
  }

  /** The subject of every issued token is the user of a login whose session was not logged out,
      replaced or expired when the code was asked for; if session ids are fresh, of the one login
      that returned the cookie of the request. */
  lemma {:induction false} SubjectIsLoggedIn(cfg: Config, run: Run, calls: seq<SessionStore.Call>, gate: seq<nat>,
                                             j: nat)
    returns (login: nat)
    requires ThroughGate(run, calls, gate)
    ensures IssuedAt(cfg, run, j) ==>
      var k, claims := gate[GrantOf(cfg, run, j)], OutcomeAt(cfg, run, j).response.accessToken.claims;
      && k < |calls| && calls[k].Get? && SessionStore.LoggedInBy(calls, login, k)
      && claims.subject == SubjectOf(calls[login], claims.clientID)
      && (SessionStore.FreshSessions(calls) ==>
           forall l :: ReturnedCookie(calls, l, calls[k].id) ==> l == login)
  {
    login := 0;
    if IssuedAt(cfg, run, j) {
      var i := GrantOf(cfg, run, j);
      IssuedAnswers(cfg, run, j);
      login := LoginBehind(calls, gate[i], run[i].ask.userID);
      if SessionStore.FreshSessions(calls) {
        forall l | ReturnedCookie(calls, l, calls[gate[i]].id) ensures l == login {
          SessionStore.CookieIsOwn(calls, l, login);
        }
      }
    }
  }
}

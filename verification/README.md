# MiniAuth, modelled and proved in Dafny

MiniAuth is an OAuth 2.0 platform (authorization code flow with PKCE) of four services. This
project models the parts that keep state and proves what they keep.

| part | files |
|---|---|
| Authorization-code protocol: one call, whole runs, the service over its stores | `AuthorizationServer.dfy`, `OAuthRuns.dfy`, `OAuthOnRedis.dfy`, `LoginRuns.dfy`, `OAuthService.dfy`, `Ledger.dfy` |
| Client side and the whole honest flow across three services | `ClientService.dfy`, `HonestFlow.dfy` |
| Publishing, parsing and caching keys; verifying tokens | `Encoding.dfy`, `Jwks.dfy`, `KeyCache.dfy`, `ResourceServer.dfy` |
| Stores in memory, Redis and Postgres | `AuthCodeStore.dfy`, `StateStore.dfy`, `SessionStore.dfy`, `RefreshTokenStore.dfy`, `Redis.dfy` |
| Schema migrator: file names, concurrent runners, retries | `MigrationFiles.dfy`, `Migrator.dfy`, `MigrationRuns.dfy` |
| Client registry, roles and permissions | `ClientRegistry.dfy`, `Rbac.dfy`, `JoinTables.dfy`, `OrderedStrings.dfy` |
| Go's string functions and durations | `GoStrings.dfy`, `Durations.dfy` |

`dafny verify dfyconfig.toml` checks everything.

## How the model is built

- The functions of `AuthorizationServer` give one call as a step on the contents of the stores; the
  class `DefaultOAuthService` carries the same step out on objects. A run is any sequence of such
  steps. Each step sees its own client registry, clock readings and random values, so clients may
  change at any time. `Ledger` is the shared reasoning about entries put into a store and cut out
  of it.
- Times are integers in nanoseconds. Where the code reads the clock more than once, each reading is
  a parameter. SHA-256 is a function parameter with no assumed property but where a lemma names
  one. A signature is ideal: a token remembers the key that signed it. A signer's private key
  stands as its public half, as the code allows it to differ from the published key.
- Random values are parameters; freshness is a condition of the lemmas that need it
  (`FreshCodes`, `FreshRefreshTokens`).
- A `Token` call and a database transaction are atomic steps. The runners of the migrator
  interleave between their database calls, and each has the files of its own build. Failures of the
  database, of a store or of a migration script are parameters of the operation.
- A Redis slot is live up to and including its deadline. Tables with a unique constraint are sets
  or maps. `ORDER BY` is the order of the characters.
- The JWT library is represented by its rule nbf <= now < exp, with the expiry
  required, and the comparison of keys.

## What turned out

- A public key survives publishing and parsing exactly if its modulus and exponent are at least 1,
  or its exponent is the least 64-bit integer.
- If two migration files have the same raw version, a failure followed by a retry can end in
  success with a script missing; without a repetition it cannot.
- The state stores in memory and in Redis agree exactly for positive times to live. The code stores
  agree on every code but the empty one.
- In the memory store a revocation is undone exactly by creating an unrevoked record under the same
  hash.
- Besides "S256" and "plain" in any case, two more method names pass as challenge methods, because
  upper-casing maps a long s to S and a dotless i to I.
- An honest client that comes back after ten minutes gets no tokens, although its code may still be
  live: the life of the state and the life of the code are separate conditions.
- The registry accepts a scope with white space inside, but no request can ever name it.
- `ErrUnsupportedResponse` is declared (oauth_service.go:29) but `Authorize` never looks at
  `response_type`; the model follows the code.

## Model

The table begins with the results about whole runs and across components, goes on with the
operations and the steps they rest on, and ends with the lemmas about a single call.

| member | source | states |
|---|---|---|
| HonestFlow.HonestFlowSucceedsIff | ClientService/internal/service/oauth_client_service.go:58-131 | amid any other traffic at the state store and the authorization server, an honest client gets its tokens exactly if it takes its state within ten minutes, its client, URI and scopes are registered when it asks and the code is stored, the client is still registered and the code redeemed within five minutes, and the server can sign and store |
| HonestFlow.HonestFlowReachesResource | ResourceServer/internal/middleware/auth_middleware.go:190-271 | the tokens of the flow are accepted, until the second of their expiry, by a resource server that only knows the signer's key document, and open exactly the endpoints that ask for a configured scope |
| HonestFlow.CallbackCompletes | ClientService/internal/service/oauth_client_service.go:108-161 | `ExchangeCodeForToken` carries out the client's part of the flow: with its data it makes exactly the flow's token call and returns what that issues, without it sends nothing and returns nothing |
| HonestFlow.CallbackReturnsIff | ClientService/internal/service/oauth_client_service.go:108-161 | so it returns tokens exactly in time and with the consent of the server |
| OAuthRuns.InjectiveCorrespondence | AuthorizationServer/internal/service/oauth_service.go:96-243 | over every run with fresh codes each token set answers an earlier authorization (same client, user and scope, a redirect URI of the client's list at that time, at most five minutes old at the expiry check, challenge met), and no two token sets answer the same one |
| OAuthRuns.CodesAreConserved | AuthorizationServer/internal/service/oauth_service.go:173-217 | in every reachable state the granted codes are partitioned into held and consumed |
| OAuthRuns.FoundOnce | AuthorizationServer/internal/service/oauth_service.go:173-180 | a code is found by at most one token call of a run, whether or not that call then succeeds |
| OAuthRuns.RefreshRecordsAreCounted | AuthorizationServer/internal/service/oauth_service.go:305-327 | as many refresh records as successful token calls |
| OAuthRuns.RefreshRecordOrigin | AuthorizationServer/internal/service/oauth_service.go:305-321 | each refresh record belongs to one successful call, carries its hash, family, client and user, and expires 30 days after it and its family 90 |
| OAuthRuns.HandedOutTokenIsStored | AuthorizationServer/internal/service/oauth_service.go:305-335 | the hash of the refresh token in the answer is a key of the store, right after the call and with fresh hashes ever after; the record there is of the client and user of the answered authorization, unrevoked, and expires after 30 days |
| OAuthRuns.FamiliesAreSingletons | AuthorizationServer/internal/service/oauth_service.go:308-321 | each record is alone in its family |
| OAuthOnRedis.RedisCorrespondence | AuthorizationServer/internal/repository/auth_code_repository.go:42-107 | the correspondence of tokens and authorizations on Redis |
| OAuthOnRedis.OutcomesAgree | AuthorizationServer/internal/repository/auth_code_repository.go:42-155 | every token call of a timed run has the same outcome, response included, with the codes in Redis as in memory |
| LoginRuns.SubjectIsLoggedIn | AuthorizationServer/internal/handler/oauth_handler.go:31-60 | the subject of every issued token is the user of a login whose session had not been logged out, replaced or expired when the code was asked for; with fresh session ids, of the one login that returned the cookie |
| LoginRuns.KeysAreApart | AuthorizationServer/internal/service/session_store.go:68-70 | codes and sessions never share a Redis key |
| Migrator.HistoryIsAlwaysAPrefix | AuthorizationServer/internal/database/migrator.go:53-94 | under every interleaving of any number of instances, of older and newer builds at once, the ranks are 1 to n, row r holds version, description and name of file r, and the schema is the scripts of the first n files, each once and in order; an instance that finishes leaves all its own files applied |
| Migrator.FinishedIsFinal | AuthorizationServer/internal/database/migrator.go:53-94 | once an instance of the newest build has finished nothing changes any more, whoever starts or goes on |
| Migrator.HistoryOnlyGrows | AuthorizationServer/internal/database/migrator.go:197-227 | committed scripts stay committed |
| Migrator.AnInstanceCanFinish | AuthorizationServer/internal/database/migrator.go:53-94 | progress: from every reachable state, whatever was left half done, an instance of the newest build that starts and is not disturbed finishes, with all files applied |
| MigrationRuns.RetriesConverge | AuthorizationServer/internal/database/migrator.go:58-93 | however often runs fail, one that completes leaves what one uninterrupted run leaves, and later runs change nothing |
| MigrationRuns.RetryCompletesIff | AuthorizationServer/internal/database/migrator.go:58-85 | success after a retry means that all files are applied exactly if no raw version repeats |
| MigrationRuns.RunsKeepDense | AuthorizationServer/internal/database/migrator.go:58-93 | over any sequence of runs with changing files and failures, from an empty database: ranks stay dense, versions distinct, committed rows and scripts unchanged, and the files of a completed run stay applied |
| Jwks.JwksRoundTrip | AuthorizationServer/internal/crypto/jwt_signer.go:148-168 | parsing the published key gives it back exactly for every modulus and exponent from 1 up, and besides only for the least int |
| KeyCache.ResolvedOnceForAll | ResourceServer/internal/middleware/auth_middleware.go:241-271 | once a key id has been resolved, every later resolve of it finds the same key |
| KeyCache.InvariantAlways | ResourceServer/internal/middleware/auth_middleware.go:79-95 | the cache is empty or has a default key, after any resolves |
| KeyCache.FetchedKeys | ResourceServer/internal/middleware/auth_middleware.go:315-325 | a fetch into an empty cache stores under each key id the last usable entry that carries it, and as default the last usable one of all |
| KeyCache.FirstResolve | ResourceServer/internal/middleware/auth_middleware.go:241-271 | a server without keys resolves to the last usable entry that carries the token's key id, and to the last usable one of all if none does |
| ResourceServer.ScopeSoundness | ResourceServer/internal/middleware/auth_middleware.go:168-187 | whatever endpoint an issued token opens, one of its scopes was allowed to the client when the code was granted |
| ResourceServer.LifeOfToken | AuthorizationServer/internal/service/oauth_service.go:219-243 | a token lives less than a second short of the configured life (an hour by default), and expires_in is that life in whole seconds |
| AuthCodeStore.StoresFindTheSame | AuthorizationServer/internal/repository/auth_code_repository.go:42-155 | for every sequence of calls both stores find the same data: that of the last save, if not deleted since and not expired |
| StateStore.TakenAtMostOncePerSave | ClientService/internal/service/state_store.go:119-140 | under every interleaving of locked operations no save is answered twice |
| StateStore.TakeReturnsLastSave | ClientService/internal/service/state_store.go:104-140 | a take succeeds exactly if the last operation on its state is a save that has not expired, and returns what that save stored |
| StateStore.StoresTakeTheSame | ClientService/internal/service/state_store.go:42-84 | both stores answer every take alike if all times to live are positive |
| StateStore.StoresTakeTheSameIff | ClientService/internal/service/state_store.go:42-84 | and a time to live that is not positive makes them differ |
| RefreshTokenStore.StoresShowTheSame | AuthorizationServer/internal/repository/refresh_token_repository.go:39-207 | both stores show the same families and revoked tokens after every sequence of calls that creates no hash twice |
| RefreshTokenStore.RevocationIsFinal | AuthorizationServer/internal/repository/refresh_token_repository.go:183-207 | with unique hashes a revocation in the memory store is never undone |
| RefreshTokenStore.FirstRevocationIsKept | AuthorizationServer/internal/repository/refresh_token_repository.go:125-142 | Postgres never changes a revoked record, its first revocation time included |
| SessionStore.GateOpensIff | AuthorizationServer/internal/handler/oauth_handler.go:31-60 | a request reaches Authorize exactly if the last login or logout of its session was a login that has not expired, and with that login's user |
| SessionStore.CookieOpensOwnSession | AuthorizationServer/internal/service/session_store.go:123-181 | with fresh ids, whoever else logs in or out, the cookie of a login opens the gate as the user of that login, exactly until the session is deleted or its life (24 hours by default) is over |
| SessionStore.CookieIsOwn | AuthorizationServer/internal/service/session_store.go:175-181 | no two logins return the same cookie |
| SessionStore.StoresFindTheSame | AuthorizationServer/internal/service/session_store.go:78-173 | both session stores find the same session at every read |
| SessionStore.FoundIff | AuthorizationServer/internal/service/session_store.go:149-164 | a session is found exactly if the last call that created or deleted it created it and it has not expired |
| MigrationFiles.ParseIff | AuthorizationServer/internal/database/migrator.go:30 | a name parses to some parts exactly if they are well formed and print to it |
| MigrationFiles.LoadedIsSorted | AuthorizationServer/internal/database/migrator.go:116-174 | the list holds exactly the well-formed names, each as often as the directory does, with major numbers never decreasing and minor numbers never decreasing among equal major ones |
| MigrationFiles.LoadedOnce | AuthorizationServer/internal/database/migrator.go:116-163 | no migration is loaded twice |
| MigrationFiles.FileOfIff | AuthorizationServer/internal/database/migrator.go:117-162 | which entries are migrations, and every field of what they become |
| MigrationFiles.DecimalRoundTrip | AuthorizationServer/internal/database/migrator.go:134-141 | the digits of a version denote the number that prints as them |
| MigrationFiles.OrderIsUnique | AuthorizationServer/internal/database/migrator.go:165-171 | with distinct numbers there is only one such list, however the sort works |
| ClientRegistry.SetScopesDecideGrants | UserService/internal/repository/client_repository.go:285-305 | after SetScopes a scope text is allowed exactly if each of its words is one of the trimmed inputs |
| ClientRegistry.ScopeIsRequestableIff | UserService/internal/repository/client_repository.go:245-256 | a registered scope can be requested at all exactly if it has no white space inside |
| ClientRegistry.RegistrationIsFound | UserService/internal/service/client_service.go:38-146 | after a registration the authorization server finds the client under the id asked for (the generated one if none was), with exactly the supplied redirect URIs and scopes and the default type, and every other client as before |
| Rbac.Repository.GetFullUserDetail | UserService/internal/repository/user_repository.go:178-214 | each permission name once, and exactly those that some role of the user grants |
| Rbac.RemovePermissionDrops | UserService/internal/repository/role_repository.go:122-133 | taking a permission from a role takes it from a user exactly if no other role of the user grants it, and takes nothing else |
| Rbac.RemoveRoleDrops | UserService/internal/repository/user_repository.go:124-135 | taking a role takes exactly the permissions that only this role granted |
| Rbac.RemoveRoleSparesOthers | UserService/internal/repository/user_repository.go:124-135 | and leaves the permissions of every other user alone |
| OAuthRuns.IssuedAnswers | AuthorizationServer/internal/service/oauth_service.go:162-243 | one token set answers the authorization whose code it redeems; needs no freshness |
| OAuthRuns.GrantOf | AuthorizationServer/internal/service/oauth_service.go:173-217 | the authorization behind a successful token call: it put the code, nothing touched the code since, and the store holds its data |
| AuthorizationServer.ScopeAllowedMeaning | AuthorizationServer/internal/service/oauth_service.go:375-388 | the scope check passes exactly if every whole word of the scope is allowed |
| AuthorizationServer.AuthorizeErrors | AuthorizationServer/internal/service/oauth_service.go:96-149 | exactly which error a refused authorization gives, for the request as it arrives, and that it changes nothing |
| AuthorizationServer.AuthorizeGrants | AuthorizationServer/internal/service/oauth_service.go:102-157 | a granted one sends the browser to the URI asked for (or the first registered one), which is the URI the code is bound to, and stores exactly the data of the request |
| AuthorizationServer.TokenErrors | AuthorizationServer/internal/service/oauth_service.go:162-200 | exactly which requests fail before a code is looked at, and how |
| AuthorizationServer.RedeemDecides | AuthorizationServer/internal/service/oauth_service.go:186-217 | exactly which error the checks of a code give |
| AuthorizationServer.ChallengeByMethod | AuthorizationServer/internal/service/oauth_service.go:354-365 | for every method text: exactly which texts select the hash comparison and which the plain one, and that all others fail |
| AuthorizationServer.IdTokenAgrees | AuthorizationServer/internal/service/oauth_service.go:250-303 | when there is an ID token, that it agrees with the access token on subject, audience and validity, and the ids, issuer and key id of both |
| OAuthService.IsScopeAllowed | AuthorizationServer/internal/service/oauth_service.go:375-388 | the loops over the allowed scopes and the requested words decide the scope check |
| OAuthService.IsRedirectURIAllowed | AuthorizationServer/internal/service/oauth_service.go:398-405 | the loop decides membership in the registered list |
| OAuthService.DefaultOAuthService.Authorize | AuthorizationServer/internal/service/oauth_service.go:96-158 | the imperative form carries out the authorization step on the stores and changes nothing else |
| OAuthService.DefaultOAuthService.Token | AuthorizationServer/internal/service/oauth_service.go:162-337 | the imperative form carries out the token step on both stores, heap records included |
| OAuthService.DefaultOAuthService.CheckGrant | AuthorizationServer/internal/service/oauth_service.go:186-217 | the checks of a code that was found, one statement each, and which error the first failing one gives |
| OAuthService.DefaultOAuthService.SignTokens | AuthorizationServer/internal/service/oauth_service.go:219-303 | the claims of the two tokens |
| HonestFlow.StateComesBack | ClientService/internal/service/oauth_client_service.go:77-113 | the client gets its own verifier back up to ten minutes after it was saved, and nothing later |
| HonestFlow.RedirectCarriesState | AuthorizationServer/internal/service/oauth_service.go:147-157 | there is a redirect exactly if the request is granted, and it carries the granted code and the client's own state |
| HonestFlow.OwnChallengeIsMet | ClientService/internal/service/oauth_client_service.go:66-75 | the server accepts the verifier whose S256 challenge the client computed, and trimming does not touch it |
| HonestFlow.RegisteredClientIsGranted | AuthorizationServer/internal/repository/client_repository.go:33-107 | on the registry's tables a client is granted exactly what its own rows allow; a request without redirect URI needs some row |
| ClientService.OAuthClientService.BuildAuthorizeURL | ClientService/internal/service/oauth_client_service.go:58-105 | the parameters sent out and the state entry saved for them |
| ClientService.OAuthClientService.ExchangeCodeForToken | ClientService/internal/service/oauth_client_service.go:108-161 | the state is consumed; tokens come back only if it was found, and if it was not the server is not touched |
| ClientService.AfterTakeSends | ClientService/internal/service/oauth_client_service.go:110-131 | without state data nothing is sent and nothing returned; with it one form goes out, with the verifier of that data |
| ClientService.VerifiersAreGood | ClientService/internal/service/oauth_client_service.go:60-75 | a verifier has 43 unreserved characters, and different draws give different ones |
| ResourceServer.VerifyToken | ResourceServer/internal/middleware/auth_middleware.go:190-239 | the sequence of checks, with the loop over the audience |
| ResourceServer.HasScope | ResourceServer/internal/middleware/auth_middleware.go:43-55 | decides whether the scope stands in the token as a whole word |
| ResourceServer.HasAnyScope | ResourceServer/internal/middleware/auth_middleware.go:58-65 | decides whether one of the required scopes does |
| Jwks.PublishedKeyReads | AuthorizationServer/internal/crypto/jwt_signer.go:148-168 | what the reader makes of any published key |
| Jwks.UsableIff | ResourceServer/internal/middleware/auth_middleware.go:308-326 | which document entries carry a key, and which key |
| Jwks.ParseRSAPublicKeyFromJWK | ResourceServer/internal/middleware/auth_middleware.go:331-351 | the loop computes the two's complement reading of the big-endian exponent, the modulus in full |
| Encoding.Base64RoundTrip | AuthorizationServer/internal/crypto/jwt_signer.go:153-154 | decoding undoes encoding for every length modulo three |
| Encoding.HexAt | AuthorizationServer/internal/service/oauth_service.go:390-396 | two lower-case digits for each byte |
| Encoding.Base64Alphabet | AuthorizationServer/internal/crypto/jwt_signer.go:153-154 | the characters are those of base64url |
| Encoding.Base64DecodesIff | ResourceServer/internal/middleware/auth_middleware.go:331-337 | which texts can be decoded at all |
| Encoding.BigEndianRoundTrip | AuthorizationServer/internal/crypto/jwt_signer.go:153-154 | the minimal bytes of a number read back as the number |
| Encoding.HexInjective | AuthorizationServer/internal/service/oauth_service.go:390-396 | different random bytes give different codes |
| KeyCache.FetchKeepsInvariant | ResourceServer/internal/middleware/auth_middleware.go:282-329 | also the fetch alone keeps this, as under concurrent resolves |
| KeyCache.FetchActsIff | ResourceServer/internal/middleware/auth_middleware.go:282-329 | when a fetch is throttled or fails, and that it then changes nothing |
| KeyCache.PublishedKeyResolves | ResourceServer/internal/middleware/auth_middleware.go:256-268 | the signer's document resolves to the signer's key |
| KeyCache.AuthMiddleware.FetchJWKS | ResourceServer/internal/middleware/auth_middleware.go:282-329 | the loop over the document stores its usable entries in order |
| KeyCache.AuthMiddleware.ResolvePublicKey | ResourceServer/internal/middleware/auth_middleware.go:241-271 | the lookups and the fetch, and the cache they leave |
| AuthCodeStore.RedisKeepsFor | AuthorizationServer/internal/repository/auth_code_repository.go:42-64 | how long Redis keeps a code |
| AuthCodeStore.ExpiredReadDeletes | AuthorizationServer/internal/repository/auth_code_repository.go:67-93 | a read deletes a code exactly if it finds it expired |
| AuthCodeStore.MemoryAuthCodeRepository.Get | AuthorizationServer/internal/repository/auth_code_repository.go:132-146 | found, missing or expired in the memory store |
| AuthCodeStore.RedisAuthCodeRepository.Save | AuthorizationServer/internal/repository/auth_code_repository.go:42-64 | time to live from the expiry, five minutes if that is not positive |
| AuthCodeStore.RedisAuthCodeRepository.Get | AuthorizationServer/internal/repository/auth_code_repository.go:67-93 | an expired code is deleted when it is read |
| StateStore.MemoryStateStore.GetAndDeleteState | ClientService/internal/service/state_store.go:119-140 | the entry is deleted before its expiry is looked at |
| RefreshTokenStore.RevocationHitsExactly | AuthorizationServer/internal/repository/refresh_token_repository.go:109-207 | in both stores a revocation hits exactly its own tokens and changes nothing of them but the time |
| RefreshTokenStore.CreationKeeps | AuthorizationServer/internal/repository/refresh_token_repository.go:39-170 | what the stores keep of a created record and what they fill in |
| RefreshTokenStore.MemoryRefreshTokenRepository.Create | AuthorizationServer/internal/repository/refresh_token_repository.go:157-170 | every key stays the hash of its record, so no record stands under two keys |
| RefreshTokenStore.MemoryRefreshTokenRepository.Revoke | AuthorizationServer/internal/repository/refresh_token_repository.go:183-194 | exactly the record under the hash is revoked |
| RefreshTokenStore.MemoryRefreshTokenRepository.RevokeFamily | AuthorizationServer/internal/repository/refresh_token_repository.go:196-207 | the loop over shared records revokes exactly those of the family |
| RefreshTokenStore.PostgresRefreshTokenRepository.Create | AuthorizationServer/internal/repository/refresh_token_repository.go:39-79 | a taken hash is refused and changes nothing |
| SessionStore.RedisKeepsFor | AuthorizationServer/internal/service/session_store.go:47-77 | how long Redis keeps a session |
| SessionStore.ExpiredReadDeletes | AuthorizationServer/internal/service/session_store.go:78-164 | a read deletes a session exactly if it meets it expired, in both stores |
| SessionStore.MemorySessionStore.GetSession | AuthorizationServer/internal/service/session_store.go:149-164 | an expired session is deleted when it is read |
| SessionStore.RedisSessionStore.GetSession | AuthorizationServer/internal/service/session_store.go:78-103 | the same on Redis |
| Migrator.AdvanceOnPrefix | AuthorizationServer/internal/database/migrator.go:62-85 | one turn of the loop: pass over, apply the next file, or meet the taken rank of a file that another instance applied |
| Migrator.PrefixTransaction | AuthorizationServer/internal/database/migrator.go:197-227 | only the next rank can be inserted, and only with the next file |
| MigrationRuns.RunResumes | AuthorizationServer/internal/database/migrator.go:58-93 | a run goes on from the applied prefix to the first failing script |
| MigrationRuns.RunKeepsDense | AuthorizationServer/internal/database/migrator.go:58-93 | one such run: no rank collides, it completes exactly if every pending script runs, and then exactly the pending files are added |
| MigrationRuns.RepeatedVersionIsSkipped | AuthorizationServer/internal/database/migrator.go:63-66 | a repeated version loses a script after a failure at it |
| MigrationRuns.Database.RunMigrations | AuthorizationServer/internal/database/migrator.go:33-94 | the loop carries out the run on the history table |
| MigrationRuns.Database.ApplyMigration | AuthorizationServer/internal/database/migrator.go:197-227 | script and history row are committed together or not at all |
| MigrationFiles.RawVersionDetermines | AuthorizationServer/internal/database/migrator.go:134-143 | equal raw versions have equal numbers |
| MigrationFiles.LoadMigrationFiles | AuthorizationServer/internal/database/migrator.go:116-174 | the loop over the directory and the sort yield the list that LoadedIsSorted describes |
| MigrationFiles.LoadedVersionsAreDistinct | AuthorizationServer/internal/database/migrator.go:134-143 | distinct numbers make distinct raw versions, as the migrator needs |
| GoStrings.FieldsAreWords | AuthorizationServer/internal/service/oauth_service.go:381 | Fields lists exactly the maximal runs without white space |
| GoStrings.TrimSpaceDropsSpace | AuthorizationServer/internal/service/oauth_service.go:97 | TrimSpace removes exactly the surrounding white space |
| GoStrings.AsciiSpaces | AuthorizationServer/internal/service/oauth_service.go:97 | the ASCII characters that count as white space |
| GoStrings.ContainsIff | AuthorizationServer/internal/service/oauth_service.go:252 | Contains finds the text at some place |
| ClientRegistry.ClientService.AddScopes | UserService/internal/service/client_service.go:218-243 | exactly the trimmed inputs before the first blank one or the first failed write are added |
| ClientRegistry.ClientService.SetScopes | UserService/internal/service/client_service.go:265-292 | the client is left with exactly the inputs that are not blank, trimmed, and every other pair stays as it was |
| ClientRegistry.ClientService.AddRedirectURIs | UserService/internal/service/client_service.go:295-324 | the same up to the first blank or unacceptable URI or failed write |
| ClientRegistry.ClientService.SetRedirectURIs | UserService/internal/service/client_service.go:327-359 | all inputs or none, and every other pair stays as it was |
| ClientRegistry.ClientService.RegisterClient | UserService/internal/service/client_service.go:38-146 | a write that fails leaves exactly the rows before it, and the registry sound |
| ClientRegistry.RegistrationErrors | UserService/internal/service/client_service.go:38-103 | what a registration needs, and which error comes first |
| ClientRegistry.RegistrationStopsAt | UserService/internal/service/client_service.go:113-132 | which rows are there after a given number of writes |
| ClientRegistry.ClientService.RemoveScope | UserService/internal/service/client_service.go:246-262 | exactly the pair goes, if it was there |
| ClientRegistry.ClientService.RemoveRedirectURI | UserService/internal/service/client_service.go:362-378 | exactly the pair goes, if it was there |
| ClientRegistry.ClientService.DeleteClient | UserService/internal/service/client_service.go:199-215 | the client goes with all its pairs, and every other pair stays |
| OrderedStrings.OrderedLists | UserService/internal/repository/client_repository.go:220-242 | the listing of a unique column is strictly increasing and complete |
| OrderedStrings.LessIff | UserService/internal/repository/client_repository.go:220-242 | the order is that of a dictionary |
| Rbac.Repository.GetRolesForUser | UserService/internal/repository/user_repository.go:138-175 | each role of the user once, in the order of the names, with its permissions |
| Rbac.Repository.AssignRole | UserService/internal/repository/user_repository.go:110-121 | an assignment adds the pair and keeps the tables consistent |
| Rbac.Repository.RemovePermission | UserService/internal/repository/role_repository.go:122-133 | a removal keeps the tables consistent |
| AuthorizationServer.AuthorizedIff | AuthorizationServer/internal/service/oauth_service.go:96-158 | an authorization succeeds exactly if the client exists, the URI is its own, the scope is allowed and the code is saved |
| AuthorizationServer.IssuedIff | AuthorizationServer/internal/service/oauth_service.go:162-217 | a token call succeeds exactly under a flat list of conditions, free of the order of the checks |
| AuthorizationServer.TokenConsumes | AuthorizationServer/internal/service/oauth_service.go:173-184 | a call that finds a live code removes it even if it fails later; one that finds none changes nothing |
| AuthorizationServer.TokenOnRefresh | AuthorizationServer/internal/service/oauth_service.go:305-327 | exactly the successful calls add exactly one refresh record |
| AuthorizationServer.TokenResponds | AuthorizationServer/internal/service/oauth_service.go:219-243 | the response is made from the data of the redeemed code |
| RefreshTokenStore.RevocationUndoneIff | AuthorizationServer/internal/repository/refresh_token_repository.go:157-170 | which call undoes one: exactly the creation of an unrevoked record under the same hash |
| AuthCodeStore.EmptyCodeDiffers | AuthorizationServer/internal/repository/auth_code_repository.go:43-45 | the empty code is the exception |
| KeyCache.ThrottleIdle | ResourceServer/internal/middleware/auth_middleware.go:286-288 | resolves in sequence never meet the throttle: they reach the fetch with an empty cache only |
| ResourceServer.VerifiedIff | ResourceServer/internal/middleware/auth_middleware.go:190-239 | which tokens are accepted, whoever made them and with dates missing or not, free of the order of the checks |
| ResourceServer.RejectedWhy | ResourceServer/internal/middleware/auth_middleware.go:190-239 | why a token is rejected |
| ResourceServer.AcceptedIff | ResourceServer/internal/middleware/auth_middleware.go:190-239 | a minted token is accepted at exactly the readings from the second of its mint to the second of its expiry |
| Jwks.ExponentExactIff | ResourceServer/internal/middleware/auth_middleware.go:341-345 | the shift-and-or loop yields the denoted exponent exactly below 2^63 |

## Left out

- HTTP handlers, routers, templates, logging, configuration and key loading: input, output and plumbing. Building and parsing the authorize URL and the token form is taken to carry the parameters unchanged.
- Two `Token` calls that interleave between the look-up and the deletion of a code: one call is one step.
- Failing look-ups in the code store and failing deletions: the deletion after a successful look-up succeeds, as does every Redis command.
- The failure of `SaveState` inside `BuildAuthorizeURL`, and failing random reads with their fallbacks.
- `client_secret`, bcrypt and generated secrets: the token endpoint does not compare them.
- Display name and e-mail address in the ID token, and the login itself: flat branching.
- The checksum, author and execution time in the history table, and the creation of that table.
- AuthCodeStore.RedisAuthCodeRepository.Save: the time to live is not cut down to milliseconds and commands do not fail, because Redis is a map with deadlines here.
- The rounding of `ttl.Seconds()` through floating point for lives of many years.
- JSON encoding of stored values.
- RefreshTokenStore.PostgresRefreshTokenRepository.Create: the foreign keys to users and clients are not modelled, because no other table of the authorization server is.
- OAuthService.DefaultOAuthService.Authorize: is over the in-memory store, whose save cannot fail; a failing save and Redis are covered by the step functions and `OAuthOnRedis`.
- OAuthService.DefaultOAuthService.Token: the same, for the in-memory stores.
- ClientService.OAuthClientService.BuildAuthorizeURL: gives the parameters, not the text of the URL; the in-memory store saves every non-empty state.
- ClientService.OAuthClientService.ExchangeCodeForToken: calls the token endpoint directly, because HTTP is not modelled.
- ClientRegistry.ClientService.RegisterClient: the client secret is left out, because the token endpoint does not compare it.
- MigrationRuns.Database.ApplyMigration: the database's transactions are taken to be atomic.
- OrderedStrings.OrderedLists: the collation of the database is the order of the characters.
- The data race of `MemorySessionStore.GetSession`, which deletes under a read lock: calls are taken one at a time.
- Upper case of characters outside ASCII other than the two that map into it: no comparison can tell.
- Concurrent resolves of keys beyond the invariant of the fetch: the rest is stated for resolves in sequence.
- Failing reads in the client registry, and clients deleted by others in the middle of a call.
- Pagination, user and role creation, and look-ups by id, name or e-mail: no invariant beyond the tables' own constraints.
- `GetByTokenHash` on Postgres: it returns the row.
- ResourceServer.VerifyToken: takes the resolved key as a parameter and tokens that are already parsed and RS256, because the library's parsing and its choice of algorithm are not modelled.
- MigrationFiles.LoadMigrationFiles: read errors and checksums are not modelled, and the stable or unstable order of files with equal numbers is not modelled, because `sort.Slice` does not promise one.
- Rbac.Repository.GetRolesForUser: permissions are listed by name without their ids, because names are unique.

# A model of the OAuth client, its authorization server, the ACME sample and the report masker

The repository holds an OAuth 2.0 client-credentials package (`pkg/oauth2`, `pkg/oauth2/client`), a sample server
that guards ACME HTTP-01 certificate routes with it (`sample-server`), and a script that masks secrets in test
reports (`scripts/generate_e2e_report.py`). This project models all three and proves what they guarantee over every
input, every schedule and every run.

**Token protocol.** `TokenStore`, `Service`, `Middleware` and `TokenClient` are the code one call at a time: classes
over maps and heap records, each method proved against a function of the old state. `Server` and `CacheSteps` are the
same operations as interleaved steps (`ServiceSteps` ties the two together): any number of server calls, each a sequence
of atomic store operations and clock readings, and any number of client goroutines with program counters around one
read-write lock. `CacheLinearizable` shows that the two-phase `GetToken` refines one atomic step. `Coupled` joins client
and server, with two clocks, lost messages and other users of the server; `CoupledRuns` builds runs of it; `CoupledLaws`,
`EndToEnd`, `RevokeTooEarly` and `HitLag` say what holds of the pair. `Text` and `Codec` are the whitespace tokenizer,
base64, hex and the two Authorization headers.

**ACME handlers.** `CertStore` is the store and its handlers, one request at a time; `CertSteps` interleaves them;
`CertLaws` and `CertOwners` are the laws over every interleaving and `CertRaces` the races that show where they end.

**Report masking.** `Regex` is a backtracking matcher with leftmost search and substitution, proved against a
declarative meaning; `Masking` is what substitution by a starred mask can and cannot leave behind; `Sanitize` is the
table of eight passes. `PlainText` says in the characters of the text what a secret is, and `PlainSecrets` what the five
passes over keys and tokens write for one. `JsonFields` and `JsonMasking` say which values one JSON pass masks;
`Segments` cuts a text at its quotes, `JsonSegments` writes a JSON pass as one scan over the segments, and
`SanitizedJson` says which values the whole pipeline masks. `KeyBlocks` says which private keys the last pass takes.
`TestReport` is the fold over test events; `JoinedOutput` and `JoinedReport` say when output that was masked chunk by
chunk is clean once joined.

A run is a sequence of steps, each enabled where it is taken. `At(cfg, steps, n)` is the state after `n` of them.

## Assumptions

- Random draws do not repeat (`Server.Enabled`, step `Draw`), and SHA-256 is injective on the tokens drawn or presented
  in a run (`Server.CollisionFree`). `Service.RevocationSurvivesIssue` shows that revocation is permanent exactly
  because of the first.
- bcrypt is a relation that accepts a hash's own secret (`Types.BcryptSound`); URL parsing is an unknown function. A
  resource is absolute when it is non-empty, parses, has a scheme, and its fragment text is empty.
- Instants are integer nanoseconds; durations are 64 bits. `Sub` saturates and the product of seconds and `time.Second`
  wraps. `int64(ttl.Seconds())` is exact truncation.
- The server's clock does not run backwards. Nothing of the kind is assumed of the client's clock, only a bounded
  distance from the server's where a lifetime of the coupled system is at stake.

## Results that differ from what one might expect

- The sweep of a revocation is final for the cache and for every later `GetToken` if and only if the token had been drawn
  when the sweep ended (`CoupledLaws.SweptForGood`, `RevokeTooEarly.SweepIsFinal`). The server refuses the token for good
  if and only if, when it handled the revocation, the token was not still to come: neither undrawn nor drawn by a call
  that had yet to save it within its lifetime (`RevokeTooEarly.HandlingIsFinal`). `RevokeTooEarly.RevokedThenCached` is a
  run in which neither was so.
- The buffer covers a lag of up to buffer + 1 ns + (TTL mod 1 s) - twice the clock skew. With one nanosecond more there
  is a run that rejects a cache hit (`HitLag.LagIsExact`).
- An issued certificate stays issued if and only if no late Start is about to save it as pending
  (`CertLaws.StatusConditionIsExact`). For its domain and creation time to stay too, no completion may hold an older copy;
  together the two conditions are exact (`CertLaws.ConditionsAreExact`). `CertRaces` reaches states where one fails.
- A completion finds its challenge by the ACME token alone. The challenge it consumes belongs to the certificate of its
  route if and only if the latest save for that token came from a Start for that certificate
  (`CertOwners.ConsumesOwnIff`). Otherwise one certificate is issued on another's challenge
  (`CertRaces.ForeignChallengeIssues`). So non-interference holds of the certificates, not of the challenges.
- Without a fixed resource, `RoundTrip` asks for a token for the whole request path, which the challenge sub-routes
  refuse, and which fits the certificate itself only if the configured base URL is the origin
  (`Middleware.DefaultResourceFits`).
- The pipeline masks every client secret and every access token of a text if and only if no two fields of one name overlap
  and no client_secret field has the name of an access_token field for its value (`SanitizedJson.SanitizedMasksAllIff`).
  An overlap begins at the closing quote of a field, or at the opening quote of a value that spells the name
  (`JsonMasking.InsideShapes`); then the later value comes through whole (`JsonMasking.SecondFieldSurvives`,
  `JsonMasking.LastValueSurvives`). In the third case the third pass writes its mask over the name that the fourth would
  look for (`SanitizedJson.NestedTokenSurvives`).
- Test output is masked chunk by chunk and then joined. With chunks that end lines, patterns 2 and 7 stay clean; patterns
  1, 5 and 6 do unless a chunk ends in the key and the next one that is not blank begins with the secret; pattern 8 does
  unless a header is followed by a footer in a later chunk (`JoinedReport`). A private key printed line by line is such a
  case (`JoinedReport.PrivateKeyByLines`).
- Pattern 8 takes a whole private key if and only if header and footer both name a kind of key in capitals and spaces
  (`KeyBlocks.BlockIsMaskedIff`). A PKCS #8 key names none, so the pipeline lets all of it through, unless the first pass
  takes a line of it for a Bearer header (`KeyBlocks.Pkcs8Survives`).
- A client with restricted scopes may ask for the empty scope, and its token is then admitted for every scope
  (`Server.Provenance`).

## Model

| member | source | states |
|---|---|---|
| `CacheSteps.RunKeepsInv` | pkg/oauth2/client/client.go:137-175 | In every schedule the lock has many readers or one writer, whoever fetches found nothing fresh and still finds nothing, a sweep has only unvisited keys left to remove, and the log explains the cache. |
| `CacheSteps.FetchesAreSpaced` | pkg/oauth2/client/client.go:137-175 | Consecutive fetches for one resource without an eviction between them have clock readings at least lifetime minus buffer apart, and the later one raises the expiry, whatever the clock does; with the largest buffer there is, nothing is ever fresh. |
| `CacheSteps.FetchesInWindow` | pkg/oauth2/client/client.go:137-175 | In a stretch without an eviction, at most 1 + W / (lifetime - buffer) fetches have their clock readings in a window of width W, however the clock moves in and out of it; callers at the same instant cause one. |
| `CacheSteps.NeverStuck` | pkg/oauth2/client/client.go:137-280 | While any call is unfinished, some step that begins no new call can be taken, even if no reader is let in before a waiting writer. |
| `CacheSteps.StepsRunOut` | pkg/oauth2/client/client.go:137-280 | Every such step brings the calls nearer to their end, so without new calls all of them come to it. |
| `CacheLinearizable.StepRefines` | pkg/oauth2/client/client.go:140-174 | Each lock operation, map access, answer or sweep iteration is one atomic step of the specification or none. |
| `CacheLinearizable.RunLinearizes` | pkg/oauth2/client/client.go:140-174 | Every schedule replays as a run of atomic steps with the same cache and the same answers. |
| `CacheLinearizable.RealTimeOrder` | pkg/oauth2/client/client.go:137-280 | When one call, `GetToken` or `Revoke`, is finished before another begins, the operation that ended the first precedes the second's invocation, and everything that answers it, in the atomic run. |
| `CacheLinearizable.ReturnedIsAnswered` | pkg/oauth2/client/client.go:137-175 | What a goroutine returns is the answer of one atomic `GetToken` in that run. |
| `TokenClient.Client.constructor` | pkg/oauth2/client/client.go:70-89 | The cache starts empty; a buffer that is not positive becomes 30 seconds. |
| `TokenClient.Client.Lookup` | pkg/oauth2/client/client.go:140-148 | The section under the read lock is the `Read` step. |
| `TokenClient.Client.RecheckAndFetch` | pkg/oauth2/client/client.go:154-174 | The section under the write lock is re-check and fetch, hence the atomic get; a failed fetch changes nothing. |
| `TokenClient.Client.GetToken` | pkg/oauth2/client/client.go:137-175 | The whole call is one atomic get, on the cache found first or on the one found after the gap, whatever others did meanwhile. |
| `TokenClient.Client.Revoke` | pkg/oauth2/client/client.go:266-280 | On success exactly the entries that hold the token are gone; on an error the cache is unchanged. |
| `TokenClient.Client.RoundTrip` | pkg/oauth2/client/transport.go:51-68 | A fixed resource is what the token is asked for, whatever the URL; otherwise the request's scheme, host and path, and nothing for a request without a URL. Every other key of the cache that the call saw is as it was, and the token stands behind `Bearer `. |
| `TokenClient.HeaderCarriesToken` | pkg/oauth2/client/transport.go:65 | The middleware reads back from the header exactly the generated token. |
| `Text.FieldsAreWords` | pkg/oauth2/service.go:209 | The fields of a scope are exactly its longest space-free runs. |
| `Text.FieldsInOrder` | pkg/oauth2/service.go:209 | They come from left to right, each run once for each place where it stands. |
| `Text.SplitFields` | pkg/oauth2/middleware.go:139 | The one-pass tokenizer computes those fields. |
| `Text.TrimCut` | pkg/oauth2/middleware.go:67 | Trimming takes white space off both ends and nothing else. |
| `Text.TrimmedAway` | pkg/oauth2/service.go:117 | It leaves nothing if and only if there was nothing but white space. |
| `Codec.Base64RoundTrip` | pkg/oauth2/service.go:329-335 | Unpadded base64 decodes to the same bytes, for both alphabets, and has the expected length. |
| `Codec.LetterIsTable` | pkg/oauth2/service.go:334 | The 64 digits are capitals, small letters, figures, `-` and `_`, in this order. |
| `Codec.GroupIsBigEndian` | pkg/oauth2/service.go:334 | The digits of three bytes are those of the 24-bit number that they make. |
| `Codec.HexInjective` | pkg/oauth2/service.go:321-327 | Distinct draws give distinct client identifiers. |
| `Codec.HexIsTable` | pkg/oauth2/service.go:326 | Byte by byte the two digits in the table of small letters, the higher one first. |
| `Codec.OpaqueTokenShape` | pkg/oauth2/service.go:218-223 | Opaque tokens have 47 characters, no whitespace, and distinct draws give distinct tokens. |
| `Codec.BearerRoundTrip` | pkg/oauth2/middleware.go:57-68 | For any spelling of the scheme and any white space around the token, splitting, case-folding and trimming recover it. |
| `Codec.ParseAuthorizationIff` | pkg/oauth2/middleware.go:47-67 | The middleware takes a token from a header if and only if the header is a spelling of the scheme, a space, and the token, not empty, with white space around it. |
| `Codec.HeaderRoundTrip` | pkg/oauth2/client/transport.go:65 | So they do from the header that the transport sets. |
| `Codec.BasicRoundTrip` | pkg/oauth2/client/client.go:192 | Basic credentials whose user has no colon decode to the same pair. |
| `Codec.BasicRefused` | pkg/oauth2/handlers.go:85-89 | Another scheme gives no credentials, and neither does a text without a colon. |
| `Codec.GeneratedCredentials` | pkg/oauth2/service.go:128-136 | Generated identifiers and secrets are such credentials. |
| `TokenStore.MemoryStore.CreateClient` | pkg/oauth2/store_memory.go:44-62 | Refuses nil, empty and known identifiers without a change; otherwise adds exactly the record as passed in. |
| `TokenStore.MemoryStore.GetClient` | pkg/oauth2/store_memory.go:65-79 | A fresh copy of the stored client, slices included, or the error. |
| `TokenStore.MemoryStore.SaveToken` | pkg/oauth2/store_memory.go:82-93 | Stores a copy under the hash, overwriting what was there; refuses nil and the empty hash. |
| `TokenStore.MemoryStore.GetTokenByHash` | pkg/oauth2/store_memory.go:96-107 | A fresh copy that shares only the pointee of `RevokedAt`, or the error. |
| `TokenStore.MemoryStore.RevokeToken` | pkg/oauth2/store_memory.go:110-122 | Marks exactly this token revoked, in place, with a new pointee that holds the time; an unknown hash changes nothing. |
| `TokenStore.OutsideWritesInvisible` | pkg/oauth2/store_memory.go:44-122 | Whatever is written outside the store's own objects, the store means the same. |
| `TokenStore.OverwriteAfterCreate` | pkg/oauth2/store_memory.go:57-60 | Overwriting the client and slices that were passed in changes nothing stored. |
| `TokenStore.OverwriteReturnedClient` | pkg/oauth2/store_memory.go:74-78 | Overwriting a returned client changes no stored allowed list. |
| `TokenStore.OverwriteReturnedToken` | pkg/oauth2/store_memory.go:105-106 | Overwriting every field of a returned token changes no stored expiry or revocation. |
| `TokenStore.WriteSharedTime` | pkg/oauth2/store_memory.go:119-120 | Writing through the shared `RevokedAt` pointer is invisible too. |
| `Service.FailureIsAtomic` | pkg/oauth2/service.go:116-252 | A failed registration or issue leaves both maps as they were. |
| `Service.RegisterSucceedsIff` | pkg/oauth2/service.go:116-165 | When a registration succeeds, condition by condition, and what it answers and stores then. |
| `Service.RegisterErrorIs` | pkg/oauth2/service.go:116-165 | Otherwise the error names the first condition that fails and the store is as it was. |
| `Service.IssueSucceedsIff` | pkg/oauth2/service.go:168-252 | A token is issued if and only if the grant type is client_credentials, the resource is empty or absolute, the client is stored, the secret matches, resource and scopes are on its lists, where there are any, 32 bytes are there and their hash is not empty; then what is answered and stored, field by field. |
| `Service.IssueErrorIs` | pkg/oauth2/service.go:173-243 | Otherwise the error names the first condition that fails and the store is as it was. |
| `Service.RegisteredClientGetsToken` | pkg/oauth2/service.go:116-252 | A registered client with its secret, an allowed resource and allowed scopes gets a token whenever 32 random bytes are to be had. |
| `Service.RevocationSurvivesIssue` | pkg/oauth2/store_memory.go:91 | A stored revocation survives an issue if and only if the draw does not repeat. |
| `Service.ContainsString` | pkg/oauth2/service.go:337-344 | The loop decides membership. |
| `Service.Service.constructor` | pkg/oauth2/service.go:98-113 | The lifetime is positive; options that are not positive keep the defaults. |
| `Service.Service.ReadFull` | pkg/oauth2/service.go:321-335 | Takes exactly `n` bytes from the reader, or fails and uses it up. |
| `Service.Service.RegisterClient` | pkg/oauth2/service.go:116-165 | Result, store and reader afterwards, for every error and for success. |
| `Service.Service.Authorize` | pkg/oauth2/service.go:194-216 | The secret, resource and scope checks, in this order, on the copied client. |
| `Service.Service.IssueToken` | pkg/oauth2/service.go:168-252 | Result, store and reader afterwards, for every error and for success. |
| `Service.Service.ValidateToken` | pkg/oauth2/service.go:255-278 | Revoked before expired; a fresh copy of exactly the stored record otherwise. |
| `Service.Service.IntrospectToken` | pkg/oauth2/service.go:281-299 | Active, with the stored record's client, resource, scope and expiry in seconds, if it is there, not revoked and not past its expiry; otherwise inactive. |
| `Service.Service.RevokeToken` | pkg/oauth2/service.go:302-313 | Marks the token's record if there is one; unknown and empty tokens are no errors and change nothing. |
| `Server.RunKeepsInv` | pkg/oauth2/service.go:168-313 | Over every interleaving the token map holds exactly the records of the issued tokens, each under its hash, and every call in progress was authorised by the client record still stored. |
| `Server.ValidateRefinesSpec` | pkg/oauth2/service.go:255-299 | Validation accepts, and introspection reports active, exactly when the token was issued, is not revoked and now <= issue time + TTL; every error is the one that names the reason. |
| `Server.IntrospectionIsHistory` | pkg/oauth2/service.go:281-299 | In terms of the issues: the client, resource and scope of the request that was granted and the end of its lifetime while the token is live, and inactive for everything else. |
| `Server.ValidationOverRun` | pkg/oauth2/service.go:260-277 | Lookup and clock reading may be apart: the answer is for the revocations known at the lookup and the clock at the decision. |
| `Server.RevokedForever` | pkg/oauth2/service.go:302-313 | Every validation that looks after a revocation fails as revoked, whatever happens in between. |
| `Server.ExpiredForever` | pkg/oauth2/types.go:71-73 | Once past its expiry a token is never accepted again, not even by a validation that looked before. |
| `Server.SavedOnce` | pkg/oauth2/store_memory.go:82-93 | No token is saved twice in a run. |
| `Server.ClientFromRegistration` | pkg/oauth2/store_memory.go:52-60 | A stored client is, unchanged, the record some registration built. |
| `Server.Provenance` | pkg/oauth2/service.go:168-252 | An accepted token traces to exactly one issue, by a registered client whose secret verified; its resource and every target it is admitted to lie in that client's list, where there is one, and so does every scope it is admitted for, if and only if its own scope is not empty. |
| `ServiceSteps.IssueIsSteps` | pkg/oauth2/service.go:168-252 | An uninterrupted `IssueToken` is request, draw and save of the step system: same answer, same store, error by error. |
| `ServiceSteps.RegisterIsStep` | pkg/oauth2/service.go:128-164 | An uninterrupted `RegisterClient` with its randomness is the registration step, with the generated identifier and secret. |
| `ServiceSteps.ValidateIsSteps` | pkg/oauth2/service.go:255-278 | An uninterrupted `ValidateToken` is lookup and decision. |
| `ServiceSteps.RevokeIsStep` | pkg/oauth2/service.go:302-313 | `RevokeToken` is the revocation step. |
| `Middleware.TokenAuthMiddleware` | pkg/oauth2/middleware.go:44-96 | Puts exactly the validated record into the context, or aborts with 401. |
| `Middleware.RequireResource` | pkg/oauth2/middleware.go:99-124 | 401 without a token, 403 on another target, otherwise nothing changes; an unbound token goes anywhere. |
| `Middleware.RequireScope` | pkg/oauth2/middleware.go:127-158 | 401 without a token, 403 when the scope is not among the fields, otherwise nothing changes. |
| `Middleware.Admit` | sample-server/main.go:94-102 | The chain in front of the certificate routes lets a request through exactly when its token validates and admits the extracted resource. |
| `Middleware.AdmittedIff` | sample-server/main.go:89-102 | Let through is who sends, in a Bearer header, a token that is stored, not revoked, not past its expiry, and bound to nothing or to the base URL without its slashes, `/v1/certificates/` and the identifier. |
| `Middleware.TrimSlashesIs` | sample-server/main.go:91 | The result of trimming does not end in a slash, and only slashes were taken off. |
| `Middleware.ResourceOfIs` | sample-server/main.go:89-92 | The extractor takes the slashes off the base URL, however many there are. |
| `Middleware.ResourceOfInjective` | sample-server/main.go:89-92 | The extractor tells certificate identifiers apart. |
| `Middleware.BoundTokenReachesOne` | sample-server/main.go:89-102 | A token bound to one certificate's resource is admitted for that certificate and no other. |
| `Middleware.DefaultResourceFits` | pkg/oauth2/client/transport.go:53-56 | On the protected routes, the default resource of a request fits the extractor if and only if the path has nothing after the certificate identifier and the configured base URL is the origin. |
| `Middleware.RouteHasOneId` | sample-server/main.go:99-101 | The router finds one identifier in the path of a protected route. |
| `Middleware.FetchRequestArrives` | pkg/oauth2/handlers.go:85-89 | The client's Basic credentials override the body's and reach the service as sent. |
| `Middleware.TokenHandler` | pkg/oauth2/handlers.go:60-128 | 200 with the response, 401 for client errors, 400 for all others and for a body that does not bind; the store changes as in `IssueToken`. |
| `Coupled.LifeIsWholeSeconds` | pkg/oauth2/service.go:248 | The lifetime the client reckons with is the server's, cut to whole seconds, without wrap-around. |
| `Coupled.StepKeepsInv` | pkg/oauth2/client/client.go:137-280 | Every step of either side, in any interleaving with lost messages, keeps the coupling: cached and returned tokens are issued to this client for their key, client expiry is no later than server expiry plus skew, and swept tokens are gone. |
| `Coupled.RunKeepsInv` | pkg/oauth2/client/client.go:137-280 | So it holds at every moment of every run. |
| `CoupledLaws.EntriesAreBound` | pkg/oauth2/client/client.go:163-172 | A token cached under a key has a server record with that resource and this client's identifier, and the entry expires no later than the record, but for skew and truncation. |
| `CoupledLaws.ReturnedTokenIsAdmitted` | pkg/oauth2/middleware.go:111-122 | A token that `GetToken` gave for a key, if it still validates, passes `RequireResource` exactly where the extractor yields that key. |
| `CoupledLaws.LagBound` | pkg/oauth2/client/client.go:143 | The lag that the buffer covers, exactly: if and only if lag + 2 skew <= buffer + 1 + TTL mod 1 s. |
| `CoupledLaws.HitIsNotExpired` | pkg/oauth2/client/client.go:138-168 | Within that lag a cache hit is never rejected as expired; it is accepted unless revoked. |
| `CoupledLaws.FetchedIsNotExpired` | pkg/oauth2/service.go:226-248 | A fetched token is accepted for its whole lifetime, less the skew, unless revoked. |
| `CoupledLaws.SweptForGood` | pkg/oauth2/client/client.go:271-278 | Once a sweep has ended, the token having been drawn by then, no entry ever holds it and no goroutine that lacks it ever gets it. |
| `CoupledLaws.RevokedOnServer` | pkg/oauth2/service.go:302-313 | Once the server has handled the client's revocation of an issued token, it never accepts it again. |
| `CoupledLaws.RevokedEverywhere` | pkg/oauth2/client/client.go:247-280 | Both, after `Revoke` of a token that had been issued when it was handled has returned without error. |
| `CoupledLaws.ClientRuns` | pkg/oauth2/client/client.go:137-280 | The client's share of a coupled run is a run of the client alone, so the cache laws apply to it. |
| `CoupledLaws.FetchesPerTtl` | pkg/oauth2/client/client.go:137-175 | Against this server the fetch bound for a window of width W is 1 + W / (TTL in whole seconds - buffer). |
| `CoupledRuns.CanFetch` | pkg/oauth2/client/client.go:137-175 | With the lock free and no fresh entry, a new call can be given any token that was not drawn yet, if the server would grant it. |
| `RevokeTooEarly.SweepIsFinal` | pkg/oauth2/client/client.go:271-278 | From the end of a sweep on, the token stays out of the cache in every continuation if and only if it had been drawn by then. |
| `RevokeTooEarly.CanStillBeIssued` | pkg/oauth2/service.go:218-243 | Otherwise some continuation issues it, caches it, and has the server accept it. |
| `RevokeTooEarly.RevokedThenCached` | pkg/oauth2/service.go:302-313 | A run from the beginning in which `Revoke` succeeds and the token is issued, cached and accepted afterwards. |
| `RevokeTooEarly.HandlingIsFinal` | pkg/oauth2/service.go:302-313 | From the moment the server handles a revocation it never accepts the token, in any continuation, if and only if the token was not still to come: undrawn, or drawn by a call that had yet to save it in time. |
| `HitLag.LagIsExact` | pkg/oauth2/client/client.go:138-168 | For a buffer between zero and the lifetime, no run rejects a cache hit as expired within the lag if and only if lag + 2 skew <= buffer + 1 + TTL mod 1 s. |
| `EndToEnd.CachedTokenOpensItsRoute` | sample-server/main.go:94-102 | A cache hit for a certificate's resource, sent in the transport's header and checked within the lag, opens that certificate's routes unless revoked, and no other certificate's. |
| `EndToEnd.FixedTransportIsAdmitted` | pkg/oauth2/client/transport.go:51-68 | A transport fixed to a certificate's resource is let through on every protected route of that certificate, whatever its URL, exactly while its token validates, and on no route of another. |
| `CertStore.MemoryStore.GetCertificate` | sample-server/internal/certificate/store.go:57-67 | A fresh copy of the stored record, or not found. |
| `CertStore.MemoryStore.SaveCertificate` | sample-server/internal/certificate/store.go:70-80 | Stores a copy under its own identifier; nil is refused. |
| `CertStore.MemoryStore.DeleteChallenge` | sample-server/internal/certificate/store.go:109-118 | Removes exactly this challenge, or reports that it is not there. |
| `CertStore.OutsideWritesInvisible` | sample-server/internal/certificate/store.go:57-106 | Writing on records passed in or handed out does not reach the store. |
| `CertStore.Handler.StartChallenge` | sample-server/internal/certificate/handler.go:42-104 | Undisturbed: 400 without a change, or 201 with the request's domain, key authorization and token saved under the token for this certificate, a pending certificate made if there was none, and everything else as it was. |
| `CertStore.Handler.CompleteChallenge` | sample-server/internal/certificate/handler.go:108-159 | Undisturbed: which status for which state, the challenge gone, and the certificate issued if there is one. |
| `CertStore.Handler.ServeACMEChallenge` | sample-server/internal/certificate/handler.go:185-204 | The key authorization of the challenge for the token, or 404. |
| `CertStore.StartIsSteps` | sample-server/internal/certificate/handler.go:66-96 | An undisturbed Start is the steps of one handler, in order. |
| `CertStore.CompleteIsSteps` | sample-server/internal/certificate/handler.go:127-149 | An undisturbed Complete is the steps of one handler, in order. |
| `CertStore.StartThenComplete` | sample-server/internal/certificate/handler.go:42-159 | From a request: the endpoint serves its key authorization at its token in between and nothing afterwards, the certificate is issued for 90 days, and a second Complete is not found. |
| `CertSteps.RunKeepsInv` | sample-server/internal/certificate/handler.go:42-159 | The invariants below hold at every moment of every interleaving. |
| `CertLaws.StoreIsConsistent` | sample-server/internal/certificate/handler.go:66-96 | Each stored challenge has its certificate, both maps are keyed by the record's own identifier, and certificates are never removed. |
| `CertLaws.ChallengesAreConserved` | sample-server/internal/certificate/store.go:96-118 | Saves = live + deleted + overwritten; every challenge ever saved is in exactly one of the three states. |
| `CertLaws.ConsumedOnce` | sample-server/internal/certificate/handler.go:127-134 | A challenge is consumed by one completion, for good, and a completion consumes one challenge. |
| `CertLaws.IssuedAfterDelete` | sample-server/internal/certificate/handler.go:127-149 | A certificate is issued only after a completion on its own route has deleted a challenge from the store. |
| `CertLaws.ServesLatest` | sample-server/internal/certificate/handler.go:185-204 | The public endpoint serves the latest challenge saved for a token until it is consumed, and then nothing. |
| `CertLaws.IssuedStays` | sample-server/internal/certificate/handler.go:65-82 | Issued stays issued if no Start for the certificate is between lookup and save; domain and creation time stay if, besides, no completion holds an older copy. |
| `CertLaws.ConditionsAreExact` | sample-server/internal/certificate/handler.go:137-152 | The two conditions hold if and only if no next step can undo the issue or change the certificate. |
| `CertLaws.StatusConditionIsExact` | sample-server/internal/certificate/handler.go:65-82 | The first holds if and only if no next step can undo the issue. |
| `CertLaws.SerialIssuedStays` | sample-server/internal/certificate/handler.go:42-159 | With handlers one after the other, issued is for good. |
| `CertLaws.OnlyItsTokenWrites` | sample-server/main.go:89-102 | Only a handler admitted under a token bound to a certificate, or to nothing, changes that certificate's record. |
| `CertOwners.ConsumesOwnIff` | sample-server/internal/certificate/handler.go:127-134 | The challenge a completion consumes belongs to the certificate of its route if and only if the latest save for the ACME token came from a Start for that certificate. |
| `CertOwners.OwnChallengeConsumedIff` | sample-server/internal/certificate/handler.go:127-149 | A certificate has had a challenge of its own consumed by a finished completion if and only if one of these deleted what a Start for the certificate had saved last. |
| `CertRaces.ForeignChallengeIssues` | sample-server/internal/certificate/handler.go:127-149 | A reachable state in which a certificate is issued on another's challenge while its own is still live. |
| `CertRaces.LateSaveUndoesIssue` | sample-server/internal/certificate/handler.go:65-82 | A reachable state in which an issued certificate becomes pending with the next save. |
| `CertRaces.StaleCopyChangesDomain` | sample-server/internal/certificate/handler.go:137-152 | A reachable state in which no late Start is under way and the next save changes an issued certificate's domain. |
| `Regex.ExecSound` | scripts/generate_e2e_report.py:36-45 | What the backtracking matcher reports is a match. |
| `Regex.ExecComplete` | scripts/generate_e2e_report.py:36-45 | When some prefix matches, the matcher finds a match. |
| `Regex.FirstIsLeftmost` | scripts/generate_e2e_report.py:54 | The search finds the leftmost match, or there is none. |
| `Masking.SubKeepsStarFree` | scripts/generate_e2e_report.py:48-55 | Star-free text in the result of a pass was in its input or is part of the mask. |
| `Masking.SubCreatesNoMatch` | scripts/generate_e2e_report.py:48-55 | A pass that keeps its key creates no match of another star-free pattern. |
| `Masking.SubClears` | scripts/generate_e2e_report.py:37-42 | A pass of the shape key, separator, secret removes every match of its own pattern. |
| `Masking.SubClearsFenced` | scripts/generate_e2e_report.py:44 | So does the private-key pass, although its pattern can match across masks. |
| `Sanitize.LaterPassKeepsClear` | scripts/generate_e2e_report.py:48-55 | No later pass re-creates a match that an earlier pass removed. |
| `Sanitize.SanitizedHoldsNoMatch` | scripts/generate_e2e_report.py:36-55 | For every text the sanitized text holds no match of patterns 1, 2, 5, 6, 7 and 8. |
| `Sanitize.SanitizedHoldsNoSecret` | scripts/generate_e2e_report.py:36-55 | For every text, in the characters of the sanitized text: behind no spelling of `Bearer`, `client_secret=`, `token-val` or `key-auth` stands a secret of the length asked for, on both sides of no spelling of `.auth-key-`, and there is no private key. |
| `Sanitize.CleanTextUnchanged` | scripts/generate_e2e_report.py:48-55 | Text without a match passes through unchanged. |
| `Sanitize.Sanitize` | scripts/generate_e2e_report.py:48-55 | The loop over the passes computes the sanitized text, which holds no secret. |
| `PlainSecrets.BearerIsMasked` | scripts/generate_e2e_report.py:37 | The first key, in any spelling, with its white space: `Bearer ***MASKED_TOKEN***` in its place and that of the token behind it, if that has ten characters; with fewer all of it stays. |
| `PlainSecrets.SecretParamIsMasked` | scripts/generate_e2e_report.py:38 | Behind the first `client_secret=` in any spelling `***MASKED_SECRET***` stands for a secret of eight characters or more; a shorter one stays. |
| `PlainSecrets.TokenValIsMasked` | scripts/generate_e2e_report.py:41 | So does `***MASKED_TOKEN***` behind `token-val` and white space, from eight characters on. |
| `PlainSecrets.KeyAuthIsMasked` | scripts/generate_e2e_report.py:42 | And `***MASKED_KEY_AUTH***` behind `key-auth` and white space, from ten characters on. |
| `PlainSecrets.AuthKeyIsMasked` | scripts/generate_e2e_report.py:43 | A stretch of token characters becomes `***MASKED_KEY_AUTH***` as a whole if and only if somewhere in it ten characters stand in front of `.auth-key-` and eight behind. |
| `PlainSecrets.BothSides` | scripts/generate_e2e_report.py:43 | With the infix in one place: if and only if it has ten characters on one side and eight on the other. |
| `PlainSecrets.JsonFieldsAreMasked` | scripts/generate_e2e_report.py:39-40 | The two JSON passes keep quotes and label and write their own masks for the value. |
| `PlainSecrets.GeneratedAreMasked` | scripts/generate_e2e_report.py:37-38 | A generated access token in its header, and a generated client secret in a form, are masked whatever follows. |
| `JsonMasking.FieldsAreMatches` | scripts/generate_e2e_report.py:39-40 | The matches of the JSON patterns are the fields: quoted name in any spelling, colon, white space, quoted value that is not empty. |
| `JsonMasking.SubIsSplice` | scripts/generate_e2e_report.py:54 | A JSON pass replaces the values of the fields it consumes, and nothing else. |
| `JsonMasking.ValueMaskedIff` | scripts/generate_e2e_report.py:39-40 | A value is masked if and only if its field does not begin inside a consumed one; otherwise every character of it survives. |
| `JsonMasking.JsonPassesMaskIff` | scripts/generate_e2e_report.py:39-40 | For every text, each JSON pass masks the value of every match if and only if no match begins inside an earlier one it consumed, that is, if and only if no two matches overlap. |
| `JsonMasking.InsideShapes` | scripts/generate_e2e_report.py:39-40 | A field that begins inside another begins at its closing quote, or at its opening quote with a value that spells the name. |
| `JsonMasking.FieldIsMasked` | scripts/generate_e2e_report.py:39-40 | A field at the beginning of a text is masked, its whole value and nothing else, and the pass goes on behind it. |
| `JsonMasking.SecondFieldSurvives` | scripts/generate_e2e_report.py:39-40 | Of two fields with nothing between them only the first is masked. |
| `JsonMasking.LastValueSurvives` | scripts/generate_e2e_report.py:39-40 | A value behind a value that spells the name comes through unmasked. |
| `Segments.SubIsEach` | scripts/generate_e2e_report.py:37-43 | A pass whose pattern takes no quote works on each stretch between quotes by itself. |
| `JsonSegments.FieldAtIff` | scripts/generate_e2e_report.py:39-40 | The fields of a text are the places where name, colon with white space, and a value follow one another between quotes. |
| `JsonSegments.ConsumedAreMarks` | scripts/generate_e2e_report.py:39-40 | The fields that the regular expression consumes are those that one scan over the segments finds. |
| `JsonSegments.SubIsWritten` | scripts/generate_e2e_report.py:54 | And the pass writes its mask in the place of their values, leaving every other segment as it is. |
| `SanitizedJson.SanitizedBySegment` | scripts/generate_e2e_report.py:48-55 | For every text: the values that the JSON passes mask are masks, every other segment is what the plain passes make of it alone, and the private-key pass runs over the whole. |
| `SanitizedJson.SanitizedMasksAllIff` | scripts/generate_e2e_report.py:36-55 | For every text the pipeline masks all client secrets and access tokens if and only if no two fields of one name overlap and no client_secret field has the name of an access_token field for its value. |
| `SanitizedJson.SecretMaskedIff` | scripts/generate_e2e_report.py:39 | A client secret is masked if and only if its field does not begin inside one that the third pass, on the input itself, consumes. |
| `SanitizedJson.TokenMaskedIff` | scripts/generate_e2e_report.py:40 | An access token is masked if and only if the third pass has not written over its name and, in what that pass left, its field does not begin inside one that the fourth consumes. |
| `SanitizedJson.NestedTokenSurvives` | scripts/generate_e2e_report.py:39-40 | A client_secret field whose value is the name of an access_token field: nothing of one name overlaps, and the token comes through the whole pipeline. |
| `KeyBlocks.FenceIff` | scripts/generate_e2e_report.py:44 | A header or footer matches if and only if its kind of key is not empty and all capitals and spaces. |
| `KeyBlocks.BlockIsMaskedIff` | scripts/generate_e2e_report.py:44 | A whole key, header, body and footer, becomes the mask if and only if both kinds are such; otherwise the pass leaves it as it is. |
| `KeyBlocks.SanitizedBlock` | scripts/generate_e2e_report.py:48-55 | So it does in the pipeline, if no earlier pattern matches in the key. |
| `KeyBlocks.Pkcs8Survives` | scripts/generate_e2e_report.py:44 | A PKCS #8 key comes through the pipeline as it is if and only if no Bearer header is found in it. |
| `TestReport.ParseGoTestJson` | scripts/generate_e2e_report.py:89-176 | The loop's counters, tests and failures are those read off the log; success if and only if something ended and nothing failed; one failed run for a missing file. |
| `TestReport.TestIsThere` | scripts/generate_e2e_report.py:128-135 | A test is in the report if and only if a line names it, with the package of the first line that does. |
| `TestReport.StatusIs` | scripts/generate_e2e_report.py:140-143 | Its status is `PASS`, `FAIL` or `SKIP` after the action of the last line that ended it, with that line's duration, and `UNKNOWN` with none. |
| `TestReport.ChunksAre` | scripts/generate_e2e_report.py:137-138 | Its output is, in order, the masked output of each of its lines that put something out. |
| `TestReport.FailuresAre` | scripts/generate_e2e_report.py:148-154 | The failures are, in order, those of the lines on which a test failed, each with what the test had put out by then, that line included. |
| `TestReport.CountIs` | scripts/generate_e2e_report.py:145-156 | Each counter is the number of lines on which a test ended so. |
| `TestReport.ChunksHoldNoSecret` | scripts/generate_e2e_report.py:137-138 | No recorded chunk of any test holds a secret that one of the six patterns asks for. |
| `TestReport.FailuresAreSnapshots` | scripts/generate_e2e_report.py:148-154 | One entry for each failure, holding the beginning of what its test put out in the end. |
| `TestReport.JoinedChunksCanMatch` | scripts/generate_e2e_report.py:153 | The smallest case of a match across chunks: `Bearer` at the end of a line and ten token characters. |
| `JoinedReport.LineJoinIsClean` | scripts/generate_e2e_report.py:138-153 | Patterns 2 and 7: clean chunks that end lines have a clean join. |
| `JoinedReport.SpacedJoinIsCleanIff` | scripts/generate_e2e_report.py:138-153 | Patterns 1, 5 and 6: the join of such chunks is clean if and only if no chunk ends in the key and white space with the next one that is not blank beginning with the secret. |
| `JoinedReport.KeyJoinIsCleanIff` | scripts/generate_e2e_report.py:138-153 | Pattern 8: it is clean if and only if no header is followed by a footer in a later chunk. |
| `JoinedReport.FailureIsJoin` | scripts/generate_e2e_report.py:148-154 | A recorded failure is the join of what its test had put out by some line. |
| `JoinedReport.ChunksAreClean` | scripts/generate_e2e_report.py:137-138 | The chunks of every test satisfy the first premise of these conditions. |
| `JoinedReport.ChunksAreLines` | scripts/generate_e2e_report.py:137-138 | And the second, if the outputs end lines: masking keeps the end of a line. |
| `JoinedReport.FailureIsCleanIff` | scripts/generate_e2e_report.py:137-154 | The output of every recorded failure: clean of patterns 2 and 7, and of each other one of the six exactly under its condition on the chunks, if the test's outputs end lines. |
| `JoinedReport.PrivateKeyByLines` | scripts/generate_e2e_report.py:44 | Header and footer of a private key pass through unmasked in chunks of their own, and the join matches whatever is between. |

## Left out

- HTTP transport, JSON and form decoding, Gin plumbing and response bodies: fields are delivered faithfully or the call
  fails; only decisions and status codes are modelled.
- Telemetry and audit logging: no effect on state or decisions.
- The insides of SHA-256, bcrypt, the random source and URL parsing (see Assumptions).
- Rounding inside `Duration.Seconds()`: truncation is exact here.
- Writer preference of the read-write lock: the model lets readers in at any time no writer holds the lock, which only
  adds schedules; the step that `CacheSteps.NeverStuck` finds respects the preference.
- `Text.SplitFields`: is the library tokenizer of Go written as its single scan, with the inner scan as a method of its
  own.
- `Sanitize.SanitizedHoldsNoSecret`: does not cover patterns 3 and 4, and neither does `Sanitize.SanitizedHoldsNoMatch`,
  because their replacement keeps the quotes and the masked field matches again; what these two passes mask is
  `SanitizedJson.SanitizedMasksAllIff`.
- The conditions of `JoinedReport` are for chunks that end lines, as `go test -json` puts them out, save the last one;
  patterns 3 and 4 are not among them.
- `TestReport.ParseGoTestJson`: leaves out the sorting of the test list, the rounding of the total duration and the text
  of the missing-file error.
- Challenges of the certificate store are values: the code never writes to a challenge once it is saved. Their constant
  status field is dropped.
- The read-only certificate handler, client registration over HTTP, the introspection and revocation endpoints' parameter
  parsing, the command-line tool, report HTML and history: plumbing.

/**
 The authorization server over its store, one call at a time.  Each method of
 `Service` is proved against an outcome function on what the store means and
 on the bytes the random reader still holds; the laws are proved about those
 functions.  Interleaved calls are in `Server`.
 */
module Service {
  import opened Prelude
  import opened Types
  import opened Text
  import opened Codec
  import opened TokenStore

  const DEFAULT_TTL: Duration := 3600 * SECOND
  const DEFAULT_COST: int := 10
  const TOKEN_ENTROPY: nat := 32

  // ---- Outcomes -----------------------------------------------------------

  datatype Outcome<+T> = Outcome(result: Result<T, Error>, view: StoreView, random: seq<Byte>)

  /** `io.ReadFull` of `n` bytes: a short reader is used up. */
  function Draw(random: seq<Byte>, n: nat): (Option<seq<Byte>>, seq<Byte>) {
    if n <= |random| then (Some(random[..n]), random[n..]) else (None, [])
  }

  function RegisterOutcome(env: Env, cost: int, req: Option<RegisterRequest>, view: StoreView,
                           random: seq<Byte>, salt: nat, now: Time): Outcome<RegisterResponse>
  {
    if RegistrationError(env, req).Some? then Outcome(Err(RegistrationError(env, req).value), view, random)
    else
      var (id, random1) := Draw(random, 16);
      if id.None? then Outcome(Err(RandomFailed), view, random1) else
      var (secret, random2) := Draw(random1, 32);
      if secret.None? then Outcome(Err(RandomFailed), view, random2)
      else EnrolOutcome(env, cost, Hex(id.value), Encode(Url, secret.value), req.value, view, random2, salt, now)
  }

  /** Hashing the secret and storing the client, the identifier and the secret being drawn. */
  function EnrolOutcome(env: Env, cost: int, id: string, secret: string, req: RegisterRequest, view: StoreView,
                        random: seq<Byte>, salt: nat, now: Time): Outcome<RegisterResponse>
  {
    var hash := env.bcrypt(secret, cost, salt);
    if hash.None? then Outcome(Err(HashFailed), view, random)
    else if id in view.clients then Outcome(Err(InvalidRequest), view, random)
    else
      var client := ClientRecord(id, hash.value, req.name, req.allowedResources, req.allowedScopes, now);
      Outcome(Ok(RegisterResponse(id, secret, req.name, req.allowedResources, req.allowedScopes, now)),
              view.(clients := view.clients[id := client]), random)
  }

  /** Everything that can refuse a request before a token is drawn. */
  function GrantError(env: Env, req: Option<TokenRequest>, clients: map<string, ClientRecord>): Option<Error> {
    if RequestError(env, req).Some? then RequestError(env, req)
    else if req.value.clientId !in clients then Some(InvalidClient)
    else ClientError(env, clients[req.value.clientId], req.value)
  }

  function IssueOutcome(env: Env, ttl: Duration, req: Option<TokenRequest>, view: StoreView,
                        random: seq<Byte>, now: Time): Outcome<TokenResponse>
  {
    if GrantError(env, req, view.clients).Some?
    then Outcome(Err(GrantError(env, req, view.clients).value), view, random)
    else MintOutcome(env, ttl, view.clients[req.value.clientId].id, req.value, view, random, now)
  }

  /** Drawing and storing a token for a request that passed every check. */
  function MintOutcome(env: Env, ttl: Duration, clientId: string, req: TokenRequest, view: StoreView,
                       random: seq<Byte>, now: Time): Outcome<TokenResponse>
  {
    var (bytes, rest) := Draw(random, TOKEN_ENTROPY);
    if bytes.None? then Outcome(Err(RandomFailed), view, rest) else
    var raw := OpaqueToken(bytes.value);
    var token := TokenFor(env, clientId, req, raw, now, ttl);
    if token.tokenHash == "" then Outcome(Err(InvalidRequest), view, rest)
    else Outcome(Ok(TokenResponse(raw, ttl / SECOND, req.resource, req.scope)),
                 view.(tokens := view.tokens[token.tokenHash := token]), rest)
  }

  /** The record the store holds for a presented token. */
  function Found(env: Env, tokens: map<string, TokenRecord>, raw: string): Option<TokenRecord> {
    if env.sha256Hex(raw) in tokens then Some(tokens[env.sha256Hex(raw)]) else None
  }

  function Revoked(tokens: map<string, TokenRecord>, hash: string): map<string, TokenRecord> {
    if hash in tokens then tokens[hash := tokens[hash].(revoked := true)] else tokens
  }

  // ---- Laws ---------------------------------------------------------------

  /** A URI that `url.Parse` takes, with a scheme and an empty fragment. */
  predicate Absolute(env: Env, raw: string) {
    && raw != "" && env.parseUri(raw).Some?
    && env.parseUri(raw).value.scheme != "" && env.parseUri(raw).value.fragment == ""
  }

  /** The client may ask for this resource: any, if it has no list. */
  predicate MayTarget(client: ClientRecord, resource: string) {
    client.allowedResources != [] ==> resource != "" && resource in client.allowedResources
  }

  /** Every word of the scope is on the client's list, if it has one. */
  ghost predicate MayScope(client: ClientRecord, scope: string) {
    client.allowedScopes != [] ==> forall w | IsWord(scope, w) :: w in client.allowedScopes
  }

  /** All that a request must satisfy before a token is drawn for it. */
  ghost predicate Grantable(env: Env, clients: map<string, ClientRecord>, req: TokenRequest) {
    && req.grantType == "client_credentials"
    && (req.resource == "" || Absolute(env, req.resource))
    && req.clientId in clients
    && var client := clients[req.clientId];
    && env.bcryptMatches(client.secretHash, req.clientSecret)
    && MayTarget(client, req.resource) && MayScope(client, req.scope)
  }

  lemma ScopeAllowedIs(client: ClientRecord, scope: string)
    ensures ScopeAllowed(client.allowedScopes, scope) <==> MayScope(client, scope)
  {
    forall w
      ensures w in Fields(scope) <==> IsWord(scope, w)
    {
      FieldsAreWords(scope, w);
    }
  }

  /**
   When `IssueToken` succeeds, and what it answers and stores then: the token
   is "opq_" and the base64 of the first 32 random bytes, the record is kept
   under its hash, and nothing else changes.
   */
  lemma IssueSucceedsIff(env: Env, ttl: Duration, req: Option<TokenRequest>, view: StoreView, random: seq<Byte>,
                         now: Time)
    ensures var o := IssueOutcome(env, ttl, req, view, random, now);
      && (o.result.Ok? <==>
            && req.Some? && Grantable(env, view.clients, req.value)
            && 32 <= |random| && env.sha256Hex("opq_" + Encode(Url, random[..32])) != "")
      && (o.result.Ok? ==>
            var q, raw := req.value, "opq_" + Encode(Url, random[..32]);
            var hash := env.sha256Hex(raw);
            && o.result.value == TokenResponse(raw, ttl / 1_000_000_000, q.resource, q.scope)
            && o.view.clients == view.clients && o.random == random[32..]
            && o.view.tokens == view.tokens[hash :=
                 TokenRecord(hash, view.clients[q.clientId].id, q.resource, q.scope, now + ttl, now, false)])
  {
    if req.Some? && req.value.clientId in view.clients {
      ScopeAllowedIs(view.clients[req.value.clientId], req.value.scope);
    }
  }

  /** Otherwise the error names the first condition that fails, and the store is as it was. */
  lemma IssueErrorIs(env: Env, ttl: Duration, req: Option<TokenRequest>, view: StoreView, random: seq<Byte>,
                     now: Time)
    ensures var o := IssueOutcome(env, ttl, req, view, random, now);
      o.result.Err? ==>
        && o.view == view
        && o.result.error ==
             if req.None? then InvalidRequest
             else if req.value.grantType != "client_credentials" then InvalidGrant
             else if req.value.resource != "" && !Absolute(env, req.value.resource) then InvalidTarget
             else if req.value.clientId !in view.clients then InvalidClient
             else
               var client := view.clients[req.value.clientId];
               if !env.bcryptMatches(client.secretHash, req.value.clientSecret) then InvalidClient
               else if !MayTarget(client, req.value.resource) then InvalidTarget
               else if !MayScope(client, req.value.scope) then ScopeMismatch
               else if |random| < 32 then RandomFailed
               else InvalidRequest
  {
    if req.Some? && req.value.clientId in view.clients {
      ScopeAllowedIs(view.clients[req.value.clientId], req.value.scope);
    }
  }

  /**
   When `RegisterClient` succeeds, and what it answers and stores then: the
   identifier is 16 random bytes in hexadecimal, the secret the next 32 in
   base64, and the record holds the secret's hash.
   */
  lemma RegisterSucceedsIff(env: Env, cost: int, req: Option<RegisterRequest>, view: StoreView, random: seq<Byte>,
                            salt: nat, now: Time)
    ensures var o := RegisterOutcome(env, cost, req, view, random, salt, now);
      && (o.result.Ok? <==>
            && req.Some? && !AllSpace(req.value.name)
            && (forall r | r in req.value.allowedResources :: Absolute(env, r))
            && 48 <= |random| && env.bcrypt(Encode(Url, random[16..48]), cost, salt).Some?
            && Hex(random[..16]) !in view.clients)
      && (o.result.Ok? ==>
            var q, id, secret := req.value, Hex(random[..16]), Encode(Url, random[16..48]);
            var hash := env.bcrypt(secret, cost, salt).value;
            && o.result.value == RegisterResponse(id, secret, q.name, q.allowedResources, q.allowedScopes, now)
            && o.view.tokens == view.tokens && o.random == random[48..]
            && o.view.clients == view.clients[id :=
                 ClientRecord(id, hash, q.name, q.allowedResources, q.allowedScopes, now)])
  {
    if req.Some? {
      TrimmedAway(req.value.name);
    }
    if 48 <= |random| {
      assert random[16..][..32] == random[16..48] && random[16..][32..] == random[48..];
    }
  }

  /** Otherwise the error names the first condition that fails, and the store is as it was. */
  lemma RegisterErrorIs(env: Env, cost: int, req: Option<RegisterRequest>, view: StoreView, random: seq<Byte>,
                        salt: nat, now: Time)
    ensures var o := RegisterOutcome(env, cost, req, view, random, salt, now);
      o.result.Err? ==>
        && o.view == view
        && o.result.error ==
             if req.None? || AllSpace(req.value.name) then InvalidRequest
             else if exists r :: r in req.value.allowedResources && !Absolute(env, r) then InvalidTarget
             else if |random| < 48 then RandomFailed
             else if env.bcrypt(Encode(Url, random[16..48]), cost, salt).None? then HashFailed
             else InvalidRequest
  {
    if req.Some? {
      TrimmedAway(req.value.name);
    }
    if 48 <= |random| {
      assert random[16..][..32] == random[16..48];
    }
  }

  /** A failed registration or issue leaves both maps as they were. */
  lemma FailureIsAtomic(env: Env, cost: int, ttl: Duration, reg: Option<RegisterRequest>, req: Option<TokenRequest>,
                        view: StoreView, random: seq<Byte>, salt: nat, now: Time)
    ensures RegisterOutcome(env, cost, reg, view, random, salt, now).result.Err? ==>
              RegisterOutcome(env, cost, reg, view, random, salt, now).view == view
    ensures IssueOutcome(env, ttl, req, view, random, now).result.Err? ==>
              IssueOutcome(env, ttl, req, view, random, now).view == view
  {
  }

  /**
   A registered client that presents the secret it was given, asks for any
   allowed resource and for allowed scopes gets a token whenever the reader
   has 32 bytes: registration has already vetted the resource.
   */
  lemma RegisteredClientGetsToken(env: Env, cost: int, ttl: Duration, reg: RegisterRequest, view: StoreView,
                                  random: seq<Byte>, salt: nat, earlier: Time,
                                  later: StoreView, req: TokenRequest, draws: seq<Byte>, now: Time)
    requires BcryptSound(env) && forall raw :: env.sha256Hex(raw) != ""
    requires var o := RegisterOutcome(env, cost, Some(reg), view, random, salt, earlier);
      && o.result.Ok?
      // the client is still there, as stored; `Server` shows that it always is
      && var id := o.result.value.clientId;
      && id in later.clients && id in o.view.clients && later.clients[id] == o.view.clients[id]
      && req.grantType == "client_credentials"
      && req.clientId == id && req.clientSecret == o.result.value.clientSecret
    requires req.resource in reg.allowedResources || (reg.allowedResources == [] && req.resource == "")
    requires ScopeAllowed(reg.allowedScopes, req.scope)
    requires TOKEN_ENTROPY <= |draws|
    ensures IssueOutcome(env, ttl, Some(req), later, draws, now).result.Ok?
  {
  }

  /**
   Saving a token overwrites whatever is stored under its hash: a revocation
   survives an issue exactly when the draw does not repeat.
   */
  lemma RevocationSurvivesIssue(env: Env, ttl: Duration, req: Option<TokenRequest>, view: StoreView,
                                random: seq<Byte>, now: Time, hash: string)
    requires hash in view.tokens && view.tokens[hash].revoked
    requires IssueOutcome(env, ttl, req, view, random, now).result.Ok?
    ensures hash in IssueOutcome(env, ttl, req, view, random, now).view.tokens
    ensures IssueOutcome(env, ttl, req, view, random, now).view.tokens[hash].revoked
      <==> hash != env.sha256Hex(OpaqueToken(random[..TOKEN_ENTROPY]))
  {
  }

  // ---- The service --------------------------------------------------------

  method ContainsString(slice: seq<string>, s: string) returns (found: bool)
    ensures found == (s in slice)
  {
    for i := 0 to |slice|
      invariant s !in slice[..i]
    {
      if slice[i] == s {
        return true;
      }
    }
    return false;
  }

  class Service {
    const env: Env
    const store: MemoryStore
    var tokenTTL: Duration
    var bcryptCost: int
    var random: seq<Byte>

    ghost predicate Valid()
      reads this, store, store.Repr
    {
      store.Valid() && this !in store.Repr
    }

    /** `NewService`; options that are not positive keep the defaults. */
    constructor (store: MemoryStore, env: Env, random: seq<Byte>, ttl: Duration, cost: int)
      requires store.Valid()
      ensures Valid() && this.store == store && this.env == env && this.random == random
      ensures tokenTTL > 0 && (ttl > 0 ==> tokenTTL == ttl) && (ttl <= 0 ==> tokenTTL == DEFAULT_TTL)
      ensures bcryptCost == if cost > 0 then cost else DEFAULT_COST
    {
      this.store, this.env, this.random := store, env, random;
      tokenTTL := if ttl > 0 then ttl else DEFAULT_TTL;
      bcryptCost := if cost > 0 then cost else DEFAULT_COST;
    }

    /** Fills a buffer from the reader. */
    method ReadFull(n: nat) returns (b: Option<seq<Byte>>)
      modifies this`random
      ensures b.Some? ==> |b.value| == n && old(random) == b.value + random
      ensures b.None? ==> |old(random)| < n && random == []
      ensures (b, random) == Draw(old(random), n)
    {
      if n <= |random| {
        b, random := Some(random[..n]), random[n..];
      } else {
        b, random := None, [];
      }
    }

    method RegisterClient(req: Option<RegisterRequest>, salt: nat, now: Time)
      returns (r: Result<RegisterResponse, Error>)
      requires Valid()
      modifies this`random, store
      ensures Valid() && fresh(store.Repr - old(store.Repr))
      ensures Outcome(r, store.View(), random) ==
        RegisterOutcome(env, bcryptCost, req, old(store.View()), old(random), salt, now)
    {
      if req.None? || TrimSpace(req.value.name) == "" {
        return Err(InvalidRequest);
      }
      var valid := ValidateResources(req.value.allowedResources);
      if !valid {
        return Err(InvalidTarget);
      }
      var id := ReadFull(16);
      if id.None? {
        return Err(RandomFailed);
      }
      var secret := ReadFull(32);
      if secret.None? {
        return Err(RandomFailed);
      }
      HexLetters(id.value);
      r := Enrol(Hex(id.value), Encode(Url, secret.value), req.value, salt, now);
    }

    /** The rest of `RegisterClient`. */
    method Enrol(id: string, rawSecret: string, req: RegisterRequest, salt: nat, now: Time)
      returns (r: Result<RegisterResponse, Error>)
      requires Valid() && id != ""
      modifies store
      ensures Valid() && fresh(store.Repr - old(store.Repr))
      ensures Outcome(r, store.View(), random) ==
        EnrolOutcome(env, bcryptCost, id, rawSecret, req, old(store.View()), random, salt, now)
    {
      var hash := env.bcrypt(rawSecret, bcryptCost, salt);
      if hash.None? {
        return Err(HashFailed);
      }
      r := Store(id, hash.value, rawSecret, req, now);
    }

    /** The loop over the allowed resources. */
    method ValidateResources(resources: seq<string>) returns (ok: bool)
      ensures ok <==> forall r | r in resources :: AbsoluteUri(env, r)
    {
      for i := 0 to |resources|
        invariant forall r | r in resources[..i] :: AbsoluteUri(env, r)
      {
        if !AbsoluteUri(env, resources[i]) {
          return false;
        }
      }
      assert resources[..|resources|] == resources;
      return true;
    }

    /** The tail of `RegisterClient`: build the record and hand it to the store. */
    method Store(id: string, hash: string, rawSecret: string, req: RegisterRequest, now: Time)
      returns (r: Result<RegisterResponse, Error>)
      requires Valid()
      modifies store
      ensures Valid() && fresh(store.Repr - old(store.Repr))
      ensures id == "" || id in old(store.View()).clients ==>
              r == Err(InvalidRequest) && store.View() == old(store.View())
      ensures id != "" && id !in old(store.View()).clients ==>
        && r == Ok(RegisterResponse(id, rawSecret, req.name, req.allowedResources, req.allowedScopes, now))
        && store.View() == old(store.View()).(clients := old(store.View()).clients[id :=
             ClientRecord(id, hash, req.name, req.allowedResources, req.allowedScopes, now)])
    {
      var rs := new string[|req.allowedResources|](
        i requires 0 <= i < |req.allowedResources| => req.allowedResources[i]);
      var ss := new string[|req.allowedScopes|](i requires 0 <= i < |req.allowedScopes| => req.allowedScopes[i]);
      assert rs[..] == req.allowedResources && ss[..] == req.allowedScopes;
      var client := new Client(id, hash, req.name, rs, ss, now);
      assert client.Record() == ClientRecord(id, hash, req.name, req.allowedResources, req.allowedScopes, now);
      var err := store.CreateClient(client);
      if err.Some? {
        return Err(err.value);
      }
      return Ok(RegisterResponse(id, rawSecret, client.name, client.allowedResources[..], client.allowedScopes[..],
                                 client.createdAt));
    }

    method IssueToken(req: Option<TokenRequest>, now: Time) returns (r: Result<TokenResponse, Error>)
      requires Valid()
      modifies this`random, store
      ensures Valid() && fresh(store.Repr - old(store.Repr))
      ensures Outcome(r, store.View(), random) ==
        IssueOutcome(env, tokenTTL, req, old(store.View()), old(random), now)
    {
      var refused, clientId := Grant(req);
      if refused.Some? {
        return Err(refused.value);
      }
      r := Mint(clientId, req.value, now);
    }

    /** The rest of `IssueToken`. */
    method Mint(clientId: string, q: TokenRequest, now: Time) returns (r: Result<TokenResponse, Error>)
      requires Valid()
      modifies this`random, store
      ensures Valid() && fresh(store.Repr - old(store.Repr))
      ensures Outcome(r, store.View(), random) ==
        MintOutcome(env, tokenTTL, clientId, q, old(store.View()), old(random), now)
    {
      var bytes := ReadFull(TOKEN_ENTROPY);
      if bytes.None? {
        return Err(RandomFailed);
      }
      r := Save(clientId, q, OpaqueToken(bytes.value), now);
    }

    /** The checks of `IssueToken`, in order; nothing is drawn or stored. */
    method Grant(req: Option<TokenRequest>) returns (refused: Option<Error>, clientId: string)
      requires Valid()
      ensures refused == GrantError(env, req, store.View().clients)
      ensures refused.None? ==> clientId == store.View().clients[req.value.clientId].id
    {
      clientId := "";
      if req.None? {
        return Some(InvalidRequest), clientId;
      }
      var q := req.value;
      if q.grantType != "client_credentials" {
        return Some(InvalidGrant), clientId;
      }
      if q.resource != "" && !AbsoluteUri(env, q.resource) {
        return Some(InvalidTarget), clientId;
      }
      var found := store.GetClient(q.clientId);
      if found.Err? {
        return Some(InvalidClient), clientId;
      }
      refused := Authorize(found.value, q);
      clientId := found.value.id;
    }

    /** The tail of `IssueToken`: build the record and hand it to the store. */
    method Save(clientId: string, q: TokenRequest, raw: string, now: Time) returns (r: Result<TokenResponse, Error>)
      requires Valid()
      modifies store
      ensures Valid() && fresh(store.Repr - old(store.Repr))
      ensures var token := TokenFor(env, clientId, q, raw, now, tokenTTL);
        if token.tokenHash == "" then r == Err(InvalidRequest) && store.View() == old(store.View())
        else
          && r == Ok(TokenResponse(raw, tokenTTL / SECOND, q.resource, q.scope))
          && store.View() == old(store.View()).(tokens := old(store.View()).tokens[token.tokenHash := token])
    {
      var token := new Token(TokenFor(env, clientId, q, raw, now, tokenTTL), null);
      var err := store.SaveToken(token);
      if err.Some? {
        return Err(err.value);
      }
      return Ok(TokenResponse(raw, tokenTTL / SECOND, q.resource, q.scope));
    }

    /** Secret, resource and scope checks of `IssueToken` on the copied client. */
    method Authorize(client: Client, q: TokenRequest) returns (refused: Option<Error>)
      ensures refused == ClientError(env, client.Record(), q)
    {
      if !env.bcryptMatches(client.secretHash, q.clientSecret) {
        return Some(InvalidClient);
      }
      if client.allowedResources.Length > 0 {
        var listed := ContainsString(client.allowedResources[..], q.resource);
        if q.resource == "" || !listed {
          return Some(InvalidTarget);
        }
      }
      if client.allowedScopes.Length > 0 && q.scope != "" {
        var requested := SplitFields(q.scope);
        for i := 0 to |requested|
          invariant forall sc | sc in requested[..i] :: sc in client.allowedScopes[..]
        {
          var allowed := ContainsString(client.allowedScopes[..], requested[i]);
          if !allowed {
            return Some(ScopeMismatch);
          }
        }
        assert requested[..|requested|] == requested;
      }
      return None;
    }

    method ValidateToken(raw: string, now: Time) returns (r: Result<Token, Error>)
      requires Valid()
      ensures raw == "" ==> r == Err(InvalidRequest)
      ensures match ValidateRecord(raw, Found(env, store.View().tokens, raw), now)
              case Ok(t) => r.Ok? && fresh(r.value) && r.value.Record() == t
              case Err(e) => r == Err(e)
    {
      if raw == "" {
        return Err(InvalidRequest);
      }
      var found := store.GetTokenByHash(env.sha256Hex(raw));
      if found.Err? {
        return Err(TokenNotFound);
      }
      if found.value.revokedAt != null {
        return Err(TokenRevoked);
      }
      if now > found.value.expiresAt {
        return Err(TokenExpired);
      }
      return Ok(found.value);
    }

    method IntrospectToken(raw: string, now: Time) returns (r: IntrospectResponse)
      requires Valid()
      ensures r == Introspection(ValidateRecord(raw, Found(env, store.View().tokens, raw), now))
      ensures var h, tokens := env.sha256Hex(raw), store.View().tokens;
        if raw != "" && h in tokens && !tokens[h].revoked && now <= tokens[h].expiresAt
        then r == Active(tokens[h].clientId, tokens[h].resource, tokens[h].scope, tokens[h].expiresAt / 1_000_000_000)
        else r == Inactive
    {
      var v := ValidateToken(raw, now);
      if v.Err? {
        return Inactive;
      }
      return Active(v.value.clientId, v.value.resource, v.value.scope, v.value.expiresAt / SECOND);
    }

    /** Unknown and empty tokens are not errors (section 2.2 of RFC 7009). */
    method RevokeToken(raw: string, now: Time)
      requires Valid()
      modifies store`Meaning, store.tokens.Values
      ensures Valid()
      ensures store.View().clients == old(store.View()).clients
      ensures store.View().tokens ==
        if raw == "" then old(store.View()).tokens else Revoked(old(store.View()).tokens, env.sha256Hex(raw))
      ensures store.View().tokens.Keys == old(store.View()).tokens.Keys
      ensures forall h | h in old(store.View()).tokens ::
                store.View().tokens[h] == if raw != "" && h == env.sha256Hex(raw)
                  then old(store.View()).tokens[h].(revoked := true) else old(store.View()).tokens[h]
    {
      if raw == "" {
        return;
      }
      var err := store.RevokeToken(env.sha256Hex(raw), now);
    }
  }
}

/** Records of the OAuth package, its outside world, and the decisions that only compute. */
module Types {
  import opened Prelude
  import opened Text

  datatype Error =
    | InvalidRequest
    | InvalidClient
    | InvalidGrant
    | InvalidTarget
    | ScopeMismatch
    | TokenNotFound
    | TokenExpired
    | TokenRevoked
    | RandomFailed   // the random reader came up short
    | HashFailed     // bcrypt refused the cost

  /** `time.Duration`: 64-bit nanoseconds. */
  type Duration = d: int | -0x8000_0000_0000_0000 <= d <= 0x7FFF_FFFF_FFFF_FFFF

  const SECOND: int := 1_000_000_000

  /** Instants are integer nanoseconds. */
  type Time = int

  datatype ParsedUri = ParsedUri(scheme: string, fragment: string)

  /** Code the model does not look into: `url.Parse`, SHA-256 in hex, bcrypt (with cost and salt) and its comparison. */
  datatype Env = Env(
    parseUri: string -> Option<ParsedUri>,
    sha256Hex: string -> string,
    bcrypt: (string, int, nat) -> Option<string>,
    bcryptMatches: (string, string) -> bool)

  /** The one thing assumed of bcrypt: a hash verifies the secret it was made from. */
  ghost predicate BcryptSound(env: Env) {
    forall secret, cost, salt ::
      env.bcrypt(secret, cost, salt).Some? ==> env.bcryptMatches(env.bcrypt(secret, cost, salt).value, secret)
  }

  datatype ClientRecord = ClientRecord(
    id: string, secretHash: string, name: string,
    allowedResources: seq<string>, allowedScopes: seq<string>, createdAt: Time)

  datatype TokenRecord = TokenRecord(
    tokenHash: string, clientId: string, resource: string, scope: string,
    expiresAt: Time, createdAt: Time, revoked: bool)
  {
    /** `now.After(t.ExpiresAt)` */
    predicate IsExpired(now: Time) { now > expiresAt }
  }

  datatype RegisterRequest = RegisterRequest(name: string, allowedResources: seq<string>, allowedScopes: seq<string>)

  datatype RegisterResponse = RegisterResponse(
    clientId: string, clientSecret: string, name: string,
    allowedResources: seq<string>, allowedScopes: seq<string>, createdAt: Time)

  datatype TokenRequest = TokenRequest(
    grantType: string, clientId: string, clientSecret: string, resource: string, scope: string)

  datatype TokenResponse = TokenResponse(accessToken: string, expiresIn: int, resource: string, scope: string)

  datatype IntrospectResponse =
    | Inactive
    | Active(clientId: string, resource: string, scope: string, exp: int)   // `exp` in Unix seconds, rounded down

  /** `ValidateAbsoluteURI` succeeds: non-empty, parses, has a scheme and an empty fragment. */
  predicate AbsoluteUri(env: Env, raw: string) {
    && raw != ""
    && var u := env.parseUri(raw);
    && u.Some? && u.value.scheme != "" && u.value.fragment == ""
  }

  /** Why `RegisterClient` refuses a request before it draws anything. */
  function RegistrationError(env: Env, req: Option<RegisterRequest>): Option<Error> {
    if req.None? || TrimSpace(req.value.name) == "" then Some(InvalidRequest)
    else if exists r :: r in req.value.allowedResources && !AbsoluteUri(env, r) then Some(InvalidTarget)
    else None
  }

  /** Why `IssueToken` refuses a request before it looks at the store. */
  function RequestError(env: Env, req: Option<TokenRequest>): Option<Error> {
    if req.None? then Some(InvalidRequest)
    else if req.value.grantType != "client_credentials" then Some(InvalidGrant)
    else if req.value.resource != "" && !AbsoluteUri(env, req.value.resource) then Some(InvalidTarget)
    else None
  }

  /** Every field of the scope is one the client may ask for; an unrestricted client may ask for any. */
  predicate ScopeAllowed(allowed: seq<string>, scope: string) {
    allowed == [] || scope == "" || forall sc | sc in Fields(scope) :: sc in allowed
  }

  predicate ResourceAllowed(allowed: seq<string>, resource: string) {
    allowed == [] || (resource != "" && resource in allowed)
  }

  /** Why `IssueToken` refuses a request given the record of the client. */
  function ClientError(env: Env, client: ClientRecord, req: TokenRequest): Option<Error> {
    if !env.bcryptMatches(client.secretHash, req.clientSecret) then Some(InvalidClient)
    else if !ResourceAllowed(client.allowedResources, req.resource) then Some(InvalidTarget)
    else if !ScopeAllowed(client.allowedScopes, req.scope) then Some(ScopeMismatch)
    else None
  }

  /** The record saved for a granted request. */
  function TokenFor(env: Env, clientId: string, req: TokenRequest, raw: string, now: Time, ttl: Duration): TokenRecord {
    TokenRecord(env.sha256Hex(raw), clientId, req.resource, req.scope, now + ttl, now, false)
  }

  /** The decision of `ValidateToken` on the record it found for a presented token, at clock reading `now`. */
  function ValidateRecord(raw: string, found: Option<TokenRecord>, now: Time): Result<TokenRecord, Error> {
    if raw == "" then Err(InvalidRequest)
    else if found.None? then Err(TokenNotFound)
    else if found.value.revoked then Err(TokenRevoked)
    else if found.value.IsExpired(now) then Err(TokenExpired)
    else Ok(found.value)
  }

  /** Every error of `ValidateToken` means "inactive" (section 2.2 of RFC 7662). */
  function Introspection(validated: Result<TokenRecord, Error>): IntrospectResponse {
    match validated
    case Ok(t) => Active(t.clientId, t.resource, t.scope, t.expiresAt / SECOND)
    case Err(_) => Inactive
  }

  /** `RequireResource` lets a token through to a target; an unbound token goes anywhere. */
  predicate ResourceAdmits(token: TokenRecord, target: string) {
    token.resource == "" || target == token.resource
  }

  /** `RequireScope` lets a token through; a token without scope goes anywhere. */
  predicate ScopeAdmits(token: TokenRecord, required: string) {
    token.scope == "" || required in Fields(token.scope)
  }
}

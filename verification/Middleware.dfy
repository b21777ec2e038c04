/** The Gin handlers around the service: what they put in the request context, and whom they let through. */
module Middleware {
  import opened Prelude
  import opened Types
  import opened Text
  import opened Codec
  import opened TokenStore
  import opened TokenClient
  import Service

  const OK: nat := 200
  const BAD_REQUEST: nat := 400
  const UNAUTHORIZED: nat := 401
  const FORBIDDEN: nat := 403

  /** The part of `gin.Context` that the middleware reads and writes. */
  class Context {
    const authorization: string   // the Authorization header
    const id: string              // path parameter ":id"
    var token: Token?             // under TokenContextKey
    var status: nat
    var aborted: bool

    constructor (authorization: string, id: string)
      ensures this.authorization == authorization && this.id == id
      ensures token == null && status == 200 && !aborted
    {
      this.authorization, this.id := authorization, id;
      token, status, aborted := null, OK, false;
    }

    method Abort(code: nat)
      modifies this`status, this`aborted
      ensures aborted && status == code
    {
      status, aborted := code, true;
    }
  }

  // ---- Decisions ----------------------------------------------------------

  /** The token a request authenticates with, if it does. */
  function Authenticate(env: Env, tokens: map<string, TokenRecord>, header: string, now: Time): Option<TokenRecord> {
    match ParseAuthorization(header)
    case Bearer(raw) =>
      (match ValidateRecord(raw, Service.Found(env, tokens, raw), now)
       case Ok(t) => Some(t)
       case Err(_) => None)
    case _ => None
  }

  function TrimSlashes(s: string): string {
    if s != "" && s[|s| - 1] == '/' then TrimSlashes(s[..|s| - 1]) else s
  }

  /** `strings.TrimRight(s, "/")`: the slashes at the end go, and only these. */
  lemma {:induction false} TrimSlashesIs(s: string)
    ensures var t := TrimSlashes(s);
      && t <= s && (forall k | |t| <= k < |s| :: s[k] == '/') && (t != "" ==> t[|t| - 1] != '/')
    decreases |s|
  {
    if s != "" && s[|s| - 1] == '/' {
      TrimSlashesIs(s[..|s| - 1]);
    }
  }

  /** The sample server's `resourceExtractor` */
  function ResourceOf(base: string, id: string): string {
    TrimSlashes(base) + "/v1/certificates/" + id
  }

  /** A request on the `/v1` group gets past both middlewares. */
  predicate Admitted(env: Env, tokens: map<string, TokenRecord>, header: string, base: string, id: string, now: Time) {
    var token := Authenticate(env, tokens, header, now);
    token.Some? && ResourceAdmits(token.value, ResourceOf(base, id))
  }

  /** Whatever slashes end the configured base URL, the resource is its origin with the certificate's path. */
  lemma {:induction false} ResourceOfIs(origin: string, slashes: string, id: string)
    requires (forall k | 0 <= k < |slashes| :: slashes[k] == '/') && (origin != "" ==> origin[|origin| - 1] != '/')
    ensures ResourceOf(origin + slashes, id) == origin + "/v1/certificates/" + id
    decreases |slashes|
  {
    if slashes == "" {
      assert origin + slashes == origin;
    } else {
      assert (origin + slashes)[..|origin + slashes| - 1] == origin + slashes[..|slashes| - 1];
      ResourceOfIs(origin, slashes[..|slashes| - 1], id);
    }
  }

  /**
   Who gets past both middlewares: a Bearer token that is stored, not revoked
   and not past its expiry, and bound to nothing or to this certificate.
   */
  lemma AdmittedIff(env: Env, tokens: map<string, TokenRecord>, header: string, base: string, id: string, now: Time)
    ensures Admitted(env, tokens, header, base, id, now) <==>
      exists raw :: IsBearer(header, raw) && Opens(env, tokens, raw, TrimSlashes(base) + "/v1/certificates/" + id, now)
  {
    forall raw
      ensures ParseAuthorization(header) == Bearer(raw) <==> IsBearer(header, raw)
    {
      ParseAuthorizationIff(header, raw);
    }
    if Admitted(env, tokens, header, base, id, now) {
      assert IsBearer(header, ParseAuthorization(header).token);
    }
  }

  ghost predicate Opens(env: Env, tokens: map<string, TokenRecord>, raw: string, resource: string, now: Time) {
    && env.sha256Hex(raw) in tokens
    && var token := tokens[env.sha256Hex(raw)];
    && !token.revoked && now <= token.expiresAt && (token.resource == "" || token.resource == resource)
  }

  lemma ResourceOfInjective(base: string, x: string, y: string)
    ensures ResourceOf(base, x) == ResourceOf(base, y) <==> x == y
  {
    var n := |TrimSlashes(base) + "/v1/certificates/"|;
    assert ResourceOf(base, x)[n..] == x && ResourceOf(base, y)[n..] == y;
  }

  /** A token bound to one certificate reaches that certificate and no other. */
  lemma BoundTokenReachesOne(token: TokenRecord, base: string, bound: string, id: string)
    requires token.resource == ResourceOf(base, bound)
    ensures ResourceAdmits(token, ResourceOf(base, id)) <==> id == bound
  {
    ResourceOfInjective(base, id, bound);
    assert |ResourceOf(base, bound)| > 0;
  }

  predicate NoSlash(s: string) { '/' !in s }

  /** What follows the certificate in the paths of the protected routes. */
  const SUFFIXES: set<string> := {"", "/challenges/http-01/start", "/challenges/http-01/complete"}

  /** The path is that of a protected route with `id` for its parameter. */
  predicate OnRoute(path: string, id: string) {
    id != "" && NoSlash(id) && exists suffix :: suffix in SUFFIXES && path == "/v1/certificates/" + id + suffix
  }

  /** The router finds one parameter in a path: what stands between the prefix and the next slash. */
  lemma RouteHasOneId(path: string, x: string, y: string)
    requires OnRoute(path, x) && OnRoute(path, y)
    ensures x == y
  {
    var s, t :| s in SUFFIXES && t in SUFFIXES
      && path == "/v1/certificates/" + x + s && path == "/v1/certificates/" + y + t;
    var n := |"/v1/certificates/"|;
    assert path[n..] == x + s && path[n..] == y + t;
    SlashEndsId(x, s, y, t);
  }

  lemma SlashEndsId(x: string, s: string, y: string, t: string)
    requires x + s == y + t && NoSlash(x) && NoSlash(y)
    requires (s == "" || s[0] == '/') && (t == "" || t[0] == '/')
    ensures x == y
  {
    FirstSlash(x, s);
    FirstSlash(y, t);
    assert (x + s)[..|x|] == x && (y + t)[..|y|] == y;
  }

  lemma FirstSlash(x: string, s: string)
    requires NoSlash(x) && (s == "" || s[0] == '/')
    ensures IndexOf(x + s, '/') == |x|
  {
    assert s != "" ==> (x + s)[|x|] == '/';
    assert forall k | 0 <= k < |x| :: (x + s)[k] == x[k];
  }

  /** A text that ends in a slash and a slash-free word ends so in one way only. */
  lemma LastSegment(a: string, x: string, b: string, y: string)
    requires a + "/" + x == b + "/" + y && NoSlash(x) && NoSlash(y)
    ensures a == b && x == y
  {
    var s, t := a + "/" + x, b + "/" + y;
    assert s[|a|] == '/' && t[|b|] == '/';
    assert forall k | |a| < k < |s| :: s[k] == x[k - |a| - 1];
    assert forall k | |b| < k < |t| :: t[k] == y[k - |b| - 1];
    assert |a| == |b|;
    assert s[..|a|] == a && t[..|b|] == b && s[|a| + 1..] == x && t[|b| + 1..] == y;
  }

  lemma SubRouteDiffers(origin: string, base: string, id: string, action: string)
    requires NoSlash(id) && NoSlash(action)
    ensures origin + "/v1/certificates/" + id + ("/challenges/http-01/" + action) != base + "/v1/certificates/" + id
  {
    var a, b := origin + "/v1/certificates/" + id + "/challenges/http-01", base + "/v1/certificates";
    if origin + "/v1/certificates/" + id + ("/challenges/http-01/" + action) == base + "/v1/certificates/" + id {
      assert a + "/" + action == origin + "/v1/certificates/" + id + ("/challenges/http-01/" + action);
      assert b + "/" + id == base + "/v1/certificates/" + id;
      LastSegment(a, action, b, id);
      EndsDiffer(origin + "/v1/certificates/" + id, base);
    }
  }

  lemma EndsDiffer(a: string, b: string)
    ensures a + "/challenges/http-01" != b + "/v1/certificates"
  {
    var s, t := a + "/challenges/http-01", b + "/v1/certificates";
    assert s[|s| - 1] == '1' && t[|t| - 1] == 's';
  }

  /**
   Without a fixed resource `RoundTrip` asks for a token bound to the whole
   request path.  On the protected routes that is the resource the middleware
   checks exactly for the certificate itself, and only if the configured base
   URL is the origin: on the challenge sub-routes such a token is refused.
   */
  lemma DefaultResourceFits(scheme: string, host: string, base: string, id: string, suffix: string, token: TokenRecord)
    requires NoSlash(id) && suffix in SUFFIXES && |scheme| > 0
    requires token.resource == TargetResource("", Some(Url.Url(scheme, host, "/v1/certificates/" + id + suffix)))
    ensures ResourceAdmits(token, ResourceOf(base, id)) <==> suffix == "" && TrimSlashes(base) == scheme + "://" + host
  {
    var origin, trimmed := scheme + "://" + host, TrimSlashes(base);
    assert token.resource == origin + "/v1/certificates/" + id + suffix;
    if suffix == "" {
      SameTail(origin, trimmed, "/v1/certificates/" + id);
      assert origin + "/v1/certificates/" + id + suffix == origin + ("/v1/certificates/" + id);
      assert ResourceOf(base, id) == trimmed + ("/v1/certificates/" + id);
    } else {
      var action := if suffix == "/challenges/http-01/start" then "start" else "complete";
      assert suffix == "/challenges/http-01/" + action;
      SubRouteDiffers(origin, trimmed, id, action);
    }
  }

  lemma SameTail(a: string, b: string, tail: string)
    ensures a + tail == b + tail <==> a == b
  {
    if a + tail == b + tail {
      assert |a| == |b|;
      assert (a + tail)[..|a|] == a && (b + tail)[..|b|] == b;
    }
  }

  // ---- Middleware ---------------------------------------------------------

  method TokenAuthMiddleware(svc: Service.Service, c: Context, now: Time)
    requires svc.Valid() && c !in svc.store.Repr && !c.aborted
    modifies c
    ensures match Authenticate(svc.env, svc.store.View().tokens, c.authorization, now)
            case Some(t) => !c.aborted && c.status == old(c.status) && c.token != null && c.token.Record() == t
            case None => c.aborted && c.status == 401 && c.token == old(c.token)
    ensures svc.Valid() && svc.store.View() == old(svc.store.View())
    ensures c.token == old(c.token) || fresh(c.token)
  {
    var header := ParseAuthorization(c.authorization);
    if !header.Bearer? {
      c.Abort(UNAUTHORIZED);
      return;
    }
    var found := svc.ValidateToken(header.token, now);
    if found.Err? {
      c.Abort(UNAUTHORIZED);
      return;
    }
    c.token := found.value;
  }

  method RequireResource(c: Context, expected: string)
    requires !c.aborted
    modifies c
    ensures c.token == old(c.token)
    ensures c.token == null ==> c.aborted && c.status == 401
    ensures c.token != null && (c.token.resource == "" || c.token.resource == expected) ==>
              !c.aborted && c.status == old(c.status)
    ensures c.token != null && c.token.resource != "" && c.token.resource != expected ==> c.aborted && c.status == 403
  {
    if c.token == null {
      c.Abort(UNAUTHORIZED);
      return;
    }
    if c.token.resource != "" {
      if expected != c.token.resource {
        c.Abort(FORBIDDEN);
      }
    }
  }

  method RequireScope(c: Context, required: string)
    requires !c.aborted
    modifies c
    ensures c.token == old(c.token)
    ensures c.token == null ==> c.aborted && c.status == 401
    ensures c.token != null && (c.token.scope == "" || IsWord(c.token.scope, required)) ==>
              !c.aborted && c.status == old(c.status)
    ensures c.token != null && c.token.scope != "" && !IsWord(c.token.scope, required) ==>
              c.aborted && c.status == 403
  {
    if c.token != null {
      FieldsAreWords(c.token.scope, required);
    }
    if c.token == null {
      c.Abort(UNAUTHORIZED);
      return;
    }
    if c.token.scope != "" {
      var scopes := SplitFields(c.token.scope);
      var hasScope := false;
      for i := 0 to |scopes|
        invariant !hasScope && required !in scopes[..i]
      {
        if scopes[i] == required {
          hasScope := true;
          break;
        }
      }
      if !hasScope {
        c.Abort(FORBIDDEN);
      }
    }
  }

  /** The chain in front of the certificate handlers. */
  method Admit(svc: Service.Service, c: Context, base: string, now: Time) returns (admitted: bool)
    requires svc.Valid() && c !in svc.store.Repr && !c.aborted
    modifies c
    ensures admitted == Admitted(svc.env, svc.store.View().tokens, c.authorization, base, c.id, now)
    ensures admitted == !c.aborted
    ensures svc.Valid() && svc.store.View() == old(svc.store.View())
  {
    TokenAuthMiddleware(svc, c, now);
    if c.aborted {
      return false;
    }
    RequireResource(c, ResourceOf(base, c.id));
    return !c.aborted;
  }

  // ---- The token endpoint -------------------------------------------------

  /** The request the endpoint acts on: Basic credentials override those of the body. */
  function Effective(body: TokenRequest, authorization: string): TokenRequest {
    match ParseBasic(authorization)
    case Some((id, secret)) => body.(clientId := id, clientSecret := secret)
    case None => body
  }

  /**
   What `fetchToken` puts in the body, and in the header, comes out as its
   request, whatever credentials the body holds.
   */
  lemma FetchRequestArrives(clientId: string, secret: string, key: string, body: TokenRequest)
    requires IsBytes(clientId) && IsBytes(secret) && ':' !in clientId
    requires body.grantType == "client_credentials" && body.resource == key && body.scope == ""
    ensures Effective(body, BasicHeader(clientId, secret)) == FetchRequest(clientId, secret, key)
    ensures Effective(body, BasicHeader(clientId, secret)) ==
            TokenRequest("client_credentials", clientId, secret, key, "")
  {
    BasicRoundTrip(clientId, secret);
  }

  /** Without Basic credentials the body's own count. */
  lemma BodyCounts(body: TokenRequest, authorization: string)
    requires |authorization| < 6 || !EqualFold(authorization[..6], "Basic ")
    ensures Effective(body, authorization) == body
  {
  }

  /** `body` is the request the body binds to, if it binds. */
  method TokenHandler(svc: Service.Service, body: Option<TokenRequest>, authorization: string, now: Time)
    returns (status: nat, response: Option<TokenResponse>)
    requires svc.Valid()
    modifies svc`random, svc.store
    ensures svc.Valid() && fresh(svc.store.Repr - old(svc.store.Repr))
    ensures body.None? ==>
      status == 400 && response == None && svc.store.View() == old(svc.store.View())
        && svc.random == old(svc.random)
    ensures body.Some? ==>
      var o := Service.IssueOutcome(svc.env, svc.tokenTTL, Some(Effective(body.value, authorization)),
                                    old(svc.store.View()), old(svc.random), now);
      && svc.store.View() == o.view
      && match o.result
         case Ok(r) => status == 200 && response == Some(r)
         case Err(InvalidClient) => status == 401 && response == None
         case Err(_) => status == 400 && response == None
  {
    if body.None? {
      return BAD_REQUEST, None;
    }
    var req := body.value;
    var basic := ParseBasic(authorization);
    if basic.Some? {
      req := req.(clientId := basic.value.0);
      req := req.(clientSecret := basic.value.1);
    }
    var issued := svc.IssueToken(Some(req), now);
    match issued
    case Ok(r) => return OK, Some(r);
    case Err(InvalidClient) => return UNAUTHORIZED, None;
    case Err(_) => return BAD_REQUEST, None;
  }
}

/**
 The authorization server under concurrency: any number of calls, each a
 sequence of atomic store operations and clock readings, in any interleaving.
 A run is a sequence of steps; `At` is the state after some of them.
 */
module Server {
  import opened Prelude
  import opened Types
  import opened Text
  import Service

  /** `inPlay` is the set of token strings that are drawn or presented in the run. */
  datatype Config = Config(env: Env, ttl: Duration, inPlay: string -> bool)

  /** SHA-256 tells the tokens of a run apart, and hashes are not empty. */
  ghost predicate CollisionFree(cfg: Config) {
    && (forall a, b | cfg.inPlay(a) && cfg.inPlay(b) && cfg.env.sha256Hex(a) == cfg.env.sha256Hex(b) :: a == b)
    && (forall a :: cfg.env.sha256Hex(a) != "")
  }

  datatype Issue = Issue(req: TokenRequest, client: ClientRecord, at: Time)

  datatype Call =
    | Granted(req: TokenRequest, client: ClientRecord)                         // checks passed on the copied client
    | Drawn(req: TokenRequest, client: ClientRecord, raw: string, now: Time)   // token drawn, clock read, not yet saved
    | Issued(req: TokenRequest, response: TokenResponse)
    | Refused(req: TokenRequest, error: Error)
    | Looked(raw: string, found: Option<TokenRecord>)                          // ValidateToken holds its copy
    | Validated(raw: string, result: Result<TokenRecord, Error>)

  /** The store, the clock, the calls in progress, and the history the laws speak of. */
  datatype State = State(
    clients: map<string, ClientRecord>,
    tokens: map<string, TokenRecord>,
    clock: Time,
    calls: map<nat, Call>,
    drawn: set<string>,
    issued: map<string, Issue>,
    revoked: set<string>)

  datatype Step =
    | Tick(clock: Time)
    | Register(reg: RegisterRequest, id: string, secret: string, hash: string)
    | Request(call: nat, req: TokenRequest)
    | Draw(call: nat, raw: string)
    | DrawFails(call: nat)
    | Save(call: nat)
    | LookUp(call: nat, raw: string)
    | Decide(call: nat)
    | Revoke(raw: string)

  /** What the environment may do: clocks do not run backwards, draws do not repeat. */
  ghost predicate Enabled(cfg: Config, s: State, step: Step) {
    match step
    case Tick(clock) => s.clock <= clock
    case Register(reg, id, secret, hash) =>
      RegistrationError(cfg.env, Some(reg)).None? && cfg.env.bcryptMatches(hash, secret)
    case Request(call, req) => call !in s.calls
    case Draw(call, raw) => call in s.calls && s.calls[call].Granted? && cfg.inPlay(raw) && raw != "" && raw !in s.drawn
    case DrawFails(call) => call in s.calls && s.calls[call].Granted?
    case Save(call) => call in s.calls && s.calls[call].Drawn?
    case LookUp(call, raw) => call !in s.calls && cfg.inPlay(raw)
    case Decide(call) => call in s.calls && s.calls[call].Looked?
    case Revoke(raw) => cfg.inPlay(raw)
  }

  function StoredClient(s: State, reg: RegisterRequest, id: string, hash: string): ClientRecord {
    ClientRecord(id, hash, reg.name, reg.allowedResources, reg.allowedScopes, s.clock)
  }

  ghost function Apply(cfg: Config, s: State, step: Step): State
    requires Enabled(cfg, s, step)
  {
    match step
    case Tick(clock) => s.(clock := clock)
    case Register(reg, id, secret, hash) =>
      if id == "" || id in s.clients then s else s.(clients := s.clients[id := StoredClient(s, reg, id, hash)])
    case Request(call, req) =>
      var refused := Service.GrantError(cfg.env, Some(req), s.clients);
      s.(calls := s.calls[call := if refused.Some? then Refused(req, refused.value)
                                  else Granted(req, s.clients[req.clientId])])
    case Draw(call, raw) =>
      var c := s.calls[call];
      s.(calls := s.calls[call := Drawn(c.req, c.client, raw, s.clock)], drawn := s.drawn + {raw})
    case DrawFails(call) => s.(calls := s.calls[call := Refused(s.calls[call].req, RandomFailed)])
    case Save(call) =>
      var c := s.calls[call];
      var token := TokenFor(cfg.env, c.client.id, c.req, c.raw, c.now, cfg.ttl);
      if token.tokenHash == "" then s.(calls := s.calls[call := Refused(c.req, InvalidRequest)])
      else
        s.(tokens := s.tokens[token.tokenHash := token],
           issued := s.issued[c.raw := Issue(c.req, c.client, c.now)],
           calls := s.calls[call := Issued(c.req, TokenResponse(c.raw, cfg.ttl / SECOND, c.req.resource, c.req.scope))])
    case LookUp(call, raw) => s.(calls := s.calls[call := Looked(raw, Service.Found(cfg.env, s.tokens, raw))])
    case Decide(call) =>
      var c := s.calls[call];
      s.(calls := s.calls[call := Validated(c.raw, ValidateRecord(c.raw, c.found, s.clock))])
    case Revoke(raw) =>
      if raw == "" then s
      else s.(tokens := Service.Revoked(s.tokens, cfg.env.sha256Hex(raw)),
              revoked := if raw in s.issued then s.revoked + {raw} else s.revoked)
  }

  const START: State := State(map[], map[], 0, map[], {}, map[], {})

  // ---- What every step keeps ----------------------------------------------

  type Clients = map<string, ClientRecord>

  /** The request passed every check against the record the store holds now. */
  ghost predicate Authorised(env: Env, clients: Clients, req: TokenRequest, client: ClientRecord) {
    && req.clientId in clients && clients[req.clientId] == client && client.id == req.clientId
    && RequestError(env, Some(req)).None?
    && ClientError(env, client, req).None?
  }

  /** Call states as they can occur, given what was drawn and issued so far. */
  ghost predicate CallOk(cfg: Config, clients: Clients, clock: Time, drawn: set<string>, issued: map<string, Issue>,
                         c: Call) {
    match c
    case Granted(req, client) => Authorised(cfg.env, clients, req, client)
    case Drawn(req, client, raw, now) =>
      && Authorised(cfg.env, clients, req, client) && now <= clock
      && raw in drawn && raw !in issued && cfg.inPlay(raw) && raw != ""
    case Issued(req, response) =>
      && response.accessToken in issued && issued[response.accessToken].req == req
      && response.expiresIn == cfg.ttl / SECOND
    case Refused(_, _) => true
    case Looked(_, _) => true
    case Validated(_, _) => true
  }

  /** The stored record of an issued token. */
  ghost function RecordOf(cfg: Config, raw: string, i: Issue, revoked: bool): TokenRecord {
    TokenFor(cfg.env, i.client.id, i.req, raw, i.at, cfg.ttl).(revoked := revoked)
  }

  ghost predicate ClientsOk(clients: Clients) {
    forall id | id in clients :: clients[id].id == id && id != ""
  }

  ghost predicate CallsOk(cfg: Config, s: State) {
    forall c | c in s.calls :: CallOk(cfg, s.clients, s.clock, s.drawn, s.issued, s.calls[c])
  }

  ghost predicate DrawsDistinct(calls: map<nat, Call>) {
    forall c, d | c in calls && d in calls && c != d && calls[c].Drawn? && calls[d].Drawn? ::
      calls[c].raw != calls[d].raw
  }

  ghost predicate IssueOk(cfg: Config, clients: Clients, clock: Time, drawn: set<string>, raw: string, i: Issue) {
    && raw in drawn && cfg.inPlay(raw) && raw != ""
    && i.at <= clock && Authorised(cfg.env, clients, i.req, i.client)
  }

  ghost predicate IssuedOk(cfg: Config, s: State) {
    && s.revoked <= s.issued.Keys
    && forall raw | raw in s.issued :: IssueOk(cfg, s.clients, s.clock, s.drawn, raw, s.issued[raw])
  }

  /** The token map holds exactly the records of the issued tokens, each under its hash. */
  ghost predicate TokensOk(cfg: Config, tokens: map<string, TokenRecord>, issued: map<string, Issue>,
                           revoked: set<string>) {
    && (forall raw | raw in issued ::
          && cfg.env.sha256Hex(raw) in tokens
          && tokens[cfg.env.sha256Hex(raw)] == RecordOf(cfg, raw, issued[raw], raw in revoked))
    && (forall h | h in tokens :: exists raw :: raw in issued && cfg.env.sha256Hex(raw) == h)
  }

  ghost predicate Inv(cfg: Config, s: State) {
    && ClientsOk(s.clients) && CallsOk(cfg, s) && DrawsDistinct(s.calls) && IssuedOk(cfg, s)
    && TokensOk(cfg, s.tokens, s.issued, s.revoked)
  }

  /** Growing the client map or the clock disturbs nothing. */
  lemma GrowthKeepsInv(cfg: Config, s: State, clients: Clients, clock: Time)
    requires Inv(cfg, s) && s.clock <= clock && ClientsOk(clients)
    requires forall id | id in s.clients :: id in clients && clients[id] == s.clients[id]
    ensures Inv(cfg, s.(clients := clients, clock := clock))
  {
    forall c | c in s.calls
      ensures CallOk(cfg, clients, clock, s.drawn, s.issued, s.calls[c])
    {
      assert CallOk(cfg, s.clients, s.clock, s.drawn, s.issued, s.calls[c]);
    }
    forall raw | raw in s.issued
      ensures IssueOk(cfg, clients, clock, s.drawn, raw, s.issued[raw])
    {
      assert IssueOk(cfg, s.clients, s.clock, s.drawn, raw, s.issued[raw]);
    }
  }

  /** Neither does moving one call on, as long as the call is in order. */
  lemma CallKeepsInv(cfg: Config, s: State, call: nat, c: Call, drawn: set<string>)
    requires Inv(cfg, s) && s.drawn <= drawn && CallOk(cfg, s.clients, s.clock, drawn, s.issued, c)
    requires c.Drawn? ==> c.raw !in s.drawn
    ensures Inv(cfg, s.(calls := s.calls[call := c], drawn := drawn))
  {
    var calls := s.calls[call := c];
    forall d | d in calls
      ensures CallOk(cfg, s.clients, s.clock, drawn, s.issued, calls[d])
      ensures d != call && calls[d].Drawn? ==> calls[d].raw in s.drawn
    {
      assert d == call || CallOk(cfg, s.clients, s.clock, s.drawn, s.issued, s.calls[d]);
    }
    forall raw | raw in s.issued
      ensures IssueOk(cfg, s.clients, s.clock, drawn, raw, s.issued[raw])
    {
      assert IssueOk(cfg, s.clients, s.clock, s.drawn, raw, s.issued[raw]);
    }
  }

  lemma StepKeepsInv(cfg: Config, s: State, step: Step)
    requires CollisionFree(cfg) && Inv(cfg, s) && Enabled(cfg, s, step)
    ensures Inv(cfg, Apply(cfg, s, step))
  {
    match step
    case Tick(clock) => GrowthKeepsInv(cfg, s, s.clients, clock);
    case Register(_, _, _, _) => RegisterKeepsInv(cfg, s, step);
    case Save(call) => SaveKeepsInv(cfg, s, call);
    case Revoke(raw) => RevokeKeepsTokens(cfg, s, raw);
    case _ => CallStepKeepsInv(cfg, s, step);
  }

  lemma RegisterKeepsInv(cfg: Config, s: State, step: Step)
    requires Inv(cfg, s) && Enabled(cfg, s, step) && step.Register?
    ensures Inv(cfg, Apply(cfg, s, step))
  {
    GrowthKeepsInv(cfg, s, Apply(cfg, s, step).clients, s.clock);
  }

  lemma CallStepKeepsInv(cfg: Config, s: State, step: Step)
    requires Inv(cfg, s) && Enabled(cfg, s, step)
    requires step.Request? || step.Draw? || step.DrawFails? || step.LookUp? || step.Decide?
    ensures Inv(cfg, Apply(cfg, s, step))
  {
    var s' := Apply(cfg, s, step);
    IssuedFacts(cfg, s);
    CallStepIsOk(cfg, s, step);
    assert s' == s.(calls := s.calls[step.call := s'.calls[step.call]], drawn := s'.drawn);
    CallKeepsInv(cfg, s, step.call, s'.calls[step.call], s'.drawn);
  }

  /** The call that such a step moves on is in order. */
  lemma CallStepIsOk(cfg: Config, s: State, step: Step)
    requires CallsOk(cfg, s) && Enabled(cfg, s, step)
    requires step.Request? || step.Draw? || step.DrawFails? || step.LookUp? || step.Decide?
    requires ClientsOk(s.clients) && forall raw | raw in s.issued :: raw in s.drawn
    ensures var s' := Apply(cfg, s, step);
      && step.call in s'.calls && s.drawn <= s'.drawn
      && CallOk(cfg, s.clients, s.clock, s'.drawn, s.issued, s'.calls[step.call])
      && (s'.calls[step.call].Drawn? ==> s'.calls[step.call].raw !in s.drawn)
  {
    assert step.call in s.calls ==> CallOk(cfg, s.clients, s.clock, s.drawn, s.issued, s.calls[step.call]);
  }

  lemma SaveKeepsInv(cfg: Config, s: State, call: nat)
    requires CollisionFree(cfg) && Inv(cfg, s) && Enabled(cfg, s, Save(call))
    ensures Inv(cfg, Apply(cfg, s, Save(call)))
  {
    var c := s.calls[call];
    var i := Issue(c.req, c.client, c.now);
    assert CallOk(cfg, s.clients, s.clock, s.drawn, s.issued, c);
    IssuedFacts(cfg, s);
    SaveKeepsTokens(cfg, s.tokens, s.issued, s.revoked, c.raw, i);
    SaveKeepsCalls(cfg, s, call, Apply(cfg, s, Save(call)).calls[call]);
    SaveKeepsIssued(cfg, s, c.raw, i);
  }

  lemma SaveKeepsIssued(cfg: Config, s: State, raw: string, i: Issue)
    requires IssuedOk(cfg, s) && IssueOk(cfg, s.clients, s.clock, s.drawn, raw, i)
    ensures IssuedOk(cfg, s.(issued := s.issued[raw := i]))
  {
  }

  lemma IssuedFacts(cfg: Config, s: State)
    requires IssuedOk(cfg, s)
    ensures forall r | r in s.issued :: cfg.inPlay(r) && r in s.drawn
  {
    assert forall r | r in s.issued :: IssueOk(cfg, s.clients, s.clock, s.drawn, r, s.issued[r]);
  }

  lemma SaveKeepsCalls(cfg: Config, s: State, call: nat, saved: Call)
    requires CallsOk(cfg, s) && DrawsDistinct(s.calls) && call in s.calls && s.calls[call].Drawn? && !saved.Drawn?
    requires var c := s.calls[call];
             CallOk(cfg, s.clients, s.clock, s.drawn, s.issued[c.raw := Issue(c.req, c.client, c.now)], saved)
    ensures var c := s.calls[call]; var calls := s.calls[call := saved];
            && DrawsDistinct(calls)
            && CallsOk(cfg, s.(issued := s.issued[c.raw := Issue(c.req, c.client, c.now)], calls := calls))
  {
    var c := s.calls[call];
    var issued := s.issued[c.raw := Issue(c.req, c.client, c.now)];
    assert CallOk(cfg, s.clients, s.clock, s.drawn, s.issued, c);
    forall d | d in s.calls && d != call
      ensures CallOk(cfg, s.clients, s.clock, s.drawn, issued, s.calls[d])
    {
      assert CallOk(cfg, s.clients, s.clock, s.drawn, s.issued, s.calls[d]);
    }
  }

  lemma SaveKeepsTokens(cfg: Config, tokens: map<string, TokenRecord>, issued: map<string, Issue>, revoked: set<string>,
                        raw: string, i: Issue)
    requires CollisionFree(cfg) && TokensOk(cfg, tokens, issued, revoked)
    requires cfg.inPlay(raw) && raw !in issued && raw !in revoked && forall r | r in issued :: cfg.inPlay(r)
    ensures TokensOk(cfg, tokens[cfg.env.sha256Hex(raw) := RecordOf(cfg, raw, i, false)], issued[raw := i], revoked)
  {
    var tokens' := tokens[cfg.env.sha256Hex(raw) := RecordOf(cfg, raw, i, false)];
    forall h | h in tokens'
      ensures exists r :: r in issued[raw := i] && cfg.env.sha256Hex(r) == h
    {
      if h == cfg.env.sha256Hex(raw) {
        assert raw in issued[raw := i];
      } else {
        var r :| r in issued && cfg.env.sha256Hex(r) == h;
        assert r in issued[raw := i];
      }
    }
  }

  lemma RevokeKeepsTokens(cfg: Config, s: State, raw: string)
    requires CollisionFree(cfg) && Inv(cfg, s) && Enabled(cfg, s, Revoke(raw))
    ensures Inv(cfg, Apply(cfg, s, Revoke(raw)))
  {
    if raw != "" {
      IssuedFacts(cfg, s);
      MarkingKeepsTokens(cfg, s.tokens, s.issued, s.revoked, raw);
    }
  }

  lemma MarkingKeepsTokens(cfg: Config, tokens: map<string, TokenRecord>, issued: map<string, Issue>,
                           revoked: set<string>, raw: string)
    requires CollisionFree(cfg) && TokensOk(cfg, tokens, issued, revoked)
    requires cfg.inPlay(raw) && forall r | r in issued :: cfg.inPlay(r)
    ensures TokensOk(cfg, Service.Revoked(tokens, cfg.env.sha256Hex(raw)), issued,
                     if raw in issued then revoked + {raw} else revoked)
  {
    var h := cfg.env.sha256Hex(raw);
    if h in tokens {
      var r :| r in issued && cfg.env.sha256Hex(r) == h;
      assert r == raw;
    }
  }

  // ---- Runs ---------------------------------------------------------------

  /** The state after the first `n` steps; a step that is not enabled is not part of any run. */
  ghost function At(cfg: Config, steps: seq<Step>, n: nat): State
    requires n <= |steps|
  {
    if n == 0 then START
    else
      var s := At(cfg, steps, n - 1);
      if Enabled(cfg, s, steps[n - 1]) then Apply(cfg, s, steps[n - 1]) else s
  }

  ghost predicate Taken(cfg: Config, steps: seq<Step>, n: nat)
    requires n < |steps|
  {
    Enabled(cfg, At(cfg, steps, n), steps[n])
  }

  ghost predicate Run(cfg: Config, steps: seq<Step>) {
    CollisionFree(cfg) && forall n | 0 <= n < |steps| :: Taken(cfg, steps, n)
  }

  lemma AtStep(cfg: Config, steps: seq<Step>, n: nat)
    requires Run(cfg, steps) && n < |steps|
    ensures Enabled(cfg, At(cfg, steps, n), steps[n])
    ensures At(cfg, steps, n + 1) == Apply(cfg, At(cfg, steps, n), steps[n])
  {
    assert Taken(cfg, steps, n);
  }

  lemma {:induction false} RunKeepsInv(cfg: Config, steps: seq<Step>, n: nat)
    requires Run(cfg, steps) && n <= |steps|
    ensures Inv(cfg, At(cfg, steps, n))
  {
    if n > 0 {
      RunKeepsInv(cfg, steps, n - 1);
      AtStep(cfg, steps, n - 1);
      StepKeepsInv(cfg, At(cfg, steps, n - 1), steps[n - 1]);
    }
  }

  /**
   What never goes back: clients, issues and revocations stay, the clock does
   not retreat, calls keep their answers.
   */
  ghost predicate Grows(s: State, t: State) {
    && (forall id | id in s.clients :: id in t.clients && t.clients[id] == s.clients[id])
    && (forall raw | raw in s.issued :: raw in t.issued && t.issued[raw] == s.issued[raw])
    && s.revoked <= t.revoked && s.drawn <= t.drawn && s.clock <= t.clock
    && (forall c | c in s.calls :: c in t.calls && (s.calls[c].Validated? ==> t.calls[c] == s.calls[c]))
    && (forall c | c in s.calls && s.calls[c].Looked? :: t.calls[c] == s.calls[c] || t.calls[c].Validated?)
  }

  lemma GrowsTransitive(s: State, t: State, u: State)
    requires Grows(s, t) && Grows(t, u)
    ensures Grows(s, u)
  {
  }

  lemma StepGrows(cfg: Config, s: State, step: Step)
    requires CallsOk(cfg, s) && Enabled(cfg, s, step)
    ensures Grows(s, Apply(cfg, s, step))
  {
    if step.Save? {
      SaveGrows(cfg, s, step.call);
    }
  }

  lemma SaveGrows(cfg: Config, s: State, call: nat)
    requires CallsOk(cfg, s) && Enabled(cfg, s, Save(call))
    ensures Grows(s, Apply(cfg, s, Save(call)))
  {
    assert CallOk(cfg, s.clients, s.clock, s.drawn, s.issued, s.calls[call]);
  }

  /** One more step. */
  lemma GrowsOn(cfg: Config, steps: seq<Step>, s: State, n: nat)
    requires Run(cfg, steps) && 0 < n <= |steps| && Grows(s, At(cfg, steps, n - 1))
    ensures Grows(s, At(cfg, steps, n))
  {
    RunKeepsInv(cfg, steps, n - 1);
    AtStep(cfg, steps, n - 1);
    StepGrows(cfg, At(cfg, steps, n - 1), steps[n - 1]);
    GrowsTransitive(s, At(cfg, steps, n - 1), At(cfg, steps, n));
  }

  lemma {:induction false} RunGrows(cfg: Config, steps: seq<Step>, i: nat, j: nat)
    requires Run(cfg, steps) && i <= j <= |steps|
    ensures Grows(At(cfg, steps, i), At(cfg, steps, j))
    decreases j
  {
    if i < j {
      RunGrows(cfg, steps, i, j - 1);
      GrowsOn(cfg, steps, At(cfg, steps, i), j);
    }
  }

  // ---- Validation against the ghost specification -------------------------

  /** Issued, not revoked, and not past its expiry. */
  ghost predicate Live(cfg: Config, s: State, raw: string, now: Time) {
    raw in s.issued && raw !in s.revoked && now <= s.issued[raw].at + cfg.ttl
  }

  /** The store-based decision is the history-based one, error by error. */
  lemma ValidateRefinesSpec(cfg: Config, s: State, raw: string, now: Time)
    requires CollisionFree(cfg) && Inv(cfg, s) && cfg.inPlay(raw)
    ensures var r := ValidateRecord(raw, Service.Found(cfg.env, s.tokens, raw), now);
      && (r.Ok? <==> Live(cfg, s, raw, now))
      && (r.Ok? ==> r.value == RecordOf(cfg, raw, s.issued[raw], false))
      && (raw in s.revoked ==> r == Err(TokenRevoked))
      && (raw in s.issued && raw !in s.revoked && !Live(cfg, s, raw, now) ==> r == Err(TokenExpired))
      && (raw !in s.issued && raw != "" ==> r == Err(TokenNotFound))
      && (raw == "" ==> r == Err(InvalidRequest))
    ensures Introspection(ValidateRecord(raw, Service.Found(cfg.env, s.tokens, raw), now)).Active?
      <==> Live(cfg, s, raw, now)
  {
    HashKnown(cfg, s, raw);
    assert raw in s.issued ==> IssueOk(cfg, s.clients, s.clock, s.drawn, raw, s.issued[raw]);
  }

  /**
   What introspection answers, from the history of issues: the client, the
   resource and the scope of the request that was granted, and when its
   lifetime ends; for anything else that the token is inactive.
   */
  lemma IntrospectionIsHistory(cfg: Config, s: State, raw: string, now: Time)
    requires CollisionFree(cfg) && Inv(cfg, s) && cfg.inPlay(raw)
    ensures Introspection(ValidateRecord(raw, Service.Found(cfg.env, s.tokens, raw), now)) ==
              if raw in s.issued && raw !in s.revoked && now <= s.issued[raw].at + cfg.ttl
              then Active(s.issued[raw].client.id, s.issued[raw].req.resource, s.issued[raw].req.scope,
                          (s.issued[raw].at + cfg.ttl) / 1_000_000_000)
              else Inactive
  {
    ValidateRefinesSpec(cfg, s, raw, now);
  }

  lemma HashKnown(cfg: Config, s: State, raw: string)
    requires CollisionFree(cfg) && Inv(cfg, s) && cfg.inPlay(raw)
    ensures cfg.env.sha256Hex(raw) in s.tokens <==> raw in s.issued
  {
    IssuedFacts(cfg, s);
    if cfg.env.sha256Hex(raw) in s.tokens {
      var r :| r in s.issued && cfg.env.sha256Hex(r) == cfg.env.sha256Hex(raw);
      assert r == raw;
    }
  }

  /** A validation answers for the revocations known when it looked and for the clock when it decided. */
  lemma ValidationOverRun(cfg: Config, steps: seq<Step>, i: nat, j: nat, call: nat, raw: string)
    requires Run(cfg, steps) && i < j < |steps|
    requires steps[i] == LookUp(call, raw) && steps[j] == Decide(call)
    ensures var s, c := At(cfg, steps, i), At(cfg, steps, j + 1).calls;
      && call in c
      && c[call] == Validated(raw, ValidateRecord(raw, Service.Found(cfg.env, s.tokens, raw), At(cfg, steps, j).clock))
      && (c[call].result.Ok? <==> Live(cfg, s, raw, At(cfg, steps, j).clock))
  {
    var s, t := At(cfg, steps, i), At(cfg, steps, j);
    RunKeepsInv(cfg, steps, i);
    AtStep(cfg, steps, i);
    RunGrows(cfg, steps, i + 1, j);
    AtStep(cfg, steps, j);
    LookUpThenDecide(cfg, s, t, call, raw);
    ValidateRefinesSpec(cfg, s, raw, t.clock);
  }

  lemma LookUpThenDecide(cfg: Config, s: State, t: State, call: nat, raw: string)
    requires Enabled(cfg, s, LookUp(call, raw)) && Grows(Apply(cfg, s, LookUp(call, raw)), t)
    requires Enabled(cfg, t, Decide(call))
    ensures call in Apply(cfg, t, Decide(call)).calls
    ensures Apply(cfg, t, Decide(call)).calls[call] ==
              Validated(raw, ValidateRecord(raw, Service.Found(cfg.env, s.tokens, raw), t.clock))
  {
    var found := Looked(raw, Service.Found(cfg.env, s.tokens, raw));
    assert Apply(cfg, s, LookUp(call, raw)).calls[call] == found;
    assert t.calls[call] == found;
  }

  /** Revocation is final: every validation that looks after it fails, whatever happens in between. */
  lemma RevokedForever(cfg: Config, steps: seq<Step>, m: nat, i: nat, j: nat, call: nat, raw: string)
    requires Run(cfg, steps) && m < i < j < |steps|
    requires steps[m] == Revoke(raw) && raw in At(cfg, steps, m).issued
    requires steps[i] == LookUp(call, raw) && steps[j] == Decide(call)
    ensures call in At(cfg, steps, j + 1).calls
    ensures At(cfg, steps, j + 1).calls[call] == Validated(raw, Err(TokenRevoked))
  {
    RevokedStays(cfg, steps, m, i, raw);
    RunKeepsInv(cfg, steps, i);
    AtStep(cfg, steps, i);
    RevokedIsRefused(cfg, At(cfg, steps, i), raw, At(cfg, steps, j).clock);
    ValidationOverRun(cfg, steps, i, j, call, raw);
  }

  lemma RevokedStays(cfg: Config, steps: seq<Step>, m: nat, i: nat, raw: string)
    requires Run(cfg, steps) && m < i <= |steps| && steps[m] == Revoke(raw) && raw in At(cfg, steps, m).issued
    ensures raw in At(cfg, steps, i).revoked
  {
    RevokedAfter(cfg, steps, m, raw);
    RunGrows(cfg, steps, m + 1, i);
  }

  lemma RevokedIsRefused(cfg: Config, s: State, raw: string, now: Time)
    requires CollisionFree(cfg) && Inv(cfg, s) && cfg.inPlay(raw) && raw in s.revoked
    ensures ValidateRecord(raw, Service.Found(cfg.env, s.tokens, raw), now) == Err(TokenRevoked)
  {
    ValidateRefinesSpec(cfg, s, raw, now);
  }

  lemma RevokedAfter(cfg: Config, steps: seq<Step>, m: nat, raw: string)
    requires Run(cfg, steps) && m < |steps| && steps[m] == Revoke(raw) && raw in At(cfg, steps, m).issued
    ensures raw in At(cfg, steps, m + 1).revoked
  {
    var s := At(cfg, steps, m);
    RunKeepsInv(cfg, steps, m);
    AtStep(cfg, steps, m);
    assert IssueOk(cfg, s.clients, s.clock, s.drawn, raw, s.issued[raw]);
  }

  /** Expiry is final: once past it, no validation that decides later succeeds, not even one that looked before. */
  lemma ExpiredForever(cfg: Config, steps: seq<Step>, m: nat, i: nat, j: nat, call: nat, raw: string)
    requires Run(cfg, steps) && m <= j && i < j < |steps|
    requires raw in At(cfg, steps, m).issued && At(cfg, steps, m).clock > At(cfg, steps, m).issued[raw].at + cfg.ttl
    requires steps[i] == LookUp(call, raw) && steps[j] == Decide(call)
    ensures call in At(cfg, steps, j + 1).calls && At(cfg, steps, j + 1).calls[call].Validated?
    ensures At(cfg, steps, j + 1).calls[call].result.Err?
  {
    RunGrows(cfg, steps, m, j);
    RunGrows(cfg, steps, i, j);
    ValidationOverRun(cfg, steps, i, j, call, raw);
  }

  // ---- Provenance ---------------------------------------------------------

  /** Step `m` is the one that saves `raw` for the request in `issue`. */
  ghost predicate SavesAt(cfg: Config, steps: seq<Step>, m: nat, raw: string, issue: Issue)
    requires m < |steps|
  {
    var s := At(cfg, steps, m);
    && steps[m].Save? && steps[m].call in s.calls
    && s.calls[steps[m].call] == Drawn(issue.req, issue.client, raw, issue.at)
  }

  lemma NewIssueIsSave(cfg: Config, s: State, step: Step, raw: string)
    requires Enabled(cfg, s, step) && raw !in s.issued && raw in Apply(cfg, s, step).issued
    ensures var issue := Apply(cfg, s, step).issued[raw];
      step.Save? && s.calls[step.call] == Drawn(issue.req, issue.client, raw, issue.at)
  {
  }

  lemma OldIssueKept(cfg: Config, s: State, step: Step, raw: string)
    requires CallsOk(cfg, s) && Enabled(cfg, s, step) && raw in s.issued
    ensures raw in Apply(cfg, s, step).issued && Apply(cfg, s, step).issued[raw] == s.issued[raw]
  {
    StepGrows(cfg, s, step);
  }

  lemma {:induction false} IssuedBySave(cfg: Config, steps: seq<Step>, n: nat, raw: string) returns (m: nat)
    requires Run(cfg, steps) && n <= |steps| && raw in At(cfg, steps, n).issued
    ensures m < n && SavesAt(cfg, steps, m, raw, At(cfg, steps, n).issued[raw])
  {
    if n == 0 {
      assert false;
    }
    var s := At(cfg, steps, n - 1);
    AtStep(cfg, steps, n - 1);
    if raw in s.issued {
      m := IssuedBySave(cfg, steps, n - 1, raw);
      RunKeepsInv(cfg, steps, n - 1);
      OldIssueKept(cfg, s, steps[n - 1], raw);
    } else {
      NewIssueIsSave(cfg, s, steps[n - 1], raw);
      m := n - 1;
    }
  }

  lemma SavedOnce(cfg: Config, steps: seq<Step>, m: nat, k: nat, raw: string, issue: Issue, issue': Issue)
    requires Run(cfg, steps) && m < |steps| && k < |steps|
    requires SavesAt(cfg, steps, m, raw, issue) && SavesAt(cfg, steps, k, raw, issue')
    ensures m == k
  {
    if m < k {
      SavedIsIssued(cfg, steps, m, k, raw, issue, issue');
    } else if k < m {
      SavedIsIssued(cfg, steps, k, m, raw, issue', issue);
    }
  }

  lemma SavedIsIssued(cfg: Config, steps: seq<Step>, m: nat, k: nat, raw: string, issue: Issue, issue': Issue)
    requires Run(cfg, steps) && m < k < |steps|
    requires SavesAt(cfg, steps, m, raw, issue)
    ensures !SavesAt(cfg, steps, k, raw, issue')
  {
    RunKeepsInv(cfg, steps, k);
    RunGrows(cfg, steps, m + 1, k);
    var t := At(cfg, steps, k);
    assert raw in t.issued;
    assert forall c | c in t.calls :: CallOk(cfg, t.clients, t.clock, t.drawn, t.issued, t.calls[c]);
  }

  lemma NewClientIsRegistration(cfg: Config, s: State, step: Step, id: string)
    requires Enabled(cfg, s, step) && id !in s.clients && id in Apply(cfg, s, step).clients
    ensures step.Register? && step.id == id
    ensures Apply(cfg, s, step).clients[id] == StoredClient(s, step.reg, id, step.hash)
  {
  }

  lemma OldClientKept(cfg: Config, s: State, step: Step, id: string)
    requires Enabled(cfg, s, step) && id in s.clients
    ensures id in Apply(cfg, s, step).clients && Apply(cfg, s, step).clients[id] == s.clients[id]
  {
  }

  lemma {:induction false} ClientFromRegistration(cfg: Config, steps: seq<Step>, n: nat, id: string) returns (k: nat)
    requires Run(cfg, steps) && n <= |steps| && id in At(cfg, steps, n).clients
    ensures k < n && steps[k].Register? && steps[k].id == id
    ensures At(cfg, steps, n).clients[id] == StoredClient(At(cfg, steps, k), steps[k].reg, id, steps[k].hash)
  {
    if n == 0 {
      assert false;
    }
    var s := At(cfg, steps, n - 1);
    AtStep(cfg, steps, n - 1);
    if id in s.clients {
      k := ClientFromRegistration(cfg, steps, n - 1, id);
      OldClientKept(cfg, s, steps[n - 1], id);
    } else {
      NewClientIsRegistration(cfg, s, steps[n - 1], id);
      k := n - 1;
    }
  }

  /** No list holds every string. */
  lemma {:induction false} LongerThanAll(list: seq<string>) returns (s: string)
    ensures s !in list && forall x | x in list :: |x| < |s|
    decreases |list|
  {
    if list == [] {
      s := "";
    } else {
      var rest := LongerThanAll(list[1..]);
      s := rest + list[0] + "x";
    }
  }

  /** The scopes that a restricted client's token is admitted for are the client's exactly when it names some. */
  lemma ScopesAdmittedIff(token: TokenRecord, allowed: seq<string>)
    requires allowed != [] && ScopeAllowed(allowed, token.scope)
    ensures (forall sc | ScopeAdmits(token, sc) :: sc in allowed) <==> token.scope != ""
  {
    var other := LongerThanAll(allowed);
  }

  /**
   A token that validation accepts was saved by exactly one issue, for a
   client some registration created and whose secret the request presented.
   Its resource is in that client's list, unchanged since registration, when
   there is one, and so is every target the token is admitted to.  Every scope
   it is admitted for is in the client's list, when there is one, if and only
   if the token's own scope is not empty: a client may always ask for none.
   */
  lemma Provenance(cfg: Config, steps: seq<Step>, n: nat, raw: string, now: Time, target: string)
    returns (m: nat, k: nat)
    requires Run(cfg, steps) && n <= |steps| && cfg.inPlay(raw)
    requires ValidateRecord(raw, Service.Found(cfg.env, At(cfg, steps, n).tokens, raw), now).Ok?
    ensures raw in At(cfg, steps, n).issued
    ensures
      var token := ValidateRecord(raw, Service.Found(cfg.env, At(cfg, steps, n).tokens, raw), now).value;
      var issue := At(cfg, steps, n).issued[raw];
      && m < n && SavesAt(cfg, steps, m, raw, issue)
      && (forall m' | 0 <= m' < |steps| && SavesAt(cfg, steps, m', raw, issue) :: m' == m)
      && k < n && steps[k].Register? && steps[k].id == issue.req.clientId == token.clientId
      && var reg := steps[k].reg;
      && cfg.env.bcryptMatches(steps[k].hash, issue.req.clientSecret)
      && token.resource == issue.req.resource && token.scope == issue.req.scope
      && (reg.allowedResources != [] ==> token.resource in reg.allowedResources)
      && (reg.allowedResources != [] && ResourceAdmits(token, target) ==> target in reg.allowedResources)
      && (reg.allowedScopes != [] ==>
            ((forall sc | ScopeAdmits(token, sc) :: sc in reg.allowedScopes) <==> token.scope != ""))
  {
    var s := At(cfg, steps, n);
    RunKeepsInv(cfg, steps, n);
    ValidateRefinesSpec(cfg, s, raw, now);
    m := IssuedBySave(cfg, steps, n, raw);
    forall m' | 0 <= m' < |steps| && SavesAt(cfg, steps, m', raw, s.issued[raw])
      ensures m' == m
    {
      SavedOnce(cfg, steps, m', m, raw, s.issued[raw], s.issued[raw]);
    }
    assert IssueOk(cfg, s.clients, s.clock, s.drawn, raw, s.issued[raw]);
    k := ClientFromRegistration(cfg, steps, n, s.issued[raw].req.clientId);
    if steps[k].reg.allowedScopes != [] {
      ScopesAdmittedIff(RecordOf(cfg, raw, s.issued[raw], false), steps[k].reg.allowedScopes);
    }
  }
}

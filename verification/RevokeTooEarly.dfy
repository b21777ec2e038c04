/**
 When the sweep of a revocation is final: exactly when the token had been
 drawn by its end.  Before that, a token can still be issued, cached and
 accepted, although `Revoke` has returned without error.
 */
module RevokeTooEarly {
  import opened Prelude
  import opened Types
  import opened Text
  import opened Coupled
  import opened CoupledRuns
  import opened CoupledLaws
  import C = CacheSteps
  import S = Server
  import Service

  // ---- From the end of a sweep on -----------------------------------------

  /** The server would grant this client a token for `key`. */
  ghost predicate Grantable(cfg: Config, s: S.State, key: string, token: string) {
    && Service.GrantError(cfg.server.env, Some(Token(cfg, key)), s.clients) == None
    && cfg.server.inPlay(token) && token != ""
  }

  lemma {:induction false} PathKeepsBarred(cfg: Config, s: System, more: seq<Step>, t: System, token: string)
    requires 0 < cfg.server.ttl && S.CollisionFree(cfg.server) && Inv(cfg, s) && Path(cfg, s, more, t)
             && token in s.barred
    ensures Inv(cfg, t) && token in t.barred
    decreases |more|
  {
    if more != [] {
      StepKeepsInv(cfg, s, more[0]);
      StepGrows(cfg, s, more[0]);
      PathKeepsBarred(cfg, Apply(cfg, s, more[0]), more[1..], t, token);
    }
  }

  /** Late enough, no entry is fresh. */
  function Later(sys: System, key: string, buffer: Duration): Time {
    var clock := sys.server.clock;
    if key in sys.client.cache && sys.client.cache[key].expiresAt - buffer > clock
    then sys.client.cache[key].expiresAt - buffer else clock
  }

  lemma LaterIsStale(sys: System, key: string, buffer: Duration)
    ensures sys.server.clock <= Later(sys, key, buffer)
    ensures !C.Hit(sys.client.cache, key, Later(sys, key, buffer), buffer)
  {
  }

  /** With the lock free, a token not drawn yet can be issued, cached and accepted. */
  lemma CanStillBeIssued(cfg: Config, sys: System, key: string, token: string) returns (last: System)
    requires 0 < cfg.server.ttl && S.CollisionFree(cfg.server) && Inv(cfg, sys) && LockFree(sys.client)
    requires Grantable(cfg, sys.server, key, token) && token !in sys.server.drawn
    ensures Leads(cfg, sys, last) && key in last.client.cache && last.client.cache[key].token == token
    ensures ValidateRecord(token, Service.Found(cfg.server.env, last.server.tokens, token), last.server.clock).Ok?
  {
    var t := Fresh(sys.client.pcs.Keys);
    var now := Later(sys, key, cfg.buffer);
    var later := sys.(clock := now, server := sys.server.(clock := now));
    LaterIsStale(sys, key, cfg.buffer);
    Stay(cfg, sys);
    Then(cfg, sys, sys, Tick(now, now), later);
    StepKeepsInv(cfg, sys, Tick(now, now));
    FlightHoldsLock(cfg, sys);
    last := CanFetch(cfg, sys, later, t, key, token);
    var more :| Path(cfg, sys, more, last);
    PathKeepsInv(cfg, sys, more, last);
    NewIsAccepted(cfg, last.server, token);
  }

  /** Just issued, a token is accepted. */
  lemma NewIsAccepted(cfg: Config, s: S.State, token: string)
    requires 0 < cfg.server.ttl && S.CollisionFree(cfg.server) && S.Inv(cfg.server, s)
    requires token in s.issued && s.issued[token].at == s.clock && token !in s.revoked
    ensures ValidateRecord(token, Service.Found(cfg.server.env, s.tokens, token), s.clock).Ok?
  {
    S.IssuedFacts(cfg.server, s);
    S.ValidateRefinesSpec(cfg.server, s, token, s.clock);
  }

  /** From `s` on the token is never in the cache. */
  ghost predicate StaysOut(cfg: Config, s: System, token: string) {
    forall t :: Leads(cfg, s, t) ==> NoEntry(t.client.cache, token)
  }

  /**
   The sweep of `Revoke(token)` is final, whatever happens from its end on, if
   and only if the token had been drawn by then, for a client that may be
   granted tokens at all.
   */
  lemma SweepIsFinal(cfg: Config, steps: seq<Step>, token: string, key: string)
    requires Run(cfg, steps) && steps != [] && SweepEndsAt(cfg, steps, |steps| - 1, token)
    requires Grantable(cfg, At(cfg, steps, |steps|).server, key, token)
    ensures token in At(cfg, steps, |steps| - 1).server.drawn <==> StaysOut(cfg, At(cfg, steps, |steps|), token)
  {
    var sys := At(cfg, steps, |steps|);
    EndOfSweep(cfg, steps, |steps| - 1, token);
    FinalFrom(cfg, sys, token, key);
  }

  /** In any state of a run with the lock free and the token barred if it has been drawn. */
  lemma FinalFrom(cfg: Config, sys: System, token: string, key: string)
    requires 0 < cfg.server.ttl && S.CollisionFree(cfg.server) && Inv(cfg, sys) && LockFree(sys.client)
    requires Grantable(cfg, sys.server, key, token) && (token in sys.server.drawn ==> token in sys.barred)
    ensures token in sys.server.drawn <==> StaysOut(cfg, sys, token)
  {
    if token in sys.server.drawn {
      forall t | Leads(cfg, sys, t)
        ensures NoEntry(t.client.cache, token)
      {
        var more :| Path(cfg, sys, more, t);
        PathKeepsBarred(cfg, sys, more, t, token);
      }
    } else {
      var last := CanStillBeIssued(cfg, sys, key, token);
      assert !NoEntry(last.client.cache, token);
    }
  }

  // ---- From the handling of a revocation on -------------------------------

  /** Not issued, and either not drawn or in a call that has yet to save it and can still do so in time. */
  ghost predicate StillToCome(cfg: Config, s: S.State, token: string) {
    && token !in s.issued
    && (token in s.drawn ==> exists c :: PendingInTime(cfg, s, c, token))
  }

  ghost predicate PendingInTime(cfg: Config, s: S.State, c: nat, token: string) {
    c in s.calls && s.calls[c].Drawn? && s.calls[c].raw == token && s.clock <= s.calls[c].now + cfg.server.ttl
  }

  /** The server accepts the token now. */
  ghost predicate Accepted(cfg: Config, s: S.State, token: string) {
    ValidateRecord(token, Service.Found(cfg.server.env, s.tokens, token), s.clock).Ok?
  }

  /** From `s` on the server never accepts the token. */
  ghost predicate NeverAccepted(cfg: Config, s: System, token: string) {
    forall t :: Leads(cfg, s, t) ==> !Accepted(cfg, t.server, token)
  }

  /** Drawn, and whatever has been or will be saved of it is revoked or too old. */
  ghost predicate Spent(cfg: Config, s: S.State, token: string) {
    && token in s.drawn
    && (token in s.issued ==> token in s.revoked || s.clock > s.issued[token].at + cfg.server.ttl)
    && forall c :: !PendingInTime(cfg, s, c, token)
  }

  lemma SpentStays(cfg: Config, s: S.State, step: S.Step, token: string)
    requires S.Inv(cfg.server, s) && S.Enabled(cfg.server, s, step) && Spent(cfg, s, token)
    ensures Spent(cfg, S.Apply(cfg.server, s, step), token)
  {
    S.StepGrows(cfg.server, s, step);
    if step.Save? {
      assert !PendingInTime(cfg, s, step.call, token);
    }
    IssueStaysOld(cfg, s, step, token);
    forall c
      ensures !PendingInTime(cfg, S.Apply(cfg.server, s, step), c, token)
    {
      assert !PendingInTime(cfg, s, c, token);
      NoneBecomesPending(cfg, s, step, c, token);
    }
  }

  /** What has been drawn is not drawn again, and time does not run backwards. */
  lemma NoneBecomesPending(cfg: Config, s: S.State, step: S.Step, c: nat, token: string)
    requires S.Enabled(cfg.server, s, step) && token in s.drawn && !PendingInTime(cfg, s, c, token)
    ensures !PendingInTime(cfg, S.Apply(cfg.server, s, step), c, token)
  {
  }

  lemma IssueStaysOld(cfg: Config, s: S.State, step: S.Step, token: string)
    requires S.CallsOk(cfg.server, s) && S.Enabled(cfg.server, s, step)
    requires token in s.issued ==> token in s.revoked || s.clock > s.issued[token].at + cfg.server.ttl
    requires step.Save? ==> !PendingInTime(cfg, s, step.call, token)
    ensures var s' := S.Apply(cfg.server, s, step);
      token in s'.issued ==> token in s'.revoked || s'.clock > s'.issued[token].at + cfg.server.ttl
  {
    S.StepGrows(cfg.server, s, step);
    if token !in s.issued && token in S.Apply(cfg.server, s, step).issued {
      S.NewIssueIsSave(cfg.server, s, step, token);
    }
  }

  lemma {:induction false} PathKeepsSpent(cfg: Config, s: System, more: seq<Step>, t: System, token: string)
    requires 0 < cfg.server.ttl && S.CollisionFree(cfg.server) && Inv(cfg, s) && Path(cfg, s, more, t)
    requires Spent(cfg, s.server, token)
    ensures Inv(cfg, t) && Spent(cfg, t.server, token)
    decreases |more|
  {
    if more != [] {
      StepKeepsInv(cfg, s, more[0]);
      if ServerStep(cfg, s, more[0]).Some? {
        SpentStays(cfg, s.server, ServerStep(cfg, s, more[0]).value, token);
      }
      PathKeepsSpent(cfg, Apply(cfg, s, more[0]), more[1..], t, token);
    }
  }

  lemma AcceptedIsLive(cfg: Config, s: S.State, token: string)
    requires S.CollisionFree(cfg.server) && S.Inv(cfg.server, s) && cfg.server.inPlay(token)
    ensures Accepted(cfg, s, token) <==> S.Live(cfg.server, s, token, s.clock)
  {
    S.ValidateRefinesSpec(cfg.server, s, token, s.clock);
  }

  lemma SpentIsNeverAccepted(cfg: Config, sys: System, token: string)
    requires 0 < cfg.server.ttl && S.CollisionFree(cfg.server) && Inv(cfg, sys) && cfg.server.inPlay(token)
    requires Spent(cfg, sys.server, token)
    ensures NeverAccepted(cfg, sys, token)
  {
    forall t | Leads(cfg, sys, t)
      ensures !Accepted(cfg, t.server, token)
    {
      var more :| Path(cfg, sys, more, t);
      PathKeepsSpent(cfg, sys, more, t, token);
      AcceptedIsLive(cfg, t.server, token);
    }
  }

  /** A step of the server that is no tick. */
  lemma ServerActs(cfg: Config, from: System, sys: System, action: S.Step, s: S.State)
    requires Leads(cfg, from, sys) && S.Enabled(cfg.server, sys.server, action) && !action.Tick?
    requires s == S.Apply(cfg.server, sys.server, action)
    ensures Leads(cfg, from, sys.(server := s))
  {
    Then(cfg, from, sys, Server(action), sys.(server := s));
  }

  /** A call that has drawn the token saves it, and the server accepts it. */
  lemma SavedIsAccepted(cfg: Config, from: System, sys: System, c: nat, token: string)
    requires 0 < cfg.server.ttl && S.CollisionFree(cfg.server) && S.Inv(cfg.server, sys.server) && Leads(cfg, from, sys)
    requires PendingInTime(cfg, sys.server, c, token)
    ensures !NeverAccepted(cfg, from, token)
  {
    var s := sys.server;
    var s' := S.Apply(cfg.server, s, S.Save(c));
    S.StepKeepsInv(cfg.server, s, S.Save(c));
    ServerActs(cfg, from, sys, S.Save(c), s');
    SavedIsLive(cfg, s, c, token);
    AcceptedIsLive(cfg, s', token);
    assert Accepted(cfg, sys.(server := s').server, token);
  }

  lemma SavedIsLive(cfg: Config, s: S.State, c: nat, token: string)
    requires S.CollisionFree(cfg.server) && S.Inv(cfg.server, s) && PendingInTime(cfg, s, c, token)
    ensures cfg.server.inPlay(token)
    ensures var s' := S.Apply(cfg.server, s, S.Save(c)); S.Live(cfg.server, s', token, s'.clock)
  {
    assert S.CallOk(cfg.server, s.clients, s.clock, s.drawn, s.issued, s.calls[c]);
  }

  ghost predicate Grants(cfg: Config, s: S.State, req: TokenRequest) {
    Service.GrantError(cfg.server.env, Some(req), s.clients) == None
  }

  /** A new call draws the token. */
  lemma DrawnAnew(cfg: Config, sys: System, token: string, req: TokenRequest) returns (c: nat, last: System)
    requires 0 < cfg.server.ttl && S.CollisionFree(cfg.server) && S.Inv(cfg.server, sys.server)
    requires Grants(cfg, sys.server, req) && cfg.server.inPlay(token) && token != "" && token !in sys.server.drawn
    ensures Leads(cfg, sys, last) && S.Inv(cfg.server, last.server) && PendingInTime(cfg, last.server, c, token)
  {
    c := NewCall(sys.server.calls);
    Stay(cfg, sys);
    var asked := S.Apply(cfg.server, sys.server, S.Request(c, req));
    S.StepKeepsInv(cfg.server, sys.server, S.Request(c, req));
    ServerActs(cfg, sys, sys, S.Request(c, req), asked);
    var drawn := S.Apply(cfg.server, asked, S.Draw(c, token));
    S.StepKeepsInv(cfg.server, asked, S.Draw(c, token));
    ServerActs(cfg, sys, sys.(server := asked), S.Draw(c, token), drawn);
    last := sys.(server := asked).(server := drawn);
  }

  /** What the server can still be brought to accept, in a state in which it has just handled the revocation. */
  lemma NeverAcceptedIff(cfg: Config, sys: System, token: string, req: TokenRequest)
    requires 0 < cfg.server.ttl && S.CollisionFree(cfg.server) && Inv(cfg, sys)
    requires Grants(cfg, sys.server, req) && cfg.server.inPlay(token) && token != ""
    requires token in sys.server.issued ==> token in sys.server.revoked
    ensures NeverAccepted(cfg, sys, token) <==> !StillToCome(cfg, sys.server, token)
  {
    Stay(cfg, sys);
    if StillToCome(cfg, sys.server, token) {
      if token in sys.server.drawn {
        var c :| PendingInTime(cfg, sys.server, c, token);
        SavedIsAccepted(cfg, sys, sys, c, token);
      } else {
        var c, last := DrawnAnew(cfg, sys, token, req);
        SavedIsAccepted(cfg, sys, last, c, token);
      }
    } else {
      IsSpent(cfg, sys.server, token);
      SpentIsNeverAccepted(cfg, sys, token);
    }
  }

  lemma PendingIsNotIssued(cfg: Config, s: S.State, c: nat, token: string)
    requires S.Inv(cfg.server, s) && PendingInTime(cfg, s, c, token)
    ensures token !in s.issued
  {
    assert S.CallOk(cfg.server, s.clients, s.clock, s.drawn, s.issued, s.calls[c]);
  }

  lemma IsSpent(cfg: Config, s: S.State, token: string)
    requires S.Inv(cfg.server, s) && !StillToCome(cfg, s, token) && (token in s.issued ==> token in s.revoked)
    ensures Spent(cfg, s, token)
  {
    S.IssuedFacts(cfg.server, s);
    forall c
      ensures !PendingInTime(cfg, s, c, token)
    {
      if PendingInTime(cfg, s, c, token) {
        PendingIsNotIssued(cfg, s, c, token);
      }
    }
  }

  /**
   From the moment at which the server handles `Revoke(token)`, it never
   accepts the token, whatever happens, if and only if the token was not
   still to come, for a server that grants somebody tokens at all.  (The empty
   string is never a token.)
   */
  lemma HandlingIsFinal(cfg: Config, steps: seq<Step>, r: C.Tid, req: TokenRequest)
    requires Run(cfg, steps) && steps != [] && steps[|steps| - 1] == RevokeArrives(r)
    requires Grants(cfg, At(cfg, steps, |steps|).server, req)
    ensures r in At(cfg, steps, |steps| - 1).client.pcs && At(cfg, steps, |steps| - 1).client.pcs[r].Revoking?
    ensures var token := At(cfg, steps, |steps| - 1).client.pcs[r].token;
      NeverAccepted(cfg, At(cfg, steps, |steps|), token) <==>
        token == "" || !StillToCome(cfg, At(cfg, steps, |steps| - 1).server, token)
  {
    RunKeepsInv(cfg, steps, |steps| - 1);
    AtStep(cfg, steps, |steps| - 1);
    HandlingIsFinalAt(cfg, At(cfg, steps, |steps| - 1), r, req);
  }

  lemma HandlingIsFinalAt(cfg: Config, sys: System, r: C.Tid, req: TokenRequest)
    requires 0 < cfg.server.ttl && S.CollisionFree(cfg.server) && Inv(cfg, sys) && Enabled(cfg, sys, RevokeArrives(r))
    requires Grants(cfg, Apply(cfg, sys, RevokeArrives(r)).server, req)
    ensures r in sys.client.pcs && sys.client.pcs[r].Revoking?
    ensures var token := sys.client.pcs[r].token;
      NeverAccepted(cfg, Apply(cfg, sys, RevokeArrives(r)), token) <==>
        token == "" || !StillToCome(cfg, sys.server, token)
  {
    RevokeArrivesIs(cfg, sys, r);
    RevokeArrivesKeepsInv(cfg, sys, r);
    var token := sys.client.pcs[r].token;
    RevokeMarks(cfg, sys.server, token);
    if token != "" {
      HandledAlike(cfg, sys.server, token);
      NeverAcceptedIff(cfg, Apply(cfg, sys, RevokeArrives(r)), token, req);
    }
  }

  /** The revocation itself neither issues nor draws. */
  lemma HandledAlike(cfg: Config, s: S.State, token: string)
    requires S.Enabled(cfg.server, s, S.Revoke(token))
    ensures var s' := S.Apply(cfg.server, s, S.Revoke(token));
      && s'.issued == s.issued && (StillToCome(cfg, s', token) <==> StillToCome(cfg, s, token))
  {
    var s' := S.Apply(cfg.server, s, S.Revoke(token));
    assert forall c :: PendingInTime(cfg, s', c, token) <==> PendingInTime(cfg, s, c, token);
  }

  // ---- And it happens -----------------------------------------------------

  ghost predicate Setting(cfg: Config, hash: string, token: string) {
    && 0 < cfg.server.ttl && S.CollisionFree(cfg.server) && cfg.server.inPlay(token) && token != ""
    && cfg.clientId != "" && cfg.server.env.bcryptMatches(hash, cfg.secret)
  }

  /** The server knows one client and nothing else. */
  function Registered(cfg: Config, hash: string): S.State {
    S.START.(clients := map[cfg.clientId := ClientRecord(cfg.clientId, hash, "app", [], [], 0)])
  }

  function Quiet(cfg: Config, hash: string): System { START.(server := Registered(cfg, hash)) }

  lemma Registers(cfg: Config, hash: string, token: string)
    requires Setting(cfg, hash, token)
    ensures Leads(cfg, START, Quiet(cfg, hash)) && CanGrant(cfg, Registered(cfg, hash), "", token)
  {
    assert TrimLeft("app") == "app" && TrimSpace("app") == "app";
    Stay(cfg, START);
    Then(cfg, START, START, Server(S.Register(RegisterRequest("app", [], []), cfg.clientId, cfg.secret, hash)),
         Quiet(cfg, hash));
  }

  /** Goroutine 0 at `pc`, and what the server has recorded of its request. */
  function Revoker(cfg: Config, hash: string, pc: C.Pc, writer: Option<C.Tid>, served: map<C.Tid, bool>): System {
    With(Quiet(cfg, hash).(served := served), 0, pc, {}, writer)
  }

  /** It revokes the token; the server knows nothing of it and says yes. */
  lemma Revokes(cfg: Config, hash: string, token: string)
    requires Setting(cfg, hash, token)
    ensures Leads(cfg, START, Revoker(cfg, hash, C.Sweeper(token), None, map[0 := false]))
  {
    Registers(cfg, hash, token);
    var revoking := C.Revoking(token);
    ClientMoves(cfg, START, Quiet(cfg, hash), Quiet(cfg, hash), 0, C.CallRevoke(0, token), revoking, {}, None);
    IsHandled(cfg, hash, token);
    SaysYes(cfg, hash, token);
  }

  lemma IsHandled(cfg: Config, hash: string, token: string)
    requires Setting(cfg, hash, token) && Leads(cfg, START, Revoker(cfg, hash, C.Revoking(token), None, map[]))
    ensures Leads(cfg, START, Revoker(cfg, hash, C.Revoking(token), None, map[0 := false]))
  {
    Then(cfg, START, Revoker(cfg, hash, C.Revoking(token), None, map[]), RevokeArrives(0),
         Revoker(cfg, hash, C.Revoking(token), None, map[0 := false]));
  }

  lemma SaysYes(cfg: Config, hash: string, token: string)
    requires Leads(cfg, START, Revoker(cfg, hash, C.Revoking(token), None, map[0 := false]))
    ensures Leads(cfg, START, Revoker(cfg, hash, C.Sweeper(token), None, map[0 := false]))
  {
    Confirms(cfg, START, Quiet(cfg, hash).(served := map[0 := false]), 0, token);
  }

  lemma Sweeps(cfg: Config, hash: string, token: string)
    requires Setting(cfg, hash, token)
    ensures Leads(cfg, START, Revoker(cfg, hash, C.Swept(token), None, map[0 := false]))
  {
    Revokes(cfg, hash, token);
    BeginsSweep(cfg, hash, token);
    EndsSweep(cfg, hash, token);
  }

  lemma EndsSweep(cfg: Config, hash: string, token: string)
    requires Leads(cfg, START, Revoker(cfg, hash, C.Sweeping(token, {}), Some(0), map[0 := false]))
    ensures Leads(cfg, START, Revoker(cfg, hash, C.Swept(token), None, map[0 := false]))
  {
    SweepEnds(cfg, START, Quiet(cfg, hash).(served := map[0 := false]), 0, token);
  }

  lemma BeginsSweep(cfg: Config, hash: string, token: string)
    requires Leads(cfg, START, Revoker(cfg, hash, C.Sweeper(token), None, map[0 := false]))
    ensures Leads(cfg, START, Revoker(cfg, hash, C.Sweeping(token, {}), Some(0), map[0 := false]))
  {
    assert C.START.cache.Keys == {};
    GoesOn(cfg, START, Quiet(cfg, hash).(served := map[0 := false]), 0, C.Sweeper(token), {}, None,
           C.Lock(0), C.Sweeping(token, {}), {}, Some(0));
  }

  /**
   A run from the beginning: `Revoke` of a string that is issued only
   afterwards has returned without error in `swept`, and yet a later
   `GetToken` caches the token, and the server accepts it.
   */
  lemma RevokedThenCached(cfg: Config, hash: string, token: string) returns (swept: System, cached: System)
    requires Setting(cfg, hash, token)
    ensures Leads(cfg, START, swept) && Leads(cfg, swept, cached)
    ensures 0 in swept.client.pcs && swept.client.pcs[0] == C.Swept(token) && 0 in swept.served && !swept.served[0]
    ensures "" in cached.client.cache && cached.client.cache[""].token == token
    ensures ValidateRecord(token, Service.Found(cfg.server.env, cached.server.tokens, token), cached.server.clock).Ok?
  {
    swept := Revoker(cfg, hash, C.Swept(token), None, map[0 := false]);
    Sweeps(cfg, hash, token);
    Registers(cfg, hash, token);
    var more :| Path(cfg, START, more, swept);
    PathKeepsInv(cfg, START, more, swept);
    cached := CanStillBeIssued(cfg, swept, "", token);
  }
}

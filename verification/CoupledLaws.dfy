/** What client and server guarantee together, over every run of `Coupled`. */
module CoupledLaws {
  import opened Prelude
  import opened Types
  import opened Coupled
  import opened CoupledRuns
  import C = CacheSteps
  import S = Server
  import Service

  // ---- What never goes back -----------------------------------------------

  lemma StepGrows(cfg: Config, sys: System, step: Step)
    requires Inv(cfg, sys) && Enabled(cfg, sys, step)
    ensures S.Grows(sys.server, Apply(cfg, sys, step).server)
    ensures sys.barred <= Apply(cfg, sys, step).barred
  {
    if ServerStep(cfg, sys, step).Some? {
      S.StepGrows(cfg.server, sys.server, ServerStep(cfg, sys, step).value);
    }
  }

  /** One more step. */
  lemma GrowsOn(cfg: Config, steps: seq<Step>, s: System, n: nat)
    requires Run(cfg, steps) && 0 < n <= |steps|
    requires S.Grows(s.server, At(cfg, steps, n - 1).server) && s.barred <= At(cfg, steps, n - 1).barred
    ensures S.Grows(s.server, At(cfg, steps, n).server) && s.barred <= At(cfg, steps, n).barred
  {
    RunKeepsInv(cfg, steps, n - 1);
    AtStep(cfg, steps, n - 1);
    StepGrows(cfg, At(cfg, steps, n - 1), steps[n - 1]);
    S.GrowsTransitive(s.server, At(cfg, steps, n - 1).server, At(cfg, steps, n).server);
  }

  lemma {:induction false} RunGrows(cfg: Config, steps: seq<Step>, i: nat, j: nat)
    requires Run(cfg, steps) && i <= j <= |steps|
    ensures S.Grows(At(cfg, steps, i).server, At(cfg, steps, j).server)
    ensures At(cfg, steps, i).barred <= At(cfg, steps, j).barred
    decreases j
  {
    if i < j {
      RunGrows(cfg, steps, i, j - 1);
      GrowsOn(cfg, steps, At(cfg, steps, i), j);
    }
  }

  // ---- A token in hand ----------------------------------------------------

  /** The token a goroutine got out of `GetToken`, or is about to. */
  function InHand(pc: C.Pc): Option<(string, bool)> {
    match pc
    case ReadHit(_, _, token) => Some((token, true))
    case Leaving(_, _, Got(token, cached)) => Some((token, cached))
    case Returned(_, _, Got(token, cached)) => Some((token, cached))
    case _ => None
  }

  /** Goroutine `t` has `token` for `key`, at its clock reading `now`. */
  predicate Has(sys: System, t: C.Tid, key: string, now: Time, token: string, cached: bool) {
    && t in sys.client.pcs && InHand(sys.client.pcs[t]) == Some((token, cached))
    && sys.client.pcs[t].key == key && sys.client.pcs[t].now == now
  }

  /** Presented at the server later, the token is still the one issued to this client for this key. */
  lemma HeldLater(cfg: Config, steps: seq<Step>, n: nat, i: nat, t: C.Tid, key: string, now: Time, token: string,
                  cached: bool)
    requires Run(cfg, steps) && n <= i <= |steps| && Has(At(cfg, steps, n), t, key, now, token, cached)
    ensures HeldOk(cfg, At(cfg, steps, i).server.issued, key, now, token, cached)
    ensures cfg.server.inPlay(token) && token != ""
    ensures S.Inv(cfg.server, At(cfg, steps, i).server)
  {
    var s := At(cfg, steps, n).server;
    RunKeepsInv(cfg, steps, n);
    RunKeepsInv(cfg, steps, i);
    RunGrows(cfg, steps, n, i);
    assert PcOk(cfg, s.issued, s.clock, At(cfg, steps, n).client.pcs[t]);
    assert S.IssueOk(cfg.server, s.clients, s.clock, s.drawn, token, s.issued[token]);
  }

  /**
   A request that carries the token `GetToken` returned for `key` is, if the
   token still validates, this client's, and passes `RequireResource` exactly
   where the extractor yields `key`, or anywhere if `key` is empty.
   */
  lemma ReturnedTokenIsAdmitted(cfg: Config, steps: seq<Step>, n: nat, i: nat, t: C.Tid, key: string, now: Time,
                                token: string, cached: bool, checked: Time, target: string)
    requires Run(cfg, steps) && n <= i <= |steps| && Has(At(cfg, steps, n), t, key, now, token, cached)
    ensures match ValidateRecord(token, Service.Found(cfg.server.env, At(cfg, steps, i).server.tokens, token), checked)
            case Ok(r) => r.clientId == cfg.clientId && (ResourceAdmits(r, target) <==> key == "" || target == key)
            case Err(e) => e == TokenRevoked || e == TokenExpired
  {
    HeldLater(cfg, steps, n, i, t, key, now, token, cached);
    OursValidates(cfg, At(cfg, steps, i).server, key, token, checked);
  }

  /** The record behind a token of ours. */
  lemma OursValidates(cfg: Config, s: S.State, key: string, token: string, checked: Time)
    requires S.CollisionFree(cfg.server) && S.Inv(cfg.server, s) && Ours(cfg, s.issued, key, token)
    requires cfg.server.inPlay(token) && token != ""
    ensures match ValidateRecord(token, Service.Found(cfg.server.env, s.tokens, token), checked)
            case Ok(r) => r.clientId == cfg.clientId && r.resource == key
            case Err(e) => e == TokenRevoked || e == TokenExpired
  {
    S.ValidateRefinesSpec(cfg.server, s, token, checked);
    assert S.IssueOk(cfg.server, s.clients, s.clock, s.drawn, token, s.issued[token]);
  }

  /** Every entry in the cache is under the resource the server bound its token to. */
  lemma EntriesAreBound(cfg: Config, steps: seq<Step>, n: nat, key: string)
    requires Run(cfg, steps) && n <= |steps| && key in At(cfg, steps, n).client.cache
    ensures var s, e := At(cfg, steps, n).server, At(cfg, steps, n).client.cache[key];
      var h := cfg.server.env.sha256Hex(e.token);
      && h in s.tokens
      && s.tokens[h].resource == key && s.tokens[h].clientId == cfg.clientId
      && e.expiresAt <= s.tokens[h].expiresAt - cfg.server.ttl % SECOND + cfg.skew
  {
    var sys := At(cfg, steps, n);
    RunKeepsInv(cfg, steps, n);
    var e := sys.client.cache[key];
    assert EntryOk(cfg, sys.server.issued, key, e);
    assert S.IssueOk(cfg.server, sys.server.clients, sys.server.clock, sys.server.drawn, e.token,
                     sys.server.issued[e.token]);
    assert sys.server.tokens[cfg.server.env.sha256Hex(e.token)]
        == S.RecordOf(cfg.server, e.token, sys.server.issued[e.token], e.token in sys.server.revoked);
  }

  // ---- Expiry -------------------------------------------------------------

  /**
   Four instants of a token's life: the fetching call, the issue, the hit and
   the decision, on the clocks that read them.
   */
  predicate Timeline(ttl: Duration, buffer: int, skew: nat, lag: int, call: Time, issue: Time, hit: Time,
                     decision: Time) {
    && call <= issue + skew
    && hit + buffer < call + ClientLife(ttl)
    && decision <= hit + lag + skew
  }

  /** The lag that the buffer covers: an exact bound. */
  lemma LagBound(ttl: Duration, buffer: int, skew: nat, lag: int)
    ensures lag + 2 * skew <= buffer + 1 + ttl % SECOND <==>
            forall call, issue, hit, decision | Timeline(ttl, buffer, skew, lag, call, issue, hit, decision) ::
              decision <= issue + ttl
  {
    var hit := ClientLife(ttl) - buffer - 1;
    var issue: Time := 0 - skew;
    assert Timeline(ttl, buffer, skew, lag, 0, issue, hit, hit + lag + skew);
  }

  /**
   A token out of the cache, checked within `lag` of the caller's clock
   reading, is never rejected as expired when the buffer covers the lag and
   twice the skew: it is accepted unless it has been revoked.  The validation
   looks at position `i` and decides at `j`.
   */
  lemma HitIsNotExpired(cfg: Config, steps: seq<Step>, n: nat, i: nat, j: nat, t: C.Tid, key: string, now: Time,
                        token: string, lag: int)
    requires Run(cfg, steps) && n <= i <= j <= |steps| && Has(At(cfg, steps, n), t, key, now, token, true)
    requires At(cfg, steps, j).clock <= now + lag && lag + 2 * cfg.skew <= cfg.buffer + 1 + cfg.server.ttl % SECOND
    ensures var s := At(cfg, steps, i).server;
      var r := ValidateRecord(token, Service.Found(cfg.server.env, s.tokens, token), At(cfg, steps, j).server.clock);
      && r != Err(TokenExpired)
      && (r.Ok? <==> token !in s.revoked)
  {
    var s := At(cfg, steps, i).server;
    var decision := At(cfg, steps, j).server.clock;
    HeldLater(cfg, steps, n, i, t, key, now, token, true);
    RunKeepsInv(cfg, steps, j);
    assert decision <= now + lag + cfg.skew;
    HitIsLive(cfg, s.issued, key, now, token, decision, lag);
    S.ValidateRefinesSpec(cfg.server, s, token, decision);
  }

  lemma HitIsLive(cfg: Config, issued: Issues, key: string, now: Time, token: string, decision: Time, lag: int)
    requires HeldOk(cfg, issued, key, now, token, true)
    requires decision <= now + lag + cfg.skew && lag + 2 * cfg.skew <= cfg.buffer + 1 + cfg.server.ttl % SECOND
    ensures decision <= issued[token].at + cfg.server.ttl
  {
    var issue := issued[token].at;
    assert Timeline(cfg.server.ttl, cfg.buffer, cfg.skew, lag, issue + cfg.skew, issue, now, decision);
    LagBound(cfg.server.ttl, cfg.buffer, cfg.skew, lag);
  }

  /** A token just fetched lasts its whole lifetime, less the skew. */
  lemma FetchedIsNotExpired(cfg: Config, steps: seq<Step>, n: nat, i: nat, j: nat, t: C.Tid, key: string, now: Time,
                            token: string, lag: int)
    requires Run(cfg, steps) && n <= i <= j <= |steps| && Has(At(cfg, steps, n), t, key, now, token, false)
    requires At(cfg, steps, j).clock <= now + lag && lag + 2 * cfg.skew <= cfg.server.ttl
    ensures var s := At(cfg, steps, i).server;
      var r := ValidateRecord(token, Service.Found(cfg.server.env, s.tokens, token), At(cfg, steps, j).server.clock);
      r.Ok? <==> token !in s.revoked
  {
    var s := At(cfg, steps, i).server;
    HeldLater(cfg, steps, n, i, t, key, now, token, false);
    RunKeepsInv(cfg, steps, j);
    S.ValidateRefinesSpec(cfg.server, s, token, At(cfg, steps, j).server.clock);
  }

  // ---- Revocation ---------------------------------------------------------

  predicate Holds(client: C.State, t: C.Tid, token: string) {
    t in client.pcs && InHand(client.pcs[t]).Some? && InHand(client.pcs[t]).value.0 == token
  }

  /** Nobody comes by a barred token. */
  lemma BarredIsNotAcquired(cfg: Config, sys: System, step: Step, t: C.Tid, token: string)
    requires BarredOk(sys.server.drawn, sys.barred, sys.client.cache) && token in sys.barred && Enabled(cfg, sys, step)
    requires FlightsOk(cfg, sys.server, sys.barred, sys.client.pcs, sys.flights)
    ensures Holds(Apply(cfg, sys, step).client, t, token) ==> Holds(sys.client, t, token)
  {
    if Holds(Apply(cfg, sys, step).client, t, token) {
      if step.Reply? {
        ReplyIsOurs(cfg, sys, step.t);
      }
      if ClientStep(sys, step).Some? {
        AcquiredFrom(cfg, sys.client, ClientStep(sys, step).value, t, token);
      }
    }
  }

  /** The three ways to come by a token. */
  lemma AcquiredFrom(cfg: Config, client: C.State, step: C.Step, t: C.Tid, token: string)
    requires C.Enabled(client, step) && Holds(C.Apply(cfg.buffer, client, step), t, token)
    ensures Holds(client, t, token) || (step.FetchOk? && step.token == token)
            || exists k :: k in client.cache && client.cache[k].token == token
  {
  }

  lemma {:induction false} BarredStaysAway(cfg: Config, steps: seq<Step>, n: nat, j: nat, t: C.Tid, token: string)
    requires Run(cfg, steps) && n <= j <= |steps| && token in At(cfg, steps, n).barred
    requires Holds(At(cfg, steps, j).client, t, token)
    ensures Holds(At(cfg, steps, n).client, t, token)
    decreases j
  {
    if n < j {
      RunGrows(cfg, steps, n, j - 1);
      NotAcquiredAt(cfg, steps, j - 1, t, token);
      BarredStaysAway(cfg, steps, n, j - 1, t, token);
    }
  }

  lemma NotAcquiredAt(cfg: Config, steps: seq<Step>, m: nat, t: C.Tid, token: string)
    requires Run(cfg, steps) && m < |steps| && token in At(cfg, steps, m).barred
    requires Holds(At(cfg, steps, m + 1).client, t, token)
    ensures Holds(At(cfg, steps, m).client, t, token)
  {
    RunKeepsInv(cfg, steps, m);
    AtStep(cfg, steps, m);
    BarredIsNotAcquired(cfg, At(cfg, steps, m), steps[m], t, token);
  }

  predicate NoEntry(cache: C.Cache, token: string) {
    forall k | k in cache :: cache[k].token != token
  }

  /** Step `m` ends the sweep of a `Revoke(token)`. */
  ghost predicate SweepEndsAt(cfg: Config, steps: seq<Step>, m: nat, token: string)
    requires m < |steps|
  {
    SweptBy(At(cfg, steps, m), steps[m]) == Some(token)
  }

  /** The end of a sweep frees the lock and bars the token if it is known. */
  lemma AfterSweep(cfg: Config, s: System, step: Step, token: string)
    requires Inv(cfg, s) && Enabled(cfg, s, step) && SweptBy(s, step) == Some(token)
    ensures var t := Apply(cfg, s, step);
      LockFree(t.client) && t.server == s.server && (token in s.server.drawn ==> token in t.barred)
  {
    assert s.client.writer == Some(step.move.t);
  }

  lemma EndOfSweep(cfg: Config, steps: seq<Step>, m: nat, token: string)
    requires Run(cfg, steps) && m < |steps| && SweepEndsAt(cfg, steps, m, token)
    ensures var sys := At(cfg, steps, m + 1);
      && Inv(cfg, sys) && sys.server == At(cfg, steps, m).server
      && LockFree(sys.client) && (token in sys.server.drawn ==> token in sys.barred)
  {
    RunKeepsInv(cfg, steps, m);
    RunKeepsInv(cfg, steps, m + 1);
    AtStep(cfg, steps, m);
    AfterSweep(cfg, At(cfg, steps, m), steps[m], token);
  }

  /**
   Once the sweep is over, the token having been drawn by then: no entry ever
   holds it again, and no goroutine that does not already have it ever gets
   it, in particular no call begun since.
   */
  lemma SweptForGood(cfg: Config, steps: seq<Step>, m: nat, j: nat, token: string)
    requires Run(cfg, steps) && m < j <= |steps| && SweepEndsAt(cfg, steps, m, token)
    requires token in At(cfg, steps, m).server.drawn
    ensures NoEntry(At(cfg, steps, j).client.cache, token)
    ensures forall t | Holds(At(cfg, steps, j).client, t, token) :: Holds(At(cfg, steps, m + 1).client, t, token)
  {
    EndOfSweep(cfg, steps, m, token);
    BarredForGood(cfg, steps, m + 1, j, token);
  }

  lemma BarredForGood(cfg: Config, steps: seq<Step>, n: nat, j: nat, token: string)
    requires Run(cfg, steps) && n <= j <= |steps| && token in At(cfg, steps, n).barred
    ensures NoEntry(At(cfg, steps, j).client.cache, token)
    ensures forall t | Holds(At(cfg, steps, j).client, t, token) :: Holds(At(cfg, steps, n).client, t, token)
  {
    RunKeepsInv(cfg, steps, j);
    RunGrows(cfg, steps, n, j);
    forall t | Holds(At(cfg, steps, j).client, t, token)
      ensures Holds(At(cfg, steps, n).client, t, token)
    {
      BarredStaysAway(cfg, steps, n, j, t, token);
    }
  }

  /** Once the server has handled the revocation, the token having been issued by then, it never accepts it again. */
  lemma RevokedOnServer(cfg: Config, steps: seq<Step>, n: nat, j: nat, r: C.Tid, now: Time)
    requires Run(cfg, steps) && n <= j <= |steps|
    requires r in At(cfg, steps, n).served && At(cfg, steps, n).served[r] && r in At(cfg, steps, n).client.pcs
    ensures var pc := At(cfg, steps, n).client.pcs[r];
      && (pc.Revoking? || pc.RevokeFailed? || Swept(pc))
      && ValidateRecord(pc.token, Service.Found(cfg.server.env, At(cfg, steps, j).server.tokens, pc.token), now) ==
           Err(TokenRevoked)
  {
    RunKeepsInv(cfg, steps, n);
    RunKeepsInv(cfg, steps, j);
    RunGrows(cfg, steps, n, j);
    var token := At(cfg, steps, n).client.pcs[r].token;
    S.IssuedFacts(cfg.server, At(cfg, steps, j).server);
    S.RevokedIsRefused(cfg.server, At(cfg, steps, j).server, token, now);
  }

  /**
   Both together: `Revoke(token)` has returned without error, the token
   having been issued by the time the server handled it.  It is then gone
   from the cache for good, from every goroutine that lacked it, and from the
   server.
   */
  lemma RevokedEverywhere(cfg: Config, steps: seq<Step>, n: nat, j: nat, r: C.Tid, token: string)
    requires Run(cfg, steps) && n <= j <= |steps|
    requires r in At(cfg, steps, n).client.pcs && At(cfg, steps, n).client.pcs[r] == C.Swept(token)
    requires r in At(cfg, steps, n).served && At(cfg, steps, n).served[r]
    ensures NoEntry(At(cfg, steps, j).client.cache, token)
    ensures forall t | Holds(At(cfg, steps, j).client, t, token) :: Holds(At(cfg, steps, n).client, t, token)
    ensures forall now ::
              ValidateRecord(token, Service.Found(cfg.server.env, At(cfg, steps, j).server.tokens, token), now) ==
                Err(TokenRevoked)
  {
    RunKeepsInv(cfg, steps, n);
    BarredForGood(cfg, steps, n, j, token);
    forall now
      ensures ValidateRecord(token, Service.Found(cfg.server.env, At(cfg, steps, j).server.tokens, token), now) ==
              Err(TokenRevoked)
    {
      RevokedOnServer(cfg, steps, n, j, r, now);
    }
  }

  // ---- Fetches against the server's lifetime ------------------------------

  /** The client's share of a run. */
  ghost function ClientSteps(cfg: Config, steps: seq<Step>, n: nat): seq<C.Step>
    requires n <= |steps|
  {
    if n == 0 then []
    else match ClientStep(At(cfg, steps, n - 1), steps[n - 1])
      case Some(c) => ClientSteps(cfg, steps, n - 1) + [c]
      case None => ClientSteps(cfg, steps, n - 1)
  }

  /** It is a run of the client alone, so all that `CacheSteps` and `CacheLinearizable` say holds here. */
  lemma {:induction false} ClientRuns(cfg: Config, steps: seq<Step>, n: nat)
    requires Run(cfg, steps) && n <= |steps|
    ensures var cs := ClientSteps(cfg, steps, n);
            C.Run(cfg.buffer, cs) && C.At(cfg.buffer, cs, |cs|) == At(cfg, steps, n).client
  {
    if n > 0 {
      ClientRuns(cfg, steps, n - 1);
      ClientRunsOn(cfg, steps, n - 1);
    }
  }

  lemma ClientRunsOn(cfg: Config, steps: seq<Step>, n: nat)
    requires Run(cfg, steps) && n < |steps|
    requires var cs := ClientSteps(cfg, steps, n);
             C.Run(cfg.buffer, cs) && C.At(cfg.buffer, cs, |cs|) == At(cfg, steps, n).client
    ensures var cs := ClientSteps(cfg, steps, n + 1);
            C.Run(cfg.buffer, cs) && C.At(cfg.buffer, cs, |cs|) == At(cfg, steps, n + 1).client
  {
    AtStep(cfg, steps, n);
    match ClientStep(At(cfg, steps, n), steps[n])
    case Some(c) => C.RunExtends(cfg.buffer, ClientSteps(cfg, steps, n), c);
    case None =>
  }

  ghost predicate LivesOk(cfg: Config, log: seq<C.Event>) {
    forall m | 0 <= m < |log| && log[m].Fetched? :: log[m].life == ClientLife(cfg.server.ttl)
  }

  lemma ClientLogs(cfg: Config, issued: Issues, barred: set<string>, client: C.State, step: C.Step)
    requires 0 < cfg.server.ttl && C.Enabled(client, step) && LearnsOk(cfg, issued, barred, client, step)
    requires LivesOk(cfg, client.log)
    ensures LivesOk(cfg, C.Apply(cfg.buffer, client, step).log)
  {
    LifeIsWholeSeconds(cfg.server.ttl);
  }

  /** Every fetch brings the server's lifetime in whole seconds. */
  lemma {:induction false} FetchesBringTtl(cfg: Config, steps: seq<Step>, n: nat)
    requires Run(cfg, steps) && n <= |steps|
    ensures LivesOk(cfg, At(cfg, steps, n).client.log)
  {
    if n > 0 {
      var sys, step := At(cfg, steps, n - 1), steps[n - 1];
      FetchesBringTtl(cfg, steps, n - 1);
      RunKeepsInv(cfg, steps, n - 1);
      AtStep(cfg, steps, n - 1);
      if step.Reply? {
        ReplyIsOurs(cfg, sys, step.t);
      }
      if ClientStep(sys, step).Some? {
        ClientLogs(cfg, sys.server.issued, sys.barred, sys.client, ClientStep(sys, step).value);
      }
    }
  }

  /** No event about `key` in the stretch is an eviction. */
  predicate NoEviction(log: seq<C.Event>, key: string, a: nat, b: nat)
    requires a <= b <= |log|
  {
    forall m | a <= m < b && log[m].key == key :: log[m].Fetched?
  }

  /**
   However many goroutines ask for one resource, in a stretch without an
   eviction at most 1 + width / (TTL - buffer) fetches have their clock
   readings in a window of length `width`, the TTL taken in whole seconds.
   */
  lemma FetchesPerTtl(cfg: Config, steps: seq<Step>, n: nat, key: string, a: nat, b: nat, from: Time, width: nat)
    requires Run(cfg, steps) && n <= |steps| && cfg.buffer < ClientLife(cfg.server.ttl)
    requires a <= b <= |At(cfg, steps, n).client.log| && NoEviction(At(cfg, steps, n).client.log, key, a, b)
    ensures C.Fetches(At(cfg, steps, n).client.log, key, from, width, a, b)
         <= 1 + width / (ClientLife(cfg.server.ttl) - cfg.buffer)
  {
    ClientRuns(cfg, steps, n);
    FetchesBringTtl(cfg, steps, n);
    LifeIsWholeSeconds(cfg.server.ttl);
    var cs := ClientSteps(cfg, steps, n);
    C.FetchesInWindow(cfg.buffer, cs, |cs|, key, a, b, C.Seconds(cfg.server.ttl / SECOND), from, width);
  }
}

/** The lag a cache hit can afford, over runs: the bound of `CoupledLaws.HitIsNotExpired` is exact. */
module HitLag {
  import opened Prelude
  import opened Types
  import opened Coupled
  import opened CoupledRuns
  import opened CoupledLaws
  import opened RevokeTooEarly
  import C = CacheSteps
  import S = Server
  import Service

  /** A run in which a cache hit, looked up at `i` and decided at `j` within the lag, is rejected as expired. */
  ghost predicate Rejected(cfg: Config, lag: int, steps: seq<Step>, n: nat, i: nat, j: nat, t: C.Tid, key: string,
                           now: Time, token: string) {
    && Run(cfg, steps) && n <= i <= j <= |steps| && Has(At(cfg, steps, n), t, key, now, token, true)
    && At(cfg, steps, j).clock <= now + lag
    && ValidateRecord(token, Service.Found(cfg.server.env, At(cfg, steps, i).server.tokens, token),
                      At(cfg, steps, j).server.clock)
         == Err(TokenExpired)
  }

  /** The client's clock is ahead by the whole skew when the token is fetched. */
  lemma FetchedAhead(cfg: Config, hash: string, token: string) returns (last: System)
    requires Setting(cfg, hash, token)
    ensures Leads(cfg, START, last) && Fetched(cfg, Quiet(cfg, hash).(clock := cfg.skew), 1, "", token, last)
    ensures last.server.clock == 0
  {
    var sys := Quiet(cfg, hash);
    var ahead := sys.(clock := cfg.skew);
    Registers(cfg, hash, token);
    Then(cfg, START, sys, Tick(cfg.skew, 0), ahead);
    var more :| Path(cfg, START, more, ahead);
    PathKeepsInv(cfg, START, more, ahead);
    last := CanFetch(cfg, START, ahead, 1, "", token);
  }

  function AtTimes(sys: System, clock: Time, serverClock: Time): System {
    sys.(clock := clock, server := sys.server.(clock := serverClock))
  }

  /** The last instant at which the entry is still fresh. */
  function LastHit(cfg: Config): Time { cfg.skew + ClientLife(cfg.server.ttl) - cfg.buffer - 1 }

  /** The fetched entry is still fresh at that instant, and one nanosecond later no longer. */
  lemma FreshAtLastHit(cfg: Config, token: string)
    requires 0 < cfg.server.ttl && 0 < cfg.buffer < ClientLife(cfg.server.ttl)
    ensures C.Fresh(C.Entry(token, cfg.skew + C.Seconds(cfg.server.ttl / SECOND)), LastHit(cfg), cfg.buffer)
    ensures LastHit(cfg) >= cfg.skew
  {
    LifeIsWholeSeconds(cfg.server.ttl);
  }

  /** The time comes. */
  lemma WaitsUntil(cfg: Config, last: System, now: Time) returns (later: System)
    requires Leads(cfg, START, last) && last.server.clock <= now - cfg.skew
    ensures later == AtTimes(last, now, now - cfg.skew) && Leads(cfg, START, later)
  {
    later := AtTimes(last, now, now - cfg.skew);
    Then(cfg, START, last, Tick(now, now - cfg.skew), later);
  }

  lemma HitLate(cfg: Config, hash: string, token: string) returns (hit: System)
    requires Setting(cfg, hash, token) && 0 < cfg.buffer < ClientLife(cfg.server.ttl)
    ensures Leads(cfg, START, hit) && Has(hit, 2, "", LastHit(cfg), token, true)
    ensures hit.clock == LastHit(cfg) && hit.server.clock == LastHit(cfg) - cfg.skew
    ensures token in hit.server.issued && hit.server.issued[token].at == 0 && token !in hit.server.revoked
  {
    var last := FetchedAhead(cfg, hash, token);
    FreshAtLastHit(cfg, token);
    var later := WaitsUntil(cfg, last, LastHit(cfg));
    Hits(cfg, START, later, 2, "");
    hit := With(later, 2, C.ReadHit("", LastHit(cfg), token), {2}, None);
  }

  lemma RejectedBeyond(cfg: Config, hash: string, token: string, lag: int) returns (steps: seq<Step>, n: nat)
    requires Setting(cfg, hash, token) && 0 < cfg.buffer < ClientLife(cfg.server.ttl)
    requires lag + 2 * cfg.skew > cfg.buffer + 1 + cfg.server.ttl % SECOND
    ensures Rejected(cfg, lag, steps, n, |steps|, |steps|, 2, "", LastHit(cfg), token)
  {
    var hit := HitLate(cfg, hash, token);
    var now := LastHit(cfg);
    var late := AtTimes(hit, now + lag, now + lag + cfg.skew);
    steps, n := RunThrough(cfg, hit, Tick(now + lag, now + lag + cfg.skew), late);
    IsExpired(cfg, steps, token, now + lag + cfg.skew);
  }

  /** A run through `s` that ends with one more step. */
  lemma RunThrough(cfg: Config, s: System, step: Step, t: System) returns (steps: seq<Step>, n: nat)
    requires 0 < cfg.server.ttl && S.CollisionFree(cfg.server) && Leads(cfg, START, s)
    requires Enabled(cfg, s, step) && t == Apply(cfg, s, step)
    ensures Run(cfg, steps) && n <= |steps| && At(cfg, steps, n) == s && At(cfg, steps, |steps|) == t
  {
    var more :| Path(cfg, START, more, s);
    var none: seq<Step> := [];
    RunThenPath(cfg, none, more, s);
    assert none + more == more;
    RunExtends(cfg, more, step);
    AtPrefix(cfg, more, [step], |more|);
    steps, n := more + [step], |more|;
  }

  lemma IsExpired(cfg: Config, steps: seq<Step>, token: string, now: Time)
    requires Run(cfg, steps)
    requires var s := At(cfg, steps, |steps|).server;
      token in s.issued && token !in s.revoked && now > s.issued[token].at + cfg.server.ttl
    ensures ValidateRecord(token, Service.Found(cfg.server.env, At(cfg, steps, |steps|).server.tokens, token), now) ==
            Err(TokenExpired)
  {
    RunKeepsInv(cfg, steps, |steps|);
    S.IssuedFacts(cfg.server, At(cfg, steps, |steps|).server);
    S.ValidateRefinesSpec(cfg.server, At(cfg, steps, |steps|).server, token, now);
  }

  /**
   For a client with a buffer between zero and the lifetime, no run rejects a
   cache hit as expired within the lag if and only if
   lag + 2 skew <= buffer + 1 + TTL mod 1 s.
   */
  lemma LagIsExact(cfg: Config, hash: string, token: string, lag: int)
    requires Setting(cfg, hash, token) && 0 < cfg.buffer < ClientLife(cfg.server.ttl)
    ensures lag + 2 * cfg.skew <= cfg.buffer + 1 + cfg.server.ttl % SECOND <==>
            forall steps, n, i, j, t, key, now, held :: !Rejected(cfg, lag, steps, n, i, j, t, key, now, held)
  {
    if lag + 2 * cfg.skew <= cfg.buffer + 1 + cfg.server.ttl % SECOND {
      forall steps, n, i, j, t, key, now, held
        ensures !Rejected(cfg, lag, steps, n, i, j, t, key, now, held)
      {
        if Rejected(cfg, lag, steps, n, i, j, t, key, now, held) {
          HitIsNotExpired(cfg, steps, n, i, j, t, key, now, held, lag);
        }
      }
    } else {
      var steps, n := RejectedBeyond(cfg, hash, token, lag);
    }
  }
}

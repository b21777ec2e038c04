/** From the client's cache through the wire to the sample server's protected routes. */
module EndToEnd {
  import opened Prelude
  import opened Types
  import opened Text
  import opened Codec
  import opened Middleware
  import opened TokenClient
  import opened Coupled
  import opened CoupledLaws
  import Service

  /** The request goes out with `RoundTrip`'s header, is looked up at position `i` and decided at server time `now`. */
  ghost predicate AdmittedAt(cfg: Config, steps: seq<Step>, i: nat, token: string, base: string, id: string, now: Time)
    requires i <= |steps|
  {
    Admitted(cfg.server.env, At(cfg, steps, i).server.tokens, BearerHeader(token), base, id, now)
  }

  lemma HeaderValidates(cfg: Config, steps: seq<Step>, i: nat, token: string, base: string, id: string, now: Time)
    requires i <= |steps| && NoSpace(token) && token != ""
    ensures var r := ValidateRecord(token, Service.Found(cfg.server.env, At(cfg, steps, i).server.tokens, token), now);
      AdmittedAt(cfg, steps, i, token, base, id, now) <==> r.Ok? && ResourceAdmits(r.value, ResourceOf(base, id))
  {
    HeaderRoundTrip(token);
  }

  /**
   A token that `GetToken` served from the cache for a certificate's resource,
   sent to that certificate's routes and checked within the lag that the
   buffer covers, is let through unless it has been revoked; sent to any other
   certificate's routes it is not let through.
   */
  lemma CachedTokenOpensItsRoute(cfg: Config, steps: seq<Step>, n: nat, i: nat, j: nat, t: nat, base: string,
                                 id: string, other: string, now: Time, token: string, lag: int)
    requires Run(cfg, steps) && n <= i <= j <= |steps| && NoSpace(token)
    requires Has(At(cfg, steps, n), t, ResourceOf(base, id), now, token, true)
    requires At(cfg, steps, j).clock <= now + lag && lag + 2 * cfg.skew <= cfg.buffer + 1 + cfg.server.ttl % SECOND
    ensures var s, clock := At(cfg, steps, i).server, At(cfg, steps, j).server.clock;
      AdmittedAt(cfg, steps, i, token, base, other, clock) <==> other == id && token !in s.revoked
  {
    var s, clock := At(cfg, steps, i).server, At(cfg, steps, j).server.clock;
    HeldLater(cfg, steps, n, i, t, ResourceOf(base, id), now, token, true);
    HeaderValidates(cfg, steps, i, token, base, other, clock);
    HitIsNotExpired(cfg, steps, n, i, j, t, ResourceOf(base, id), now, token, lag);
    OursValidates(cfg, s, ResourceOf(base, id), token, clock);
    var r := ValidateRecord(token, Service.Found(cfg.server.env, s.tokens, token), clock);
    if r.Ok? {
      BoundTokenReachesOne(r.value, base, id, other);
    }
  }

  /** The key under which the transport asked for its token. */
  function TransportKey(fixed: string, scheme: string, host: string, path: string): string {
    TargetResource(fixed, Some(Url.Url(scheme, host, path)))
  }

  /**
   A transport that is fixed to a certificate's resource is let through on
   every protected route of that certificate, whatever its URL, as long as its
   token validates, and on no route of another.
   */
  lemma FixedTransportIsAdmitted(cfg: Config, steps: seq<Step>, n: nat, i: nat, t: nat, base: string, id: string,
                                 scheme: string, host: string, path: string, target: string,
                                 now: Time, token: string, cached: bool, checked: Time)
    requires Run(cfg, steps) && n <= i <= |steps| && NoSpace(token) && OnRoute(path, target)
    requires Has(At(cfg, steps, n), t, TransportKey(ResourceOf(base, id), scheme, host, path), now, token, cached)
    ensures AdmittedAt(cfg, steps, i, token, base, target, checked) <==>
      && target == id
      && ValidateRecord(token, Service.Found(cfg.server.env, At(cfg, steps, i).server.tokens, token), checked).Ok?
  {
    assert |ResourceOf(base, id)| > 0;
    HeldLater(cfg, steps, n, i, t, ResourceOf(base, id), now, token, cached);
    HeaderValidates(cfg, steps, i, token, base, target, checked);
    OursValidates(cfg, At(cfg, steps, i).server, ResourceOf(base, id), token, checked);
    var r := ValidateRecord(token, Service.Found(cfg.server.env, At(cfg, steps, i).server.tokens, token), checked);
    if r.Ok? {
      BoundTokenReachesOne(r.value, base, id, target);
    }
  }
}

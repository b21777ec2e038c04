/**
 One client program and the authorization server, each with its own view of a
 token's life and its own clock.  The client's goroutines and any other users
 of the server interleave freely; requests and answers may be lost.
 */
module Coupled {
  import opened Prelude
  import opened Types
  import opened TokenClient
  import C = CacheSteps
  import S = Server

  /** The client's credentials and buffer, the server's configuration, and how far apart the two clocks may be. */
  datatype Config = Config(server: S.Config, clientId: string, secret: string, buffer: Duration, skew: nat)

  /**
   `flights` are the token requests that have reached the server and wait for
   their answer; `served` the revocations the server has carried out, with
   whether the token had been issued by then; `barred` the tokens whose sweep
   is over and that had been drawn by then.
   */
  datatype System = System(
    client: C.State, server: S.State, clock: Time,
    flights: map<C.Tid, nat>, served: map<C.Tid, bool>, barred: set<string>)

  datatype Step =
    | Client(move: C.Step)                    // anything but hearing from the server
    | Server(action: S.Step)                  // anything anybody asks of the server, and its clock
    | Arrive(t: C.Tid, call: nat)             // a token request reaches the server
    | Reply(t: C.Tid)                         // its token reaches the client
    | Lost(t: C.Tid)                          // the client sees an error, whatever the server did or will do
    | RevokeArrives(t: C.Tid)
    | RevokeReply(t: C.Tid, ok: bool)
    | Tick(clock: Time, serverClock: Time)    // time passes; the client's clock may move either way

  function Token(cfg: Config, key: string): TokenRequest { FetchRequest(cfg.clientId, cfg.secret, key) }

  predicate Near(a: Time, b: Time, skew: nat) { a - b <= skew && b - a <= skew }

  predicate Answered(sys: System, t: C.Tid) {
    t in sys.flights && sys.flights[t] in sys.server.calls && sys.server.calls[sys.flights[t]].Issued?
  }

  /** The client's share of a step. */
  function ClientStep(sys: System, step: Step): Option<C.Step> {
    match step
    case Client(c) => Some(c)
    case Reply(t) =>
      if Answered(sys, t) then
        var r := sys.server.calls[sys.flights[t]].response;
        Some(C.FetchOk(t, r.accessToken, r.expiresIn))
      else None
    case Lost(t) => Some(C.FetchErr(t))
    case RevokeReply(t, ok) => Some(C.RevokeReply(t, ok))
    case _ => None
  }

  /** The server's share. */
  function ServerStep(cfg: Config, sys: System, step: Step): Option<S.Step> {
    match step
    case Server(s) => Some(s)
    case Arrive(t, call) =>
      if t in sys.client.pcs && sys.client.pcs[t].Fetching?
      then Some(S.Request(call, Token(cfg, sys.client.pcs[t].key))) else None
    case RevokeArrives(t) =>
      if t in sys.client.pcs && sys.client.pcs[t].Revoking? then Some(S.Revoke(sys.client.pcs[t].token)) else None
    case Tick(_, serverClock) => Some(S.Tick(serverClock))
    case _ => None
  }

  /** What ties the two together. */
  predicate Linked(cfg: Config, sys: System, step: Step) {
    match step
    case Client(c) =>
      && !c.FetchOk? && !c.FetchErr? && !c.RevokeReply?
      && (c.Call? ==> c.now == sys.clock)
    case Server(s) => s.Tick? ==> Near(sys.clock, s.clock, cfg.skew)
    case Arrive(t, _) => t in sys.client.pcs && sys.client.pcs[t].Fetching? && t !in sys.flights
    case Reply(t) => Answered(sys, t)
    case Lost(_) => true
    case RevokeArrives(t) => t in sys.client.pcs && sys.client.pcs[t].Revoking? && t !in sys.served
    case RevokeReply(t, ok) => ok ==> t in sys.served
    case Tick(clock, serverClock) => Near(clock, serverClock, cfg.skew)
  }

  ghost predicate Enabled(cfg: Config, sys: System, step: Step) {
    && Linked(cfg, sys, step)
    && (ClientStep(sys, step).Some? ==> C.Enabled(sys.client, ClientStep(sys, step).value))
    && (ServerStep(cfg, sys, step).Some? ==> S.Enabled(cfg.server, sys.server, ServerStep(cfg, sys, step).value))
  }

  function Flights(sys: System, step: Step): map<C.Tid, nat> {
    match step
    case Arrive(t, call) => sys.flights[t := call]
    case Reply(t) => sys.flights - {t}
    case Lost(t) => sys.flights - {t}
    case _ => sys.flights
  }

  function Served(sys: System, step: Step): map<C.Tid, bool> {
    match step
    case RevokeArrives(t) =>
      if t in sys.client.pcs && sys.client.pcs[t].Revoking?
      then sys.served[t := sys.client.pcs[t].token in sys.server.issued]
      else sys.served
    case _ => sys.served
  }

  /** The token whose sweep a step ends. */
  function SweptBy(sys: System, step: Step): Option<string> {
    if step.Client? && step.move.Unlock? && step.move.t in sys.client.pcs && sys.client.pcs[step.move.t].Sweeping?
    then Some(sys.client.pcs[step.move.t].token) else None
  }

  function Barred(sys: System, step: Step): set<string> {
    match SweptBy(sys, step)
    case Some(token) => if token in sys.server.drawn then sys.barred + {token} else sys.barred
    case None => sys.barred
  }

  function ClientAfter(cfg: Config, sys: System, step: Step): C.State
    requires ClientStep(sys, step).Some? ==> C.Enabled(sys.client, ClientStep(sys, step).value)
  {
    match ClientStep(sys, step)
    case Some(c) => C.Apply(cfg.buffer, sys.client, c)
    case None => sys.client
  }

  ghost function ServerAfter(cfg: Config, sys: System, step: Step): S.State
    requires ServerStep(cfg, sys, step).Some? ==> S.Enabled(cfg.server, sys.server, ServerStep(cfg, sys, step).value)
  {
    match ServerStep(cfg, sys, step)
    case Some(s) => S.Apply(cfg.server, sys.server, s)
    case None => sys.server
  }

  ghost function Apply(cfg: Config, sys: System, step: Step): System
    requires Enabled(cfg, sys, step)
  {
    System(ClientAfter(cfg, sys, step), ServerAfter(cfg, sys, step),
           if step.Tick? then step.clock else sys.clock,
           Flights(sys, step), Served(sys, step), Barred(sys, step))
  }

  const START: System := System(C.START, S.START, 0, map[], map[], {})

  // ---- Lifetimes ----------------------------------------------------------

  /** The lifetime the client reckons with: whole seconds. */
  function ClientLife(ttl: Duration): int { ttl - ttl % SECOND }

  lemma LifeIsWholeSeconds(ttl: Duration)
    requires 0 < ttl
    ensures C.Seconds(ttl / SECOND) == ClientLife(ttl)
  {
    assert ttl == SECOND * (ttl / SECOND) + ttl % SECOND;
  }

  lemma FreshMeans(e: C.Entry, now: Time, buffer: Duration)
    ensures C.Fresh(e, now, buffer) ==> e.expiresAt - now > buffer
  {
  }

  // ---- The coupling invariant ---------------------------------------------

  type Issues = map<string, S.Issue>

  /** The server issued `token` to this client for the resource `key`. */
  predicate Ours(cfg: Config, issued: Issues, key: string, token: string) {
    token in issued && issued[token].req == Token(cfg, key)
  }

  /** The client's expiry is no later than the server's, but for the skew. */
  predicate EntryOk(cfg: Config, issued: Issues, key: string, e: C.Entry) {
    && Ours(cfg, issued, key, e.token)
    && e.expiresAt <= issued[e.token].at + ClientLife(cfg.server.ttl) + cfg.skew
  }

  /** A token some goroutine has in hand. */
  predicate HeldOk(cfg: Config, issued: Issues, key: string, now: Time, token: string, cached: bool) {
    && Ours(cfg, issued, key, token)
    && if cached then now + cfg.buffer < issued[token].at + ClientLife(cfg.server.ttl) + cfg.skew
       else now <= issued[token].at + cfg.skew
  }

  predicate PcOk(cfg: Config, issued: Issues, clock: Time, pc: C.Pc) {
    match pc
    case Called(_, now) => now <= clock + cfg.skew
    case Reading(_, now) => now <= clock + cfg.skew
    case ReadHit(key, now, token) => HeldOk(cfg, issued, key, now, token, true)
    case ReadMiss(_, now) => now <= clock + cfg.skew
    case Gap(_, now) => now <= clock + cfg.skew
    case Rechecking(_, now) => now <= clock + cfg.skew
    case Fetching(_, now) => now <= clock + cfg.skew
    case Leaving(key, now, outcome) => outcome.Got? ==> HeldOk(cfg, issued, key, now, outcome.token, outcome.cached)
    case Returned(key, now, outcome) => outcome.Got? ==> HeldOk(cfg, issued, key, now, outcome.token, outcome.cached)
    case _ => true
  }

  /** How far the server has got with a request sent for `key` by a goroutine whose clock reading was `now`. */
  predicate FlightOk(cfg: Config, issued: Issues, barred: set<string>, key: string, now: Time, call: S.Call) {
    match call
    case Granted(req, _) => req == Token(cfg, key)
    case Drawn(req, _, raw, at) => req == Token(cfg, key) && now <= at + cfg.skew && raw !in barred
    case Issued(req, response) =>
      && req == Token(cfg, key) && response.expiresIn == cfg.server.ttl / SECOND
      && Ours(cfg, issued, key, response.accessToken) && now <= issued[response.accessToken].at + cfg.skew
      && response.accessToken !in barred
    case Refused(_, _) => true
    case _ => false
  }

  ghost predicate CacheOk(cfg: Config, issued: Issues, cache: C.Cache) {
    forall k | k in cache :: EntryOk(cfg, issued, k, cache[k])
  }

  ghost predicate PcsOk(cfg: Config, issued: Issues, clock: Time, pcs: map<C.Tid, C.Pc>) {
    forall t | t in pcs :: PcOk(cfg, issued, clock, pcs[t])
  }

  ghost predicate FlightsOk(cfg: Config, server: S.State, barred: set<string>, pcs: map<C.Tid, C.Pc>,
                            flights: map<C.Tid, nat>) {
    forall t | t in flights ::
      && t in pcs && pcs[t].Fetching? && flights[t] in server.calls
      && FlightOk(cfg, server.issued, barred, pcs[t].key, pcs[t].now, server.calls[flights[t]])
  }

  /** A barred token is old, and no entry holds it. */
  ghost predicate BarredOk(drawn: set<string>, barred: set<string>, cache: C.Cache) {
    && barred <= drawn
    && forall k | k in cache :: cache[k].token !in barred
  }

  predicate Swept(pc: C.Pc) { pc.Sweeper? || pc.Sweeping? || pc.Swept? }

  /** A sweep follows a served revocation; what was served while issued is revoked and, once swept, barred. */
  ghost predicate ServedOk(server: S.State, barred: set<string>, pcs: map<C.Tid, C.Pc>, served: map<C.Tid, bool>) {
    && (forall t | t in pcs && Swept(pcs[t]) :: t in served)
    && forall t | t in served ::
         && t in pcs && (pcs[t].Revoking? || pcs[t].RevokeFailed? || Swept(pcs[t]))
         && (served[t] ==> pcs[t].token in server.revoked)
         && (served[t] && pcs[t].Swept? ==> pcs[t].token in barred)
  }

  ghost predicate Inv(cfg: Config, sys: System) {
    && C.Inv(cfg.buffer, sys.client) && S.Inv(cfg.server, sys.server)
    && Near(sys.clock, sys.server.clock, cfg.skew)
    && CacheOk(cfg, sys.server.issued, sys.client.cache)
    && PcsOk(cfg, sys.server.issued, sys.server.clock, sys.client.pcs)
    && FlightsOk(cfg, sys.server, sys.barred, sys.client.pcs, sys.flights)
    && BarredOk(sys.server.drawn, sys.barred, sys.client.cache)
    && ServedOk(sys.server, sys.barred, sys.client.pcs, sys.served)
  }

  // ---- Steps of the server keep it ----------------------------------------

  lemma GrowthKeepsCache(cfg: Config, s: S.State, t: S.State, cache: C.Cache)
    requires CacheOk(cfg, s.issued, cache) && S.Grows(s, t)
    ensures CacheOk(cfg, t.issued, cache)
  {
    forall k | k in cache
      ensures EntryOk(cfg, t.issued, k, cache[k])
    {
      assert EntryOk(cfg, s.issued, k, cache[k]);
    }
  }

  lemma GrowthKeepsPcs(cfg: Config, s: S.State, t: S.State, pcs: map<C.Tid, C.Pc>)
    requires PcsOk(cfg, s.issued, s.clock, pcs) && S.Grows(s, t)
    ensures PcsOk(cfg, t.issued, t.clock, pcs)
  {
    forall x | x in pcs
      ensures PcOk(cfg, t.issued, t.clock, pcs[x])
    {
      assert PcOk(cfg, s.issued, s.clock, pcs[x]);
    }
  }

  /** One server step takes a flight's call one step on, or leaves it. */
  lemma ServerKeepsFlight(cfg: Config, s: S.State, step: S.Step, barred: set<string>, key: string, now: Time, call: nat)
    requires S.CallsOk(cfg.server, s) && S.Enabled(cfg.server, s, step) && barred <= s.drawn
    requires call in s.calls && FlightOk(cfg, s.issued, barred, key, now, s.calls[call]) && now <= s.clock + cfg.skew
    ensures var s' := S.Apply(cfg.server, s, step);
            call in s'.calls && FlightOk(cfg, s'.issued, barred, key, now, s'.calls[call])
  {
    var s' := S.Apply(cfg.server, s, step);
    S.StepGrows(cfg.server, s, step);
    assert S.CallOk(cfg.server, s.clients, s.clock, s.drawn, s.issued, s.calls[call]);
    if s'.calls[call] == s.calls[call] {
      assert s.calls[call].Issued? ==>
             s'.issued[s.calls[call].response.accessToken] == s.issued[s.calls[call].response.accessToken];
    } else {
      assert step.Draw? || step.DrawFails? || step.Save?;
    }
  }

  lemma ServerKeepsFlights(cfg: Config, s: S.State, step: S.Step, barred: set<string>, pcs: map<C.Tid, C.Pc>,
                           flights: map<C.Tid, nat>)
    requires S.CallsOk(cfg.server, s) && S.Enabled(cfg.server, s, step) && barred <= s.drawn
    requires FlightsOk(cfg, s, barred, pcs, flights) && PcsOk(cfg, s.issued, s.clock, pcs)
    ensures FlightsOk(cfg, S.Apply(cfg.server, s, step), barred, pcs, flights)
  {
    forall t | t in flights
      ensures flights[t] in S.Apply(cfg.server, s, step).calls
      ensures FlightOk(cfg, S.Apply(cfg.server, s, step).issued, barred, pcs[t].key, pcs[t].now,
                       S.Apply(cfg.server, s, step).calls[flights[t]])
    {
      assert PcOk(cfg, s.issued, s.clock, pcs[t]);
      ServerKeepsFlight(cfg, s, step, barred, pcs[t].key, pcs[t].now, flights[t]);
    }
  }

  lemma ServerKeepsInv(cfg: Config, sys: System, step: S.Step, clock: Time)
    requires S.CollisionFree(cfg.server) && Inv(cfg, sys) && S.Enabled(cfg.server, sys.server, step)
    requires if step.Tick? then Near(clock, step.clock, cfg.skew) else clock == sys.clock
    ensures Inv(cfg, sys.(server := S.Apply(cfg.server, sys.server, step), clock := clock))
  {
    var s, s' := sys.server, S.Apply(cfg.server, sys.server, step);
    S.StepKeepsInv(cfg.server, s, step);
    S.StepGrows(cfg.server, s, step);
    GrowthKeepsCache(cfg, s, s', sys.client.cache);
    GrowthKeepsPcs(cfg, s, s', sys.client.pcs);
    ServerKeepsFlights(cfg, s, step, sys.barred, sys.client.pcs, sys.flights);
    ClockOnlyTicks(cfg, s, step);
  }

  lemma ClockOnlyTicks(cfg: Config, s: S.State, step: S.Step)
    requires S.Enabled(cfg.server, s, step)
    ensures S.Apply(cfg.server, s, step).clock == if step.Tick? then step.clock else s.clock
  {
  }

  // ---- Steps of the client keep it ----------------------------------------

  /** What the client learns from a step: nothing, or a token of its own with the right lifetime. */
  predicate LearnsOk(cfg: Config, issued: Issues, barred: set<string>, client: C.State, step: C.Step) {
    step.FetchOk? ==>
      && step.t in client.pcs && client.pcs[step.t].Fetching?
      && Ours(cfg, issued, client.pcs[step.t].key, step.token)
      && client.pcs[step.t].now <= issued[step.token].at + cfg.skew
      && step.expiresIn == cfg.server.ttl / SECOND && step.token !in barred
  }

  lemma ClientKeepsCache(cfg: Config, issued: Issues, barred: set<string>, client: C.State, step: C.Step)
    requires 0 < cfg.server.ttl && CacheOk(cfg, issued, client.cache) && C.Enabled(client, step)
    requires LearnsOk(cfg, issued, barred, client, step)
    ensures CacheOk(cfg, issued, C.Apply(cfg.buffer, client, step).cache)
  {
    LifeIsWholeSeconds(cfg.server.ttl);
  }

  lemma ClientKeepsPc(cfg: Config, issued: Issues, barred: set<string>, clock: Time, client: C.State, step: C.Step)
    requires CacheOk(cfg, issued, client.cache) && PcsOk(cfg, issued, clock, client.pcs) && C.Enabled(client, step)
    requires LearnsOk(cfg, issued, barred, client, step) && (step.Call? ==> step.now <= clock + cfg.skew)
    ensures PcOk(cfg, issued, clock, C.Next(cfg.buffer, client, step))
  {
    if step.t in client.pcs {
      var pc := client.pcs[step.t];
      assert PcOk(cfg, issued, clock, pc);
      if (step.Read? || step.Recheck?) && pc.key in client.cache {
        assert EntryOk(cfg, issued, pc.key, client.cache[pc.key]);
        FreshMeans(client.cache[pc.key], pc.now, cfg.buffer);
      }
    }
  }

  lemma ClientKeepsBarred(drawn: set<string>, barred: set<string>, cfg: Config, issued: Issues, client: C.State,
                          step: C.Step)
    requires BarredOk(drawn, barred, client.cache) && C.Enabled(client, step)
             && LearnsOk(cfg, issued, barred, client, step)
    ensures BarredOk(drawn, barred, C.Apply(cfg.buffer, client, step).cache)
  {
  }

  lemma ClientKeepsFlights(cfg: Config, server: S.State, barred: set<string>, client: C.State,
                           flights: map<C.Tid, nat>, step: C.Step)
    requires FlightsOk(cfg, server, barred, client.pcs, flights) && C.Enabled(client, step)
    ensures FlightsOk(cfg, server, barred, C.Apply(cfg.buffer, client, step).pcs,
                      if step.FetchOk? || step.FetchErr? then flights - {step.t} else flights)
  {
  }

  lemma ClientKeepsServed(cfg: Config, server: S.State, barred: set<string>, client: C.State,
                          served: map<C.Tid, bool>, step: C.Step)
    requires ServedOk(server, barred, client.pcs, served) && C.Enabled(client, step)
    requires step.RevokeReply? && step.ok ==> step.t in served
    requires step.Unlock? && client.pcs[step.t].Sweeping? && step.t in served && served[step.t] ==>
             client.pcs[step.t].token in barred
    ensures ServedOk(server, barred, C.Apply(cfg.buffer, client, step).pcs, served)
  {
  }

  lemma ClientKeepsInv(cfg: Config, sys: System, step: C.Step)
    requires 0 < cfg.server.ttl && Inv(cfg, sys) && C.Enabled(sys.client, step)
    requires LearnsOk(cfg, sys.server.issued, sys.barred, sys.client, step)
    requires step.Call? ==> step.now == sys.clock
    requires step.RevokeReply? && step.ok ==> step.t in sys.served
    requires step.Unlock? && sys.client.pcs[step.t].Sweeping? && step.t in sys.served && sys.served[step.t]
             ==> sys.client.pcs[step.t].token in sys.barred
    ensures Inv(cfg, sys.(client := C.Apply(cfg.buffer, sys.client, step),
                          flights := if step.FetchOk? || step.FetchErr? then sys.flights - {step.t} else sys.flights))
  {
    C.StepKeepsInv(cfg.buffer, sys.client, step);
    ClientKeepsCache(cfg, sys.server.issued, sys.barred, sys.client, step);
    ClientKeepsPc(cfg, sys.server.issued, sys.barred, sys.server.clock, sys.client, step);
    ClientKeepsFlights(cfg, sys.server, sys.barred, sys.client, sys.flights, step);
    ClientKeepsBarred(sys.server.drawn, sys.barred, cfg, sys.server.issued, sys.client, step);
    ClientKeepsServed(cfg, sys.server, sys.barred, sys.client, sys.served, step);
  }

  /** Whoever waits for an answer holds the write lock. */
  lemma FlightHoldsLock(cfg: Config, sys: System)
    requires C.LockOk(sys.client) && FlightsOk(cfg, sys.server, sys.barred, sys.client.pcs, sys.flights)
    ensures forall x | x in sys.flights :: sys.client.writer == Some(x) && sys.client.pcs[x].Fetching?
  {
  }

  /** While a sweep ends nobody is fetching and no entry holds the token, so it can be barred. */
  lemma SweepEndKeepsInv(cfg: Config, sys: System, t: C.Tid)
    requires Inv(cfg, sys) && C.Enabled(sys.client, C.Unlock(t)) && sys.client.pcs[t].Sweeping?
    requires sys.client.pcs[t].token in sys.server.drawn
    ensures Inv(cfg, sys.(barred := sys.barred + {sys.client.pcs[t].token}))
  {
    var token := sys.client.pcs[t].token;
    FlightHoldsLock(cfg, sys);
    BarKeepsServed(sys.server, sys.barred, sys.client.pcs, sys.served, token);
    SweptLeavesNone(sys.client, t);
    assert sys.flights == map[];
  }

  lemma SweptLeavesNone(client: C.State, t: C.Tid)
    requires C.LockOk(client) && C.SweepOk(client) && C.Enabled(client, C.Unlock(t)) && client.pcs[t].Sweeping?
    ensures client.writer == Some(t)
    ensures forall k | k in client.cache :: client.cache[k].token != client.pcs[t].token
  {
  }

  lemma BarKeepsServed(server: S.State, barred: set<string>, pcs: map<C.Tid, C.Pc>, served: map<C.Tid, bool>,
                       token: string)
    requires ServedOk(server, barred, pcs, served)
    ensures ServedOk(server, barred + {token}, pcs, served)
  {
  }

  lemma RevokedTokensAreDrawn(cfg: Config, s: S.State)
    requires S.Inv(cfg.server, s)
    ensures s.revoked <= s.drawn
  {
    S.IssuedFacts(cfg.server, s);
  }

  // ---- Every step keeps it ------------------------------------------------

  lemma StepKeepsInv(cfg: Config, sys: System, step: Step)
    requires 0 < cfg.server.ttl && S.CollisionFree(cfg.server) && Inv(cfg, sys) && Enabled(cfg, sys, step)
    ensures Inv(cfg, Apply(cfg, sys, step))
  {
    match step
    case Client(c) => ClientStepKeepsInv(cfg, sys, c);
    case Server(s) => ServerKeepsInv(cfg, sys, s, sys.clock);
    case Arrive(t, call) => ArriveKeepsInv(cfg, sys, t, call);
    case Reply(t) => ReplyKeepsInv(cfg, sys, t);
    case Lost(t) => LostKeepsInv(cfg, sys, t);
    case RevokeArrives(t) => RevokeArrivesKeepsInv(cfg, sys, t);
    case RevokeReply(t, ok) => RevokeReplyKeepsInv(cfg, sys, t, ok);
    case Tick(clock, serverClock) => ServerKeepsInv(cfg, sys, S.Tick(serverClock), clock);
  }

  lemma ReplyKeepsInv(cfg: Config, sys: System, t: C.Tid)
    requires 0 < cfg.server.ttl && Inv(cfg, sys) && Enabled(cfg, sys, Reply(t))
    ensures Inv(cfg, Apply(cfg, sys, Reply(t)))
  {
    ReplyIsOurs(cfg, sys, t);
    ReplyIs(cfg, sys, t);
    ClientKeepsInv(cfg, sys, ClientStep(sys, Reply(t)).value);
  }

  lemma ReplyIs(cfg: Config, sys: System, t: C.Tid)
    requires Enabled(cfg, sys, Reply(t))
    ensures var c := ClientStep(sys, Reply(t)).value;
      && c.FetchOk? && c.t == t && C.Enabled(sys.client, c)
      && Apply(cfg, sys, Reply(t)) == sys.(client := C.Apply(cfg.buffer, sys.client, c), flights := sys.flights - {t})
  {
  }

  lemma ReplyIsOurs(cfg: Config, sys: System, t: C.Tid)
    requires FlightsOk(cfg, sys.server, sys.barred, sys.client.pcs, sys.flights) && Answered(sys, t)
    ensures LearnsOk(cfg, sys.server.issued, sys.barred, sys.client, ClientStep(sys, Reply(t)).value)
  {
    var call := sys.server.calls[sys.flights[t]];
    assert FlightOk(cfg, sys.server.issued, sys.barred, sys.client.pcs[t].key, sys.client.pcs[t].now, call);
  }

  lemma LostKeepsInv(cfg: Config, sys: System, t: C.Tid)
    requires 0 < cfg.server.ttl && Inv(cfg, sys) && Enabled(cfg, sys, Lost(t))
    ensures Inv(cfg, Apply(cfg, sys, Lost(t)))
  {
    ClientKeepsInv(cfg, sys, C.FetchErr(t));
  }

  lemma RevokeReplyKeepsInv(cfg: Config, sys: System, t: C.Tid, ok: bool)
    requires 0 < cfg.server.ttl && Inv(cfg, sys) && Enabled(cfg, sys, RevokeReply(t, ok))
    ensures Inv(cfg, Apply(cfg, sys, RevokeReply(t, ok)))
  {
    ClientKeepsInv(cfg, sys, C.RevokeReply(t, ok));
  }

  lemma ClientStepKeepsInv(cfg: Config, sys: System, c: C.Step)
    requires 0 < cfg.server.ttl && Inv(cfg, sys) && Enabled(cfg, sys, Client(c))
    ensures Inv(cfg, Apply(cfg, sys, Client(c)))
  {
    var barred := Barred(sys, Client(c));
    var sys1 := sys.(barred := barred);
    if barred != sys.barred {
      SweepEndKeepsInv(cfg, sys, c.t);
    }
    RevokedTokensAreDrawn(cfg, sys.server);
    ClientKeepsInv(cfg, sys1, c);
  }

  lemma ArriveKeepsInv(cfg: Config, sys: System, t: C.Tid, call: nat)
    requires S.CollisionFree(cfg.server) && Inv(cfg, sys) && Enabled(cfg, sys, Arrive(t, call))
    ensures Inv(cfg, Apply(cfg, sys, Arrive(t, call)))
  {
    var key := sys.client.pcs[t].key;
    ServerKeepsInv(cfg, sys, S.Request(call, Token(cfg, key)), sys.clock);
  }

  lemma RevokeArrivesKeepsInv(cfg: Config, sys: System, t: C.Tid)
    requires S.CollisionFree(cfg.server) && Inv(cfg, sys) && Enabled(cfg, sys, RevokeArrives(t))
    ensures Inv(cfg, Apply(cfg, sys, RevokeArrives(t)))
  {
    var token := sys.client.pcs[t].token;
    var sys1 := sys.(server := S.Apply(cfg.server, sys.server, S.Revoke(token)));
    RevokeArrivesIs(cfg, sys, t);
    ServerKeepsInv(cfg, sys, S.Revoke(token), sys.clock);
    RevokeMarks(cfg, sys.server, token);
    ServeKeepsInv(cfg, sys1, t, token in sys.server.issued);
  }

  lemma RevokeArrivesIs(cfg: Config, sys: System, t: C.Tid)
    requires Enabled(cfg, sys, RevokeArrives(t))
    ensures t in sys.client.pcs && sys.client.pcs[t].Revoking?
    ensures var token := sys.client.pcs[t].token;
      && S.Enabled(cfg.server, sys.server, S.Revoke(token))
      && Apply(cfg, sys, RevokeArrives(t)) == sys.(server := S.Apply(cfg.server, sys.server, S.Revoke(token)),
                                                   served := sys.served[t := token in sys.server.issued])
  {
  }

  lemma ServeKeepsInv(cfg: Config, sys: System, t: C.Tid, known: bool)
    requires Inv(cfg, sys) && t in sys.client.pcs && sys.client.pcs[t].Revoking?
    requires known ==> sys.client.pcs[t].token in sys.server.revoked
    ensures Inv(cfg, sys.(served := sys.served[t := known]))
  {
    ServeKeepsServed(sys.server, sys.barred, sys.client.pcs, sys.served, t, known);
  }

  lemma RevokeMarks(cfg: Config, s: S.State, token: string)
    requires S.Inv(cfg.server, s) && S.Enabled(cfg.server, s, S.Revoke(token))
    ensures token in s.issued ==> token in S.Apply(cfg.server, s, S.Revoke(token)).revoked
  {
    if token in s.issued {
      assert S.IssueOk(cfg.server, s.clients, s.clock, s.drawn, token, s.issued[token]);
    }
  }

  lemma ServeKeepsServed(server: S.State, barred: set<string>, pcs: map<C.Tid, C.Pc>, served: map<C.Tid, bool>,
                         t: C.Tid, known: bool)
    requires ServedOk(server, barred, pcs, served) && t in pcs && pcs[t].Revoking?
    requires known ==> pcs[t].token in server.revoked
    ensures ServedOk(server, barred, pcs, served[t := known])
  {
  }

  // ---- Runs ---------------------------------------------------------------

  ghost function At(cfg: Config, steps: seq<Step>, n: nat): System
    requires n <= |steps|
  {
    if n == 0 then START
    else
      var sys := At(cfg, steps, n - 1);
      if Enabled(cfg, sys, steps[n - 1]) then Apply(cfg, sys, steps[n - 1]) else sys
  }

  ghost predicate Taken(cfg: Config, steps: seq<Step>, n: nat)
    requires n < |steps|
  {
    Enabled(cfg, At(cfg, steps, n), steps[n])
  }

  ghost predicate Run(cfg: Config, steps: seq<Step>) {
    && 0 < cfg.server.ttl && S.CollisionFree(cfg.server)
    && forall n | 0 <= n < |steps| :: Taken(cfg, steps, n)
  }

  lemma AtStep(cfg: Config, steps: seq<Step>, n: nat)
    requires Run(cfg, steps) && n < |steps|
    ensures Enabled(cfg, At(cfg, steps, n), steps[n])
    ensures At(cfg, steps, n + 1) == Apply(cfg, At(cfg, steps, n), steps[n])
  {
    assert Taken(cfg, steps, n);
  }

  lemma {:induction false} RunKeepsInv(cfg: Config, steps: seq<Step>, n: nat)
    requires Run(cfg, steps) && n <= |steps|
    ensures Inv(cfg, At(cfg, steps, n))
  {
    if n > 0 {
      RunKeepsInv(cfg, steps, n - 1);
      AtStep(cfg, steps, n - 1);
      StepKeepsInv(cfg, At(cfg, steps, n - 1), steps[n - 1]);
    }
  }
}

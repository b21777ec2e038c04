/** Building runs of `Coupled`: paths from one state to another, and a fetch that can always be made. */
module CoupledRuns {
  import opened Prelude
  import opened Types
  import opened Coupled
  import C = CacheSteps
  import S = Server
  import Service

  // ---- Paths --------------------------------------------------------------

  /** The steps `more` lead from `s` to `t`. */
  ghost predicate Path(cfg: Config, s: System, more: seq<Step>, t: System)
    decreases |more|
  {
    if more == [] then s == t
    else Enabled(cfg, s, more[0]) && Path(cfg, Apply(cfg, s, more[0]), more[1..], t)
  }

  ghost predicate Leads(cfg: Config, s: System, t: System) {
    exists more :: Path(cfg, s, more, t)
  }

  lemma {:induction false} PathAppend(cfg: Config, s: System, more: seq<Step>, t: System, step: Step)
    requires Path(cfg, s, more, t) && Enabled(cfg, t, step)
    ensures Path(cfg, s, more + [step], Apply(cfg, t, step))
    decreases |more|
  {
    if more == [] {
      assert (more + [step])[1..] == [];
    } else {
      PathAppend(cfg, Apply(cfg, s, more[0]), more[1..], t, step);
      assert (more + [step])[1..] == more[1..] + [step];
    }
  }

  lemma Then(cfg: Config, s: System, t: System, step: Step, next: System)
    requires Leads(cfg, s, t) && Enabled(cfg, t, step) && next == Apply(cfg, t, step)
    ensures Leads(cfg, s, next)
  {
    var more :| Path(cfg, s, more, t);
    PathAppend(cfg, s, more, t, step);
  }

  lemma Stay(cfg: Config, s: System)
    ensures Leads(cfg, s, s)
  {
    assert Path(cfg, s, [], s);
  }

  lemma {:induction false} PathKeepsInv(cfg: Config, s: System, more: seq<Step>, t: System)
    requires 0 < cfg.server.ttl && S.CollisionFree(cfg.server) && Inv(cfg, s) && Path(cfg, s, more, t)
    ensures Inv(cfg, t)
    decreases |more|
  {
    if more != [] {
      StepKeepsInv(cfg, s, more[0]);
      PathKeepsInv(cfg, Apply(cfg, s, more[0]), more[1..], t);
    }
  }

  // ---- Paths and runs -----------------------------------------------------

  lemma {:induction false} AtPrefix(cfg: Config, steps: seq<Step>, more: seq<Step>, n: nat)
    requires n <= |steps|
    ensures At(cfg, steps + more, n) == At(cfg, steps, n)
  {
    if n > 0 {
      AtPrefix(cfg, steps, more, n - 1);
    }
  }

  lemma RunExtends(cfg: Config, steps: seq<Step>, step: Step)
    requires Run(cfg, steps) && Enabled(cfg, At(cfg, steps, |steps|), step)
    ensures Run(cfg, steps + [step])
    ensures At(cfg, steps + [step], |steps| + 1) == Apply(cfg, At(cfg, steps, |steps|), step)
  {
    forall n | 0 <= n <= |steps|
      ensures Taken(cfg, steps + [step], n)
    {
      AtPrefix(cfg, steps, [step], n);
      assert n < |steps| ==> Taken(cfg, steps, n);
    }
    AtPrefix(cfg, steps, [step], |steps|);
  }

  /** A run can be continued along any path from where it ends. */
  lemma {:induction false} RunThenPath(cfg: Config, steps: seq<Step>, more: seq<Step>, t: System)
    requires Run(cfg, steps) && Path(cfg, At(cfg, steps, |steps|), more, t)
    ensures Run(cfg, steps + more) && At(cfg, steps + more, |steps + more|) == t
    decreases |more|
  {
    if more == [] {
      assert steps + more == steps;
    } else {
      RunExtends(cfg, steps, more[0]);
      RunThenPath(cfg, steps + [more[0]], more[1..], t);
      assert steps + [more[0]] + more[1..] == steps + more;
    }
  }

  // ---- One goroutine on its way -------------------------------------------

  /** `sys` with one goroutine and the lock as given. */
  function With(sys: System, t: C.Tid, pc: C.Pc, readers: set<C.Tid>, writer: Option<C.Tid>): System {
    sys.(client := sys.client.(pcs := sys.client.pcs[t := pc], readers := readers, writer := writer))
  }

  /** A step that moves this goroutine and the lock, and nothing else. */
  predicate Moves(buffer: Duration, client: C.State, c: C.Step, pc: C.Pc, readers: set<C.Tid>, writer: Option<C.Tid>) {
    && C.Enabled(client, c) && C.Next(buffer, client, c) == pc && C.CacheAfter(client, c) == (client.cache, client.log)
    && readers == (if C.HoldsRead(pc) then client.readers + {c.t} else client.readers - {c.t})
    && writer == (if C.HoldsWrite(pc) then Some(c.t) else if client.writer == Some(c.t) then None else client.writer)
  }

  lemma ClientMoves(cfg: Config, from: System, sys: System, here: System, t: C.Tid, c: C.Step,
                    pc: C.Pc, readers: set<C.Tid>, writer: Option<C.Tid>)
    requires Leads(cfg, from, here) && c.t == t
    requires !c.FetchOk? && !c.FetchErr? && !c.RevokeReply? && !c.Unlock? && (c.Call? ==> c.now == here.clock)
    requires Moves(cfg.buffer, here.client, c, pc, readers, writer)
    requires here.client.pcs[t := pc] == sys.client.pcs[t := pc]
    requires here == sys.(client := sys.client.(
             pcs := here.client.pcs, readers := here.client.readers, writer := here.client.writer))
    ensures Leads(cfg, from, With(sys, t, pc, readers, writer))
  {
    Then(cfg, from, here, Client(c), With(sys, t, pc, readers, writer));
  }

  /** One more such step of a goroutine that has got as far as `pc`. */
  lemma GoesOn(cfg: Config, from: System, sys: System, t: C.Tid, pc: C.Pc, readers: set<C.Tid>, writer: Option<C.Tid>,
               c: C.Step, pc': C.Pc, readers': set<C.Tid>, writer': Option<C.Tid>)
    requires Leads(cfg, from, With(sys, t, pc, readers, writer)) && c.t == t
    requires !c.FetchOk? && !c.FetchErr? && !c.RevokeReply? && !c.Unlock? && !c.Call?
    requires Moves(cfg.buffer, With(sys, t, pc, readers, writer).client, c, pc', readers', writer')
    ensures Leads(cfg, from, With(sys, t, pc', readers', writer'))
  {
    ClientMoves(cfg, from, sys, With(sys, t, pc, readers, writer), t, c, pc', readers', writer');
  }

  predicate LockFree(client: C.State) { client.writer == None && client.readers == {} }

  /** Nobody holds the lock, and `t` is new. */
  ghost predicate CanCall(cfg: Config, sys: System, t: C.Tid) {
    LockFree(sys.client) && t !in sys.client.pcs && t !in sys.flights
  }

  lemma Calls(cfg: Config, from: System, sys: System, t: C.Tid, key: string)
    requires Leads(cfg, from, sys) && CanCall(cfg, sys, t)
    ensures Leads(cfg, from, With(sys, t, C.Called(key, sys.clock), {}, None))
  {
    ClientMoves(cfg, from, sys, sys, t, C.Call(t, key, sys.clock), C.Called(key, sys.clock), {}, None);
  }

  lemma Reads(cfg: Config, from: System, sys: System, t: C.Tid, key: string)
    requires Leads(cfg, from, sys) && CanCall(cfg, sys, t)
    ensures Leads(cfg, from, With(sys, t, C.Reading(key, sys.clock), {t}, None))
  {
    Calls(cfg, from, sys, t, key);
    GoesOn(cfg, from, sys, t, C.Called(key, sys.clock), {}, None, C.RLock(t), C.Reading(key, sys.clock), {t}, None);
  }

  /** A fresh entry is returned. */
  lemma Hits(cfg: Config, from: System, sys: System, t: C.Tid, key: string)
    requires Leads(cfg, from, sys) && CanCall(cfg, sys, t) && C.Hit(sys.client.cache, key, sys.clock, cfg.buffer)
    ensures Leads(cfg, from, With(sys, t, C.ReadHit(key, sys.clock, sys.client.cache[key].token), {t}, None))
  {
    var hit := C.ReadHit(key, sys.clock, sys.client.cache[key].token);
    Reads(cfg, from, sys, t, key);
    GoesOn(cfg, from, sys, t, C.Reading(key, sys.clock), {t}, None, C.Read(t), hit, {t}, None);
  }

  lemma Misses(cfg: Config, from: System, sys: System, t: C.Tid, key: string)
    requires Leads(cfg, from, sys) && CanCall(cfg, sys, t) && !C.Hit(sys.client.cache, key, sys.clock, cfg.buffer)
    ensures Leads(cfg, from, With(sys, t, C.ReadMiss(key, sys.clock), {t}, None))
  {
    Reads(cfg, from, sys, t, key);
    GoesOn(cfg, from, sys, t, C.Reading(key, sys.clock), {t}, None, C.Read(t), C.ReadMiss(key, sys.clock), {t}, None);
  }

  lemma Waits(cfg: Config, from: System, sys: System, t: C.Tid, key: string)
    requires Leads(cfg, from, sys) && CanCall(cfg, sys, t) && !C.Hit(sys.client.cache, key, sys.clock, cfg.buffer)
    ensures Leads(cfg, from, With(sys, t, C.Gap(key, sys.clock), {}, None))
  {
    Misses(cfg, from, sys, t, key);
    GoesOn(cfg, from, sys, t, C.ReadMiss(key, sys.clock), {t}, None, C.RUnlock(t), C.Gap(key, sys.clock), {}, None);
  }

  lemma Rechecks(cfg: Config, from: System, sys: System, t: C.Tid, key: string)
    requires Leads(cfg, from, sys) && CanCall(cfg, sys, t) && !C.Hit(sys.client.cache, key, sys.clock, cfg.buffer)
    ensures Leads(cfg, from, With(sys, t, C.Rechecking(key, sys.clock), {}, Some(t)))
  {
    Waits(cfg, from, sys, t, key);
    GoesOn(cfg, from, sys, t, C.Gap(key, sys.clock), {}, None, C.Lock(t), C.Rechecking(key, sys.clock), {}, Some(t));
  }

  /** Without a fresh entry, the goroutine gets as far as the fetch. */
  lemma Asks(cfg: Config, from: System, sys: System, t: C.Tid, key: string)
    requires Leads(cfg, from, sys) && CanCall(cfg, sys, t) && !C.Hit(sys.client.cache, key, sys.clock, cfg.buffer)
    ensures Leads(cfg, from, With(sys, t, C.Fetching(key, sys.clock), {}, Some(t)))
  {
    var checking := C.Rechecking(key, sys.clock);
    Rechecks(cfg, from, sys, t, key);
    GoesOn(cfg, from, sys, t, checking, {}, Some(t), C.Recheck(t), C.Fetching(key, sys.clock), {}, Some(t));
  }

  // ---- A revocation -------------------------------------------------------

  /** The server says yes. */
  lemma Confirms(cfg: Config, from: System, sys: System, t: C.Tid, token: string)
    requires Leads(cfg, from, With(sys, t, C.Revoking(token), {}, None)) && LockFree(sys.client) && t in sys.served
    ensures Leads(cfg, from, With(sys, t, C.Sweeper(token), {}, None))
  {
    var here, there := With(sys, t, C.Revoking(token), {}, None), With(sys, t, C.Sweeper(token), {}, None);
    assert here.client.pcs[t := C.Sweeper(token)] == there.client.pcs;
    Then(cfg, from, here, RevokeReply(t, true), there);
  }

  /** A sweep ends that has nothing left to visit, its token never having been drawn. */
  lemma SweepEnds(cfg: Config, from: System, sys: System, t: C.Tid, token: string)
    requires Leads(cfg, from, With(sys, t, C.Sweeping(token, {}), {}, Some(t))) && token !in sys.server.drawn
    ensures Leads(cfg, from, With(sys, t, C.Swept(token), {}, None))
  {
    var here, there := With(sys, t, C.Sweeping(token, {}), {}, Some(t)), With(sys, t, C.Swept(token), {}, None);
    assert here.client.pcs[t := C.Swept(token)] == there.client.pcs;
    Then(cfg, from, here, Client(C.Unlock(t)), there);
  }

  // ---- A fetch that succeeds ----------------------------------------------

  /** The server would grant this client a token for `key`, and may yet draw `token`. */
  ghost predicate CanGrant(cfg: Config, s: S.State, key: string, token: string) {
    && Service.GrantError(cfg.server.env, Some(Token(cfg, key)), s.clients) == None
    && cfg.server.inPlay(token) && token != "" && token !in s.drawn
  }

  function Granted(cfg: Config, s: S.State, key: string): ClientRecord
    requires cfg.clientId in s.clients
  {
    s.clients[cfg.clientId]
  }

  lemma GrantedIsKnown(cfg: Config, s: S.State, key: string, token: string)
    requires CanGrant(cfg, s, key, token)
    ensures cfg.clientId in s.clients
  {
  }

  /** The request has arrived and is at `c` with the server. */
  function Asked(sys: System, t: C.Tid, key: string, call: nat, c: S.Call, drawn: set<string>): System {
    With(sys, t, C.Fetching(key, sys.clock), {}, Some(t))
      .(flights := sys.flights[t := call], server := sys.server.(calls := sys.server.calls[call := c], drawn := drawn))
  }

  lemma Arrives(cfg: Config, from: System, sys: System, t: C.Tid, key: string, call: nat, token: string)
    requires Leads(cfg, from, With(sys, t, C.Fetching(key, sys.clock), {}, Some(t))) && CanCall(cfg, sys, t)
    requires CanGrant(cfg, sys.server, key, token) && call !in sys.server.calls
    ensures cfg.clientId in sys.server.clients
    ensures Leads(cfg, from, Asked(sys, t, key, call, S.Granted(Token(cfg, key), sys.server.clients[cfg.clientId]),
                                   sys.server.drawn))
  {
    GrantedIsKnown(cfg, sys.server, key, token);
    Then(cfg, from, With(sys, t, C.Fetching(key, sys.clock), {}, Some(t)), Arrive(t, call),
         Asked(sys, t, key, call, S.Granted(Token(cfg, key), sys.server.clients[cfg.clientId]), sys.server.drawn));
  }

  lemma Draws(cfg: Config, from: System, sys: System, t: C.Tid, key: string, call: nat, token: string,
              client: ClientRecord)
    requires Leads(cfg, from, Asked(sys, t, key, call, S.Granted(Token(cfg, key), client), sys.server.drawn))
    requires CanGrant(cfg, sys.server, key, token)
    ensures Leads(cfg, from, Asked(sys, t, key, call, S.Drawn(Token(cfg, key), client, token, sys.server.clock),
                                   sys.server.drawn + {token}))
  {
    var here := Asked(sys, t, key, call, S.Granted(Token(cfg, key), client), sys.server.drawn);
    var drawn := S.Drawn(Token(cfg, key), client, token, sys.server.clock);
    assert here.server.calls[call := drawn] == sys.server.calls[call := drawn];
    Then(cfg, from, here, Server(S.Draw(call, token)), Asked(sys, t, key, call, drawn, sys.server.drawn + {token}));
  }

  /** What `sys` has become when goroutine `t` has fetched `token`. */
  ghost predicate Fetched(cfg: Config, sys: System, t: C.Tid, key: string, token: string, last: System) {
    && key in last.client.cache
    && last.client.cache[key] == C.Entry(token, sys.clock + C.Seconds(cfg.server.ttl / SECOND))
    && last.client.pcs.Keys == sys.client.pcs.Keys + {t} && LockFree(last.client)
    && last.flights == sys.flights && last.clock == sys.clock
    && token in last.server.issued && last.server.issued[token].at == sys.server.clock == last.server.clock
    && token !in last.server.revoked
  }

  lemma Delivers(cfg: Config, from: System, sys: System, t: C.Tid, key: string, call: nat, token: string,
                 client: ClientRecord)
    returns (last: System)
    requires S.CollisionFree(cfg.server) && token !in sys.server.revoked && CanCall(cfg, sys, t)
    requires Leads(cfg, from, Asked(sys, t, key, call, S.Drawn(Token(cfg, key), client, token, sys.server.clock),
                                    sys.server.drawn + {token}))
    ensures Leads(cfg, from, last) && Fetched(cfg, sys, t, key, token, last)
  {
    var saved := Saves(cfg, from, sys, t, key, call, token, client);
    last := Replies(cfg, from, saved, t, key, sys.clock, token);
    assert sys.flights[t := call] - {t} == sys.flights;
  }

  /** The server saves the token. */
  lemma Saves(cfg: Config, from: System, sys: System, t: C.Tid, key: string, call: nat, token: string,
              client: ClientRecord)
    returns (saved: System)
    requires S.CollisionFree(cfg.server) && token !in sys.server.revoked
    requires Leads(cfg, from, Asked(sys, t, key, call, S.Drawn(Token(cfg, key), client, token, sys.server.clock),
                                    sys.server.drawn + {token}))
    ensures Leads(cfg, from, saved) && saved.flights == sys.flights[t := call] && saved.clock == sys.clock
    ensures saved.client == With(sys, t, C.Fetching(key, sys.clock), {}, Some(t)).client
    ensures var s := saved.server;
      && call in s.calls && s.calls[call].Issued? && s.calls[call].response.accessToken == token
      && s.calls[call].response.expiresIn == cfg.server.ttl / SECOND
      && token in s.issued && s.issued[token].at == sys.server.clock == s.clock && token !in s.revoked
  {
    var drawn := Asked(sys, t, key, call, S.Drawn(Token(cfg, key), client, token, sys.server.clock),
                       sys.server.drawn + {token});
    saved := Apply(cfg, drawn, Server(S.Save(call)));
    Then(cfg, from, drawn, Server(S.Save(call)), saved);
  }

  /** The answer comes in. */
  lemma Hears(cfg: Config, from: System, here: System, t: C.Tid, key: string, now: Time, token: string)
    returns (next: System)
    requires Leads(cfg, from, here) && t in here.client.pcs && here.client.pcs[t] == C.Fetching(key, now)
    requires here.client.writer == Some(t) && here.client.readers == {}
    requires t in here.flights && here.flights[t] in here.server.calls
    requires var c := here.server.calls[here.flights[t]];
      c.Issued? && c.response.accessToken == token && c.response.expiresIn == cfg.server.ttl / SECOND
    ensures Leads(cfg, from, next)
    ensures next.client.cache == here.client.cache[key := C.Entry(token, now + C.Seconds(cfg.server.ttl / SECOND))]
    ensures next.client.pcs == here.client.pcs[t := C.Leaving(key, now, C.Got(token, false))]
    ensures next.client.writer == Some(t) && next.client.readers == {}
    ensures next.flights == here.flights - {t} && next.clock == here.clock && next.server == here.server
  {
    next := Apply(cfg, here, Reply(t));
    Then(cfg, from, here, Reply(t), next);
  }

  /** It is stored, and the lock is given back. */
  lemma Replies(cfg: Config, from: System, here: System, t: C.Tid, key: string, now: Time, token: string)
    returns (last: System)
    requires Leads(cfg, from, here) && t in here.client.pcs && here.client.pcs[t] == C.Fetching(key, now)
    requires here.client.writer == Some(t) && here.client.readers == {}
    requires t in here.flights && here.flights[t] in here.server.calls
    requires var c := here.server.calls[here.flights[t]];
      c.Issued? && c.response.accessToken == token && c.response.expiresIn == cfg.server.ttl / SECOND
    ensures Leads(cfg, from, last)
    ensures last.client.cache == here.client.cache[key := C.Entry(token, now + C.Seconds(cfg.server.ttl / SECOND))]
    ensures last.client.pcs.Keys == here.client.pcs.Keys && LockFree(last.client)
    ensures last.flights == here.flights - {t} && last.clock == here.clock && last.server == here.server
  {
    var next := Hears(cfg, from, here, t, key, now, token);
    last := Unlocks(cfg, from, next, t);
  }

  lemma Unlocks(cfg: Config, from: System, here: System, t: C.Tid) returns (last: System)
    requires Leads(cfg, from, here) && t in here.client.pcs && here.client.pcs[t].Leaving?
    requires here.client.writer == Some(t) && here.client.readers == {}
    ensures Leads(cfg, from, last)
    ensures last.client.cache == here.client.cache && last.client.pcs.Keys == here.client.pcs.Keys
            && LockFree(last.client)
    ensures last.flights == here.flights && last.clock == here.clock && last.server == here.server
  {
    last := Apply(cfg, here, Client(C.Unlock(t)));
    Then(cfg, from, here, Client(C.Unlock(t)), last);
  }

  /** With the lock free and no fresh entry, a new goroutine can be given any token not drawn yet. */
  lemma CanFetch(cfg: Config, from: System, sys: System, t: C.Tid, key: string, token: string) returns (last: System)
    requires Leads(cfg, from, sys) && S.CollisionFree(cfg.server) && S.Inv(cfg.server, sys.server)
    requires CanCall(cfg, sys, t) && !C.Hit(sys.client.cache, key, sys.clock, cfg.buffer)
    requires CanGrant(cfg, sys.server, key, token)
    ensures Leads(cfg, from, last) && Fetched(cfg, sys, t, key, token, last)
  {
    var call := NewCall(sys.server.calls);
    RevokedTokensAreDrawn(cfg, sys.server);
    Asks(cfg, from, sys, t, key);
    Arrives(cfg, from, sys, t, key, call, token);
    Draws(cfg, from, sys, t, key, call, token, sys.server.clients[cfg.clientId]);
    last := Delivers(cfg, from, sys, t, key, call, token, sys.server.clients[cfg.clientId]);
  }

  lemma NewCall(calls: map<nat, S.Call>) returns (call: nat)
    ensures call !in calls
  {
    call := Fresh(calls.Keys);
  }

  /** A number outside a finite set. */
  lemma {:induction false} Fresh(used: set<nat>) returns (n: nat)
    ensures n !in used
    ensures forall x | x in used :: x < n
    decreases |used|
  {
    if used == {} {
      n := 0;
    } else {
      var x :| x in used;
      var rest := used - {x};
      var m := Fresh(rest);
      assert used == rest + {x};
      n := if x < m then m else x + 1;
    }
  }
}

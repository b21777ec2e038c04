/**
 The ACME HTTP-01 handlers of the sample server under concurrency.  A handler
 is a short program of store operations, each atomic under the store's lock;
 any number of handlers interleave.
 */
module CertSteps {
  import opened Prelude
  import opened Types
  import Middleware

  datatype Status = Pending | Issued

  datatype Certificate = Certificate(id: string, domain: string, status: Status, createdAt: Time, expiresAt: Time)

  datatype Challenge = Challenge(certificateId: string, domain: string, token: string, keyAuthorization: string,
                                 createdAt: Time)

  type Hid = nat

  const VALIDITY: int := 90 * 24 * 3600 * SECOND
  const NO_TIME: Time := 0   // the zero time of a certificate that was not issued

  /** A handler's progress; `id` is the certificate its route names. */
  datatype Pc =
    | Started(id: string, ch: Challenge)
    | Missing(id: string, ch: Challenge)       // looked the certificate up, not found
    | Ready(id: string, ch: Challenge)         // the certificate is there, the challenge not yet saved
    | Provisioned(id: string)
    | Completing(id: string, token: string)
    | Deleted(id: string)                      // challenge deleted, certificate not yet looked up
    | Loaded(id: string, cert: Certificate)    // its copy of the certificate, already marked issued
    | Completed(id: string)
    | NotFound(id: string)

  predicate Done(pc: Pc) { pc.Provisioned? || pc.Completed? || pc.NotFound? }

  /**
   Every challenge ever saved, by serial number, and what became of it: live
   under its token, consumed by a completion, or overwritten.
   */
  datatype History = History(saved: seq<Challenge>, live: map<string, nat>, consumed: map<nat, Hid>,
                             overwritten: set<nat>)

  function Saving(p: History, ch: Challenge): History {
    History(p.saved + [ch], p.live[ch.token := |p.saved|], p.consumed,
            if ch.token in p.live then p.overwritten + {p.live[ch.token]} else p.overwritten)
  }

  function Consuming(p: History, token: string, h: Hid): History {
    History(p.saved, p.live - {token},
            if token in p.live then p.consumed[p.live[token] := h] else p.consumed, p.overwritten)
  }

  /** The store's two maps, the handlers with the token each was admitted under, and what happened so far. */
  datatype State = State(
    certificates: map<string, Certificate>,
    challenges: map<string, Challenge>,
    pcs: map<Hid, Pc>,
    bearers: map<Hid, TokenRecord>,
    past: History)

  datatype Step =
    | BeginStart(h: Hid, bearer: TokenRecord, id: string, ch: Challenge)
    | LookUp(h: Hid)
    | SavePending(h: Hid)
    | SaveChallenge(h: Hid)
    | BeginComplete(h: Hid, bearer: TokenRecord, id: string, token: string)
    | Delete(h: Hid)
    | Load(h: Hid, now: Time)
    | SaveIssued(h: Hid)

  function PcOf(s: State, h: Hid): Option<Pc> {
    if h in s.pcs then Some(s.pcs[h]) else None
  }

  /** Fields present, and the middleware let the request through. */
  predicate Enabled(base: string, s: State, step: Step) {
    var pc := PcOf(s, step.h);
    match step
    case BeginStart(_, bearer, id, ch) =>
      && pc.None? && ResourceAdmits(bearer, Middleware.ResourceOf(base, id))
      && id != "" && ch.certificateId == id && ch.domain != "" && ch.token != "" && ch.keyAuthorization != ""
    case LookUp(_) => pc.Some? && pc.value.Started?
    case SavePending(_) => pc.Some? && pc.value.Missing?
    case SaveChallenge(_) => pc.Some? && pc.value.Ready?
    case BeginComplete(_, bearer, id, token) =>
      pc.None? && ResourceAdmits(bearer, Middleware.ResourceOf(base, id)) && id != "" && token != ""
    case Delete(_) => pc.Some? && pc.value.Completing?
    case Load(_, _) => pc.Some? && pc.value.Deleted?
    case SaveIssued(_) => pc.Some? && pc.value.Loaded?
  }

  function PendingFor(ch: Challenge): Certificate {
    Certificate(ch.certificateId, ch.domain, Pending, ch.createdAt, NO_TIME)
  }

  function MarkIssued(cert: Certificate, now: Time): Certificate {
    cert.(status := Issued, expiresAt := now + VALIDITY)
  }

  function Next(s: State, step: Step): Pc
    requires match step
             case BeginStart(_, _, _, _) => true
             case BeginComplete(_, _, _, _) => true
             case LookUp(h) => PcOf(s, h).Some? && s.pcs[h].Started?
             case SavePending(h) => PcOf(s, h).Some? && s.pcs[h].Missing?
             case SaveChallenge(h) => PcOf(s, h).Some? && s.pcs[h].Ready?
             case Delete(h) => PcOf(s, h).Some? && s.pcs[h].Completing?
             case Load(h, _) => PcOf(s, h).Some? && s.pcs[h].Deleted?
             case SaveIssued(h) => PcOf(s, h).Some? && s.pcs[h].Loaded?
  {
    match step
    case BeginStart(_, _, id, ch) => Started(id, ch)
    case LookUp(h) =>
      if s.pcs[h].id in s.certificates then Ready(s.pcs[h].id, s.pcs[h].ch) else Missing(s.pcs[h].id, s.pcs[h].ch)
    case SavePending(h) => Ready(s.pcs[h].id, s.pcs[h].ch)
    case SaveChallenge(h) => Provisioned(s.pcs[h].id)
    case BeginComplete(_, _, id, token) => Completing(id, token)
    case Delete(h) => if s.pcs[h].token in s.challenges then Deleted(s.pcs[h].id) else NotFound(s.pcs[h].id)
    case Load(h, now) =>
      var id := s.pcs[h].id;
      if id in s.certificates then Loaded(id, MarkIssued(s.certificates[id], now)) else NotFound(id)
    case SaveIssued(h) => Completed(s.pcs[h].id)
  }

  function Apply(base: string, s: State, step: Step): State
    requires Enabled(base, s, step)
  {
    var s1 := s.(pcs := s.pcs[step.h := Next(s, step)]);
    match step
    case BeginStart(h, bearer, _, _) => s1.(bearers := s.bearers[h := bearer])
    case BeginComplete(h, bearer, _, _) => s1.(bearers := s.bearers[h := bearer])
    case SavePending(h) =>
      var cert := PendingFor(s.pcs[h].ch);
      s1.(certificates := s.certificates[cert.id := cert])
    case SaveChallenge(h) =>
      var ch := s.pcs[h].ch;
      s1.(challenges := s.challenges[ch.token := ch], past := Saving(s.past, ch))
    case Delete(h) =>
      var token := s.pcs[h].token;
      if token !in s.challenges then s1
      else s1.(challenges := s.challenges - {token}, past := Consuming(s.past, token, h))
    case SaveIssued(h) =>
      var cert := s.pcs[h].cert;
      s1.(certificates := s.certificates[cert.id := cert])
    case _ => s1
  }

  const START: State := State(map[], map[], map[], map[], History([], map[], map[], {}))

  // ---- What every step keeps ----------------------------------------------

  /** Both maps are keyed by the record's own identifier, and every challenge has its certificate. */
  ghost predicate StoreOk(s: State) {
    && (forall k | k in s.certificates :: s.certificates[k].id == k)
    && (forall k | k in s.challenges :: s.challenges[k].token == k && s.challenges[k].certificateId in s.certificates)
  }

  /** Handler `h` has consumed a challenge. */
  ghost predicate HasConsumed(p: History, h: Hid) {
    exists serial :: serial in p.consumed && p.consumed[serial] == h
  }

  ghost predicate PcOk(certificates: map<string, Certificate>, p: History, h: Hid, pc: Pc) {
    match pc
    case Started(id, ch) => ch.certificateId == id
    case Missing(id, ch) => ch.certificateId == id
    case Ready(id, ch) => ch.certificateId == id && id in certificates
    case Deleted(id) => HasConsumed(p, h)
    case Loaded(id, cert) => cert.id == id && id in certificates && cert.status == Issued && HasConsumed(p, h)
    case Completed(id) => HasConsumed(p, h)
    case _ => true
  }

  ghost predicate PcsOk(s: State) {
    forall h | h in s.pcs :: PcOk(s.certificates, s.past, h, s.pcs[h])
  }

  /** Handler `h` admitted under its bearer's resource. */
  ghost predicate BearersOk(base: string, s: State) {
    && s.bearers.Keys == s.pcs.Keys
    && forall h | h in s.pcs :: ResourceAdmits(s.bearers[h], Middleware.ResourceOf(base, s.pcs[h].id))
  }

  /** A challenge is served as it was last saved. */
  ghost predicate LiveOk(challenges: map<string, Challenge>, p: History) {
    && p.live.Keys == challenges.Keys
    && forall k | k in p.live ::
         && p.live[k] < |p.saved| && p.saved[p.live[k]] == challenges[k] && challenges[k].token == k
         && forall n | p.live[k] < n < |p.saved| :: p.saved[n].token != k
  }

  ghost predicate IsLive(p: History, serial: nat) {
    serial < |p.saved| && p.saved[serial].token in p.live && p.live[p.saved[serial].token] == serial
  }

  /** Every challenge ever saved is live, consumed or overwritten, and only one of these. */
  ghost predicate Conserved(p: History) {
    && (forall n | 0 <= n < |p.saved| :: IsLive(p, n) || n in p.consumed || n in p.overwritten)
    && (forall n | n in p.consumed :: n < |p.saved| && !IsLive(p, n) && n !in p.overwritten)
    && (forall n | n in p.overwritten :: n < |p.saved| && !IsLive(p, n))
  }

  /** An overwritten challenge has a later one for the same token. */
  ghost predicate OverwrittenOk(p: History) {
    forall n | n in p.overwritten ::
      n < |p.saved| && exists k :: n < k < |p.saved| && p.saved[k].token == p.saved[n].token
  }

  /** A completion consumes one challenge. */
  ghost predicate ConsumersOk(pcs: map<Hid, Pc>, consumed: map<nat, Hid>) {
    && (forall n | n in consumed :: consumed[n] in pcs && Consumer(pcs[consumed[n]]))
    && forall n, m | n in consumed && m in consumed && consumed[n] == consumed[m] :: n == m
  }

  predicate Consumer(pc: Pc) { pc.Deleted? || pc.Loaded? || pc.Completed? || pc.NotFound? }

  /** An issued certificate was completed by a handler of its own route. */
  ghost predicate IssuedOk(s: State) {
    forall k | k in s.certificates && s.certificates[k].status == Issued ::
      exists h :: h in s.pcs && s.pcs[h] == Completed(k)
  }

  ghost predicate Inv(base: string, s: State) {
    && StoreOk(s) && PcsOk(s) && BearersOk(base, s) && IssuedOk(s)
    && LiveOk(s.challenges, s.past) && Conserved(s.past) && OverwrittenOk(s.past) && ConsumersOk(s.pcs, s.past.consumed)
  }

  lemma StepKeepsStore(base: string, s: State, step: Step)
    requires StoreOk(s) && PcsOk(s) && Enabled(base, s, step)
    ensures StoreOk(Apply(base, s, step))
    ensures forall k | k in s.certificates :: k in Apply(base, s, step).certificates
  {
    assert step.h in s.pcs ==> PcOk(s.certificates, s.past, step.h, s.pcs[step.h]);
  }

  lemma SavingIsLive(challenges: map<string, Challenge>, p: History, ch: Challenge)
    requires LiveOk(challenges, p)
    ensures LiveOk(challenges[ch.token := ch], Saving(p, ch)) && IsLive(Saving(p, ch), |p.saved|)
    ensures forall n | 0 <= n < |p.saved| :: IsLive(Saving(p, ch), n) <==> IsLive(p, n) && p.saved[n].token != ch.token
  {
    assert forall n | 0 <= n < |p.saved| :: Saving(p, ch).saved[n] == p.saved[n];
  }

  lemma SavingConserves(challenges: map<string, Challenge>, p: History, ch: Challenge)
    requires LiveOk(challenges, p) && Conserved(p)
    ensures Conserved(Saving(p, ch))
  {
    SavingIsLive(challenges, p, ch);
    if ch.token in p.live {
      OverwritingPartitions(p, Saving(p, ch), p.live[ch.token]);
    } else {
      assert forall n | 0 <= n < |p.saved| && IsLive(p, n) :: p.saved[n].token != ch.token;
    }
  }

  /** One serial more is live, and one that was live is overwritten. */
  lemma OverwritingPartitions(p: History, q: History, before: nat)
    requires Conserved(p) && IsLive(p, before) && q.consumed == p.consumed && q.overwritten == p.overwritten + {before}
    requires |q.saved| == |p.saved| + 1 && IsLive(q, |p.saved|)
    requires forall n | 0 <= n < |p.saved| :: IsLive(q, n) <==> IsLive(p, n) && n != before
    ensures Conserved(q)
  {
  }

  lemma ConsumingConserves(challenges: map<string, Challenge>, p: History, token: string, h: Hid)
    requires LiveOk(challenges, p) && Conserved(p) && token in challenges
    ensures var q := Consuming(p, token, h);
      && LiveOk(challenges - {token}, q) && Conserved(q)
      && p.live[token] !in p.consumed && q.consumed == p.consumed[p.live[token] := h]
  {
    var q := Consuming(p, token, h);
    assert IsLive(p, p.live[token]);
    forall n | 0 <= n < |p.saved|
      ensures IsLive(q, n) <==> IsLive(p, n) && p.saved[n].token != token
    {
    }
  }

  lemma StepKeepsHistory(base: string, s: State, step: Step)
    requires LiveOk(s.challenges, s.past) && Conserved(s.past) && Enabled(base, s, step)
    ensures var s' := Apply(base, s, step); LiveOk(s'.challenges, s'.past) && Conserved(s'.past)
    ensures forall n | n in s.past.consumed ::
              n in Apply(base, s, step).past.consumed && Apply(base, s, step).past.consumed[n] == s.past.consumed[n]
  {
    if step.SaveChallenge? {
      SavingIsLive(s.challenges, s.past, s.pcs[step.h].ch);
      SavingConserves(s.challenges, s.past, s.pcs[step.h].ch);
    } else if step.Delete? && s.pcs[step.h].token in s.challenges {
      ConsumingConserves(s.challenges, s.past, s.pcs[step.h].token, step.h);
    }
  }

  lemma SavingKeepsOverwritten(challenges: map<string, Challenge>, p: History, ch: Challenge)
    requires LiveOk(challenges, p) && OverwrittenOk(p)
    ensures OverwrittenOk(Saving(p, ch))
  {
    var q := Saving(p, ch);
    assert q.saved[|p.saved|] == ch;
    forall n | n in q.overwritten
      ensures n < |q.saved| && exists k :: n < k < |q.saved| && q.saved[k].token == q.saved[n].token
    {
      if n in p.overwritten {
        var k :| n < k < |p.saved| && p.saved[k].token == p.saved[n].token;
        assert q.saved[k].token == q.saved[n].token;
      } else {
        assert q.saved[n].token == ch.token;
      }
    }
  }

  lemma StepKeepsOverwritten(base: string, s: State, step: Step)
    requires LiveOk(s.challenges, s.past) && OverwrittenOk(s.past) && Enabled(base, s, step)
    ensures OverwrittenOk(Apply(base, s, step).past)
  {
    if step.SaveChallenge? {
      SavingKeepsOverwritten(s.challenges, s.past, s.pcs[step.h].ch);
    }
  }

  lemma StepKeepsPcs(base: string, s: State, step: Step)
    requires StoreOk(s) && PcsOk(s) && LiveOk(s.challenges, s.past) && Conserved(s.past) && Enabled(base, s, step)
    ensures PcsOk(Apply(base, s, step))
  {
    var s' := Apply(base, s, step);
    StepKeepsHistory(base, s, step);
    StepKeepsStore(base, s, step);
    forall h | h in s'.pcs
      ensures PcOk(s'.certificates, s'.past, h, s'.pcs[h])
    {
      assert h in s.pcs ==> PcOk(s.certificates, s.past, h, s.pcs[h]);
      if h == step.h && step.Delete? && s.pcs[h].token in s.challenges {
        assert s'.past.consumed[s.past.live[s.pcs[h].token]] == h;
      }
    }
  }

  lemma StepKeepsBearers(base: string, s: State, step: Step)
    requires BearersOk(base, s) && Enabled(base, s, step)
    ensures BearersOk(base, Apply(base, s, step))
  {
  }

  /** A handler that has consumed nothing yet consumes. */
  lemma ConsumingKeepsConsumers(pcs: map<Hid, Pc>, consumed: map<nat, Hid>, serial: nat, h: Hid, pc: Pc)
    requires ConsumersOk(pcs, consumed) && serial !in consumed && Consumer(pc) && h in pcs && !Consumer(pcs[h])
    ensures ConsumersOk(pcs[h := pc], consumed[serial := h])
  {
  }

  lemma MovingKeepsConsumers(pcs: map<Hid, Pc>, consumed: map<nat, Hid>, h: Hid, pc: Pc)
    requires ConsumersOk(pcs, consumed) && (h in pcs && Consumer(pcs[h]) ==> Consumer(pc))
    ensures ConsumersOk(pcs[h := pc], consumed)
  {
  }

  lemma StepKeepsConsumers(base: string, s: State, step: Step)
    requires LiveOk(s.challenges, s.past) && Conserved(s.past) && ConsumersOk(s.pcs, s.past.consumed)
             && Enabled(base, s, step)
    ensures ConsumersOk(Apply(base, s, step).pcs, Apply(base, s, step).past.consumed)
  {
    if step.Delete? && s.pcs[step.h].token in s.challenges {
      var token := s.pcs[step.h].token;
      ConsumingConserves(s.challenges, s.past, token, step.h);
      ConsumingKeepsConsumers(s.pcs, s.past.consumed, s.past.live[token], step.h, Next(s, step));
    } else {
      MovingKeepsConsumers(s.pcs, s.past.consumed, step.h, Next(s, step));
    }
  }

  lemma StepKeepsIssued(base: string, s: State, step: Step)
    requires StoreOk(s) && PcsOk(s) && IssuedOk(s) && Enabled(base, s, step)
    ensures IssuedOk(Apply(base, s, step))
  {
    var s' := Apply(base, s, step);
    forall k | k in s'.certificates && s'.certificates[k].status == Issued
      ensures exists h :: h in s'.pcs && s'.pcs[h] == Completed(k)
    {
      assert step.h in s.pcs ==> PcOk(s.certificates, s.past, step.h, s.pcs[step.h]);
      if step.SaveIssued? && s.pcs[step.h].id == k {
        assert s'.pcs[step.h] == Completed(k);
      } else {
        var h :| h in s.pcs && s.pcs[h] == Completed(k);
        assert s'.pcs[h] == Completed(k);
      }
    }
  }

  lemma StepKeepsInv(base: string, s: State, step: Step)
    requires Inv(base, s) && Enabled(base, s, step)
    ensures Inv(base, Apply(base, s, step))
  {
    StepKeepsStore(base, s, step);
    StepKeepsPcs(base, s, step);
    StepKeepsBearers(base, s, step);
    StepKeepsHistory(base, s, step);
    StepKeepsOverwritten(base, s, step);
    StepKeepsConsumers(base, s, step);
    StepKeepsIssued(base, s, step);
  }

  // ---- Runs ---------------------------------------------------------------

  ghost function At(base: string, steps: seq<Step>, n: nat): State
    requires n <= |steps|
  {
    if n == 0 then START
    else
      var s := At(base, steps, n - 1);
      if Enabled(base, s, steps[n - 1]) then Apply(base, s, steps[n - 1]) else s
  }

  ghost predicate Taken(base: string, steps: seq<Step>, n: nat)
    requires n < |steps|
  {
    Enabled(base, At(base, steps, n), steps[n])
  }

  ghost predicate Run(base: string, steps: seq<Step>) {
    forall n | 0 <= n < |steps| :: Taken(base, steps, n)
  }

  lemma AtStep(base: string, steps: seq<Step>, n: nat)
    requires Run(base, steps) && n < |steps|
    ensures Enabled(base, At(base, steps, n), steps[n])
    ensures At(base, steps, n + 1) == Apply(base, At(base, steps, n), steps[n])
  {
    assert Taken(base, steps, n);
  }

  lemma {:induction false} RunKeepsInv(base: string, steps: seq<Step>, n: nat)
    requires Run(base, steps) && n <= |steps|
    ensures Inv(base, At(base, steps, n))
  {
    if n == 0 {
      StartIsInv(base);
    } else {
      RunKeepsInv(base, steps, n - 1);
      NextIsInv(base, steps, n - 1);
    }
  }

  lemma StartIsInv(base: string)
    ensures Inv(base, START)
  {
  }

  lemma NextIsInv(base: string, steps: seq<Step>, n: nat)
    requires Run(base, steps) && n < |steps| && Inv(base, At(base, steps, n))
    ensures Inv(base, At(base, steps, n + 1))
  {
    AtStep(base, steps, n);
    NextKeepsInv(base, At(base, steps, n), steps[n], At(base, steps, n + 1));
  }

  lemma NextKeepsInv(base: string, s: State, step: Step, next: State)
    requires Inv(base, s) && Enabled(base, s, step) && next == Apply(base, s, step)
    ensures Inv(base, next)
  {
    StepKeepsInv(base, s, step);
  }
}

/** What holds of the ACME handlers over every interleaving. */
module CertLaws {
  import opened Prelude
  import opened Types
  import opened CertSteps
  import Middleware

  // ---- Records and identifiers --------------------------------------------

  lemma StepGrows(base: string, s: State, step: Step)
    requires Inv(base, s) && Enabled(base, s, step)
    ensures s.certificates.Keys <= Apply(base, s, step).certificates.Keys
    ensures forall h | h in s.bearers ::
              h in Apply(base, s, step).bearers && Apply(base, s, step).bearers[h] == s.bearers[h]
  {
    StepKeepsStore(base, s, step);
  }

  lemma CertificatesStayAt(base: string, steps: seq<Step>, n: nat)
    requires Run(base, steps) && n < |steps|
    ensures At(base, steps, n).certificates.Keys <= At(base, steps, n + 1).certificates.Keys
  {
    RunKeepsInv(base, steps, n);
    AtStep(base, steps, n);
    StepGrows(base, At(base, steps, n), steps[n]);
  }

  lemma {:induction false} CertificatesStay(base: string, steps: seq<Step>, i: nat, j: nat)
    requires Run(base, steps) && i <= j <= |steps|
    ensures At(base, steps, i).certificates.Keys <= At(base, steps, j).certificates.Keys
    decreases j
  {
    if i < j {
      CertificatesStay(base, steps, i, j - 1);
      CertificatesStayAt(base, steps, j - 1);
    }
  }

  /**
   At every moment of every interleaving each stored challenge belongs to a
   stored certificate, both maps are keyed by the record's own identifier,
   and the certificates of any earlier moment are still there.
   */
  lemma StoreIsConsistent(base: string, steps: seq<Step>, i: nat, j: nat)
    requires Run(base, steps) && i <= j <= |steps|
    ensures StoreOk(At(base, steps, j))
    ensures At(base, steps, i).certificates.Keys <= At(base, steps, j).certificates.Keys
  {
    RunKeepsInv(base, steps, j);
    CertificatesStay(base, steps, i, j);
  }

  // ---- Conservation of challenges -----------------------------------------

  function Below(n: nat): set<nat> {
    if n == 0 then {} else Below(n - 1) + {n - 1}
  }

  lemma {:induction false} BelowSize(n: nat)
    ensures |Below(n)| == n && forall x: nat :: x in Below(n) <==> x < n
  {
    if n > 0 {
      BelowSize(n - 1);
    }
  }

  lemma PartitionSize(n: nat, a: set<nat>, b: set<nat>, c: set<nat>)
    requires forall x: nat :: x in Below(n) <==> x in a || x in b || x in c
    requires a !! b && a !! c && b !! c
    ensures n == |a| + |b| + |c|
  {
    BelowSize(n);
    assert Below(n) == a + b + c;
  }

  /** A map that sends no two keys to one value has as many values as keys. */
  lemma {:induction false} ValuesSize(m: map<string, nat>)
    requires forall k, l | k in m && l in m && m[k] == m[l] :: k == l
    ensures |m.Values| == |m|
    decreases |m|
  {
    if m.Keys == {} {
      assert m.Values == {};
    } else {
      var k :| k in m;
      var rest := m - {k};
      ValuesWithout(m, k);
      assert rest.Keys == m.Keys - {k} && |rest| == |rest.Keys| && |m| == |m.Keys|;
      ValuesSize(rest);
    }
  }

  lemma ValuesWithout(m: map<string, nat>, k: string)
    requires k in m && forall j, l | j in m && l in m && m[j] == m[l] :: j == l
    ensures (m - {k}).Values == m.Values - {m[k]}
  {
    forall v | v in m.Values - {m[k]}
      ensures v in (m - {k}).Values
    {
      var l :| l in m && m[l] == v;
      assert l in m - {k};
    }
  }

  /**
   Saves = live + deleted + overwritten, and every single challenge that was
   ever saved is in exactly one of the three states.
   */
  lemma ChallengesAreConserved(base: string, steps: seq<Step>, n: nat)
    requires Run(base, steps) && n <= |steps|
    ensures var s := At(base, steps, n);
      && Conserved(s.past)
      && |s.past.saved| == |s.challenges| + |s.past.consumed| + |s.past.overwritten|
  {
    var s := At(base, steps, n);
    RunKeepsInv(base, steps, n);
    CountHistory(s.challenges, s.past);
  }

  lemma CountHistory(challenges: map<string, Challenge>, p: History)
    requires LiveOk(challenges, p) && Conserved(p)
    ensures |p.saved| == |challenges| + |p.consumed| + |p.overwritten|
  {
    var live := p.live.Values;
    LiveValues(challenges, p);
    ValuesSize(p.live);
    BelowSize(|p.saved|);
    PartitionSize(|p.saved|, live, p.consumed.Keys, p.overwritten);
    assert |p.live| == |p.live.Keys| && |challenges| == |challenges.Keys| && |p.consumed| == |p.consumed.Keys|;
  }

  lemma LiveValues(challenges: map<string, Challenge>, p: History)
    requires LiveOk(challenges, p)
    ensures forall x: nat :: x in p.live.Values <==> IsLive(p, x)
    ensures forall k, l | k in p.live && l in p.live && p.live[k] == p.live[l] :: k == l
  {
    forall x: nat
      ensures x in p.live.Values <==> IsLive(p, x)
    {
      if x in p.live.Values {
        var k :| k in p.live && p.live[k] == x;
      }
    }
  }

  lemma {:induction false} ConsumedStays(base: string, steps: seq<Step>, i: nat, j: nat, serial: nat)
    requires Run(base, steps) && i <= j <= |steps| && serial in At(base, steps, i).past.consumed
    ensures serial in At(base, steps, j).past.consumed
    ensures At(base, steps, j).past.consumed[serial] == At(base, steps, i).past.consumed[serial]
    decreases j
  {
    if i < j {
      ConsumedStays(base, steps, i, j - 1, serial);
      ConsumedNext(base, steps, j - 1, serial);
    }
  }

  lemma ConsumedNext(base: string, steps: seq<Step>, n: nat, serial: nat)
    requires Run(base, steps) && n < |steps| && serial in At(base, steps, n).past.consumed
    ensures serial in At(base, steps, n + 1).past.consumed
    ensures At(base, steps, n + 1).past.consumed[serial] == At(base, steps, n).past.consumed[serial]
  {
    RunKeepsInv(base, steps, n);
    AtStep(base, steps, n);
    StepKeepsHistory(base, At(base, steps, n), steps[n]);
  }

  /** Once consumed, by one completion and for good: no other ever consumes the same challenge, nor it another. */
  lemma ConsumedOnce(base: string, steps: seq<Step>, i: nat, j: nat, serial: nat, other: nat)
    requires Run(base, steps) && i <= j <= |steps|
    requires serial in At(base, steps, i).past.consumed && other in At(base, steps, j).past.consumed
    ensures serial in At(base, steps, j).past.consumed
    ensures At(base, steps, j).past.consumed[serial] == At(base, steps, i).past.consumed[serial]
    ensures At(base, steps, j).past.consumed[other] == At(base, steps, i).past.consumed[serial] <==> other == serial
  {
    ConsumedStays(base, steps, i, j, serial);
    RunKeepsInv(base, steps, j);
  }

  /** The step by which a handler consumed its challenge. */
  ghost predicate DeletesAt(base: string, steps: seq<Step>, m: nat, h: Hid, id: string)
    requires m < |steps|
  {
    var s := At(base, steps, m);
    && steps[m] == Delete(h) && h in s.pcs && s.pcs[h].Completing? && s.pcs[h].id == id
    && s.pcs[h].token in s.challenges
  }

  /** A handler past its delete. */
  predicate PastDelete(s: State, h: Hid, id: string) {
    h in s.pcs && s.pcs[h].id == id && (s.pcs[h].Deleted? || s.pcs[h].Loaded? || s.pcs[h].Completed?)
  }

  lemma PastDeleteBy(base: string, s: State, step: Step, h: Hid, id: string)
    requires Enabled(base, s, step) && PastDelete(Apply(base, s, step), h, id) && !PastDelete(s, h, id)
    ensures step == Delete(h) && h in s.pcs && s.pcs[h].Completing? && s.pcs[h].id == id
            && s.pcs[h].token in s.challenges
  {
  }

  lemma {:induction false} DeletedBefore(base: string, steps: seq<Step>, n: nat, h: Hid, id: string) returns (m: nat)
    requires Run(base, steps) && n <= |steps| && PastDelete(At(base, steps, n), h, id)
    ensures m < n && DeletesAt(base, steps, m, h, id)
  {
    if n == 0 {
      assert false;
    }
    AtStep(base, steps, n - 1);
    if PastDelete(At(base, steps, n - 1), h, id) {
      m := DeletedBefore(base, steps, n - 1, h, id);
    } else {
      PastDeleteBy(base, At(base, steps, n - 1), steps[n - 1], h, id);
      m := n - 1;
    }
  }

  /** A certificate is issued only after a completion on its own route has deleted a challenge from the store. */
  lemma IssuedAfterDelete(base: string, steps: seq<Step>, n: nat, id: string) returns (h: Hid, m: nat)
    requires Run(base, steps) && n <= |steps|
    requires id in At(base, steps, n).certificates && At(base, steps, n).certificates[id].status == Issued
    ensures m < n && DeletesAt(base, steps, m, h, id)
    ensures h in At(base, steps, n).pcs && At(base, steps, n).pcs[h] == Completed(id)
    ensures HasConsumed(At(base, steps, n).past, h)
  {
    var s := At(base, steps, n);
    RunKeepsInv(base, steps, n);
    h :| h in s.pcs && s.pcs[h] == Completed(id);
    assert PcOk(s.certificates, s.past, h, s.pcs[h]);
    m := DeletedBefore(base, steps, n, h, id);
  }

  // ---- What the public endpoint serves ------------------------------------

  /** `ServeACMEChallenge` */
  function Serve(challenges: map<string, Challenge>, token: string): Option<string> {
    if token in challenges then Some(challenges[token].keyAuthorization) else None
  }

  /**
   The endpoint answers with the key authorization of the latest challenge
   saved for the token as long as that one is not consumed, and else not.
   */
  lemma ServesLatest(base: string, steps: seq<Step>, n: nat, serial: nat)
    requires Run(base, steps) && n <= |steps|
    requires var saved := At(base, steps, n).past.saved;
      serial < |saved| && forall k | serial < k < |saved| :: saved[k].token != saved[serial].token
    ensures var s := At(base, steps, n); var ch := s.past.saved[serial];
      Serve(s.challenges, ch.token) == if serial in s.past.consumed then None else Some(ch.keyAuthorization)
  {
    RunKeepsInv(base, steps, n);
    LatestIsServed(At(base, steps, n).challenges, At(base, steps, n).past, serial);
  }

  lemma LatestIsServed(challenges: map<string, Challenge>, p: History, serial: nat)
    requires LiveOk(challenges, p) && Conserved(p) && OverwrittenOk(p)
    requires serial < |p.saved| && forall k | serial < k < |p.saved| :: p.saved[k].token != p.saved[serial].token
    ensures Serve(challenges, p.saved[serial].token) ==
              if serial in p.consumed then None else Some(p.saved[serial].keyAuthorization)
  {
    var token := p.saved[serial].token;
    assert serial !in p.overwritten;
    if token in challenges {
      assert p.live[token] == serial;
      assert IsLive(p, serial);
    }
  }

  // ---- Issued stays issued ------------------------------------------------

  predicate IsIssued(s: State, id: string) {
    id in s.certificates && s.certificates[id].status == Issued
  }

  /** No handler has seen the certificate missing and still means to save it as pending. */
  ghost predicate NoLateSave(s: State, id: string) {
    forall h | h in s.pcs && s.pcs[h].Missing? :: s.pcs[h].id != id
  }

  predicate SameOrigin(a: Certificate, b: Certificate) {
    a.domain == b.domain && a.createdAt == b.createdAt
  }

  /** No handler holds a copy made before domain or creation time changed. */
  ghost predicate NoStaleCopy(s: State, id: string)
    requires id in s.certificates
  {
    forall h | h in s.pcs && s.pcs[h].Loaded? && s.pcs[h].id == id :: SameOrigin(s.pcs[h].cert, s.certificates[id])
  }

  /** The certificate is still issued, as the same certificate. */
  predicate StillIssued(s: State, t: State, id: string)
    requires id in s.certificates
  {
    IsIssued(t, id) && SameOrigin(t.certificates[id], s.certificates[id])
  }

  /** What a step does to the certificates. */
  lemma CertificatesAfter(base: string, s: State, step: Step)
    requires StoreOk(s) && PcsOk(s) && Enabled(base, s, step)
    ensures Apply(base, s, step).pcs == s.pcs[step.h := Next(s, step)]
    ensures Apply(base, s, step).certificates ==
      if step.SavePending? then s.certificates[s.pcs[step.h].id := PendingFor(s.pcs[step.h].ch)]
      else if step.SaveIssued? then s.certificates[s.pcs[step.h].id := s.pcs[step.h].cert]
      else s.certificates
    ensures step.SaveIssued? ==> s.pcs[step.h].cert.status == Issued
  {
    assert step.h in s.pcs ==> PcOk(s.certificates, s.past, step.h, s.pcs[step.h]);
  }

  lemma StepKeepsIssued(base: string, s: State, step: Step, id: string)
    requires StoreOk(s) && PcsOk(s) && Enabled(base, s, step) && IsIssued(s, id) && NoLateSave(s, id)
    ensures var t := Apply(base, s, step); IsIssued(t, id) && NoLateSave(t, id)
    ensures var t := Apply(base, s, step);
      NoStaleCopy(s, id) ==>
        id in t.certificates && NoStaleCopy(t, id) && SameOrigin(t.certificates[id], s.certificates[id])
  {
    CertificatesAfter(base, s, step);
  }

  /**
   An issued certificate stays issued in every later state when no Start for
   it sits between its not-found lookup and its save; its domain and creation
   time stay as they are when, besides, no completion holds an older copy.
   */
  lemma {:induction false} IssuedStays(base: string, steps: seq<Step>, n: nat, j: nat, id: string)
    requires Run(base, steps) && n <= j <= |steps|
    requires IsIssued(At(base, steps, n), id) && NoLateSave(At(base, steps, n), id)
    ensures IsIssued(At(base, steps, j), id) && NoLateSave(At(base, steps, j), id)
    ensures NoStaleCopy(At(base, steps, n), id) ==>
              NoStaleCopy(At(base, steps, j), id) && StillIssued(At(base, steps, n), At(base, steps, j), id)
    decreases j
  {
    if n < j {
      IssuedStays(base, steps, n, j - 1, id);
      IssuedNext(base, steps, j - 1, id);
    }
  }

  lemma IssuedNext(base: string, steps: seq<Step>, n: nat, id: string)
    requires Run(base, steps) && n < |steps| && IsIssued(At(base, steps, n), id) && NoLateSave(At(base, steps, n), id)
    ensures IsIssued(At(base, steps, n + 1), id) && NoLateSave(At(base, steps, n + 1), id)
    ensures NoStaleCopy(At(base, steps, n), id) ==>
              NoStaleCopy(At(base, steps, n + 1), id) && StillIssued(At(base, steps, n), At(base, steps, n + 1), id)
  {
    RunKeepsInv(base, steps, n);
    AtStep(base, steps, n);
    StepKeepsIssued(base, At(base, steps, n), steps[n], id);
  }

  ghost predicate StepLeaves(base: string, s: State, step: Step, id: string)
    requires id in s.certificates
  {
    Enabled(base, s, step) ==> StillIssued(s, Apply(base, s, step), id)
  }

  /** The two conditions are exact: if one fails, the very next step can undo the issue or change the certificate. */
  lemma ConditionsAreExact(base: string, s: State, id: string)
    requires Inv(base, s) && IsIssued(s, id)
    ensures NoLateSave(s, id) && NoStaleCopy(s, id) <==> forall step :: StepLeaves(base, s, step, id)
  {
    if NoLateSave(s, id) && NoStaleCopy(s, id) {
      forall step
        ensures StepLeaves(base, s, step, id)
      {
        if Enabled(base, s, step) {
          StepKeepsIssued(base, s, step, id);
        }
      }
    } else if !NoLateSave(s, id) {
      var h := LateSave(base, s, id);
      assert !StepLeaves(base, s, SavePending(h), id);
    } else {
      var h := StaleSave(base, s, id);
      assert !StepLeaves(base, s, SaveIssued(h), id);
    }
  }

  lemma LateSave(base: string, s: State, id: string) returns (h: Hid)
    requires StoreOk(s) && PcsOk(s) && id in s.certificates && !NoLateSave(s, id)
    ensures Enabled(base, s, SavePending(h)) && !IsIssued(Apply(base, s, SavePending(h)), id)
  {
    h :| h in s.pcs && s.pcs[h].Missing? && s.pcs[h].id == id;
    CertificatesAfter(base, s, SavePending(h));
  }

  lemma StaleSave(base: string, s: State, id: string) returns (h: Hid)
    requires StoreOk(s) && PcsOk(s) && IsIssued(s, id) && !NoStaleCopy(s, id)
    ensures Enabled(base, s, SaveIssued(h)) && !StillIssued(s, Apply(base, s, SaveIssued(h)), id)
  {
    h :| h in s.pcs && s.pcs[h].Loaded? && s.pcs[h].id == id && !SameOrigin(s.pcs[h].cert, s.certificates[id]);
    CertificatesAfter(base, s, SaveIssued(h));
  }

  ghost predicate StepLeavesStatus(base: string, s: State, step: Step, id: string) {
    Enabled(base, s, step) ==> IsIssued(Apply(base, s, step), id)
  }

  /** For the status alone the first condition is exact. */
  lemma StatusConditionIsExact(base: string, s: State, id: string)
    requires Inv(base, s) && IsIssued(s, id)
    ensures NoLateSave(s, id) <==> forall step :: StepLeavesStatus(base, s, step, id)
  {
    if NoLateSave(s, id) {
      forall step
        ensures StepLeavesStatus(base, s, step, id)
      {
        if Enabled(base, s, step) {
          StepKeepsIssued(base, s, step, id);
        }
      }
    } else {
      var h := LateSave(base, s, id);
      assert !StepLeavesStatus(base, s, SavePending(h), id);
    }
  }

  // ---- Handlers one after the other ---------------------------------------

  ghost predicate Quiescent(s: State) {
    forall h | h in s.pcs :: Done(s.pcs[h])
  }

  ghost predicate Begins(base: string, steps: seq<Step>, n: nat)
    requires n < |steps|
  {
    (steps[n].BeginStart? || steps[n].BeginComplete?) ==> Quiescent(At(base, steps, n))
  }

  /** No handler begins before the one before it is done. */
  ghost predicate Serial(base: string, steps: seq<Step>) {
    Run(base, steps) && forall n | 0 <= n < |steps| :: Begins(base, steps, n)
  }

  /** At most one handler is under way, and what it has seen is what is there. */
  ghost predicate SerialOk(s: State) {
    && (forall h, k | h in s.pcs && k in s.pcs && !Done(s.pcs[h]) && !Done(s.pcs[k]) :: h == k)
    && (forall h | h in s.pcs && s.pcs[h].Missing? :: s.pcs[h].id !in s.certificates)
    && (forall h | h in s.pcs && s.pcs[h].Loaded? ::
          s.pcs[h].id in s.certificates && SameOrigin(s.pcs[h].cert, s.certificates[s.pcs[h].id]))
  }

  lemma SerialStep(base: string, s: State, step: Step)
    requires StoreOk(s) && PcsOk(s) && SerialOk(s) && Enabled(base, s, step)
    requires step.BeginStart? || step.BeginComplete? ==> Quiescent(s)
    ensures SerialOk(Apply(base, s, step))
  {
    OneUnderWay(base, s, step);
    CertificatesAfter(base, s, step);
  }

  lemma OneUnderWay(base: string, s: State, step: Step)
    requires SerialOk(s) && Enabled(base, s, step) && (step.BeginStart? || step.BeginComplete? ==> Quiescent(s))
    ensures var t := Apply(base, s, step);
      forall h | h in t.pcs && !Done(t.pcs[h]) :: h == step.h
  {
  }

  lemma {:induction false} SerialKeepsOk(base: string, steps: seq<Step>, n: nat)
    requires Serial(base, steps) && n <= |steps|
    ensures SerialOk(At(base, steps, n))
  {
    if n > 0 {
      SerialKeepsOk(base, steps, n - 1);
      SerialNext(base, steps, n - 1);
    }
  }

  lemma SerialNext(base: string, steps: seq<Step>, n: nat)
    requires Serial(base, steps) && n < |steps| && SerialOk(At(base, steps, n))
    ensures SerialOk(At(base, steps, n + 1))
  {
    RunKeepsInv(base, steps, n);
    AtStep(base, steps, n);
    assert Begins(base, steps, n);
    SerialStep(base, At(base, steps, n), steps[n]);
  }

  /** With serialised handlers both conditions always hold: issued is for good. */
  lemma SerialIssuedStays(base: string, steps: seq<Step>, n: nat, j: nat, id: string)
    requires Serial(base, steps) && n <= j <= |steps| && IsIssued(At(base, steps, n), id)
    ensures StillIssued(At(base, steps, n), At(base, steps, j), id)
  {
    SerialKeepsOk(base, steps, n);
    IssuedStays(base, steps, n, j, id);
  }

  // ---- Non-interference ---------------------------------------------------

  function Lookup(s: State, id: string): Option<Certificate> {
    if id in s.certificates then Some(s.certificates[id]) else None
  }

  lemma StepWritesOne(base: string, s: State, step: Step, id: string)
    requires Inv(base, s) && Enabled(base, s, step) && Lookup(Apply(base, s, step), id) != Lookup(s, id)
    ensures step.h in s.pcs && s.pcs[step.h].id == id
    ensures step.h in s.bearers && ResourceAdmits(s.bearers[step.h], Middleware.ResourceOf(base, id))
  {
    assert step.h in s.pcs ==> PcOk(s.certificates, s.past, step.h, s.pcs[step.h]);
  }

  /**
   Whenever a step changes the record of certificate `id`, its handler was
   admitted under a token bound to `id` or to nothing; a request admitted
   under a token bound to another certificate changes nothing here.
   */
  lemma OnlyItsTokenWrites(base: string, steps: seq<Step>, n: nat, id: string, bound: string)
    requires Run(base, steps) && n < |steps| && steps[n].h in At(base, steps, n + 1).bearers
    ensures var bearer := At(base, steps, n + 1).bearers[steps[n].h];
      && (Lookup(At(base, steps, n + 1), id) != Lookup(At(base, steps, n), id) ==>
            bearer.resource == "" || bearer.resource == Middleware.ResourceOf(base, id))
      && (bearer.resource == Middleware.ResourceOf(base, bound) && bound != id ==>
            Lookup(At(base, steps, n + 1), id) == Lookup(At(base, steps, n), id))
  {
    var s := At(base, steps, n);
    RunKeepsInv(base, steps, n);
    AtStep(base, steps, n);
    StepGrows(base, s, steps[n]);
    if Lookup(At(base, steps, n + 1), id) != Lookup(s, id) {
      StepWritesOne(base, s, steps[n], id);
      if s.bearers[steps[n].h].resource == Middleware.ResourceOf(base, bound) {
        Middleware.BoundTokenReachesOne(s.bearers[steps[n].h], base, bound, id);
      }
    }
  }
}

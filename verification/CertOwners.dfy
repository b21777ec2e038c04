/**
 Whose challenge a completion consumes.  The handler finds the challenge by
 its ACME token alone, so it need not be one of the certificate that the
 route names.
 */
module CertOwners {
  import opened Prelude
  import opened Types
  import opened CertSteps
  import opened CertLaws

  /** Step `p` saves a challenge for the ACME token. */
  ghost predicate SavesAt(base: string, steps: seq<Step>, p: nat, token: string)
    requires p < |steps|
  {
    var s := At(base, steps, p);
    steps[p].SaveChallenge? && steps[p].h in s.pcs && s.pcs[steps[p].h].Ready? && s.pcs[steps[p].h].ch.token == token
  }

  /** It is the last to do so before position `m`. */
  ghost predicate LatestSave(base: string, steps: seq<Step>, p: nat, m: nat, token: string)
    requires m <= |steps|
  {
    p < m && SavesAt(base, steps, p, token) && forall q | p < q < m :: !SavesAt(base, steps, q, token)
  }

  /** The certificate named by the route of the Start that saves. */
  ghost function StartedFor(base: string, steps: seq<Step>, p: nat): string
    requires p < |steps| && steps[p].h in At(base, steps, p).pcs
  {
    At(base, steps, p).pcs[steps[p].h].id
  }

  lemma ChallengeAfter(base: string, s: State, step: Step, token: string)
    requires PcsOk(s) && Enabled(base, s, step) && token in Apply(base, s, step).challenges
    ensures var t := Apply(base, s, step);
      if step.SaveChallenge? && s.pcs[step.h].ch.token == token
      then t.challenges[token] == s.pcs[step.h].ch && s.pcs[step.h].ch.certificateId == s.pcs[step.h].id
      else token in s.challenges && t.challenges[token] == s.challenges[token]
  {
    assert step.h in s.pcs ==> PcOk(s.certificates, s.past, step.h, s.pcs[step.h]);
  }

  lemma ChallengeAt(base: string, steps: seq<Step>, m: nat, token: string)
    requires Run(base, steps) && m < |steps| && token in At(base, steps, m + 1).challenges
    ensures var ch := At(base, steps, m + 1).challenges[token];
      if SavesAt(base, steps, m, token)
      then ch == At(base, steps, m).pcs[steps[m].h].ch && ch.certificateId == StartedFor(base, steps, m)
      else token in At(base, steps, m).challenges && ch == At(base, steps, m).challenges[token]
  {
    RunKeepsInv(base, steps, m);
    AtStep(base, steps, m);
    ChallengeAfter(base, At(base, steps, m), steps[m], token);
  }

  /** A stored challenge is that of the latest Start that saved for its token. */
  lemma {:induction false} StoredByLatest(base: string, steps: seq<Step>, m: nat, token: string) returns (p: nat)
    requires Run(base, steps) && m <= |steps| && token in At(base, steps, m).challenges
    ensures LatestSave(base, steps, p, m, token)
    ensures At(base, steps, m).challenges[token] == At(base, steps, p).pcs[steps[p].h].ch
    ensures At(base, steps, m).challenges[token].certificateId == StartedFor(base, steps, p)
  {
    if m == 0 {
      assert false;
    }
    ChallengeAt(base, steps, m - 1, token);
    if SavesAt(base, steps, m - 1, token) {
      p := m - 1;
    } else {
      p := StoredByLatest(base, steps, m - 1, token);
    }
  }

  /**
   The challenge that a completion on the route of `id` consumes belongs to
   `id` if and only if the latest save for its ACME token came from a Start
   for `id`.
   */
  lemma ConsumesOwnIff(base: string, steps: seq<Step>, m: nat, h: Hid, id: string) returns (p: nat, serial: nat)
    requires Run(base, steps) && m < |steps| && DeletesAt(base, steps, m, h, id)
    ensures LatestSave(base, steps, p, m, At(base, steps, m).pcs[h].token)
    ensures Consumes(base, steps, m, h, serial)
    ensures At(base, steps, m).past.saved[serial].certificateId == id <==> StartedFor(base, steps, p) == id
  {
    var token := At(base, steps, m).pcs[h].token;
    p := StoredByLatest(base, steps, m, token);
    ConsumesLive(base, steps, m, h, id);
    serial := At(base, steps, m).past.live[token];
  }

  /** The serial number that the delete at `m` takes out of the store. */
  ghost predicate Consumes(base: string, steps: seq<Step>, m: nat, h: Hid, serial: nat)
    requires m < |steps|
  {
    && serial < |At(base, steps, m).past.saved| && serial !in At(base, steps, m).past.consumed
    && serial in At(base, steps, m + 1).past.consumed && At(base, steps, m + 1).past.consumed[serial] == h
  }

  lemma ConsumesLive(base: string, steps: seq<Step>, m: nat, h: Hid, id: string)
    requires Run(base, steps) && m < |steps| && DeletesAt(base, steps, m, h, id)
    ensures var s := At(base, steps, m); var token := s.pcs[h].token;
      && token in s.past.live && Consumes(base, steps, m, h, s.past.live[token])
      && s.past.saved[s.past.live[token]] == s.challenges[token]
  {
    var s := At(base, steps, m);
    RunKeepsInv(base, steps, m);
    AtStep(base, steps, m);
    ConsumingConserves(s.challenges, s.past, s.pcs[h].token, h);
  }

  // ---- When an issued certificate has consumed its own --------------------

  lemma {:induction false} SavedGrows(base: string, steps: seq<Step>, i: nat, j: nat)
    requires Run(base, steps) && i <= j <= |steps|
    ensures At(base, steps, i).past.saved <= At(base, steps, j).past.saved
    decreases j
  {
    if i < j {
      SavedGrows(base, steps, i, j - 1);
      AtStep(base, steps, j - 1);
    }
  }

  /** A finished completion on the route of `id` has consumed a challenge of `id`. */
  ghost predicate OwnConsumed(s: State, id: string) {
    exists serial :: serial in s.past.consumed && OwnBy(s, id, serial, s.past.consumed[serial])
  }

  ghost predicate OwnBy(s: State, id: string, serial: nat, h: Hid) {
    serial < |s.past.saved| && s.past.saved[serial].certificateId == id && h in s.pcs && s.pcs[h] == Completed(id)
  }

  /** The delete at `m`, of a completion that has finished by `n`, took out what a Start for `id` had saved last. */
  ghost predicate OwnDelete(base: string, steps: seq<Step>, m: nat, n: nat, h: Hid, id: string)
    requires n <= |steps|
  {
    && m < n && DeletesAt(base, steps, m, h, id) && h in At(base, steps, n).pcs
    && At(base, steps, n).pcs[h] == Completed(id)
    && exists p :: LatestSave(base, steps, p, m, At(base, steps, m).pcs[h].token) && StartedFor(base, steps, p) == id
  }

  lemma LatestIsOne(base: string, steps: seq<Step>, p: nat, q: nat, m: nat, token: string)
    requires m <= |steps| && LatestSave(base, steps, p, m, token) && LatestSave(base, steps, q, m, token)
    ensures p == q
  {
  }

  /** The serial a handler consumed, seen from later on. */
  lemma ConsumedLater(base: string, steps: seq<Step>, m: nat, n: nat, h: Hid, serial: nat)
    requires Run(base, steps) && m < n <= |steps| && Consumes(base, steps, m, h, serial)
    ensures var past := At(base, steps, n).past;
      && serial in past.consumed && past.consumed[serial] == h
      && serial < |past.saved| && past.saved[serial] == At(base, steps, m).past.saved[serial]
      && forall other | other in past.consumed && past.consumed[other] == h :: other == serial
  {
    ConsumedStays(base, steps, m + 1, n, serial);
    SavedGrows(base, steps, m, n);
    RunKeepsInv(base, steps, n);
  }

  /**
   A certificate has had a challenge of its own consumed by a completion on
   its route if and only if some such completion deleted what a Start for the
   certificate had saved last under that ACME token.
   */
  lemma OwnChallengeConsumedIff(base: string, steps: seq<Step>, n: nat, id: string)
    requires Run(base, steps) && n <= |steps|
    ensures OwnConsumed(At(base, steps, n), id) <==> exists m, h :: OwnDelete(base, steps, m, n, h, id)
  {
    var s := At(base, steps, n);
    if OwnConsumed(s, id) {
      var serial :| serial in s.past.consumed && OwnBy(s, id, serial, s.past.consumed[serial]);
      var m := OwnDeleteFrom(base, steps, n, id, serial);
      assert OwnDelete(base, steps, m, n, s.past.consumed[serial], id);
    }
    if exists m, h :: OwnDelete(base, steps, m, n, h, id) {
      var m, h :| OwnDelete(base, steps, m, n, h, id);
      OwnConsumedFrom(base, steps, m, n, h, id);
    }
  }

  lemma OwnDeleteFrom(base: string, steps: seq<Step>, n: nat, id: string, serial: nat) returns (m: nat)
    requires Run(base, steps) && n <= |steps| && serial in At(base, steps, n).past.consumed
    requires OwnBy(At(base, steps, n), id, serial, At(base, steps, n).past.consumed[serial])
    ensures OwnDelete(base, steps, m, n, At(base, steps, n).past.consumed[serial], id)
  {
    var h := At(base, steps, n).past.consumed[serial];
    m := DeletedBefore(base, steps, n, h, id);
    var p, taken := ConsumesOwnIff(base, steps, m, h, id);
    ConsumedLater(base, steps, m, n, h, taken);
  }

  lemma OwnConsumedFrom(base: string, steps: seq<Step>, m: nat, n: nat, h: Hid, id: string)
    requires Run(base, steps) && n <= |steps| && OwnDelete(base, steps, m, n, h, id)
    ensures OwnConsumed(At(base, steps, n), id)
  {
    var token := At(base, steps, m).pcs[h].token;
    var q :| LatestSave(base, steps, q, m, token) && StartedFor(base, steps, q) == id;
    var p, taken := ConsumesOwnIff(base, steps, m, h, id);
    LatestIsOne(base, steps, p, q, m, token);
    ConsumedLater(base, steps, m, n, h, taken);
    assert OwnBy(At(base, steps, n), id, taken, h);
  }
}

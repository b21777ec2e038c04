/**
 Three interleavings.  Two show why `CertLaws.IssuedStays` has its conditions:
 without them an issued certificate can become pending again, or change its
 domain.  The third shows why `CertOwners.ConsumesOwnIff` has its own: a
 certificate can be issued on another's challenge.
 */
module CertRaces {
  import opened Types
  import opened CertSteps
  import opened CertLaws
  import Middleware

  ghost predicate Reachable(base: string, s: State) {
    exists steps :: EndsIn(base, steps, s)
  }

  ghost predicate EndsIn(base: string, steps: seq<Step>, s: State) {
    Run(base, steps) && At(base, steps, |steps|) == s
  }

  lemma {:induction false} AtPrefix(base: string, steps: seq<Step>, step: Step, n: nat)
    requires n <= |steps|
    ensures At(base, steps + [step], n) == At(base, steps, n)
  {
    if n > 0 {
      AtPrefix(base, steps, step, n - 1);
    }
  }

  lemma Then(base: string, s: State, step: Step)
    requires Reachable(base, s) && Enabled(base, s, step)
    ensures Reachable(base, Apply(base, s, step))
  {
    var steps :| EndsIn(base, steps, s);
    RunExtends(base, steps, step);
    assert EndsIn(base, steps + [step], Apply(base, s, step));
  }

  lemma RunExtends(base: string, steps: seq<Step>, step: Step)
    requires Run(base, steps) && Enabled(base, At(base, steps, |steps|), step)
    ensures Run(base, steps + [step])
    ensures At(base, steps + [step], |steps| + 1) == Apply(base, At(base, steps, |steps|), step)
  {
    forall n | 0 <= n <= |steps|
      ensures Taken(base, steps + [step], n)
    {
      AtPrefix(base, steps, step, n);
      assert n < |steps| ==> Taken(base, steps, n);
    }
    AtPrefix(base, steps, step, |steps|);
  }

  /** Two Starts for one certificate, and a token that may ask for it. */
  ghost predicate Setting(base: string, id: string, bearer: TokenRecord, a: Challenge, b: Challenge) {
    && id != "" && ResourceAdmits(bearer, Middleware.ResourceOf(base, id)) && StartFor(id, a) && StartFor(id, b)
    && a.token != b.token && a.domain != b.domain
  }

  predicate StartFor(id: string, ch: Challenge) {
    ch.certificateId == id && ch.domain != "" && ch.token != "" && ch.keyAuthorization != ""
  }

  /** Both Starts look the certificate up before either saves it. */
  lemma BothMiss(base: string, id: string, bearer: TokenRecord, a: Challenge, b: Challenge) returns (s: State)
    requires Setting(base, id, bearer, a, b)
    ensures Reachable(base, s) && s.certificates == map[] && s.challenges == map[]
    ensures s.pcs == map[0 := Missing(id, a), 1 := Missing(id, b)]
  {
    s := START;
    var none: seq<Step> := [];
    assert EndsIn(base, none, s);
    Then(base, s, BeginStart(0, bearer, id, a));
    s := Apply(base, s, BeginStart(0, bearer, id, a));
    Then(base, s, LookUp(0));
    s := Apply(base, s, LookUp(0));
    Then(base, s, BeginStart(1, bearer, id, b));
    s := Apply(base, s, BeginStart(1, bearer, id, b));
    Then(base, s, LookUp(1));
    s := Apply(base, s, LookUp(1));
  }

  /** The first Start goes through, and a completion of its challenge gets as far as holding its copy. */
  lemma FirstIsLoaded(base: string, id: string, bearer: TokenRecord, a: Challenge, b: Challenge, now: Time)
    returns (s: State)
    requires Setting(base, id, bearer, a, b)
    ensures Reachable(base, s) && s.certificates == map[id := PendingFor(a)] && s.challenges == map[]
    ensures s.pcs == map[0 := Provisioned(id), 1 := Missing(id, b), 2 := Loaded(id, MarkIssued(PendingFor(a), now))]
  {
    s := BothMiss(base, id, bearer, a, b);
    s := Provision(base, s, id, 0, a);
    assert s.pcs == map[0 := Provisioned(id), 1 := Missing(id, b)];
    s := LoadAgain(base, s, id, bearer, 2, a.token, now);
  }

  /** A Start that missed saves certificate and challenge. */
  lemma Provision(base: string, s: State, id: string, h: Hid, ch: Challenge) returns (t: State)
    requires Reachable(base, s) && h in s.pcs && s.pcs[h] == Missing(id, ch) && StartFor(id, ch)
    ensures Reachable(base, t) && t.pcs == s.pcs[h := Provisioned(id)]
    ensures t.certificates == s.certificates[id := PendingFor(ch)] && t.challenges == s.challenges[ch.token := ch]
  {
    Then(base, s, SavePending(h));
    t := Apply(base, s, SavePending(h));
    Then(base, t, SaveChallenge(h));
    t := Apply(base, t, SaveChallenge(h));
  }

  /** A completion deletes the challenge and reads the certificate. */
  lemma LoadAgain(base: string, s: State, id: string, bearer: TokenRecord, h: Hid, token: string, now: Time)
    returns (t: State)
    requires Reachable(base, s) && h !in s.pcs && id in s.certificates && token in s.challenges && token != ""
    requires id != "" && ResourceAdmits(bearer, Middleware.ResourceOf(base, id))
    ensures Reachable(base, t) && t.pcs == s.pcs[h := Loaded(id, MarkIssued(s.certificates[id], now))]
    ensures t.certificates == s.certificates && t.challenges == s.challenges - {token}
  {
    Then(base, s, BeginComplete(h, bearer, id, token));
    t := Apply(base, s, BeginComplete(h, bearer, id, token));
    Then(base, t, Delete(h));
    t := Apply(base, t, Delete(h));
    Then(base, t, Load(h, now));
    t := Apply(base, t, Load(h, now));
  }

  /** A late save: the certificate is issued, then pending again. */
  lemma LateSaveUndoesIssue(base: string, id: string, bearer: TokenRecord, a: Challenge, b: Challenge, now: Time)
    returns (s: State)
    requires Setting(base, id, bearer, a, b)
    ensures Reachable(base, s) && IsIssued(s, id) && Enabled(base, s, SavePending(1))
    ensures !IsIssued(Apply(base, s, SavePending(1)), id)
  {
    s := FirstIsLoaded(base, id, bearer, a, b, now);
    Then(base, s, SaveIssued(2));
    s := Apply(base, s, SaveIssued(2));
  }

  /**
   A stale copy: the certificate is issued for one domain, nobody means to
   save it as pending, and its domain changes.
   */
  lemma StaleCopyChangesDomain(base: string, id: string, bearer: TokenRecord, a: Challenge, b: Challenge, now: Time)
    returns (s: State)
    requires Setting(base, id, bearer, a, b)
    ensures Reachable(base, s) && IsIssued(s, id) && NoLateSave(s, id) && s.certificates[id].domain == b.domain
    ensures Enabled(base, s, SaveIssued(2))
    ensures var t := Apply(base, s, SaveIssued(2)); IsIssued(t, id) && t.certificates[id].domain == a.domain
  {
    s := FirstIsLoaded(base, id, bearer, a, b, now);
    s := Provision(base, s, id, 1, b);
    s := LoadAgain(base, s, id, bearer, 3, b.token, now);
    Then(base, s, SaveIssued(3));
    s := Apply(base, s, SaveIssued(3));
  }

  /** A Start from the beginning, with nothing else of its kind in between. */
  lemma Starts(base: string, s: State, h: Hid, id: string, bearer: TokenRecord, ch: Challenge) returns (t: State)
    requires Reachable(base, s) && h !in s.pcs && id !in s.certificates && StartFor(id, ch)
    requires id != "" && ResourceAdmits(bearer, Middleware.ResourceOf(base, id))
    ensures Reachable(base, t) && t.pcs == s.pcs[h := Provisioned(id)]
    ensures t.certificates == s.certificates[id := PendingFor(ch)] && t.challenges == s.challenges[ch.token := ch]
  {
    Then(base, s, BeginStart(h, bearer, id, ch));
    t := Apply(base, s, BeginStart(h, bearer, id, ch));
    Then(base, t, LookUp(h));
    t := Apply(base, t, LookUp(h));
    t := Provision(base, t, id, h, ch);
  }

  /**
   A foreign challenge: certificate `x` is issued on the strength of a
   challenge provisioned for `y`, which is gone, while the one provisioned for
   `x` is still live.
   */
  lemma ForeignChallengeIssues(base: string, x: string, y: string, forX: TokenRecord, forY: TokenRecord,
                               a: Challenge, b: Challenge, now: Time) returns (s: State)
    requires x != y && x != "" && y != "" && StartFor(x, a) && StartFor(y, b) && a.token != b.token
    requires ResourceAdmits(forX, Middleware.ResourceOf(base, x))
             && ResourceAdmits(forY, Middleware.ResourceOf(base, y))
    ensures Reachable(base, s) && IsIssued(s, x)
    ensures a.token in s.challenges && s.challenges[a.token] == a && b.token !in s.challenges
    ensures y in s.certificates && s.certificates[y].status == Pending
  {
    s := START;
    var none: seq<Step> := [];
    assert EndsIn(base, none, s);
    s := Starts(base, s, 0, x, forX, a);
    s := Starts(base, s, 1, y, forY, b);
    s := CompletesWith(base, s, x, forX, 2, b.token, now);
  }

  /** A completion on the route of `id` with any live ACME token. */
  lemma CompletesWith(base: string, s: State, id: string, bearer: TokenRecord, h: Hid, token: string, now: Time)
    returns (t: State)
    requires Reachable(base, s) && h !in s.pcs && id in s.certificates && s.certificates[id].id == id
    requires token != "" && token in s.challenges
    requires id != "" && ResourceAdmits(bearer, Middleware.ResourceOf(base, id))
    ensures Reachable(base, t) && t.challenges == s.challenges - {token}
    ensures t.certificates == s.certificates[id := MarkIssued(s.certificates[id], now)]
  {
    t := LoadAgain(base, s, id, bearer, h, token, now);
    Then(base, t, SaveIssued(h));
    t := Apply(base, t, SaveIssued(h));
  }
}

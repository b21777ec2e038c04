/**
 The sample server's certificate store and the handlers over it, one request
 at a time: records are copied in and out of the heap, and a handler is the
 sequence of steps that `CertSteps` interleaves.
 */
module CertStore {
  import opened Prelude
  import opened Types
  import S = CertSteps
  import CertLaws

  const CREATED: nat := 201
  const OK: nat := 200
  const BAD_REQUEST: nat := 400
  const NOT_FOUND: nat := 404

  /** `*Certificate` */
  class Certificate {
    var id: string
    var domain: string
    var status: S.Status
    var createdAt: Time
    var expiresAt: Time

    function Record(): S.Certificate
      reads this
    {
      S.Certificate(id, domain, status, createdAt, expiresAt)
    }

    constructor (c: S.Certificate)
      ensures Record() == c
    {
      id, domain, status, createdAt, expiresAt := c.id, c.domain, c.status, c.createdAt, c.expiresAt;
    }
  }

  /** What the two maps mean.  Challenges are never written after they are made, so they are plain records. */
  datatype StoreView = StoreView(certificates: map<string, S.Certificate>, challenges: map<string, S.Challenge>)

  /** Every record is stored under its own identifier. */
  class MemoryStore {
    var certificates: map<string, Certificate>
    var challenges: map<string, S.Challenge>
    ghost var Repr: set<object>
    ghost var Certs: map<string, S.Certificate>

    ghost predicate Valid()
      reads this, Repr
      ensures Valid() ==> this in Repr
    {
      && this in Repr && certificates.Keys == Certs.Keys
      && (forall k | k in certificates ::
            certificates[k] in Repr && certificates[k].Record() == Certs[k] && Certs[k].id == k)
      && forall k | k in challenges :: challenges[k].token == k
    }

    ghost function View(): StoreView
      reads this, Repr
      requires Valid()
    {
      StoreView(Certs, challenges)
    }

    lemma ViewIsHeap()
      requires Valid()
      ensures View().certificates == map k | k in certificates :: certificates[k].Record()
      ensures View().challenges == challenges
    {
    }

    constructor ()
      ensures Valid() && fresh(Repr) && View() == StoreView(map[], map[])
    {
      certificates, challenges := map[], map[];
      Repr, Certs := {this}, map[];
    }

    method GetCertificate(id: string) returns (r: Option<Certificate>)
      requires Valid()
      ensures r.Some? <==> id in View().certificates
      ensures r.Some? ==> fresh(r.value) && r.value.Record() == View().certificates[id]
    {
      if id !in certificates {
        return None;
      }
      var cp := new Certificate(certificates[id].Record());
      return Some(cp);
    }

    method SaveCertificate(cert: Certificate?) returns (ok: bool)
      requires Valid()
      modifies this
      ensures Valid() && fresh(Repr - old(Repr))
      ensures ok == (cert != null)
      ensures View() == if ok then old(View()).(certificates := old(View()).certificates[cert.id := old(cert.Record())])
                        else old(View())
    {
      if cert == null {
        return false;
      }
      var cp := new Certificate(cert.Record());
      certificates := certificates[cert.id := cp];
      Repr, Certs := Repr + {cp}, Certs[cert.id := cp.Record()];
      return true;
    }

    method GetChallenge(token: string) returns (r: Option<S.Challenge>)
      requires Valid()
      ensures r == if token in View().challenges then Some(View().challenges[token]) else None
    {
      return if token in challenges then Some(challenges[token]) else None;
    }

    method SaveChallenge(ch: S.Challenge)
      requires Valid()
      modifies this
      ensures Valid() && Repr == old(Repr)
      ensures View() == old(View()).(challenges := old(View()).challenges[ch.token := ch])
    {
      challenges := challenges[ch.token := ch];
    }

    method DeleteChallenge(token: string) returns (found: bool)
      requires Valid()
      modifies this
      ensures Valid() && Repr == old(Repr)
      ensures found == (token in old(View()).challenges)
      ensures View() == old(View()).(challenges := old(View()).challenges - {token})
    {
      if token !in challenges {
        assert challenges - {token} == challenges;
        return false;
      }
      challenges := challenges - {token};
      return true;
    }
  }

  /** Writing on a copy, or on a record that was passed in, does not reach the store. */
  twostate lemma OutsideWritesInvisible(s: MemoryStore)
    requires old(s.Valid()) && forall o | o in old(s.Repr) :: unchanged(o)
    ensures s.Valid() && s.View() == old(s.View())
  {
  }

  // ---- Outcomes -----------------------------------------------------------

  datatype StartRequest = StartRequest(domain: string, token: string, keyAuthorization: string)

  function ChallengeFor(id: string, req: StartRequest, now: Time): S.Challenge {
    S.Challenge(id, req.domain, req.token, req.keyAuthorization, now)
  }

  /** The store after an undisturbed Start. */
  function Started(v: StoreView, ch: S.Challenge): StoreView {
    var id := ch.certificateId;
    StoreView(if id in v.certificates then v.certificates else v.certificates[id := S.PendingFor(ch)],
              v.challenges[ch.token := ch])
  }

  /** Status and store after an undisturbed Complete: the challenge goes even if the certificate is not there. */
  function Completed(v: StoreView, id: string, token: string, now: Time): (nat, StoreView) {
    if token !in v.challenges then (NOT_FOUND, v)
    else if id !in v.certificates then (NOT_FOUND, v.(challenges := v.challenges - {token}))
    else (OK, StoreView(v.certificates[id := S.MarkIssued(v.certificates[id], now)], v.challenges - {token}))
  }

  // ---- Outcomes are steps -------------------------------------------------

  function ViewOf(s: S.State): StoreView { StoreView(s.certificates, s.challenges) }

  /** A Start nobody interleaves with is the steps of one handler, in order. */
  lemma StartIsSteps(base: string, s: S.State, h: S.Hid, bearer: TokenRecord, ch: S.Challenge)
    requires S.StoreOk(s) && S.Enabled(base, s, S.BeginStart(h, bearer, ch.certificateId, ch))
    ensures var s1 := S.Apply(base, s, S.BeginStart(h, bearer, ch.certificateId, ch));
      && S.Enabled(base, s1, S.LookUp(h))
      && var s2 := S.Apply(base, s1, S.LookUp(h));
      && var s3 := if ch.certificateId in s.certificates then s2 else S.Apply(base, s2, S.SavePending(h));
      && S.Enabled(base, s3, S.SaveChallenge(h))
      && ViewOf(S.Apply(base, s3, S.SaveChallenge(h))) == Started(ViewOf(s), ch)
  {
  }

  lemma CompleteIsSteps(base: string, s: S.State, h: S.Hid, bearer: TokenRecord, id: string, token: string, now: Time)
    requires S.StoreOk(s) && S.Enabled(base, s, S.BeginComplete(h, bearer, id, token))
    ensures var s1 := S.Apply(base, s, S.BeginComplete(h, bearer, id, token));
      && S.Enabled(base, s1, S.Delete(h))
      && var s2 := S.Apply(base, s1, S.Delete(h));
      && var (status, v) := Completed(ViewOf(s), id, token, now);
      if token !in s.challenges then status == NOT_FOUND && s2.pcs[h].NotFound? && ViewOf(s2) == v
      else
        && S.Enabled(base, s2, S.Load(h, now))
        && var s3 := S.Apply(base, s2, S.Load(h, now));
        if id !in s.certificates then status == NOT_FOUND && s3.pcs[h].NotFound? && ViewOf(s3) == v
        else status == OK && S.Enabled(base, s3, S.SaveIssued(h)) && ViewOf(S.Apply(base, s3, S.SaveIssued(h))) == v
  {
  }

  // ---- Outcomes in the request's own fields -------------------------------

  /** All entries of the two maps but the one under `key` agree. */
  ghost predicate SameBut<T(!new)>(m: map<string, T>, n: map<string, T>, key: string) {
    forall k | k != key :: (k in m <==> k in n) && (k in m ==> m[k] == n[k])
  }

  /** An undisturbed Start takes the store from `v` to `w`. */
  ghost predicate StartedFrom(v: StoreView, w: StoreView, certId: string, req: StartRequest, now: Time) {
    && SameBut(v.challenges, w.challenges, req.token) && req.token in w.challenges
    && var ch := w.challenges[req.token];
    && ch.certificateId == certId && ch.domain == req.domain && ch.token == req.token
    && ch.keyAuthorization == req.keyAuthorization && ch.createdAt == now
    && SameBut(v.certificates, w.certificates, certId) && certId in w.certificates
    && var cert := w.certificates[certId];
    if certId in v.certificates then cert == v.certificates[certId]
    else cert.id == certId && cert.domain == req.domain && cert.status == S.Pending && cert.createdAt == now
  }

  /** An undisturbed Complete takes it from `v` to `w`: a certificate, once there, is valid for 90 days. */
  ghost predicate CompletedFrom(v: StoreView, w: StoreView, certId: string, token: string, now: Time, status: nat) {
    if token !in v.challenges then status == 404 && w == v
    else
      && SameBut(v.challenges, w.challenges, token) && token !in w.challenges
      && if certId !in v.certificates then status == 404 && w.certificates == v.certificates
         else
           && status == 200 && SameBut(v.certificates, w.certificates, certId) && certId in w.certificates
           && var cert, before := w.certificates[certId], v.certificates[certId];
           && cert.id == before.id && cert.domain == before.domain && cert.createdAt == before.createdAt
           && cert.status == S.Issued && cert.expiresAt == now + 90 * 24 * 3600 * 1_000_000_000
  }

  lemma StartedIs(v: StoreView, certId: string, req: StartRequest, now: Time)
    ensures StartedFrom(v, Started(v, ChallengeFor(certId, req, now)), certId, req, now)
  {
  }

  lemma CompletedIs(v: StoreView, certId: string, token: string, now: Time)
    ensures var (status, w) := Completed(v, certId, token, now); CompletedFrom(v, w, certId, token, now, status)
  {
  }

  /**
   Start, then Complete: in between, and then no longer, the endpoint serves
   the key authorization of the request at its token; the certificate is
   issued, for the domain it was first started for; and a second Complete finds
   nothing.
   */
  lemma StartThenComplete(u: StoreView, v: StoreView, w: StoreView, x: StoreView, certId: string, req: StartRequest,
                          started: Time, completed: Time, again: Time, status: nat, status': nat)
    requires StartedFrom(u, v, certId, req, started)
    requires CompletedFrom(v, w, certId, req.token, completed, status)
    requires CompletedFrom(w, x, certId, req.token, again, status')
    ensures CertLaws.Serve(v.challenges, req.token) == Some(req.keyAuthorization)
    ensures status == 200 && CertLaws.Serve(w.challenges, req.token) == None
    ensures forall token | token != req.token ::
              CertLaws.Serve(w.challenges, token) == CertLaws.Serve(u.challenges, token)
    ensures certId in w.certificates && w.certificates[certId].status == S.Issued
    ensures w.certificates[certId].domain ==
              if certId in u.certificates then u.certificates[certId].domain else req.domain
    ensures w.certificates[certId].expiresAt == completed + 7_776_000 * 1_000_000_000
    ensures status' == 404 && x == w
  {
  }

  // ---- Handlers -----------------------------------------------------------

  class Handler {
    const store: MemoryStore

    constructor (store: MemoryStore)
      ensures this.store == store
    {
      this.store := store;
    }

    method StartChallenge(certId: string, req: Option<StartRequest>, now: Time) returns (status: nat)
      requires store.Valid()
      modifies store
      ensures store.Valid() && fresh(store.Repr - old(store.Repr))
      ensures certId == "" || req.None? || req.value.domain == "" || req.value.token == ""
              || req.value.keyAuthorization == "" ==>
              status == 400 && store.View() == old(store.View())
      ensures certId != "" && req.Some? && req.value.domain != "" && req.value.token != ""
              && req.value.keyAuthorization != "" ==>
              && status == 201 && StartedFrom(old(store.View()), store.View(), certId, req.value, now)
              && store.View() == Started(old(store.View()), ChallengeFor(certId, req.value, now))
    {
      if certId == "" || req.None? {
        return BAD_REQUEST;
      }
      if req.value.domain == "" || req.value.token == "" || req.value.keyAuthorization == "" {
        return BAD_REQUEST;
      }
      var found := store.GetCertificate(certId);
      if found.None? {
        var cert := new Certificate(S.Certificate(certId, req.value.domain, S.Pending, now, S.NO_TIME));
        var saved := store.SaveCertificate(cert);
      }
      StartedIs(old(store.View()), certId, req.value, now);
      store.SaveChallenge(ChallengeFor(certId, req.value, now));
      return CREATED;
    }

    /** `req` is the token of the body, if the body parses. */
    method CompleteChallenge(certId: string, req: Option<string>, now: Time) returns (status: nat)
      requires store.Valid()
      modifies store
      ensures store.Valid() && fresh(store.Repr - old(store.Repr))
      ensures certId == "" || req.None? || req.value == "" ==>
              status == 400 && store.View() == old(store.View())
      ensures certId != "" && req.Some? && req.value != "" ==>
              && CompletedFrom(old(store.View()), store.View(), certId, req.value, now, status)
              && (status, store.View()) == Completed(old(store.View()), certId, req.value, now)
    {
      if certId == "" || req.None? || req.value == "" {
        return BAD_REQUEST;
      }
      CompletedIs(store.View(), certId, req.value, now);
      var deleted := store.DeleteChallenge(req.value);
      if !deleted {
        assert old(store.View()).challenges - {req.value} == old(store.View()).challenges;
        return NOT_FOUND;
      }
      var cert := store.GetCertificate(certId);
      if cert.None? {
        return NOT_FOUND;
      }
      cert.value.status := S.Issued;
      cert.value.expiresAt := now + S.VALIDITY;
      var saved := store.SaveCertificate(cert.value);
      return OK;
    }

    method ServeACMEChallenge(token: string) returns (status: nat, body: string)
      requires store.Valid()
      ensures token == "" ==> status == 400
      ensures token != "" && token in store.View().challenges ==>
              status == 200 && body == store.View().challenges[token].keyAuthorization
      ensures token != "" && token !in store.View().challenges ==> status == 404
      ensures token != "" ==> (status == 200 <==> CertLaws.Serve(store.View().challenges, token).Some?)
    {
      if token == "" {
        return BAD_REQUEST, "";
      }
      var found := store.GetChallenge(token);
      if found.None? {
        return NOT_FOUND, "";
      }
      return OK, found.value.keyAuthorization;
    }
  }
}

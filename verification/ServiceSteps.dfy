/** A call of `Service` that nothing interleaves with is a sequence of the steps of `Server`. */
module ServiceSteps {
  import opened Prelude
  import opened Types
  import opened Codec
  import opened TokenStore
  import opened Server
  import Service

  function ViewOf(s: State): StoreView { StoreView(s.clients, s.tokens) }

  /** What the steps after the request make of the draw. */
  ghost function AfterDraw(cfg: Config, s: State, call: nat, raw: Option<string>): State
    requires call in s.calls && s.calls[call].Granted?
    requires raw.Some? ==> cfg.inPlay(raw.value) && raw.value != "" && raw.value !in s.drawn
  {
    match raw
    case None => Apply(cfg, s, DrawFails(call))
    case Some(token) => Apply(cfg, Apply(cfg, s, Draw(call, token)), Save(call))
  }

  function Answer(c: Call): Result<TokenResponse, Error>
    requires c.Issued? || c.Refused?
  {
    if c.Issued? then Ok(c.response) else Err(c.error)
  }

  /** `IssueToken`: the request's checks, then the draw, then the save; same answer, same store. */
  lemma IssueIsSteps(cfg: Config, s: State, call: nat, req: TokenRequest, random: seq<Byte>)
    requires Inv(cfg, s) && call !in s.calls
    requires Service.TOKEN_ENTROPY <= |random| ==>
               var raw := OpaqueToken(random[..Service.TOKEN_ENTROPY]); cfg.inPlay(raw) && raw !in s.drawn
    ensures var o := Service.IssueOutcome(cfg.env, cfg.ttl, Some(req), ViewOf(s), random, s.clock);
      var s1 := Apply(cfg, s, Request(call, req));
      if s1.calls[call].Refused? then o.view == ViewOf(s1) && o.result == Answer(s1.calls[call])
      else
        && s1.calls[call].Granted?
        && var raw :=
             if Service.TOKEN_ENTROPY <= |random| then Some(OpaqueToken(random[..Service.TOKEN_ENTROPY])) else None;
        && var t := AfterDraw(cfg, s1, call, raw);
        && (t.calls[call].Issued? || t.calls[call].Refused?)
        && o.view == ViewOf(t) && o.result == Answer(t.calls[call])
  {
    var s1 := Apply(cfg, s, Request(call, req));
    if s1.calls[call].Granted? && Service.TOKEN_ENTROPY <= |random| {
      MintIsSteps(cfg, s1, call, random);
    }
  }

  lemma MintIsSteps(cfg: Config, s: State, call: nat, random: seq<Byte>)
    requires call in s.calls && s.calls[call].Granted? && Service.TOKEN_ENTROPY <= |random|
    requires var raw := OpaqueToken(random[..Service.TOKEN_ENTROPY]); cfg.inPlay(raw) && raw !in s.drawn
    ensures var c := s.calls[call]; var raw := OpaqueToken(random[..Service.TOKEN_ENTROPY]);
      var o := Service.MintOutcome(cfg.env, cfg.ttl, c.client.id, c.req, ViewOf(s), random, s.clock);
      var t := AfterDraw(cfg, s, call, Some(raw));
      && (t.calls[call].Issued? || t.calls[call].Refused?)
      && o.view == ViewOf(t) && o.result == Answer(t.calls[call])
  {
    var raw := OpaqueToken(random[..Service.TOKEN_ENTROPY]);
    var c := s.calls[call];
    var s1 := Apply(cfg, s, Draw(call, raw));
    assert s1.calls[call] == Drawn(c.req, c.client, raw, s.clock);
  }

  /** `RegisterClient`, once its randomness is there: one step with the generated identifier and secret. */
  lemma RegisterIsStep(cfg: Config, cost: int, s: State, reg: RegisterRequest, random: seq<Byte>, salt: nat)
    requires BcryptSound(cfg.env) && RegistrationError(cfg.env, Some(reg)).None? && 48 <= |random|
    requires cfg.env.bcrypt(Encode(Url, random[16..48]), cost, salt).Some?
    ensures var id, secret := Hex(random[..16]), Encode(Url, random[16..48]);
      var step := Register(reg, id, secret, cfg.env.bcrypt(secret, cost, salt).value);
      var o := Service.RegisterOutcome(cfg.env, cost, Some(reg), ViewOf(s), random, salt, s.clock);
      && Enabled(cfg, s, step)
      && o.view == ViewOf(Apply(cfg, s, step))
      && o.result ==
           if id in s.clients then Err(InvalidRequest)
           else Ok(RegisterResponse(id, secret, reg.name, reg.allowedResources, reg.allowedScopes, s.clock))
  {
    assert random[16..][..32] == random[16..48];
    HexLetters(random[..16]);
  }

  /** `ValidateToken` and `IntrospectToken`: look up, then decide. */
  lemma ValidateIsSteps(cfg: Config, s: State, call: nat, raw: string)
    requires call !in s.calls && cfg.inPlay(raw)
    ensures var s1 := Apply(cfg, s, LookUp(call, raw));
      && Enabled(cfg, s1, Decide(call))
      && var t := Apply(cfg, s1, Decide(call));
      && ViewOf(t) == ViewOf(s)
      && t.calls[call] == Validated(raw, ValidateRecord(raw, Service.Found(cfg.env, ViewOf(s).tokens, raw), s.clock))
  {
  }

  /** `RevokeToken`: one step. */
  lemma RevokeIsStep(cfg: Config, s: State, raw: string)
    requires cfg.inPlay(raw)
    ensures ViewOf(Apply(cfg, s, Revoke(raw))) ==
      if raw == "" then ViewOf(s) else ViewOf(s).(tokens := Service.Revoked(ViewOf(s).tokens, cfg.env.sha256Hex(raw)))
  {
  }
}

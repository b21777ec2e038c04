/**
 The OAuth client, one goroutine's code at a time.  Each locked section of
 `GetToken` and the sweep of `Revoke` is a method proved against the steps of
 `CacheSteps` and the atomic operations of `CacheLinearizable`.  Clock
 readings, what the server answers and what other goroutines do while no lock
 is held are parameters.
 */
module TokenClient {
  import opened Prelude
  import opened Types
  import opened Codec
  import opened CacheSteps
  import CacheLinearizable

  const DEFAULT_BUFFER: Duration := 30 * SECOND

  /** The server's answer to a token request: token and `expires_in`, or any failure. */
  type Answer = Option<(string, int)>

  /** The two locked moves of a goroutine that holds the write lock for `GetToken`. */
  ghost function AfterWriteSection(buffer: Duration, s: State, t: Tid, answer: Answer): State
    requires Enabled(s, Recheck(t))
  {
    var s1 := Apply(buffer, s, Recheck(t));
    if s1.pcs[t].Leaving? then s1
    else match answer
      case Some((token, expiresIn)) => Apply(buffer, s1, FetchOk(t, token, expiresIn))
      case None => Apply(buffer, s1, FetchErr(t))
  }

  function Life(answer: Answer): Option<(string, Duration)> {
    match answer
    case None => None
    case Some((token, expiresIn)) => Some((token, Seconds(expiresIn)))
  }

  /** The parts of a request URL that name a resource. */
  datatype Url = Url(scheme: string, host: string, path: string)

  /** The resource a request is for: the transport's own, else its target. */
  function TargetResource(fixed: string, url: Option<Url>): string {
    if fixed == "" && url.Some? then url.value.scheme + "://" + url.value.host + url.value.path else fixed
  }

  /**
   A call for `key` that saw the cache `seen`: it answers from the entry for
   `key` if that is fresh, else with the server's answer, which it stores under
   `key`; every other entry stays as it was.  The header is "Bearer ", then the
   token.
   */
  ghost predicate Served(buffer: Duration, seen: Cache, key: string, now: Time, answer: Answer,
                         cache: Cache, header: Option<string>)
  {
    && (forall k | k != key :: Lookup(cache, k) == Lookup(seen, k))
    && if key in seen && Since(seen[key].expiresAt, now) > buffer
       then cache == seen && header == Some("Bearer " + seen[key].token)
       else match answer
         case None => cache == seen && header == None
         case Some((token, expiresIn)) =>
           && Lookup(cache, key) == Some(Entry(token, now + Seconds(expiresIn)))
           && header == Some("Bearer " + token)
  }

  /** The cache a call for `key` acts on: the one it found or, if that has nothing fresh, the one after the gap. */
  function Seen(buffer: Duration, found: Cache, others: Cache, key: string, now: Time): Cache {
    if key in found && Since(found[key].expiresAt, now) > buffer then found else others
  }

  /** Whole seconds that fit become as many times 10^9 nanoseconds. */
  lemma SecondsIs(seconds: int)
    requires -9_223_372_036 <= seconds <= 9_223_372_036
    ensures Seconds(seconds) == seconds * 1_000_000_000
  {
  }

  class Client {
    const expiryBuffer: Duration
    var tokens: Cache

    /** `New`: a buffer that is not positive becomes 30 seconds. */
    constructor (buffer: Duration)
      ensures tokens == map[]
      ensures expiryBuffer > 0 && expiryBuffer == if buffer <= 0 then DEFAULT_BUFFER else buffer
    {
      expiryBuffer := if buffer <= 0 then DEFAULT_BUFFER else buffer;
      tokens := map[];
    }

    /** The section under the read lock is the `Read` step. */
    method Lookup(ghost s: State, ghost t: Tid, key: string, now: Time) returns (hit: Option<string>)
      requires s.cache == tokens && PcOf(s, t) == Some(Reading(key, now))
      ensures Next(expiryBuffer, s, Read(t)) == match hit
                                                case Some(token) => ReadHit(key, now, token)
                                                case None => ReadMiss(key, now)
    {
      if key in tokens {
        var cached := tokens[key];
        if Since(cached.expiresAt, now) > expiryBuffer {
          return Some(cached.token);
        }
      }
      return None;
    }

    /** The section under the write lock is the `Recheck` step and, on a miss, the fetch. */
    method RecheckAndFetch(ghost s: State, ghost t: Tid, key: string, now: Time, answer: Answer)
      returns (outcome: Outcome)
      requires s.cache == tokens && PcOf(s, t) == Some(Rechecking(key, now))
      modifies this`tokens
      ensures tokens == AfterWriteSection(expiryBuffer, s, t, answer).cache
      ensures PcOf(AfterWriteSection(expiryBuffer, s, t, answer), t) == Some(Leaving(key, now, outcome))
      ensures (tokens, outcome) == CacheLinearizable.AtomicGet(expiryBuffer, old(tokens), key, now, Life(answer))
    {
      if key in tokens {
        var cached := tokens[key];
        if Since(cached.expiresAt, now) > expiryBuffer {
          return Got(cached.token, true);
        }
      }
      if answer.None? {
        return Failed;
      }
      var (token, expiresIn) := answer.value;
      tokens := tokens[key := Entry(token, now + Seconds(expiresIn))];
      return Got(token, false);
    }

    /**
     The whole call; `others` is the cache as other goroutines leave it between
     the two sections.  It is one atomic step, on the cache it found or on the
     one it found after the gap.
     */
    method GetToken(key: string, now: Time, others: Cache, answer: Answer) returns (outcome: Outcome)
      modifies this`tokens
      ensures var seen := if Hit(old(tokens), key, now, expiryBuffer) then old(tokens) else others;
        (tokens, outcome) == CacheLinearizable.AtomicGet(expiryBuffer, seen, key, now, Life(answer))
    {
      var hit := Lookup(State(tokens, {0}, None, map[0 := Reading(key, now)], []), 0, key, now);
      if hit.Some? {
        return Got(hit.value, true);
      }
      tokens := others;
      outcome := RecheckAndFetch(State(tokens, {}, Some(0), map[0 := Rechecking(key, now)], []), 0, key, now, answer);
    }

    /** Once the server has said yes, exactly the entries that hold the token go; an error changes nothing. */
    method Revoke(token: string, accepted: bool) returns (ok: bool)
      modifies this`tokens
      ensures ok == accepted
      ensures tokens == if accepted then Without(old(tokens), token) else old(tokens)
    {
      if !accepted {
        return false;
      }
      var todo := tokens.Keys;
      while todo != {}
        invariant todo <= tokens.Keys <= old(tokens).Keys
        invariant forall k | k in tokens :: tokens[k] == old(tokens)[k]
        invariant forall k | k in old(tokens) && k !in todo :: k in tokens <==> old(tokens)[k].token != token
      {
        var res :| res in todo;
        if tokens[res].token == token {
          tokens := tokens - {res};
        }
        todo := todo - {res};
      }
      return true;
    }

    /**
     `Transport.RoundTrip`: the Authorization header put on the cloned request,
     if a token was had.  A fixed resource is asked for whatever the URL; else
     the URL without query and fragment; without either, no resource.
     */
    method RoundTrip(fixed: string, url: Option<Url>, now: Time, others: Cache, answer: Answer)
      returns (header: Option<string>)
      modifies this`tokens
      ensures var key := TargetResource(fixed, url);
        var seen := if Hit(old(tokens), key, now, expiryBuffer) then old(tokens) else others;
        var (cache, outcome) := CacheLinearizable.AtomicGet(expiryBuffer, seen, key, now, Life(answer));
        && tokens == cache
        && match outcome
           case Failed => header == None
           case Got(token, _) => header == Some(BearerHeader(token))
      ensures fixed != "" ==>
        Served(expiryBuffer, Seen(expiryBuffer, old(tokens), others, fixed, now), fixed, now, answer, tokens, header)
      ensures fixed == "" && url.Some? ==>
        var key := url.value.scheme + "://" + url.value.host + url.value.path;
        Served(expiryBuffer, Seen(expiryBuffer, old(tokens), others, key, now), key, now, answer, tokens, header)
      ensures fixed == "" && url.None? ==>
        Served(expiryBuffer, Seen(expiryBuffer, old(tokens), others, "", now), "", now, answer, tokens, header)
    {
      var targetResource := fixed;
      if targetResource == "" && url.Some? {
        targetResource := url.value.scheme + "://" + url.value.host + url.value.path;
      }
      var outcome := GetToken(targetResource, now, others, answer);
      match outcome
      case Failed => return None;
      case Got(token, _) => return Some("Bearer " + token);
    }
  }

  /** What the server reads out of the header is the token the cache gave, whenever the server made it. */
  lemma HeaderCarriesToken(bytes: seq<Byte>)
    requires |bytes| == 32
    ensures ParseAuthorization(BearerHeader(OpaqueToken(bytes))) == Bearer(OpaqueToken(bytes))
  {
    OpaqueTokenShape(bytes, bytes);
    HeaderRoundTrip(OpaqueToken(bytes));
  }

  /** The request that `fetchToken` sends, as the server's handler hands it on. */
  function FetchRequest(clientId: string, secret: string, key: string): TokenRequest {
    TokenRequest("client_credentials", clientId, secret, key, "")
  }
}

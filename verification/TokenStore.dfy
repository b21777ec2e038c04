/**
 `MemoryStore`: two maps from keys to heap records.  Records and slices are
 copied on the way in and on the way out; `View` is what the store means.
 The lock makes each method one atomic step, so each method is one call here.
 */
module TokenStore {
  import opened Prelude
  import opened Types

  /** The pointee of `Token.RevokedAt`. */
  class TimeCell {
    var at: Time

    constructor (at: Time)
      ensures this.at == at
    {
      this.at := at;
    }
  }

  /** `*Client`, with its two slices. */
  class Client {
    var id: string
    var secretHash: string
    var name: string
    var allowedResources: array<string>
    var allowedScopes: array<string>
    var createdAt: Time

    function Record(): ClientRecord
      reads this, allowedResources, allowedScopes
    {
      ClientRecord(id, secretHash, name, allowedResources[..], allowedScopes[..], createdAt)
    }

    constructor (id: string, secretHash: string, name: string, resources: array<string>, scopes: array<string>,
                 createdAt: Time)
      ensures this.id == id && this.secretHash == secretHash && this.name == name && this.createdAt == createdAt
      ensures allowedResources == resources && allowedScopes == scopes
    {
      this.id, this.secretHash, this.name, this.createdAt := id, secretHash, name, createdAt;
      allowedResources, allowedScopes := resources, scopes;
    }

    /** `c := *client` followed by the two `append([]string(nil), ...)`. */
    constructor Copy(src: Client)
      ensures fresh(allowedResources) && fresh(allowedScopes)
      ensures Record() == src.Record()
    {
      id, secretHash, name, createdAt := src.id, src.secretHash, src.name, src.createdAt;
      var rs, ss := src.allowedResources, src.allowedScopes;
      allowedResources := new string[rs.Length](i requires 0 <= i < rs.Length reads rs => rs[i]);
      allowedScopes := new string[ss.Length](i requires 0 <= i < ss.Length reads ss => ss[i]);
      new;
      assert allowedResources[..] == rs[..];
      assert allowedScopes[..] == ss[..];
    }
  }

  /** `*Token` */
  class Token {
    var tokenHash: string
    var clientId: string
    var resource: string
    var scope: string
    var expiresAt: Time
    var createdAt: Time
    var revokedAt: TimeCell?

    function Record(): TokenRecord
      reads this
    {
      TokenRecord(tokenHash, clientId, resource, scope, expiresAt, createdAt, revokedAt != null)
    }

    constructor (t: TokenRecord, revokedAt: TimeCell?)
      ensures Record() == t.(revoked := revokedAt != null) && this.revokedAt == revokedAt
    {
      tokenHash, clientId, resource, scope := t.tokenHash, t.clientId, t.resource, t.scope;
      expiresAt, createdAt := t.expiresAt, t.createdAt;
      this.revokedAt := revokedAt;
    }
  }

  datatype StoreView = StoreView(clients: map<string, ClientRecord>, tokens: map<string, TokenRecord>)

  class MemoryStore {
    var clients: map<string, Client>
    var tokens: map<string, Token>
    ghost var Repr: set<object>
    ghost var Meaning: StoreView

    ghost predicate Valid()
      reads this, Repr
      ensures Valid() ==> this in Repr
    {
      && this in Repr
      && clients.Keys == Meaning.clients.Keys && tokens.Keys == Meaning.tokens.Keys
      && (forall k | k in clients ::
            && clients[k] in Repr && clients[k].allowedResources in Repr && clients[k].allowedScopes in Repr
            && clients[k].Record() == Meaning.clients[k])
      && (forall h | h in tokens :: tokens[h] in Repr && tokens[h].Record() == Meaning.tokens[h])
      && (forall h, k | h in tokens && k in tokens && h != k :: tokens[h] != tokens[k])
    }

    ghost function View(): StoreView
      reads this, Repr
      requires Valid()
    {
      Meaning
    }

    /** When a stored token was revoked, if it was. */
    function RevokedTime(tokenHash: string): Option<Time>
      requires tokenHash in tokens
      reads this, tokens[tokenHash], tokens[tokenHash].revokedAt
    {
      var cell := tokens[tokenHash].revokedAt;
      if cell == null then None else Some(cell.at)
    }

    /** What the two maps mean: the records read out of the heap. */
    lemma ViewIsHeap()
      requires Valid()
      ensures View() ==
              StoreView(map k | k in clients :: clients[k].Record(), map h | h in tokens :: tokens[h].Record())
    {
    }

    constructor ()
      ensures Valid() && fresh(Repr)
      ensures View() == StoreView(map[], map[])
    {
      clients, tokens := map[], map[];
      Repr := {this};
      Meaning := StoreView(map[], map[]);
    }

    method CreateClient(client: Client?) returns (err: Option<Error>)
      requires Valid()
      modifies this
      ensures Valid() && fresh(Repr - old(Repr))
      ensures err == if client == null || client.id == "" || client.id in old(View()).clients
              then Some(InvalidRequest) else None
      ensures err.Some? ==> View() == old(View())
      ensures err.None? ==> View() == old(View()).(clients := old(View()).clients[client.id := old(client.Record())])
    {
      if client == null || client.id == "" {
        return Some(InvalidRequest);
      }
      if client.id in clients {
        return Some(InvalidRequest);
      }
      var c := new Client.Copy(client);
      assert Valid();
      clients := clients[client.id := c];
      Repr := Repr + {c, c.allowedResources, c.allowedScopes};
      Meaning := Meaning.(clients := Meaning.clients[client.id := c.Record()]);
      return None;
    }

    method GetClient(clientId: string) returns (r: Result<Client, Error>)
      requires Valid()
      ensures r.Ok? <==> clientId in View().clients
      ensures r.Err? ==> r.error == InvalidClient
      ensures r.Ok? ==> r.value.Record() == View().clients[clientId]
      ensures r.Ok? ==> fresh(r.value) && fresh(r.value.allowedResources) && fresh(r.value.allowedScopes)
    {
      if clientId !in clients {
        return Err(InvalidClient);
      }
      var c := new Client.Copy(clients[clientId]);
      return Ok(c);
    }

    method SaveToken(token: Token?) returns (err: Option<Error>)
      requires Valid()
      modifies this
      ensures Valid() && fresh(Repr - old(Repr))
      ensures err == if token == null || token.tokenHash == "" then Some(InvalidRequest) else None
      ensures err.Some? ==> View() == old(View())
      ensures err.None? ==> View() == old(View()).(tokens := old(View()).tokens[token.tokenHash := old(token.Record())])
    {
      if token == null || token.tokenHash == "" {
        return Some(InvalidRequest);
      }
      var t := new Token(token.Record(), token.revokedAt);
      tokens := tokens[token.tokenHash := t];
      Repr := Repr + {t};
      Meaning := Meaning.(tokens := Meaning.tokens[token.tokenHash := t.Record()]);
      return None;
    }

    method GetTokenByHash(tokenHash: string) returns (r: Result<Token, Error>)
      requires Valid()
      ensures r.Ok? <==> tokenHash in View().tokens
      ensures r.Err? ==> r.error == TokenNotFound
      ensures r.Ok? ==> fresh(r.value) && r.value.Record() == View().tokens[tokenHash]
      ensures r.Ok? ==> tokenHash in tokens && r.value.revokedAt == tokens[tokenHash].revokedAt
    {
      if tokenHash !in tokens {
        return Err(TokenNotFound);
      }
      var stored := tokens[tokenHash];
      var t := new Token(stored.Record(), stored.revokedAt);
      return Ok(t);
    }

    /** `now` is the wall clock; the token gets a new pointee that holds it. */
    method RevokeToken(tokenHash: string, now: Time) returns (err: Option<Error>)
      requires Valid()
      modifies this`Meaning, tokens.Values
      ensures Valid()
      ensures err == if tokenHash in old(View()).tokens then None else Some(TokenNotFound)
      ensures err.Some? ==> View() == old(View())
      ensures err.None? ==> View() == old(View()).(tokens :=
                old(View()).tokens[tokenHash := old(View()).tokens[tokenHash].(revoked := true)])
      ensures err.None? ==>
              tokenHash in tokens && fresh(tokens[tokenHash].revokedAt) && RevokedTime(tokenHash) == Some(now)
    {
      if tokenHash !in tokens {
        return Some(TokenNotFound);
      }
      var cell := new TimeCell(now);
      var t := tokens[tokenHash];
      t.revokedAt := cell;
      Meaning := Meaning.(tokens := Meaning.tokens[tokenHash := Meaning.tokens[tokenHash].(revoked := true)]);
      return None;
    }
  }

  /** Whatever happens to objects outside the representation, the store means the same. */
  twostate lemma OutsideWritesInvisible(s: MemoryStore)
    requires old(s.Valid()) && forall o | o in old(s.Repr) :: unchanged(o)
    ensures s.Valid() && s.View() == old(s.View())
  {
  }

  /** A caller writes all over a client record and its slices. */
  method Overwrite(c: Client, junk: string, when: Time)
    modifies c, c.allowedResources, c.allowedScopes
  {
    forall i | 0 <= i < c.allowedResources.Length { c.allowedResources[i] := junk; }
    forall i | 0 <= i < c.allowedScopes.Length { c.allowedScopes[i] := junk; }
    c.id, c.name, c.secretHash, c.createdAt := junk, junk, junk, when;
  }

  /** Overwriting what was passed to `CreateClient` changes nothing that is stored. */
  method OverwriteAfterCreate(store: MemoryStore, mine: Client, junk: string, when: Time) returns (err: Option<Error>)
    requires store.Valid() && {mine, mine.allowedResources, mine.allowedScopes} !! store.Repr
    modifies store, mine, mine.allowedResources, mine.allowedScopes
    ensures store.Valid()
    ensures err.None? ==> store.View().clients == old(store.View()).clients[old(mine.id) := old(mine.Record())]
    ensures err.None? ==> store.View().tokens == old(store.View()).tokens
    ensures err.Some? ==> store.View() == old(store.View())
  {
    err := store.CreateClient(mine);
    label stored:
    assert mine !in store.Repr && mine.allowedResources !in store.Repr && mine.allowedScopes !in store.Repr;
    Overwrite(mine, junk, when);
    OutsideWritesInvisible@stored(store);
  }

  /** Overwriting a client the store returned changes no stored allowed list. */
  method OverwriteReturnedClient(store: MemoryStore, clientId: string, junk: string, when: Time)
    requires store.Valid()
    ensures store.Valid() && store.View() == old(store.View())
  {
    var got := store.GetClient(clientId);
    if got.Ok? {
      Overwrite(got.value, junk, when);
    }
    OutsideWritesInvisible(store);
  }

  /** Overwriting every field of a token the store returned changes no stored expiry or revocation. */
  method OverwriteReturnedToken(store: MemoryStore, tokenHash: string, junk: string, when: Time)
    requires store.Valid()
    ensures store.Valid() && store.View() == old(store.View())
  {
    var found := store.GetTokenByHash(tokenHash);
    if found.Ok? {
      var t := found.value;
      t.tokenHash, t.clientId, t.resource, t.scope := junk, junk, junk, junk;
      t.expiresAt, t.createdAt, t.revokedAt := when, when, null;
    }
    OutsideWritesInvisible(store);
  }

  /** A returned token shares the pointee of `RevokedAt`; writing through that pointer is invisible too. */
  method WriteSharedTime(store: MemoryStore, t: Token, when: Time)
    requires store.Valid() && t.revokedAt != null
    modifies t.revokedAt
    ensures store.Valid() && store.View() == old(store.View())
    ensures t.Record() == old(t.Record())
  {
    t.revokedAt.at := when;
  }
}

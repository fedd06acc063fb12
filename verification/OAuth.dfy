/**
 The authorization server of the chassis (packages/mcp-chassis/src/oauth.ts): `MemoryOAuthStore`,
 the pending browser consents, and the handlers for consent, decision and token (sections 4.1.2
 and 6 of RFC 6749, section 4.6 of RFC 7636).

 `Server` is the value of all the maps; the `After…` functions say what each step does to it and
 the classes do it in place. A handler runs without interruption once its caller is identified,
 so it is one step.
 */
module OAuth {
  import opened Basics

  const ACCESS_TTL_MS := 60 * 60 * 1000
  const CODE_TTL_MS := 10 * 60 * 1000
  const MAX_PENDING := 1000

  datatype Tenant = Tenant(id: string, details: string)

  datatype Client = Client(clientId: string, clientName: string, redirectUris: seq<string>)

  datatype Code = Code(
    code: string,
    clientId: string,
    redirectUri: string,
    codeChallenge: string,
    resource: string,
    scope: string,
    tenant: Tenant,
    expiresAt: int)

  datatype Token = Token(
    accessToken: string,
    refreshToken: string,
    clientId: string,
    clientName: string,
    resource: string,
    scope: string,
    tenant: Tenant,
    expiresAt: int)

  datatype Params = Params(
    clientId: string,
    redirectUri: string,
    state: string,
    codeChallenge: string,
    codeChallengeMethod: string,
    resource: string,
    scope: string)

  datatype Identity = Identity(subject: string, tenant: Tenant)

  /** A consent is bound to the request it was opened for: the public base URL and the parameters. */
  datatype Consent = Consent(subject: string, tenantId: string, base: string, params: Params, expiresAt: int)

  datatype Pending = Pending(nonce: string, consent: Consent)

  /** URL parsing and hashing, which the model does not look into. */
  datatype Env = Env(
    validRedirectUri: string -> bool,
    pkceMatches: (string, string) -> bool,
    canonicalResource: string -> string)

  /** `pending` is a map in insertion order, as the list of its pairs. */
  datatype Server = Server(
    clients: map<string, Client>,
    codes: map<string, Code>,
    byAccess: map<string, Token>,
    byRefresh: map<string, string>,
    pending: seq<Pending>)

  const EMPTY := Server(map[], map[], map[], map[], [])

  // ---------------------------------------------------------------- the store

  /** The code is gone after one presentation, whether it was good or not. */
  function Consumed(codes: map<string, Code>, code: string, now: int): Option<Code> {
    if code !in codes || codes[code].expiresAt < now then None else Some(codes[code])
  }

  function ResolveAccess(s: Server, access: string, now: int): Option<Token> {
    if access !in s.byAccess || s.byAccess[access].expiresAt < now then None else Some(s.byAccess[access])
  }

  function TokenOfRefresh(s: Server, refresh: string): Option<Token> {
    if refresh in s.byRefresh && s.byRefresh[refresh] != "" && s.byRefresh[refresh] in s.byAccess
    then Some(s.byAccess[s.byRefresh[refresh]]) else None
  }

  function WithToken(s: Server, token: Token): Server {
    s.(byAccess := s.byAccess[token.accessToken := token],
       byRefresh := s.byRefresh[token.refreshToken := token.accessToken])
  }

  function Rotated(s: Server, refresh: string, access: string, expiresAt: int): Server {
    match TokenOfRefresh(s, refresh)
    case None => s
    case Some(t) =>
      s.(byAccess := (s.byAccess - {s.byRefresh[refresh]})[access := t.(accessToken := access, expiresAt := expiresAt)],
         byRefresh := s.byRefresh[refresh := access])
  }

  class MemoryOAuthStore {
    var clients: map<string, Client>
    var codes: map<string, Code>
    var tokensByAccess: map<string, Token>
    var tokensByRefresh: map<string, string>

    function With(pending: seq<Pending>): Server
      reads this
    {
      Server(clients, codes, tokensByAccess, tokensByRefresh, pending)
    }

    constructor ()
      ensures With([]) == EMPTY
    {
      clients, codes, tokensByAccess, tokensByRefresh := map[], map[], map[], map[];
    }

    method CreateClient(client: Client)
      modifies this`clients
      ensures clients == old(clients)[client.clientId := client]
    {
      clients := clients[client.clientId := client];
    }

    method CreateCode(code: Code)
      modifies this`codes
      ensures codes == old(codes)[code.code := code]
    {
      codes := codes[code.code := code];
    }

    method ConsumeCode(code: string, now: int) returns (r: Option<Code>)
      modifies this`codes
      ensures r == Consumed(old(codes), code, now) && codes == old(codes) - {code}
    {
      var authCode := if code in codes then Some(codes[code]) else None;
      codes := codes - {code};
      if authCode.None? || authCode.value.expiresAt < now {
        return None;
      }
      return authCode;
    }

    method CreateToken(token: Token)
      modifies this`tokensByAccess, this`tokensByRefresh
      ensures forall p :: With(p) == WithToken(old(With(p)), token)
    {
      tokensByAccess := tokensByAccess[token.accessToken := token];
      tokensByRefresh := tokensByRefresh[token.refreshToken := token.accessToken];
    }

    method ResolveOAuthAccessToken(accessToken: string, now: int) returns (r: Option<Token>)
      ensures forall p :: r == ResolveAccess(With(p), accessToken, now)
    {
      if accessToken !in tokensByAccess || tokensByAccess[accessToken].expiresAt < now {
        return None;
      }
      return Some(tokensByAccess[accessToken]);
    }

    method GetByRefreshToken(refreshToken: string) returns (r: Option<Token>)
      ensures forall p :: r == TokenOfRefresh(With(p), refreshToken)
    {
      var access := if refreshToken in tokensByRefresh then tokensByRefresh[refreshToken] else "";
      if access == "" || access !in tokensByAccess {
        return None;
      }
      return Some(tokensByAccess[access]);
    }

    method RotateAccessToken(refreshToken: string, newAccessToken: string, expiresAt: int)
      modifies this`tokensByAccess, this`tokensByRefresh
      ensures forall p :: With(p) == Rotated(old(With(p)), refreshToken, newAccessToken, expiresAt)
    {
      var oldAccess := if refreshToken in tokensByRefresh then tokensByRefresh[refreshToken] else "";
      if oldAccess == "" || oldAccess !in tokensByAccess {
        return;
      }
      var existing := tokensByAccess[oldAccess];
      tokensByAccess := tokensByAccess - {oldAccess};
      tokensByAccess :=
        tokensByAccess[newAccessToken := existing.(accessToken := newAccessToken, expiresAt := expiresAt)];
      tokensByRefresh := tokensByRefresh[refreshToken := newAccessToken];
    }
  }

  // ---------------------------------------------------------------- the handlers

  predicate ValidAuthorize(env: Env, clients: map<string, Client>, p: Params) {
    && p.clientId != "" && p.redirectUri != "" && p.codeChallenge != ""
    && p.codeChallengeMethod == "S256"
    && p.clientId in clients
    && p.redirectUri in clients[p.clientId].redirectUris
    && env.validRedirectUri(p.redirectUri)
  }

  function Unexpired(pending: seq<Pending>, now: int): seq<Pending> {
    if pending == [] then []
    else if pending[0].consent.expiresAt <= now then Unexpired(pending[1..], now)
    else [pending[0]] + Unexpired(pending[1..], now)
  }

  function MakeRoom(pending: seq<Pending>): seq<Pending> {
    if |pending| >= MAX_PENDING then pending[1..] else pending
  }

  function SetPending(pending: seq<Pending>, nonce: string, consent: Consent): seq<Pending> {
    if pending == [] then [Pending(nonce, consent)]
    else if pending[0].nonce == nonce then [Pending(nonce, consent)] + pending[1..]
    else [pending[0]] + SetPending(pending[1..], nonce, consent)
  }

  function FindPending(pending: seq<Pending>, nonce: string): Option<Consent> {
    if pending == [] then None
    else if pending[0].nonce == nonce then Some(pending[0].consent)
    else FindPending(pending[1..], nonce)
  }

  function DropPending(pending: seq<Pending>, nonce: string): seq<Pending> {
    if pending == [] then []
    else if pending[0].nonce == nonce then pending[1..]
    else [pending[0]] + DropPending(pending[1..], nonce)
  }

  datatype ConsentReply = BadRequest | SignIn | ConsentForm(nonce: string)

  /** Opening the consent page for an identified browser. */
  function AfterConsent(env: Env, s: Server, base: string, p: Params, who: Option<Identity>, nonce: string,
                        now: int): (ConsentReply, Server)
  {
    if !ValidAuthorize(env, s.clients, p) then (BadRequest, s)
    else if who.None? then (SignIn, s)
    else
      var consent := Consent(who.value.subject, who.value.tenant.id, base, p, now + CODE_TTL_MS);
      (ConsentForm(nonce), s.(pending := SetPending(MakeRoom(Unexpired(s.pending, now)), nonce, consent)))
  }

  /** How the decider is known: a browser session with a consent nonce, or a tenant token. */
  datatype Decider =
    | Browser(who: Option<Identity>, nonce: string, origin: Option<string>)
    | TenantToken(tenant: Option<Tenant>)

  datatype DecisionReply =
    | InvalidRequest
    | SignInExpired
    | InvalidConsent
    | TokenUnknown
    | Denied
    | CodeSent(code: string)

  predicate ConsentHolds(s: Server, base: string, p: Params, d: Decider, now: int)
    requires d.Browser? && d.who.Some?
  {
    var consent := FindPending(s.pending, d.nonce);
    && consent.Some? && consent.value.expiresAt > now
    && consent.value.subject == d.who.value.subject && consent.value.tenantId == d.who.value.tenant.id
    && consent.value.base == base && consent.value.params == p
    && (d.origin.Some? && d.origin.value != "" ==> d.origin.value == base)
  }

  function NewCode(env: Env, base: string, p: Params, tenant: Tenant, code: string, now: int): Code {
    Code(code, p.clientId, p.redirectUri, p.codeChallenge,
         if p.resource != "" then p.resource else env.canonicalResource(base), p.scope, tenant, now + CODE_TTL_MS)
  }

  function AfterDecision(env: Env, s: Server, base: string, p: Params, d: Decider, approve: bool, code: string,
                         now: int): (DecisionReply, Server)
  {
    if !ValidAuthorize(env, s.clients, p) then (InvalidRequest, s)
    else
      match d
      case Browser(who, nonce, _) =>
        if who.None? then (SignInExpired, s)
        else if !ConsentHolds(s, base, p, d, now) then (InvalidConsent, s)
        else
          var s' := s.(pending := DropPending(s.pending, nonce));
          if !approve then (Denied, s')
          else (CodeSent(code), s'.(codes := s.codes[code := NewCode(env, base, p, who.value.tenant, code, now)]))
      case TenantToken(tenant) =>
        if tenant.None? then (TokenUnknown, s)
        else if !approve then (Denied, s)
        else (CodeSent(code), s.(codes := s.codes[code := NewCode(env, base, p, tenant.value, code, now)]))
  }

  datatype TokenReply = InvalidGrant | Pair(access: string, refresh: string, scope: string)

  function ClientName(s: Server, clientId: string): string {
    if clientId in s.clients then s.clients[clientId].clientName else "MCP client"
  }

  function NewToken(s: Server, c: Code, access: string, refresh: string, now: int): Token {
    Token(access, refresh, c.clientId, ClientName(s, c.clientId), c.resource, c.scope, c.tenant, now + ACCESS_TTL_MS)
  }

  predicate CodeGood(env: Env, c: Option<Code>, verifier: string, redirectUri: string) {
    c.Some? && c.value.redirectUri == redirectUri && verifier != "" && env.pkceMatches(verifier, c.value.codeChallenge)
  }

  function AfterExchange(env: Env, s: Server, code: string, verifier: string, redirectUri: string,
                         access: string, refresh: string, now: int): (TokenReply, Server) {
    var c := Consumed(s.codes, code, now);
    var s' := s.(codes := s.codes - {code});
    if !CodeGood(env, c, verifier, redirectUri) then (InvalidGrant, s')
    else (Pair(access, refresh, c.value.scope), WithToken(s', NewToken(s', c.value, access, refresh, now)))
  }

  function AfterRefresh(s: Server, refresh: string, access: string, now: int): (TokenReply, Server) {
    match TokenOfRefresh(s, refresh)
    case None => (InvalidGrant, s)
    case Some(t) => (Pair(access, refresh, t.scope), Rotated(s, refresh, access, now + ACCESS_TTL_MS))
  }

  class OAuthServer {
    const env: Env
    const store: MemoryOAuthStore
    var pending: seq<Pending>

    function Value(): Server
      reads this, store
    {
      store.With(pending)
    }

    constructor (env: Env, store: MemoryOAuthStore)
      ensures this.env == env && this.store == store && pending == []
    {
      this.env := env;
      this.store := store;
      pending := [];
    }

    /** Deletes the expired consents while walking over them. */
    method PrunePending(now: int)
      modifies this`pending
      ensures pending == Unexpired(old(pending), now)
    {
      var i := 0;
      assert pending[..0] == [];
      while i < |pending|
        invariant i <= |pending|
        invariant pending[..i] + Unexpired(pending[i..], now) == Unexpired(old(pending), now)
        decreases |pending| - i
      {
        ghost var before := pending;
        if pending[i].consent.expiresAt <= now {
          pending := pending[..i] + pending[i + 1..];
          assert pending[..i] == before[..i] && pending[i..] == before[i..][1..];
        } else {
          assert before[..i + 1] == before[..i] + [before[i]];
          i := i + 1;
        }
      }
      assert pending[..i] == pending;
    }

    method HandleAuthorizeGet(base: string, p: Params, who: Option<Identity>, nonce: string, now: int)
      returns (reply: ConsentReply)
      modifies this`pending
      ensures (reply, Value()) == AfterConsent(env, old(Value()), base, p, who, nonce, now)
    {
      if !ValidAuthorize(env, store.clients, p) {
        return BadRequest;
      }
      if who.None? {
        return SignIn;
      }
      PrunePending(now);
      if |pending| >= MAX_PENDING {
        pending := pending[1..];
      }
      pending := SetPending(pending, nonce,
        Consent(who.value.subject, who.value.tenant.id, base, p, now + CODE_TTL_MS));
      return ConsentForm(nonce);
    }

    method HandleAuthorizeDecision(base: string, p: Params, d: Decider, approve: bool, code: string, now: int)
      returns (reply: DecisionReply)
      modifies this`pending, store`codes
      ensures (reply, Value()) == AfterDecision(env, old(Value()), base, p, d, approve, code, now)
    {
      if !ValidAuthorize(env, store.clients, p) {
        return InvalidRequest;
      }
      var tenant: Tenant;
      match d {
        case Browser(who, nonce, origin) =>
          if who.None? {
            return SignInExpired;
          }
          var consent := FindPending(pending, nonce);
          if || consent.None? || consent.value.expiresAt <= now
             || consent.value.subject != who.value.subject || consent.value.tenantId != who.value.tenant.id
             || consent.value.base != base || consent.value.params != p
             || (origin.Some? && origin.value != "" && origin.value != base)
          {
            return InvalidConsent;
          }
          pending := DropPending(pending, nonce);
          tenant := who.value.tenant;
        case TenantToken(found) =>
          if found.None? {
            return TokenUnknown;
          }
          tenant := found.value;
      }
      if !approve {
        return Denied;
      }
      store.CreateCode(Code(code, p.clientId, p.redirectUri, p.codeChallenge,
                            if p.resource != "" then p.resource else env.canonicalResource(base),
                            p.scope, tenant, now + CODE_TTL_MS));
      return CodeSent(code);
    }

    method HandleCodeGrant(code: string, verifier: string, redirectUri: string, access: string, refresh: string,
                           now: int)
      returns (reply: TokenReply)
      modifies store
      ensures (reply, Value()) == AfterExchange(env, old(Value()), code, verifier, redirectUri, access, refresh, now)
    {
      var authCode := store.ConsumeCode(code, now);
      if authCode.None? {
        return InvalidGrant;
      }
      if authCode.value.redirectUri != redirectUri {
        return InvalidGrant;
      }
      if verifier == "" || !env.pkceMatches(verifier, authCode.value.codeChallenge) {
        return InvalidGrant;
      }
      var clientId := authCode.value.clientId;
      var name := if clientId in store.clients then store.clients[clientId].clientName else "MCP client";
      label Consumed:
      store.CreateToken(Token(access, refresh, clientId, name, authCode.value.resource, authCode.value.scope,
                              authCode.value.tenant, now + ACCESS_TTL_MS));
      ghost var consumed := old@Consumed(store.With(pending));
      assert store.With(pending) == WithToken(consumed, NewToken(consumed, authCode.value, access, refresh, now));
      return Pair(access, refresh, authCode.value.scope);
    }

    method HandleRefreshGrant(refresh: string, access: string, now: int) returns (reply: TokenReply)
      modifies store
      ensures (reply, Value()) == AfterRefresh(old(Value()), refresh, access, now)
    {
      var existing := store.GetByRefreshToken(refresh);
      assert existing == TokenOfRefresh(store.With(pending), refresh);
      if existing.None? {
        return InvalidGrant;
      }
      store.RotateAccessToken(refresh, access, now + ACCESS_TTL_MS);
      assert store.With(pending) == Rotated(old(store.With(pending)), refresh, access, now + ACCESS_TTL_MS);
      return Pair(access, refresh, existing.value.scope);
    }
  }
}

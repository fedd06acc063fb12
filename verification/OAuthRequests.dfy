/**
 What the authorization server of module OAuth demands of a request and what it answers, in terms of
 the registered clients; the effect of every handler; and, over runs, that every pending consent and
 every code is for a registered client and one of its own redirect URIs.
 */
module OAuthRequests {
  import opened Basics
  import opened OAuth
  import opened OAuthRuns

  // ---------------------------------------------------------------- which requests are served

  /** The request is by a known client, for one of its own redirect URIs, with a challenge of method S256. */
  ghost predicate Proper(clients: map<string, Client>, p: Params) {
    && p.clientId in clients
    && (exists i :: 0 <= i < |clients[p.clientId].redirectUris| && clients[p.clientId].redirectUris[i] == p.redirectUri)
    && p.codeChallengeMethod == "S256" && p.codeChallenge != ""
  }

  /** And its redirect URI is a valid one. */
  ghost predicate Servable(env: Env, clients: map<string, Client>, p: Params) {
    Proper(clients, p) && p.clientId != "" && p.redirectUri != "" && env.validRedirectUri(p.redirectUri)
  }

  lemma ValidIsServable(env: Env, clients: map<string, Client>, p: Params)
    ensures ValidAuthorize(env, clients, p) <==> Servable(env, clients, p)
  {
  }

  /** When the map of consents is full, the oldest that has not expired makes room. */
  ghost predicate Kept(pending: seq<Pending>, kept: seq<Pending>, now: int) {
    exists live: seq<Pending> ::
      && LivePart(pending, live, now)
      && kept == if |live| >= 1000 then live[1..] else live
  }

  /** The consents that have not expired, in order. */
  ghost predicate LivePart(pending: seq<Pending>, live: seq<Pending>, now: int) {
    if pending == [] then live == []
    else if pending[0].consent.expiresAt > now then
      live != [] && live[0] == pending[0] && LivePart(pending[1..], live[1..], now)
    else LivePart(pending[1..], live, now)
  }

  lemma {:induction false} UnexpiredIsLive(pending: seq<Pending>, now: int)
    ensures LivePart(pending, Unexpired(pending, now), now)
  {
    if pending != [] { UnexpiredIsLive(pending[1..], now); }
  }

  /**
   Opening the consent page: a request is refused exactly when it is not servable, sent to sign in
   exactly when the browser is not identified, and otherwise answered with a form, whose consent is
   for this subject, tenant and request and lasts ten minutes.
   */
  lemma ConsentAnswers(env: Env, s: Server, base: string, p: Params, who: Option<Identity>, nonce: string, now: int)
    requires forall x | x in s.pending :: x.nonce != nonce
    ensures var (reply, s') := AfterConsent(env, s, base, p, who, nonce, now);
            && (reply == BadRequest <==> !Servable(env, s.clients, p))
            && (reply == SignIn <==> Servable(env, s.clients, p) && who.None?)
            && (reply == ConsentForm(nonce) <==> Servable(env, s.clients, p) && who.Some?)
            && s' == s.(pending := s'.pending) && (reply != ConsentForm(nonce) ==> s' == s)
            && (reply == ConsentForm(nonce) ==>
                  && s'.pending != []
                  && s'.pending[|s'.pending| - 1]
                     == Pending(nonce, Consent(who.value.subject, who.value.tenant.id, base, p, now + 600_000))
                  && Kept(s.pending, s'.pending[..|s'.pending| - 1], now))
  {
    ValidIsServable(env, s.clients, p);
    hide ValidAuthorize, Servable;
    if Servable(env, s.clients, p) && who.Some? {
      var live := Unexpired(s.pending, now);
      var kept := MakeRoom(live);
      UnexpiredIsLive(s.pending, now);
      UnexpiredMembers(s.pending, now);
      var consent := Consent(who.value.subject, who.value.tenant.id, base, p, now + CODE_TTL_MS);
      SetFresh(kept, nonce, consent);
      assert (kept + [Pending(nonce, consent)])[..|kept|] == kept;
      hide LivePart, Unexpired;
    }
  }

  lemma {:induction false} UnexpiredMembers(pending: seq<Pending>, now: int)
    ensures forall x | x in Unexpired(pending, now) :: x in pending
  {
    if pending != [] { UnexpiredMembers(pending[1..], now); }
  }

  /** A nonce has the consent that was stored for it last; the others keep theirs. */
  lemma {:induction false} LastConsentCounts(pending: seq<Pending>, nonce: string, consent: Consent, other: string)
    ensures FindPending(SetPending(pending, nonce, consent), other)
      == if other == nonce then Some(consent) else FindPending(pending, other)
  {
    if pending != [] { LastConsentCounts(pending[1..], nonce, consent, other); }
  }

  /** The decider is who the consent was opened for, and decides on the same request from the same site. */
  ghost predicate MayDecide(s: Server, base: string, p: Params, id: Identity, nonce: string, origin: Option<string>,
                            now: int)
  {
    exists x :: x in s.pending && x.nonce == nonce
                && x.consent == Consent(id.subject, id.tenant.id, base, p, x.consent.expiresAt)
                && now < x.consent.expiresAt && (origin == None || origin == Some("") || origin == Some(base))
  }

  /** The code that an approval stores: it is for the request and the decider's tenant, and lasts ten minutes. */
  ghost predicate IsCodeFor(env: Env, base: string, p: Params, tenant: Tenant, code: string, c: Code, now: int) {
    && c.code == code && c.clientId == p.clientId && c.redirectUri == p.redirectUri
    && c.codeChallenge == p.codeChallenge && c.scope == p.scope && c.tenant == tenant
    && c.resource == (if p.resource == "" then env.canonicalResource(base) else p.resource)
    && c.expiresAt == now + 600_000
  }

  lemma HoldsIsMayDecide(s: Server, base: string, p: Params, id: Identity, nonce: string, origin: Option<string>,
                         now: int)
    requires DistinctNonces(s.pending)
    ensures ConsentHolds(s, base, p, Browser(Some(id), nonce, origin), now)
      <==> MayDecide(s, base, p, id, nonce, origin, now)
  {
    FoundExactly(s.pending, nonce);
    var found := FindPending(s.pending, nonce);
    if found.Some? {
      assert Pending(nonce, found.value) in s.pending;
      var c := found.value;
      assert c == Consent(c.subject, c.tenantId, c.base, c.params, c.expiresAt);
    }
    assert origin.Some? ==> origin == Some(origin.value);
    hide FindPending, DistinctNonces;
  }

  lemma {:induction false} FoundExactly(pending: seq<Pending>, nonce: string)
    requires DistinctNonces(pending)
    ensures FindPending(pending, nonce).Some? ==> Pending(nonce, FindPending(pending, nonce).value) in pending
    ensures forall x | x in pending && x.nonce == nonce :: FindPending(pending, nonce) == Some(x.consent)
  {
    if pending != [] {
      FoundExactly(pending[1..], nonce);
      assert forall x | x in pending[1..] :: x.nonce != pending[0].nonce;
    }
  }

  /**
   A decision in the browser: what it answers, exactly; a decision that is taken uses the consent up,
   and only an approval stores a code.
   */
  lemma BrowserDecisionAnswers(env: Env, s: Server, base: string, p: Params, id: Identity, nonce: string,
                               origin: Option<string>, approve: bool, code: string, now: int)
    requires DistinctNonces(s.pending)
    ensures var (reply, s') := AfterDecision(env, s, base, p, Browser(Some(id), nonce, origin), approve, code, now);
            var may := MayDecide(s, base, p, id, nonce, origin, now);
            && (reply == InvalidRequest <==> !Servable(env, s.clients, p))
            && (reply == InvalidConsent <==> Servable(env, s.clients, p) && !may)
            && (reply == Denied <==> Servable(env, s.clients, p) && may && !approve)
            && (reply == CodeSent(code) <==> Servable(env, s.clients, p) && may && approve)
            && s' == s.(pending := s'.pending, codes := s'.codes)
            && (if reply == CodeSent(code) then
                  && s'.codes.Keys == s.codes.Keys + {code}
                  && IsCodeFor(env, base, p, id.tenant, code, s'.codes[code], now)
                  && s'.codes - {code} == s.codes - {code}
                else s'.codes == s.codes)
            && forall x :: x in s'.pending <==>
                 x in s.pending && (x.nonce == nonce ==> reply != CodeSent(code) && reply != Denied)
  {
    ValidIsServable(env, s.clients, p);
    HoldsIsMayDecide(s, base, p, id, nonce, origin, now);
    DropExactly(s.pending, nonce);
    hide ValidAuthorize, Servable, ConsentHolds, MayDecide, DropPending;
  }

  lemma {:induction false} DropExactly(pending: seq<Pending>, nonce: string)
    requires DistinctNonces(pending)
    ensures forall x :: x in DropPending(pending, nonce) <==> x in pending && x.nonce != nonce
  {
    if pending != [] {
      DropExactly(pending[1..], nonce);
      assert forall x | x in pending[1..] :: x.nonce != pending[0].nonce;
      assert forall x :: x in pending <==> x == pending[0] || x in pending[1..];
    }
  }

  /** A decision with a tenant token needs no consent; without an identity nothing is decided. */
  lemma TokenDecisionAnswers(env: Env, s: Server, base: string, p: Params, tenant: Option<Tenant>, approve: bool,
                             code: string, now: int)
    ensures var (reply, s') := AfterDecision(env, s, base, p, TenantToken(tenant), approve, code, now);
            && (reply == InvalidRequest <==> !Servable(env, s.clients, p))
            && (reply == TokenUnknown <==> Servable(env, s.clients, p) && tenant == None)
            && (reply == Denied <==> Servable(env, s.clients, p) && tenant != None && !approve)
            && (reply == CodeSent(code) <==> Servable(env, s.clients, p) && tenant != None && approve)
            && s' == s.(codes := s'.codes)
            && (if reply == CodeSent(code) then
                  s'.codes.Keys == s.codes.Keys + {code}
                  && IsCodeFor(env, base, p, tenant.value, code, s'.codes[code], now)
                  && s'.codes - {code} == s.codes - {code}
                else s'.codes == s.codes)
  {
    ValidIsServable(env, s.clients, p);
    hide ValidAuthorize, Servable;
  }

  lemma StrangerDecides(env: Env, s: Server, base: string, p: Params, nonce: string, origin: Option<string>,
                        approve: bool, code: string, now: int)
    ensures var (reply, s') := AfterDecision(env, s, base, p, Browser(None, nonce, origin), approve, code, now);
            s' == s && reply == if Servable(env, s.clients, p) then SignInExpired else InvalidRequest
  {
    ValidIsServable(env, s.clients, p);
  }

  // ---------------------------------------------------------------- what tokens are worth

  /** The tokens of an exchange or a refresh: what they carry, and that the access token lasts an hour. */
  ghost predicate Serves(s: Server, access: string, refresh: string, clientId: string, resource: string, scope: string,
                         tenant: Tenant, now: int)
  {
    && (forall later :: ResolveAccess(s, access, later).Some? <==> later <= now + 3_600_000)
    && (forall later | later <= now + 3_600_000 ::
          var t := ResolveAccess(s, access, later).value;
          t.clientId == clientId && t.resource == resource && t.scope == scope && t.tenant == tenant)
    && TokenOfRefresh(s, refresh) == ResolveAccess(s, access, now)
  }

  /**
   Exchanging a code: it succeeds exactly when the code is stored and not older than it may be, the
   redirect URI is the code's, and a nonempty verifier matches its challenge; the code is gone in
   any case.
   */
  lemma ExchangeAnswers(env: Env, s: Server, code: string, verifier: string, redirectUri: string, access: string,
                        refresh: string, now: int)
    requires access != ""
    ensures var (reply, s') := AfterExchange(env, s, code, verifier, redirectUri, access, refresh, now);
            && (reply.Pair? <==>
                  && code in s.codes && now <= s.codes[code].expiresAt && redirectUri == s.codes[code].redirectUri
                  && verifier != "" && env.pkceMatches(verifier, s.codes[code].codeChallenge))
            && s'.codes == s.codes - {code} && s'.clients == s.clients && s'.pending == s.pending
            && (reply.Pair? ==>
                  var c := s.codes[code];
                  && reply == Pair(access, refresh, c.scope)
                  && Serves(s', access, refresh, c.clientId, c.resource, c.scope, c.tenant, now)
                  && s'.byAccess[access].clientName
                     == (if c.clientId in s.clients then s.clients[c.clientId].clientName else "MCP client")
                  && s'.byAccess - {access} == s.byAccess - {access}
                  && s'.byRefresh - {refresh} == s.byRefresh - {refresh})
            && (!reply.Pair? ==> s'.byAccess == s.byAccess && s'.byRefresh == s.byRefresh)
  {
  }

  /**
   Refreshing: it succeeds exactly when the refresh token has an access token; then that one is gone,
   and the new one carries the same for another hour.
   */
  lemma RefreshAnswers(s: Server, refresh: string, access: string, now: int)
    requires access != "" && access !in s.byAccess
    ensures var (reply, s') := AfterRefresh(s, refresh, access, now);
            && (reply.Pair? <==>
                  refresh in s.byRefresh && s.byRefresh[refresh] != "" && s.byRefresh[refresh] in s.byAccess)
            && (reply.Pair? ==>
                  var t := s.byAccess[s.byRefresh[refresh]];
                  && reply == Pair(access, refresh, t.scope)
                  && Serves(s', access, refresh, t.clientId, t.resource, t.scope, t.tenant, now)
                  && s.byRefresh[refresh] !in s'.byAccess
                  && s'.byAccess - {access} == s.byAccess - {s.byRefresh[refresh]}
                  && s'.byRefresh - {refresh} == s.byRefresh - {refresh})
            && (!reply.Pair? ==> s' == s)
            && s'.codes == s.codes && s'.clients == s.clients && s'.pending == s.pending
  {
  }

  // ---------------------------------------------------------------- over runs

  /** Every consent and every code ever given out is for a proper request. */
  ghost predicate AllProper(env: Env, w: World) {
    && (forall k | k in w.consents :: Servable(env, w.s.clients, w.consents[k].params))
    && (forall k | k in w.issued :: Servable(env, w.s.clients, w.issued[k].params))
  }

  /** Registering another client changes nothing for the known ones. */
  lemma ServableStays(env: Env, clients: map<string, Client>, id: string, client: Client, p: Params)
    requires Servable(env, clients, p) && id !in clients
    ensures Servable(env, clients[id := client], p)
  {
  }

  lemma StepIsProper(env: Env, w: World, e: Event, now: int)
    requires AllProper(env, w) && Fresh(w, e)
    ensures AllProper(env, Step(env, w, e, now))
  {
    match e
    case Register(id, name, uris) =>
      hide Servable;
      forall p | Servable(env, w.s.clients, p)
        ensures Servable(env, w.s.clients[id := Client(id, name, uris)], p)
      {
        ServableStays(env, w.s.clients, id, Client(id, name, uris), p);
      }
    case OpenConsent(base, p, who, nonce) =>
      ValidIsServable(env, w.s.clients, p);
      hide Servable, ValidAuthorize, SetPending, MakeRoom, Unexpired;
    case Decide(base, p, d, approve, code) =>
      ValidIsServable(env, w.s.clients, p);
      hide Servable, ValidAuthorize, ConsentHolds, DropPending;
    case _ =>
      hide Servable, Rotated, TokenOfRefresh;
  }

  lemma {:induction false} RunIsProper(env: Env, w: World, run: seq<Timed>)
    requires AllProper(env, w) && FreshRun(env, w, run)
    ensures AllProper(env, After(env, w, run))
    decreases |run|
  {
    hide AllProper, Step, Fresh;
    if run != [] {
      StepIsProper(env, w, run[0].event, run[0].at);
      RunIsProper(env, Step(env, w, run[0].event, run[0].at), run[1..]);
    }
  }

  /** The client of the request was registered in the run, with the request's redirect URI. */
  ghost predicate RegisteredIn(run: seq<Timed>, p: Params) {
    exists i :: 0 <= i < |run| && run[i].event.Register? && run[i].event.clientId == p.clientId
                && p.redirectUri in run[i].event.redirectUris
  }

  /** The clients are those that were registered, as they were registered. */
  lemma {:induction false} ClientsWereRegistered(env: Env, w: World, run: seq<Timed>, id: string)
    requires id in After(env, w, run).s.clients
    ensures
      || (id in w.s.clients && After(env, w, run).s.clients[id] == w.s.clients[id])
      || exists i :: 0 <= i < |run| && run[i].event.Register? && run[i].event.clientId == id
                     && After(env, w, run).s.clients[id].redirectUris == run[i].event.redirectUris
    decreases |run|
  {
    if run != [] {
      var next := Step(env, w, run[0].event, run[0].at);
      ClientsWereRegistered(env, next, run[1..], id);
      ClientsStep(env, w, run[0].event, run[0].at);
      hide Step;
      if i :| 0 <= i < |run[1..]| && run[1..][i].event.Register? && run[1..][i].event.clientId == id
              && After(env, w, run).s.clients[id].redirectUris == run[1..][i].event.redirectUris {
        assert run[i + 1] == run[1..][i];
      }
    }
  }

  lemma ClientsStep(env: Env, w: World, e: Event, now: int)
    ensures Step(env, w, e, now).s.clients
      == if e.Register? then w.s.clients[e.clientId := Client(e.clientId, e.name, e.redirectUris)] else w.s.clients
  {
    hide ValidAuthorize, SetPending, MakeRoom, Unexpired, ConsentHolds, DropPending, TokenOfRefresh;
  }

  ghost predicate IsRegistered(env: Env, run: seq<Timed>, p: Params) {
    && RegisteredIn(run, p) && env.validRedirectUri(p.redirectUri)
    && p.codeChallengeMethod == "S256" && p.codeChallenge != ""
  }

  lemma ProperWasRegistered(env: Env, run: seq<Timed>, p: Params)
    requires Servable(env, After(env, START, run).s.clients, p)
    ensures IsRegistered(env, run, p)
  {
    hide After;
    ClientsWereRegistered(env, START, run, p.clientId);
  }

  /**
   On every run from the empty server, every pending consent, every stored code and every code ever
   issued names a client that was registered in the run, one of the redirect URIs it was registered
   with, and a challenge of method S256; and the redirect URI is valid.
   */
  lemma RequestsAreRegistered(env: Env, run: seq<Timed>)
    requires FreshRun(env, START, run)
    ensures var w := After(env, START, run);
            && (forall x | x in w.s.pending :: IsRegistered(env, run, x.consent.params))
            && (forall c | c in w.issued :: IsRegistered(env, run, w.issued[c].params))
            && (forall c | c in w.s.codes ::
                  && c in w.issued && w.s.codes[c].clientId == w.issued[c].params.clientId
                  && w.s.codes[c].redirectUri == w.issued[c].params.redirectUri
                  && w.s.codes[c].codeChallenge == w.issued[c].params.codeChallenge)
  {
    RunKeeps(env, START, run);
    RunIsProper(env, START, run);
    var w := After(env, START, run);
    hide After, FreshRun, Servable, RegisteredIn, Bijection, TokensDescend, OneCodePerNonce, OnePairPerCode;
    hide AllDrawn, Gone;
    forall x | x in w.s.pending
      ensures IsRegistered(env, run, x.consent.params)
    {
      assert x.nonce in w.consents && w.consents[x.nonce] == x.consent;
      ProperWasRegistered(env, run, x.consent.params);
    }
    forall c | c in w.issued
      ensures IsRegistered(env, run, w.issued[c].params)
    {
      ProperWasRegistered(env, run, w.issued[c].params);
    }
    forall c | c in w.s.codes
      ensures c in w.issued && CodeFits(w.s.codes[c], w.issued[c])
    {
    }
    hide Inv;
    assert forall c | c in w.s.codes :: IsRegistered(env, run, w.issued[c].params);
  }
}

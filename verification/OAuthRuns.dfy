/**
 Runs of the authorization server of module OAuth: every interleaving of registration, consent,
 decision, token and refresh steps in which random tokens are fresh.
 */
module OAuthRuns {
  import opened Basics
  import opened OAuth

  datatype Event =
    | Register(clientId: string, name: string, redirectUris: seq<string>)
    | OpenConsent(base: string, p: Params, who: Option<Identity>, nonce: string)
    | Decide(base: string, p: Params, d: Decider, approve: bool, code: string)
    | Exchange(code: string, verifier: string, redirectUri: string, access: string, refresh: string)
    | Refresh(refresh: string, access: string)

  /** Where a code comes from: its consent nonce, if it had one, what was approved, and when. */
  datatype Origin = Origin(nonce: Option<string>, tenant: Tenant, base: string, params: Params, at: int)

  /**
   The server and its history: consents ever opened by nonce, codes ever issued, the code behind
   every refresh token ever issued, the access tokens that were superseded, and every random
   string ever drawn.
   */
  datatype World = World(
    s: Server,
    consents: map<string, Consent>,
    issued: map<string, Origin>,
    pairs: map<string, string>,
    retired: set<string>,
    drawn: set<string>)

  const START := World(EMPTY, map[], map[], map[], {}, {})

  function Draws(e: Event): set<string> {
    match e
    case Register(_, _, _) => {}
    case OpenConsent(_, _, _, nonce) => {nonce}
    case Decide(_, _, _, _, code) => {code}
    case Exchange(_, _, _, access, refresh) => {access, refresh}
    case Refresh(_, access) => {access}
  }

  /** Random strings are fresh, different and not empty. */
  predicate Fresh(w: World, e: Event) {
    && Draws(e) !! w.drawn && "" !in Draws(e)
    && (e.Exchange? ==> e.access != e.refresh)
    && (e.Register? ==> e.clientId !in w.s.clients)
  }

  function Step(env: Env, w: World, e: Event, now: int): World {
    var drawn := w.drawn + Draws(e);
    match e
    case Register(id, name, uris) =>
      w.(s := w.s.(clients := w.s.clients[id := Client(id, name, uris)]))
    case OpenConsent(base, p, who, nonce) =>
      var (reply, s') := AfterConsent(env, w.s, base, p, who, nonce, now);
      w.(s := s', drawn := drawn,
         consents := if reply.ConsentForm?
                   then w.consents[nonce := Consent(who.value.subject, who.value.tenant.id, base, p, now + CODE_TTL_MS)]
                   else w.consents)
    case Decide(base, p, d, approve, code) =>
      var (reply, s') := AfterDecision(env, w.s, base, p, d, approve, code, now);
      var nonce := if d.Browser? then Some(d.nonce) else None;
      var tenant := if d.Browser? then (if d.who.Some? then Some(d.who.value.tenant) else None) else d.tenant;
      w.(s := s', drawn := drawn,
         issued := if reply.CodeSent? && tenant.Some?
                   then w.issued[code := Origin(nonce, tenant.value, base, p, now)]
                   else w.issued)
    case Exchange(code, verifier, redirectUri, access, refresh) =>
      var (reply, s') := AfterExchange(env, w.s, code, verifier, redirectUri, access, refresh, now);
      w.(s := s', drawn := drawn, pairs := if reply.Pair? then w.pairs[refresh := code] else w.pairs)
    case Refresh(refresh, access) =>
      var (reply, s') := AfterRefresh(w.s, refresh, access, now);
      w.(s := s', drawn := drawn,
         retired := if reply.Pair? && refresh in w.s.byRefresh then w.retired + {w.s.byRefresh[refresh]} else w.retired)
  }

  // ---------------------------------------------------------------- what holds in every world

  /** A consent nonce yields at most one code, and a pending consent has yielded none. */
  ghost predicate OneCodePerNonce(issued: map<string, Origin>, pending: seq<Pending>) {
    && (forall c, d | c in issued && d in issued && issued[c].nonce.Some? && issued[c].nonce == issued[d].nonce ::
      c == d)
    && (forall x, c | x in pending && c in issued :: issued[c].nonce != Some(x.nonce))
  }

  /** A code yields at most one token pair, and a stored code has yielded none. */
  ghost predicate OnePairPerCode(pairs: map<string, string>, issued: map<string, Origin>, codes: map<string, Code>) {
    && (forall r, q | r in pairs && q in pairs && pairs[r] == pairs[q] :: r == q)
    && (forall r | r in pairs :: pairs[r] in issued && pairs[r] !in codes)
  }

  /** Refresh tokens and access tokens are in one-to-one correspondence. */
  ghost predicate Bijection(byAccess: map<string, Token>, byRefresh: map<string, string>) {
    && (forall r | r in byRefresh :: byRefresh[r] in byAccess && byAccess[byRefresh[r]].refreshToken == r)
    && (forall a | a in byAccess ::
          && byAccess[a].accessToken == a && a != ""
          && byAccess[a].refreshToken in byRefresh && byRefresh[byAccess[a].refreshToken] == a)
  }

  predicate ConsentFits(o: Origin, c: Consent) {
    c.tenantId == o.tenant.id && c.base == o.base && c.params == o.params && o.at < c.expiresAt
  }

  /** Pending consents and issued codes go back to consents that were opened for the same request and tenant. */
  ghost predicate ConsentsRecorded(pending: seq<Pending>, issued: map<string, Origin>, consents: map<string, Consent>) {
    && (forall x | x in pending :: x.nonce in consents && consents[x.nonce] == x.consent)
    && (forall c | c in issued && issued[c].nonce.Some? ::
          issued[c].nonce.value in consents && ConsentFits(issued[c], consents[issued[c].nonce.value]))
  }

  predicate CodeFits(c: Code, o: Origin) {
    && c.tenant == o.tenant && c.clientId == o.params.clientId && c.scope == o.params.scope
    && c.redirectUri == o.params.redirectUri && c.codeChallenge == o.params.codeChallenge
    && c.expiresAt == o.at + CODE_TTL_MS
  }

  predicate TokenFits(t: Token, o: Origin) {
    t.tenant == o.tenant && t.clientId == o.params.clientId && t.scope == o.params.scope
  }

  ghost predicate CodesFit(codes: map<string, Code>, issued: map<string, Origin>) {
    forall c | c in codes :: c in issued && CodeFits(codes[c], issued[c])
  }

  /** The origin of a token, through the code that its refresh token was paired with. */
  ghost predicate Descends(t: Token, pairs: map<string, string>, issued: map<string, Origin>) {
    t.refreshToken in pairs && pairs[t.refreshToken] in issued && TokenFits(t, issued[pairs[t.refreshToken]])
  }

  ghost predicate TokensDescend(byAccess: map<string, Token>, pairs: map<string, string>, issued: map<string, Origin>) {
    forall a | a in byAccess :: Descends(byAccess[a], pairs, issued)
  }

  ghost predicate AllDrawn(w: World) {
    && (forall k | k in w.consents :: k in w.drawn)
    && (forall k | k in w.issued :: k in w.drawn)
    && (forall k | k in w.pairs :: k in w.drawn)
    && (forall k | k in w.retired :: k in w.drawn)
    && (forall k | k in w.s.byAccess :: k in w.drawn)
    && (forall k | k in w.s.codes :: k in w.drawn)
    && (forall k | k in w.s.byRefresh :: k in w.drawn)
  }

  /** Superseded access tokens are gone. */
  ghost predicate Gone(retired: set<string>, byAccess: map<string, Token>) {
    forall a | a in retired :: a !in byAccess
  }

  ghost predicate DistinctNonces(pending: seq<Pending>) {
    forall i, j :: 0 <= i < j < |pending| ==> pending[i].nonce != pending[j].nonce
  }

  ghost predicate Inv(w: World) {
    && OneCodePerNonce(w.issued, w.s.pending)
    && OnePairPerCode(w.pairs, w.issued, w.s.codes)
    && Bijection(w.s.byAccess, w.s.byRefresh)
    && ConsentsRecorded(w.s.pending, w.issued, w.consents)
    && CodesFit(w.s.codes, w.issued)
    && TokensDescend(w.s.byAccess, w.pairs, w.issued)
    && Gone(w.retired, w.s.byAccess)
    && AllDrawn(w)
    && DistinctNonces(w.s.pending)
    && |w.s.pending| <= MAX_PENDING
  }

  // ---------------------------------------------------------------- the pending map

  lemma {:induction false} UnexpiredPart(pending: seq<Pending>, now: int)
    requires DistinctNonces(pending)
    ensures var r := Unexpired(pending, now);
            && DistinctNonces(r) && |r| <= |pending|
            && (forall x | x in r :: x in pending)
  {
    if pending != [] {
      UnexpiredPart(pending[1..], now);
      var tail := Unexpired(pending[1..], now);
      assert forall j | 0 <= j < |tail| :: tail[j] in pending[1..];
    }
  }

  lemma {:induction false} SetFresh(pending: seq<Pending>, nonce: string, consent: Consent)
    requires forall x | x in pending :: x.nonce != nonce
    ensures SetPending(pending, nonce, consent) == pending + [Pending(nonce, consent)]
  {
    if pending != [] {
      assert pending[0] in pending;
      SetFresh(pending[1..], nonce, consent);
    }
  }

  lemma {:induction false} FoundIsThere(pending: seq<Pending>, nonce: string)
    requires FindPending(pending, nonce).Some?
    ensures Pending(nonce, FindPending(pending, nonce).value) in pending
  {
    if pending[0].nonce != nonce { FoundIsThere(pending[1..], nonce); }
  }

  lemma {:induction false} DropPart(pending: seq<Pending>, nonce: string)
    requires DistinctNonces(pending)
    ensures var r := DropPending(pending, nonce);
            && DistinctNonces(r) && |r| <= |pending|
            && (forall x | x in r :: x in pending && x.nonce != nonce)
  {
    if pending != [] {
      DropPart(pending[1..], nonce);
      assert forall x | x in pending[1..] :: x.nonce != pending[0].nonce;
      var tail := DropPending(pending[1..], nonce);
      assert forall j | 0 <= j < |tail| :: tail[j] in pending[1..];
    }
  }

  lemma RoomPart(pending: seq<Pending>)
    requires DistinctNonces(pending) && |pending| <= MAX_PENDING
    ensures var r := MakeRoom(pending);
            && DistinctNonces(r) && |r| < MAX_PENDING
            && (forall x | x in r :: x in pending)
  {
  }

  /** The pending map after a consent was opened. */
  lemma OpenedPending(pending: seq<Pending>, nonce: string, consent: Consent, now: int)
    requires DistinctNonces(pending) && |pending| <= MAX_PENDING && forall x | x in pending :: x.nonce != nonce
    ensures var r := SetPending(MakeRoom(Unexpired(pending, now)), nonce, consent);
            && DistinctNonces(r) && |r| <= MAX_PENDING
            && (forall x | x in r :: x in pending || x == Pending(nonce, consent))
  {
    hide Unexpired, SetPending;
    var unexpired := Unexpired(pending, now);
    UnexpiredPart(pending, now);
    RoomPart(unexpired);
    var kept := MakeRoom(unexpired);
    hide MakeRoom;
    SetFresh(kept, nonce, consent);
    assert forall i | 0 <= i < |kept| :: kept[i] in kept;
  }

  // ---------------------------------------------------------------- every step keeps it

  function Opened(w: World, nonce: string, consent: Consent, pending: seq<Pending>, drawn: set<string>): World {
    World(Server(w.s.clients, w.s.codes, w.s.byAccess, w.s.byRefresh, pending),
          w.consents[nonce := consent], w.issued, w.pairs, w.retired, drawn)
  }

  lemma OpenedInv(w: World, nonce: string, consent: Consent, now: int, drawn: set<string>)
    requires Inv(w) && nonce !in w.drawn && drawn == w.drawn + {nonce}
    ensures Inv(Opened(w, nonce, consent, SetPending(MakeRoom(Unexpired(w.s.pending, now)), nonce, consent), drawn))
  {
    NonceIsNew(w, nonce);
    OpenedPending(w.s.pending, nonce, consent, now);
    OpenKeeps(w, nonce, consent, SetPending(MakeRoom(Unexpired(w.s.pending, now)), nonce, consent));
    hide SetPending, MakeRoom, Unexpired, Gone, OneCodePerNonce, OnePairPerCode, Bijection, ConsentsRecorded;
    hide CodesFit, TokensDescend, DistinctNonces;
  }

  lemma NonceIsNew(w: World, nonce: string)
    requires Inv(w) && nonce !in w.drawn
    ensures nonce !in w.consents && forall x | x in w.s.pending :: x.nonce != nonce
  {
    hide Gone, OneCodePerNonce, OnePairPerCode, Bijection, CodesFit, TokensDescend, DistinctNonces;
  }

  lemma ConsentKeeps(env: Env, w: World, e: Event, now: int)
    requires Inv(w) && Fresh(w, e) && e.OpenConsent?
    ensures Inv(Step(env, w, e, now))
  {
    hide Inv, SetPending, MakeRoom, Unexpired, ValidAuthorize;
    var drawn := w.drawn + {e.nonce};
    if AfterConsent(env, w.s, e.base, e.p, e.who, e.nonce, now).0.ConsentForm? {
      var consent := Consent(e.who.value.subject, e.who.value.tenant.id, e.base, e.p, now + CODE_TTL_MS);
      var pending := SetPending(MakeRoom(Unexpired(w.s.pending, now)), e.nonce, consent);
      OpenedInv(w, e.nonce, consent, now, drawn);
      assert Step(env, w, e, now) == Opened(w, e.nonce, consent, pending, drawn);
    } else {
      NothingIssued(w, drawn);
      assert Step(env, w, e, now) == Pended(w, w.s.pending, drawn);
    }
  }

  lemma OpenKeeps(w: World, nonce: string, consent: Consent, pending: seq<Pending>)
    requires OneCodePerNonce(w.issued, w.s.pending) && ConsentsRecorded(w.s.pending, w.issued, w.consents)
    requires nonce !in w.consents
    requires forall x | x in pending :: x in w.s.pending || x == Pending(nonce, consent)
    ensures OneCodePerNonce(w.issued, pending) && ConsentsRecorded(pending, w.issued, w.consents[nonce := consent])
  {
  }

  /** The world after a code was stored. */
  function Issued(w: World, pending: seq<Pending>, code: string, o: Origin, c: Code, drawn: set<string>): World {
    World(Server(w.s.clients, w.s.codes[code := c], w.s.byAccess, w.s.byRefresh, pending),
          w.consents, w.issued[code := o], w.pairs, w.retired, drawn)
  }

  function Pended(w: World, pending: seq<Pending>, drawn: set<string>): World {
    World(Server(w.s.clients, w.s.codes, w.s.byAccess, w.s.byRefresh, pending),
          w.consents, w.issued, w.pairs, w.retired, drawn)
  }

  lemma PendedInv(w: World, pending: seq<Pending>, drawn: set<string>)
    requires Inv(w) && w.drawn <= drawn && DistinctNonces(pending) && |pending| <= MAX_PENDING
    requires forall x | x in pending :: x in w.s.pending
    ensures Inv(Pended(w, pending, drawn))
  {
    DropKeeps(w, pending);
    hide OneCodePerNonce, OnePairPerCode, Bijection, ConsentsRecorded, CodesFit, TokensDescend, DistinctNonces;
  }

  lemma IssuedInv(w: World, pending: seq<Pending>, code: string, o: Origin, c: Code, drawn: set<string>)
    requires Inv(w) && w.drawn <= drawn && code in drawn && DistinctNonces(pending) && |pending| <= MAX_PENDING
    requires code !in w.drawn && CodeFits(c, o)
    requires forall x | x in pending :: x in w.s.pending && o.nonce != Some(x.nonce)
    requires o.nonce.Some? ==>
               exists x :: x in w.s.pending && x.nonce == o.nonce.value && ConsentFits(o, x.consent)
    ensures Inv(Issued(w, pending, code, o, c, drawn))
  {
    IssueKeeps(w, pending, code, o, c);
    hide OneCodePerNonce, OnePairPerCode, Bijection, ConsentsRecorded, CodesFit, TokensDescend, DistinctNonces;
    hide CodeFits;
  }

  lemma DecisionKeeps(env: Env, w: World, e: Event, now: int)
    requires Inv(w) && Fresh(w, e) && e.Decide?
    ensures Inv(Step(env, w, e, now))
  {
    hide Inv, FindPending, DropPending, ValidAuthorize;
    var drawn := w.drawn + {e.code};
    match e.d
    case Browser(who, nonce, origin) =>
      if who.Some? && ConsentHolds(w.s, e.base, e.p, e.d, now) {
        BrowserDecisionKeeps(env, w, e, now);
      } else {
        NothingIssued(w, drawn);
        assert Step(env, w, e, now) == Pended(w, w.s.pending, drawn);
      }
    case TenantToken(tenant) =>
      if tenant.Some? {
        var o := Origin(None, tenant.value, e.base, e.p, now);
        var c := NewCode(env, e.base, e.p, tenant.value, e.code, now);
        NothingIssued(w, drawn);
        TokenDecisionKeeps(w, e.code, o, c, drawn);
        assert Step(env, w, e, now) == Pended(w, w.s.pending, drawn)
               || Step(env, w, e, now) == Issued(w, w.s.pending, e.code, o, c, drawn);
      } else {
        NothingIssued(w, drawn);
        assert Step(env, w, e, now) == Pended(w, w.s.pending, drawn);
      }
  }

  lemma NothingIssued(w: World, drawn: set<string>)
    requires Inv(w) && w.drawn <= drawn
    ensures Inv(Pended(w, w.s.pending, drawn))
  {
    PendedInv(w, w.s.pending, drawn);
  }

  lemma TokenDecisionKeeps(w: World, code: string, o: Origin, c: Code, drawn: set<string>)
    requires Inv(w) && code !in w.drawn && drawn == w.drawn + {code} && CodeFits(c, o) && o.nonce == None
    ensures Inv(Issued(w, w.s.pending, code, o, c, drawn))
  {
    IssuedInv(w, w.s.pending, code, o, c, drawn);
  }

  lemma BrowserDecisionKeeps(env: Env, w: World, e: Event, now: int)
    requires Inv(w) && Fresh(w, e) && e.Decide?
    requires e.d.Browser? && e.d.who.Some? && ConsentHolds(w.s, e.base, e.p, e.d, now)
    ensures Inv(Step(env, w, e, now))
  {
    hide AllDrawn, Gone, OneCodePerNonce, OnePairPerCode, Bijection, ConsentsRecorded, CodesFit, TokensDescend;
    hide DistinctNonces, ValidAuthorize;
    var drawn := w.drawn + {e.code};
    var tenant := e.d.who.value.tenant;
    var o := Origin(Some(e.d.nonce), tenant, e.base, e.p, now);
    var c := NewCode(env, e.base, e.p, tenant, e.code, now);
    var pending := DropPending(w.s.pending, e.d.nonce);
    FoundIsThere(w.s.pending, e.d.nonce);
    DropPart(w.s.pending, e.d.nonce);
    assert ConsentFits(o, FindPending(w.s.pending, e.d.nonce).value);
    assert CodeFits(c, o);
    hide DropPending, FindPending, NewCode;
    PendedInv(w, pending, drawn);
    PendedInv(w, w.s.pending, drawn);
    IssuedInv(w, pending, e.code, o, c, drawn);
    hide Inv;
    assert Step(env, w, e, now) == Pended(w, w.s.pending, drawn)
           || Step(env, w, e, now) == Pended(w, pending, drawn)
           || Step(env, w, e, now) == Issued(w, pending, e.code, o, c, drawn);
  }

  lemma DropKeeps(w: World, pending: seq<Pending>)
    requires OneCodePerNonce(w.issued, w.s.pending) && ConsentsRecorded(w.s.pending, w.issued, w.consents)
    requires forall x | x in pending :: x in w.s.pending
    ensures OneCodePerNonce(w.issued, pending) && ConsentsRecorded(pending, w.issued, w.consents)
  {
  }

  lemma IssueKeeps(w: World, pending: seq<Pending>, code: string, o: Origin, c: Code)
    requires Inv(w) && code !in w.drawn && CodeFits(c, o)
    requires forall x | x in pending :: x in w.s.pending && o.nonce != Some(x.nonce)
    requires o.nonce.Some? ==>
               exists x :: x in w.s.pending && x.nonce == o.nonce.value && ConsentFits(o, x.consent)
    ensures var issued, codes := w.issued[code := o], w.s.codes[code := c];
            && OneCodePerNonce(issued, pending) && ConsentsRecorded(pending, issued, w.consents)
            && OnePairPerCode(w.pairs, issued, codes) && CodesFit(codes, issued)
            && TokensDescend(w.s.byAccess, w.pairs, issued)
  {
    hide Bijection, DistinctNonces, CodeFits, TokenFits;
  }

  function CodeTaken(w: World, code: string, drawn: set<string>): World {
    World(Server(w.s.clients, w.s.codes - {code}, w.s.byAccess, w.s.byRefresh, w.s.pending),
          w.consents, w.issued, w.pairs, w.retired, drawn)
  }

  function Paired(w: World, code: string, t: Token, drawn: set<string>): World {
    World(Server(w.s.clients, w.s.codes - {code}, w.s.byAccess[t.accessToken := t],
                 w.s.byRefresh[t.refreshToken := t.accessToken], w.s.pending),
          w.consents, w.issued, w.pairs[t.refreshToken := code], w.retired, drawn)
  }

  lemma CodeTakenInv(w: World, code: string, drawn: set<string>)
    requires Inv(w) && w.drawn <= drawn
    ensures Inv(CodeTaken(w, code, drawn))
  {
    ConsumeKeeps(w, code);
    hide OneCodePerNonce, OnePairPerCode, Bijection, ConsentsRecorded, CodesFit, TokensDescend, DistinctNonces;
  }

  lemma PairedInv(w: World, code: string, t: Token, drawn: set<string>)
    requires Inv(w) && drawn == w.drawn + {t.accessToken, t.refreshToken} && code in w.s.codes
    requires t.accessToken !in w.drawn && t.refreshToken !in w.drawn && t.accessToken != ""
    requires t.tenant == w.s.codes[code].tenant && t.clientId == w.s.codes[code].clientId
      && t.scope == w.s.codes[code].scope
    ensures Inv(Paired(w, code, t, drawn))
  {
    ConsumeKeeps(w, code);
    PairKeeps(w, code, t);
    PairedDrawn(w, code, t, drawn);
    hide AllDrawn, Gone, OneCodePerNonce, OnePairPerCode, Bijection, ConsentsRecorded, CodesFit, TokensDescend;
    hide DistinctNonces;
  }

  lemma PairedDrawn(w: World, code: string, t: Token, drawn: set<string>)
    requires AllDrawn(w) && drawn == w.drawn + {t.accessToken, t.refreshToken} && Gone(w.retired, w.s.byAccess)
    requires t.accessToken !in w.drawn
    ensures AllDrawn(Paired(w, code, t, drawn)) && Gone(w.retired, w.s.byAccess[t.accessToken := t])
  {
  }

  lemma ExchangeKeeps(env: Env, w: World, e: Event, now: int)
    requires Inv(w) && Fresh(w, e) && e.Exchange?
    ensures Inv(Step(env, w, e, now))
  {
    hide Inv;
    var drawn := w.drawn + {e.access, e.refresh};
    var c := Consumed(w.s.codes, e.code, now);
    if CodeGood(env, c, e.verifier, e.redirectUri) {
      var t := NewToken(w.s.(codes := w.s.codes - {e.code}), c.value, e.access, e.refresh, now);
      PairedInv(w, e.code, t, drawn);
      assert Step(env, w, e, now) == Paired(w, e.code, t, drawn);
    } else {
      CodeTakenInv(w, e.code, drawn);
      assert Step(env, w, e, now) == CodeTaken(w, e.code, drawn);
    }
  }

  lemma ConsumeKeeps(w: World, code: string)
    requires Inv(w)
    ensures OnePairPerCode(w.pairs, w.issued, w.s.codes - {code}) && CodesFit(w.s.codes - {code}, w.issued)
  {
    hide Bijection, DistinctNonces, OneCodePerNonce, ConsentsRecorded, TokensDescend;
  }

  lemma PairKeeps(w: World, code: string, t: Token)
    requires Inv(w) && code in w.s.codes && t.accessToken !in w.drawn && t.refreshToken !in w.drawn
      && t.accessToken != ""
    requires t.tenant == w.s.codes[code].tenant && t.clientId == w.s.codes[code].clientId
      && t.scope == w.s.codes[code].scope
    ensures var pairs, byAccess := w.pairs[t.refreshToken := code], w.s.byAccess[t.accessToken := t];
            && OnePairPerCode(pairs, w.issued, w.s.codes - {code})
            && Bijection(byAccess, w.s.byRefresh[t.refreshToken := t.accessToken])
            && TokensDescend(byAccess, pairs, w.issued)
  {
    hide DistinctNonces, OneCodePerNonce, ConsentsRecorded;
  }

  function Renewed(w: World, refresh: string, s': Server, drawn: set<string>): World
    requires refresh in w.s.byRefresh
  {
    World(s', w.consents, w.issued, w.pairs, w.retired + {w.s.byRefresh[refresh]}, drawn)
  }

  lemma RenewedInv(w: World, refresh: string, access: string, expiresAt: int, drawn: set<string>)
    requires Inv(w) && drawn == w.drawn + {access} && access !in w.drawn && access != ""
    requires TokenOfRefresh(w.s, refresh).Some?
    ensures Inv(Renewed(w, refresh, Rotated(w.s, refresh, access, expiresAt), drawn))
  {
    RotateKeeps(w, refresh, access, expiresAt);
    RotateDescends(w, refresh, access, expiresAt);
    RenewedDrawn(w, refresh, access, expiresAt, drawn);
    hide AllDrawn, Gone, OneCodePerNonce, OnePairPerCode, Bijection, ConsentsRecorded, CodesFit, TokensDescend;
    hide DistinctNonces;
  }

  lemma RenewedDrawn(w: World, refresh: string, access: string, expiresAt: int, drawn: set<string>)
    requires AllDrawn(w) && drawn == w.drawn + {access} && access !in w.drawn && Gone(w.retired, w.s.byAccess)
    requires TokenOfRefresh(w.s, refresh).Some?
    ensures var w' := Renewed(w, refresh, Rotated(w.s, refresh, access, expiresAt), drawn);
            AllDrawn(w') && Gone(w'.retired, w'.s.byAccess)
  {
  }

  lemma RefreshKeeps(env: Env, w: World, e: Event, now: int)
    requires Inv(w) && Fresh(w, e) && e.Refresh?
    ensures Inv(Step(env, w, e, now))
  {
    hide Inv, Rotated;
    var drawn := w.drawn + {e.access};
    if TokenOfRefresh(w.s, e.refresh).Some? {
      RenewedInv(w, e.refresh, e.access, now + ACCESS_TTL_MS, drawn);
      assert Step(env, w, e, now)
        == Renewed(w, e.refresh, Rotated(w.s, e.refresh, e.access, now + ACCESS_TTL_MS), drawn);
    } else {
      NothingIssued(w, drawn);
      assert Step(env, w, e, now) == Pended(w, w.s.pending, drawn);
    }
  }

  lemma RotateKeeps(w: World, refresh: string, access: string, expiresAt: int)
    requires Inv(w) && access !in w.drawn && access != "" && TokenOfRefresh(w.s, refresh).Some?
    ensures var s' := Rotated(w.s, refresh, access, expiresAt);
            Bijection(s'.byAccess, s'.byRefresh)
  {
    hide DistinctNonces, OneCodePerNonce, ConsentsRecorded, OnePairPerCode, CodesFit, TokensDescend;
  }

  lemma RotateDescends(w: World, refresh: string, access: string, expiresAt: int)
    requires TokensDescend(w.s.byAccess, w.pairs, w.issued) && TokenOfRefresh(w.s, refresh).Some?
    ensures TokensDescend(Rotated(w.s, refresh, access, expiresAt).byAccess, w.pairs, w.issued)
  {
    assert Descends(w.s.byAccess[w.s.byRefresh[refresh]], w.pairs, w.issued);
  }

  lemma StepKeeps(env: Env, w: World, e: Event, now: int)
    requires Inv(w) && Fresh(w, e)
    ensures Inv(Step(env, w, e, now))
  {
    match e
    case Register(_, _, _) =>
    case OpenConsent(_, _, _, _) => ConsentKeeps(env, w, e, now);
    case Decide(_, _, _, _, _) => DecisionKeeps(env, w, e, now);
    case Exchange(_, _, _, _, _) => ExchangeKeeps(env, w, e, now);
    case Refresh(_, _) => RefreshKeeps(env, w, e, now);
  }

  datatype Timed = Timed(event: Event, at: int)

  function After(env: Env, w: World, run: seq<Timed>): World
    decreases |run|
  {
    if run == [] then w else After(env, Step(env, w, run[0].event, run[0].at), run[1..])
  }

  ghost predicate FreshRun(env: Env, w: World, run: seq<Timed>)
    decreases |run|
  {
    run != [] ==> Fresh(w, run[0].event) && FreshRun(env, Step(env, w, run[0].event, run[0].at), run[1..])
  }

  lemma {:induction false} RunKeeps(env: Env, w: World, run: seq<Timed>)
    requires Inv(w) && FreshRun(env, w, run)
    ensures Inv(After(env, w, run))
    decreases |run|
  {
    if run != [] {
      StepKeeps(env, w, run[0].event, run[0].at);
      RunKeeps(env, Step(env, w, run[0].event, run[0].at), run[1..]);
    }
  }

  // ---------------------------------------------------------------- main results

  /**
   On every run from the empty server: a nonce yields at most one code, a code at most one token
   pair, refresh and access tokens correspond one to one, and at most 1000 consents are pending.
   */
  lemma RunsAreSafe(env: Env, run: seq<Timed>)
    requires FreshRun(env, START, run)
    ensures var w := After(env, START, run);
            && OneCodePerNonce(w.issued, w.s.pending)
            && OnePairPerCode(w.pairs, w.issued, w.s.codes)
            && Bijection(w.s.byAccess, w.s.byRefresh)
            && |w.s.pending| <= MAX_PENDING
  {
    RunKeeps(env, START, run);
  }

  /** A resolvable token carries the tenant, client and scope of the consent it descends from. */
  lemma ResolvedTokensDescend(env: Env, run: seq<Timed>, access: string, now: int)
    requires FreshRun(env, START, run)
    requires ResolveAccess(After(env, START, run).s, access, now).Some?
    ensures var w := After(env, START, run);
            var t := ResolveAccess(w.s, access, now).value;
            && t.accessToken == access && t.refreshToken in w.pairs && w.pairs[t.refreshToken] in w.issued
            && var o := w.issued[w.pairs[t.refreshToken]];
               && t.tenant == o.tenant && t.clientId == o.params.clientId && t.scope == o.params.scope
               && (o.nonce.Some? ==>
                     && o.nonce.value in w.consents
                     && w.consents[o.nonce.value].tenantId == t.tenant.id
                     && w.consents[o.nonce.value].params == o.params)
  {
    RunKeeps(env, START, run);
    var w := After(env, START, run);
    hide After;
    assert Descends(w.s.byAccess[access], w.pairs, w.issued);
  }

  /**
   A code is exchanged only with the redirect URI and a verifier for the challenge of the request that was approved,
   within ten minutes of the approval, which came before its consent expired; and it was not exchanged before.
   */
  lemma ExchangeIsBound(env: Env, run: seq<Timed>, code: string, verifier: string, redirectUri: string,
                        access: string, refresh: string, now: int)
    requires FreshRun(env, START, run)
    requires AfterExchange(env, After(env, START, run).s, code, verifier, redirectUri, access, refresh, now).0.Pair?
    ensures var w := After(env, START, run);
            && code in w.issued && (forall r | r in w.pairs :: w.pairs[r] != code)
            && var o := w.issued[code];
               && redirectUri == o.params.redirectUri && env.pkceMatches(verifier, o.params.codeChallenge)
               && now <= o.at + CODE_TTL_MS
               && (o.nonce.Some? ==> o.nonce.value in w.consents && o.at < w.consents[o.nonce.value].expiresAt)
  {
    RunKeeps(env, START, run);
    var w := After(env, START, run);
    hide After, Bijection, TokensDescend, AllDrawn, Gone, DistinctNonces;
    assert code in w.s.codes && CodeFits(w.s.codes[code], w.issued[code]);
  }

  lemma RetiredStays(env: Env, w: World, e: Event, now: int)
    ensures w.retired <= Step(env, w, e, now).retired
  {
  }

  lemma {:induction false} RetiredGrows(env: Env, w: World, run: seq<Timed>)
    ensures w.retired <= After(env, w, run).retired
    decreases |run|
  {
    hide Step;
    if run != [] {
      RetiredStays(env, w, run[0].event, run[0].at);
      RetiredGrows(env, Step(env, w, run[0].event, run[0].at), run[1..]);
    }
  }

  lemma RefreshRetires(env: Env, w: World, refresh: string, access: string, at: int)
    requires TokenOfRefresh(w.s, refresh).Some?
    ensures w.s.byRefresh[refresh] in Step(env, w, Refresh(refresh, access), at).retired
  {
  }

  /** An access token superseded by a refresh never resolves again. */
  lemma SupersededNeverResolves(env: Env, before: seq<Timed>, refresh: string, access: string, at: int,
                                later: seq<Timed>, now: int)
    requires FreshRun(env, START, before)
    requires var w := After(env, START, before);
             && Fresh(w, Refresh(refresh, access)) && TokenOfRefresh(w.s, refresh).Some?
             && FreshRun(env, Step(env, w, Refresh(refresh, access), at), later)
    ensures var w := After(env, START, before);
            var w' := After(env, Step(env, w, Refresh(refresh, access), at), later);
            ResolveAccess(w'.s, w.s.byRefresh[refresh], now) == None
  {
    RunKeeps(env, START, before);
    var w := After(env, START, before);
    var next := Step(env, w, Refresh(refresh, access), at);
    RefreshRetires(env, w, refresh, access, at);
    hide After, Step, Fresh;
    StepKeeps(env, w, Refresh(refresh, access), at);
    RunKeeps(env, next, later);
    RetiredGrows(env, next, later);
    hide Bijection, OneCodePerNonce, OnePairPerCode, ConsentsRecorded, CodesFit, TokensDescend, DistinctNonces;
    hide FreshRun;
  }
}

/**
 The table of standing approvals (packages/core/src/approvalTokens.ts).

 `Table` functions say what each operation does to the table; the class `ApprovalTokens` holds
 the table that the operations update, and each of its methods is proved against its function.
 */
module ApprovalTokens {
  import opened Basics
  import opened ExactArgs

  const TOKEN_TTL_MS := 15 * 60 * 1000

  /**
   `serial` numbers the registration a token came from. It stands for object identity; a copy
   made for a snapshot keeps it.
   */
  datatype Token = Token(
    serial: nat,
    owner: Option<string>,
    tool: string,
    args: Option<Json>,
    draftHash: string,
    expiresAt: int,
    anyOutboundSend: bool)

  type Table = map<string, seq<Token>>

  /** What the source computes with regular expressions, hashing and locale comparison. */
  datatype Rules = Rules(
    internalKey: Text -> bool,
    draftLength: Json -> nat,
    draftHash: Json -> string,
    approvalRequired: string -> bool,
    affirmative: string -> bool,
    exactText: string -> Option<Text>,
    keyOrder: KeyOrder)

  datatype Resolution = Allowed | NothingPending | Ambiguous | Mismatch

  // ---------------------------------------------------------------- the operations on tables

  function Live(tokens: seq<Token>, now: int): seq<Token> {
    Filter((t: Token) => t.expiresAt > now, tokens)
  }

  function LiveOf(m: Table, c: string, now: int): seq<Token> {
    Live(if c in m then m[c] else [], now)
  }

  function Store(m: Table, c: string, tokens: seq<Token>): Table {
    if tokens == [] then m - {c} else m[c := tokens]
  }

  /** Reading the live tokens drops the expired ones from the table. */
  function Pruned(m: Table, c: string, now: int): Table {
    Store(m, c, LiveOf(m, c, now))
  }

  function CleanArgs(rules: Rules, args: Json): Json
    requires args.Obj?
  {
    Obj(Filter((e: Entry) => !rules.internalKey(e.key), args.entries))
  }

  predicate HasSubstantiveArgs(rules: Rules, args: Json)
    requires args.Obj?
  {
    exists e | e in args.entries ::
      !rules.internalKey(e.key) && !e.value.Undefined? && !e.value.Null? && rules.draftLength(e.value) > 2
  }

  predicate Registrable(rules: Rules, args: Json, result: string)
    requires args.Obj?
  {
    rules.approvalRequired(result) && HasSubstantiveArgs(rules, args)
  }

  function StandingToken(rules: Rules, serial: nat, owner: string, tool: string, args: Json, now: int): Token
    requires args.Obj?
  {
    var clean := CleanArgs(rules, args);
    Token(serial, Some(owner), tool, Some(clean), rules.draftHash(clean), now + TOKEN_TTL_MS, false)
  }

  function Registered(m: Table, c: string, token: Token, now: int): Table {
    m[c := Filter((t: Token) => t.owner != token.owner || t.tool != token.tool, LiveOf(m, c, now)) + [token]]
  }

  function LegacyToken(serial: nat, tool: string, hash: string, now: int): Token {
    Token(serial, None, tool, None, hash, now + TOKEN_TTL_MS, false)
  }

  function OutboundToken(serial: nat, now: int): Token {
    Token(serial, None, "", None, "", now + TOKEN_TTL_MS, true)
  }

  predicate Owned(t: Token) {
    t.owner.Some? && t.owner.value != "" && t.args.Some?
  }

  predicate HasText(t: Token, text: Text) {
    t.args.Some? && t.args.value.Obj? && exists e | e in t.args.value.entries :: e.value == Str(text)
  }

  predicate Matches(rules: Rules, owner: string, tool: string, args: Json, t: Token) {
    && t.owner == Some(owner) && t.tool == tool
    && t.args.Some? && ExactArgsMatch(rules.keyOrder, t.args.value, args)
  }

  function Candidates(rules: Rules, tokens: seq<Token>, request: string): seq<Token> {
    match rules.exactText(request)
    case None => tokens
    case Some(text) => Filter((t: Token) => HasText(t, text), tokens)
  }

  function ExactCandidates(rules: Rules, tokens: seq<Token>, owner: string, tool: string, args: Json,
                           request: string): seq<Token>
  {
    Filter((t: Token) => Matches(rules, owner, tool, args, t), Candidates(rules, tokens, request))
  }

  /** The outcome of a resolution, the table after it, and the token it consumed. */
  datatype Resolved = Resolved(resolution: Resolution, table: Table, used: Option<Token>)

  function Resolve(rules: Rules, m: Table, c: string, owner: string, tool: string, args: Json, request: string,
                   now: int): Resolved
  {
    var live := LiveOf(m, c, now);
    var tokens := Filter(Owned, live);
    var exact := ExactCandidates(rules, tokens, owner, tool, args, request);
    if tokens == [] then Resolved(NothingPending, Pruned(m, c, now), None)
    else if exact == [] then Resolved(Mismatch, Pruned(m, c, now), None)
    else if |exact| != 1 then Resolved(Ambiguous, Pruned(m, c, now), None)
    else Resolved(Allowed, m[c := Filter((t: Token) => t != exact[0], live)], Some(exact[0]))
  }

  /** A token without an owner lets one draft of its tool through, an outbound one any draft. */
  predicate LetsThrough(rules: Rules, tool: string, content: Json, t: Token) {
    t.anyOutboundSend
    || ((t.owner.None? || t.owner.value == "") && t.tool == tool && t.draftHash == rules.draftHash(content))
  }

  // ---------------------------------------------------------------- the table in the heap

  class ApprovalTokens {
    const rules: Rules
    var tokensByConversation: Table
    var registrations: nat

    constructor (rules: Rules)
      ensures this.rules == rules && tokensByConversation == map[] && registrations == 0
    {
      this.rules := rules;
      tokensByConversation := map[];
      registrations := 0;
    }

    method LiveTokens(c: string, now: int) returns (live: seq<Token>)
      modifies this`tokensByConversation
      ensures live == LiveOf(old(tokensByConversation), c, now)
      ensures tokensByConversation == Pruned(old(tokensByConversation), c, now)
    {
      live := Filter((t: Token) => t.expiresAt > now,
                     if c in tokensByConversation then tokensByConversation[c] else []);
      if |live| != 0 {
        tokensByConversation := tokensByConversation[c := live];
      } else {
        tokensByConversation := tokensByConversation - {c};
      }
    }

    method RegisterStandingApproval(c: string, owner: string, tool: string, args: Json, result: string, now: int)
      returns (ok: bool)
      requires args.Obj?
      modifies this
      ensures ok == Registrable(rules, args, result)
      ensures !ok ==> tokensByConversation == old(tokensByConversation) && registrations == old(registrations)
      ensures ok ==> registrations == old(registrations) + 1
      ensures ok ==> tokensByConversation ==
                       Registered(old(tokensByConversation), c,
                                  StandingToken(rules, old(registrations), owner, tool, args, now), now)
    {
      if !rules.approvalRequired(result) || !HasSubstantiveArgs(rules, args) {
        return false;
      }
      var clean := CleanArgs(rules, args);
      var token := Token(registrations, Some(owner), tool, Some(clean), rules.draftHash(clean),
                         now + TOKEN_TTL_MS, false);
      registrations := registrations + 1;
      var live := LiveTokens(c, now);
      var others := Filter((t: Token) => t.owner != token.owner || t.tool != token.tool, live);
      tokensByConversation := tokensByConversation[c := others + [token]];
      assert tokensByConversation == old(tokensByConversation)[c := others + [token]];
      return true;
    }

    method RegisterApprovalToken(c: string, tool: string, content: Json, now: int)
      modifies this
      ensures registrations == old(registrations) + 1
      ensures tokensByConversation ==
                old(tokensByConversation)[c := [LegacyToken(old(registrations), tool, rules.draftHash(content), now)]]
    {
      tokensByConversation :=
        tokensByConversation[c := [LegacyToken(registrations, tool, rules.draftHash(content), now)]];
      registrations := registrations + 1;
    }

    method RegisterOutboundComposeApprovalToken(c: string, now: int)
      modifies this
      ensures registrations == old(registrations) + 1
      ensures tokensByConversation == old(tokensByConversation)[c := [OutboundToken(old(registrations), now)]]
    {
      tokensByConversation := tokensByConversation[c := [OutboundToken(registrations, now)]];
      registrations := registrations + 1;
    }

    method ResolveStandingApproval(c: string, owner: string, tool: string, args: Json, request: string, now: int)
      returns (r: Resolution, ghost used: Option<Token>)
      modifies this`tokensByConversation
      ensures Resolved(r, tokensByConversation, used) ==
              Resolve(rules, old(tokensByConversation), c, owner, tool, args, request, now)
    {
      hide Matches, HasText;
      used := None;
      var live := LiveTokens(c, now);
      var tokens := Filter(Owned, live);
      var exact := ExactCandidates(rules, tokens, owner, tool, args, request);
      if |tokens| == 0 {
        r := NothingPending;
      } else if |exact| == 0 {
        r := Mismatch;
      } else if |exact| != 1 {
        r := Ambiguous;
      } else {
        var again := LiveTokens(c, now);
        LiveTwice(old(tokensByConversation), c, now);
        tokensByConversation := tokensByConversation[c := Filter((t: Token) => t != exact[0], again)];
        assert tokensByConversation == old(tokensByConversation)[c := Filter((t: Token) => t != exact[0], again)];
        r, used := Allowed, Some(exact[0]);
      }
    }

    method HasValidApprovalToken(c: string, tool: string, content: Json, now: int) returns (valid: bool)
      modifies this`tokensByConversation
      ensures valid
        <==> exists t | t in LiveOf(old(tokensByConversation), c, now) :: LetsThrough(rules, tool, content, t)
      ensures tokensByConversation == Pruned(old(tokensByConversation), c, now)
    {
      var tokens := LiveTokens(c, now);
      hide LiveOf, Pruned;
      for i := 0 to |tokens|
        invariant forall k :: 0 <= k < i ==> !LetsThrough(rules, tool, content, tokens[k])
      {
        if LetsThrough(rules, tool, content, tokens[i]) {
          return true;
        }
      }
      return false;
    }

    method CancelStandingApprovals(c: string, now: int) returns (existed: bool)
      modifies this`tokensByConversation
      ensures existed <==> LiveOf(old(tokensByConversation), c, now) != []
      ensures tokensByConversation == old(tokensByConversation) - {c}
    {
      var live := LiveTokens(c, now);
      tokensByConversation := tokensByConversation - {c};
      existed := |live| > 0;
    }

    method ConsumeApprovalToken(c: string)
      modifies this`tokensByConversation
      ensures tokensByConversation == old(tokensByConversation) - {c}
    {
      tokensByConversation := tokensByConversation - {c};
    }

    method ApprovalTokenSnapshot(c: string, now: int) returns (copy: seq<Token>)
      modifies this`tokensByConversation
      ensures copy == LiveOf(old(tokensByConversation), c, now)
      ensures tokensByConversation == Pruned(old(tokensByConversation), c, now)
    {
      copy := LiveTokens(c, now);
    }

    method HydrateApprovalTokens(c: string, tokens: seq<Token>, now: int)
      modifies this`tokensByConversation
      ensures tokensByConversation == Store(old(tokensByConversation), c, Live(tokens, now))
    {
      var live := Filter((t: Token) => t.expiresAt > now, tokens);
      if |live| != 0 {
        tokensByConversation := tokensByConversation[c := live];
      } else {
        tokensByConversation := tokensByConversation - {c};
      }
    }
  }

  lemma {:induction false} FilterTwice<T(!new)>(p: T -> bool, ts: seq<T>)
    ensures Filter(p, Filter(p, ts)) == Filter(p, ts)
  {
    if ts != [] {
      FilterTwice(p, ts[1..]);
      if p(ts[0]) {
        assert Filter(p, ts) == [ts[0]] + Filter(p, ts[1..]);
        assert Filter(p, ts)[1..] == Filter(p, ts[1..]);
      }
    }
  }

  /** Pruning at the same moment changes nothing that is live. */
  lemma LiveTwice(m: Table, c: string, now: int)
    ensures LiveOf(Pruned(m, c, now), c, now) == LiveOf(m, c, now)
  {
    var p := (t: Token) => t.expiresAt > now;
    FilterTwice(p, if c in m then m[c] else []);
  }
}

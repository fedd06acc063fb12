/**
 What the guard of module PeerGuard decides, in the caller's terms: the verdict on every call from
 its context, its request and the live tokens; what a held call registers; and, over runs, that a
 held call which is restated with approval runs.
 */
module PeerPolicy {
  import opened Basics
  import opened ExactArgs
  import opened ApprovalTokens
  import opened PeerGuard

  // ---------------------------------------------------------------- a call without approval

  /** Something about the risk of the call is not known, or the connection's hints are not trusted. */
  predicate RiskIsUnknown(ctx: Context) {
    || ctx.trustedProfile.None? || ctx.annotations.None?
    || !ctx.trustedProfile.value.trustMcpAnnotations
    || ctx.trustedProfile.value.exposure == UnknownExposure
    || ctx.trustedProfile.value.tenantScope == UnknownTenant
    || ctx.trustedProfile.value.financialScope == UnknownFinancial
    || ctx.annotations.value.readOnlyHint.None?
    || ctx.annotations.value.destructiveHint.None?
    || ctx.annotations.value.openWorldHint.None?
  }

  /** The tool and the arguments of a call: those of the proposed operation, if there is one. */
  predicate Proposes(tool: string, ctx: Context, tool': string, input: Json) {
    match ctx.operation
    case Some(op) => tool' == op.toolId && input == op.input
    case None => tool' == tool && input == if ctx.args.Some? then ctx.args.value else Obj([])
  }

  /** Some argument outside the internal keys says something. */
  predicate Substantive(rules: Rules, input: Json)
    requires input.Obj?
  {
    exists i :: 0 <= i < |input.entries|
                && !rules.internalKey(input.entries[i].key)
                && input.entries[i].value != Undefined && input.entries[i].value != Null
                && rules.draftLength(input.entries[i].value) > 2
  }

  /**
   A call that is not an approval: it runs exactly when the profile is trusted, private, of the own
   tenant and without money and the hints are harmless; its risk is unknown exactly when something
   is missing; and otherwise it is held, when there is a conversation to hold it in and something
   to hold. Only a held call changes the table.
   */
  lemma UnapprovedCall(rules: Rules, m: Table, n: nat, tool: string, request: string, ctx: Context, now: int,
                       tool': string, input: Json)
    requires WellFormedCall(tool, ctx) && Proposes(tool, ctx, tool', input)
    requires ctx.connectedMcp && rules.affirmative(request) ==>
               ctx.conversationId.None? || ctx.conversationId.value == ""
    ensures var g := Guard(rules, m, n, tool, request, ctx, now);
            && (g.verdict == Passed <==> !ctx.connectedMcp || RunsUnapproved(ctx))
            && (g.verdict == BlockedRiskUnknown <==> ctx.connectedMcp && RiskIsUnknown(ctx))
            && (g.verdict == HostApprovalRequired <==>
                  && ctx.connectedMcp && !RunsUnapproved(ctx) && !RiskIsUnknown(ctx)
                  && ctx.conversationId.Some? && ctx.conversationId.value != ""
                  && rules.approvalRequired("[approval_required] Held by Ring's deterministic host risk policy.")
                  && Substantive(rules, input))
            && g.verdict in {Passed, BlockedRiskUnknown, HostApprovalRequired, BlockedNotHeld}
            && g.used == None && (g.verdict != HostApprovalRequired ==> g.table == m && g.registrations == n)
  {
    SubstantiveIs(rules, input);
    ExecutedIs(ctx);
    ClarifiedIs(ctx);
    hide AuthorizeTurnPlanOperation, RunsUnapproved, RiskIsUnknown;
    hide Registered, StandingToken, HasSubstantiveArgs, Substantive;
  }

  lemma ClarifiedIs(ctx: Context)
    ensures AuthorizeTurnPlanOperation(ctx.annotations, ctx.trustedProfile) == Clarify <==> RiskIsUnknown(ctx)
  {
  }

  lemma SubstantiveIs(rules: Rules, input: Json)
    requires input.Obj?
    ensures HasSubstantiveArgs(rules, input) <==> Substantive(rules, input)
  {
  }

  // ---------------------------------------------------------------- what a held call registers

  /** `es` is the entries of the arguments whose key is not internal, in their order: those at the positions `at`. */
  ghost predicate OwnEntries(rules: Rules, input: Json, es: seq<Entry>, at: seq<nat>)
    requires input.Obj?
  {
    && |at| == |es|
    && (forall i :: 0 <= i < |at| ==> at[i] < |input.entries| && es[i] == input.entries[at[i]])
    && (forall i, j :: 0 <= i < j < |at| ==> at[i] < at[j])
    && (forall k :: 0 <= k < |input.entries| ==> (k in at <==> !rules.internalKey(input.entries[k].key)))
  }

  /** The positions of the entries whose key is not internal. */
  function OwnPositions(rules: Rules, es: seq<Entry>): seq<nat> {
    if es == [] then []
    else
      var n := |es| - 1;
      OwnPositions(rules, es[..n]) + if rules.internalKey(es[n].key) then [] else [n]
  }

  lemma {:induction false} FilterLast(p: Entry -> bool, es: seq<Entry>, e: Entry)
    ensures Filter(p, es + [e]) == Filter(p, es) + if p(e) then [e] else []
  {
    if es == [] {
      assert [e][1..] == [] && es + [e] == [e];
    } else {
      FilterLast(p, es[1..], e);
      assert (es + [e])[1..] == es[1..] + [e];
    }
  }

  lemma {:induction false} FilteredAt(rules: Rules, es: seq<Entry>)
    ensures OwnEntries(rules, Obj(es), Filter((e: Entry) => !rules.internalKey(e.key), es), OwnPositions(rules, es))
  {
    if es != [] {
      var n := |es| - 1;
      FilteredAt(rules, es[..n]);
      assert es == es[..n] + [es[n]];
      FilterLast((e: Entry) => !rules.internalKey(e.key), es[..n], es[n]);
      hide Filter, OwnEntries;
      OneMore(rules, es, Filter((e: Entry) => !rules.internalKey(e.key), es[..n]), OwnPositions(rules, es[..n]));
    }
  }

  lemma OneMore(rules: Rules, es: seq<Entry>, clean: seq<Entry>, before: seq<nat>)
    requires es != [] && OwnEntries(rules, Obj(es[..|es| - 1]), clean, before)
    ensures var n := |es| - 1;
            if rules.internalKey(es[n].key) then OwnEntries(rules, Obj(es), clean, before)
            else OwnEntries(rules, Obj(es), clean + [es[n]], before + [n])
  {
    var n := |es| - 1;
    var at := if rules.internalKey(es[n].key) then before else before + [n];
    forall k | 0 <= k < |es|
      ensures k in at <==> !rules.internalKey(es[k].key)
    {
      assert k in at <==> k in before || (k == n && !rules.internalKey(es[n].key));
      if k < n { assert es[k] == es[..n][k]; }
    }
  }

  /**
   A held call registers one token in its conversation, in place of the live one for the same owner
   and tool, with all its arguments outside the internal keys, for fifteen minutes.
   */
  lemma HeldCall(rules: Rules, m: Table, n: nat, tool: string, request: string, ctx: Context, now: int,
                 tool': string, input: Json)
    returns (t: Token, at: seq<nat>)
    requires WellFormedCall(tool, ctx) && Proposes(tool, ctx, tool', input)
    requires Guard(rules, m, n, tool, request, ctx, now).verdict == HostApprovalRequired
    ensures var g := Guard(rules, m, n, tool, request, ctx, now);
            && ctx.conversationId.Some? && g.registrations == n + 1
            && t.serial == n && t.owner == Some(if ctx.owner.Some? then ctx.owner.value else "") && t.tool == tool'
            && t.args.Some? && t.args.value.Obj? && OwnEntries(rules, input, t.args.value.entries, at)
            && t.expiresAt == now + 900_000 && !t.anyOutboundSend
            && var c := ctx.conversationId.value;
               && c in g.table && g.table - {c} == m - {c}
               && forall x :: x in g.table[c] <==>
                    x == t || (c in m && x in m[c] && x.expiresAt > now && (x.owner != t.owner || x.tool != t.tool))
  {
    var c, owner := ctx.conversationId.value, OwnerOf(ctx);
    t := StandingToken(rules, n, owner, tool', input, now);
    at := OwnPositions(rules, input.entries);
    HeldTable(rules, m, n, tool, request, ctx, now, tool', input);
    hide Guard, AuthorizeTurnPlanOperation;
    FilteredAt(rules, input.entries);
    hide OwnEntries, OwnPositions, Filter;
    RegisteredTokens(m, c, t, now);
    hide Registered;
  }

  lemma HeldTable(rules: Rules, m: Table, n: nat, tool: string, request: string, ctx: Context, now: int,
                  tool': string, input: Json)
    requires WellFormedCall(tool, ctx) && Proposes(tool, ctx, tool', input)
    requires Guard(rules, m, n, tool, request, ctx, now).verdict == HostApprovalRequired
    ensures var g := Guard(rules, m, n, tool, request, ctx, now);
            && ctx.conversationId.Some? && g.registrations == n + 1 && input.Obj?
            && g.table == Registered(m, ctx.conversationId.value,
                                     StandingToken(rules, n, OwnerOf(ctx), tool', input, now), now)
  {
    hide Registered, StandingToken, Resolve, AuthorizeTurnPlanOperation;
  }

  lemma RegisteredTokens(m: Table, c: string, t: Token, now: int)
    ensures var after := Registered(m, c, t, now);
            && c in after && after - {c} == m - {c}
            && forall x :: x in after[c] <==>
                 x == t || (c in m && x in m[c] && x.expiresAt > now && (x.owner != t.owner || x.tool != t.tool))
  {
    var live := LiveOf(m, c, now);
    FilterMembers((x: Token) => x.expiresAt > now, if c in m then m[c] else []);
    FilterMembers((x: Token) => x.owner != t.owner || x.tool != t.tool, live);
    hide Filter, Live;
  }

  // ---------------------------------------------------------------- a call with approval

  /** A live token of the conversation that an approval can use. */
  predicate Usable(m: Table, c: string, now: int, t: Token) {
    c in m && t in m[c] && t.expiresAt > now && t.owner.Some? && t.owner.value != "" && t.args.Some?
  }

  /** The token is for this owner, tool and exact arguments, and holds the text that the request quotes, if any. */
  predicate Answers(rules: Rules, t: Token, owner: string, tool: string, input: Json, request: string) {
    && t.owner == Some(owner) && t.tool == tool && t.args.Some?
    && CanonicalText(rules.keyOrder, t.args.value) == CanonicalText(rules.keyOrder, input)
    && match rules.exactText(request)
       case None => true
       case Some(text) => t.args.value.Obj? && Entries(t.args.value.entries, text)
  }

  predicate Entries(es: seq<Entry>, text: Text) {
    exists i :: 0 <= i < |es| && es[i].value == Str(text)
  }

  /**
   A call that is an approval: nothing is pending exactly when the conversation has no usable token;
   it runs exactly when a usable token answers it, and uses that token up and no other; and
   otherwise it does not match.
   */
  lemma ApprovedCall(rules: Rules, m: Table, n: nat, tool: string, request: string, ctx: Context, now: int,
                     tool': string, input: Json, c: string)
    requires WellFormedCall(tool, ctx) && Proposes(tool, ctx, tool', input)
    requires ctx.connectedMcp && rules.affirmative(request) && ctx.conversationId == Some(c) && c != ""
    requires Pairwise(DifferentAction, LiveOf(m, c, now))
    ensures var g := Guard(rules, m, n, tool, request, ctx, now);
            var owner := if ctx.owner.Some? then ctx.owner.value else "";
            && (g.verdict == NothingPendingToApprove <==> forall t :: !Usable(m, c, now, t))
            && (g.verdict == Passed <==>
                  exists t :: Usable(m, c, now, t) && Answers(rules, t, owner, tool', input, request))
            && g.verdict in {NothingPendingToApprove, Passed, BlockedMismatch} && g.registrations == n
            && (g.verdict == Passed <==> g.used.Some?) && g.table - {c} == m - {c}
            && (g.used.Some? ==>
                  Usable(m, c, now, g.used.value) && Answers(rules, g.used.value, owner, tool', input, request))
            && forall x :: c in g.table && x in g.table[c] <==>
                 c in m && x in m[c] && x.expiresAt > now && g.used != Some(x)
  {
    hide *;
    var owner := OwnerOf(ctx);
    OwnerIs(ctx);
    ProposedIs(tool, ctx, tool', input);
    ResolvedTokens(rules, m, c, owner, tool', input, request, now);
    GuardResolves(rules, m, n, tool, request, ctx, now, c);
  }

  lemma OwnerIs(ctx: Context)
    ensures OwnerOf(ctx) == if ctx.owner.Some? then ctx.owner.value else ""
  {
  }

  lemma ProposedIs(tool: string, ctx: Context, tool': string, input: Json)
    ensures Proposes(tool, ctx, tool', input) <==> ProposedOperation(tool, ctx) == Operation(tool', input)
  {
  }

  /** With approval the guard does what the resolution says. */
  lemma GuardResolves(rules: Rules, m: Table, n: nat, tool: string, request: string, ctx: Context, now: int, c: string)
    requires WellFormedCall(tool, ctx)
    requires ctx.connectedMcp && rules.affirmative(request) && ctx.conversationId == Some(c) && c != ""
    ensures var g := Guard(rules, m, n, tool, request, ctx, now);
            var op := ProposedOperation(tool, ctx);
            var r := Resolve(rules, m, c, OwnerOf(ctx), op.toolId, op.input, request, now);
            && g.table == r.table && g.registrations == n && g.used == r.used
            && g.verdict == (match r.resolution
                             case Allowed => Passed
                             case Ambiguous => BlockedAmbiguous
                             case Mismatch => BlockedMismatch
                             case NothingPending => NothingPendingToApprove)
  {
    hide Resolve;
  }

  /** What a resolution answers, by the usable tokens, and what it leaves of them. */
  lemma ResolvedTokens(rules: Rules, m: Table, c: string, owner: string, tool: string, input: Json, request: string,
                       now: int)
    requires Pairwise(DifferentAction, LiveOf(m, c, now))
    ensures var r := Resolve(rules, m, c, owner, tool, input, request, now);
            && r.resolution != Ambiguous && (r.resolution == Allowed <==> r.used.Some?)
            && (r.resolution == NothingPending <==> forall t :: !Usable(m, c, now, t))
            && (r.resolution == Allowed <==>
                  exists t :: Usable(m, c, now, t) && Answers(rules, t, owner, tool, input, request))
            && (r.used.Some? ==>
                  Usable(m, c, now, r.used.value) && Answers(rules, r.used.value, owner, tool, input, request))
            && r.table - {c} == m - {c}
            && forall x :: c in r.table && x in r.table[c] <==>
                 c in m && x in m[c] && x.expiresAt > now && r.used != Some(x)
  {
    hide Filter, Answers, Usable, ExactCandidates, Owned, LiveOf, Live, Store, DifferentAction, Matches, Candidates;
    var live := LiveOf(m, c, now);
    var tokens := Filter(Owned, live);
    var exact := ExactCandidates(rules, tokens, owner, tool, input, request);
    UsableTokens(m, c, now);
    ExactTokens(rules, m, c, owner, tool, input, request, now);
    assert exact != [] ==> exact[0] in exact;
    assert tokens != [] ==> tokens[0] in tokens;
    StoredTokens(m, c, live);
    if exact != [] { FilterMembers((x: Token) => x != exact[0], live); }
  }

  /** At most one usable token answers the call. */
  lemma ExactTokens(rules: Rules, m: Table, c: string, owner: string, tool: string, input: Json, request: string,
                    now: int)
    requires Pairwise(DifferentAction, LiveOf(m, c, now))
    ensures var exact := ExactCandidates(rules, Filter(Owned, LiveOf(m, c, now)), owner, tool, input, request);
            && |exact| <= 1
            && forall t :: t in exact <==> Usable(m, c, now, t) && Answers(rules, t, owner, tool, input, request)
  {
    hide CanonicalText, Answers, Usable, LiveOf, DifferentAction;
    var live := LiveOf(m, c, now);
    var tokens := Filter(Owned, live);
    UsableTokens(m, c, now);
    FilterPairwise(Owned, DifferentAction, live);
    CandidatesFromTokens(rules, tokens, request);
    AtMostOneExact(rules, Candidates(rules, tokens, request), owner, tool, input);
    forall t
      ensures t in ExactCandidates(rules, tokens, owner, tool, input, request)
        <==> t in tokens && Answers(rules, t, owner, tool, input, request)
    {
      ExactAre(rules, tokens, owner, tool, input, request, t);
    }
  }

  lemma UsableTokens(m: Table, c: string, now: int)
    ensures forall x :: x in LiveOf(m, c, now) <==> c in m && x in m[c] && x.expiresAt > now
    ensures forall t :: t in Filter(Owned, LiveOf(m, c, now)) <==> Usable(m, c, now, t)
  {
    FilterMembers((x: Token) => x.expiresAt > now, if c in m then m[c] else []);
    FilterMembers(Owned, LiveOf(m, c, now));
    hide Filter;
  }

  lemma StoredTokens(m: Table, c: string, tokens: seq<Token>)
    ensures forall x :: c in Store(m, c, tokens) && x in Store(m, c, tokens)[c] <==> x in tokens
    ensures Store(m, c, tokens) - {c} == m - {c}
  {
  }

  lemma ExactAre(rules: Rules, tokens: seq<Token>, owner: string, tool: string, input: Json, request: string, t: Token)
    ensures t in ExactCandidates(rules, tokens, owner, tool, input, request)
      <==> t in tokens && Answers(rules, t, owner, tool, input, request)
  {
    hide CanonicalText;
    CandidatesFromTokens(rules, tokens, request);
    if t in tokens { CandidatesAre(rules, tokens, request, t); }
    FilterMembers((x: Token) => Matches(rules, owner, tool, input, x), Candidates(rules, tokens, request));
    if rules.exactText(request).Some? { QuotedIn(t, rules.exactText(request).value); }
    hide Filter, HasText, Entries, Candidates;
  }

  lemma QuotedIn(t: Token, text: Text)
    ensures HasText(t, text) <==> t.args.Some? && t.args.value.Obj? && Entries(t.args.value.entries, text)
  {
  }

  // ---------------------------------------------------------------- a held call, restated with approval

  lemma LogGrows(rules: Rules, s: System, e: PeerGuard.Event, now: int)
    requires WellFormedEvent(e)
    ensures s.log <= Step(rules, s, e, now).log
  {
    hide Guard;
  }

  /** An event that neither forgets the table nor replaces the tokens of the conversation. */
  predicate LeavesTable(e: PeerGuard.Event, c: string) {
    !e.Restart? && (e.Load? ==> e.c != c)
  }

  /** A live token stays in the table through an event that does not end it. */
  lemma StaysThroughStep(rules: Rules, s: System, e: PeerGuard.Event, now: int, c: string, t: Token)
    requires WellFormedEvent(e) && LeavesTable(e, c) && c in s.table && t in s.table[c] && t.expiresAt > now && Owned(t)
    requires var log := Step(rules, s, e, now).log;
      forall r | |s.log| <= r < |log| :: !Ends(log[r], t.serial, c, t.owner.value, t.tool)
    ensures var next := Step(rules, s, e, now); c in next.table && t in next.table[c]
  {
    match e
    case Call(_, _, ctx) =>
      if ctx.connectedMcp && ctx.conversationId == Some(c) && c != "" {
        LiveIn(s.table, c, t, now);
        StaysThroughCall(rules, s, e, now, c, t);
      } else {
        OtherCallKeeps(rules, s, e, now, c);
      }
    case Held(c', owner, tool, args, result) =>
      LiveIn(s.table, c, t, now);
      HeldKeeps(rules, s, e, now, c, t);
    case _ =>
      LiveIn(s.table, c, t, now);
      PlainEventKeeps(rules, s, e, now, c, t);
  }

  lemma LiveIn(m: Table, c: string, t: Token, now: int)
    requires c in m && t in m[c] && t.expiresAt > now
    ensures t in LiveOf(m, c, now)
  {
    FilterMembers((x: Token) => x.expiresAt > now, m[c]);
  }

  lemma OtherCallKeeps(rules: Rules, s: System, e: PeerGuard.Event, now: int, c: string)
    requires e.Call? && WellFormedEvent(e) && c in s.table
    requires !(e.ctx.connectedMcp && e.ctx.conversationId == Some(c) && c != "")
    ensures var next := Step(rules, s, e, now); c in next.table && next.table[c] == s.table[c]
  {
    hide LiveOf, StandingToken, Registrable, AuthorizeTurnPlanOperation, ExactCandidates, Filter, Owned;
  }

  lemma HeldKeeps(rules: Rules, s: System, e: PeerGuard.Event, now: int, c: string, t: Token)
    requires e.Held? && WellFormedEvent(e) && c in s.table && t in s.table[c] && Owned(t)
    requires t in LiveOf(s.table, c, now)
    requires var log := Step(rules, s, e, now).log;
      forall r | |s.log| <= r < |log| :: !Ends(log[r], t.serial, c, t.owner.value, t.tool)
    ensures var next := Step(rules, s, e, now); c in next.table && t in next.table[c]
  {
    hide LiveOf, StandingToken, Registrable;
    if Step(rules, s, e, now).table != s.table && e.c == c {
      StaysThroughGrant(rules, s, c, e.owner, e.tool, e.args, now, t);
    }
  }

  lemma PlainEventKeeps(rules: Rules, s: System, e: PeerGuard.Event, now: int, c: string, t: Token)
    requires !e.Call? && !e.Held? && LeavesTable(e, c) && c in s.table && t in s.table[c] && Owned(t)
    requires t in LiveOf(s.table, c, now)
    requires var log := Step(rules, s, e, now).log;
      forall r | |s.log| <= r < |log| :: !Ends(log[r], t.serial, c, t.owner.value, t.tool)
    ensures var next := Step(rules, s, e, now); c in next.table && t in next.table[c]
  {
    hide LiveOf, Live;
    var log := Step(rules, s, e, now).log;
    if |log| > |s.log| { assert log[|s.log|] == Cleared(e.c); }
  }

  lemma StaysThroughGrant(rules: Rules, s: System, c: string, owner: string, tool: string, args: Json, now: int,
                          t: Token)
    requires t in LiveOf(s.table, c, now) && Owned(t) && args.Obj?
    requires var log := WithGrant(rules, s, c, owner, tool, args, now).log;
      !Ends(log[|s.log|], t.serial, c, t.owner.value, t.tool)
    ensures var next := WithGrant(rules, s, c, owner, tool, args, now); c in next.table && t in next.table[c]
  {
    var token := StandingToken(rules, s.registrations, owner, tool, args, now);
    FilterMembers((x: Token) => x.owner != token.owner || x.tool != token.tool, LiveOf(s.table, c, now));
  }

  lemma StaysThroughCall(rules: Rules, s: System, e: PeerGuard.Event, now: int, c: string, t: Token)
    requires e.Call? && WellFormedEvent(e) && e.ctx.connectedMcp && e.ctx.conversationId == Some(c) && c != ""
    requires t in LiveOf(s.table, c, now) && c in s.table && t in s.table[c] && Owned(t)
    requires var log := Step(rules, s, e, now).log;
      forall r | |s.log| <= r < |log| :: !Ends(log[r], t.serial, c, t.owner.value, t.tool)
    ensures var next := Step(rules, s, e, now); c in next.table && t in next.table[c]
  {
    hide LiveOf, StandingToken, Registrable, AuthorizeTurnPlanOperation;
    var next, op := Step(rules, s, e, now), ProposedOperation(e.tool, e.ctx);
    var g := Guard(rules, s.table, s.registrations, e.tool, e.request, e.ctx, now);
    if g.used.Some? {
      var r := Resolve(rules, s.table, c, OwnerOf(e.ctx), op.toolId, op.input, e.request, now);
      UseStep'(rules, s, e, now, c);
      assert next.log[|s.log|].Spent? && next.log[|s.log|].serial == r.used.value.serial;
      FilterMembers((x: Token) => x != r.used.value, LiveOf(s.table, c, now));
    } else if g.registrations > s.registrations {
      hide WithGrant;
      StaysThroughGrant(rules, s, c, OwnerOf(e.ctx), op.toolId, op.input, now, t) by {
        assert next == WithGrant(rules, s, c, OwnerOf(e.ctx), op.toolId, op.input, now);
        assert |next.log| > |s.log| by { GrantIsLogged(rules, s, c, OwnerOf(e.ctx), op.toolId, op.input, now); }
      }
    }
  }

  lemma GrantIsLogged(rules: Rules, s: System, c: string, owner: string, tool: string, args: Json, now: int)
    requires args.Obj?
    ensures |WithGrant(rules, s, c, owner, tool, args, now).log| > |s.log|
  {
  }

  lemma UseStep'(rules: Rules, s: System, e: PeerGuard.Event, now: int, c: string)
    requires e.Call? && WellFormedEvent(e) && e.ctx.connectedMcp && e.ctx.conversationId == Some(c) && c != ""
    requires Guard(rules, s.table, s.registrations, e.tool, e.request, e.ctx, now).used.Some?
    ensures var op := ProposedOperation(e.tool, e.ctx);
            var r := Resolve(rules, s.table, c, OwnerOf(e.ctx), op.toolId, op.input, e.request, now);
            && r.used.Some?
            && Step(rules, s, e, now).table
               == s.table[c := Filter((x: Token) => x != r.used.value, LiveOf(s.table, c, now))]
            && Step(rules, s, e, now).log
               == s.log + [Spent(r.used.value.serial, c, OwnerOf(e.ctx), op.toolId, op.input, now)]
  {
  }

  lemma {:induction false} TimesInOrder(run: seq<Timed>, i: nat)
    requires Possible(run) && i < |run|
    ensures run[i].at <= run[|run| - 1].at
  {
    if i < |run| - 1 { TimesInOrder(run[..|run| - 1], i); }
  }

  lemma {:induction false} StaysThroughRun(rules: Rules, before: seq<Timed>, between: seq<Timed>, c: string, t: Token)
    requires Possible(before) && Possible(before + between) && Owned(t)
    requires c in After(rules, before).table && t in After(rules, before).table[c]
    requires forall i :: 0 <= i < |between| ==> LeavesTable(between[i].event, c) && between[i].at < t.expiresAt
    requires var log := After(rules, before + between).log;
      forall r | |After(rules, before).log| <= r < |log| :: !Ends(log[r], t.serial, c, t.owner.value, t.tool)
    ensures After(rules, before).log <= After(rules, before + between).log
    ensures var s := After(rules, before + between); c in s.table && t in s.table[c]
    decreases |between|
  {
    if between == [] {
      assert before + between == before;
    } else {
      hide Step, Ends;
      var n := |between| - 1;
      var full, init := before + between, before + between[..n];
      assert full[..|full| - 1] == init && full[|full| - 1] == between[n];
      var s, last := After(rules, init), between[n];
      assert After(rules, full) == Step(rules, s, last.event, last.at);
      LogGrows(rules, s, last.event, last.at);
      assert forall r | 0 <= r < |s.log| :: After(rules, full).log[r] == s.log[r];
      StaysThroughRun(rules, before, between[..n], c, t);
      StaysThroughStep(rules, s, last.event, last.at, c, t);
    }
  }

  /**
   An operation with no internal keys is held for this connection: by the guard, or by the peer, in
   a result that asks for approval of something.
   */
  ghost predicate IsHeld(rules: Rules, s: System, hold: Timed, c: string, owner: string, tool: string, input: Json) {
    && input.Obj? && owner != "" && c != ""
    && (forall i :: 0 <= i < |input.entries| ==> !rules.internalKey(input.entries[i].key))
    && match hold.event
       case Call(tool', request, ctx) =>
         && WellFormedCall(tool', ctx) && Proposes(tool', ctx, tool, input)
         && ctx.conversationId == Some(c) && ctx.owner == Some(owner)
         && Guard(rules, s.table, s.registrations, tool', request, ctx, hold.at).verdict == HostApprovalRequired
       case Held(c', owner', tool', args, result) =>
         && c' == c && owner' == owner && tool' == tool && args == input && WellFormedEvent(hold.event)
         && rules.approvalRequired(result) && Substantive(rules, input)
       case _ => false
  }

  /** The call restates the operation, with its arguments up to key order, and its request approves. */
  ghost predicate Approves(rules: Rules, call: PeerGuard.Event, c: string, owner: string, tool: string, input: Json)
    requires input.Obj?
  {
    && call.Call? && WellFormedCall(call.tool, call.ctx)
    && call.ctx.connectedMcp && call.ctx.conversationId == Some(c) && call.ctx.owner == Some(owner)
    && rules.affirmative(call.request)
    && (match rules.exactText(call.request)
        case None => true
        case Some(text) => Entries(input.entries, text))
    && exists input' :: Proposes(call.tool, call.ctx, tool, input')
                        && CanonicalText(rules.keyOrder, input) == CanonicalText(rules.keyOrder, input')
  }

  lemma {:induction false} FilterAll(p: Entry -> bool, es: seq<Entry>)
    requires forall i :: 0 <= i < |es| ==> p(es[i])
    ensures Filter(p, es) == es
  {
    if es != [] { FilterAll(p, es[1..]); }
  }

  /** The token that a held call leaves in the table. */
  lemma HoldLeaves(rules: Rules, s: System, hold: Timed, c: string, owner: string, tool: string, input: Json)
    returns (t: Token)
    requires IsHeld(rules, s, hold, c, owner, tool, input)
    ensures var next := Step(rules, s, hold.event, hold.at);
            && c in next.table && t in next.table[c] && Owned(t)
            && t.serial == s.registrations && t.owner == Some(owner) && t.tool == tool && t.args == Some(input)
            && input.Obj? && t.expiresAt == hold.at + 900_000
  {
    t := StandingToken(rules, s.registrations, owner, tool, input, hold.at);
    FilterAll((e: Entry) => !rules.internalKey(e.key), input.entries);
    assert CleanArgs(rules, input) == input;
    HoldRegisters(rules, s, hold, c, owner, tool, input);
    hide *;
  }

  lemma HoldRegisters(rules: Rules, s: System, hold: Timed, c: string, owner: string, tool: string, input: Json)
    requires IsHeld(rules, s, hold, c, owner, tool, input)
    ensures var next := Step(rules, s, hold.event, hold.at);
            c in next.table && StandingToken(rules, s.registrations, owner, tool, input, hold.at) in next.table[c]
  {
    SubstantiveIs(rules, input);
    hide Filter, LiveOf, HasSubstantiveArgs, Substantive, AuthorizeTurnPlanOperation, Resolve, StandingToken;
  }

  /** The call that approves uses the live token of the operation. */
  lemma ApprovalUses(rules: Rules, s: System, call: PeerGuard.Event, now: int, c: string, t: Token, input: Json)
    requires Inv(s) && c != "" && c in s.table && t in s.table[c] && t.expiresAt > now && Owned(t)
    requires t.args == Some(input) && input.Obj? && Approves(rules, call, c, t.owner.value, t.tool, input)
    ensures var g := Guard(rules, s.table, s.registrations, call.tool, call.request, call.ctx, now);
            g.verdict == Passed && g.used == Some(t)
  {
    hide CanonicalText, Guard;
    var input' :| Proposes(call.tool, call.ctx, t.tool, input')
                  && CanonicalText(rules.keyOrder, input) == CanonicalText(rules.keyOrder, input');
    SoundLive(s, c, now);
    LiveIn(s.table, c, t, now);
    ApprovedCall(rules, s.table, s.registrations, call.tool, call.request, call.ctx, now, t.tool, input', c);
    assert Usable(s.table, c, now, t) && Answers(rules, t, t.owner.value, t.tool, input', call.request);
    var g := Guard(rules, s.table, s.registrations, call.tool, call.request, call.ctx, now);
    LiveIn(s.table, c, g.used.value, now);
    hide Inv, LiveOf;
    OnlyOfItsAction(LiveOf(s.table, c, now), t);
  }

  /**
   An operation is held, and later restated with approval: the same tool on the same connection, with the
   same arguments up to key order, none of them internal. Whatever happens between, it runs and uses
   its own registration up, if fifteen minutes have not passed, nothing has ended the registration,
   and the table was not lost or replaced.
   */
  lemma HeldThenApproved(rules: Rules, before: seq<Timed>, hold: Timed, between: seq<Timed>, approve: Timed, c: string,
                         owner: string, tool: string, input: Json)
    requires ValidRun(rules, before + [hold] + between + [approve]) && c != ""
    requires Possible(before) && Possible(before + [hold]) && Possible(before + [hold] + between)
    requires IsHeld(rules, After(rules, before), hold, c, owner, tool, input)
    requires Approves(rules, approve.event, c, owner, tool, input) && approve.at < hold.at + 900_000
    requires forall i :: 0 <= i < |between| ==> LeavesTable(between[i].event, c)
    requires var log, serial := After(rules, before + [hold] + between).log, After(rules, before).registrations;
      forall r | |After(rules, before + [hold]).log| <= r < |log| :: !Ends(log[r], serial, c, owner, tool)
    ensures var s, call := After(rules, before + [hold] + between), approve.event;
            var g := Guard(rules, s.table, s.registrations, call.tool, call.request, call.ctx, approve.at);
            && g.verdict == Passed && g.used.Some? && g.used.value.serial == After(rules, before).registrations
  {
    hide *;
    var held, full := before + [hold], before + [hold] + between;
    ValidBefore(rules, full, approve);
    AfterOne(rules, before, hold);
    var t := HoldLeaves(rules, After(rules, before), hold, c, owner, tool, input);
    forall i | 0 <= i < |between|
      ensures between[i].at < t.expiresAt
    {
      TimesInOrder(full + [approve], |held| + i);
    }
    OwnedIs(t);
    StaysThroughRun(rules, held, between, c, t);
    RunKeeps(rules, full);
    ApprovalUses(rules, After(rules, full), approve.event, approve.at, c, t, input);
  }

  lemma OwnedIs(t: Token)
    ensures Owned(t) ==> t.owner.Some? && t.args.Some?
  {
  }

  lemma ValidBefore(rules: Rules, run: seq<Timed>, last: Timed)
    requires ValidRun(rules, run + [last])
    ensures ValidRun(rules, run) && Possible(run + [last])
  {
    assert (run + [last])[..|run|] == run;
  }

  lemma AfterOne(rules: Rules, run: seq<Timed>, last: Timed)
    requires Possible(run + [last])
    ensures Possible(run) && WellFormedEvent(last.event)
    ensures After(rules, run + [last]) == Step(rules, After(rules, run), last.event, last.at)
  {
    assert (run + [last])[..|run|] == run;
  }
}

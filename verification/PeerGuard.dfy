/**
 The guard in front of a connected peer's mutating tools (packages/core/src/taskingPolicy.ts,
 `authorizeTurnPlanOperation` and `peerMutationGuardFailure`) and its runs: calls interleaved
 with results that a peer held, cancellation, consumption, legacy tokens, saving and loading the
 durable row of a conversation, and process restarts.
 */
module PeerGuard {
  import opened Basics
  import opened ExactArgs
  import opened ApprovalTokens

  // ---------------------------------------------------------------- host policy

  datatype Exposure = Private | Public | External | UnknownExposure
  datatype TenantScope = OwnTenant | CrossTenant | UnknownTenant
  datatype FinancialScope = NoMoney | Financial | UnknownFinancial

  datatype Profile = Profile(
    exposure: Exposure,
    tenantScope: TenantScope,
    financialScope: FinancialScope,
    trustMcpAnnotations: bool)

  datatype Annotations = Annotations(
    readOnlyHint: Option<bool>,
    destructiveHint: Option<bool>,
    openWorldHint: Option<bool>)

  const DEFAULT_PROFILE := Profile(UnknownExposure, UnknownTenant, UnknownFinancial, false)

  datatype Disposition = Execute | HoldForExactApproval | Clarify

  function AuthorizeTurnPlanOperation(annotations: Option<Annotations>, profile: Option<Profile>): Disposition {
    var p := if profile.Some? then profile.value else DEFAULT_PROFILE;
    var annotationRiskKnown :=
      && p.trustMcpAnnotations && annotations.Some?
      && annotations.value.readOnlyHint.Some?
      && annotations.value.destructiveHint.Some?
      && annotations.value.openWorldHint.Some?;
    var profileRiskKnown := !p.exposure.UnknownExposure? && !p.tenantScope.UnknownTenant?
      && !p.financialScope.UnknownFinancial?;
    if !annotationRiskKnown || !profileRiskKnown then Clarify
    else if
      || p.exposure != Private || p.tenantScope != OwnTenant || p.financialScope == Financial
      || annotations.value.destructiveHint == Some(true) || annotations.value.openWorldHint == Some(true)
    then HoldForExactApproval
    else Execute
  }

  // ---------------------------------------------------------------- one guarded call

  datatype Operation = Operation(toolId: string, input: Json)

  datatype Context = Context(
    connectedMcp: bool,
    operation: Option<Operation>,
    conversationId: Option<string>,
    args: Option<Json>,
    owner: Option<string>,
    annotations: Option<Annotations>,
    trustedProfile: Option<Profile>)

  datatype Verdict =
    | Passed
    | BlockedAmbiguous
    | BlockedMismatch
    | NothingPendingToApprove
    | BlockedRiskUnknown
    | BlockedNotHeld
    | HostApprovalRequired

  const HOLD_RESULT := "[approval_required] Held by Ring's deterministic host risk policy."

  function ProposedOperation(tool: string, ctx: Context): Operation {
    match ctx.operation
    case Some(op) => op
    case None => Operation(tool, if ctx.args.Some? then ctx.args.value else Obj([]))
  }

  function OwnerOf(ctx: Context): string {
    if ctx.owner.Some? then ctx.owner.value else ""
  }

  predicate HasConversation(ctx: Context) {
    ctx.conversationId.Some? && ctx.conversationId.value != ""
  }

  /** Arguments are objects, and objects have distinct keys. */
  predicate WellFormedCall(tool: string, ctx: Context) {
    var input := ProposedOperation(tool, ctx).input;
    input.Obj? && WellFormed(input)
  }

  datatype Guarded = Guarded(verdict: Verdict, table: Table, registrations: nat, used: Option<Token>)

  function Guard(rules: Rules, m: Table, n: nat, tool: string, request: string, ctx: Context, now: int): Guarded
    requires WellFormedCall(tool, ctx)
  {
    var op := ProposedOperation(tool, ctx);
    if !ctx.connectedMcp then Guarded(Passed, m, n, None)
    else if rules.affirmative(request) && HasConversation(ctx) then
      var r := Resolve(rules, m, ctx.conversationId.value, OwnerOf(ctx), op.toolId, op.input, request, now);
      var verdict := match r.resolution
        case Allowed => Passed
        case Ambiguous => BlockedAmbiguous
        case Mismatch => BlockedMismatch
        case NothingPending => NothingPendingToApprove;
      Guarded(verdict, r.table, n, r.used)
    else
      match AuthorizeTurnPlanOperation(ctx.annotations, ctx.trustedProfile)
      case Execute => Guarded(Passed, m, n, None)
      case Clarify => Guarded(BlockedRiskUnknown, m, n, None)
      case HoldForExactApproval =>
        if HasConversation(ctx) && Registrable(rules, op.input, HOLD_RESULT) then
          var token := StandingToken(rules, n, OwnerOf(ctx), op.toolId, op.input, now);
          Guarded(HostApprovalRequired, Registered(m, ctx.conversationId.value, token, now), n + 1, None)
        else Guarded(BlockedNotHeld, m, n, None)
  }

  method PeerMutationGuardFailure(tokens: ApprovalTokens, tool: string, request: string, ctx: Context, now: int)
    returns (verdict: Verdict, ghost used: Option<Token>)
    requires WellFormedCall(tool, ctx)
    modifies tokens
    ensures Guarded(verdict, tokens.tokensByConversation, tokens.registrations, used) ==
            Guard(tokens.rules, old(tokens.tokensByConversation), old(tokens.registrations), tool, request, ctx, now)
  {
    used := None;
    if !ctx.connectedMcp {
      return Passed, None;
    }
    var op := ProposedOperation(tool, ctx);
    if tokens.rules.affirmative(request) && HasConversation(ctx) {
      var resolution;
      resolution, used := tokens.ResolveStandingApproval(
        ctx.conversationId.value, OwnerOf(ctx), op.toolId, op.input, request, now);
      match resolution {
        case Allowed => verdict := Passed;
        case Ambiguous => verdict := BlockedAmbiguous;
        case Mismatch => verdict := BlockedMismatch;
        case NothingPending => verdict := NothingPendingToApprove;
      }
      return;
    }
    var disposition := AuthorizeTurnPlanOperation(ctx.annotations, ctx.trustedProfile);
    if disposition == Execute {
      return Passed, None;
    }
    if disposition == Clarify {
      return BlockedRiskUnknown, None;
    }
    if !HasConversation(ctx) {
      return BlockedNotHeld, None;
    }
    var held := tokens.RegisterStandingApproval(
      ctx.conversationId.value, OwnerOf(ctx), op.toolId, op.input, HOLD_RESULT, now);
    verdict := if held then HostApprovalRequired else BlockedNotHeld;
  }

  // ---------------------------------------------------------------- runs

  datatype Event =
    | Call(tool: string, request: string, ctx: Context)
    | Held(c: string, owner: string, tool: string, args: Json, result: string)  // a peer refused until approved
    | Cancel(c: string)
    | Consume(c: string)
    | Legacy(c: string, tool: string, content: Json)
    | Outbound(c: string)
    | Save(c: string)  // write the snapshot to the durable row
    | Load(c: string)  // hydrate from the durable row
    | Restart

  /** What happened, in order. `Cleared` ends every approval of a conversation. */
  datatype Fact =
    | Granted(serial: nat, c: string, owner: string, tool: string, args: Json, at: int)
    | Spent(serial: nat, c: string, owner: string, tool: string, args: Json, at: int)
    | Cleared(c: string)

  /** `saved` tells how long the log was when the row of a conversation was last saved. */
  datatype System = System(
    table: Table,
    registrations: nat,
    rows: Table,
    saved: map<string, nat>,
    log: seq<Fact>,
    clock: int)

  function RowOf(s: System, c: string): seq<Token> {
    if c in s.rows then s.rows[c] else []
  }

  function SavedAt(s: System, c: string): nat {
    if c in s.saved then s.saved[c] else 0
  }

  predicate WellFormedEvent(e: Event) {
    && (e.Call? ==> WellFormedCall(e.tool, e.ctx))
    && (e.Held? ==> e.args.Obj? && WellFormed(e.args))
  }

  function WithGrant(rules: Rules, s: System, c: string, owner: string, tool: string, args: Json, now: int): System
    requires args.Obj?
  {
    System(
      Registered(s.table, c, StandingToken(rules, s.registrations, owner, tool, args, now), now),
      s.registrations + 1, s.rows, s.saved,
      s.log + [Granted(s.registrations, c, owner, tool, CleanArgs(rules, args), now)], now)
  }

  function Step(rules: Rules, s: System, e: Event, now: int): System
    requires WellFormedEvent(e)
  {
    match e
    case Call(tool, request, ctx) =>
      var g := Guard(rules, s.table, s.registrations, tool, request, ctx, now);
      var op := ProposedOperation(tool, ctx);
      if g.used.Some? then
        var c := ctx.conversationId.value;
        var fact := Spent(g.used.value.serial, c, OwnerOf(ctx), op.toolId, op.input, now);
        s.(table := g.table, log := s.log + [fact], clock := now)
      else if g.registrations > s.registrations then
        WithGrant(rules, s, ctx.conversationId.value, OwnerOf(ctx), op.toolId, op.input, now)
      else s.(table := g.table, clock := now)
    case Held(c, owner, tool, args, result) =>
      if c != "" && owner != "" && Registrable(rules, args, result) then WithGrant(rules, s, c, owner, tool, args, now)
      else s.(clock := now)
    case Cancel(c) =>
      s.(table := s.table - {c}, log := s.log + [Cleared(c)], clock := now)
    case Consume(c) =>
      s.(table := s.table - {c}, log := s.log + [Cleared(c)], clock := now)
    case Legacy(c, tool, content) =>
      s.(table := s.table[c := [LegacyToken(s.registrations, tool, rules.draftHash(content), now)]],
         registrations := s.registrations + 1, log := s.log + [Cleared(c)], clock := now)
    case Outbound(c) =>
      s.(table := s.table[c := [OutboundToken(s.registrations, now)]],
         registrations := s.registrations + 1, log := s.log + [Cleared(c)], clock := now)
    case Save(c) =>
      s.(table := Pruned(s.table, c, now), rows := s.rows[c := LiveOf(s.table, c, now)],
         saved := s.saved[c := |s.log|], clock := now)
    case Load(c) =>
      s.(table := Store(s.table, c, Live(RowOf(s, c), now)), clock := now)
    case Restart =>
      s.(table := map[], clock := now)
  }

  datatype Timed = Timed(event: Event, at: int)

  const INITIAL := System(map[], 0, map[], map[], [], 0)

  /** What can happen at all: time does not go back and arguments are objects. */
  predicate Possible(run: seq<Timed>)
    decreases |run|
  {
    run == [] ||
    var before, last := run[..|run| - 1], run[|run| - 1];
    && Possible(before) && WellFormedEvent(last.event)
    && (if before == [] then 0 else before[|before| - 1].at) <= last.at
  }

  function After(rules: Rules, run: seq<Timed>): System
    requires Possible(run)
    decreases |run|
  {
    if run == [] then INITIAL
    else Step(rules, After(rules, run[..|run| - 1]), run[|run| - 1].event, run[|run| - 1].at)
  }

  // ---------------------------------------------------------------- what the log must satisfy

  /** The fact ends the approval that was granted as (serial, c, owner, tool). */
  predicate Ends(f: Fact, serial: nat, c: string, owner: string, tool: string) {
    match f
    case Spent(n, _, _, _, _, _) => n == serial
    case Cleared(c') => c' == c
    case Granted(_, c', owner', tool', _, _) => c' == c && owner' == owner && tool' == tool
  }

  /** Nothing after the row was saved has ended one of its live tokens. */
  ghost predicate Intact(s: System, c: string, now: int) {
    forall t, r | t in Live(RowOf(s, c), now) && Owned(t) && SavedAt(s, c) <= r < |s.log| ::
      !Ends(s.log[r], t.serial, c, t.owner.value, t.tool)
  }

  /** An event after which every use is justified: a row is loaded only while it is intact. */
  ghost predicate Enabled(s: System, e: Event, now: int) {
    && s.clock <= now && WellFormedEvent(e)
    && (e.Load? ==> Intact(s, e.c, now))
  }

  ghost predicate ValidRun(rules: Rules, run: seq<Timed>)
    decreases |run|
  {
    && Possible(run)
    && (run == [] ||
        var before, last := run[..|run| - 1], run[|run| - 1];
        ValidRun(rules, before) && (last.event.Load? ==> Intact(After(rules, before), last.event.c, last.at)))
  }

  ghost predicate NotEnded(log: seq<Fact>, q: nat, p: nat, serial: nat, c: string, owner: string, tool: string)
    requires p <= |log|
  {
    forall r :: q < r < p ==> !Ends(log[r], serial, c, owner, tool)
  }

  /**
   The use at position `p` is justified by the grant at position `q`: same registration,
   conversation, nonempty owner and tool, equal arguments, younger than 15 minutes, and not
   spent, cancelled or replaced in between.
   */
  ghost predicate Justified(log: seq<Fact>, q: nat, p: nat)
    requires p < |log| && log[p].Spent?
  {
    var u := log[p];
    && q < p && log[q].Granted?
    && log[q].serial == u.serial && log[q].c == u.c && log[q].tool == u.tool
    && log[q].owner == u.owner && u.owner != ""
    && Meaning(log[q].args) == Meaning(u.args)
    && log[q].at <= u.at < log[q].at + TOKEN_TTL_MS
    && NotEnded(log, q, p, u.serial, u.c, u.owner, u.tool)
  }

  ghost predicate SafeLog(log: seq<Fact>) {
    forall p :: 0 <= p < |log| && log[p].Spent? ==> exists q: nat :: Justified(log, q, p)
  }

  /** Registrations are numbered apart, happened in the past, and hold proper arguments. */
  ghost predicate GrantsInOrder(log: seq<Fact>, n: nat, clock: int) {
    && (forall q :: 0 <= q < |log| && log[q].Granted? ==>
          log[q].serial < n && log[q].at <= clock && log[q].args.Obj? && WellFormed(log[q].args))
    && (forall q, r :: 0 <= q < r < |log| && log[q].Granted? && log[r].Granted? ==> log[q].serial != log[r].serial)
  }

  ghost predicate GrantedAt(log: seq<Fact>, q: nat, c: string, t: Token) {
    && q < |log| && t.owner.Some? && t.args.Some?
    && log[q] == Granted(t.serial, c, t.owner.value, t.tool, t.args.value, t.expiresAt - TOKEN_TTL_MS)
  }

  /** The token is a registration of this conversation that nothing has ended. */
  ghost predicate Standing(log: seq<Fact>, c: string, t: Token) {
    && t.owner.Some?
    && exists q: nat :: GrantedAt(log, q, c, t) && NotEnded(log, q, |log|, t.serial, c, t.owner.value, t.tool)
  }

  predicate DifferentAction(a: Token, b: Token) {
    a.owner.None? || b.owner.None? || a.owner != b.owner || a.tool != b.tool
  }

  /** At most one token for each (owner, tool), and every one of them stands. */
  ghost predicate Sound(log: seq<Fact>, c: string, tokens: seq<Token>) {
    && Pairwise(DifferentAction, tokens)
    && forall t | t in tokens && Owned(t) :: Standing(log, c, t)
  }

  ghost predicate Inv(s: System) {
    && GrantsInOrder(s.log, s.registrations, s.clock)
    && SafeLog(s.log)
    && (forall c | c in s.table :: Sound(s.log, c, s.table[c]))
    && RowsSound(s.log, s.rows, s.saved)
  }

  /** A saved row was sound when it was saved. */
  ghost predicate RowsSound(log: seq<Fact>, rows: Table, saved: map<string, nat>) {
    forall c | c in rows :: c in saved && saved[c] <= |log| && Sound(log[..saved[c]], c, rows[c])
  }

  // ---------------------------------------------------------------- every step keeps it

  lemma SoundFilter(log: seq<Fact>, c: string, p: Token -> bool, tokens: seq<Token>)
    requires Sound(log, c, tokens)
    ensures Sound(log, c, Filter(p, tokens))
  {
    FilterPairwise(p, DifferentAction, tokens);
    FilterMembers(p, tokens);
  }

  lemma SoundLive(s: System, c: string, now: int)
    requires Inv(s)
    ensures Sound(s.log, c, LiveOf(s.table, c, now))
  {
    SoundFilter(s.log, c, (t: Token) => t.expiresAt > now, if c in s.table then s.table[c] else []);
  }

  /** A token keeps standing when a fact that does not end it is added. */
  lemma StandingExtends(log: seq<Fact>, f: Fact, c: string, t: Token)
    requires Standing(log, c, t) && !Ends(f, t.serial, c, t.owner.value, t.tool)
    ensures Standing(log + [f], c, t)
  {
    var q: nat :| GrantedAt(log, q, c, t) && NotEnded(log, q, |log|, t.serial, c, t.owner.value, t.tool);
    assert GrantedAt(log + [f], q, c, t);
    assert NotEnded(log + [f], q, |log| + 1, t.serial, c, t.owner.value, t.tool);
  }

  lemma SoundExtends(log: seq<Fact>, f: Fact, c: string, tokens: seq<Token>)
    requires Sound(log, c, tokens)
    requires forall t | t in tokens && Owned(t) :: !Ends(f, t.serial, c, t.owner.value, t.tool)
    ensures Sound(log + [f], c, tokens)
  {
    forall t | t in tokens && Owned(t)
      ensures Standing(log + [f], c, t)
    {
      StandingExtends(log, f, c, t);
    }
  }

  /** Two standing tokens with one serial are tokens of one grant. */
  lemma OneGrant(log: seq<Fact>, n: nat, clock: int, c: string, t: Token, c': string, t': Token)
    requires GrantsInOrder(log, n, clock) && Standing(log, c, t) && Standing(log, c', t') && t.serial == t'.serial
    ensures c == c' && t.owner == t'.owner && t.tool == t'.tool
  {
    var q: nat :| GrantedAt(log, q, c, t);
    var q': nat :| GrantedAt(log, q', c', t');
    assert q == q';
  }

  lemma GrantsExtend(log: seq<Fact>, f: Fact, n: nat, n': nat, clock: int, now: int)
    requires GrantsInOrder(log, n, clock) && clock <= now && n <= n'
    requires f.Granted? ==> f.serial == n < n' && f.at == now && f.args.Obj? && WellFormed(f.args)
    ensures GrantsInOrder(log + [f], n', now)
  {
  }

  lemma SafeExtends(log: seq<Fact>, f: Fact)
    requires SafeLog(log)
    requires f.Spent? ==> exists q: nat :: Justified(log + [f], q, |log|)
    ensures SafeLog(log + [f])
  {
    var log' := log + [f];
    forall p | 0 <= p < |log'| && log'[p].Spent?
      ensures exists q: nat :: Justified(log', q, p)
    {
      if p < |log| {
        var q: nat :| Justified(log, q, p);
        assert Justified(log', q, p);
      }
    }
  }

  /** Facts about one conversation leave the soundness of the others alone. */
  lemma OthersExtend(s: System, f: Fact, c: string)
    requires Inv(s)
    requires f.c == c
    requires f.Spent? ==> exists t: Token :: t.serial == f.serial && Standing(s.log, c, t)
    ensures forall c' | c' in s.table && c' != c :: Sound(s.log + [f], c', s.table[c'])
    ensures RowsSound(s.log + [f], s.rows, s.saved)
  {
    forall c' | c' in s.table && c' != c
      ensures Sound(s.log + [f], c', s.table[c'])
    {
      OtherExtends(s, f, c, c', s.table[c']);
    }
    forall c' | c' in s.rows
      ensures (s.log + [f])[..s.saved[c']] == s.log[..s.saved[c']]
    {
    }
  }

  lemma OtherExtends(s: System, f: Fact, c: string, c': string, tokens: seq<Token>)
    requires Inv(s) && f.c == c && c' != c
    requires f.Spent? ==> exists t: Token :: t.serial == f.serial && Standing(s.log, c, t)
    requires Sound(s.log, c', tokens)
    ensures Sound(s.log + [f], c', tokens)
  {
    forall t | t in tokens && Owned(t)
      ensures !Ends(f, t.serial, c', t.owner.value, t.tool)
    {
      if f.Spent? && f.serial == t.serial {
        var x: Token :| x.serial == f.serial && Standing(s.log, c, x);
        OneGrant(s.log, s.registrations, s.clock, c, x, c', t);
      }
    }
    SoundExtends(s.log, f, c', tokens);
  }

  lemma CleanArgsWellFormed(rules: Rules, args: Json)
    requires args.Obj? && WellFormed(args)
    ensures WellFormed(CleanArgs(rules, args))
  {
    var p := (e: Entry) => !rules.internalKey(e.key);
    var differ := (a: Entry, b: Entry) => a.key != b.key;
    FilterPairwise(p, differ, args.entries);
    FilterMembers(p, args.entries);
    var clean := Filter(p, args.entries);
    forall i, j | 0 <= i < j < |clean|
      ensures clean[i].key != clean[j].key
    {
      assert differ(clean[i], clean[j]);
    }
  }

  /** The token a resolution consumes is live, owned, stands, and matches the call. */
  lemma UsedToken(rules: Rules, s: System, c: string, owner: string, tool: string, args: Json, request: string,
                  now: int)
    requires Inv(s) && args.Obj? && WellFormed(args)
    requires Resolve(rules, s.table, c, owner, tool, args, request, now).used.Some?
    ensures var t := Resolve(rules, s.table, c, owner, tool, args, request, now).used.value;
            && t in LiveOf(s.table, c, now) && t.expiresAt > now && Standing(s.log, c, t)
            && owner != "" && t.owner == Some(owner) && t.tool == tool
            && t.args.Some? && ExactArgsMatch(rules.keyOrder, t.args.value, args)
  {
    hide ExactArgsMatch;
    var live := LiveOf(s.table, c, now);
    var tokens := Filter(Owned, live);
    var exact := ExactCandidates(rules, tokens, owner, tool, args, request);
    SoundLive(s, c, now);
    FilterMembers((t: Token) => t.expiresAt > now, if c in s.table then s.table[c] else []);
    FilterMembers(Owned, live);
    CandidatesFromTokens(rules, tokens, request);
    FilterMembers((t: Token) => Matches(rules, owner, tool, args, t), Candidates(rules, tokens, request));
    assert exact[0] in exact;
  }

  lemma CandidatesFromTokens(rules: Rules, tokens: seq<Token>, request: string)
    ensures forall t | t in Candidates(rules, tokens, request) :: t in tokens
    ensures Pairwise(DifferentAction, tokens) ==> Pairwise(DifferentAction, Candidates(rules, tokens, request))
  {
    match rules.exactText(request)
    case None =>
    case Some(text) =>
      var p := (t: Token) => HasText(t, text);
      FilterMembers(p, tokens);
      if Pairwise(DifferentAction, tokens) {
        FilterPairwise(p, DifferentAction, tokens);
      }
  }

  /** Consuming a token is a justified use. */
  lemma SpentIsJustified(s: System, c: string, t: Token, owner: string, tool: string, args: Json, now: int,
                         leq: KeyOrder)
    requires Inv(s) && s.clock <= now && WellFormed(args)
    requires Standing(s.log, c, t) && t.expiresAt > now && owner != "" && t.owner == Some(owner) && t.tool == tool
    requires t.args.Some? && ExactArgsMatch(leq, t.args.value, args)
    ensures exists q: nat :: Justified(s.log + [Spent(t.serial, c, owner, tool, args, now)], q, |s.log|)
  {
    var f := Spent(t.serial, c, owner, tool, args, now);
    var q: nat :| GrantedAt(s.log, q, c, t) && NotEnded(s.log, q, |s.log|, t.serial, c, t.owner.value, t.tool);
    TextDeterminesMeaning(leq, leq, t.args.value, args);
    hide Meaning;
    assert NotEnded(s.log + [f], q, |s.log|, t.serial, c, owner, tool);
    assert Justified(s.log + [f], q, |s.log|);
  }

  /** What is left of a conversation after a use still stands. */
  lemma RestStands(s: System, c: string, live: seq<Token>, x: Token, f: Fact)
    requires Inv(s) && Sound(s.log, c, live) && x in live && Owned(x)
    requires f.Spent? && f.serial == x.serial && f.c == c
    ensures Sound(s.log + [f], c, Filter((t: Token) => t != x, live))
  {
    var p := (t: Token) => t != x;
    var others := Filter(p, live);
    SoundFilter(s.log, c, p, live);
    FilterMembers(p, live);
    forall t | t in others && Owned(t)
      ensures !Ends(f, t.serial, c, t.owner.value, t.tool)
    {
      var i :| 0 <= i < |live| && live[i] == t;
      var j :| 0 <= j < |live| && live[j] == x;
      assert DifferentAction(live[i], live[j]) || DifferentAction(live[j], live[i]);
      if t.serial == x.serial {
        OneGrant(s.log, s.registrations, s.clock, c, t, c, x);
      }
    }
    SoundExtends(s.log, f, c, others);
  }

  lemma UseStep(rules: Rules, s: System, e: Event, now: int)
    requires e.Call? && Enabled(s, e, now)
    requires Guard(rules, s.table, s.registrations, e.tool, e.request, e.ctx, now).used.Some?
    ensures e.ctx.connectedMcp && HasConversation(e.ctx)
    ensures var c, op := e.ctx.conversationId.value, ProposedOperation(e.tool, e.ctx);
            var r := Resolve(rules, s.table, c, OwnerOf(e.ctx), op.toolId, op.input, e.request, now);
            && r.used.Some?
            && Step(rules, s, e, now) == System(
                 s.table[c := Filter((t: Token) => t != r.used.value, LiveOf(s.table, c, now))],
                 s.registrations, s.rows, s.saved,
                 s.log + [Spent(r.used.value.serial, c, OwnerOf(e.ctx), op.toolId, op.input, now)], now)
  {
  }

  lemma CallKeepsUse(rules: Rules, s: System, e: Event, now: int)
    requires Inv(s) && e.Call? && Enabled(s, e, now)
    requires Guard(rules, s.table, s.registrations, e.tool, e.request, e.ctx, now).used.Some?
    ensures Inv(Step(rules, s, e, now))
  {
    var c, op := e.ctx.conversationId.value, ProposedOperation(e.tool, e.ctx);
    var owner := OwnerOf(e.ctx);
    var t := Resolve(rules, s.table, c, owner, op.toolId, op.input, e.request, now).used.value;
    var f := Spent(t.serial, c, owner, op.toolId, op.input, now);
    UsedToken(rules, s, c, owner, op.toolId, op.input, e.request, now);
    UseStep(rules, s, e, now);
    hide *;
    SpentIsJustified(s, c, t, owner, op.toolId, op.input, now, rules.keyOrder);
    UseKeeps(s, c, t, f, now);
  }

  lemma UseKeeps(s: System, c: string, t: Token, f: Fact, now: int)
    requires Inv(s) && s.clock <= now && Owned(t) && Standing(s.log, c, t) && t in LiveOf(s.table, c, now)
    requires f.Spent? && f.c == c && f.serial == t.serial && exists q: nat :: Justified(s.log + [f], q, |s.log|)
    ensures Inv(System(s.table[c := Filter((x: Token) => x != t, LiveOf(s.table, c, now))],
                       s.registrations, s.rows, s.saved, s.log + [f], now))
  {
    SafeExtends(s.log, f);
    GrantsExtend(s.log, f, s.registrations, s.registrations, s.clock, now);
    OthersExtend(s, f, c);
    SoundLive(s, c, now);
    RestStands(s, c, LiveOf(s.table, c, now), t, f);
  }

  lemma CallKeepsGrant(rules: Rules, s: System, e: Event, now: int)
    requires Inv(s) && e.Call? && Enabled(s, e, now)
    requires Guard(rules, s.table, s.registrations, e.tool, e.request, e.ctx, now).registrations > s.registrations
    ensures Inv(Step(rules, s, e, now))
  {
    var c, op := e.ctx.conversationId.value, ProposedOperation(e.tool, e.ctx);
    hide Inv, WithGrant;
    WithGrantKeeps(rules, s, c, OwnerOf(e.ctx), op.toolId, op.input, now);
  }

  lemma WithGrantKeeps(rules: Rules, s: System, c: string, owner: string, tool: string, args: Json, now: int)
    requires Inv(s) && s.clock <= now && args.Obj? && WellFormed(args)
    ensures Inv(WithGrant(rules, s, c, owner, tool, args, now))
  {
    var token := StandingToken(rules, s.registrations, owner, tool, args, now);
    var f := Granted(s.registrations, c, owner, tool, CleanArgs(rules, args), now);
    CleanArgsWellFormed(rules, args);
    hide CleanArgs, WellFormed, Sound, SafeLog, GrantsInOrder, LiveOf;
    GrantKeeps(s, c, token, f, now);
  }

  lemma GrantKeeps(s: System, c: string, token: Token, f: Fact, now: int)
    requires Inv(s) && s.clock <= now
    requires token.owner.Some? && token.args.Some? && token.args.value.Obj? && WellFormed(token.args.value)
    requires token.serial == s.registrations && token.expiresAt == now + TOKEN_TTL_MS
    requires f == Granted(token.serial, c, token.owner.value, token.tool, token.args.value, now)
    ensures Inv(System(Registered(s.table, c, token, now), s.registrations + 1, s.rows, s.saved, s.log + [f], now))
  {
    hide WellFormed;
    SafeExtends(s.log, f);
    GrantsExtend(s.log, f, s.registrations, s.registrations + 1, s.clock, now);
    OthersExtend(s, f, c);
    SoundLive(s, c, now);
    var p := (t: Token) => t.owner != token.owner || t.tool != token.tool;
    var live := LiveOf(s.table, c, now);
    SoundFilter(s.log, c, p, live);
    FilterMembers(p, live);
    hide GrantsInOrder, SafeLog;
    SoundExtends(s.log, f, c, Filter(p, live));
    assert GrantedAt(s.log + [f], |s.log|, c, token);
    assert NotEnded(s.log + [f], |s.log|, |s.log| + 1, token.serial, c, token.owner.value, token.tool);
    assert Standing(s.log + [f], c, token);
    SoundPlus(s.log + [f], c, Filter(p, live), token);
  }

  lemma SoundPlus(log: seq<Fact>, c: string, tokens: seq<Token>, t: Token)
    requires Sound(log, c, tokens) && Standing(log, c, t) && forall x | x in tokens :: DifferentAction(x, t)
    ensures Sound(log, c, tokens + [t])
  {
    hide Standing;
  }

  lemma CallKeeps(rules: Rules, s: System, e: Event, now: int)
    requires Inv(s) && e.Call? && Enabled(s, e, now)
    ensures Inv(Step(rules, s, e, now))
  {
    var g := Guard(rules, s.table, s.registrations, e.tool, e.request, e.ctx, now);
    if g.used.Some? {
      CallKeepsUse(rules, s, e, now);
    } else if g.registrations > s.registrations {
      CallKeepsGrant(rules, s, e, now);
    } else if e.ctx.connectedMcp && rules.affirmative(e.request) && HasConversation(e.ctx) {
      SoundLive(s, e.ctx.conversationId.value, now);
    }
  }

  lemma ClearKeeps(rules: Rules, s: System, e: Event, now: int)
    requires Inv(s) && Enabled(s, e, now) && (e.Cancel? || e.Consume? || e.Legacy? || e.Outbound?)
    ensures Inv(Step(rules, s, e, now))
  {
    var f := Cleared(e.c);
    SafeExtends(s.log, f);
    GrantsExtend(s.log, f, s.registrations, s.registrations, s.clock, now);
    GrantsExtend(s.log, f, s.registrations, s.registrations + 1, s.clock, now);
    OthersExtend(s, f, e.c);
  }

  lemma StepKeeps(rules: Rules, s: System, e: Event, now: int)
    requires Inv(s) && Enabled(s, e, now)
    ensures Inv(Step(rules, s, e, now))
  {
    match e
    case Call(_, _, _) => CallKeeps(rules, s, e, now);
    case Held(c, owner, tool, args, result) =>
      hide WithGrant;
      WithGrantKeeps(rules, s, c, owner, tool, args, now);
    case Save(c) =>
      hide Sound;
      SoundLive(s, c, now);
      assert s.log[..|s.log|] == s.log;
    case Load(c) =>
      hide Sound, Intact;
      IntactIsSound(s, c, now);
    case Restart =>
    case _ => ClearKeeps(rules, s, e, now);
  }

  /** The live tokens of an intact row still stand. */
  lemma IntactIsSound(s: System, c: string, now: int)
    requires Inv(s) && Intact(s, c, now)
    ensures Sound(s.log, c, Live(RowOf(s, c), now))
  {
    var p := (t: Token) => t.expiresAt > now;
    var row, live, n := RowOf(s, c), Live(RowOf(s, c), now), SavedAt(s, c);
    if c in s.rows {
      SoundFilter(s.log[..n], c, p, row);
      forall t | t in live && Owned(t)
        ensures Standing(s.log, c, t)
      {
        assert Standing(s.log[..n], c, t);
        var q: nat :| GrantedAt(s.log[..n], q, c, t) && NotEnded(s.log[..n], q, n, t.serial, c, t.owner.value, t.tool);
        assert GrantedAt(s.log, q, c, t);
        forall r | q < r < |s.log|
          ensures !Ends(s.log[r], t.serial, c, t.owner.value, t.tool)
        {
          if r < n { assert s.log[..n][r] == s.log[r]; }
        }
        assert NotEnded(s.log, q, |s.log|, t.serial, c, t.owner.value, t.tool);
      }
    }
  }

  lemma {:induction false} RunKeeps(rules: Rules, run: seq<Timed>)
    requires ValidRun(rules, run)
    ensures Inv(After(rules, run))
  {
    if run != [] {
      var before := run[..|run| - 1];
      RunKeeps(rules, before);
      StepKeeps(rules, After(rules, before), run[|run| - 1].event, run[|run| - 1].at);
    }
  }

  // ---------------------------------------------------------------- main results

  /** On every run each use is justified, and no registration is used twice. */
  lemma UsesAreJustifiedAndSingle(rules: Rules, run: seq<Timed>)
    requires ValidRun(rules, run)
    ensures SafeLog(After(rules, run).log)
    ensures var log := After(rules, run).log;
            forall p, r :: 0 <= p < r < |log| && log[p].Spent? && log[r].Spent? ==> log[p].serial != log[r].serial
  {
    RunKeeps(rules, run);
    var s := After(rules, run);
    var log := s.log;
    forall p, r | 0 <= p < r < |log| && log[p].Spent? && log[r].Spent?
      ensures log[p].serial != log[r].serial
    {
      var a: nat :| Justified(log, a, p);
      var b: nat :| Justified(log, b, r);
      if log[p].serial == log[r].serial {
        assert a == b;
        assert Ends(log[p], log[r].serial, log[r].c, log[r].owner, log[r].tool);
        assert false;
      }
    }
  }

  /** No two live tokens match one call, so the guard never asks which one was meant. */
  lemma NeverAmbiguous(rules: Rules, s: System, tool: string, request: string, ctx: Context, now: int)
    requires Inv(s) && WellFormedCall(tool, ctx)
    ensures Guard(rules, s.table, s.registrations, tool, request, ctx, now).verdict != BlockedAmbiguous
  {
    if ctx.connectedMcp && rules.affirmative(request) && HasConversation(ctx) {
      var c, op, owner := ctx.conversationId.value, ProposedOperation(tool, ctx), OwnerOf(ctx);
      var live := LiveOf(s.table, c, now);
      var tokens := Filter(Owned, live);
      SoundLive(s, c, now);
      SoundFilter(s.log, c, Owned, live);
      CandidatesFromTokens(rules, tokens, request);
      AtMostOneExact(rules, Candidates(rules, tokens, request), owner, op.toolId, op.input);
    }
  }

  lemma {:induction false} AtMostOneExact(rules: Rules, tokens: seq<Token>, owner: string, tool: string, args: Json)
    requires Pairwise(DifferentAction, tokens)
    ensures |Filter((t: Token) => Matches(rules, owner, tool, args, t), tokens)| <= 1
  {
    hide ExactArgsMatch;
    if tokens != [] {
      AtMostOneExact(rules, tokens[1..], owner, tool, args);
      var p := (t: Token) => Matches(rules, owner, tool, args, t);
      if p(tokens[0]) {
        forall t | t in tokens[1..]
          ensures !p(t)
        {
          assert DifferentAction(tokens[0], t);
        }
        FilterNone(p, tokens[1..]);
      }
    }
  }

  /** The one profile, and the hints, with which a call runs without approval. */
  predicate RunsUnapproved(ctx: Context) {
    && ctx.trustedProfile == Some(Profile(Private, OwnTenant, NoMoney, true))
    && ctx.annotations.Some? && ctx.annotations.value.readOnlyHint.Some?
    && ctx.annotations.value.destructiveHint == Some(false) && ctx.annotations.value.openWorldHint == Some(false)
  }

  lemma KnownHint(hint: Option<bool>)
    ensures hint == None || hint == Some(true) || hint == Some(false)
  {
    if hint.Some? && hint.value { assert hint == Some(true); }
    if hint.Some? && !hint.value { assert hint == Some(false); }
  }

  lemma ExecutedIs(ctx: Context)
    ensures AuthorizeTurnPlanOperation(ctx.annotations, ctx.trustedProfile) == Execute <==> RunsUnapproved(ctx)
  {
    if ctx.annotations.Some? {
      KnownHint(ctx.annotations.value.destructiveHint);
      KnownHint(ctx.annotations.value.openWorldHint);
    }
    if ctx.trustedProfile.Some? {
      var p := ctx.trustedProfile.value;
      assert p == Profile(p.exposure, p.tenantScope, p.financialScope, p.trustMcpAnnotations);
      assert p.financialScope.NoMoney? || p.financialScope.Financial? || p.financialScope.UnknownFinancial?;
    }
  }

  /**
   A connected call passes only with a trusted, private, own-tenant profile without money and with
   harmless hints, or by consuming a registration: the run then ends with a use that an earlier
   grant justifies.
   */
  lemma PassOnlyByConsuming(rules: Rules, run: seq<Timed>)
    requires run != [] && ValidRun(rules, run)
    requires run[|run| - 1].event.Call?
    ensures var call := run[|run| - 1].event;
            var before := After(rules, run[..|run| - 1]);
            var at := run[|run| - 1].at;
            var g := Guard(rules, before.table, before.registrations, call.tool, call.request, call.ctx, at);
            && g.verdict != BlockedAmbiguous
            && (g.verdict == Passed && call.ctx.connectedMcp && !RunsUnapproved(call.ctx) ==>
                  var log := After(rules, run).log;
                  var op := ProposedOperation(call.tool, call.ctx);
                  && g.used.Some? && HasConversation(call.ctx)
                  && log == before.log + [Spent(g.used.value.serial, call.ctx.conversationId.value, OwnerOf(call.ctx),
                                                op.toolId, op.input, run[|run| - 1].at)]
                  && exists q: nat :: Justified(log, q, |before.log|))
  {
    RunKeeps(rules, run[..|run| - 1]);
    UsesAreJustifiedAndSingle(rules, run);
    PassStep(rules, After(rules, run[..|run| - 1]), run[|run| - 1].event, run[|run| - 1].at);
  }

  lemma PassStep(rules: Rules, s: System, e: Event, now: int)
    requires Inv(s) && e.Call? && Enabled(s, e, now)
    ensures var g := Guard(rules, s.table, s.registrations, e.tool, e.request, e.ctx, now);
            && g.verdict != BlockedAmbiguous
            && (g.verdict == Passed && e.ctx.connectedMcp && !RunsUnapproved(e.ctx) ==>
                  var log := Step(rules, s, e, now).log;
                  var op := ProposedOperation(e.tool, e.ctx);
                  && g.used.Some? && HasConversation(e.ctx)
                  && log == s.log + [Spent(g.used.value.serial, e.ctx.conversationId.value, OwnerOf(e.ctx),
                                           op.toolId, op.input, now)]
                  && exists q: nat :: Justified(log, q, |s.log|))
  {
    NeverAmbiguous(rules, s, e.tool, e.request, e.ctx, now);
    if HasConversation(e.ctx) { ResolutionNamesToken(rules, s.table, e, now); }
    CallKeeps(rules, s, e, now);
    ExecutedIs(e.ctx);
    hide AuthorizeTurnPlanOperation, RunsUnapproved, Resolve, Registered, Registrable, StandingToken;
    hide Justified, GrantsInOrder, Sound;
    if Guard(rules, s.table, s.registrations, e.tool, e.request, e.ctx, now).used.Some? {
      assert Step(rules, s, e, now).log[|s.log|].Spent?;
    }
  }

  lemma ResolutionNamesToken(rules: Rules, m: Table, call: Event, now: int)
    requires call.Call? && WellFormedCall(call.tool, call.ctx) && HasConversation(call.ctx)
    ensures var op := ProposedOperation(call.tool, call.ctx);
            var c, owner := call.ctx.conversationId.value, OwnerOf(call.ctx);
            var r := Resolve(rules, m, c, owner, op.toolId, op.input, call.request, now);
            r.resolution == Allowed <==> r.used.Some?
  {
  }

  // ---------------------------------------------------------------- loading a row

  /** The call that restates a held operation on its own connection. */
  function Restated(t: Token, c: string): Context
    requires t.args.Some?
  {
    Context(true, Some(Operation(t.tool, t.args.value)), Some(c), None, t.owner, None, None)
  }

  /** The request quotes no exact text, or one that the token's arguments hold. */
  predicate Selects(rules: Rules, request: string, t: Token) {
    rules.exactText(request).Some? ==> HasText(t, rules.exactText(request).value)
  }

  /** A live owned token is consumed by the call that restates it, exactly when the request selects it. */
  lemma OnlyMatchIsUsed(rules: Rules, m: Table, c: string, t: Token, request: string, now: int)
    requires Owned(t) && t in LiveOf(m, c, now)
    requires Pairwise(DifferentAction, LiveOf(m, c, now))
    ensures var r := Resolve(rules, m, c, t.owner.value, t.tool, t.args.value, request, now);
            if Selects(rules, request, t) then r.resolution == Allowed && r.used == Some(t)
            else r.resolution == Mismatch
  {
    hide ExactArgsMatch, Live, HasText;
    var live := LiveOf(m, c, now);
    FilterMembers(Owned, live);
    FilterPairwise(Owned, DifferentAction, live);
    var tokens := Filter(Owned, live);
    var candidates := Candidates(rules, tokens, request);
    CandidatesFromTokens(rules, tokens, request);
    CandidatesAre(rules, tokens, request, t);
    AtMostOneExact(rules, candidates, t.owner.value, t.tool, t.args.value);
    MatchesItself(rules.keyOrder, t.args.value);
    var p := (x: Token) => Matches(rules, t.owner.value, t.tool, t.args.value, x);
    FilterMembers(p, candidates);
    if Selects(rules, request, t) {
      assert t in ExactCandidates(rules, tokens, t.owner.value, t.tool, t.args.value, request);
    } else {
      OnlyOfItsAction(tokens, t);
      FilterNone(p, candidates);
    }
  }

  lemma CandidatesAre(rules: Rules, tokens: seq<Token>, request: string, t: Token)
    requires t in tokens
    ensures t in Candidates(rules, tokens, request) <==> Selects(rules, request, t)
  {
    hide HasText;
    if rules.exactText(request).Some? {
      FilterMembers((x: Token) => HasText(x, rules.exactText(request).value), tokens);
    }
  }

  lemma OnlyOfItsAction(tokens: seq<Token>, t: Token)
    requires Pairwise(DifferentAction, tokens) && t in tokens && t.owner.Some?
    ensures forall x | x in tokens && x.owner == t.owner && x.tool == t.tool :: x == t
  {
    var j :| 0 <= j < |tokens| && tokens[j] == t;
    forall x | x in tokens && x.owner == t.owner && x.tool == t.tool
      ensures x == t
    {
      var i :| 0 <= i < |tokens| && tokens[i] == x;
      assert i < j ==> DifferentAction(tokens[i], tokens[j]);
      assert j < i ==> DifferentAction(tokens[j], tokens[i]);
    }
  }

  lemma MatchesItself(leq: KeyOrder, v: Json)
    ensures ExactArgsMatch(leq, v, v)
  {
  }

  /** Every live token of a loaded row lets its call through, also one that was ended after the row was saved. */
  lemma LoadedRowPasses(rules: Rules, s: System, c: string, t: Token, request: string, now: int)
    requires c != "" && rules.affirmative(request) && Selects(rules, request, t)
    requires t in RowOf(s, c) && Owned(t) && t.expiresAt > now && t.args.value.Obj? && WellFormed(t.args.value)
    requires Pairwise(DifferentAction, RowOf(s, c))
    ensures var loaded := Store(s.table, c, Live(RowOf(s, c), now));
            var g := Guard(rules, loaded, s.registrations, t.tool, request, Restated(t, c), now);
            g.verdict == Passed && g.used == Some(t)
  {
    var row := RowOf(s, c);
    var p := (x: Token) => x.expiresAt > now;
    FilterMembers(p, row);
    FilterPairwise(p, DifferentAction, row);
    FilterTwice(p, row);
    var loaded := Store(s.table, c, Live(row, now));
    assert LiveOf(loaded, c, now) == Live(row, now);
    hide Live;
    OnlyMatchIsUsed(rules, loaded, c, t, request, now);
  }

  /** However the next call is made, its use is justified. */
  ghost predicate NextCallIsSafe(rules: Rules, s: System, now: int) {
    forall e: Event | e.Call? && WellFormedEvent(e) :: SafeLog(Step(rules, s, e, now).log)
  }

  /**
   Loading a row is safe exactly when nothing after it was saved has ended one of its live tokens:
   then everything the run relies on is kept, and otherwise one call is let through unjustified.
   `request` is any approval that quotes no text.
   */
  lemma LoadIsSafeExactly(rules: Rules, s: System, c: string, request: string, now: int)
    requires Inv(s) && s.clock <= now && c != ""
    requires rules.affirmative(request) && rules.exactText(request) == None
    ensures NextCallIsSafe(rules, Step(rules, s, Load(c), now), now) <==> Intact(s, c, now)
    ensures Inv(Step(rules, s, Load(c), now)) <==> Intact(s, c, now)
  {
    hide Inv, Intact, Step, SafeLog;
    var loaded := Step(rules, s, Load(c), now);
    assert loaded.clock == now by { LoadedClock(rules, s, c, now); }
    if Intact(s, c, now) { StepKeeps(rules, s, Load(c), now); }
    if Inv(loaded) { SoundIsSafe(rules, loaded, now); }
    if !Intact(s, c, now) {
      var e := BrokenRowIsUnsafe(rules, s, c, request, now);
      assert !SafeLog(Step(rules, loaded, e, now).log);
    }
  }

  lemma LoadedClock(rules: Rules, s: System, c: string, now: int)
    ensures Step(rules, s, Load(c), now).clock == now
  {
  }

  lemma SoundIsSafe(rules: Rules, s: System, now: int)
    requires Inv(s) && s.clock <= now
    ensures NextCallIsSafe(rules, s, now)
  {
    hide Inv, SafeLog, Step;
    forall e: Event | e.Call? && WellFormedEvent(e)
      ensures SafeLog(Step(rules, s, e, now).log)
    {
      StepKeeps(rules, s, e, now);
      InvIsSafe(Step(rules, s, e, now));
    }
  }

  lemma InvIsSafe(s: System)
    requires Inv(s)
    ensures SafeLog(s.log)
  {
  }

  /** A row with an ended live token: the call that restates the token is let through. */
  lemma BrokenRowIsUnsafe(rules: Rules, s: System, c: string, request: string, now: int) returns (e: Event)
    requires Inv(s) && c != "" && !Intact(s, c, now)
    requires rules.affirmative(request) && rules.exactText(request) == None
    ensures e.Call? && WellFormedEvent(e)
    ensures !SafeLog(Step(rules, Step(rules, s, Load(c), now), e, now).log)
  {
    var t, q, r := EndedToken(s, c, now);
    hide Guard, Live, Ends, SafeLog, Inv, Intact;
    e := Call(t.tool, request, Restated(t, c));
    LoadedRowPasses(rules, s, c, t, request, now);
    var f := Spent(t.serial, c, t.owner.value, t.tool, t.args.value, now);
    UsedIsLogged(rules, Step(rules, s, Load(c), now), c, t, request, now);
    hide WellFormedEvent, Step;
    EndedIsUnjustified(s, f, q, r);
  }

  lemma UsedIsLogged(rules: Rules, s: System, c: string, t: Token, request: string, now: int)
    requires Owned(t) && t.args.value.Obj? && WellFormed(t.args.value)
    requires Guard(rules, s.table, s.registrations, t.tool, request, Restated(t, c), now).used == Some(t)
    ensures var next := Step(rules, s, Call(t.tool, request, Restated(t, c)), now);
            && next.log == s.log + [Spent(t.serial, c, t.owner.value, t.tool, t.args.value, now)]
            && next.rows == s.rows && next.saved == s.saved
  {
    hide Guard;
  }

  /** A live token of a row, where it was granted, and where it was ended. */
  lemma EndedToken(s: System, c: string, now: int) returns (t: Token, q: nat, r: nat)
    requires Inv(s) && !Intact(s, c, now)
    ensures t in RowOf(s, c) && Owned(t) && t.expiresAt > now && t.args.value.Obj? && WellFormed(t.args.value)
    ensures Pairwise(DifferentAction, RowOf(s, c))
    ensures q < r < |s.log| && s.log[q].Granted? && s.log[q].serial == t.serial
    ensures Ends(s.log[r], t.serial, c, t.owner.value, t.tool)
  {
    hide Ends, WellFormed, SafeLog;
    t, r :| t in Live(RowOf(s, c), now) && Owned(t) && SavedAt(s, c) <= r < |s.log|
            && Ends(s.log[r], t.serial, c, t.owner.value, t.tool);
    var n := SavedAt(s, c);
    FilterMembers((x: Token) => x.expiresAt > now, RowOf(s, c));
    assert Sound(s.log[..n], c, RowOf(s, c)) && Standing(s.log[..n], c, t);
    q :| GrantedAt(s.log[..n], q, c, t);
    assert s.log[q] == s.log[..n][q];
  }

  lemma EndedIsUnjustified(s: System, f: Fact, q: nat, r: nat)
    requires Inv(s) && f.Spent? && q < r < |s.log|
    requires s.log[q].Granted? && s.log[q].serial == f.serial
    requires Ends(s.log[r], f.serial, f.c, f.owner, f.tool)
    ensures !SafeLog(s.log + [f])
  {
    var log := s.log + [f];
    forall k: nat
      ensures !Justified(log, k, |s.log|)
    {
      if k < |s.log| && log[k].Granted? && log[k].serial == f.serial { assert k == q; }
      assert log[r] == s.log[r];
    }
    assert log[|s.log|].Spent?;
  }

  // ---------------------------------------------------------------- a run that loads an old row

  const ELEVATED := Annotations(Some(false), Some(true), Some(false))
  const TRUSTED := Profile(Private, OwnTenant, NoMoney, true)

  lemma AfterMore(rules: Rules, run: seq<Timed>, e: Event)
    requires Possible(run) && WellFormedEvent(e) && (run == [] || run[|run| - 1].at == 0)
    ensures Possible(run + [Timed(e, 0)])
    ensures After(rules, run + [Timed(e, 0)]) == Step(rules, After(rules, run), e, 0)
  {
    assert (run + [Timed(e, 0)])[..|run|] == run;
  }

  lemma LiveOne(t: Token, now: int)
    requires t.expiresAt > now
    ensures Live([t], now) == [t]
  {
    var p := (x: Token) => x.expiresAt > now;
    assert [t][1..] == [] && Filter(p, []) == [];
  }

  /** Five events at one moment. */
  lemma RunOfFive(rules: Rules, a: Event, b: Event, c: Event, d: Event, e: Event) returns (run: seq<Timed>)
    requires WellFormedEvent(a) && WellFormedEvent(b) && WellFormedEvent(c) && WellFormedEvent(d) && WellFormedEvent(e)
    ensures Possible(run)
    ensures After(rules, run) ==
            Step(rules, Step(rules, Step(rules, Step(rules, Step(rules, INITIAL, a, 0), b, 0), c, 0), d, 0), e, 0)
  {
    hide Step, WellFormedEvent;
    assert Possible([]) && After(rules, []) == INITIAL;
    hide After, Possible;
    AfterMore(rules, [], a);
    var one := [] + [Timed(a, 0)];
    AfterMore(rules, one, b);
    var two := one + [Timed(b, 0)];
    AfterMore(rules, two, c);
    var three := two + [Timed(c, 0)];
    AfterMore(rules, three, d);
    var four := three + [Timed(d, 0)];
    AfterMore(rules, four, e);
    run := four + [Timed(e, 0)];
  }

  /** The only token of its conversation is spent by the call that restates it. */
  lemma OnlyTokenIsSpent(rules: Rules, s: System, c: string, t: Token, request: string, now: int)
    requires c != "" && rules.affirmative(request) && rules.exactText(request) == None
    requires c in s.table && s.table[c] == [t] && t.expiresAt > now
    requires Owned(t) && t.args.value.Obj? && WellFormed(t.args.value)
    ensures var next := Step(rules, s, Call(t.tool, request, Restated(t, c)), now);
            && next.log == s.log + [Spent(t.serial, c, t.owner.value, t.tool, t.args.value, now)]
            && next.rows == s.rows && next.saved == s.saved
  {
    LiveOne(t, now);
    hide LiveOf, WellFormed, Resolve;
    OnlyMatchIsUsed(rules, s.table, c, t, request, now);
    UsedIsLogged(rules, s, c, t, request, now);
  }

  /**
   An operation is held and its row saved; it is approved and runs; then the old row is loaded, as
   happens when the turn fails before it saves, and the same approval lets the operation run again.
   */
  lemma OldRowIsSpentTwice(rules: Rules, c: string, owner: string, tool: string, args: Json, hold: string,
                           approve: string)
    returns (run: seq<Timed>)
    requires c != "" && owner != "" && args.Obj? && WellFormed(args) && Registrable(rules, args, HOLD_RESULT)
    requires !rules.affirmative(hold) && rules.affirmative(approve) && rules.exactText(approve) == None
    ensures Possible(run)
    ensures var log := After(rules, run).log;
            |log| == 3 && log[0].Granted? && log[1].Spent? && log[2].Spent?
            && log[0].serial == log[1].serial == log[2].serial && !SafeLog(log)
  {
    var ctx := Context(true, Some(Operation(tool, args)), Some(c), None, Some(owner), Some(ELEVATED), Some(TRUSTED));
    var t := StandingToken(rules, 0, owner, tool, args, 0);
    var first, again := Call(tool, hold, ctx), Call(tool, approve, Restated(t, c));
    CleanArgsWellFormed(rules, args);
    hide WellFormed, Registrable, SafeLog, CleanArgs;
    run := RunOfFive(rules, first, Save(c), again, Load(c), again);
    hide Step, After, Possible;
    HoldGrants(rules, c, owner, tool, args, hold, ctx);
    SavedSpentTwice(rules, Step(rules, INITIAL, first, 0), c, t, approve);
    SpentTwiceIsUnsafe(After(rules, run).log);
  }

  /** What follows when the only token of a conversation is saved, spent, loaded and spent again. */
  lemma SavedSpentTwice(rules: Rules, s: System, c: string, t: Token, request: string)
    requires c != "" && rules.affirmative(request) && rules.exactText(request) == None
    requires c in s.table && s.table[c] == [t] && t.expiresAt > 0
    requires Owned(t) && t.args.value.Obj? && WellFormed(t.args.value)
    ensures var again := Call(t.tool, request, Restated(t, c));
            var spent := Step(rules, Step(rules, s, Save(c), 0), again, 0);
            var last := Step(rules, Step(rules, spent, Load(c), 0), again, 0);
            var f := Spent(t.serial, c, t.owner.value, t.tool, t.args.value, 0);
            last.log == s.log + [f] + [f]
  {
    hide Step, WellFormed;
    var again := Call(t.tool, request, Restated(t, c));
    assert WellFormedEvent(again);
    hide WellFormedEvent;
    var saved := Step(rules, s, Save(c), 0);
    SaveKeepsOnly(rules, s, c, t);
    var spent := Step(rules, saved, again, 0);
    OnlyTokenIsSpent(rules, saved, c, t, request, 0);
    var loaded := Step(rules, spent, Load(c), 0);
    LoadBringsBack(rules, spent, c, t);
    OnlyTokenIsSpent(rules, loaded, c, t, request, 0);
  }

  lemma HoldGrants(rules: Rules, c: string, owner: string, tool: string, args: Json, hold: string, ctx: Context)
    requires c != "" && args.Obj? && WellFormed(args) && Registrable(rules, args, HOLD_RESULT)
      && !rules.affirmative(hold)
    requires ctx == Context(true, Some(Operation(tool, args)), Some(c), None, Some(owner), Some(ELEVATED),
      Some(TRUSTED))
    ensures var next := Step(rules, INITIAL, Call(tool, hold, ctx), 0);
            && c in next.table && next.table[c] == [StandingToken(rules, 0, owner, tool, args, 0)]
            && next.log == [Granted(0, c, owner, tool, CleanArgs(rules, args), 0)]
  {
    hide WellFormed, Registrable, StandingToken, CleanArgs;
    assert LiveOf(INITIAL.table, c, 0) == [];
  }

  lemma SaveKeepsOnly(rules: Rules, s: System, c: string, t: Token)
    requires c in s.table && s.table[c] == [t] && t.expiresAt > 0
    ensures var next := Step(rules, s, Save(c), 0);
            c in next.table && next.table[c] == [t] && c in next.rows && next.rows[c] == [t] && next.log == s.log
  {
    LiveOne(t, 0);
  }

  lemma LoadBringsBack(rules: Rules, s: System, c: string, t: Token)
    requires c in s.rows && s.rows[c] == [t] && t.expiresAt > 0
    ensures var next := Step(rules, s, Load(c), 0); c in next.table && next.table[c] == [t] && next.log == s.log
  {
    LiveOne(t, 0);
  }

  lemma SpentTwiceIsUnsafe(log: seq<Fact>)
    requires |log| == 3 && log[1].Spent? && log[2].Spent? && log[1].serial == log[2].serial
    requires log[0].Granted?
    ensures !SafeLog(log)
  {
    forall q: nat
      ensures !Justified(log, q, 2)
    {
      if q == 0 { assert Ends(log[1], log[2].serial, log[2].c, log[2].owner, log[2].tool); }
    }
  }
}

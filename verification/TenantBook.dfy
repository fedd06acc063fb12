/**
 The tenant credential store as a reader of its documentation would keep it (packages/mcp-chassis/src/index.ts,
 `createMemoryTenantStore`): one table of tokens, one of tenants, and the rule for each operation written out.
 The three maps of module TenantStore do what this book says, on every run that keeps them in agreement.
 */
module TenantBook {
  import opened Basics
  import opened Strings
  import opened TenantStore

  datatype Standing = Standing(tenant: Tenant, status: string, expiresAt: Option<int>)

  /** Whose each token is, and how each tenant stands. */
  datatype Book = Book(tokens: Table, tenants: map<string, Standing>)

  datatype Answer = Refused | Unknown | Done | Replay | Clash

  datatype Entry = Entry(book: Book, answer: Answer)

  function BookOf(st: Store): Book {
    Book(TableOf(st), map id | id in st.byTenant ::
      Standing(st.byTenant[id].tenant, st.byTenant[id].status, st.byTenant[id].expiresAt))
  }

  /** Whatever the credential is given to, it is the token's alone. */
  function Give(tokens: Table, c: Credential, h: Hash): Table {
    (map g | g in tokens && tokens[g] != c :: tokens[g])[h := c]
  }

  function HexDigit(c: char): bool { c in "0123456789abcdefABCDEF" }

  /** A token is bound where the credential has none and the token is nobody's. */
  function EnsureRule(b: Book, c: Credential, h: Hash): Entry {
    if h in b.tokens then Entry(b, if b.tokens[h] == c then Replay else Clash)
    else if c in b.tokens.Values then Entry(b, Clash)
    else Entry(b.(tokens := b.tokens[h := c]), Done)
  }

  /** The rule of each operation. */
  function Rule(b: Book, op: Op): Entry {
    match op
    case Put(h, tenant, status, expiresAt) =>
      if h in b.tokens && b.tokens[h].tenantId != tenant.id then Entry(b, Refused)
      else
        var standing := Standing(tenant, status, expiresAt);
        Entry(Book(b.tokens[h := Credential(tenant.id, None)], b.tenants[tenant.id := standing]), Done)
    case Rotate(tenantId, h) =>
      var id := JsTrim(tenantId);
      if id == "" || id !in b.tenants then Entry(b, Unknown)
      else
        var standing := b.tenants[id].(status := "active");
        Entry(Book(Give(b.tokens, Credential(id, None), h), b.tenants[id := standing]), Done)
    case ProvisionToken(tenantId, profile, h) =>
      var id, p := JsTrim(tenantId), JsTrim(profile);
      if !(1 <= |p| <= 100) then Entry(b, Refused)
      else if id == "" || id !in b.tenants then Entry(b, Unknown)
      else Entry(b.(tokens := Give(b.tokens, Credential(id, Some(p)), h)), Done)
    case Ensure(tenantId, profile, token, h) =>
      var id, p := JsTrim(tenantId), JsTrim(profile);
      var c := Credential(id, Some(p));
      if !(1 <= |p| <= 100) || !(32 <= |JsTrim(token)| <= 4096) then Entry(b, Refused)
      else if id == "" || id !in b.tenants then Entry(b, Unknown)
      else EnsureRule(b, c, h)
    case SetStatus(tenantId, status) =>
      var id := JsTrim(tenantId);
      if id == "" || id !in b.tenants then Entry(b, Unknown)
      else Entry(b.(tenants := b.tenants[id := b.tenants[id].(status := status)]), Done)
    case Preserve(tenantId, digest) =>
      var id, c, h := JsTrim(tenantId), Credential(JsTrim(tenantId), None), Lower(JsTrim(digest));
      if |h| != 64 || exists i :: 0 <= i < |h| && !HexDigit(JsTrim(digest)[i]) then Entry(b, Refused)
      else if id == "" || id !in b.tenants then Entry(b, Unknown)
      else if h in b.tokens && b.tokens[h] != c then Entry(b, Refused)
      else Entry(b.(tokens := b.tokens[h := c]), Done)
  }

  function AnswerTo<T>(r: Result<Option<T>>): Answer {
    match r
    case Err(_) => Refused
    case Ok(None) => Unknown
    case Ok(Some(_)) => Done
  }

  function EnsureAnswer(r: Result<Option<Ensured>>): Answer {
    match r
    case Ok(Some(Replayed(_))) => Replay
    case Ok(Some(Conflict(_))) => Clash
    case _ => AnswerTo(r)
  }

  /** What the store answers. */
  function Answers(st: Store, op: Op): Answer {
    match op
    case Put(h, tenant, status, expiresAt) =>
      if AfterPut(st, h, tenant, status, expiresAt).result.Ok? then Done else Refused
    case Rotate(id, h) => AnswerTo(AfterRotate(st, id, h).result)
    case ProvisionToken(id, profile, h) => AnswerTo(AfterProvisionToken(st, id, profile, h).result)
    case Ensure(id, profile, token, h) => EnsureAnswer(AfterEnsure(st, id, profile, token, h).result)
    case SetStatus(id, status) => AnswerTo(AfterSetStatus(st, id, status).result)
    case Preserve(id, digest) => AnswerTo(AfterPreserve(st, id, digest).result)
  }

  // ---------------------------------------------------------------- one operation

  predicate ByRule(st: Store, op: Op) {
    Entry(BookOf(Apply(st, op)), Answers(st, op)) == Rule(BookOf(st), op)
  }

  /** A table that differs as a gift does is the given one. */
  lemma Given(T: Table, T': Table, c: Credential, h: Hash)
    requires forall g :: g in T' && T'[g] == c <==> g == h
    requires forall g | g in T && T[g] != c :: g in T' && T'[g] == T[g]
    requires forall g | g in T' && g != h :: g in T && T[g] == T'[g]
    ensures T' == Give(T, c, h)
  {
  }

  lemma PutByRule(st: Store, h: Hash, tenant: Tenant, status: string, expiresAt: Option<int>)
    ensures ByRule(st, Put(h, tenant, status, expiresAt))
  {
    var b, after := BookOf(st), AfterPut(st, h, tenant, status, expiresAt);
    if after.result.Ok? {
      assert TableOf(after.store) == b.tokens[h := Credential(tenant.id, None)];
      assert BookOf(after.store).tenants == b.tenants[tenant.id := Standing(tenant, status, expiresAt)];
    }
  }

  lemma RotateByRule(st: Store, op: Op)
    requires Agrees(st) && op.Rotate? && Fresh(st, op)
    ensures ByRule(st, op)
  {
    var id := JsTrim(op.tenantId);
    hide JsTrim, Agrees, TableOf;
    if Existing(st, id).Some? {
      RotateEffect(st, op.tenantId, op.freshHash);
      Given(TableOf(st), TableOf(Apply(st, op)), Credential(id, None), op.freshHash);
      hide Give, WithoutUnprofiled;
      RotatedStanding(st, op.tenantId, op.freshHash);
    }
  }

  /** Rotation makes the tenant active and leaves the rest of its standing. */
  lemma RotatedStanding(st: Store, tenantId: string, h: Hash)
    requires Agrees(st) && Existing(st, JsTrim(tenantId)).Some? && h !in st.byHash
    ensures var id, st' := JsTrim(tenantId), AfterRotate(st, tenantId, h).store;
      id in BookOf(st).tenants
      && BookOf(st').tenants == BookOf(st).tenants[id := BookOf(st).tenants[id].(status := "active")]
  {
    hide JsTrim, KeysNamed, HeldAreNamed, FoundAreHeld, HashesNamed, TableOf;
  }

  lemma StatusByRule(st: Store, op: Op)
    requires Agrees(st) && op.SetStatus?
    ensures ByRule(st, op)
  {
    hide JsTrim, Agrees;
  }

  lemma DigestIs(s: string)
    ensures IsDigest(Lower(s)) <==> |s| == 64 && forall i :: 0 <= i < |s| ==> HexDigit(s[i])
  {
    assert forall i :: 0 <= i < |s| ==> Lower(s)[i] == LowerChar(s[i]);
  }

  lemma PreserveByRule(st: Store, op: Op)
    requires Agrees(st) && op.Preserve?
    ensures ByRule(st, op)
  {
    DigestIs(JsTrim(op.digest));
    PreserveEffect(st, op.tenantId, op.digest);
    TableRow(st, Lower(JsTrim(op.digest)));
    var st' := AfterPreserve(st, op.tenantId, op.digest).store;
    assert st'.byTenant == st.byTenant;
    hide JsTrim, Agrees, TableOf, IsDigest, HexDigit, Lower;
  }

  lemma ProvisionByRule(st: Store, op: Op)
    requires Agrees(st) && op.ProvisionToken? && Fresh(st, op)
    ensures ByRule(st, op)
  {
    var id, p := JsTrim(op.tenantId), JsTrim(op.profile);
    hide JsTrim, Agrees, TableOf;
    if Existing(st, id).Some? && NormalizedProfile(op.profile).Ok? {
      ProvisionTokenEffect(st, op.tenantId, op.profile, op.freshHash);
      Given(TableOf(st), TableOf(Apply(st, op)), Credential(id, Some(p)), op.freshHash);
      hide Give;
    }
  }

  lemma EnsureByRule(st: Store, op: Op)
    requires Agrees(st) && op.Ensure?
    ensures ByRule(st, op)
  {
    var id, p := JsTrim(op.tenantId), JsTrim(op.profile);
    NormalizedIs(op.profile);
    if Existing(st, id).Some? && NormalizedProfile(op.profile).Ok? && 32 <= |JsTrim(op.token)| <= 4096 {
      TrimmedIsAddressable(op.tenantId);
      NormalizedIsAccepted(op.profile);
      hide NormalizedProfile, AfterEnsure, EnsureRule, Agrees, JsTrim;
      KnownByRule(st, id, p, op.tenantId, op.profile, op.token, op.tokenHash);
    } else {
      hide JsTrim, Agrees, TableOf, ProfileKey;
    }
  }

  /** The profile is bound already, the token is, or both are free. */
  lemma KnownByRule(st: Store, id: string, p: string, tenantId: string, profile: string, token: string, h: Hash)
    requires Agrees(st) && Existing(st, id).Some? && id == JsTrim(tenantId) && Addressable(id)
    requires NormalizedProfile(profile) == Ok(p) && Accepted(p) && 32 <= |JsTrim(token)| <= 4096
    ensures var after := AfterEnsure(st, tenantId, profile, token, h);
      Entry(BookOf(after.store), EnsureAnswer(after.result)) == EnsureRule(BookOf(st), Credential(id, Some(p)), h)
  {
    var key, after := ProfileKey(id, p), AfterEnsure(st, tenantId, profile, token, h);
    TenantsStay(st, tenantId, profile, token, h);
    HeldOnce(st, id, p, h);
    hide JsTrim, NormalizedProfile, Agrees, TableOf, Addressable, Accepted, ProfileKey, Bound;
    if key in st.profileHashes || h in st.byHash {
      assert after.store == st;
    } else {
      BindNew(st, id, p, h);
      assert after.store == Bound(st, id, p, h, st.byTenant[id]);
      assert EnsureAnswer(after.result) == Done;
      hide AfterEnsure;
    }
  }

  lemma TenantsStay(st: Store, tenantId: string, profile: string, token: string, h: Hash)
    ensures BookOf(AfterEnsure(st, tenantId, profile, token, h).store).tenants == BookOf(st).tenants
  {
    hide JsTrim, NormalizedProfile, ProfileKey, TableOf;
    assert AfterEnsure(st, tenantId, profile, token, h).store.byTenant == st.byTenant;
  }

  lemma NormalizedIs(profile: string)
    ensures var p := JsTrim(profile); NormalizedProfile(profile).Ok? <==> 1 <= |p| <= 100
    ensures NormalizedProfile(profile).Ok? ==> NormalizedProfile(profile).value == JsTrim(profile)
  {
  }

  /** The profile map knows the token of a credential, and only it. */
  lemma HeldOnce(st: Store, id: string, p: string, h: Hash)
    requires Agrees(st) && Named(st.byTenant.Keys, id, p)
    ensures var T, key, c := TableOf(st), ProfileKey(id, p), Credential(id, Some(p));
      && (h in T <==> h in st.byHash)
      && (h in T && T[h] == c <==> key in st.profileHashes && st.profileHashes[key] == h)
      && (c in T.Values <==> key in st.profileHashes)
      && (key in st.profileHashes ==> st.profileHashes[key] in st.byHash)
  {
    BoundHashes(st, id, p);
    hide Agrees, Named, ProfileKey;
    var T, key, c := TableOf(st), ProfileKey(id, p), Credential(id, Some(p));
    assert forall g :: g in T && T[g] == c <==> Holds(st, id, p, g);
    if key in st.profileHashes { assert T[st.profileHashes[key]] == c; }
  }

  // ---------------------------------------------------------------- runs

  /** The book after a sequence of operations, and the answers on the way. */
  function BookAfter(b: Book, ops: seq<Op>): Book
    decreases |ops|
  {
    if ops == [] then b else BookAfter(Rule(b, ops[0]).book, ops[1..])
  }

  function RuleAnswers(b: Book, ops: seq<Op>): seq<Answer>
    decreases |ops|
  {
    if ops == [] then [] else [Rule(b, ops[0]).answer] + RuleAnswers(Rule(b, ops[0]).book, ops[1..])
  }

  function StoreAnswers(st: Store, ops: seq<Op>): seq<Answer>
    decreases |ops|
  {
    if ops == [] then [] else [Answers(st, ops[0])] + StoreAnswers(Apply(st, ops[0]), ops[1..])
  }

  lemma OpByRule(st: Store, op: Op)
    requires Agrees(st) && Fresh(st, op)
    ensures ByRule(st, op)
  {
    hide *;
    match op
    case Put(h, tenant, status, expiresAt) => PutByRule(st, h, tenant, status, expiresAt);
    case Rotate(_, _) => RotateByRule(st, op);
    case ProvisionToken(_, _, _) => ProvisionByRule(st, op);
    case Ensure(_, _, _, _) => EnsureByRule(st, op);
    case SetStatus(_, _) => StatusByRule(st, op);
    case Preserve(_, _) => PreserveByRule(st, op);
  }

  /** On every allowed run the three maps hold what the book says and give the answers it gives. */
  lemma {:induction false} RunByRules(st: Store, ops: seq<Op>)
    requires Agrees(st) && FreshRun(st, ops) && AllowedRun(st, ops)
    ensures BookOf(ApplyAll(st, ops)) == BookAfter(BookOf(st), ops)
    ensures StoreAnswers(st, ops) == RuleAnswers(BookOf(st), ops)
    decreases |ops|
  {
    hide Agrees, Apply, Fresh, Allowed, Rule, Answers, BookOf;
    if ops != [] {
      OpByRule(st, ops[0]);
      OpAgreesExactly(st, ops[0]);
      RunByRules(Apply(st, ops[0]), ops[1..]);
    }
  }

  // ---------------------------------------------------------------- what a token is good for

  /**
   A token is served just when the book has it and its tenant is active and has not expired, and then for that tenant
   and that profile.
   */
  lemma ServedExactly(st: Store, h: Hash, now: int)
    requires Agrees(st)
    ensures var b, r := BookOf(st), ResolveTokenHash(st, h);
      && (r.Some? && IsActive(r.value, now) <==>
            && h in b.tokens && b.tokens[h].tenantId in b.tenants
            && var s := b.tenants[b.tokens[h].tenantId];
               s.status == "active" && (s.expiresAt == None || s.expiresAt.value > now))
      && (r.Some? ==> h in b.tokens && r.value.tokenHash == h && r.value.profile == b.tokens[h].profile)
      && (r.Some? ==> r.value.tenant.id == b.tokens[h].tenantId)
  {
    ResolvesCurrent(st, h);
  }

  /** The record that an operation returns for a token it has just bound is what the token resolves to. */
  lemma ReturnedIsResolved(st: Store, op: Op)
    requires Agrees(st) && Fresh(st, op)
    ensures match op
      case Put(h, tenant, status, expiresAt) =>
        var after := AfterPut(st, h, tenant, status, expiresAt);
        after.result.Ok? ==>
          && after.result.value == Record(h, tenant, None, status, expiresAt)
          && ResolveTokenHash(after.store, h) == Some(after.result.value)
      case Rotate(id, h) =>
        var after := AfterRotate(st, id, h);
        after.result.Ok? && after.result.value.Some? ==> ResolveTokenHash(after.store, h) == after.result.value
      case ProvisionToken(id, profile, h) =>
        var after := AfterProvisionToken(st, id, profile, h);
        after.result.Ok? && after.result.value.Some? ==> ResolveTokenHash(after.store, h) == after.result.value
      case Ensure(id, profile, token, h) =>
        var after := AfterEnsure(st, id, profile, token, h);
        after.result.Ok? && after.result.value.Some? && after.result.value.value.Created? ==>
          ResolveTokenHash(after.store, h) == Some(after.result.value.value.record)
      case _ => true
  {
    hide JsTrim, KeysNamed, HeldAreNamed, FoundAreHeld, NormalizedProfile, ProfileKey;
  }

  // ---------------------------------------------------------------- the letters of it

  /** Lower-casing a digest. */
  lemma LowerOfDigits()
    ensures Lower("0123456789abcdefABCDEF") == "0123456789abcdefabcdef"
  {
  }
}

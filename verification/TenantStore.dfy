/**
 The in-memory tenant credential store (packages/mcp-chassis/src/index.ts, `createMemoryTenantStore`).

 `Store` is the value of the three maps; the `After…` functions say what each operation does to
 it, and the class `MemoryTenantStore` does it in place. `Agrees` is the promise that the three
 maps tell one story: a simple table of hashes, tenants and profiles.
 */
module TenantStore {
  import opened Basics
  import opened Strings

  type Hash = string

  datatype Tenant = Tenant(id: string, details: string)

  datatype Record = Record(
    tokenHash: Hash,
    tenant: Tenant,
    profile: Option<string>,
    status: string,
    expiresAt: Option<int>)

  datatype Store = Store(
    byHash: map<Hash, Record>,
    byTenant: map<string, Record>,
    profileHashes: map<string, Hash>)

  const EMPTY := Store(map[], map[], map[])

  /** One credential of the simple table. */
  datatype Credential = Credential(tenantId: string, profile: Option<string>)

  type Table = map<Hash, Credential>

  function TableOf(st: Store): Table {
    map h | h in st.byHash :: Credential(st.byHash[h].tenant.id, st.byHash[h].profile)
  }

  function JsTrim(s: string): string { Trim(JsSpace, s) }

  const NUL: char := '\0'

  function ProfileKey(id: string, profile: string): string {
    id + [NUL] + profile
  }

  // ---------------------------------------------------------------- operations on the three maps

  datatype Outcome<+T> = Outcome(store: Store, result: Result<T>)

  function AfterPut(st: Store, tokenHash: Hash, tenant: Tenant, status: string,
                    expiresAt: Option<int>): Outcome<Record>
  {
    if tokenHash in st.byHash && st.byHash[tokenHash].tenant.id != tenant.id then
      Outcome(st, Err("token is already bound to another tenant"))
    else
      var record := Record(tokenHash, tenant, None, status, expiresAt);
      Outcome(st.(byHash := st.byHash[tokenHash := record], byTenant := st.byTenant[tenant.id := record]), Ok(record))
  }

  function ResolveTokenHash(st: Store, tokenHash: Hash): Option<Record> {
    if tokenHash !in st.byHash then None
    else
      var credential := st.byHash[tokenHash];
      if credential.tenant.id !in st.byTenant then None
      else Some(st.byTenant[credential.tenant.id].(tokenHash := credential.tokenHash, profile := credential.profile))
  }

  function Existing(st: Store, id: string): Option<Record> {
    if id != "" && id in st.byTenant then Some(st.byTenant[id]) else None
  }

  predicate Unprofiled(r: Record, id: string) {
    r.tenant.id == id && r.profile == None
  }

  function WithoutUnprofiled(byHash: map<Hash, Record>, id: string): map<Hash, Record> {
    map h | h in byHash && !Unprofiled(byHash[h], id) :: byHash[h]
  }

  function AfterRotate(st: Store, tenantId: string, freshHash: Hash): Outcome<Option<Record>> {
    match Existing(st, JsTrim(tenantId))
    case None => Outcome(st, Ok(None))
    case Some(existing) =>
      var cleared := st.(byHash := WithoutUnprofiled(st.byHash, JsTrim(tenantId)));
      var put := AfterPut(cleared, freshHash, existing.tenant, "active", existing.expiresAt);
      match put.result
      case Ok(record) => Outcome(put.store, Ok(Some(record)))
      case Err(message) => Outcome(put.store, Err(message))
  }

  function NormalizedProfile(profile: string): Result<string> {
    var p := JsTrim(profile);
    if p == "" then Err("credential profile must be non-empty")
    else if |p| > 100 then Err("credential profile must be at most 100 characters")
    else Ok(p)
  }

  function ProfileRecord(existing: Record, tokenHash: Hash, profile: string): Record {
    existing.(tokenHash := tokenHash, profile := Some(profile))
  }

  /** The store after binding a hash to (id, profile) in place of the hash bound before. */
  function Bound(st: Store, id: string, p: string, h: Hash, existing: Record): Store {
    var key := ProfileKey(id, p);
    var kept := if key in st.profileHashes then st.byHash - {st.profileHashes[key]} else st.byHash;
    Store(kept[h := ProfileRecord(existing, h, p)], st.byTenant, st.profileHashes[key := h])
  }

  function AfterProvisionToken(st: Store, tenantId: string, profile: string, freshHash: Hash): Outcome<Option<Record>> {
    var id := JsTrim(tenantId);
    match NormalizedProfile(profile)
    case Err(message) => Outcome(st, Err(message))
    case Ok(p) =>
      match Existing(st, id)
      case None => Outcome(st, Ok(None))
      case Some(existing) =>
        Outcome(Bound(st, id, p, freshHash, existing), Ok(Some(ProfileRecord(existing, freshHash, p))))
  }

  datatype Ensured = Replayed(record: Record) | Conflict(record: Record) | Created(record: Record)

  /** `tokenHash` is the hash of the normalized token; a token of a wrong length is refused. */
  function AfterEnsure(st: Store, tenantId: string, profile: string, token: string,
                       tokenHash: Hash): Outcome<Option<Ensured>>
  {
    var id := JsTrim(tenantId);
    match NormalizedProfile(profile)
    case Err(message) => Outcome(st, Err(message))
    case Ok(p) =>
      if |JsTrim(token)| < 32 || |JsTrim(token)| > 4096 then
        Outcome(st, Err("reconciled credential token must be between 32 and 4096 characters"))
      else
        match Existing(st, id)
        case None => Outcome(st, Ok(None))
        case Some(existing) =>
          var key := ProfileKey(id, p);
          if key in st.profileHashes then
            var current := st.profileHashes[key];
            if current !in st.byHash then Outcome(st, Err("no credential behind the profile"))
            else
              var record := st.byHash[current];
              Outcome(st, Ok(Some(if current == tokenHash then Replayed(record) else Conflict(record))))
          else if tokenHash in st.byHash then Outcome(st, Ok(Some(Conflict(existing))))
          else Outcome(Bound(st, id, p, tokenHash, existing), Ok(Some(Created(ProfileRecord(existing, tokenHash, p)))))
  }

  function AfterSetStatus(st: Store, tenantId: string, status: string): Outcome<Option<Record>> {
    match Existing(st, JsTrim(tenantId))
    case None => Outcome(st, Ok(None))
    case Some(existing) =>
      var record := existing.(status := status);
      Outcome(st.(byTenant := st.byTenant[JsTrim(tenantId) := record]), Ok(Some(record)))
  }

  function LowerChar(c: char): char {
    if 'A' <= c <= 'Z' then ((c as int) + 32) as char else c
  }

  function Lower(s: string): string {
    seq(|s|, i requires 0 <= i < |s| => LowerChar(s[i]))
  }

  predicate IsDigest(s: string) {
    |s| == 64 && forall i :: 0 <= i < |s| ==> 'a' <= s[i] <= 'f' || '0' <= s[i] <= '9'
  }

  function AfterPreserve(st: Store, tenantId: string, tokenHash: string): Outcome<Option<Record>> {
    var id, h := JsTrim(tenantId), Lower(JsTrim(tokenHash));
    if !IsDigest(h) then Outcome(st, Err("token hash must be a SHA-256 hex digest"))
    else
      match Existing(st, id)
      case None => Outcome(st, Ok(None))
      case Some(existing) =>
        if h in st.byHash then
          if st.byHash[h].tenant.id != id || st.byHash[h].profile.Some? then
            Outcome(st, Err("token hash is already bound to another credential"))
          else Outcome(st, Ok(Some(st.byHash[h])))
        else
          var record := existing.(tokenHash := h, profile := None);
          Outcome(st.(byHash := st.byHash[h := record]), Ok(Some(record)))
  }

  /** The record's tenant may be served now. */
  predicate IsActive(r: Record, now: int) {
    r.status == "active" && (r.expiresAt.Some? ==> r.expiresAt.value > now)
  }

  // ---------------------------------------------------------------- the maps in place

  class MemoryTenantStore {
    const hash: string -> Hash
    var byHash: map<Hash, Record>
    var byTenant: map<string, Record>
    var profileHashes: map<string, Hash>

    function Value(): Store
      reads this
    {
      Store(byHash, byTenant, profileHashes)
    }

    constructor (hash: string -> Hash)
      ensures Value() == EMPTY && this.hash == hash
    {
      this.hash := hash;
      byHash, byTenant, profileHashes := map[], map[], map[];
    }

    method Put(token: string, tenant: Tenant, status: string, expiresAt: Option<int>) returns (r: Result<Record>)
      modifies this
      ensures Outcome(Value(), r) == AfterPut(old(Value()), hash(token), tenant, status, expiresAt)
    {
      var tokenHash := hash(token);
      if tokenHash in byHash && byHash[tokenHash].tenant.id != tenant.id {
        return Err("token is already bound to another tenant");
      }
      var record := Record(tokenHash, tenant, None, status, expiresAt);
      byHash := byHash[tokenHash := record];
      byTenant := byTenant[tenant.id := record];
      return Ok(record);
    }

    /** `generated` is the token drawn for a rotation. */
    method RotateTenantToken(tenantId: string, generated: string) returns (r: Result<Option<Record>>)
      modifies this
      ensures Outcome(Value(), r) == AfterRotate(old(Value()), tenantId, hash(generated))
    {
      var id := JsTrim(tenantId);
      if id == "" || id !in byTenant {
        return Ok(None);
      }
      var existing := byTenant[id];
      var todo := byHash.Keys;
      while todo != {}
        invariant todo <= old(byHash).Keys
        invariant forall h :: h in byHash <==> h in old(byHash) && (h in todo || !Unprofiled(old(byHash)[h], id))
        invariant forall h :: h in byHash ==> byHash[h] == old(byHash)[h]
        invariant byTenant == old(byTenant) && profileHashes == old(profileHashes)
        decreases todo
      {
        var tokenHash :| tokenHash in todo;
        todo := todo - {tokenHash};
        if byHash[tokenHash].tenant.id == id && byHash[tokenHash].profile == None {
          byHash := byHash - {tokenHash};
        }
      }
      assert byHash == WithoutUnprofiled(old(byHash), id);
      var put := Put(generated, existing.tenant, "active", existing.expiresAt);
      match put {
        case Ok(record) => return Ok(Some(record));
        case Err(message) => return Err(message);
      }
    }

    method ProvisionTenantToken(tenantId: string, profile: string, generated: string)
      returns (r: Result<Option<Record>>)
      modifies this
      ensures Outcome(Value(), r) == AfterProvisionToken(old(Value()), tenantId, profile, hash(generated))
    {
      var id := JsTrim(tenantId);
      var normalized := NormalizedProfile(profile);
      if normalized.Err? {
        return Err(normalized.message);
      }
      if id == "" || id !in byTenant {
        return Ok(None);
      }
      var existing := byTenant[id];
      var key := ProfileKey(id, normalized.value);
      if key in profileHashes {
        byHash := byHash - {profileHashes[key]};
      }
      var record :=
        Record(hash(generated), existing.tenant, Some(normalized.value), existing.status, existing.expiresAt);
      byHash := byHash[record.tokenHash := record];
      profileHashes := profileHashes[key := record.tokenHash];
      return Ok(Some(record));
    }

    method EnsureTenantToken(tenantId: string, profile: string, token: string) returns (r: Result<Option<Ensured>>)
      modifies this
      ensures Outcome(Value(), r) == AfterEnsure(old(Value()), tenantId, profile, token, hash(JsTrim(token)))
    {
      hide JsTrim, NormalizedProfile, ProfileKey;
      var id := JsTrim(tenantId);
      var normalized := NormalizedProfile(profile);
      if normalized.Err? {
        return Err(normalized.message);
      }
      var normalizedToken := JsTrim(token);
      if |normalizedToken| < 32 || |normalizedToken| > 4096 {
        return Err("reconciled credential token must be between 32 and 4096 characters");
      }
      if id == "" || id !in byTenant {
        return Ok(None);
      }
      var existing := byTenant[id];
      var key := ProfileKey(id, normalized.value);
      var tokenHash := hash(normalizedToken);
      if key in profileHashes {
        var current := profileHashes[key];
        if current !in byHash {
          return Err("no credential behind the profile");
        }
        return Ok(Some(if current == tokenHash then Replayed(byHash[current]) else Conflict(byHash[current])));
      }
      if tokenHash in byHash {
        return Ok(Some(Conflict(existing)));
      }
      var record := Record(tokenHash, existing.tenant, Some(normalized.value), existing.status, existing.expiresAt);
      byHash := byHash[tokenHash := record];
      profileHashes := profileHashes[key := tokenHash];
      return Ok(Some(Created(record)));
    }

    method SetTenantStatus(tenantId: string, status: string) returns (r: Result<Option<Record>>)
      modifies this
      ensures Outcome(Value(), r) == AfterSetStatus(old(Value()), tenantId, status)
    {
      var id := JsTrim(tenantId);
      if id == "" || id !in byTenant {
        return Ok(None);
      }
      var record := byTenant[id].(status := status);
      byTenant := byTenant[id := record];
      return Ok(Some(record));
    }

    method PreserveTenantTokenHash(tenantId: string, tokenHash: string) returns (r: Result<Option<Record>>)
      modifies this
      ensures Outcome(Value(), r) == AfterPreserve(old(Value()), tenantId, tokenHash)
    {
      var id := JsTrim(tenantId);
      var normalizedHash := Lower(JsTrim(tokenHash));
      if !IsDigest(normalizedHash) {
        return Err("token hash must be a SHA-256 hex digest");
      }
      if id == "" || id !in byTenant {
        return Ok(None);
      }
      if normalizedHash in byHash {
        var credential := byHash[normalizedHash];
        if credential.tenant.id != id || credential.profile.Some? {
          return Err("token hash is already bound to another credential");
        }
        return Ok(Some(credential));
      }
      var preserved := byTenant[id].(tokenHash := normalizedHash, profile := None);
      byHash := byHash[normalizedHash := preserved];
      return Ok(Some(preserved));
    }
  }

  // ---------------------------------------------------------------- profile keys

  /** A tenant that the operations can name: they trim what they are given. */
  predicate Addressable(id: string) {
    id != "" && JsTrim(id) == id
  }

  /** A profile that is stored as it is given. */
  predicate Accepted(profile: string) {
    NormalizedProfile(profile) == Ok(profile)
  }

  lemma TrimmedIsAddressable(id: string)
    ensures JsTrim(id) != "" ==> Addressable(JsTrim(id))
  {
    TrimIsTrimmed(JsSpace, id);
    TrimOfTrimmed(JsSpace, JsTrim(id));
  }

  lemma NormalizedIsAccepted(profile: string)
    requires NormalizedProfile(profile).Ok?
    ensures Accepted(NormalizedProfile(profile).value)
  {
    TrimIsTrimmed(JsSpace, profile);
    TrimOfTrimmed(JsSpace, JsTrim(profile));
  }

  lemma AcceptedIs(p: string)
    ensures Accepted(p) <==> 1 <= |p| <= 100 && Trimmed(JsSpace, p)
  {
    TrimIsTrimmed(JsSpace, p);
    if Trimmed(JsSpace, p) { TrimOfTrimmed(JsSpace, p); }
  }

  /** One id continues another across the separator of a profile key, by something a profile can begin with. */
  predicate Continues(i: string, j: string) {
    i + [NUL] <= j && var x := j[|i| + 1..]; |x| <= 98 && (x == "" || !JsSpace(x[0]))
  }

  /** The key is that of an accepted profile of the tenant. */
  predicate IsKeyOf(key: string, id: string) {
    id + [NUL] <= key && Accepted(key[|id| + 1..])
  }

  lemma KeyIsKeyOf(key: string, id: string, p: string)
    ensures key == ProfileKey(id, p) && Accepted(p) ==> IsKeyOf(key, id) && p == key[|id| + 1..]
    ensures IsKeyOf(key, id) ==> key == ProfileKey(id, key[|id| + 1..])
  {
    hide Accepted;
    var k := ProfileKey(id, p);
    assert k[..|id| + 1] == id + [NUL] && k[|id| + 1..] == p;
    if IsKeyOf(key, id) { assert key == key[..|id| + 1] + key[|id| + 1..]; }
  }

  /** No other known tenant has a profile with the key of this one. */
  predicate Unshared(ids: set<string>, id: string, p: string) {
    forall i | i in ids && i != id && Addressable(i) :: !IsKeyOf(ProfileKey(id, p), i)
  }

  /** Two accepted profiles of two tenants can have one key exactly when one id continues the other. */
  lemma KeysCollideExactly(i: string, j: string)
    requires i != j
    ensures (exists p, q :: Accepted(p) && Accepted(q) && ProfileKey(i, p) == ProfileKey(j, q))
      <==> Continues(i, j) || Continues(j, i)
  {
    hide JsSpace;
    if Continues(i, j) { var p, q := SharedKey(i, j); }
    if Continues(j, i) { var q, p := SharedKey(j, i); }
    if exists p, q :: Accepted(p) && Accepted(q) && ProfileKey(i, p) == ProfileKey(j, q) {
      var p, q :| Accepted(p) && Accepted(q) && ProfileKey(i, p) == ProfileKey(j, q);
      SameKey(i, p, j, q);
    }
  }

  /** Profiles that give a continued and a continuing id one key. */
  lemma SharedKey(i: string, j: string) returns (p: string, q: string)
    requires Continues(i, j)
    ensures Accepted(p) && Accepted(q) && ProfileKey(i, p) == ProfileKey(j, q)
  {
    var x := j[|i| + 1..];
    assert j == i + [NUL] + x;
    p, q := x + [NUL] + "q", "q";
    assert !JsSpace(NUL) && !JsSpace('q');
    hide JsSpace;
    AcceptedIs(p);
    AcceptedIs(q);
    assert p[0] == if x == "" then NUL else x[0];
  }

  lemma SameKey(i: string, p: string, j: string, q: string)
    requires ProfileKey(i, p) == ProfileKey(j, q) && Accepted(p) && Accepted(q)
    ensures i != j ==> Continues(i, j) || Continues(j, i)
    ensures i == j ==> p == q
  {
    var k := ProfileKey(i, p);
    assert k[..|i|] == i && k[|i|] == NUL && k[|i| + 1..] == p;
    assert k[..|j|] == j && k[|j|] == NUL && k[|j| + 1..] == q;
    if |i| < |j| {
      LongerId(i, p, j, q);
    } else if |j| < |i| {
      LongerId(j, q, i, p);
    }
  }

  lemma LongerId(i: string, p: string, j: string, q: string)
    requires |i| < |j| && ProfileKey(i, p) == ProfileKey(j, q) && Accepted(p) && Accepted(q)
    ensures Continues(i, j)
  {
    hide JsSpace, TrimLeft, TrimRight;
    var k, x := ProfileKey(i, p), j[|i| + 1..];
    assert j[..|i| + 1] == k[..|i| + 1] == i + [NUL];
    assert p == k[|i| + 1..] == x + [NUL] + q;
    AcceptedIs(p);
    AcceptedIs(q);
  }

  // ---------------------------------------------------------------- agreement

  /** `profileHashes` finds the hash for (id, profile). */
  predicate Finds(st: Store, id: string, profile: string, h: Hash) {
    var key := ProfileKey(id, profile);
    key in st.profileHashes && st.profileHashes[key] == h
  }

  predicate Holds(st: Store, id: string, profile: string, h: Hash) {
    h in st.byHash && st.byHash[h].tenant.id == id && st.byHash[h].profile == Some(profile)
  }

  predicate Named(ids: set<string>, id: string, profile: string) {
    id in ids && Addressable(id) && Accepted(profile)
  }

  /** Every hash names itself and a known tenant. */
  ghost predicate HashesNamed(st: Store) {
    forall h | h in st.byHash :: st.byHash[h].tokenHash == h && st.byHash[h].tenant.id in st.byTenant
  }

  ghost predicate TenantsNamed(st: Store) {
    forall id | id in st.byTenant :: st.byTenant[id].tenant.id == id && st.byTenant[id].profile == None
  }

  ghost predicate KeysNamed(st: Store) {
    forall k | k in st.profileHashes :: exists id, p :: Named(st.byTenant.Keys, id, p) && k == ProfileKey(id, p)
  }

  /** The three maps tell one story. */
  ghost predicate Agrees(st: Store) {
    && HashesNamed(st)
    && TenantsNamed(st)
    && KeysNamed(st)
    && HeldAreNamed(st)
    && FoundAreHeld(st)
  }

  ghost predicate HeldAreNamed(st: Store) {
    forall id, p, h | Holds(st, id, p, h) :: Named(st.byTenant.Keys, id, p)
  }

  ghost predicate FoundAreHeld(st: Store) {
    forall id, p, h | Named(st.byTenant.Keys, id, p) :: Finds(st, id, p, h) <==> Holds(st, id, p, h)
  }

  /** Each (tenant, profile) has at most one hash, and `profileHashes` finds exactly it. */
  lemma AtMostOneHash(st: Store, id: string, p: string, h: Hash, h': Hash)
    requires Agrees(st) && Holds(st, id, p, h) && Holds(st, id, p, h')
    ensures h == h' && Finds(st, id, p, h)
  {
    hide Addressable, Accepted;
    assert Named(st.byTenant.Keys, id, p);
    assert Finds(st, id, p, h) && Finds(st, id, p, h');
  }

  /** A known hash resolves to the tenant's current record, whatever its own copy says. */
  lemma ResolvesCurrent(st: Store, h: Hash)
    requires Agrees(st)
    ensures match ResolveTokenHash(st, h)
            case None => h !in TableOf(st)
            case Some(r) =>
              && h in TableOf(st) && r.tokenHash == h
              && TableOf(st)[h] == Credential(r.tenant.id, r.profile)
              && r.tenant.id in st.byTenant
              && r.status == st.byTenant[r.tenant.id].status
              && r.expiresAt == st.byTenant[r.tenant.id].expiresAt
              && r.tenant == st.byTenant[r.tenant.id].tenant
  {
  }

  // ---------------------------------------------------------------- each operation, on the table

  predicate ProfiledHash(st: Store, h: Hash) {
    h in st.byHash && st.byHash[h].profile.Some?
  }

  /** A change that leaves tenants, profile hashes and profiled credentials in place keeps the agreement. */
  lemma SameProfiles(st: Store, st': Store)
    requires Agrees(st) && HashesNamed(st') && TenantsNamed(st')
    requires st'.byTenant.Keys == st.byTenant.Keys && st'.profileHashes == st.profileHashes
    requires forall id, p, h :: Holds(st', id, p, h) <==> Holds(st, id, p, h)
    ensures Agrees(st')
  {
    hide HashesNamed, TenantsNamed, Holds, Addressable, Accepted, ProfileKey;
    forall id, p, h | Named(st'.byTenant.Keys, id, p)
      ensures Finds(st', id, p, h) <==> Holds(st', id, p, h)
    {
      assert Finds(st, id, p, h) <==> Holds(st, id, p, h);
    }
    assert KeysNamed(st') by { hide Named; }
  }

  /** No profile hash has a key of a tenant that is not known yet. */
  predicate KeysFree(st: Store, id: string) {
    id in st.byTenant || !Addressable(id) || forall k | k in st.profileHashes :: !IsKeyOf(k, id)
  }

  /**
   `put` keeps the agreement exactly when its token is not a profile credential's and, if it brings
   a new tenant, no profile key in use is one of the tenant's.
   */
  lemma PutAgreesExactly(st: Store, h: Hash, tenant: Tenant, status: string, expiresAt: Option<int>)
    requires Agrees(st) && AfterPut(st, h, tenant, status, expiresAt).result.Ok?
    ensures Agrees(AfterPut(st, h, tenant, status, expiresAt).store)
      <==> !ProfiledHash(st, h) && KeysFree(st, tenant.id)
    ensures TableOf(AfterPut(st, h, tenant, status, expiresAt).store)
      == TableOf(st)[h := Credential(tenant.id, None)]
  {
    if ProfiledHash(st, h) {
      PutUnbinds(st, h, tenant, status, expiresAt);
    } else if !KeysFree(st, tenant.id) {
      PutInherits(st, h, tenant, status, expiresAt);
    } else {
      PutKeeps(st, h, tenant, status, expiresAt);
    }
  }

  /** The profile map goes on naming a hash that has lost its profile. */
  lemma PutUnbinds(st: Store, h: Hash, tenant: Tenant, status: string, expiresAt: Option<int>)
    requires Agrees(st) && AfterPut(st, h, tenant, status, expiresAt).result.Ok? && ProfiledHash(st, h)
    ensures !Agrees(AfterPut(st, h, tenant, status, expiresAt).store)
  {
    hide KeysNamed, Addressable, Accepted, ProfileKey;
    var st' := AfterPut(st, h, tenant, status, expiresAt).store;
    var p := st.byHash[h].profile.value;
    assert Holds(st, tenant.id, p, h);
    assert Finds(st', tenant.id, p, h) && !Holds(st', tenant.id, p, h) && Named(st'.byTenant.Keys, tenant.id, p);
  }

  /** The profile map finds another tenant's hash for the new one. */
  lemma PutInherits(st: Store, h: Hash, tenant: Tenant, status: string, expiresAt: Option<int>)
    requires Agrees(st) && AfterPut(st, h, tenant, status, expiresAt).result.Ok? && !KeysFree(st, tenant.id)
    ensures !Agrees(AfterPut(st, h, tenant, status, expiresAt).store)
  {
    hide KeysNamed, Addressable, Accepted, ProfileKey;
    var st' := AfterPut(st, h, tenant, status, expiresAt).store;
    var k :| k in st.profileHashes && IsKeyOf(k, tenant.id);
    var p, g := k[|tenant.id| + 1..], st.profileHashes[k];
    KeyIsKeyOf(k, tenant.id, p);
    assert Finds(st', tenant.id, p, g) && Named(st'.byTenant.Keys, tenant.id, p);
    assert Holds(st', tenant.id, p, g) ==> Holds(st, tenant.id, p, g);
    assert Holds(st, tenant.id, p, g) ==> Named(st.byTenant.Keys, tenant.id, p);
  }

  lemma PutKeeps(st: Store, h: Hash, tenant: Tenant, status: string, expiresAt: Option<int>)
    requires Agrees(st) && AfterPut(st, h, tenant, status, expiresAt).result.Ok?
    requires !ProfiledHash(st, h) && KeysFree(st, tenant.id)
    ensures Agrees(AfterPut(st, h, tenant, status, expiresAt).store)
  {
    hide Addressable, Accepted, ProfileKey, IsKeyOf;
    var st' := AfterPut(st, h, tenant, status, expiresAt).store;
    assert st'.byTenant.Keys == st.byTenant.Keys + {tenant.id};
    assert forall id, p, g :: Holds(st', id, p, g) <==> Holds(st, id, p, g);
    forall id, p, g | Named(st'.byTenant.Keys, id, p)
      ensures Finds(st', id, p, g) <==> Holds(st', id, p, g)
    {
      if id in st.byTenant {
        assert Named(st.byTenant.Keys, id, p);
        assert Finds(st, id, p, g) <==> Holds(st, id, p, g);
      } else {
        KeyIsKeyOf(ProfileKey(id, p), id, p);
        assert Holds(st, id, p, g) ==> Named(st.byTenant.Keys, id, p);
      }
    }
    MoreKeysNamed(st, st');
  }

  lemma MoreKeysNamed(st: Store, st': Store)
    requires KeysNamed(st) && st'.profileHashes == st.profileHashes && st.byTenant.Keys <= st'.byTenant.Keys
    ensures KeysNamed(st')
  {
    hide Addressable, Accepted, ProfileKey;
    forall k | k in st'.profileHashes
      ensures exists id, p :: Named(st'.byTenant.Keys, id, p) && k == ProfileKey(id, p)
    {
      var id, p :| Named(st.byTenant.Keys, id, p) && k == ProfileKey(id, p);
      assert Named(st'.byTenant.Keys, id, p);
    }
  }

  /** Rotation leaves exactly one unprofiled hash of the tenant and touches no other credential. */
  lemma RotateEffect(st: Store, tenantId: string, freshHash: Hash)
    requires Agrees(st) && Existing(st, JsTrim(tenantId)).Some? && freshHash !in st.byHash
    ensures var id, after := JsTrim(tenantId), AfterRotate(st, tenantId, freshHash);
            var T, T' := TableOf(st), TableOf(after.store);
            && after.result.Ok? && Agrees(after.store)
            && (forall h :: h in T' && T'[h] == Credential(id, None) <==> h == freshHash)
            && (forall h | h in T && T[h] != Credential(id, None) :: h in T' && T'[h] == T[h])
            && (forall h | h in T' && h != freshHash :: h in T && T[h] == T'[h])
            && after.store.byTenant[id].status == "active"
  {
    hide JsTrim, KeysNamed, HeldAreNamed, FoundAreHeld;
    var st' := AfterRotate(st, tenantId, freshHash).store;
    assert st'.byTenant.Keys == st.byTenant.Keys;
    assert Agrees(st') by {
      hide TableOf;
      RotateHolds(st, tenantId, freshHash);
      SameProfiles(st, st');
    }
  }

  lemma RotateHolds(st: Store, tenantId: string, freshHash: Hash)
    requires HashesNamed(st) && Existing(st, JsTrim(tenantId)).Some? && freshHash !in st.byHash
    ensures var st' := AfterRotate(st, tenantId, freshHash).store;
      forall id, p, h :: Holds(st', id, p, h) <==> Holds(st, id, p, h)
  {
    hide JsTrim;
  }

  /** Binding a free hash replaces the hash of that (tenant, profile) and touches no other credential. */
  lemma BindEffect(st: Store, id: string, p: string, h: Hash)
    requires Agrees(st) && Named(st.byTenant.Keys, id, p) && h !in st.byHash
    ensures var T, T' := TableOf(st), TableOf(Bound(st, id, p, h, st.byTenant[id]));
            && (forall g :: g in T' && T'[g] == Credential(id, Some(p)) <==> g == h)
            && (forall g | g in T && T[g] != Credential(id, Some(p)) :: g in T' && T'[g] == T[g])
            && (forall g | g in T' && g != h :: g in T && T[g] == T'[g])
  {
    BoundHashes(st, id, p);
    hide Agrees, ProfileKey, Finds;
    var T, T' := TableOf(st), TableOf(Bound(st, id, p, h, st.byTenant[id]));
    forall g
      ensures g in T' && T'[g] == Credential(id, Some(p)) <==> g == h
      ensures g in T && T[g] != Credential(id, Some(p)) ==> g in T' && T'[g] == T[g]
    {
      assert g in T ==> (T[g] == Credential(id, Some(p)) <==> Holds(st, id, p, g));
    }
  }

  /** Binding a hash where nothing was bound only adds it to the table. */
  lemma BindNew(st: Store, id: string, p: string, h: Hash)
    requires Agrees(st) && Named(st.byTenant.Keys, id, p) && h !in st.byHash && ProfileKey(id, p) !in st.profileHashes
    ensures TableOf(Bound(st, id, p, h, st.byTenant[id])) == TableOf(st)[h := Credential(id, Some(p))]
    ensures forall g | g in TableOf(st) :: TableOf(st)[g] != Credential(id, Some(p))
  {
    BoundHashes(st, id, p);
    hide Agrees, ProfileKey, Finds;
    forall g | g in TableOf(st)
      ensures TableOf(st)[g] != Credential(id, Some(p))
    {
      assert !Holds(st, id, p, g);
    }
  }

  /** The hash that `profileHashes` has for (id, profile) is the only one that holds it. */
  lemma BoundHashes(st: Store, id: string, p: string)
    requires Agrees(st) && Named(st.byTenant.Keys, id, p)
    ensures st.byTenant[id].tenant.id == id
    ensures forall g :: Holds(st, id, p, g) <==>
                        ProfileKey(id, p) in st.profileHashes && st.profileHashes[ProfileKey(id, p)] == g
  {
    hide KeysNamed, HeldAreNamed, Addressable, Accepted, ProfileKey, Holds;
    forall g
      ensures Holds(st, id, p, g) <==> ProfileKey(id, p) in st.profileHashes && st.profileHashes[ProfileKey(id, p)] == g
    {
      assert Finds(st, id, p, g) <==> Holds(st, id, p, g);
    }
  }

  /**
   A new profile token replaces the profile's old one and touches no other credential of the table.
   The maps go on agreeing exactly when no other tenant has a profile with this key.
   */
  lemma ProvisionTokenEffect(st: Store, tenantId: string, profile: string, freshHash: Hash)
    requires Agrees(st) && Existing(st, JsTrim(tenantId)).Some? && NormalizedProfile(profile).Ok?
    requires freshHash !in st.byHash
    ensures var id, p := JsTrim(tenantId), NormalizedProfile(profile).value;
            var after := AfterProvisionToken(st, tenantId, profile, freshHash);
            var T, T' := TableOf(st), TableOf(after.store);
            && after.result.Ok?
            && (Agrees(after.store) <==> Unshared(st.byTenant.Keys, id, p))
            && (forall h :: h in T' && T'[h] == Credential(id, Some(p)) <==> h == freshHash)
            && (forall h | h in T && T[h] != Credential(id, Some(p)) :: h in T' && T'[h] == T[h])
            && (forall h | h in T' && h != freshHash :: h in T && T[h] == T'[h])
  {
    var id, p := JsTrim(tenantId), NormalizedProfile(profile).value;
    TrimmedIsAddressable(tenantId);
    NormalizedIsAccepted(profile);
    hide JsTrim, NormalizedProfile, Bound, Agrees, TableOf, Addressable, Accepted, Unshared;
    BindAgreesExactly(st, id, p, freshHash);
    BindEffect(st, id, p, freshHash);
  }

  lemma ProvisionKeysNamed(st: Store, id: string, p: string, h: Hash)
    requires KeysNamed(st) && Named(st.byTenant.Keys, id, p)
    ensures KeysNamed(st.(profileHashes := st.profileHashes[ProfileKey(id, p) := h]))
  {
    hide Named, ProfileKey;
  }

  lemma OtherKey(ids: set<string>, id: string, p: string, i: string, q: string)
    requires Unshared(ids, id, p) && Named(ids, id, p) && Named(ids, i, q)
    ensures ProfileKey(id, p) == ProfileKey(i, q) <==> id == i && p == q
  {
    KeyIsKeyOf(ProfileKey(id, p), id, p);
    KeyIsKeyOf(ProfileKey(id, p), i, q);
    hide Addressable, Accepted, ProfileKey, IsKeyOf;
  }

  /** Binding a free hash keeps the agreement exactly when no other tenant has a profile with the key. */
  lemma BindAgreesExactly(st: Store, id: string, p: string, h: Hash)
    requires Agrees(st) && Named(st.byTenant.Keys, id, p) && h !in st.byHash
    ensures Agrees(Bound(st, id, p, h, st.byTenant[id])) <==> Unshared(st.byTenant.Keys, id, p)
  {
    var existing := st.byTenant[id];
    hide Agrees, Bound, Unshared, Named;
    if Unshared(st.byTenant.Keys, id, p) {
      BindAgrees(st, id, p, h, existing);
    } else {
      BindShared(st, id, p, h, existing);
    }
  }

  /** The profile map finds the hash for the other tenant as well. */
  lemma BindShared(st: Store, id: string, p: string, h: Hash, existing: Record)
    requires Agrees(st) && Named(st.byTenant.Keys, id, p) && existing == st.byTenant[id]
    requires !Unshared(st.byTenant.Keys, id, p)
    ensures !Agrees(Bound(st, id, p, h, existing))
  {
    hide Addressable, Accepted, ProfileKey, KeysNamed, HeldAreNamed;
    var st', key := Bound(st, id, p, h, existing), ProfileKey(id, p);
    var i :| i in st.byTenant.Keys && i != id && Addressable(i) && IsKeyOf(key, i);
    var q := key[|i| + 1..];
    KeyIsKeyOf(key, i, q);
    assert Named(st'.byTenant.Keys, i, q) && Finds(st', i, q, h) && !Holds(st', i, q, h);
  }

  lemma BindAgrees(st: Store, id: string, p: string, h: Hash, existing: Record)
    requires Agrees(st) && Named(st.byTenant.Keys, id, p) && existing == st.byTenant[id] && h !in st.byHash
    requires Unshared(st.byTenant.Keys, id, p)
    ensures Agrees(Bound(st, id, p, h, existing))
  {
    hide ProfileKey, Unshared, Addressable, Accepted;
    var st' := Bound(st, id, p, h, existing);
    ProvisionKeysNamed(st, id, p, h);
    assert KeysNamed(st') by { hide Named; }
    hide KeysNamed;
    BoundHolds(st, id, p, h, existing);
    forall i, q, g | Named(st'.byTenant.Keys, i, q)
      ensures Finds(st', i, q, g) <==> Holds(st', i, q, g)
    {
      hide Bound, Holds;
      BoundFinds(st, id, p, h, existing, i, q, g);
      assert Finds(st, i, q, g) <==> Holds(st, i, q, g);
    }
  }

  lemma BoundHolds(st: Store, id: string, p: string, h: Hash, existing: Record)
    requires Agrees(st) && Named(st.byTenant.Keys, id, p) && existing == st.byTenant[id] && h !in st.byHash
    ensures var st' := Bound(st, id, p, h, existing);
      && HashesNamed(st') && TenantsNamed(st') && HeldAreNamed(st')
      && (forall i, q, g :: Holds(st', i, q, g) <==> if i == id && q == p then g == h else Holds(st, i, q, g))
  {
    BoundHashes(st, id, p);
    hide ProfileKey, KeysNamed, FoundAreHeld, Addressable, Accepted;
    var st', key := Bound(st, id, p, h, existing), ProfileKey(id, p);
    forall i, q, g
      ensures Holds(st', i, q, g) <==> if i == id && q == p then g == h else Holds(st, i, q, g)
    {
      assert Holds(st, id, p, g) <==> key in st.profileHashes && st.profileHashes[key] == g;
    }
  }

  lemma BoundFinds(st: Store, id: string, p: string, h: Hash, existing: Record, i: string, q: string, g: Hash)
    requires Unshared(st.byTenant.Keys, id, p) && Named(st.byTenant.Keys, id, p) && Named(st.byTenant.Keys, i, q)
    ensures Finds(Bound(st, id, p, h, existing), i, q, g)
      <==> if i == id && q == p then g == h else Finds(st, i, q, g)
  {
    hide Named, Unshared, ProfileKey;
    OtherKey(st.byTenant.Keys, id, p, i, q);
  }

  lemma TableRow(st: Store, h: Hash)
    ensures h in st.byHash <==> h in TableOf(st)
    ensures h in st.byHash ==> TableOf(st)[h] == Credential(st.byHash[h].tenant.id, st.byHash[h].profile)
  {
  }

  /**
   Reconciling a token: it is created when the profile has none and the hash is free, replayed
   when it is the profile's token already, and otherwise refused without any change. Doing it
   again replays. Only a creation can end the agreement, and does exactly when the key is shared.
   */
  lemma EnsureEffect(st: Store, tenantId: string, profile: string, token: string, h: Hash)
    requires Agrees(st) && AfterEnsure(st, tenantId, profile, token, h).result.Ok?
    requires AfterEnsure(st, tenantId, profile, token, h).result.value.Some?
    ensures var id, p := JsTrim(tenantId), NormalizedProfile(profile).value;
            var after := AfterEnsure(st, tenantId, profile, token, h);
            var T, T' := TableOf(st), TableOf(after.store);
            match after.result.value.value
               case Created(r) =>
                 && (Agrees(after.store) <==> Unshared(st.byTenant.Keys, id, p))
                 && h !in T && (forall g | g in T :: T[g] != Credential(id, Some(p)))
                 && T' == T[h := Credential(id, Some(p))]
                 && AfterEnsure(after.store, tenantId, profile, token, h) ==
                    Outcome(after.store, Ok(Some(Replayed(r))))
               case Replayed(_) => after.store == st && h in T && T[h] == Credential(id, Some(p))
               case Conflict(_) => after.store == st && (h in T ==> T[h] != Credential(id, Some(p)))
  {
    var id, p := JsTrim(tenantId), NormalizedProfile(profile).value;
    TrimmedIsAddressable(tenantId);
    NormalizedIsAccepted(profile);
    hide JsTrim, NormalizedProfile, Agrees, Addressable, Accepted, Unshared;
    BoundHashes(st, id, p);
    if ProfileKey(id, p) !in st.profileHashes && h !in st.byHash {
      BindAgreesExactly(st, id, p, h);
      BindNew(st, id, p, h);
    }
    TableRow(st, h);
    hide TableOf;
    assert h in st.byHash ==> (TableOf(st)[h] == Credential(id, Some(p)) <==> Holds(st, id, p, h));
  }

  /** A status change leaves the table alone and is seen through every hash of the tenant, and no other. */
  lemma SetStatusEffect(st: Store, tenantId: string, status: string)
    requires Agrees(st) && Existing(st, JsTrim(tenantId)).Some?
    ensures var id, after := JsTrim(tenantId), AfterSetStatus(st, tenantId, status);
            && after.result.Ok? && Agrees(after.store) && TableOf(after.store) == TableOf(st)
            && (forall h | h in TableOf(st) && TableOf(st)[h].tenantId == id ::
                  ResolveTokenHash(after.store, h).Some? && ResolveTokenHash(after.store, h).value.status == status)
            && (forall h | h in TableOf(st) && TableOf(st)[h].tenantId != id ::
                  ResolveTokenHash(after.store, h) == ResolveTokenHash(st, h))
  {
    hide JsTrim, KeysNamed, HeldAreNamed, FoundAreHeld;
    var st' := AfterSetStatus(st, tenantId, status).store;
    assert st'.byTenant.Keys == st.byTenant.Keys;
    assert forall i, p, g :: Holds(st', i, p, g) <==> Holds(st, i, p, g);
    SameProfiles(st, st');
  }

  /** Suspending a tenant makes every one of its tokens inactive, profiled or not. */
  lemma SuspensionReachesAll(st: Store, tenantId: string, status: string, h: Hash, now: int)
    requires Agrees(st) && Existing(st, JsTrim(tenantId)).Some? && status != "active"
    requires h in TableOf(st) && TableOf(st)[h].tenantId == JsTrim(tenantId)
    ensures var r := ResolveTokenHash(AfterSetStatus(st, tenantId, status).store, h);
            r.Some? && !IsActive(r.value, now)
  {
    SetStatusEffect(st, tenantId, status);
  }

  /** Preserving a hash adds an unprofiled credential or finds it there; it never rebinds one. */
  lemma PreserveEffect(st: Store, tenantId: string, tokenHash: string)
    requires Agrees(st)
    ensures var id, h := JsTrim(tenantId), Lower(JsTrim(tokenHash));
            var after := AfterPreserve(st, tenantId, tokenHash);
            && Agrees(after.store)
            && (after.result.Ok? && after.result.value.Some? ==>
                  && TableOf(after.store) == TableOf(st)[h := Credential(id, None)]
                  && (h in TableOf(st) ==> after.store == st))
            && (!(after.result.Ok? && after.result.value.Some?) ==> after.store == st)
  {
    hide JsTrim, Lower, IsDigest, KeysNamed, HeldAreNamed, FoundAreHeld;
    var st' := AfterPreserve(st, tenantId, tokenHash).store;
    var h := Lower(JsTrim(tokenHash));
    if st' != st {
      assert forall i, p, g :: Holds(st', i, p, g) <==> Holds(st, i, p, g);
      SameProfiles(st, st');
    } else if h in st.byHash {
      assert TableOf(st)[h := TableOf(st)[h]] == TableOf(st);
    }
  }

  // ---------------------------------------------------------------- any sequence of operations

  datatype Op =
    | Put(tokenHash: Hash, tenant: Tenant, status: string, expiresAt: Option<int>)
    | Rotate(tenantId: string, freshHash: Hash)
    | ProvisionToken(tenantId: string, profile: string, freshHash: Hash)
    | Ensure(tenantId: string, profile: string, token: string, tokenHash: Hash)
    | SetStatus(tenantId: string, status: string)
    | Preserve(tenantId: string, digest: string)

  function Apply(st: Store, op: Op): Store {
    match op
    case Put(h, tenant, status, expiresAt) => AfterPut(st, h, tenant, status, expiresAt).store
    case Rotate(id, h) => AfterRotate(st, id, h).store
    case ProvisionToken(id, profile, h) => AfterProvisionToken(st, id, profile, h).store
    case Ensure(id, profile, token, h) => AfterEnsure(st, id, profile, token, h).store
    case SetStatus(id, status) => AfterSetStatus(st, id, status).store
    case Preserve(id, digest) => AfterPreserve(st, id, digest).store
  }

  /** Generated tokens are fresh. */
  predicate Fresh(st: Store, op: Op) {
    op.Rotate? || op.ProvisionToken? ==> op.freshHash !in st.byHash
  }

  /**
   What keeps the maps in agreement: `put` is not given the token of a profile credential, or a new
   tenant with a profile key in use; and no token is bound to a profile key that another tenant has.
   */
  predicate Allowed(st: Store, op: Op) {
    match op
    case Put(h, tenant, status, expiresAt) =>
      AfterPut(st, h, tenant, status, expiresAt).result.Ok? ==>
        !ProfiledHash(st, h) && KeysFree(st, tenant.id)
    case ProvisionToken(tenantId, profile, _) =>
      NormalizedProfile(profile).Ok? && Existing(st, JsTrim(tenantId)).Some? ==>
        Unshared(st.byTenant.Keys, JsTrim(tenantId), NormalizedProfile(profile).value)
    case Ensure(tenantId, profile, token, h) =>
      var r := AfterEnsure(st, tenantId, profile, token, h).result;
      r.Ok? && r.value.Some? && r.value.value.Created? ==>
        Unshared(st.byTenant.Keys, JsTrim(tenantId), NormalizedProfile(profile).value)
    case _ => true
  }

  lemma OpAgreesExactly(st: Store, op: Op)
    requires Agrees(st) && Fresh(st, op)
    ensures Agrees(Apply(st, op)) <==> Allowed(st, op)
  {
    hide Agrees, TableOf, JsTrim, NormalizedProfile, Unshared, KeysFree;
    match op
    case Put(h, tenant, status, expiresAt) =>
      if AfterPut(st, h, tenant, status, expiresAt).result.Ok? {
        PutAgreesExactly(st, h, tenant, status, expiresAt);
      }
    case Rotate(id, h) =>
      if Existing(st, JsTrim(id)).Some? { RotateEffect(st, id, h); }
    case ProvisionToken(id, profile, h) =>
      if Existing(st, JsTrim(id)).Some? && NormalizedProfile(profile).Ok? {
        ProvisionTokenEffect(st, id, profile, h);
      }
    case Ensure(id, profile, token, h) =>
      var r := AfterEnsure(st, id, profile, token, h).result;
      if r.Ok? && r.value.Some? { EnsureEffect(st, id, profile, token, h); }
    case SetStatus(id, status) =>
      if Existing(st, JsTrim(id)).Some? { SetStatusEffect(st, id, status); }
    case Preserve(id, digest) => PreserveEffect(st, id, digest);
  }

  predicate FreshRun(st: Store, ops: seq<Op>)
    decreases |ops|
  {
    ops != [] ==> Fresh(st, ops[0]) && FreshRun(Apply(st, ops[0]), ops[1..])
  }

  predicate AllowedRun(st: Store, ops: seq<Op>)
    decreases |ops|
  {
    ops != [] ==> Allowed(st, ops[0]) && AllowedRun(Apply(st, ops[0]), ops[1..])
  }

  /** The maps agree before and after every operation. */
  ghost predicate AgreesThroughout(st: Store, ops: seq<Op>)
    decreases |ops|
  {
    Agrees(st) && (ops != [] ==> AgreesThroughout(Apply(st, ops[0]), ops[1..]))
  }

  function ApplyAll(st: Store, ops: seq<Op>): Store
    decreases |ops|
  {
    if ops == [] then st else ApplyAll(Apply(st, ops[0]), ops[1..])
  }

  /**
   For any sequence of operations with fresh generated tokens, the three maps agree with one table
   all along exactly when every operation is allowed.
   */
  lemma {:induction false} RunAgreesExactly(st: Store, ops: seq<Op>)
    requires Agrees(st) && FreshRun(st, ops)
    ensures AgreesThroughout(st, ops) <==> AllowedRun(st, ops)
    decreases |ops|
  {
    hide Agrees, Apply, Fresh, Allowed;
    if ops != [] {
      OpAgreesExactly(st, ops[0]);
      if Agrees(Apply(st, ops[0])) {
        RunAgreesExactly(Apply(st, ops[0]), ops[1..]);
      }
    }
  }

  /** After any allowed sequence of operations the three maps agree with one table. */
  lemma {:induction false} RunAgrees(st: Store, ops: seq<Op>)
    requires Agrees(st) && FreshRun(st, ops) && AllowedRun(st, ops)
    ensures Agrees(ApplyAll(st, ops))
    decreases |ops|
  {
    hide Agrees, Apply, Fresh, Allowed;
    if ops != [] {
      OpAgreesExactly(st, ops[0]);
      RunAgrees(Apply(st, ops[0]), ops[1..]);
    }
  }

  lemma EmptyAgrees()
    ensures Agrees(EMPTY)
  {
  }

  // ---------------------------------------------------------------- what the separator costs

  /**
   When two tenants have one profile key, each provision of a profile token for either deletes the
   other's credential.
   */
  lemma CollisionDropsOther(st: Store, i: string, p: string, j: string, q: string, h: Hash, freshHash: Hash)
    requires i != j && ProfileKey(i, p) == ProfileKey(j, q) && Finds(st, i, p, h) && h != freshHash
    requires Addressable(j) && j in st.byTenant && Accepted(q)
    ensures h !in AfterProvisionToken(st, j, q, freshHash).store.byHash
  {
  }

  /** The store with two tenants and no other credentials. */
  function TwoTenants(a: Tenant, b: Tenant, h0: Hash, h1: Hash): Store {
    ApplyAll(EMPTY, [Put(h0, a, "active", None), Put(h1, b, "active", None)])
  }

  lemma TwoTenantsAre(a: Tenant, b: Tenant, h0: Hash, h1: Hash)
    requires a.id != b.id && h0 != h1
    ensures var st := TwoTenants(a, b, h0, h1);
      && st.byTenant.Keys == {a.id, b.id} && st.byHash.Keys == {h0, h1} && st.profileHashes == map[]
      && st.byTenant[a.id].tenant == a
      && st == Apply(Apply(EMPTY, Put(h0, a, "active", None)), Put(h1, b, "active", None))
  {
    var ops := [Put(h0, a, "active", None), Put(h1, b, "active", None)];
    assert ops[1..] == [ops[1]] && ops[1..][1..] == [];
    assert ApplyAll(EMPTY, ops) == ApplyAll(Apply(EMPTY, ops[0]), ops[1..]);
    assert ApplyAll(Apply(EMPTY, ops[0]), ops[1..]) == Apply(Apply(EMPTY, ops[0]), ops[1]);
  }

  /** Tenants alone never disagree, whatever their ids. */
  lemma TwoTenantsAgree(a: Tenant, b: Tenant, h0: Hash, h1: Hash)
    requires a.id != b.id && h0 != h1
    ensures Agrees(TwoTenants(a, b, h0, h1))
  {
    TwoTenantsAre(a, b, h0, h1);
    EmptyAgrees();
    var st := Apply(EMPTY, Put(h0, a, "active", None));
    PutAgreesExactly(EMPTY, h0, a, "active", None);
    PutAgreesExactly(st, h1, b, "active", None);
  }

  /** Two tenants with one profile key, and the run in which one loses its credential to the other. */
  lemma LostToOther(a: Tenant, p: string, b: Tenant, q: string, h0: Hash, h1: Hash, h2: Hash, h3: Hash)
    requires a.id != b.id && Addressable(a.id) && Addressable(b.id) && Accepted(p) && Accepted(q)
    requires ProfileKey(a.id, p) == ProfileKey(b.id, q) && h0 != h1 && {h2, h3} !! {h0, h1} && h2 != h3
    ensures var first := Apply(TwoTenants(a, b, h0, h1), ProvisionToken(a.id, p, h2));
            var second := Apply(first, ProvisionToken(b.id, q, h3));
            && h2 in first.byHash && Holds(first, a.id, p, h2) && h3 !in first.byHash
            && ResolveTokenHash(second, h2) == None
            && Agrees(TwoTenants(a, b, h0, h1)) && !Agrees(first)
  {
    TwoTenantsAre(a, b, h0, h1);
    TwoTenantsAgree(a, b, h0, h1);
    hide ProfileKey, TwoTenants;
    var st := TwoTenants(a, b, h0, h1);
    var first := Apply(st, ProvisionToken(a.id, p, h2));
    assert Finds(first, a.id, p, h2) && Finds(first, b.id, q, h2) && !Holds(first, b.id, q, h2);
    assert Named(first.byTenant.Keys, b.id, q);
    CollisionDropsOther(first, a.id, p, b.id, q, h2, h3);
  }

  /** Ids that can collide do: some profiles let one tenant's provision delete the other's credential. */
  lemma CollisionIsReached(a: Tenant, b: Tenant, h0: Hash, h1: Hash, h2: Hash, h3: Hash) returns (p: string, q: string)
    requires Addressable(a.id) && Addressable(b.id) && Continues(a.id, b.id)
    requires h0 != h1 && {h2, h3} !! {h0, h1} && h2 != h3
    ensures Accepted(p) && Accepted(q)
    ensures var first := Apply(TwoTenants(a, b, h0, h1), ProvisionToken(a.id, p, h2));
            var second := Apply(first, ProvisionToken(b.id, q, h3));
            && Agrees(TwoTenants(a, b, h0, h1)) && !Agrees(first)
            && Holds(first, a.id, p, h2) && ResolveTokenHash(second, h2) == None
  {
    p, q := SharedKey(a.id, b.id);
    LostToOther(a, p, b, q, h0, h1, h2, h3);
  }

  /** The smallest case: the tenants "a" and "a" followed by NUL. */
  lemma SeparatorCollides(details: string, h0: Hash, h1: Hash, h2: Hash, h3: Hash)
    requires h0 != h1 && {h2, h3} !! {h0, h1} && h2 != h3
    ensures var a, b := Tenant("a", details), Tenant("a\0", details);
            var first := Apply(TwoTenants(a, b, h0, h1), ProvisionToken("a", "\0q", h2));
            var second := Apply(first, ProvisionToken("a\0", "q", h3));
            Holds(first, "a", "\0q", h2) && ResolveTokenHash(second, h2) == None
  {
    assert !JsSpace('a') && !JsSpace('q') && !JsSpace(NUL);
    hide JsSpace, TrimLeft, TrimRight;
    TrimOfTrimmed(JsSpace, "a");
    TrimOfTrimmed(JsSpace, "a\0");
    AcceptedIs("\0q");
    AcceptedIs("q");
    assert ProfileKey("a", "\0q") == ProfileKey("a\0", "q") by { assert "a" + [NUL] + "\0q" == "a\0" + [NUL] + "q"; }
    LostToOther(Tenant("a", details), "\0q", Tenant("a\0", details), "q", h0, h1, h2, h3);
  }

  /** No profile keys of two tenants can collide. */
  ghost predicate Separable(ids: set<string>) {
    forall i, j | i in ids && j in ids && Addressable(i) && Addressable(j) :: !Continues(i, j)
  }

  /** Tenants whose ids do not continue one another are exactly those none of whose profiles shares its key. */
  lemma SeparableIsUnshared(ids: set<string>)
    ensures Separable(ids) <==> forall id, p | Named(ids, id, p) :: Unshared(ids, id, p)
  {
    hide Addressable, Accepted, Continues, ProfileKey;
    forall id, p | Named(ids, id, p) && !Unshared(ids, id, p)
      ensures !Separable(ids)
    {
      var key := ProfileKey(id, p);
      var i :| i in ids && i != id && Addressable(i) && IsKeyOf(key, i);
      KeyIsKeyOf(key, i, p);
      SameKey(id, p, i, key[|i| + 1..]);
    }
    forall i, j | i in ids && j in ids && Addressable(i) && Addressable(j) && Continues(i, j)
      ensures exists p :: Named(ids, i, p) && !Unshared(ids, i, p)
    {
      var p, q := SharedKey(i, j);
      KeyIsKeyOf(ProfileKey(i, p), j, q);
      assert Named(ids, i, p) && i != j by { ContinuedIsOther(i, j); }
    }
  }

  lemma ContinuedIsOther(i: string, j: string)
    ensures Continues(i, j) ==> i != j
  {
  }

  /** An id that continues another by a space cannot collide with it, so such tenants live side by side. */
  lemma SpaceSeparates()
    ensures !Continues("a", "a\0 b") && Separable({"a", "a\0 b"})
  {
    assert "a\0 b"[|"a"| + 1..] == " b";
  }
}

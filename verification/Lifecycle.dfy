/** Tenants, service accounts and keys: the admin operations on the three tables, the key cache of one gateway
    instance, and the live checks every request goes through. Each handler is one step. */
module Lifecycle {
  import opened Wrappers
  import opened KeyRecord

  datatype TenantStatus = TenantActive | TenantSuspended | TenantDeleted

  datatype AccountStatus = AccountActive | AccountSuspended | AccountDeleted

  datatype Account = Account(tenant: nat, status: AccountStatus)

  /** `past` holds every row any key has ever had: whatever a cache somewhere may still remember. */
  datatype Tables = Tables(
    tenants: map<nat, TenantStatus>, accounts: map<nat, Account>, keys: map<string, KeyRow>, past: set<(string, KeyRow)>)

  datatype Instance = Instance(tables: Tables, l1: map<string, KeyRow>, l2: map<string, KeyRow>)

  // ---------------------------------------------------------------------------
  // Looking up a key through the cache
  // ---------------------------------------------------------------------------

  datatype AuthError = UnknownKey | Denied

  /** L1, then L2, then the table. */
  function Find(s: Instance, keyId: string): Option<KeyRow> {
    if keyId in s.l1 then Some(s.l1[keyId])
    else if keyId in s.l2 then Some(s.l2[keyId])
    else if keyId in s.tables.keys then Some(s.tables.keys[keyId])
    else None
  }

  /** Whoever answers also fills the tiers above it; an unknown key fills nothing. */
  function Filled(s: Instance, keyId: string): Instance {
    if keyId in s.l1 then s
    else if keyId in s.l2 then s.(l1 := s.l1[keyId := s.l2[keyId]])
    else if keyId in s.tables.keys then
      s.(l1 := s.l1[keyId := s.tables.keys[keyId]], l2 := s.l2[keyId := s.tables.keys[keyId]])
    else s
  }

  function Invalidated(s: Instance, keyId: string): Instance {
    s.(l1 := s.l1 - {keyId}, l2 := s.l2 - {keyId})
  }

  class KeyStore {
    var l1: map<string, KeyRow>
    var l2: map<string, KeyRow>
    var tables: Tables

    ghost function Contents(): Instance
      reads this
    {
      Instance(tables, l1, l2)
    }

    /** Every cached row is the table's row, but for `last_used_at`. */
    ghost predicate Valid()
      reads this
    {
      Agrees(Contents())
    }

    constructor (tables: Tables)
      ensures Valid() && Contents() == Instance(tables, map[], map[])
    {
      this.tables := tables;
      l1, l2 := map[], map[];
    }

    method GetByKeyId(keyId: string) returns (r: Result<KeyRow, AuthError>)
      modifies this
      ensures Contents() == Filled(old(Contents()), keyId)
      ensures r == match Find(old(Contents()), keyId) case Some(row) => Ok(row) case None => Err(UnknownKey)
      ensures old(Valid()) ==>
        && Valid()
        && (r.Ok? <==> keyId in tables.keys)
        && (r.Ok? ==> SameKey(r.value, tables.keys[keyId]))
      // Whatever answers is then in the first tier, a row from the table also in the second; nothing else changes.
      ensures r.Ok? ==> l1 == old(l1)[keyId := r.value]
      ensures l2 == if keyId in old(l1) || keyId in old(l2) || r.Err? then old(l2) else old(l2)[keyId := r.value]
      ensures tables == old(tables) && (r.Err? ==> l1 == old(l1))
    {
      StepAgreesIf(Contents(), Lookup(keyId));
      if keyId in l1 {
        return Ok(l1[keyId]);
      }
      if keyId in l2 {
        var key := l2[keyId];
        l1 := l1[keyId := key];
        return Ok(key);
      }
      if keyId !in tables.keys {
        return Err(UnknownKey);
      }
      var key := tables.keys[keyId];
      l1 := l1[keyId := key];
      l2 := l2[keyId := key];
      r := Ok(key);
    }

    method Invalidate(keyId: string)
      modifies this
      ensures Contents() == Invalidated(old(Contents()), keyId) && (old(Valid()) ==> Valid())
      ensures keyId !in l1 && keyId !in l2 && tables == old(tables)
      ensures forall k :: k != keyId ==> (k in l1 <==> k in old(l1)) && (k in l2 <==> k in old(l2))
      ensures forall k :: k != keyId ==> (k in l1 ==> l1[k] == old(l1)[k]) && (k in l2 ==> l2[k] == old(l2)[k])
    {
      l1 := l1 - {keyId};
      l2 := l2 - {keyId};
    }

    /** Look the key up and refuse it unless usable; the caller learns nothing more. */
    method VerifyKey(keyId: string, now: int) returns (r: Result<KeyRow, AuthError>)
      modifies this
      ensures Contents() == Filled(old(Contents()), keyId)
      ensures r.Ok? <==> Find(old(Contents()), keyId).Some? && Usable(Find(old(Contents()), keyId).value, now)
      ensures r == if r.Ok? then Ok(Find(old(Contents()), keyId).value) else Err(Denied)
      ensures old(Valid()) ==>
        Valid() && (r.Ok? <==> keyId in tables.keys && Usable(tables.keys[keyId], now))
    {
      var found := GetByKeyId(keyId);
      if found.Err? {
        return Err(Denied);
      }
      match found.value.status {
        case Revoked => return Err(Denied);
        case Expired => return Err(Denied);
        case Active =>
        case Rotating =>
      }
      if found.value.expiresAt.Some? && found.value.expiresAt.value < now {
        return Err(Denied);
      }
      r := Ok(found.value);
    }
  }

  // ---------------------------------------------------------------------------
  // Authenticating with a key row
  // ---------------------------------------------------------------------------

  datatype AuthContext = AuthContext(tenant: nat, account: nat)

  /** The account with its tenant's status, read live and joined: absent when either is. */
  function WithTenantStatus(t: Tables, account: nat): Option<(Account, TenantStatus)> {
    if account in t.accounts && t.accounts[account].tenant in t.tenants
    then Some((t.accounts[account], t.tenants[t.accounts[account].tenant])) else None
  }

  /** Key status and expiry, account and tenant status, and the claimed account, in that order. */
  function Authenticate(t: Tables, row: KeyRow, claimed: nat, now: int): Result<AuthContext, AuthError> {
    if !Usable(row, now) then Err(Denied)
    else match WithTenantStatus(t, row.account)
      case None => Err(Denied)
      case Some((account, tenant)) =>
        if account.status != AccountActive || tenant != TenantActive || claimed != row.account then Err(Denied)
        else Ok(AuthContext(account.tenant, row.account))
  }

  // ---------------------------------------------------------------------------
  // The admin operations
  // ---------------------------------------------------------------------------

  datatype Event =
    | CreateTenant(tenant: nat)
    | UpdateTenant(tenant: nat)                        // name and metadata only
    | DeleteTenant(tenant: nat)
    | CreateAccount(account: nat, tenant: nat)
    | UpdateAccount(tenant: nat, account: nat)         // name and description only
    | Suspend(tenant: nat, account: nat)
    | Activate(tenant: nat, account: nat)
    | RegisterKey(keyId: string, input: KeyRow)
    | RevokeKey(id: nat, account: nat, keyId: string)  // `keyId`: as returned with the revoked row
    | TouchKey(keyId: string, at: int)
    | Lookup(keyId: string)
    | EvictL1(keyId: string)
    | EvictL2(keyId: string)

  predicate OwnedBy(t: Tables, tenant: nat, account: nat) {
    account in t.accounts && t.accounts[account].tenant == tenant
  }

  function SetStatus(t: Tables, account: nat, status: AccountStatus): Tables
    requires account in t.accounts
  {
    t.(accounts := t.accounts[account := t.accounts[account].(status := status)])
  }

  /** Suspends the tenant's live accounts and marks the tenant deleted, in one transaction. */
  function SoftDelete(t: Tables, tenant: nat): Tables {
    t.(tenants := t.tenants[tenant := TenantDeleted],
       accounts := map a | a in t.accounts ::
         if t.accounts[a].tenant == tenant && t.accounts[a].status == AccountActive
         then t.accounts[a].(status := AccountSuspended) else t.accounts[a])
  }

  function PutKey(t: Tables, keyId: string, row: KeyRow): Tables {
    t.(keys := t.keys[keyId := row], past := t.past + {(keyId, row)})
  }

  function Write(t: Tables, e: Event): Tables {
    match e
    case CreateTenant(tenant) =>
      if tenant !in t.tenants then t.(tenants := t.tenants[tenant := TenantActive]) else t
    case DeleteTenant(tenant) => if tenant in t.tenants then SoftDelete(t, tenant) else t
    case CreateAccount(account, tenant) =>
      if tenant in t.tenants && account !in t.accounts
      then t.(accounts := t.accounts[account := Account(tenant, AccountActive)]) else t
    case Suspend(tenant, account) => if OwnedBy(t, tenant, account) then SetStatus(t, account, AccountSuspended) else t
    case Activate(tenant, account) => if OwnedBy(t, tenant, account) then SetStatus(t, account, AccountActive) else t
    case RegisterKey(keyId, input) =>
      if keyId !in t.keys && input.account in t.accounts
      then PutKey(t, keyId, input.(status := Active, lastUsed := None)) else t
    case RevokeKey(id, account, keyId) =>
      if keyId in t.keys && t.keys[keyId].id == id && t.keys[keyId].account == account
      then PutKey(t, keyId, t.keys[keyId].(status := Revoked)) else t
    case TouchKey(keyId, at) =>
      if keyId in t.keys then PutKey(t, keyId, t.keys[keyId].(lastUsed := Some(at))) else t
    case _ => t
  }

  function Step(s: Instance, e: Event): Instance {
    var t := s.(tables := Write(s.tables, e));
    match e
    case RevokeKey(id, account, keyId) =>
      if keyId in s.tables.keys && s.tables.keys[keyId].id == id && s.tables.keys[keyId].account == account
      then Invalidated(t, keyId) else t
    case Lookup(keyId) => Filled(s, keyId)
    case EvictL1(keyId) => s.(l1 := s.l1 - {keyId})
    case EvictL2(keyId) => s.(l2 := s.l2 - {keyId})
    case _ => t
  }

  function RunFrom(s: Instance, events: seq<Event>): Instance {
    if events == [] then s else Step(RunFrom(s, events[..|events| - 1]), events[|events| - 1])
  }

  // ---------------------------------------------------------------------------
  // The cache agrees with the table
  // ---------------------------------------------------------------------------

  ghost predicate TierAgrees(t: Tables, tier: map<string, KeyRow>) {
    forall k :: k in tier ==> k in t.keys && SameKey(tier[k], t.keys[k])
  }

  ghost predicate Agrees(s: Instance) {
    TierAgrees(s.tables, s.l1) && TierAgrees(s.tables, s.l2)
  }

  lemma {:induction false} WriteAgrees(t: Tables, e: Event, tier: map<string, KeyRow>)
    requires TierAgrees(t, tier) && !e.RevokeKey?
    ensures TierAgrees(Write(t, e), tier)
  {
  }

  lemma {:induction false} RevokeAgrees(t: Tables, e: Event, tier: map<string, KeyRow>)
    requires TierAgrees(t, tier) && e.RevokeKey?
    ensures TierAgrees(Write(t, e), tier - {e.keyId})
    ensures Write(t, e) == t || (e.keyId in t.keys && t.keys[e.keyId].id == e.id && t.keys[e.keyId].account == e.account)
  {
  }

  lemma {:induction false} StepAgrees(s: Instance, e: Event)
    requires Agrees(s)
    ensures Agrees(Step(s, e))
  {
    if e.RevokeKey? {
      RevokeAgrees(s.tables, e, s.l1);
      RevokeAgrees(s.tables, e, s.l2);
    } else {
      WriteAgrees(s.tables, e, s.l1);
      WriteAgrees(s.tables, e, s.l2);
    }
  }

  lemma {:induction false} StepAgreesIf(s: Instance, e: Event)
    ensures Agrees(s) ==> Agrees(Step(s, e))
  {
    if Agrees(s) {
      StepAgrees(s, e);
    }
  }

  /** On one instance, whatever handlers, lookups and evictions have run, every cached row is the table's row
      in every field but `last_used_at`; so is whatever a lookup returns. */
  lemma {:induction false} CacheIsCurrent(s: Instance, events: seq<Event>, keyId: string)
    requires Agrees(s)
    ensures var t := RunFrom(s, events);
      && Agrees(t)
      && (Find(t, keyId).Some? <==> keyId in t.tables.keys)
      && (keyId in t.tables.keys ==> SameKey(Find(t, keyId).value, t.tables.keys[keyId]))
  {
    if events != [] {
      CacheIsCurrent(s, events[..|events| - 1], keyId);
      StepAgrees(RunFrom(s, events[..|events| - 1]), events[|events| - 1]);
    }
  }

  ghost predicate RevokedIn(t: Tables, keyId: string) {
    keyId in t.keys && t.keys[keyId].status == Revoked
  }

  lemma {:induction false} StepStaysRevoked(s: Instance, e: Event, keyId: string)
    requires RevokedIn(s.tables, keyId)
    ensures RevokedIn(Step(s, e).tables, keyId)
  {
  }

  lemma {:induction false} StaysRevoked(s: Instance, events: seq<Event>, keyId: string)
    requires RevokedIn(s.tables, keyId)
    ensures RevokedIn(RunFrom(s, events).tables, keyId)
  {
    if events != [] {
      StaysRevoked(s, events[..|events| - 1], keyId);
      StepStaysRevoked(RunFrom(s, events[..|events| - 1]), events[|events| - 1], keyId);
    }
  }

  /** Once `revoke_key` has returned, no later verification of that key succeeds, whatever happens in between. */
  lemma {:induction false} RevokedNeverVerifies(s: Instance, id: nat, account: nat, keyId: string, events: seq<Event>, now: int)
    requires Agrees(s) && keyId in s.tables.keys
    requires s.tables.keys[keyId].id == id && s.tables.keys[keyId].account == account
    ensures var t := RunFrom(Step(s, RevokeKey(id, account, keyId)), events);
      Find(t, keyId).Some? && !Usable(Find(t, keyId).value, now)
  {
    var r := Step(s, RevokeKey(id, account, keyId));
    StepAgrees(s, RevokeKey(id, account, keyId));
    StaysRevoked(r, events, keyId);
    CacheIsCurrent(r, events, keyId);
  }

  // ---------------------------------------------------------------------------
  // Tenant deletion is terminal
  // ---------------------------------------------------------------------------

  /** Rows of one key agree on the account, and accounts never move between tenants. */
  ghost predicate LinksOk(t: Tables) {
    && (forall k :: k in t.keys ==> (k, t.keys[k]) in t.past && t.keys[k].account in t.accounts)
    && (forall k, row :: (k, row) in t.past ==> k in t.keys && t.keys[k].account == row.account)
    && (forall a :: a in t.accounts ==> t.accounts[a].tenant in t.tenants)
  }

  lemma {:induction false} WriteKeepsLinks(t: Tables, e: Event)
    requires LinksOk(t)
    ensures LinksOk(Write(t, e))
    ensures forall a :: a in t.accounts ==> a in Write(t, e).accounts && Write(t, e).accounts[a].tenant == t.accounts[a].tenant
    ensures forall n :: n in t.tenants ==> n in Write(t, e).tenants && (t.tenants[n] == TenantDeleted ==> Write(t, e).tenants[n] == TenantDeleted)
    ensures t.past <= Write(t, e).past
  {
  }

  lemma {:induction false} StepTables(s: Instance, e: Event)
    ensures Step(s, e).tables == Write(s.tables, e)
  {
  }

  /** Key to account and account to tenant links are permanent, and so is deletion. */
  lemma {:induction false} RunKeepsLinks(s: Instance, events: seq<Event>)
    requires LinksOk(s.tables)
    ensures var t := RunFrom(s, events).tables;
      && LinksOk(t) && s.tables.past <= t.past
      && (forall a :: a in s.tables.accounts ==> a in t.accounts && t.accounts[a].tenant == s.tables.accounts[a].tenant)
      && (forall n :: n in s.tables.tenants ==> n in t.tenants && (s.tables.tenants[n] == TenantDeleted ==> t.tenants[n] == TenantDeleted))
  {
    if events != [] {
      var n := |events| - 1;
      RunKeepsLinks(s, events[..n]);
      var m := RunFrom(s, events[..n]);
      StepTables(m, events[n]);
      WriteKeepsLinks(m.tables, events[n]);
    }
  }

  /** After a tenant is deleted, no sequence of admin operations lets any request authenticate for it, not even with
      a key row that some cache still remembers from before: reactivated accounts, new accounts and new keys included.
      Every key that belonged to the tenant when it was deleted is refused as well. */
  lemma {:induction false} DeletedTenantNeverAuthenticates(s: Instance, tenant: nat, events: seq<Event>, keyId: string, row: KeyRow, claimed: nat, now: int)
    requires LinksOk(s.tables) && tenant in s.tables.tenants
    requires (keyId, row) in RunFrom(Step(s, DeleteTenant(tenant)), events).tables.past
    ensures var t := RunFrom(Step(s, DeleteTenant(tenant)), events).tables;
      && (Authenticate(t, row, claimed, now).Ok? ==> Authenticate(t, row, claimed, now).value.tenant != tenant)
      && (keyId in s.tables.keys && s.tables.accounts[s.tables.keys[keyId].account].tenant == tenant ==>
            Authenticate(t, row, claimed, now) == Err(Denied))
  {
    var d := Step(s, DeleteTenant(tenant));
    StepTables(s, DeleteTenant(tenant));
    WriteKeepsLinks(s.tables, DeleteTenant(tenant));
    RunKeepsLinks(d, events);
    var t := RunFrom(d, events).tables;
    assert t.tenants[tenant] == TenantDeleted;
    if keyId in s.tables.keys && s.tables.accounts[s.tables.keys[keyId].account].tenant == tenant {
      var first := s.tables.keys[keyId];
      assert (keyId, first) in t.past;
      assert row.account == first.account;
      assert d.tables.accounts[first.account].tenant == tenant;
    }
  }

  /** Every cached row is one that its key really had at some time. */
  ghost predicate Remembers(s: Instance) {
    && (forall k :: k in s.l1 ==> (k, s.l1[k]) in s.tables.past)
    && (forall k :: k in s.l2 ==> (k, s.l2[k]) in s.tables.past)
  }

  /** A tier only ever receives rows of the other tier or of the table. */
  lemma {:induction false} TierSources(s: Instance, e: Event, k: string)
    requires Remembers(s) && (k in s.tables.keys ==> (k, s.tables.keys[k]) in s.tables.past)
    ensures k in Step(s, e).l1 ==> (k, Step(s, e).l1[k]) in s.tables.past
    ensures k in Step(s, e).l2 ==> (k, Step(s, e).l2[k]) in s.tables.past
  {
  }

  lemma {:induction false} PastGrows(s: Instance, e: Event)
    ensures s.tables.past <= Step(s, e).tables.past
  {
  }

  lemma {:induction false} StepRemembers(s: Instance, e: Event)
    requires LinksOk(s.tables) && Remembers(s)
    ensures Remembers(Step(s, e))
  {
    PastGrows(s, e);
    var t := Step(s, e);
    forall k
      ensures k in t.l1 ==> (k, t.l1[k]) in s.tables.past
      ensures k in t.l2 ==> (k, t.l2[k]) in s.tables.past
    {
      TierSources(s, e, k);
    }
  }

  lemma {:induction false} RunRemembers(s: Instance, events: seq<Event>)
    requires LinksOk(s.tables) && Remembers(s)
    ensures Remembers(RunFrom(s, events))
  {
    if events != [] {
      var n := |events| - 1;
      RunRemembers(s, events[..n]);
      RunKeepsLinks(s, events[..n]);
      StepRemembers(RunFrom(s, events[..n]), events[n]);
    }
  }

  /** The same for what a lookup on the instance itself returns, however stale its caches were to begin with. */
  lemma {:induction false} DeletedTenantLocksOut(s: Instance, tenant: nat, events: seq<Event>, keyId: string, claimed: nat, now: int)
    requires LinksOk(s.tables) && Remembers(s) && tenant in s.tables.tenants
    ensures var t := RunFrom(Step(s, DeleteTenant(tenant)), events);
      Find(t, keyId).Some? ==>
        var r := Authenticate(t.tables, Find(t, keyId).value, claimed, now); r.Ok? ==> r.value.tenant != tenant
  {
    var d := Step(s, DeleteTenant(tenant));
    StepTables(s, DeleteTenant(tenant));
    WriteKeepsLinks(s.tables, DeleteTenant(tenant));
    RunRemembers(d, events);
    RunKeepsLinks(d, events);
    var t := RunFrom(d, events);
    if Find(t, keyId).Some? {
      DeletedTenantNeverAuthenticates(s, tenant, events, keyId, Find(t, keyId).value, claimed, now);
    }
  }

  /** `e` neither reactivates an account of the tenant nor gives it a new one. */
  predicate Spares(e: Event, tenant: nat) {
    && (e.Activate? ==> e.tenant != tenant)
    && (e.CreateAccount? ==> e.tenant != tenant)
  }

  ghost predicate NoneActive(t: Tables, tenant: nat) {
    forall a :: a in t.accounts && t.accounts[a].tenant == tenant ==> t.accounts[a].status != AccountActive
  }

  lemma {:induction false} WriteNoneActive(t: Tables, e: Event, tenant: nat)
    requires NoneActive(t, tenant) && Spares(e, tenant)
    ensures NoneActive(Write(t, e), tenant)
  {
  }

  /** Deletion suspends the tenant's accounts, and they stay out of service in every run that does not activate or
      create one: suspension is undone by nothing else. */
  lemma {:induction false} DeletionSuspendsAccounts(s: Instance, tenant: nat, events: seq<Event>)
    requires tenant in s.tables.tenants && forall k :: 0 <= k < |events| ==> Spares(events[k], tenant)
    ensures NoneActive(RunFrom(Step(s, DeleteTenant(tenant)), events).tables, tenant)
  {
    if events != [] {
      var n := |events| - 1;
      DeletionSuspendsAccounts(s, tenant, events[..n]);
      var m := RunFrom(Step(s, DeleteTenant(tenant)), events[..n]);
      StepTables(m, events[n]);
      WriteNoneActive(m.tables, events[n], tenant);
    }
  }

  /** The other tenants' accounts are not touched by it. */
  lemma {:induction false} DeletionSparesOthers(s: Instance, tenant: nat, a: nat)
    requires a in s.tables.accounts && s.tables.accounts[a].tenant != tenant
    ensures var t := Step(s, DeleteTenant(tenant)).tables; a in t.accounts && t.accounts[a] == s.tables.accounts[a]
  {
  }

  // ---------------------------------------------------------------------------
  // Exactly who authenticates
  // ---------------------------------------------------------------------------

  /** A request authenticates if and only if the key is active or rotating and not past its expiry, its account is the one
      claimed and active, and the account's tenant is active; and then as that account of that tenant. */
  lemma {:induction false} AuthenticateIff(t: Tables, row: KeyRow, claimed: nat, now: int)
    ensures Authenticate(t, row, claimed, now).Ok? <==>
      && (row.status == Active || row.status == Rotating)
      && (row.expiresAt.None? || now <= row.expiresAt.value)
      && row.account in t.accounts && t.accounts[row.account].status == AccountActive
      && t.accounts[row.account].tenant in t.tenants && t.tenants[t.accounts[row.account].tenant] == TenantActive
      && claimed == row.account
    ensures Authenticate(t, row, claimed, now) ==
      if Authenticate(t, row, claimed, now).Ok? then Ok(AuthContext(t.accounts[row.account].tenant, row.account)) else Err(Denied)
  {
  }

  predicate Suspended(t: Tables, account: nat) {
    account in t.accounts && t.accounts[account].status != AccountActive
  }

  lemma {:induction false} WriteKeepsSuspended(t: Tables, e: Event, account: nat)
    requires Suspended(t, account) && !(e.Activate? && e.account == account)
    ensures Suspended(Write(t, e), account)
  {
  }

  lemma {:induction false} StaysSuspended(s: Instance, events: seq<Event>, account: nat)
    requires Suspended(s.tables, account) && forall k :: 0 <= k < |events| ==> !(events[k].Activate? && events[k].account == account)
    ensures Suspended(RunFrom(s, events).tables, account)
  {
    if events != [] {
      var n := |events| - 1;
      StaysSuspended(s, events[..n], account);
      StepTables(RunFrom(s, events[..n]), events[n]);
      WriteKeepsSuspended(RunFrom(s, events[..n]).tables, events[n], account);
    }
  }

  /** After an account is suspended by its tenant, no key row of it, current or remembered, authenticates in any run that
      does not activate it. */
  lemma {:induction false} SuspendedNeverAuthenticates(s: Instance, tenant: nat, account: nat, events: seq<Event>, row: KeyRow, claimed: nat, now: int)
    requires account in s.tables.accounts && s.tables.accounts[account].tenant == tenant && row.account == account
    requires forall k :: 0 <= k < |events| ==> !(events[k].Activate? && events[k].account == account)
    ensures Authenticate(RunFrom(Step(s, Suspend(tenant, account)), events).tables, row, claimed, now) == Err(Denied)
  {
    var d := Step(s, Suspend(tenant, account));
    StepTables(s, Suspend(tenant, account));
    StaysSuspended(d, events, account);
    AuthenticateIff(RunFrom(d, events).tables, row, claimed, now);
  }

  /** After a key is revoked, what a lookup finds for it never authenticates again. */
  lemma {:induction false} RevokedNeverAuthenticates(s: Instance, id: nat, account: nat, keyId: string, events: seq<Event>, claimed: nat, now: int)
    requires Agrees(s) && keyId in s.tables.keys
    requires s.tables.keys[keyId].id == id && s.tables.keys[keyId].account == account
    ensures var t := RunFrom(Step(s, RevokeKey(id, account, keyId)), events);
      Find(t, keyId).Some? && Authenticate(t.tables, Find(t, keyId).value, claimed, now) == Err(Denied)
  {
    RevokedNeverVerifies(s, id, account, keyId, events, now);
  }

  /** Service is given as well as taken: a tenant, an account and a key, each newly made, authenticate together at once,
      and an account activated again authenticates with any usable key if its tenant is active. */
  lemma {:induction false} NewcomerAuthenticates(t: Tables, tenant: nat, account: nat, keyId: string, input: KeyRow, now: int)
    requires tenant !in t.tenants && account !in t.accounts && keyId !in t.keys && input.account == account
    requires input.expiresAt.None? || now <= input.expiresAt.value
    ensures var u := Write(Write(Write(t, CreateTenant(tenant)), CreateAccount(account, tenant)), RegisterKey(keyId, input));
      keyId in u.keys && Authenticate(u, u.keys[keyId], account, now) == Ok(AuthContext(tenant, account))
  {
    var a := Write(t, CreateTenant(tenant));
    var b := Write(a, CreateAccount(account, tenant));
    assert b.accounts[account] == Account(tenant, AccountActive) && b.tenants[tenant] == TenantActive;
    var u := Write(b, RegisterKey(keyId, input));
    AuthenticateIff(u, u.keys[keyId], account, now);
  }

  lemma {:induction false} ActivatedAuthenticates(t: Tables, tenant: nat, account: nat, row: KeyRow, now: int)
    requires account in t.accounts && t.accounts[account].tenant == tenant && row.account == account && Usable(row, now)
    requires tenant in t.tenants && t.tenants[tenant] == TenantActive
    ensures Authenticate(Write(t, Activate(tenant, account)), row, account, now) == Ok(AuthContext(tenant, account))
  {
    AuthenticateIff(Write(t, Activate(tenant, account)), row, account, now);
  }

  /** What else the writes do to the key table: registration stores the key under its id, active and unused; use changes
      the bookkeeping timestamp only; no write touches another key. */
  lemma {:induction false} KeyWrites(t: Tables, keyId: string, input: KeyRow, at: int, e: Event, k: string)
    ensures keyId !in t.keys && input.account in t.accounts ==>
      var u := Write(t, RegisterKey(keyId, input));
      keyId in u.keys && u.keys[keyId].status == Active && u.keys[keyId].lastUsed.None?
      && u.keys[keyId].id == input.id && u.keys[keyId].account == input.account && u.keys[keyId].material == input.material
      && u.keys[keyId].expiresAt == input.expiresAt
    ensures keyId in t.keys ==> Write(t, RegisterKey(keyId, input)) == t
    ensures keyId in t.keys ==>
      var u := Write(t, TouchKey(keyId, at));
      keyId in u.keys && SameKey(u.keys[keyId], t.keys[keyId]) && u.keys[keyId].lastUsed == Some(at)
    ensures k in t.keys && !(e.RegisterKey? && e.keyId == k) && !(e.RevokeKey? && e.keyId == k) && !(e.TouchKey? && e.keyId == k) ==>
      k in Write(t, e).keys && Write(t, e).keys[k] == t.keys[k]
  {
  }

  /** Writes are scoped: an account can be suspended or activated only in the name of its tenant, a key revoked only by its
      own id and account, an account created only under an existing tenant; otherwise nothing changes. */
  lemma {:induction false} WritesAreScoped(t: Tables, tenant: nat, account: nat, id: nat, keyId: string)
    ensures !(account in t.accounts && t.accounts[account].tenant == tenant) ==>
      Write(t, Suspend(tenant, account)) == t && Write(t, Activate(tenant, account)) == t
    ensures !(keyId in t.keys && t.keys[keyId].id == id && t.keys[keyId].account == account) ==>
      Write(t, RevokeKey(id, account, keyId)) == t
    ensures tenant !in t.tenants ==> Write(t, CreateAccount(account, tenant)) == t && Write(t, DeleteTenant(tenant)) == t
    ensures Write(t, UpdateTenant(tenant)) == t && Write(t, UpdateAccount(tenant, account)) == t
  {
  }
}

/** Policies and bindings in the database, the admin handlers that change them, and the per-account cache of
    merged policies on one gateway instance. Each handler is one step: validate, write, invalidate. */
module PolicyAdmin {
  import opened Wrappers
  import opened Validation
  import opened PolicyMerge
  import opened PolicyDecision

  /** `accounts` holds each account's default policy, if it has one; `issued` every policy id ever given out. */
  datatype Database = Database(
    policies: map<nat, Policy>, bindings: set<(nat, nat)>, accounts: map<nat, Option<nat>>, issued: set<nat>)

  /** The foreign keys. */
  ghost predicate Consistent(db: Database) {
    && (forall b :: b in db.bindings ==> b.0 in db.accounts && b.1 in db.policies)
    && (forall a :: a in db.accounts && db.accounts[a].Some? ==> db.accounts[a].value in db.policies)
    && (forall id :: id in db.policies ==> db.policies[id].id == id && id in db.issued)
  }

  // ---------------------------------------------------------------------------
  // Loading
  // ---------------------------------------------------------------------------

  /** The policies bound to an account. */
  function Bound(db: Database, account: nat): set<Policy> {
    set b | b in db.bindings && b.0 == account && b.1 in db.policies :: db.policies[b.1]
  }

  /** Those and the policy `default`, if it exists. */
  function Loaded(db: Database, account: nat, default: Option<nat>): set<Policy> {
    if default.Some? && default.value in db.policies then Bound(db, account) + {db.policies[default.value]}
    else Bound(db, account)
  }

  /** What the tables prescribe for an account. */
  function Applicable(db: Database, account: nat): set<Policy> {
    Loaded(db, account, if account in db.accounts then db.accounts[account] else None)
  }

  /** `default`: as read when the request was authenticated. `rows`: the join on bindings, in whatever order the
      database returns it. */
  method ListPolicies(db: Database, account: nat, default: Option<nat>, rows: seq<Policy>) returns (ps: seq<Policy>)
    requires Consistent(db) && SetOf(rows) == Bound(db, account)
    ensures SetOf(ps) == Loaded(db, account, default)
    ensures (forall i, j :: 0 <= i < j < |rows| ==> rows[i].id != rows[j].id) ==>
      forall i, j :: 0 <= i < j < |ps| ==> ps[i].id != ps[j].id
  {
    ps := rows;
    assert forall p :: p in rows ==> p in SetOf(rows);
    if default.Some? {
      var present := exists i :: 0 <= i < |ps| && ps[i].id == default.value;
      if !present {
        if default.value in db.policies {
          ps := ps + [db.policies[default.value]];
        }
      } else {
        var i :| 0 <= i < |ps| && ps[i].id == default.value;
        assert ps[i] in SetOf(rows);
        assert db.policies[default.value] == ps[i];
      }
    }
  }

  /** A default read earlier: still the account's, or that of a policy deleted since. */
  predicate Recent(db: Database, account: nat, default: Option<nat>) {
    && account in db.accounts
    && (default.Some? ==> default.value in db.issued)
    && (default == db.accounts[account] || (db.accounts[account].None? && default.Some? && default.value !in db.policies))
  }

  /** Loading with such a default is loading with the current one. */
  lemma {:induction false} RecentLoad(db: Database, account: nat, default: Option<nat>)
    requires Recent(db, account, default)
    ensures Loaded(db, account, default) == Applicable(db, account)
  {
  }

  // ---------------------------------------------------------------------------
  // Writing
  // ---------------------------------------------------------------------------

  datatype Body = Body(
    name: Option<string>, allowed: Option<Json>, denied: Option<Json>, maxInput: Option<I32>, maxOutput: Option<I32>,
    streaming: Option<bool>, tools: Option<bool>, files: Option<bool>, rpm: Option<I32>, concurrency: Option<I32>)

  predicate BodyOk(b: Body) {
    && OptionOk(b.allowed, ValidModelsJson) && OptionOk(b.denied, ValidModelsJson)
    && (b.maxInput.Some? ==> ValidTokenLimit(b.maxInput.value))
    && (b.maxOutput.Some? ==> ValidTokenLimit(b.maxOutput.value))
    && (b.rpm.Some? ==> ValidRpmLimit(b.rpm.value))
    && (b.concurrency.Some? ==> ValidConcurrencyLimit(b.concurrency.value))
  }

  function Coalesce<T>(o: Option<T>, current: Option<T>): Option<T> {
    if o.Some? then o else current
  }

  function NewPolicy(id: nat, tenant: nat, b: Body): Policy {
    Policy(id, tenant, Or(b.name, ""), Or(b.allowed, Array([])), Or(b.denied, Array([])), b.maxInput, b.maxOutput,
           Or(b.streaming, true), Or(b.tools, true), Or(b.files, true), b.rpm, b.concurrency)
  }

  /** An absent field keeps its value, so a limit once set can be changed but not removed. */
  function Updated(p: Policy, b: Body): Policy {
    Policy(p.id, p.tenant, Or(b.name, p.name), Or(b.allowed, p.allowed), Or(b.denied, p.denied),
           Coalesce(b.maxInput, p.maxInput), Coalesce(b.maxOutput, p.maxOutput),
           Or(b.streaming, p.streaming), Or(b.tools, p.tools), Or(b.files, p.files),
           Coalesce(b.rpm, p.rpm), Coalesce(b.concurrency, p.concurrency))
  }

  /** Deleting a policy takes its bindings with it and clears it as a default. */
  function Delete(db: Database, id: nat): Database {
    Database(db.policies - {id},
             set b | b in db.bindings && b.1 != id,
             map a | a in db.accounts :: if db.accounts[a] == Some(id) then None else db.accounts[a],
             db.issued)
  }

  /** A new policy under an id that was never used before. */
  function Insert(db: Database, id: nat, p: Policy): Database {
    db.(policies := db.policies[id := p], issued := db.issued + {id})
  }

  predicate Owns(db: Database, tenant: nat, id: nat) {
    id in db.policies && db.policies[id].tenant == tenant
  }

  // ---------------------------------------------------------------------------
  // One instance
  // ---------------------------------------------------------------------------

  datatype Instance = Instance(db: Database, cache: map<nat, Evaluated>)

  /** `cleared`: the role and name checks passed and the database took the write. */
  datatype Event =
    | CreatePolicy(id: nat, tenant: nat, body: Body, cleared: bool)
    | UpdatePolicy(tenant: nat, id: nat, body: Body, cleared: bool)
    | DeletePolicy(tenant: nat, id: nat, cleared: bool)
    | CreateBinding(account: nat, id: nat, cleared: bool)
    | DeleteBinding(account: nat, id: nat, cleared: bool)
    | CreateAccount(account: nat, cleared: bool)
    // `default`: as read at authentication; `answer`: the merge of a fresh load
    | Lookup(account: nat, default: Option<nat>, answer: Result<Evaluated, PolicyError>)
    | Evict(account: nat)  // TTL or capacity

  function Step(s: Instance, e: Event): Instance {
    match e
    case CreatePolicy(id, tenant, body, cleared) =>
      if cleared && BodyOk(body) && id !in s.db.issued then Instance(Insert(s.db, id, NewPolicy(id, tenant, body)), map[]) else s
    case UpdatePolicy(tenant, id, body, cleared) =>
      if cleared && BodyOk(body) && Owns(s.db, tenant, id)
      then Instance(s.db.(policies := s.db.policies[id := Updated(s.db.policies[id], body)]), map[]) else s
    case DeletePolicy(tenant, id, cleared) =>
      if cleared && Owns(s.db, tenant, id) then Instance(Delete(s.db, id), map[]) else s
    case CreateBinding(account, id, cleared) =>
      if cleared && account in s.db.accounts && id in s.db.policies && (account, id) !in s.db.bindings
      then Instance(s.db.(bindings := s.db.bindings + {(account, id)}), s.cache - {account}) else s
    case DeleteBinding(account, id, cleared) =>
      if cleared && (account, id) in s.db.bindings
      then Instance(s.db.(bindings := s.db.bindings - {(account, id)}), s.cache - {account}) else s
    case CreateAccount(account, cleared) =>
      if cleared && account !in s.db.accounts
      then s.(db := s.db.(accounts := s.db.accounts[account := None])) else s
    case Lookup(account, _, answer) =>
      if account in s.db.accounts && account !in s.cache && answer.Ok?
      then s.(cache := s.cache[account := answer.value]) else s
    case Evict(account) => s.(cache := s.cache - {account})
  }

  /** What `get_or_evaluate` returns. */
  function Evaluation(s: Instance, account: nat, answer: Result<Evaluated, PolicyError>): Result<Evaluated, PolicyError> {
    if account in s.cache then Ok(s.cache[account]) else answer
  }

  function Run(db: Database, events: seq<Event>): Instance {
    if events == [] then Instance(db, map[]) else Step(Run(db, events[..|events| - 1]), events[|events| - 1])
  }

  /** `default` was the account's default policy at some point of the run up to now. */
  ghost predicate ReadEarlier(db: Database, events: seq<Event>, account: nat, default: Option<nat>) {
    exists j :: 0 <= j <= |events| && DefaultIs(Run(db, events[..j]).db, account, default)
  }

  predicate DefaultIs(db: Database, account: nat, default: Option<nat>) {
    account in db.accounts && db.accounts[account] == default
  }

  /** A lookup uses a default read earlier in the run, and loads and merges what the tables now hold. */
  ghost predicate TrueAnswer(db: Database, events: seq<Event>, e: Event) {
    e.Lookup? ==>
      && ReadEarlier(db, events, e.account, e.default)
      && MergeResult(Loaded(Run(db, events).db, e.account, e.default), e.answer)
  }

  ghost predicate TrueAnswers(db: Database, events: seq<Event>) {
    forall k :: 0 <= k < |events| ==> TrueAnswer(db, events[..k], events[k])
  }

  // ---------------------------------------------------------------------------
  // A default read earlier is as good as the current one
  // ---------------------------------------------------------------------------

  lemma {:induction false} StepConsistent(s: Instance, e: Event)
    requires Consistent(s.db)
    ensures Consistent(Step(s, e).db)
  {
    if e.DeletePolicy? {
      DeleteConsistent(s.db, e.id);
    }
  }

  lemma {:induction false} RunConsistent(db: Database, events: seq<Event>)
    requires Consistent(db)
    ensures Consistent(Run(db, events).db)
  {
    if events != [] {
      RunConsistent(db, events[..|events| - 1]);
      StepConsistent(Run(db, events[..|events| - 1]), events[|events| - 1]);
    }
  }

  lemma {:induction false} StepRecent(s: Instance, e: Event, account: nat, default: Option<nat>)
    requires Recent(s.db, account, default)
    ensures Recent(Step(s, e).db, account, default)
  {
  }

  lemma {:induction false} RunRecent(db: Database, events: seq<Event>, j: nat, account: nat, default: Option<nat>)
    requires Consistent(db) && j <= |events| && DefaultIs(Run(db, events[..j]).db, account, default)
    ensures Recent(Run(db, events).db, account, default)
    decreases |events|
  {
    var n := |events| - 1;
    if j == |events| {
      assert events[..j] == events;
      RunConsistent(db, events);
    } else {
      assert events[..n][..j] == events[..j];
      RunRecent(db, events[..n], j, account, default);
      StepRecent(Run(db, events[..n]), events[n], account, default);
    }
  }

  /** Only the deletion of the policy itself takes a default away, and ids are not used twice: so a load with a default
      read at any earlier point of the run is a load with the current one. */
  lemma {:induction false} EarlierDefaultLoads(db: Database, events: seq<Event>, account: nat, default: Option<nat>)
    requires Consistent(db) && ReadEarlier(db, events, account, default)
    ensures Recent(Run(db, events).db, account, default)
    ensures Loaded(Run(db, events).db, account, default) == Applicable(Run(db, events).db, account)
  {
    var j :| 0 <= j <= |events| && DefaultIs(Run(db, events[..j]).db, account, default);
    RunRecent(db, events, j, account, default);
    RecentLoad(Run(db, events).db, account, default);
  }

  // ---------------------------------------------------------------------------
  // The cache agrees with the database
  // ---------------------------------------------------------------------------

  ghost predicate EntryAgrees(s: Instance, account: nat)
    requires account in s.cache
  {
    account in s.db.accounts && MergeResult(Applicable(s.db, account), Ok(s.cache[account]))
  }

  ghost predicate Agrees(s: Instance) {
    Consistent(s.db) && forall account :: account in s.cache ==> EntryAgrees(s, account)
  }

  lemma {:induction false} DeleteConsistent(db: Database, id: nat)
    requires Consistent(db)
    ensures Consistent(Delete(db, id))
  {
  }

  lemma {:induction false} StepAgrees(s: Instance, e: Event)
    requires Agrees(s) && (e.Lookup? ==> MergeResult(Applicable(s.db, e.account), e.answer))
    ensures Agrees(Step(s, e))
  {
    StepConsistent(s, e);
    forall account | account in Step(s, e).cache
      ensures EntryAgrees(Step(s, e), account)
    {
      EntryStays(s, e, account);
    }
  }

  lemma {:induction false} EntryStays(s: Instance, e: Event, account: nat)
    requires Agrees(s) && (e.Lookup? ==> MergeResult(Applicable(s.db, e.account), e.answer))
    requires account in Step(s, e).cache
    ensures EntryAgrees(Step(s, e), account)
  {
    var t := Step(s, e);
    if account in s.cache {
      assert EntryAgrees(s, account);
      UntouchedLoad(s, e, account);
      EntryKept(s, e, account);
    } else {
      assert e.Lookup? && account == e.account && t.db == s.db;
    }
  }

  lemma {:induction false} EntryKept(s: Instance, e: Event, account: nat)
    requires account in s.cache && account in Step(s, e).cache
    ensures Step(s, e).cache[account] == s.cache[account]
    ensures account in s.db.accounts ==> account in Step(s, e).db.accounts
  {
  }

  /** A step that leaves an account's entry in the cache leaves its load alone. */
  lemma {:induction false} UntouchedLoad(s: Instance, e: Event, account: nat)
    requires account in s.cache && account in Step(s, e).cache && account in s.db.accounts
    ensures Applicable(Step(s, e).db, account) == Applicable(s.db, account)
  {
    var t := Step(s, e);
    assert Bound(t.db, account) == Bound(s.db, account);
  }

  lemma {:induction false} RunAgrees(db: Database, events: seq<Event>)
    requires Consistent(db) && TrueAnswers(db, events)
    ensures Agrees(Run(db, events))
  {
    if events != [] {
      var n := |events| - 1;
      forall k | 0 <= k < n
        ensures TrueAnswer(db, events[..n][..k], events[..n][k])
      {
        assert events[..n][..k] == events[..k];
      }
      RunAgrees(db, events[..n]);
      assert TrueAnswer(db, events[..n], events[n]);
      if events[n].Lookup? {
        EarlierDefaultLoads(db, events[..n], events[n].account, events[n].default);
      }
      StepAgrees(Run(db, events[..n]), events[n]);
    }
  }

  /** After any sequence of policy and binding handlers, lookups and evictions, an evaluation, cached or not, is the
      merge of what the database now holds for the account, bindings cascaded and defaults cleared included. */
  lemma {:induction false} EvaluationIsCurrent(db: Database, events: seq<Event>, account: nat, default: Option<nat>, answer: Result<Evaluated, PolicyError>)
    requires Consistent(db) && TrueAnswers(db, events) && ReadEarlier(db, events, account, default)
    requires MergeResult(Loaded(Run(db, events).db, account, default), answer)
    ensures var s := Run(db, events); var r := Evaluation(s, account, answer);
      && MergeResult(Applicable(s.db, account), r)
      && (r.Ok? <==> answer.Ok?)
      && (r.Ok? ==> SamePolicy(r.value, answer.value))
  {
    RunAgrees(db, events);
    EarlierDefaultLoads(db, events, account, default);
    var s := Run(db, events);
    if account in s.cache {
      assert EntryAgrees(s, account);
    }
    MergeIsDetermined(Applicable(s.db, account), Evaluation(s, account, answer), answer);
  }

  // ---------------------------------------------------------------------------
  // Validation on write is enough for reading
  // ---------------------------------------------------------------------------

  ghost predicate AllStored(db: Database) {
    forall id :: id in db.policies ==> Stored(db.policies[id])
  }

  lemma {:induction false} ValidListStored(j: Json)
    requires ValidModelsJson(j)
    ensures IsStrings(j) && forall x :: x in Strings(j).value ==> ValidPattern(x)
  {
  }

  lemma {:induction false} NewPolicyStored(id: nat, tenant: nat, b: Body)
    requires BodyOk(b)
    ensures Stored(NewPolicy(id, tenant, b))
  {
    var p := NewPolicy(id, tenant, b);
    ValidListStored(p.allowed);
    ValidListStored(p.denied);
  }

  lemma {:induction false} UpdatedStored(p: Policy, b: Body)
    requires Stored(p) && BodyOk(b)
    ensures Stored(Updated(p, b))
  {
    var q := Updated(p, b);
    if b.allowed.Some? {
      ValidListStored(q.allowed);
    }
    if b.denied.Some? {
      ValidListStored(q.denied);
    }
    assert Allow(q) == if b.allowed.Some? then Strings(q.allowed).value else Allow(p);
    assert Deny(q) == if b.denied.Some? then Strings(q.denied).value else Deny(p);
  }

  lemma {:induction false} RunStaysStored(db: Database, events: seq<Event>)
    requires AllStored(db)
    ensures AllStored(Run(db, events).db)
  {
    if events != [] {
      var n := |events| - 1;
      RunStaysStored(db, events[..n]);
      var s, e := Run(db, events[..n]), events[n];
      if e.CreatePolicy? && BodyOk(e.body) {
        NewPolicyStored(e.id, e.tenant, e.body);
      } else if e.UpdatePolicy? && BodyOk(e.body) && Owns(s.db, e.tenant, e.id) {
        UpdatedStored(s.db.policies[e.id], e.body);
      }
    }
  }

  /** Whatever the handlers have done, no set of stored policies can make the merge fail, and on every stored
      pattern the simple glob matcher agrees with the full wildcard matcher. */
  lemma {:induction false} ReadSideNeverFails(db: Database, events: seq<Event>, ids: set<nat>, r: Result<Evaluated, PolicyError>)
    requires AllStored(db) && ids <= Run(db, events).db.policies.Keys
    requires MergeResult(set id | id in ids :: Run(db, events).db.policies[id], r)
    ensures r.Ok?
    ensures forall id, x, value | id in ids && Lists(Run(db, events).db.policies[id], x) ::
      MatchesGlob(x, value) == Wildcard(x, value)
  {
    RunStaysStored(db, events);
    var policies := Run(db, events).db.policies;
    forall id, x, value | id in ids && Lists(policies[id], x)
      ensures MatchesGlob(x, value) == Wildcard(x, value)
    {
      assert Stored(policies[id]);
      ValidPatternIsSimple(x);
      SimplePattern(x, value);
    }
  }

  predicate Lists(p: Policy, pattern: string) {
    pattern in Allow(p) || pattern in Deny(p)
  }

  // ---------------------------------------------------------------------------
  // What the handlers do to the tables
  // ---------------------------------------------------------------------------

  /** A policy applies to an account if and only if it is bound to it or is its default. */
  lemma {:induction false} ApplicableIff(db: Database, account: nat, p: Policy)
    ensures p in Applicable(db, account) <==>
      exists id :: id in db.policies && db.policies[id] == p && AppliesBy(db, account, id)
  {
    if p in Bound(db, account) {
      var b :| b in db.bindings && b.0 == account && b.1 in db.policies && db.policies[b.1] == p;
      assert b == (account, b.1) && AppliesBy(db, account, b.1);
    }
    if id :| id in db.policies && db.policies[id] == p && AppliesBy(db, account, id) {
      if (account, id) in db.bindings {
        assert db.policies[(account, id).1] in Bound(db, account);
      }
    }
  }

  predicate AppliesBy(db: Database, account: nat, id: nat) {
    (account, id) in db.bindings || (account in db.accounts && db.accounts[account] == Some(id))
  }

  /** A body is accepted if and only if each value it carries is in range. */
  lemma {:induction false} BodyOkIff(b: Body)
    ensures BodyOk(b) <==>
      && (b.allowed.Some? ==> PatternList(b.allowed.value)) && (b.denied.Some? ==> PatternList(b.denied.value))
      && (b.maxInput.Some? ==> 1 <= b.maxInput.value <= 1_000_000)
      && (b.maxOutput.Some? ==> 1 <= b.maxOutput.value <= 1_000_000)
      && (b.rpm.Some? ==> 1 <= b.rpm.value <= 100_000)
      && (b.concurrency.Some? ==> 1 <= b.concurrency.value <= 10_000)
  {
    if b.allowed.Some? {
      ValuesAccepted(b.allowed.value, 0);
    }
    if b.denied.Some? {
      ValuesAccepted(b.denied.value, 0);
    }
  }

  ghost predicate PatternList(j: Json) {
    j.Array? && forall i :: 0 <= i < |j.items| ==> j.items[i].Str? && PatternShape(j.items[i].s)
  }

  /** A new row: the values given, no limit and no list where none is given, features allowed unless refused. */
  predicate CreatedFrom(p: Policy, id: nat, tenant: nat, b: Body) {
    && p.id == id && p.tenant == tenant && (b.name.Some? ==> p.name == b.name.value)
    && p.allowed == (match b.allowed case Some(j) => j case None => Array([]))
    && p.denied == (match b.denied case Some(j) => j case None => Array([]))
    && p.maxInput == b.maxInput && p.maxOutput == b.maxOutput && p.rpm == b.rpm && p.concurrency == b.concurrency
    && (p.streaming <==> b.streaming != Some(false)) && (p.tools <==> b.tools != Some(false)) && (p.files <==> b.files != Some(false))
  }

  /** `after` has the value given, or else the one before. */
  predicate Patched<T(==)>(before: T, given: Option<T>, after: T) {
    after == (match given case Some(v) => v case None => before)
  }

  predicate PatchedLimit(before: Option<I32>, given: Option<I32>, after: Option<I32>) {
    after == (match given case Some(v) => Some(v) case None => before)
  }

  predicate PatchedFrom(p: Policy, b: Body, q: Policy) {
    && q.id == p.id && q.tenant == p.tenant && Patched(p.name, b.name, q.name)
    && Patched(p.allowed, b.allowed, q.allowed) && Patched(p.denied, b.denied, q.denied)
    && PatchedLimit(p.maxInput, b.maxInput, q.maxInput) && PatchedLimit(p.maxOutput, b.maxOutput, q.maxOutput)
    && PatchedLimit(p.rpm, b.rpm, q.rpm) && PatchedLimit(p.concurrency, b.concurrency, q.concurrency)
    && Patched(p.streaming, b.streaming, q.streaming) && Patched(p.tools, b.tools, q.tools) && Patched(p.files, b.files, q.files)
  }

  /** No policy other than `id` is added, removed or changed. */
  ghost predicate OthersKept(before: Database, after: Database, id: nat) {
    forall k :: k != id ==> (k in before.policies <==> k in after.policies) && (k in before.policies ==> after.policies[k] == before.policies[k])
  }

  /** The policy is gone with its bindings and its use as a default, and nothing else is. */
  ghost predicate Removed(before: Database, after: Database, id: nat) {
    && id !in after.policies && OthersKept(before, after, id)
    && (forall b :: b in after.bindings <==> b in before.bindings && b.1 != id)
    && after.accounts.Keys == before.accounts.Keys
    && (forall a :: a in before.accounts ==>
          after.accounts[a] == if before.accounts[a] == Some(id) then None else before.accounts[a])
  }

  /** A lookup of a known account that misses caches its answer if it is one, and one that hits changes nothing: after it
      the account's entry is what was returned. An eviction drops one entry. */
  lemma {:induction false} LookupCaches(s: Instance, account: nat, default: Option<nat>, answer: Result<Evaluated, PolicyError>)
    requires account in s.db.accounts
    ensures var (t, r) := (Step(s, Lookup(account, default, answer)), Evaluation(s, account, answer));
      t.db == s.db && t.cache == if r.Ok? then s.cache[account := r.value] else s.cache
    ensures Step(s, Evict(account)) == Instance(s.db, s.cache - {account})
  {
    if account in s.cache {
      assert s.cache[account := s.cache[account]] == s.cache;
    }
  }

  function RunFrom(s: Instance, events: seq<Event>): Instance {
    if events == [] then s else Step(RunFrom(s, events[..|events| - 1]), events[|events| - 1])
  }

  ghost predicate Retired(db: Database, id: nat) {
    Consistent(db) && id !in db.policies && id in db.issued
  }

  lemma {:induction false} StaysRetired(s: Instance, events: seq<Event>, id: nat)
    requires Retired(s.db, id)
    ensures Retired(RunFrom(s, events).db, id)
  {
    if events != [] {
      StaysRetired(s, events[..|events| - 1], id);
      StepRetired(RunFrom(s, events[..|events| - 1]), events[|events| - 1], id);
    }
  }

  lemma {:induction false} StepRetired(s: Instance, e: Event, id: nat)
    requires Retired(s.db, id)
    ensures Retired(Step(s, e).db, id)
  {
    StepConsistent(s, e);
  }

  /** After a policy is deleted by its tenant, no policy with its id applies to any account again, in any run. */
  lemma {:induction false} RemovedNeverApplies(s: Instance, tenant: nat, id: nat, events: seq<Event>, account: nat, p: Policy)
    requires Consistent(s.db) && id in s.db.policies && s.db.policies[id].tenant == tenant
    requires p in Applicable(RunFrom(Step(s, DeletePolicy(tenant, id, true)), events).db, account)
    ensures p.id != id
  {
    var d := Step(s, DeletePolicy(tenant, id, true));
    StepConsistent(s, DeletePolicy(tenant, id, true));
    assert Removed(s.db, d.db, id);
    StaysRetired(d, events, id);
    ApplicableIff(RunFrom(d, events).db, account, p);
  }

  // ---------------------------------------------------------------------------
  // The instance as an object
  // ---------------------------------------------------------------------------

  datatype AdminError = Rejected | NotFound

  datatype LoadError = PolicyLoadFailed

  class PolicyService {
    var db: Database
    var cache: map<nat, Evaluated>

    ghost function Contents(): Instance
      reads this
    {
      Instance(db, cache)
    }

    ghost predicate Valid()
      reads this
    {
      Agrees(Contents())
    }

    constructor (db: Database)
      requires Consistent(db)
      ensures Valid() && Contents() == Instance(db, map[])
    {
      this.db := db;
      cache := map[];
    }

    method Create(id: nat, tenant: nat, body: Body) returns (r: Result<Policy, AdminError>)
      requires Valid() && id !in db.issued
      modifies this
      ensures Valid() && Contents() == Step(old(Contents()), CreatePolicy(id, tenant, body, true))
      ensures r.Ok? <==> BodyOk(body)
      ensures r.Ok? ==>
        && id in db.policies && db.policies[id] == r.value && CreatedFrom(r.value, id, tenant, body)
        && OthersKept(old(db), db, id) && db.bindings == old(db).bindings && db.accounts == old(db).accounts && cache == map[]
      ensures r.Err? ==> r.error == Rejected && db == old(db) && cache == old(cache)
    {
      StepAgrees(Contents(), CreatePolicy(id, tenant, body, true));
      if !BodyOk(body) {
        return Err(Rejected);
      }
      var policy := NewPolicy(id, tenant, body);
      db := Insert(db, id, policy);
      cache := map[];
      r := Ok(policy);
    }

    method Update(tenant: nat, id: nat, body: Body) returns (r: Result<Policy, AdminError>)
      requires Valid()
      modifies this
      ensures Valid() && Contents() == Step(old(Contents()), UpdatePolicy(tenant, id, body, true))
      ensures r == if !BodyOk(body) then Err(Rejected)
                   else if !Owns(old(db), tenant, id) then Err(NotFound)
                   else Ok(Updated(old(db).policies[id], body))
      ensures r.Ok? ==>
        && old(db).policies[id].tenant == tenant
        && id in db.policies && db.policies[id] == r.value && PatchedFrom(old(db).policies[id], body, r.value)
        && OthersKept(old(db), db, id) && db.bindings == old(db).bindings && db.accounts == old(db).accounts && cache == map[]
      ensures r.Err? ==> db == old(db) && cache == old(cache)
    {
      StepAgrees(Contents(), UpdatePolicy(tenant, id, body, true));
      if !BodyOk(body) {
        return Err(Rejected);
      }
      if !Owns(db, tenant, id) {
        return Err(NotFound);
      }
      var policy := Updated(db.policies[id], body);
      db := db.(policies := db.policies[id := policy]);
      cache := map[];
      r := Ok(policy);
    }

    method Remove(tenant: nat, id: nat) returns (r: Result<(), AdminError>)
      requires Valid()
      modifies this
      ensures Valid() && Contents() == Step(old(Contents()), DeletePolicy(tenant, id, true))
      ensures r == if id in old(db).policies && old(db).policies[id].tenant == tenant then Ok(()) else Err(NotFound)
      ensures r.Ok? ==> Removed(old(db), db, id) && cache == map[]
      ensures r.Err? ==> db == old(db) && cache == old(cache)
    {
      StepAgrees(Contents(), DeletePolicy(tenant, id, true));
      if !Owns(db, tenant, id) {
        return Err(NotFound);
      }
      db := Delete(db, id);
      cache := map[];
      r := Ok(());
    }

    method Bind(account: nat, id: nat) returns (r: Result<(), AdminError>)
      requires Valid()
      modifies this
      ensures Valid() && Contents() == Step(old(Contents()), CreateBinding(account, id, true))
      ensures r == if account in old(db).accounts && id in old(db).policies && (account, id) !in old(db).bindings
                   then Ok(()) else Err(Rejected)
      ensures r.Ok? ==>
        && db.bindings == old(db).bindings + {(account, id)} && db.policies == old(db).policies && db.accounts == old(db).accounts
        && cache == old(cache) - {account}
      ensures r.Err? ==> db == old(db) && cache == old(cache)
    {
      StepAgrees(Contents(), CreateBinding(account, id, true));
      if account !in db.accounts || id !in db.policies || (account, id) in db.bindings {
        return Err(Rejected);
      }
      db := db.(bindings := db.bindings + {(account, id)});
      cache := cache - {account};
      r := Ok(());
    }

    method Unbind(account: nat, id: nat) returns (r: Result<(), AdminError>)
      requires Valid()
      modifies this
      ensures Valid() && Contents() == Step(old(Contents()), DeleteBinding(account, id, true))
      ensures r == if (account, id) in old(db).bindings then Ok(()) else Err(NotFound)
      ensures r.Ok? ==>
        && db.bindings == old(db).bindings - {(account, id)} && db.policies == old(db).policies && db.accounts == old(db).accounts
        && cache == old(cache) - {account}
      ensures r.Err? ==> db == old(db) && cache == old(cache)
    {
      StepAgrees(Contents(), DeleteBinding(account, id, true));
      if (account, id) !in db.bindings {
        return Err(NotFound);
      }
      db := db.(bindings := db.bindings - {(account, id)});
      cache := cache - {account};
      r := Ok(());
    }

    /** The cached merge of the account's policies, loading and merging `rows` on a miss. A failed merge is not cached. */
    method GetOrEvaluate(account: nat, default: Option<nat>, rows: seq<Policy>) returns (r: Result<Evaluated, LoadError>)
      requires Valid() && Recent(db, account, default) && SetOf(rows) == Bound(db, account)
      modifies this
      ensures Valid() && db == old(db)
      ensures r.Ok? ==> MergeResult(Applicable(db, account), Ok(r.value)) && cache == old(cache)[account := r.value]
      ensures r.Err? ==> MergeResult(Applicable(db, account), Err(ConfigInvalid)) && cache == old(cache)
    {
      if account in cache {
        assert EntryAgrees(Contents(), account);
        assert cache[account := cache[account]] == cache;
        return Ok(cache[account]);
      }
      var policies := ListPolicies(db, account, default, rows);
      var merged := MergePolicies(policies);
      RecentLoad(db, account, default);
      StepAgrees(Contents(), Lookup(account, default, merged));
      if merged.Err? {
        return Err(PolicyLoadFailed);
      }
      cache := cache[account := merged.value];
      r := Ok(merged.value);
    }
  }
}

/** Provider routes: the table, the query that resolves an alias, the in-process cache in front of it,
    and the admin handlers that write the table and then clear the cache. One gateway instance;
    each handler is one step. */
module RouteDirectory {
  import opened Wrappers
  import opened Dispatch
  import opened Validation

  type Table = seq<Route>

  // ---------------------------------------------------------------------------
  // The resolving query
  // ---------------------------------------------------------------------------

  predicate Matches(r: Route, tenant: Tenant, alias: string) {
    r.modelAlias == alias && r.enabled && (r.tenant == Some(tenant) || r.tenant == None)
  }

  /** Tenant-scoped routes first, then ascending priority. */
  predicate Before(a: Route, b: Route) {
    || (a.tenant.Some? && b.tenant.None?)
    || (a.tenant.Some? == b.tenant.Some? && a.priority <= b.priority)
  }

  predicate Ordered(rows: seq<Route>) {
    forall i, j :: 0 <= i < j < |rows| ==> Before(rows[i], rows[j])
  }

  function Matching(table: Table, tenant: Tenant, alias: string): seq<Route> {
    if table == [] then [] else
      var rest, r := Matching(table[..|table| - 1], tenant, alias), table[|table| - 1];
      if Matches(r, tenant, alias) then rest + [r] else rest
  }

  /** An answer the database may give: exactly the matching rows, in a permitted order. */
  predicate Permitted(table: Table, tenant: Tenant, alias: string, rows: seq<Route>) {
    multiset(rows) == multiset(Matching(table, tenant, alias)) && Ordered(rows)
  }

  function Insert(r: Route, rows: seq<Route>): seq<Route> {
    if rows == [] || Before(r, rows[0]) then [r] + rows else [rows[0]] + Insert(r, rows[1..])
  }

  function Sort(rows: seq<Route>): seq<Route> {
    if rows == [] then [] else Insert(rows[|rows| - 1], Sort(rows[..|rows| - 1]))
  }

  function Query(table: Table, tenant: Tenant, alias: string): seq<Route> {
    Sort(Matching(table, tenant, alias))
  }

  lemma {:induction false} InsertAdds(r: Route, rows: seq<Route>)
    ensures multiset(Insert(r, rows)) == multiset([r]) + multiset(rows)
  {
    if rows != [] && !Before(r, rows[0]) {
      InsertAdds(r, rows[1..]);
      assert rows == [rows[0]] + rows[1..];
    }
  }

  lemma {:induction false} InsertMembers(r: Route, rows: seq<Route>, x: Route)
    ensures x in Insert(r, rows) <==> x == r || x in rows
  {
    InsertAdds(r, rows);
    assert x in Insert(r, rows) <==> x in multiset(Insert(r, rows));
    assert x in rows <==> x in multiset(rows);
  }

  lemma {:induction false} InsertOrdered(r: Route, rows: seq<Route>)
    requires Ordered(rows)
    ensures Ordered(Insert(r, rows))
  {
    if rows != [] && !Before(r, rows[0]) {
      var tail := Insert(r, rows[1..]);
      InsertOrdered(r, rows[1..]);
      forall j | 0 <= j < |tail|
        ensures Before(rows[0], tail[j])
      {
        InsertMembers(r, rows[1..], tail[j]);
      }
    }
  }

  lemma {:induction false} LastSplits(rows: seq<Route>)
    requires rows != []
    ensures multiset(rows) == multiset([rows[|rows| - 1]]) + multiset(rows[..|rows| - 1])
  {
    assert rows == rows[..|rows| - 1] + [rows[|rows| - 1]];
  }

  lemma {:induction false} SortPermutes(rows: seq<Route>)
    ensures multiset(Sort(rows)) == multiset(rows)
  {
    if rows != [] {
      var n := |rows| - 1;
      SortPermutes(rows[..n]);
      InsertAdds(rows[n], Sort(rows[..n]));
      LastSplits(rows);
    }
  }

  lemma {:induction false} SortOrders(rows: seq<Route>)
    ensures Ordered(Sort(rows))
  {
    if rows != [] {
      var n := |rows| - 1;
      SortOrders(rows[..n]);
      InsertOrdered(rows[n], Sort(rows[..n]));
    }
  }

  /** The query has an answer for every table, tenant and alias. */
  lemma {:induction false} QueryIsPermitted(table: Table, tenant: Tenant, alias: string)
    ensures Permitted(table, tenant, alias, Query(table, tenant, alias))
  {
    SortPermutes(Matching(table, tenant, alias));
    SortOrders(Matching(table, tenant, alias));
  }

  lemma {:induction false} MatchingMembers(table: Table, tenant: Tenant, alias: string, r: Route)
    ensures r in Matching(table, tenant, alias) <==> r in table && Matches(r, tenant, alias)
  {
    if table != [] {
      MatchingMembers(table[..|table| - 1], tenant, alias, r);
      assert table == table[..|table| - 1] + [table[|table| - 1]];
    }
  }

  /** What a permitted answer means row by row. */
  lemma {:induction false} PermittedMembers(table: Table, tenant: Tenant, alias: string, rows: seq<Route>, r: Route)
    requires Permitted(table, tenant, alias, rows)
    ensures r in rows <==> r in table && Matches(r, tenant, alias)
  {
    MatchingMembers(table, tenant, alias, r);
    assert r in rows <==> r in multiset(rows);
    assert r in Matching(table, tenant, alias) <==> r in multiset(Matching(table, tenant, alias));
  }

  // ---------------------------------------------------------------------------
  // Cache keys
  // ---------------------------------------------------------------------------

  function CacheKey(tenant: Tenant, alias: string): string {
    "routes:" + tenant + ":" + alias
  }

  /** Different tenants or aliases never share a cache entry, whatever characters the alias contains. */
  lemma {:induction false} CacheKeyInjective(t1: Tenant, a1: string, t2: Tenant, a2: string)
    requires CacheKey(t1, a1) == CacheKey(t2, a2)
    ensures t1 == t2 && a1 == a2
  {
    var k1, k2 := CacheKey(t1, a1), CacheKey(t2, a2);
    assert t1 == k1[7..43] && t2 == k2[7..43];
    assert a1 == k1[44..] && a2 == k2[44..];
  }

  // ---------------------------------------------------------------------------
  // Handlers
  // ---------------------------------------------------------------------------

  datatype CreateInput = CreateInput(
    tenant: Option<Tenant>, modelAlias: string, provider: string, providerModel: string, priority: Option<I32>,
    enabled: Option<bool>, timeoutMs: Option<I32>, maxRetries: Option<I32>, retryBackoffMs: Option<I32>)

  datatype UpdateInput = UpdateInput(
    modelAlias: Option<string>, provider: Option<string>, providerModel: Option<string>, priority: Option<I32>,
    enabled: Option<bool>, timeoutMs: Option<I32>, maxRetries: Option<I32>, retryBackoffMs: Option<I32>)

  predicate KnownProvider(p: string) {
    p in ["openai", "anthropic", "gemini", "azure_openai", "vllm"]
  }

  predicate CreateOk(c: CreateInput) {
    KnownProvider(c.provider) && ValidModelIdentifier(c.modelAlias) && ValidModelIdentifier(c.providerModel)
  }

  predicate UpdateOk(u: UpdateInput) {
    && OptionOk(u.provider, KnownProvider)
    && OptionOk(u.modelAlias, ValidModelIdentifier)
    && OptionOk(u.providerModel, ValidModelIdentifier)
  }

  function NewRoute(id: nat, c: CreateInput): Route {
    Route(id, c.tenant, c.modelAlias, c.provider, c.providerModel, Or(c.priority, 100), Or(c.enabled, true),
          Or(c.timeoutMs, 30000), Or(c.maxRetries, 1), Or(c.retryBackoffMs, 250))
  }

  /** COALESCE: an absent field keeps its value; the scope of a route never changes. */
  function Updated(r: Route, u: UpdateInput): Route {
    Route(r.id, r.tenant, Or(u.modelAlias, r.modelAlias), Or(u.provider, r.provider), Or(u.providerModel, r.providerModel),
          Or(u.priority, r.priority), Or(u.enabled, r.enabled), Or(u.timeoutMs, r.timeoutMs),
          Or(u.maxRetries, r.maxRetries), Or(u.retryBackoffMs, r.retryBackoffMs))
  }

  predicate HasId(table: Table, id: nat) {
    exists i :: 0 <= i < |table| && table[i].id == id
  }

  function UpdateRows(table: Table, id: nat, u: UpdateInput): Table {
    seq(|table|, i requires 0 <= i < |table| => if table[i].id == id then Updated(table[i], u) else table[i])
  }

  function DeleteRows(table: Table, id: nat): Table {
    if table == [] then [] else
      var rest, r := DeleteRows(table[..|table| - 1], id), table[|table| - 1];
      if r.id == id then rest else rest + [r]
  }

  datatype Directory = Directory(table: Table, cache: map<string, seq<Route>>)

  datatype Event =
    | Create(id: nat, create: CreateInput)
    | Update(id: nat, update: UpdateInput)
    | Delete(id: nat)
    | Resolve(tenant: Tenant, alias: string, answer: seq<Route>)  // `answer`: what the database would say
    | Evict(key: string)                                          // TTL or capacity

  function Step(s: Directory, e: Event): Directory {
    match e
    case Create(id, c) =>
      if CreateOk(c) && !HasId(s.table, id) then Directory(s.table + [NewRoute(id, c)], map[]) else s
    case Update(id, u) =>
      if UpdateOk(u) && HasId(s.table, id) then Directory(UpdateRows(s.table, id, u), map[]) else s
    case Delete(id) =>
      if HasId(s.table, id) then Directory(DeleteRows(s.table, id), map[]) else s
    case Resolve(tenant, alias, answer) =>
      if CacheKey(tenant, alias) in s.cache then s
      else s.(cache := s.cache[CacheKey(tenant, alias) := answer])
    case Evict(key) => s.(cache := s.cache - {key})
  }

  /** The list handed to the caller of `resolve`. */
  function Resolved(s: Directory, tenant: Tenant, alias: string, answer: seq<Route>): seq<Route> {
    if CacheKey(tenant, alias) in s.cache then s.cache[CacheKey(tenant, alias)] else answer
  }

  function Run(table: Table, events: seq<Event>): Directory {
    if events == [] then Directory(table, map[]) else Step(Run(table, events[..|events| - 1]), events[|events| - 1])
  }

  /** Whenever the database is asked, it answers its query. */
  ghost predicate TrueAnswers(table: Table, events: seq<Event>) {
    forall k :: 0 <= k < |events| && events[k].Resolve? ==>
      Permitted(Run(table, events[..k]).table, events[k].tenant, events[k].alias, events[k].answer)
  }

  ghost predicate Agrees(s: Directory) {
    forall tenant, alias :: CacheKey(tenant, alias) in s.cache ==>
      Permitted(s.table, tenant, alias, s.cache[CacheKey(tenant, alias)])
  }

  lemma {:induction false} StepAgrees(s: Directory, e: Event)
    requires Agrees(s)
    requires e.Resolve? ==> Permitted(s.table, e.tenant, e.alias, e.answer)
    ensures Agrees(Step(s, e))
  {
    var t := Step(s, e);
    forall tenant, alias | CacheKey(tenant, alias) in t.cache
      ensures Permitted(t.table, tenant, alias, t.cache[CacheKey(tenant, alias)])
    {
      if e.Resolve? && CacheKey(tenant, alias) == CacheKey(e.tenant, e.alias) {
        CacheKeyInjective(tenant, alias, e.tenant, e.alias);
      }
      assert CacheKey(tenant, alias) in s.cache ==> Permitted(s.table, tenant, alias, s.cache[CacheKey(tenant, alias)]);
    }
  }

  lemma {:induction false} RunAgrees(table: Table, events: seq<Event>)
    requires TrueAnswers(table, events)
    ensures Agrees(Run(table, events))
  {
    if events != [] {
      var n := |events| - 1;
      forall k | 0 <= k < n && events[..n][k].Resolve?
        ensures Permitted(Run(table, events[..n][..k]).table, events[..n][k].tenant, events[..n][k].alias, events[..n][k].answer)
      {
        assert events[..n][..k] == events[..k];
      }
      RunAgrees(table, events[..n]);
      StepAgrees(Run(table, events[..n]), events[n]);
    }
  }

  /** After any run of route handlers, resolutions and evictions, a resolution, cached or not, returns exactly
      the enabled matching routes of the table as it now is, tenant-scoped first, then by ascending priority. */
  lemma {:induction false} ResolveIsCurrent(table: Table, events: seq<Event>, tenant: Tenant, alias: string, answer: seq<Route>)
    requires TrueAnswers(table, events)
    requires Permitted(Run(table, events).table, tenant, alias, answer)
    ensures var s := Run(table, events);
      && Permitted(s.table, tenant, alias, Resolved(s, tenant, alias, answer))
      && forall r :: r in Resolved(s, tenant, alias, answer) <==> r in s.table && Matches(r, tenant, alias)
  {
    RunAgrees(table, events);
    var s := Run(table, events);
    var rows := Resolved(s, tenant, alias, answer);
    forall r
      ensures r in rows <==> r in s.table && Matches(r, tenant, alias)
    {
      PermittedMembers(s.table, tenant, alias, rows, r);
    }
  }

  // ---------------------------------------------------------------------------
  // The instance as an object
  // ---------------------------------------------------------------------------

  // ---------------------------------------------------------------------------
  // On the columns of the routes
  // ---------------------------------------------------------------------------

  /** What a permitted answer is, row by row and pair by pair. */
  lemma {:induction false} PermittedOnColumns(table: Table, tenant: Tenant, alias: string, rows: seq<Route>)
    requires Permitted(table, tenant, alias, rows)
    ensures forall r :: r in rows <==> r in table && r.modelAlias == alias && r.enabled && (r.tenant == None || r.tenant == Some(tenant))
    ensures forall i, j :: 0 <= i < j < |rows| ==>
      && (rows[i].tenant.None? ==> rows[j].tenant.None?)
      && (rows[i].tenant.Some? == rows[j].tenant.Some? ==> rows[i].priority <= rows[j].priority)
  {
    forall r
      ensures r in rows <==> r in table && Matches(r, tenant, alias)
    {
      PermittedMembers(table, tenant, alias, rows, r);
    }
  }

  /** The providers, and names, a route may be created with. */
  predicate Creatable(c: CreateInput) {
    && c.provider in ["openai", "anthropic", "gemini", "azure_openai", "vllm"]
    && PlainName(c.modelAlias) && c.modelAlias != "" && PlainName(c.providerModel) && c.providerModel != ""
  }

  lemma {:induction false} CreateOkIff(c: CreateInput)
    ensures CreateOk(c) <==> Creatable(c)
  {
    PatternsAccepted(c.modelAlias);
    PatternsAccepted(c.providerModel);
  }

  predicate Patchable(u: UpdateInput) {
    && (u.provider.Some? ==> u.provider.value in ["openai", "anthropic", "gemini", "azure_openai", "vllm"])
    && (u.modelAlias.Some? ==> PlainName(u.modelAlias.value) && u.modelAlias.value != "")
    && (u.providerModel.Some? ==> PlainName(u.providerModel.value) && u.providerModel.value != "")
  }

  lemma {:induction false} UpdateOkIff(u: UpdateInput)
    ensures UpdateOk(u) <==> Patchable(u)
  {
    if u.modelAlias.Some? {
      PatternsAccepted(u.modelAlias.value);
    }
    if u.providerModel.Some? {
      PatternsAccepted(u.providerModel.value);
    }
  }

  predicate CreatedFrom(r: Route, id: nat, c: CreateInput) {
    && r.id == id && r.tenant == c.tenant && r.modelAlias == c.modelAlias
    && r.provider == c.provider && r.providerModel == c.providerModel
    && r.priority == (match c.priority case Some(n) => n case None => 100)
    && (r.enabled <==> c.enabled != Some(false))
    && r.timeoutMs == (match c.timeoutMs case Some(n) => n case None => 30000)
    && r.maxRetries == (match c.maxRetries case Some(n) => n case None => 1)
    && r.retryBackoffMs == (match c.retryBackoffMs case Some(n) => n case None => 250)
  }

  /** `after` has the value given, or else the one before. */
  predicate Patched<T(==)>(before: T, given: Option<T>, after: T) {
    after == (match given case Some(v) => v case None => before)
  }

  predicate PatchedFrom(r: Route, u: UpdateInput, q: Route) {
    && q.id == r.id && q.tenant == r.tenant
    && Patched(r.modelAlias, u.modelAlias, q.modelAlias) && Patched(r.provider, u.provider, q.provider)
    && Patched(r.providerModel, u.providerModel, q.providerModel) && Patched(r.enabled, u.enabled, q.enabled)
    && Patched(r.priority as int, Widen(u.priority), q.priority) && Patched(r.timeoutMs as int, Widen(u.timeoutMs), q.timeoutMs)
    && Patched(r.maxRetries as int, Widen(u.maxRetries), q.maxRetries)
    && Patched(r.retryBackoffMs as int, Widen(u.retryBackoffMs), q.retryBackoffMs)
  }

  function Widen(o: Option<I32>): Option<int> {
    match o case Some(n) => Some(n) case None => None
  }

  /** Row by row: those with the id are patched, the others kept. */
  ghost predicate RowsPatched(before: Table, id: nat, u: UpdateInput, after: Table) {
    && |after| == |before|
    && forall i :: 0 <= i < |before| ==> if before[i].id == id then PatchedFrom(before[i], u, after[i]) else after[i] == before[i]
  }

  lemma {:induction false} UpdatePatches(table: Table, id: nat, u: UpdateInput)
    ensures RowsPatched(table, id, u, UpdateRows(table, id, u))
  {
  }

  /** Exactly the rows with other ids are left, as often as before. */
  lemma {:induction false} DeleteLeaves(table: Table, id: nat)
    ensures forall x :: multiset(DeleteRows(table, id))[x] == if x.id == id then 0 else multiset(table)[x]
    ensures !HasId(DeleteRows(table, id), id)
    ensures forall k :: k != id ==> (HasId(DeleteRows(table, id), k) <==> HasId(table, k))
  {
    if table != [] {
      var n := |table| - 1;
      DeleteLeaves(table[..n], id);
      assert table == table[..n] + [table[n]];
      forall k
        ensures HasId(table, k) <==> HasId(table[..n], k) || table[n].id == k
        ensures table[n].id != id ==> (HasId(DeleteRows(table, id), k) <==> HasId(DeleteRows(table[..n], id), k) || table[n].id == k)
      {
        AppendId(table[..n], table[n], k);
        AppendId(DeleteRows(table[..n], id), table[n], k);
      }
    }
  }

  lemma {:induction false} NoneWithId(table: Table, id: nat)
    ensures !HasId(table, id) ==> forall x: Route :: x.id == id ==> multiset(table)[x] == 0
  {
    if !HasId(table, id) {
      forall x: Route | x.id == id
        ensures multiset(table)[x] == 0
      {
        assert x !in table;
      }
    }
  }

  lemma {:induction false} AppendId(table: Table, r: Route, k: nat)
    ensures HasId(table + [r], k) <==> HasId(table, k) || r.id == k
  {
    var all := table + [r];
    if i :| 0 <= i < |table| && table[i].id == k {
      assert all[i].id == k;
    } else if r.id == k {
      assert all[|table|].id == k;
    }
  }

  function RunFrom(s: Directory, events: seq<Event>): Directory {
    if events == [] then s else Step(RunFrom(s, events[..|events| - 1]), events[|events| - 1])
  }

  lemma {:induction false} StepStaysGone(s: Directory, e: Event, id: nat)
    requires !HasId(s.table, id) && !(e.Create? && e.id == id)
    ensures !HasId(Step(s, e).table, id)
  {
    match e
    case Create(k, c) => AppendId(s.table, NewRoute(k, c), id);
    case Update(k, u) => UpdatePatches(s.table, k, u);
    case Delete(k) => DeleteLeaves(s.table, k);
    case _ =>
  }

  /** After a route is deleted no later resolution of any run returns it, unless a route is created under its id. */
  lemma {:induction false} DeletedRouteStaysGone(s: Directory, id: nat, events: seq<Event>, tenant: Tenant, alias: string, rows: seq<Route>)
    requires forall k :: 0 <= k < |events| ==> !(events[k].Create? && events[k].id == id)
    requires Permitted(RunFrom(Step(s, Delete(id)), events).table, tenant, alias, rows)
    ensures forall r :: r in rows ==> r.id != id
  {
    GoneThroughout(s, id, events);
    PermittedOnColumns(RunFrom(Step(s, Delete(id)), events).table, tenant, alias, rows);
  }

  lemma {:induction false} GoneThroughout(s: Directory, id: nat, events: seq<Event>)
    requires forall k :: 0 <= k < |events| ==> !(events[k].Create? && events[k].id == id)
    ensures !HasId(RunFrom(Step(s, Delete(id)), events).table, id)
  {
    if events == [] {
      DeleteLeaves(s.table, id);
    } else {
      var n := |events| - 1;
      GoneThroughout(s, id, events[..n]);
      StepStaysGone(RunFrom(Step(s, Delete(id)), events[..n]), events[n], id);
    }
  }

  /** A resolution keeps the cache in agreement and answers for the table; it is empty only if nothing matches. */
  lemma {:induction false} Answered(s: Directory, tenant: Tenant, alias: string, answer: seq<Route>)
    ensures Agrees(s) && Permitted(s.table, tenant, alias, answer) ==>
      var rows := Resolved(s, tenant, alias, answer);
      && Agrees(Step(s, Resolve(tenant, alias, answer)))
      && Permitted(s.table, tenant, alias, rows)
      && (rows == [] <==> forall x :: x in s.table ==> !Matches(x, tenant, alias))
  {
    if Agrees(s) && Permitted(s.table, tenant, alias, answer) {
      StepAgrees(s, Resolve(tenant, alias, answer));
      var rows := Resolved(s, tenant, alias, answer);
      forall x
        ensures x in rows <==> x in s.table && Matches(x, tenant, alias)
      {
        PermittedMembers(s.table, tenant, alias, rows, x);
      }
      assert rows != [] ==> rows[0] in rows;
    }
  }

  datatype AdminError = ValidationFailed | NotFound

  datatype ResolveError = NoRoute

  class RouteService {
    var table: Table
    var cache: map<string, seq<Route>>

    ghost function Contents(): Directory
      reads this
    {
      Directory(table, cache)
    }

    /** Every cached list is a permitted answer for the table as it is. */
    ghost predicate Valid()
      reads this
    {
      Agrees(Contents())
    }

    constructor (table: Table)
      ensures Valid() && Contents() == Directory(table, map[])
    {
      this.table := table;
      cache := map[];
    }

    method CreateRoute(id: nat, c: CreateInput) returns (r: Result<Route, AdminError>)
      requires !HasId(table, id)
      modifies this
      ensures Contents() == Step(old(Contents()), Create(id, c)) && (old(Valid()) ==> Valid())
      ensures r.Ok? <==> Creatable(c)
      ensures r.Ok? ==> CreatedFrom(r.value, id, c) && table == old(table) + [r.value] && cache == map[]
      ensures r.Err? ==> r.error == ValidationFailed && table == old(table) && cache == old(cache)
    {
      CreateOkIff(c);
      if !KnownProvider(c.provider) || !ValidModelIdentifier(c.modelAlias) || !ValidModelIdentifier(c.providerModel) {
        return Err(ValidationFailed);
      }
      var route := NewRoute(id, c);
      table := table + [route];
      cache := map[];
      r := Ok(route);
    }

    method UpdateRoute(id: nat, u: UpdateInput) returns (r: Result<(), AdminError>)
      modifies this
      ensures Contents() == Step(old(Contents()), Update(id, u)) && (old(Valid()) ==> Valid())
      ensures r == if !Patchable(u) then Err(ValidationFailed)
                   else if HasId(old(table), id) then Ok(()) else Err(NotFound)
      ensures r.Ok? ==> RowsPatched(old(table), id, u, table) && cache == map[]
      ensures r.Err? ==> table == old(table) && cache == old(cache)
    {
      UpdateOkIff(u);
      UpdatePatches(table, id, u);
      if !UpdateOk(u) {
        return Err(ValidationFailed);
      }
      if !HasId(table, id) {
        return Err(NotFound);
      }
      table := UpdateRows(table, id, u);
      cache := map[];
      r := Ok(());
    }

    method DeleteRoute(id: nat) returns (r: Result<(), AdminError>)
      modifies this
      ensures Contents() == Step(old(Contents()), Delete(id)) && (old(Valid()) ==> Valid())
      ensures r == if HasId(old(table), id) then Ok(()) else Err(NotFound)
      ensures r.Ok? ==> !HasId(table, id) && cache == map[]
      ensures forall x :: multiset(table)[x] == if x.id == id then 0 else multiset(old(table))[x]
      ensures r.Err? ==> table == old(table) && cache == old(cache)
    {
      DeleteLeaves(table, id);
      NoneWithId(table, id);
      if !HasId(table, id) {
        return Err(NotFound);
      }
      table := DeleteRows(table, id);
      cache := map[];
      r := Ok(());
    }

    /** On a miss the database answers `answer`. An empty list is cached too, and reported as no route. */
    method ResolveRoutes(tenant: Tenant, alias: string, answer: seq<Route>) returns (r: Result<seq<Route>, ResolveError>)
      modifies this
      ensures Contents() == Step(old(Contents()), Resolve(tenant, alias, answer))
      ensures var rows := Resolved(old(Contents()), tenant, alias, answer);
        && r == (if rows == [] then Err(NoRoute) else Ok(rows))
        && table == old(table) && cache == old(cache)[CacheKey(tenant, alias) := rows]
      ensures old(Valid()) && Permitted(table, tenant, alias, answer) ==>
        && Valid()
        && (r.Ok? ==> Permitted(table, tenant, alias, r.value))
        && (r.Err? <==> forall x :: x in table ==> !Matches(x, tenant, alias))
    {
      Answered(Contents(), tenant, alias, answer);
      var key := CacheKey(tenant, alias);
      if key !in cache {
        cache := cache[key := answer];
      }
      var routes := cache[key];
      if routes == [] {
        return Err(NoRoute);
      }
      r := Ok(routes);
    }
  }
}

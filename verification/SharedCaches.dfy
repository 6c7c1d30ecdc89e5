/** The route cache and the policy cache on many gateway instances over one database: what the time-to-live alone
    guarantees when no instance hears of the writes made through another. `Age(ttl, d)` is ttl + d, d bounding one request,
    unless requests take longer than the time to live. */
module SharedCaches {
  import opened Wrappers
  import opened CacheStaleness
  import Dispatch
  import RouteDirectory
  import opened PolicyMerge
  import PolicyAdmin

  type Routes = RouteDirectory.Table
  type Database = PolicyAdmin.Database

  // ---------------------------------------------------------------------------
  // Routes: one query
  // ---------------------------------------------------------------------------

  function RouteAnswers(tenant: Dispatch.Tenant, alias: string): (seq<Routes>, seq<Dispatch.Route>) -> bool {
    (seen: seq<Routes>, rows: seq<Dispatch.Route>) => |seen| == 1 && RouteDirectory.Permitted(seen[0], tenant, alias, rows)
  }

  /** Every list served is a permitted answer for a table that was in force at most Age(ttl, d) seconds before. */
  lemma {:induction false} RoutesAreRecent(table: Routes, events: seq<Event<Routes, seq<Dispatch.Route>>>, ttl: nat, d: nat,
                                           tenant: Dispatch.Tenant, alias: string, k: nat)
    requires TimelyRun(table, events, ttl, d, RouteAnswers(tenant, alias)) && k < |Run(table, events, ttl).served|
    ensures var w := Run(table, events, ttl); var s := w.served[k];
      exists snap :: WasTable(w.history, snap) && s.at <= snap.at + Age(ttl, d)
                  && RouteDirectory.Permitted(snap.table, tenant, alias, s.copy.value)
  {
    ServedIsRecent(table, events, ttl, d, RouteAnswers(tenant, alias), k);
    var s := Run(table, events, ttl).served[k];
    assert Tables(s.copy.seen)[0] == s.copy.seen[0].table;
    assert WasTable(Run(table, events, ttl).history, s.copy.seen[0]);
  }

  /** The table offers `r` for the tenant and alias. */
  predicate Offers(table: Routes, tenant: Dispatch.Tenant, alias: string, r: Dispatch.Route) {
    r in table && RouteDirectory.Matches(r, tenant, alias)
  }

  /** A route deleted, disabled or changed is in no list served more than Age(ttl, d) seconds later, on any instance; one
      offered throughout is in every such list. */
  lemma {:induction false} RouteChangesArrive(table: Routes, events: seq<Event<Routes, seq<Dispatch.Route>>>, ttl: nat, d: nat,
                                              tenant: Dispatch.Tenant, alias: string, k: nat, t: nat, r: Dispatch.Route, offered: bool)
    requires TimelyRun(table, events, ttl, d, RouteAnswers(tenant, alias)) && k < |Run(table, events, ttl).served|
    requires Run(table, events, ttl).served[k].at > t + Age(ttl, d)
    requires Since(Run(table, events, ttl).history, t, (x: Routes) => Offers(x, tenant, alias, r) == offered)
    ensures r in Run(table, events, ttl).served[k].copy.value <==> offered
  {
    ChangesArrive(table, events, ttl, d, RouteAnswers(tenant, alias), k, t, (x: Routes) => Offers(x, tenant, alias, r) == offered);
    var c := Run(table, events, ttl).served[k].copy;
    RouteDirectory.PermittedMembers(Tables(c.seen)[0], tenant, alias, c.value, r);
  }

  // ---------------------------------------------------------------------------
  // Policies: the default read at authentication, then the bindings, then the default policy's row
  // ---------------------------------------------------------------------------

  function DefaultOf(db: Database, account: nat): Option<nat> {
    if account in db.accounts then db.accounts[account] else None
  }

  /** What the three queries gather, each from the tables as they then were. */
  function Gathered(first: Database, second: Database, third: Database, account: nat): set<Policy> {
    var default, rows := DefaultOf(first, account), PolicyAdmin.Bound(second, account);
    if default.Some? && (forall p :: p in rows ==> p.id != default.value) && default.value in third.policies
    then rows + {third.policies[default.value]} else rows
  }

  ghost function PolicyAnswers(account: nat): (seq<Database>, Evaluated) -> bool {
    (seen: seq<Database>, e: Evaluated) => |seen| == 3 && MergeResult(Gathered(seen[0], seen[1], seen[2], account), Ok(e))
  }

  /** `db` prescribes for the account what `now` does: same bindings, same default, same policies. */
  predicate Alike(db: Database, now: Database, account: nat) {
    && PolicyAdmin.Bound(db, account) == PolicyAdmin.Bound(now, account)
    && DefaultOf(db, account) == DefaultOf(now, account)
    && (DefaultOf(now, account).Some? ==>
          var id := DefaultOf(now, account).value;
          (id in db.policies <==> id in now.policies) && (id in now.policies ==> db.policies[id] == now.policies[id]))
  }

  lemma {:induction false} AlikeGathers(a: Database, b: Database, c: Database, now: Database, account: nat)
    requires PolicyAdmin.Consistent(now) && Alike(a, now, account) && Alike(b, now, account) && Alike(c, now, account)
    ensures Gathered(a, b, c, account) == PolicyAdmin.Applicable(now, account)
  {
    var default, rows := DefaultOf(now, account), PolicyAdmin.Bound(now, account);
    if default.Some? && default.value in now.policies {
      assert now.policies[default.value].id == default.value;
      forall p | p in rows && p.id == default.value
        ensures p == now.policies[default.value]
      {
      }
    }
  }

  /** Once nothing that concerns an account has changed for Age(ttl, d) seconds, every instance serves the merge of what the
      tables prescribe for it. */
  lemma {:induction false} PolicyChangesArrive(db: Database, events: seq<Event<Database, Evaluated>>, ttl: nat, d: nat,
                                               account: nat, k: nat, t: nat, now: Database)
    requires TimelyRun(db, events, ttl, d, PolicyAnswers(account)) && k < |Run(db, events, ttl).served|
    requires PolicyAdmin.Consistent(now) && Run(db, events, ttl).served[k].at > t + Age(ttl, d)
    requires Since(Run(db, events, ttl).history, t, (x: Database) => Alike(x, now, account))
    ensures MergeResult(PolicyAdmin.Applicable(now, account), Ok(Run(db, events, ttl).served[k].copy.value))
  {
    ChangesArrive(db, events, ttl, d, PolicyAnswers(account), k, t, (x: Database) => Alike(x, now, account));
    var seen := Tables(Run(db, events, ttl).served[k].copy.seen);
    AlikeGathers(seen[0], seen[1], seen[2], now, account);
  }

  predicate Within(merged: Option<nat>, limit: Option<I32>) {
    limit.Some? ==> merged.Some? && merged.value <= limit.value
  }

  /** `e` is at least as strict as the columns of `p`: limits, flags, and every denied item. */
  ghost predicate Enforces(e: Evaluated, p: Policy) {
    && Within(e.maxInput, p.maxInput) && Within(e.maxOutput, p.maxOutput)
    && Within(e.rpm, p.rpm) && Within(e.concurrency, p.concurrency)
    && (e.streaming ==> p.streaming) && (e.tools ==> p.tools) && (e.files ==> p.files)
    && (forall x :: ListsItem(p.denied, x) ==> x in e.denied)
  }

  lemma {:induction false} MergedEnforces(ps: set<Policy>, e: Evaluated, p: Policy)
    requires MergeResult(ps, Ok(e)) && p in ps
    ensures Enforces(e, p)
  {
    MergeOnColumns(ps, Ok(e));
    forall x | ListsItem(p.denied, x)
      ensures x in e.denied
    {
      assert DeniedBySome(ps, x);
    }
  }

  /** A policy bound to an account is enforced on every instance Age(ttl, d) seconds later, whatever else changes. */
  lemma {:induction false} BoundPolicyEnforced(db: Database, events: seq<Event<Database, Evaluated>>, ttl: nat, d: nat,
                                               account: nat, k: nat, t: nat, p: Policy)
    requires TimelyRun(db, events, ttl, d, PolicyAnswers(account)) && k < |Run(db, events, ttl).served|
    requires Run(db, events, ttl).served[k].at > t + Age(ttl, d)
    requires Since(Run(db, events, ttl).history, t, (x: Database) => p in PolicyAdmin.Bound(x, account))
    ensures Enforces(Run(db, events, ttl).served[k].copy.value, p)
  {
    ChangesArrive(db, events, ttl, d, PolicyAnswers(account), k, t, (x: Database) => p in PolicyAdmin.Bound(x, account));
    var c := Run(db, events, ttl).served[k].copy;
    var seen := Tables(c.seen);
    assert p in Gathered(seen[0], seen[1], seen[2], account);
    MergedEnforces(Gathered(seen[0], seen[1], seen[2], account), c.value, p);
  }
}

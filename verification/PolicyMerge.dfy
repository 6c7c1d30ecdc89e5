/** Merging the policies of an account, "most restrictive wins". The loop is proved against a
    description of the result that only speaks of the set of policies, so neither the order in which
    the database returns them nor repetition can matter. */
module PolicyMerge {
  import opened Wrappers
  import opened Validation

  datatype Policy = Policy(
    id: nat, tenant: nat, name: string, allowed: Json, denied: Json,
    maxInput: Option<I32>, maxOutput: Option<I32>, streaming: bool, tools: bool, files: bool,
    rpm: Option<I32>, concurrency: Option<I32>)

  /** The denylist is listed from a hash set in no particular order, so it is a set here. */
  datatype Evaluated = Evaluated(
    allowed: seq<string>, denied: set<string>, maxInput: Option<nat>, maxOutput: Option<nat>,
    streaming: bool, tools: bool, files: bool, rpm: Option<nat>, concurrency: Option<nat>)

  datatype PolicyError = ConfigInvalid

  /** What an account without any policy gets: no restriction on models, but no tools and no files. */
  function Unbound(): Evaluated {
    Evaluated([], {}, None, None, true, false, false, None, None)
  }

  // ---------------------------------------------------------------------------
  // Reading one policy
  // ---------------------------------------------------------------------------

  predicate IsStrings(j: Json) {
    j.Array? && forall i :: 0 <= i < |j.items| ==> j.items[i].Str?
  }

  /** Decoding a JSON value as a list of strings. */
  function Strings(j: Json): Option<seq<string>> {
    if IsStrings(j) then Some(seq(|j.items|, i requires 0 <= i < |j.items| => j.items[i].s)) else None
  }

  function Allow(p: Policy): seq<string> {
    if IsStrings(p.allowed) then Strings(p.allowed).value else []
  }

  function Deny(p: Policy): seq<string> {
    if IsStrings(p.denied) then Strings(p.denied).value else []
  }

  predicate Restricts(p: Policy) {
    Allow(p) != []
  }

  datatype Field = MaxInput | MaxOutput | Rpm | Concurrency

  function Limit(p: Policy, f: Field): Option<I32> {
    match f case MaxInput => p.maxInput case MaxOutput => p.maxOutput case Rpm => p.rpm case Concurrency => p.concurrency
  }

  function MergedLimit(e: Evaluated, f: Field): Option<nat> {
    match f case MaxInput => e.maxInput case MaxOutput => e.maxOutput case Rpm => e.rpm case Concurrency => e.concurrency
  }

  predicate Positive(o: Option<I32>) {
    o.Some? ==> o.value > 0
  }

  predicate WellFormed(p: Policy) {
    && IsStrings(p.allowed) && IsStrings(p.denied)
    && Positive(p.maxInput) && Positive(p.maxOutput) && Positive(p.rpm) && Positive(p.concurrency)
  }

  // ---------------------------------------------------------------------------
  // What the merge of a set of policies is
  // ---------------------------------------------------------------------------

  ghost predicate NobodyRestricts(ps: set<Policy>) {
    forall p :: p in ps ==> !Restricts(p)
  }

  ghost predicate OnEveryList(ps: set<Policy>, x: string) {
    forall p :: p in ps && Restricts(p) ==> x in Allow(p)
  }

  /** Patterns on every nonempty allowlist; none when there is no such list. */
  ghost predicate AllowMerged(ps: set<Policy>, allowed: seq<string>) {
    forall x :: x in allowed <==> !NobodyRestricts(ps) && OnEveryList(ps, x)
  }

  ghost predicate DenyMerged(ps: set<Policy>, denied: set<string>) {
    forall x :: x in denied <==> exists p :: p in ps && x in Deny(p)
  }

  ghost predicate LimitMerged(ps: set<Policy>, f: Field, limit: Option<nat>) {
    match limit
    case None => forall p :: p in ps ==> Limit(p, f).None?
    case Some(n) =>
      && (exists p :: p in ps && Limit(p, f) == Some(n))
      && (forall p :: p in ps && Limit(p, f).Some? ==> n <= Limit(p, f).value)
  }

  /** The flags of `e` are the conjunctions over `ps`. */
  ghost predicate FlagsMerged(ps: set<Policy>, e: Evaluated) {
    && (e.streaming <==> forall p :: p in ps ==> p.streaming)
    && (e.tools <==> forall p :: p in ps ==> p.tools)
    && (e.files <==> forall p :: p in ps ==> p.files)
  }

  ghost predicate Merged(ps: set<Policy>, e: Evaluated) {
    && AllowMerged(ps, e.allowed)
    && DenyMerged(ps, e.denied)
    && (forall f :: LimitMerged(ps, f, MergedLimit(e, f)))
    && FlagsMerged(ps, e)
  }

  /** The complete outcome for a set of policies. */
  ghost predicate MergeResult(ps: set<Policy>, r: Result<Evaluated, PolicyError>) {
    && (r.Ok? <==> forall p :: p in ps ==> WellFormed(p))
    && (r.Ok? ==> if ps == {} then r.value == Unbound() else Merged(ps, r.value))
    && (r.Err? ==> r.error == ConfigInvalid)
  }

  function SetOf<T>(s: seq<T>): set<T> {
    set x | x in s
  }

  // ---------------------------------------------------------------------------
  // The loop
  // ---------------------------------------------------------------------------

  function MergePositiveLimit(current: Option<nat>, value: Option<I32>): Result<Option<nat>, PolicyError> {
    match value
    case None => Ok(current)
    case Some(n) =>
      if n <= 0 then Err(ConfigInvalid)
      else if current.Some? && current.value <= n then Ok(current)
      else Ok(Some(n))
  }

  function Retain(s: seq<string>, keep: set<string>): (r: seq<string>)
    ensures forall x :: x in r <==> x in s && x in keep
  {
    if s == [] then [] else
      var rest := Retain(s[..|s| - 1], keep);
      if s[|s| - 1] in keep then rest + [s[|s| - 1]] else rest
  }

  lemma {:induction false} LimitStep(ps: set<Policy>, f: Field, current: Option<nat>, p: Policy)
    requires LimitMerged(ps, f, current)
    ensures var r := MergePositiveLimit(current, Limit(p, f));
      && (r.Ok? <==> Positive(Limit(p, f)))
      && (r.Ok? ==> LimitMerged(ps + {p}, f, r.value))
  {
    var r := MergePositiveLimit(current, Limit(p, f));
    if r.Ok? && r.value.Some? {
      if r.value == current {
        var q :| q in ps && Limit(q, f) == Some(current.value);
        assert q in ps + {p};
      } else {
        assert p in ps + {p};
      }
    }
  }

  lemma {:induction false} ListsStep(ps: set<Policy>, p: Policy)
    ensures NobodyRestricts(ps + {p}) <==> NobodyRestricts(ps) && !Restricts(p)
    ensures forall x :: OnEveryList(ps + {p}, x) <==> OnEveryList(ps, x) && (Restricts(p) ==> x in Allow(p))
  {
    assert p in ps + {p};
    assert forall q :: q in ps ==> q in ps + {p};
  }

  lemma {:induction false} AllowStep(ps: set<Policy>, allowed: seq<string>, p: Policy, after: seq<string>)
    requires AllowMerged(ps, allowed)
    requires after == if !Restricts(p) then allowed
                      else if NobodyRestricts(ps) then Allow(p)
                      else Retain(allowed, SetOf(Allow(p)))
    ensures AllowMerged(ps + {p}, after)
  {
    ListsStep(ps, p);
  }

  lemma {:induction false} DenyStep(ps: set<Policy>, denied: set<string>, p: Policy)
    requires DenyMerged(ps, denied)
    ensures DenyMerged(ps + {p}, denied + SetOf(Deny(p)))
  {
    forall x
      ensures x in denied + SetOf(Deny(p)) <==> exists q :: q in ps + {p} && x in Deny(q)
    {
      if q :| q in ps && x in Deny(q) {
        assert q in ps + {p};
      } else if x in Deny(p) {
        assert p in ps + {p};
      }
    }
  }

  lemma {:induction false} FlagStep(ps: set<Policy>, p: Policy, flag: Policy -> bool)
    ensures (forall q :: q in ps + {p} ==> flag(q)) <==> (forall q :: q in ps ==> flag(q)) && flag(p)
  {
    assert p in ps + {p};
    assert forall q :: q in ps ==> q in ps + {p};
  }

  /** One round of the loop: `next` takes policy `p` into the accumulators `e`. */
  predicate Combined(e: Evaluated, firstAllowlist: bool, p: Policy, next: Evaluated) {
    && next.allowed == (if !Restricts(p) then e.allowed
                        else if firstAllowlist then Allow(p)
                        else Retain(e.allowed, SetOf(Allow(p))))
    && next.denied == e.denied + SetOf(Deny(p))
    && Ok(next.maxInput) == MergePositiveLimit(e.maxInput, p.maxInput)
    && Ok(next.maxOutput) == MergePositiveLimit(e.maxOutput, p.maxOutput)
    && Ok(next.rpm) == MergePositiveLimit(e.rpm, p.rpm)
    && Ok(next.concurrency) == MergePositiveLimit(e.concurrency, p.concurrency)
    && next.streaming == (e.streaming && p.streaming)
    && next.tools == (e.tools && p.tools) && next.files == (e.files && p.files)
  }

  lemma {:induction false} CombinedMerges(ps: set<Policy>, e: Evaluated, firstAllowlist: bool, p: Policy, next: Evaluated)
    requires Merged(ps, e) && Combined(e, firstAllowlist, p, next)
    requires firstAllowlist <==> NobodyRestricts(ps)
    ensures Merged(ps + {p}, next)
  {
    AllowStep(ps, e.allowed, p, next.allowed);
    DenyStep(ps, e.denied, p);
    LimitsMerge(ps, e, firstAllowlist, p, next);
    FlagsMerge(ps, e, firstAllowlist, p, next);
  }

  lemma {:induction false} LimitsMerge(ps: set<Policy>, e: Evaluated, firstAllowlist: bool, p: Policy, next: Evaluated)
    requires (forall f :: LimitMerged(ps, f, MergedLimit(e, f))) && Combined(e, firstAllowlist, p, next)
    ensures forall f :: LimitMerged(ps + {p}, f, MergedLimit(next, f))
  {
    forall f
      ensures LimitMerged(ps + {p}, f, MergedLimit(next, f))
    {
      LimitStep(ps, f, MergedLimit(e, f), p);
    }
  }

  lemma {:induction false} FlagsMerge(ps: set<Policy>, e: Evaluated, firstAllowlist: bool, p: Policy, next: Evaluated)
    requires FlagsMerged(ps, e) && Combined(e, firstAllowlist, p, next)
    ensures FlagsMerged(ps + {p}, next)
  {
    FlagStep(ps, p, (q: Policy) => q.streaming);
    FlagStep(ps, p, (q: Policy) => q.tools);
    FlagStep(ps, p, (q: Policy) => q.files);
  }

  method MergeOne(e: Evaluated, firstAllowlist: bool, p: Policy) returns (r: Result<Evaluated, PolicyError>)
    ensures r.Ok? <==> WellFormed(p)
    ensures r.Ok? ==> Combined(e, firstAllowlist, p, r.value)
    ensures r.Err? ==> r.error == ConfigInvalid
  {
    var allowed := Strings(p.allowed);
    if allowed.None? {
      return Err(ConfigInvalid);
    }
    var merged := e.allowed;
    if allowed.value != [] {
      merged := if firstAllowlist then allowed.value else Retain(e.allowed, SetOf(allowed.value));
    }
    var denied := Strings(p.denied);
    if denied.None? {
      return Err(ConfigInvalid);
    }
    var maxInput := MergePositiveLimit(e.maxInput, p.maxInput);
    if maxInput.Err? {
      return Err(ConfigInvalid);
    }
    var maxOutput := MergePositiveLimit(e.maxOutput, p.maxOutput);
    if maxOutput.Err? {
      return Err(ConfigInvalid);
    }
    var rpm := MergePositiveLimit(e.rpm, p.rpm);
    if rpm.Err? {
      return Err(ConfigInvalid);
    }
    var concurrency := MergePositiveLimit(e.concurrency, p.concurrency);
    if concurrency.Err? {
      return Err(ConfigInvalid);
    }
    r := Ok(Evaluated(merged, e.denied + SetOf(denied.value), maxInput.value, maxOutput.value,
                      e.streaming && p.streaming, e.tools && p.tools, e.files && p.files,
                      rpm.value, concurrency.value));
  }

  lemma {:induction false} PrefixSet(ps: seq<Policy>, k: nat)
    requires k < |ps|
    ensures SetOf(ps[..k + 1]) == SetOf(ps[..k]) + {ps[k]}
  {
    assert ps[..k + 1] == ps[..k] + [ps[k]];
  }

  // ---------------------------------------------------------------------------
  // The order of the merged allowlist
  // ---------------------------------------------------------------------------

  /** The first nonempty allowlist of the load. */
  function FirstAllow(ps: seq<Policy>): seq<string> {
    if ps == [] then [] else
      var before := FirstAllow(ps[..|ps| - 1]);
      if before != [] then before else Allow(ps[|ps| - 1])
  }

  predicate OnAll(ps: seq<Policy>, x: string) {
    forall i :: 0 <= i < |ps| && Restricts(ps[i]) ==> x in Allow(ps[i])
  }

  /** The patterns of `s` that are on every nonempty allowlist, in the order of `s`. */
  function Surviving(s: seq<string>, ps: seq<Policy>): seq<string> {
    if s == [] then [] else
      var rest := Surviving(s[..|s| - 1], ps);
      if OnAll(ps, s[|s| - 1]) then rest + [s[|s| - 1]] else rest
  }

  lemma {:induction false} OnAllNext(ps: seq<Policy>, k: nat, x: string)
    requires k < |ps|
    ensures OnAll(ps[..k + 1], x) <==> OnAll(ps[..k], x) && (Restricts(ps[k]) ==> x in Allow(ps[k]))
  {
    var upto, before := ps[..k + 1], ps[..k];
    assert upto[k] == ps[k] && forall i :: 0 <= i < k ==> upto[i] == before[i];
  }

  lemma {:induction false} FirstAllowNext(ps: seq<Policy>, k: nat)
    requires k < |ps|
    ensures FirstAllow(ps[..k + 1]) == if FirstAllow(ps[..k]) != [] then FirstAllow(ps[..k]) else Allow(ps[k])
  {
    assert ps[..k + 1][..k] == ps[..k];
  }

  lemma {:induction false} SurvivingUnrestricted(s: seq<string>, ps: seq<Policy>, k: nat)
    requires k < |ps| && !Restricts(ps[k])
    ensures Surviving(s, ps[..k + 1]) == Surviving(s, ps[..k])
  {
    if s != [] {
      SurvivingUnrestricted(s[..|s| - 1], ps, k);
      OnAllNext(ps, k, s[|s| - 1]);
    }
  }

  lemma {:induction false} SurvivingRetained(s: seq<string>, ps: seq<Policy>, k: nat)
    requires k < |ps| && Restricts(ps[k])
    ensures Surviving(s, ps[..k + 1]) == Retain(Surviving(s, ps[..k]), SetOf(Allow(ps[k])))
  {
    if s != [] {
      var n := |s| - 1;
      SurvivingRetained(s[..n], ps, k);
      OnAllNext(ps, k, s[n]);
      var rest := Surviving(s[..n], ps[..k]);
      assert (rest + [s[n]])[..|rest|] == rest;
    }
  }

  lemma {:induction false} SurvivingWhole(s: seq<string>, ps: seq<Policy>)
    requires forall i :: 0 <= i < |s| ==> OnAll(ps, s[i])
    ensures Surviving(s, ps) == s
  {
    if s != [] {
      SurvivingWhole(s[..|s| - 1], ps);
    }
  }

  lemma {:induction false} FirstRestricts(ps: seq<Policy>)
    requires FirstAllow(ps) == []
    ensures forall i :: 0 <= i < |ps| ==> !Restricts(ps[i])
  {
    if ps != [] {
      FirstRestricts(ps[..|ps| - 1]);
    }
  }

  /** One round keeps the order of the first nonempty allowlist. */
  lemma {:induction false} OrderStep(ps: seq<Policy>, k: nat, e: Evaluated, next: Evaluated)
    requires k < |ps| && Combined(e, FirstAllow(ps[..k]) == [], ps[k], next)
    requires e.allowed == Surviving(FirstAllow(ps[..k]), ps[..k])
    ensures next.allowed == Surviving(FirstAllow(ps[..k + 1]), ps[..k + 1])
  {
    FirstAllowNext(ps, k);
    var first := FirstAllow(ps[..k]);
    if !Restricts(ps[k]) {
      SurvivingUnrestricted(first, ps, k);
    } else if first != [] {
      SurvivingRetained(first, ps, k);
    } else {
      FirstRestricts(ps[..k]);
      forall i | 0 <= i < |Allow(ps[k])|
        ensures OnAll(ps[..k + 1], Allow(ps[k])[i])
      {
        OnAllNext(ps, k, Allow(ps[k])[i]);
      }
      SurvivingWhole(Allow(ps[k]), ps[..k + 1]);
    }
  }

  /** The result as a set of policies determines it, and the allowlist in the order of the load's first nonempty one. */
  method MergePolicies(ps: seq<Policy>) returns (r: Result<Evaluated, PolicyError>)
    ensures MergeResult(SetOf(ps), r)
    ensures r.Ok? ==> r.value.allowed == Surviving(FirstAllow(ps), ps)
  {
    if ps == [] {
      return Ok(Unbound());
    }
    var acc := Evaluated([], {}, None, None, true, true, true, None, None);
    var firstAllowlist := true;
    for k := 0 to |ps|
      invariant forall q :: q in SetOf(ps[..k]) ==> WellFormed(q)
      invariant Merged(SetOf(ps[..k]), acc)
      invariant firstAllowlist <==> NobodyRestricts(SetOf(ps[..k]))
      invariant firstAllowlist <==> FirstAllow(ps[..k]) == []
      invariant acc.allowed == Surviving(FirstAllow(ps[..k]), ps[..k])
    {
      var merged := MergeOne(acc, firstAllowlist, ps[k]);
      if merged.Err? {
        assert ps[k] in SetOf(ps);
        return Err(ConfigInvalid);
      }
      CombinedMerges(SetOf(ps[..k]), acc, firstAllowlist, ps[k], merged.value);
      OrderStep(ps, k, acc, merged.value);
      FirstAllowNext(ps, k);
      PrefixSet(ps, k);
      ListsStep(SetOf(ps[..k]), ps[k]);
      acc := merged.value;
      firstAllowlist := firstAllowlist && Allow(ps[k]) == [];
    }
    assert ps[..|ps|] == ps && ps[0] in SetOf(ps);
    r := Ok(acc);
  }

  // ---------------------------------------------------------------------------
  // One well-defined result
  // ---------------------------------------------------------------------------

  /** Equal but for the order and repetition of the allowlist. */
  predicate SamePolicy(a: Evaluated, b: Evaluated) {
    a.(allowed := []) == b.(allowed := []) && SetOf(a.allowed) == SetOf(b.allowed)
  }

  /** Two loads of the same policies, in whatever order and with whatever repetition, merge to the same outcome. */
  lemma {:induction false} MergeIsDetermined(ps: set<Policy>, a: Result<Evaluated, PolicyError>, b: Result<Evaluated, PolicyError>)
    requires MergeResult(ps, a) && MergeResult(ps, b)
    ensures if a.Ok? then b.Ok? && SamePolicy(a.value, b.value) else a == b
  {
    if a.Ok? && ps != {} {
      var x, y := a.value, b.value;
      forall f
        ensures MergedLimit(x, f) == MergedLimit(y, f)
      {
        SameLimit(ps, f, MergedLimit(x, f), MergedLimit(y, f));
      }
      assert MergedLimit(x, MaxInput) == MergedLimit(y, MaxInput) && MergedLimit(x, MaxOutput) == MergedLimit(y, MaxOutput);
      assert MergedLimit(x, Rpm) == MergedLimit(y, Rpm) && MergedLimit(x, Concurrency) == MergedLimit(y, Concurrency);
      assert x.denied == y.denied;
      assert SetOf(x.allowed) == SetOf(y.allowed);
    }
  }

  lemma {:induction false} SameLimit(ps: set<Policy>, f: Field, a: Option<nat>, b: Option<nat>)
    requires LimitMerged(ps, f, a) && LimitMerged(ps, f, b)
    ensures a == b
  {
  }

  ghost predicate AtMost(a: Option<nat>, b: Option<nat>) {
    b.Some? ==> a.Some? && a.value <= b.value
  }

  /** More policies never raise a limit, enable a feature, shorten the denylist or lengthen a nonempty allowlist. */
  lemma {:induction false} MorePoliciesRestrict(ps: set<Policy>, qs: set<Policy>, a: Evaluated, b: Evaluated)
    requires {} < ps <= qs && MergeResult(ps, Ok(a)) && MergeResult(qs, Ok(b))
    ensures forall f :: AtMost(MergedLimit(b, f), MergedLimit(a, f))
    ensures (b.streaming ==> a.streaming) && (b.tools ==> a.tools) && (b.files ==> a.files)
    ensures a.denied <= b.denied
    ensures !NobodyRestricts(ps) ==> SetOf(b.allowed) <= SetOf(a.allowed)
  {
    forall f
      ensures AtMost(MergedLimit(b, f), MergedLimit(a, f))
    {
      assert LimitMerged(ps, f, MergedLimit(a, f)) && LimitMerged(qs, f, MergedLimit(b, f));
    }
    forall x | x in a.denied
      ensures x in b.denied
    {
      var p :| p in ps && x in Deny(p);
      assert p in qs;
    }
  }

  // ---------------------------------------------------------------------------
  // The merge on the columns of the policies
  // ---------------------------------------------------------------------------

  /** The JSON value lists the string `x`. */
  predicate ListsItem(j: Json, x: string) {
    j.Array? && exists i :: 0 <= i < |j.items| && j.items[i] == Str(x)
  }

  predicate EmptyList(j: Json) {
    j.Array? && j.items == []
  }

  /** A column that fails the load: a list that is no array of strings, or a limit that is not positive. */
  predicate Malformed(p: Policy) {
    || !(p.allowed.Array? && forall i :: 0 <= i < |p.allowed.items| ==> p.allowed.items[i].Str?)
    || !(p.denied.Array? && forall i :: 0 <= i < |p.denied.items| ==> p.denied.items[i].Str?)
    || (p.maxInput.Some? && p.maxInput.value <= 0) || (p.maxOutput.Some? && p.maxOutput.value <= 0)
    || (p.rpm.Some? && p.rpm.value <= 0) || (p.concurrency.Some? && p.concurrency.value <= 0)
  }

  /** Reading a list column gives its strings, one for one. */
  lemma {:induction false} ListsAreRead(p: Policy)
    requires !Malformed(p)
    ensures |Allow(p)| == |p.allowed.items| && forall i :: 0 <= i < |Allow(p)| ==> Str(Allow(p)[i]) == p.allowed.items[i]
    ensures |Deny(p)| == |p.denied.items| && forall i :: 0 <= i < |Deny(p)| ==> Str(Deny(p)[i]) == p.denied.items[i]
  {
  }

  lemma {:induction false} ItemsAreRead(p: Policy, x: string)
    requires !Malformed(p)
    ensures x in Allow(p) <==> ListsItem(p.allowed, x)
    ensures x in Deny(p) <==> ListsItem(p.denied, x)
    ensures Restricts(p) <==> !EmptyList(p.allowed)
  {
    ListsAreRead(p);
    if x in Allow(p) {
      var i :| 0 <= i < |Allow(p)| && Allow(p)[i] == x;
      assert p.allowed.items[i] == Str(x);
    }
    if x in Deny(p) {
      var i :| 0 <= i < |Deny(p)| && Deny(p)[i] == x;
      assert p.denied.items[i] == Str(x);
    }
    if ListsItem(p.allowed, x) {
      var i :| 0 <= i < |p.allowed.items| && p.allowed.items[i] == Str(x);
      assert Allow(p)[i] == x;
    }
    if ListsItem(p.denied, x) {
      var i :| 0 <= i < |p.denied.items| && p.denied.items[i] == Str(x);
      assert Deny(p)[i] == x;
    }
  }

  /** `limit` is the least value of the column among the policies that have one. */
  ghost predicate LeastOf(ps: set<Policy>, column: Policy -> Option<I32>, limit: Option<nat>) {
    && (limit.None? <==> forall p :: p in ps ==> column(p).None?)
    && (limit.Some? ==> exists p :: p in ps && column(p) == Some(limit.value))
    && (limit.Some? ==> forall p :: p in ps && column(p).Some? ==> limit.value <= column(p).value)
  }

  ghost predicate DeniedBySome(ps: set<Policy>, x: string) {
    exists p :: p in ps && ListsItem(p.denied, x)
  }

  /** Some policy has a nonempty allowlist, and `x` is on every such list. */
  ghost predicate AllowedByAll(ps: set<Policy>, x: string) {
    && (exists p :: p in ps && !EmptyList(p.allowed))
    && (forall p :: p in ps && !EmptyList(p.allowed) ==> ListsItem(p.allowed, x))
  }

  lemma {:induction false} MergedLists(ps: set<Policy>, e: Evaluated, x: string)
    requires Merged(ps, e) && forall p :: p in ps ==> !Malformed(p)
    ensures x in e.denied <==> DeniedBySome(ps, x)
    ensures x in e.allowed <==> AllowedByAll(ps, x)
  {
    forall p | p in ps
      ensures (x in Allow(p) <==> ListsItem(p.allowed, x)) && (x in Deny(p) <==> ListsItem(p.denied, x))
      ensures Restricts(p) <==> !EmptyList(p.allowed)
    {
      ItemsAreRead(p, x);
    }
  }

  lemma {:induction false} MergedLimits(ps: set<Policy>, e: Evaluated)
    requires Merged(ps, e)
    ensures LeastOf(ps, (p: Policy) => p.maxInput, e.maxInput) && LeastOf(ps, (p: Policy) => p.maxOutput, e.maxOutput)
    ensures LeastOf(ps, (p: Policy) => p.rpm, e.rpm) && LeastOf(ps, (p: Policy) => p.concurrency, e.concurrency)
  {
    assert LimitMerged(ps, MaxInput, MergedLimit(e, MaxInput)) && LimitMerged(ps, MaxOutput, MergedLimit(e, MaxOutput));
    assert LimitMerged(ps, Rpm, MergedLimit(e, Rpm)) && LimitMerged(ps, Concurrency, MergedLimit(e, Concurrency));
    ColumnIsLeast(ps, MaxInput, (p: Policy) => p.maxInput, e.maxInput);
    ColumnIsLeast(ps, MaxOutput, (p: Policy) => p.maxOutput, e.maxOutput);
    ColumnIsLeast(ps, Rpm, (p: Policy) => p.rpm, e.rpm);
    ColumnIsLeast(ps, Concurrency, (p: Policy) => p.concurrency, e.concurrency);
  }

  lemma {:induction false} ColumnIsLeast(ps: set<Policy>, f: Field, column: Policy -> Option<I32>, limit: Option<nat>)
    requires LimitMerged(ps, f, limit) && forall p :: p in ps ==> column(p) == Limit(p, f)
    ensures LeastOf(ps, column, limit)
  {
  }

  /** The whole outcome of a merge, column by column. */
  lemma {:induction false} MergeOnColumns(ps: set<Policy>, r: Result<Evaluated, PolicyError>)
    requires MergeResult(ps, r)
    ensures r.Err? <==> exists p :: p in ps && Malformed(p)
    ensures ps == {} ==> r == Ok(Evaluated([], {}, None, None, true, false, false, None, None))
    ensures r.Ok? && ps != {} ==> var e := r.value;
      && (forall x :: x in e.denied <==> DeniedBySome(ps, x))
      && (forall x :: x in e.allowed <==> AllowedByAll(ps, x))
      && LeastOf(ps, (p: Policy) => p.maxInput, e.maxInput) && LeastOf(ps, (p: Policy) => p.maxOutput, e.maxOutput)
      && LeastOf(ps, (p: Policy) => p.rpm, e.rpm) && LeastOf(ps, (p: Policy) => p.concurrency, e.concurrency)
      && (e.streaming <==> forall p :: p in ps ==> p.streaming)
      && (e.tools <==> forall p :: p in ps ==> p.tools)
      && (e.files <==> forall p :: p in ps ==> p.files)
  {
    WellFormedIff(ps);
    if r.Ok? && ps != {} {
      MergedLimits(ps, r.value);
      forall x
        ensures x in r.value.denied <==> DeniedBySome(ps, x)
        ensures x in r.value.allowed <==> AllowedByAll(ps, x)
      {
        MergedLists(ps, r.value, x);
      }
    }
  }

  lemma {:induction false} WellFormedIff(ps: set<Policy>)
    ensures forall p :: p in ps ==> (WellFormed(p) <==> !Malformed(p))
  {
  }
}

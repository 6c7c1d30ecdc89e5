/** Dispatching a request: an execution plan built from the resolved routes, each route retried with
    backoff, and the next route tried when one fails. The provider is an arbitrary stream of outcomes,
    one per call. */
module Dispatch {
  import opened Wrappers
  import opened Arithmetic
  import opened Backoff

  const U32_SIZE: nat := 0x1_0000_0000
  const DEFAULT_BACKOFF_CAP: nat := 10_000

  /** A tenant, by the 36 characters of its hyphenated UUID. */
  type Tenant = id: string | |id| == 36 witness seq(36, _ => '0')

  datatype Route = Route(
    id: nat, tenant: Option<Tenant>, modelAlias: string, provider: string, providerModel: string,
    priority: I32, enabled: bool, timeoutMs: I32, maxRetries: I32, retryBackoffMs: I32)

  /** `maxRetries` comes from a non-negative i32, so one more still fits a u32. */
  datatype RouteAttempt = RouteAttempt(
    route: Route, maxRetries: nat, timeout: nat, backoffBase: U64, backoffCap: U64)

  datatype Plan = Plan(modelAlias: string, attempts: seq<RouteAttempt>)

  datatype GatewayError = NoHealthyRoute | InvalidRouteConfig(route: nat) | RetryExhausted | AllRoutesExhausted
                        | Upstream(detail: int)

  datatype AttemptOutcome<+T> = Success(result: T) | Retryable(error: GatewayError) | Fatal(error: GatewayError)

  /** One provider call and what came of it. */
  datatype Call<+T> = Call(route: Route, outcome: AttemptOutcome<T>)

  datatype RoutingOutcome<+T> = RoutingOutcome(result: T, route: Route, totalAttempts: nat, routesTried: nat)

  // ---------------------------------------------------------------------------
  // Building the plan
  // ---------------------------------------------------------------------------

  predicate ValidConfig(r: Route) {
    r.maxRetries >= 0 && r.timeoutMs >= 0 && r.retryBackoffMs >= 0
  }

  /** `a` carries route `r` and its limits over unchanged. */
  predicate AttemptOf(a: RouteAttempt, r: Route) {
    && a.route == r && a.maxRetries == r.maxRetries && a.timeout == r.timeoutMs
    && a.backoffBase == r.retryBackoffMs && a.backoffCap == DEFAULT_BACKOFF_CAP
  }

  predicate FirstInvalid(routes: seq<Route>, i: int) {
    0 <= i < |routes| && !ValidConfig(routes[i]) && forall j :: 0 <= j < i ==> ValidConfig(routes[j])
  }

  method Build(modelAlias: string, routes: seq<Route>) returns (r: Result<Plan, GatewayError>)
    ensures r.Ok? <==> routes != [] && forall i :: 0 <= i < |routes| ==> ValidConfig(routes[i])
    ensures r.Ok? ==>
      && r.value.modelAlias == modelAlias && |r.value.attempts| == |routes|
      && forall i :: 0 <= i < |routes| ==> AttemptOf(r.value.attempts[i], routes[i])
    ensures r == Err(NoHealthyRoute) <==> routes == []
    ensures r.Err? && routes != [] ==> exists i :: FirstInvalid(routes, i) && r == Err(InvalidRouteConfig(routes[i].id))
  {
    if routes == [] {
      return Err(NoHealthyRoute);
    }
    var attempts: seq<RouteAttempt> := [];
    for k := 0 to |routes|
      invariant |attempts| == k
      invariant forall i :: 0 <= i < k ==> ValidConfig(routes[i]) && AttemptOf(attempts[i], routes[i])
    {
      var route := routes[k];
      if route.maxRetries < 0 || route.timeoutMs < 0 || route.retryBackoffMs < 0 {
        assert FirstInvalid(routes, k);
        return Err(InvalidRouteConfig(route.id));
      }
      attempts := attempts
        + [RouteAttempt(route, route.maxRetries, route.timeoutMs, route.retryBackoffMs, DEFAULT_BACKOFF_CAP)];
    }
    r := Ok(Plan(modelAlias, attempts));
  }

  // ---------------------------------------------------------------------------
  // What a dispatch may look like from outside
  // ---------------------------------------------------------------------------

  /** The calls made to one route: retryable failures, ended by a success, a fatal failure, or the last retry. */
  ghost predicate Segment<T(!new)>(a: RouteAttempt, seg: seq<Call<T>>) {
    && 1 <= |seg| <= 1 + a.maxRetries
    && (forall j :: 0 <= j < |seg| ==> seg[j].route == a.route)
    && (forall j :: 0 <= j < |seg| - 1 ==> seg[j].outcome.Retryable?)
    && (seg[|seg| - 1].outcome.Retryable? ==> |seg| == 1 + a.maxRetries)
  }

  /** A u32 sum. */
  function Wrap(n: nat): nat {
    n % U32_SIZE
  }

  predicate Succeeds<T>(seg: seq<Call<T>>) {
    seg != [] && seg[|seg| - 1].outcome.Success?
  }

  function Flatten<T>(segs: seq<seq<Call<T>>>): seq<Call<T>> {
    if segs == [] then [] else Flatten(segs[..|segs| - 1]) + segs[|segs| - 1]
  }

  /** The calls are the provider's answers number `start`, `start + 1`, and so on. */
  ghost predicate Answers<T(!new)>(calls: seq<Call<T>>, provider: nat -> AttemptOutcome<T>, start: nat) {
    forall j :: 0 <= j < |calls| ==> calls[j].outcome == provider(start + j)
  }

  /** One segment per tried route, in plan order; only the last may succeed, and unless it does every
      route has been tried. */
  ghost predicate Trace<T(!new)>(attempts: seq<RouteAttempt>, segs: seq<seq<Call<T>>>, provider: nat -> AttemptOutcome<T>) {
    && |segs| <= |attempts|
    && (forall i :: 0 <= i < |segs| ==> Segment(attempts[i], segs[i]))
    && (forall i :: 0 <= i < |segs| - 1 ==> !Succeeds(segs[i]))
    && (|segs| < |attempts| ==> segs != [] && Succeeds(segs[|segs| - 1]))
    && Answers(Flatten(segs), provider, 0)
  }

  /** What the caller must be told about a trace. */
  ghost predicate Reports<T(!new)>(plan: Plan, segs: seq<seq<Call<T>>>, r: Result<RoutingOutcome<T>, GatewayError>)
    requires |segs| <= |plan.attempts|
  {
    if segs != [] && Succeeds(segs[|segs| - 1]) then
      && r.Ok?
      && r.value.result == Last(segs).outcome.result
      && r.value.route == plan.attempts[|segs| - 1].route
      && r.value.totalAttempts == Wrap(|Flatten(segs)|)
      && r.value.routesTried == Wrap(|segs|)
    else if segs != [] && segs[|segs| - 1] != [] then r == Err(Last(segs).outcome.error)
    else r == Err(AllRoutesExhausted)
  }

  function Last<T>(segs: seq<seq<Call<T>>>): Call<T>
    requires segs != [] && segs[|segs| - 1] != []
  {
    var seg := segs[|segs| - 1];
    seg[|seg| - 1]
  }

  /** The most calls a plan can make. */
  function CallBudget(attempts: seq<RouteAttempt>): nat {
    if attempts == [] then 0 else CallBudget(attempts[..|attempts| - 1]) + 1 + attempts[|attempts| - 1].maxRetries
  }

  // ---------------------------------------------------------------------------
  // The loops
  // ---------------------------------------------------------------------------

  /** One sleep after each call of a segment but the last: sleep `j` is drawn for attempt `j`, with the bounds of the route.
      The calls of the segment are number `start` and following. */
  ghost predicate Sleeps(a: RouteAttempt, calls: nat, sleeps: seq<Nap>, start: nat, seed: nat -> nat) {
    && |sleeps| == calls - 1
    && forall j :: 0 <= j < |sleeps| ==> sleeps[j] == Nap(a.backoffBase, a.backoffCap, j, seed(start + j))
  }

  /** The calls to one route form a segment whose last outcome and length are reported. */
  ghost predicate Tried<T(!new)>(a: RouteAttempt, provider: nat -> AttemptOutcome<T>, start: nat, seed: nat -> nat,
                                 r: Result<(T, nat), (GatewayError, nat)>, seg: seq<Call<T>>, sleeps: seq<Nap>) {
    && Segment(a, seg) && Answers(seg, provider, start) && Sleeps(a, |seg|, sleeps, start, seed)
    && r == if Succeeds(seg) then Ok((seg[|seg| - 1].outcome.result, |seg|))
            else Err((seg[|seg| - 1].outcome.error, |seg|))
  }

  /** Calls one route up to 1 + max_retries times. `seg` and `sleeps` record what was done. */
  method RetryWithBackoff<T(!new)>(a: RouteAttempt, provider: nat -> AttemptOutcome<T>, start: nat, seed: nat -> nat)
    returns (r: Result<(T, nat), (GatewayError, nat)>, seg: seq<Call<T>>, sleeps: seq<Nap>)
    ensures Tried(a, provider, start, seed, r, seg, sleeps)
  {
    var totalCalls := 1 + a.maxRetries;
    var lastError: Option<GatewayError> := None;
    seg, sleeps := [], [];
    for attempt := 0 to totalCalls
      invariant |seg| == attempt && Answers(seg, provider, start)
      invariant forall j :: 0 <= j < attempt ==> seg[j].outcome.Retryable? && seg[j].route == a.route
      invariant attempt > 0 ==> lastError == Some(seg[attempt - 1].outcome.error)
      invariant Sleeps(a, (if attempt == totalCalls then attempt else attempt + 1), sleeps, start, seed)
    {
      var outcome := provider(start + attempt);
      seg := seg + [Call(a.route, outcome)];
      match outcome
      case Success(result) => return Ok((result, attempt + 1)), seg, sleeps;
      case Fatal(e) => return Err((e, attempt + 1)), seg, sleeps;
      case Retryable(e) =>
        var remaining := totalCalls - attempt - 1;
        if remaining > 0 {
          sleeps := sleeps + [Nap(a.backoffBase, a.backoffCap, attempt, seed(start + attempt))];
        }
        lastError := Some(e);
    }
    r := Err((if lastError.Some? then lastError.value else RetryExhausted, totalCalls));
  }

  ghost predicate AllSleeps<T(!new)>(attempts: seq<RouteAttempt>, segs: seq<seq<Call<T>>>, sleeps: seq<seq<Nap>>, seed: nat -> nat) {
    && |sleeps| == |segs| <= |attempts|
    && forall i :: 0 <= i < |segs| ==> DrawnFrom(attempts[i], |segs[i]|, sleeps[i], seed)
  }

  /** The sleeps of a route are drawn from consecutive seeds. */
  ghost predicate DrawnFrom(a: RouteAttempt, calls: nat, sleeps: seq<Nap>, seed: nat -> nat) {
    exists start: nat :: Sleeps(a, calls, sleeps, start, seed)
  }

  lemma {:induction false} WrapAdd(a: nat, b: nat)
    ensures Wrap(Wrap(a) + b) == Wrap(a + b)
  {
  }

  /** Every route tried so far has failed. */
  ghost predicate AllFailed<T(!new)>(attempts: seq<RouteAttempt>, segs: seq<seq<Call<T>>>, provider: nat -> AttemptOutcome<T>) {
    && |segs| <= |attempts|
    && (forall i :: 0 <= i < |segs| ==> Segment(attempts[i], segs[i]) && !Succeeds(segs[i]))
    && Answers(Flatten(segs), provider, 0)
  }

  lemma {:induction false} NextSegment<T(!new)>(attempts: seq<RouteAttempt>, segs: seq<seq<Call<T>>>, seg: seq<Call<T>>, provider: nat -> AttemptOutcome<T>)
    requires AllFailed(attempts, segs, provider) && |segs| < |attempts|
    requires Segment(attempts[|segs|], seg) && Answers(seg, provider, |Flatten(segs)|)
    ensures Flatten(segs + [seg]) == Flatten(segs) + seg
    ensures if Succeeds(seg) then Trace(attempts, segs + [seg], provider) else AllFailed(attempts, segs + [seg], provider)
  {
    assert (segs + [seg])[..|segs|] == segs;
    var calls := Flatten(segs + [seg]);
    forall j | 0 <= j < |calls|
      ensures calls[j].outcome == provider(0 + j)
    {
      if j >= |Flatten(segs)| {
        assert calls[j] == seg[j - |Flatten(segs)|];
      }
    }
  }

  /** The loop's variables after trying `|segs|` routes without success. */
  ghost predicate Progress<T(!new)>(plan: Plan, provider: nat -> AttemptOutcome<T>, seed: nat -> nat, segs: seq<seq<Call<T>>>,
                                    sleeps: seq<seq<Nap>>, totalAttempts: nat, lastError: Option<GatewayError>) {
    && AllFailed(plan.attempts, segs, provider) && AllSleeps(plan.attempts, segs, sleeps, seed)
    && totalAttempts == Wrap(|Flatten(segs)|)
    && if segs == [] then lastError == None
       else segs[|segs| - 1] != [] && lastError == Some(Last(segs).outcome.error)
  }

  lemma {:induction false} ProgressFails<T(!new)>(plan: Plan, provider: nat -> AttemptOutcome<T>, seed: nat -> nat, segs: seq<seq<Call<T>>>,
                                                  sleeps: seq<seq<Nap>>, totalAttempts: nat, lastError: Option<GatewayError>,
                                                  r: Result<(T, nat), (GatewayError, nat)>, seg: seq<Call<T>>, slept: seq<Nap>)
    requires Progress(plan, provider, seed, segs, sleeps, totalAttempts, lastError) && |segs| < |plan.attempts|
    requires Tried(plan.attempts[|segs|], provider, |Flatten(segs)|, seed, r, seg, slept) && r.Err?
    ensures Progress(plan, provider, seed, segs + [seg], sleeps + [slept], Wrap(totalAttempts + r.error.1), Some(r.error.0))
  {
    NextSegment(plan.attempts, segs, seg, provider);
    NextSleeps(plan.attempts, segs, sleeps, seed, seg, slept);
    WrapAdd(|Flatten(segs)|, |seg|);
    LastOf(segs, seg);
  }

  lemma {:induction false} ProgressSucceeds<T(!new)>(plan: Plan, provider: nat -> AttemptOutcome<T>, seed: nat -> nat, segs: seq<seq<Call<T>>>,
                                                     sleeps: seq<seq<Nap>>, totalAttempts: nat, lastError: Option<GatewayError>,
                                                     r: Result<(T, nat), (GatewayError, nat)>, seg: seq<Call<T>>, slept: seq<Nap>)
    requires Progress(plan, provider, seed, segs, sleeps, totalAttempts, lastError) && |segs| < |plan.attempts|
    requires Tried(plan.attempts[|segs|], provider, |Flatten(segs)|, seed, r, seg, slept) && r.Ok?
    ensures AllSleeps(plan.attempts, segs + [seg], sleeps + [slept], seed)
    ensures Trace(plan.attempts, segs + [seg], provider)
    ensures Reports(plan, segs + [seg], Ok(RoutingOutcome(r.value.0, plan.attempts[|segs|].route,
                                                         Wrap(totalAttempts + r.value.1), Wrap(Wrap(|segs|) + 1))))
  {
    NextSegment(plan.attempts, segs, seg, provider);
    NextSleeps(plan.attempts, segs, sleeps, seed, seg, slept);
    WrapAdd(|Flatten(segs)|, |seg|);
    WrapAdd(|segs|, 1);
    LastOf(segs, seg);
  }

  lemma {:induction false} LastOf<T>(segs: seq<seq<Call<T>>>, seg: seq<Call<T>>)
    requires seg != []
    ensures Last(segs + [seg]) == seg[|seg| - 1] && Succeeds((segs + [seg])[|segs|]) == Succeeds(seg)
  {
  }

  lemma {:induction false} NextSleeps<T(!new)>(attempts: seq<RouteAttempt>, segs: seq<seq<Call<T>>>, sleeps: seq<seq<Nap>>, seed: nat -> nat,
                                               seg: seq<Call<T>>, slept: seq<Nap>)
    requires AllSleeps(attempts, segs, sleeps, seed) && |segs| < |attempts|
    requires Sleeps(attempts[|segs|], |seg|, slept, |Flatten(segs)|, seed)
    ensures AllSleeps(attempts, segs + [seg], sleeps + [slept], seed)
  {
    assert DrawnFrom(attempts[|segs|], |seg|, slept, seed);
  }

  lemma {:induction false} ProgressDone<T(!new)>(plan: Plan, provider: nat -> AttemptOutcome<T>, seed: nat -> nat, segs: seq<seq<Call<T>>>,
                                                 sleeps: seq<seq<Nap>>, totalAttempts: nat, lastError: Option<GatewayError>)
    requires Progress(plan, provider, seed, segs, sleeps, totalAttempts, lastError) && |segs| == |plan.attempts|
    ensures Trace(plan.attempts, segs, provider)
    ensures Reports(plan, segs, Err(if lastError.Some? then lastError.value else AllRoutesExhausted))
  {
  }

  /** Tries the routes of the plan in order. The u32 tallies wrap. */
  method ExecuteWithFallback<T(!new)>(plan: Plan, provider: nat -> AttemptOutcome<T>, seed: nat -> nat)
    returns (r: Result<RoutingOutcome<T>, GatewayError>, segs: seq<seq<Call<T>>>, sleeps: seq<seq<Nap>>)
    ensures Trace(plan.attempts, segs, provider)
    ensures Reports(plan, segs, r)
    ensures AllSleeps(plan.attempts, segs, sleeps, seed)
  {
    var totalAttempts: nat, routesTried: nat := 0, 0;
    var lastError: Option<GatewayError> := None;
    segs, sleeps := [], [];
    for k := 0 to |plan.attempts|
      invariant |segs| == k && routesTried == Wrap(k)
      invariant Progress(plan, provider, seed, segs, sleeps, totalAttempts, lastError)
    {
      routesTried := Wrap(routesTried + 1);
      var result, seg, slept := RetryWithBackoff(plan.attempts[k], provider, |Flatten(segs)|, seed);
      match result
      case Ok((value, used)) =>
        ProgressSucceeds(plan, provider, seed, segs, sleeps, totalAttempts, lastError, result, seg, slept);
        segs, sleeps := segs + [seg], sleeps + [slept];
        totalAttempts := Wrap(totalAttempts + used);
        r := Ok(RoutingOutcome(value, plan.attempts[k].route, totalAttempts, routesTried));
        return;
      case Err((e, used)) =>
        ProgressFails(plan, provider, seed, segs, sleeps, totalAttempts, lastError, result, seg, slept);
        WrapAdd(k, 1);
        segs, sleeps := segs + [seg], sleeps + [slept];
        totalAttempts := Wrap(totalAttempts + used);
        lastError := Some(e);
    }
    ProgressDone(plan, provider, seed, segs, sleeps, totalAttempts, lastError);
    r := Err(if lastError.Some? then lastError.value else AllRoutesExhausted);
  }

  // ---------------------------------------------------------------------------
  // What the trace specification means
  // ---------------------------------------------------------------------------

  lemma {:induction false} FlattenPrefix<T>(segs: seq<seq<Call<T>>>, k: nat)
    requires k <= |segs|
    ensures Flatten(segs[..k]) <= Flatten(segs)
  {
    if k < |segs| {
      FlattenPrefix(segs[..|segs| - 1], k);
      assert segs[..|segs| - 1][..k] == segs[..k];
    } else {
      assert segs[..k] == segs;
    }
  }

  lemma {:induction false} SegmentUnique<T(!new)>(a: RouteAttempt, s: seq<Call<T>>, t: seq<Call<T>>, provider: nat -> AttemptOutcome<T>, start: nat)
    requires Segment(a, s) && Answers(s, provider, start)
    requires Segment(a, t) && Answers(t, provider, start)
    ensures s == t
  {
    assert forall j :: 0 <= j < |s| && j < |t| ==> s[j].outcome == provider(start + j) == t[j].outcome;
    assert |s| == |t|;
  }

  /** The answers of segment `k` start where the earlier segments end. */
  lemma {:induction false} SegmentAnswers<T(!new)>(segs: seq<seq<Call<T>>>, k: nat, provider: nat -> AttemptOutcome<T>)
    requires k < |segs| && Answers(Flatten(segs), provider, 0)
    ensures Answers(segs[k], provider, |Flatten(segs[..k])|)
  {
    FlattenPrefix(segs, k + 1);
    assert segs[..k + 1][..k] == segs[..k];
    var before, upto := Flatten(segs[..k]), Flatten(segs[..k + 1]);
    assert upto == before + segs[k];
    forall j | 0 <= j < |segs[k]|
      ensures segs[k][j].outcome == provider(|before| + j)
    {
      assert upto[|before| + j] == segs[k][j];
    }
  }

  /** The specification leaves nothing open: for any plan and any provider there is one trace. */
  lemma {:induction false} TraceUnique<T(!new)>(attempts: seq<RouteAttempt>, s: seq<seq<Call<T>>>, t: seq<seq<Call<T>>>, provider: nat -> AttemptOutcome<T>)
    requires Trace(attempts, s, provider) && Trace(attempts, t, provider)
    ensures s == t
  {
    var m := if |s| <= |t| then |s| else |t|;
    CommonPrefix(attempts, s, t, provider, m);
    assert s[..m] == t[..m];
    assert m > 0 ==> s[m - 1] == s[..m][m - 1] == t[m - 1];
    assert |s| == |t|;
  }

  lemma {:induction false} TakeNext<T>(s: seq<T>, k: nat)
    requires k < |s|
    ensures s[..k + 1] == s[..k] + [s[k]]
  {
  }

  lemma {:induction false} CommonPrefix<T(!new)>(attempts: seq<RouteAttempt>, s: seq<seq<Call<T>>>, t: seq<seq<Call<T>>>, provider: nat -> AttemptOutcome<T>, m: nat)
    requires m <= |s| && m <= |t| && m <= |attempts|
    requires forall i :: 0 <= i < m ==> Segment(attempts[i], s[i]) && Segment(attempts[i], t[i])
    requires Answers(Flatten(s), provider, 0) && Answers(Flatten(t), provider, 0)
    ensures s[..m] == t[..m]
    decreases m
  {
    if m > 0 {
      CommonPrefix(attempts, s, t, provider, m - 1);
      SegmentAnswers(s, m - 1, provider);
      SegmentAnswers(t, m - 1, provider);
      SegmentUnique(attempts[m - 1], s[m - 1], t[m - 1], provider, |Flatten(s[..m - 1])|);
      TakeNext(s, m - 1);
      TakeNext(t, m - 1);
    }
  }

  /** A success is the last call ever made: the first one is the one returned. */
  lemma {:induction false} SuccessIsLast<T(!new)>(attempts: seq<RouteAttempt>, segs: seq<seq<Call<T>>>, provider: nat -> AttemptOutcome<T>, j: nat)
    requires Trace(attempts, segs, provider) && j < |Flatten(segs)| && Flatten(segs)[j].outcome.Success?
    ensures j == |Flatten(segs)| - 1 && Succeeds(segs[|segs| - 1])
  {
    var n := |segs| - 1;
    var before, seg := Flatten(segs[..n]), segs[n];
    assert Segment(attempts[n], seg);
    if j < |before| {
      FailuresOnly(attempts, segs[..n], j);
    } else {
      assert Flatten(segs)[j] == seg[j - |before|];
    }
  }

  lemma {:induction false} FailuresOnly<T(!new)>(attempts: seq<RouteAttempt>, segs: seq<seq<Call<T>>>, j: nat)
    requires |segs| <= |attempts| && j < |Flatten(segs)|
    requires forall i :: 0 <= i < |segs| ==> Segment(attempts[i], segs[i]) && !Succeeds(segs[i])
    ensures !Flatten(segs)[j].outcome.Success?
    decreases |segs|
  {
    var n := |segs| - 1;
    var before, seg := Flatten(segs[..n]), segs[n];
    assert Segment(attempts[n], seg);
    if j < |before| {
      FailuresOnly(attempts, segs[..n], j);
    } else {
      assert Flatten(segs)[j] == seg[j - |before|];
    }
  }

  /** No dispatch makes more calls than 1 + max_retries for each route of its plan. */
  lemma {:induction false} CallsWithinBudget<T(!new)>(attempts: seq<RouteAttempt>, segs: seq<seq<Call<T>>>)
    requires |segs| <= |attempts| && forall i :: 0 <= i < |segs| ==> Segment(attempts[i], segs[i])
    ensures |segs| <= |Flatten(segs)| <= CallBudget(attempts)
    decreases |attempts|
  {
    if attempts != [] {
      var n := |attempts| - 1;
      if |segs| == |attempts| {
        CallsWithinBudget(attempts[..n], segs[..n]);
      } else {
        CallsWithinBudget(attempts[..n], segs);
      }
    }
  }

  /** Whenever the budget fits a u32, the reported tallies are the true ones. */
  lemma {:induction false} TalliesAreTrue<T(!new)>(plan: Plan, segs: seq<seq<Call<T>>>, provider: nat -> AttemptOutcome<T>, r: Result<RoutingOutcome<T>, GatewayError>)
    requires Trace(plan.attempts, segs, provider) && Reports(plan, segs, r) && r.Ok?
    requires CallBudget(plan.attempts) < U32_SIZE
    ensures r.value.totalAttempts == |Flatten(segs)| && r.value.routesTried == |segs|
  {
    CallsWithinBudget(plan.attempts, segs);
  }

  /** Exactly when: each reported tally is the true one if and only if that one fits a u32. */
  lemma {:induction false} TalliesTrueIff<T(!new)>(plan: Plan, segs: seq<seq<Call<T>>>, provider: nat -> AttemptOutcome<T>, r: Result<RoutingOutcome<T>, GatewayError>)
    requires Trace(plan.attempts, segs, provider) && Reports(plan, segs, r) && r.Ok?
    ensures r.value.totalAttempts == |Flatten(segs)| <==> |Flatten(segs)| < 0x1_0000_0000
    ensures r.value.routesTried == |segs| <==> |segs| < 0x1_0000_0000
  {
    assert segs != [] && Succeeds(segs[|segs| - 1]) by {
      if |segs| == |plan.attempts| && segs != [] {
        assert Segment(plan.attempts[|segs| - 1], segs[|segs| - 1]);
      }
    }
  }

  /** The time slept. */
  function Sum(s: seq<Nap>): nat {
    if s == [] then 0 else Sum(s[..|s| - 1]) + Length(s[|s| - 1])
  }

  function SumAll(ss: seq<seq<Nap>>): nat {
    if ss == [] then 0 else SumAll(ss[..|ss| - 1]) + Sum(ss[|ss| - 1])
  }

  function Retries(attempts: seq<RouteAttempt>): nat {
    if attempts == [] then 0 else Retries(attempts[..|attempts| - 1]) + attempts[|attempts| - 1].maxRetries
  }

  lemma {:induction false} SumBound(s: seq<Nap>, cap: nat)
    requires forall j :: 0 <= j < |s| ==> s[j].cap == cap
    ensures Sum(s) <= |s| * cap
  {
    if s != [] {
      SumBound(s[..|s| - 1], cap);
      MulSuccessor(|s| - 1, cap);
    }
  }

  /** One sleep fewer than calls on each route, each with a cap of ten seconds. */
  ghost predicate SleepsCapped<T(!new)>(attempts: seq<RouteAttempt>, segs: seq<seq<Call<T>>>, sleeps: seq<seq<Nap>>) {
    && |sleeps| == |segs| <= |attempts|
    && forall i :: 0 <= i < |segs| ==> |sleeps[i]| == |segs[i]| - 1 && forall j :: 0 <= j < |sleeps[i]| ==> sleeps[i][j].cap == 10_000
  }

  lemma {:induction false} DrawsAreCapped<T(!new)>(attempts: seq<RouteAttempt>, segs: seq<seq<Call<T>>>, sleeps: seq<seq<Nap>>, seed: nat -> nat)
    requires AllSleeps(attempts, segs, sleeps, seed)
    requires forall i :: 0 <= i < |attempts| ==> attempts[i].backoffCap == 10_000
    ensures SleepsCapped(attempts, segs, sleeps)
  {
    forall i | 0 <= i < |segs|
      ensures |sleeps[i]| == |segs[i]| - 1 && forall j :: 0 <= j < |sleeps[i]| ==> sleeps[i][j].cap == 10_000
    {
      assert DrawnFrom(attempts[i], |segs[i]|, sleeps[i], seed);
    }
  }

  /** A dispatch on a plan from `Build` sleeps at most 10 seconds per allowed retry, and exactly once
      between two calls to the same route: never after a success, a fatal failure or the last retry. */
  lemma {:induction false} TotalSleepBound<T(!new)>(attempts: seq<RouteAttempt>, segs: seq<seq<Call<T>>>, sleeps: seq<seq<Nap>>, seed: nat -> nat)
    requires AllSleeps(attempts, segs, sleeps, seed)
    requires forall i :: 0 <= i < |segs| ==> Segment(attempts[i], segs[i])
    requires forall i :: 0 <= i < |attempts| ==> attempts[i].backoffCap == DEFAULT_BACKOFF_CAP
    ensures SumAll(sleeps) <= Retries(attempts) * 10_000
  {
    DrawsAreCapped(attempts, segs, sleeps, seed);
    CappedSleepBound(attempts, segs, sleeps);
  }

  lemma {:induction false} CappedSleepBound<T(!new)>(attempts: seq<RouteAttempt>, segs: seq<seq<Call<T>>>, sleeps: seq<seq<Nap>>)
    requires SleepsCapped(attempts, segs, sleeps)
    requires forall i :: 0 <= i < |segs| ==> Segment(attempts[i], segs[i])
    ensures SumAll(sleeps) <= Retries(attempts) * 10_000
    decreases |attempts|
  {
    if attempts != [] {
      var n := |attempts| - 1;
      if |sleeps| == |attempts| {
        CappedSleepBound(attempts[..n], segs[..n], sleeps[..n]);
        SumBound(sleeps[n], 10_000);
        assert Segment(attempts[n], segs[n]);
        MulMonotone(|sleeps[n]|, attempts[n].maxRetries, 10_000);
      } else {
        CappedSleepBound(attempts[..n], segs, sleeps);
      }
    }
  }
}

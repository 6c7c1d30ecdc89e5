/** Deciding one request against a merged policy: model lists, feature flags, token limits. The results
    here say what "most restrictive wins" amounts to for that decision. */
module PolicyDecision {
  import opened Wrappers
  import opened Validation
  import opened PolicyMerge

  // ---------------------------------------------------------------------------
  // Glob patterns
  // ---------------------------------------------------------------------------

  predicate MatchesGlob(pattern: string, value: string) {
    if pattern != [] && pattern[|pattern| - 1] == '*' then pattern[..|pattern| - 1] <= value else pattern == value
  }

  /** A full wildcard matcher: '*' stands for any string, wherever it occurs. */
  predicate Wildcard(pattern: string, value: string)
    decreases |pattern| + |value|
  {
    if pattern == [] then value == []
    else if pattern[0] == '*' then Wildcard(pattern[1..], value) || (value != [] && Wildcard(pattern, value[1..]))
    else value != [] && pattern[0] == value[0] && Wildcard(pattern[1..], value[1..])
  }

  lemma {:induction false} StarMatchesAll(value: string)
    ensures Wildcard("*", value)
  {
    if value != [] {
      StarMatchesAll(value[1..]);
    } else {
      assert Wildcard([], value);
    }
  }

  lemma {:induction false} SimplePattern(pattern: string, value: string)
    requires '*' !in StripStar(pattern)
    ensures MatchesGlob(pattern, value) == Wildcard(pattern, value)
  {
    if pattern == "*" {
      StarMatchesAll(value);
    } else if pattern != [] {
      var rest := pattern[1..];
      assert StripStar(pattern) == [pattern[0]] + StripStar(rest);
      assert pattern == [pattern[0]] + rest;
      if value != [] {
        assert value == [value[0]] + value[1..];
        SimplePattern(rest, value[1..]);
        PeelGlob(pattern, value);
      }
    }
  }

  lemma {:induction false} PeelGlob(pattern: string, value: string)
    requires |pattern| > 0 && |value| > 0 && pattern != "*"
    ensures MatchesGlob(pattern, value) <==> pattern[0] == value[0] && MatchesGlob(pattern[1..], value[1..])
  {
    assert pattern == [pattern[0]] + pattern[1..] && value == [value[0]] + value[1..];
    if pattern[|pattern| - 1] == '*' {
      var prefix := pattern[..|pattern| - 1];
      assert pattern[1..][..|pattern| - 2] == prefix[1..];
      assert prefix <= value <==> prefix[0] == value[0] && prefix[1..] <= value[1..];
    }
  }

  function DropStars(pattern: string): (r: string)
    ensures '*' !in r
  {
    if pattern == [] then [] else
      var rest := DropStars(pattern[1..]);
      if pattern[0] == '*' then rest else [pattern[0]] + rest
  }

  lemma {:induction false} DroppedStillMatches(pattern: string)
    ensures Wildcard(pattern, DropStars(pattern))
  {
    if pattern != [] {
      DroppedStillMatches(pattern[1..]);
      assert pattern[0] != '*' ==> DropStars(pattern)[1..] == DropStars(pattern[1..]);
    }
  }

  /** The simple matcher is the full one exactly on patterns without a '*' before their last character. */
  lemma {:induction false} GlobIsWildcardIff(pattern: string)
    ensures (forall value :: MatchesGlob(pattern, value) == Wildcard(pattern, value)) <==> '*' !in StripStar(pattern)
  {
    if '*' !in StripStar(pattern) {
      forall value
        ensures MatchesGlob(pattern, value) == Wildcard(pattern, value)
      {
        SimplePattern(pattern, value);
      }
    } else {
      var value := DropStars(pattern);
      DroppedStillMatches(pattern);
      assert forall i :: 0 <= i < |value| ==> value[i] in value;
      assert !(StripStar(pattern) <= value);
      assert !MatchesGlob(pattern, value);
    }
  }

  /** Every pattern the admin API accepts is such a pattern. */
  lemma {:induction false} ValidPatternIsSimple(pattern: string)
    requires ValidPattern(pattern)
    ensures '*' !in StripStar(pattern)
  {
    forall i | 0 <= i < |StripStar(pattern)|
      ensures StripStar(pattern)[i] != '*'
    {
      assert IdentifierChar(StripStar(pattern)[i]);
    }
  }

  // ---------------------------------------------------------------------------
  // The checks
  // ---------------------------------------------------------------------------

  datatype Request = Request(model: string, stream: bool, tools: bool, files: bool, estimate: Option<nat>, maxOutput: Option<nat>)

  datatype TokenCheck = TokenCheck(effective: Option<nat>, clamped: bool)

  datatype Denial = ModelNotAllowed | StreamingNotAllowed | ToolsNotAllowed | FilesNotAllowed | InputTokensExceeded

  predicate Denied(denied: set<string>, model: string) {
    exists pattern :: pattern in denied && MatchesGlob(pattern, model)
  }

  /** An empty allowlist allows everything. */
  predicate Allowed(allowed: seq<string>, model: string) {
    allowed == [] || exists pattern :: pattern in allowed && MatchesGlob(pattern, model)
  }

  predicate InputFits(limit: Option<nat>, estimate: Option<nat>) {
    estimate.Some? && limit.Some? ==> estimate.value <= limit.value
  }

  function ClampOutput(requested: Option<nat>, limit: Option<nat>): TokenCheck {
    if requested.Some? && limit.Some? then
      if requested.value > limit.value then TokenCheck(limit, true) else TokenCheck(requested, false)
    else if limit.Some? then TokenCheck(limit, false)
    else TokenCheck(requested, false)
  }

  function ApplyPolicyChecks(e: Evaluated, q: Request): Result<TokenCheck, Denial> {
    if Denied(e.denied, q.model) || !Allowed(e.allowed, q.model) then Err(ModelNotAllowed)
    else if !e.streaming && q.stream then Err(StreamingNotAllowed)
    else if !e.tools && q.tools then Err(ToolsNotAllowed)
    else if !e.files && q.files then Err(FilesNotAllowed)
    else if !InputFits(e.maxInput, q.estimate) then Err(InputTokensExceeded)
    else Ok(ClampOutput(q.maxOutput, e.maxOutput))
  }

  predicate Accepts(e: Evaluated, q: Request) {
    ApplyPolicyChecks(e, q).Ok?
  }

  /** A policy evaluated by itself. */
  function Alone(p: Policy): (e: Evaluated)
    requires WellFormed(p)
  {
    Evaluated(Allow(p), SetOf(Deny(p)), p.maxInput, p.maxOutput, p.streaming, p.tools, p.files, p.rpm, p.concurrency)
  }

  lemma {:induction false} AloneIsMerge(p: Policy)
    requires WellFormed(p)
    ensures MergeResult({p}, Ok(Alone(p)))
  {
    var ps, e := {p}, Alone(p);
    assert p in ps;
    assert AllowMerged(ps, e.allowed);
    assert DenyMerged(ps, e.denied);
    forall f
      ensures LimitMerged(ps, f, MergedLimit(e, f))
    {
    }
  }

  // ---------------------------------------------------------------------------
  // Each part of the decision, merged and policy by policy
  // ---------------------------------------------------------------------------

  lemma {:induction false} DenyDecomposes(ps: set<Policy>, e: Evaluated, model: string)
    requires Merged(ps, e)
    ensures Denied(e.denied, model) <==> exists p :: p in ps && Denied(SetOf(Deny(p)), model)
  {
    if Denied(e.denied, model) {
      var x :| x in e.denied && MatchesGlob(x, model);
      var p :| p in ps && x in Deny(p);
      assert x in SetOf(Deny(p));
    }
    if p :| p in ps && Denied(SetOf(Deny(p)), model) {
      var x :| x in SetOf(Deny(p)) && MatchesGlob(x, model);
      assert x in e.denied;
    }
  }

  lemma {:induction false} InputDecomposes(ps: set<Policy>, e: Evaluated, estimate: Option<nat>)
    requires Merged(ps, e) && forall p :: p in ps ==> WellFormed(p)
    ensures InputFits(e.maxInput, estimate) <==> forall p :: p in ps ==> InputFits(Alone(p).maxInput, estimate)
  {
    assert LimitMerged(ps, MaxInput, MergedLimit(e, MaxInput));
    if e.maxInput.Some? {
      var p :| p in ps && Limit(p, MaxInput) == Some(e.maxInput.value);
      assert Alone(p).maxInput == e.maxInput;
      forall q | q in ps && Alone(q).maxInput.Some?
        ensures e.maxInput.value <= Alone(q).maxInput.value
      {
        assert Limit(q, MaxInput).Some?;
      }
    } else {
      forall p | p in ps
        ensures Alone(p).maxInput.None?
      {
        assert Limit(p, MaxInput).None?;
      }
    }
  }

  lemma {:induction false} AllowRefines(ps: set<Policy>, e: Evaluated, model: string, p: Policy)
    requires Merged(ps, e) && p in ps && e.allowed != [] && Allowed(e.allowed, model)
    ensures Allowed(Allow(p), model)
  {
    if Restricts(p) {
      var x :| x in e.allowed && MatchesGlob(x, model);
      assert x in Allow(p);
    }
  }

  /** Either nobody restricts models, or some pattern is on every allowlist. */
  ghost predicate SharesPattern(ps: set<Policy>) {
    NobodyRestricts(ps) || exists x :: OnEveryList(ps, x)
  }

  lemma {:induction false} SharedIffNonempty(ps: set<Policy>, e: Evaluated)
    requires Merged(ps, e)
    ensures SharesPattern(ps) <==> NobodyRestricts(ps) || e.allowed != []
    ensures NobodyRestricts(ps) ==> e.allowed == []
  {
    assert |e.allowed| > 0 ==> e.allowed[0] in e.allowed;
  }

  ghost predicate AcceptsAlone(p: Policy, q: Request) {
    WellFormed(p) && Accepts(Alone(p), q)
  }

  /** When the allowlists share a pattern, whatever the merged policy accepts is accepted by every policy alone. */
  lemma {:induction false} MergedAcceptsLess(ps: set<Policy>, e: Evaluated, q: Request, p: Policy)
    requires ps != {} && MergeResult(ps, Ok(e)) && SharesPattern(ps)
    requires Accepts(e, q) && p in ps
    ensures AcceptsAlone(p, q)
  {
    SharedIffNonempty(ps, e);
    DenyDecomposes(ps, e, q.model);
    InputDecomposes(ps, e, q.estimate);
    if e.allowed != [] {
      AllowRefines(ps, e, q.model, p);
    }
  }

  /** Conversely, with no allowlists at all, what every policy accepts the merged one accepts. */
  lemma {:induction false} MergedAcceptsNoLess(ps: set<Policy>, e: Evaluated, q: Request)
    requires ps != {} && MergeResult(ps, Ok(e)) && NobodyRestricts(ps)
    requires forall p :: p in ps ==> AcceptsAlone(p, q)
    ensures Accepts(e, q)
  {
    DenyDecomposes(ps, e, q.model);
    InputDecomposes(ps, e, q.estimate);
    SharedIffNonempty(ps, e);
    forall p | p in ps
      ensures !Denied(SetOf(Deny(p)), q.model) && InputFits(Alone(p).maxInput, q.estimate)
      ensures (q.stream ==> p.streaming) && (q.tools ==> p.tools) && (q.files ==> p.files)
    {
      assert AcceptsAlone(p, q);
    }
  }

  /** Without allowlists the merged decision is exactly the conjunction of the single ones. */
  lemma {:induction false} NoAllowlistsExact(ps: set<Policy>, e: Evaluated, q: Request)
    requires ps != {} && MergeResult(ps, Ok(e)) && NobodyRestricts(ps)
    ensures Accepts(e, q) <==> forall p :: p in ps ==> AcceptsAlone(p, q)
  {
    if Accepts(e, q) {
      forall p | p in ps
        ensures AcceptsAlone(p, q)
      {
        MergedAcceptsLess(ps, e, q, p);
      }
    }
    if forall p :: p in ps ==> AcceptsAlone(p, q) {
      MergedAcceptsNoLess(ps, e, q);
    }
  }

  /** Some pattern on every nonempty allowlist matches the model. */
  ghost predicate SharedMatch(ps: set<Policy>, model: string) {
    exists x :: OnEveryList(ps, x) && MatchesGlob(x, model)
  }

  /** The merged allowlist lets a model through if and only if nobody restricts models, the lists share no pattern at all,
      or a shared pattern matches it. */
  lemma {:induction false} AllowedIff(ps: set<Policy>, e: Evaluated, model: string)
    requires Merged(ps, e)
    ensures Allowed(e.allowed, model) <==> NobodyRestricts(ps) || !SharesPattern(ps) || SharedMatch(ps, model)
  {
    SharedIffNonempty(ps, e);
    if e.allowed != [] {
      if Allowed(e.allowed, model) {
        var x :| x in e.allowed && MatchesGlob(x, model);
        assert OnEveryList(ps, x);
      }
      if x :| OnEveryList(ps, x) && MatchesGlob(x, model) {
        assert x in e.allowed;
      }
    }
  }

  /** What a policy alone says, its allowlist aside. */
  ghost predicate PassesRest(p: Policy, q: Request) {
    && WellFormed(p) && !Denied(SetOf(Deny(p)), q.model) && InputFits(Alone(p).maxInput, q.estimate)
    && (q.stream ==> p.streaming) && (q.tools ==> p.tools) && (q.files ==> p.files)
  }

  lemma {:induction false} RestDecomposes(ps: set<Policy>, e: Evaluated, q: Request)
    requires ps != {} && MergeResult(ps, Ok(e))
    ensures (forall p :: p in ps ==> PassesRest(p, q)) <==>
      && !Denied(e.denied, q.model) && InputFits(e.maxInput, q.estimate)
      && (q.stream ==> e.streaming) && (q.tools ==> e.tools) && (q.files ==> e.files)
  {
    DenyDecomposes(ps, e, q.model);
    InputDecomposes(ps, e, q.estimate);
    if forall p :: p in ps ==> PassesRest(p, q) {
      forall p | p in ps
        ensures !Denied(SetOf(Deny(p)), q.model) && InputFits(Alone(p).maxInput, q.estimate)
        ensures (q.stream ==> p.streaming) && (q.tools ==> p.tools) && (q.files ==> p.files)
      {
        assert PassesRest(p, q);
      }
    }
  }

  /** The whole decision, request by request and for any policies: the merge accepts if and only if every policy passes
      the request apart from its allowlist, and the allowlists are absent, disjoint, or share a matching pattern. */
  lemma {:induction false} AcceptsIff(ps: set<Policy>, e: Evaluated, q: Request)
    requires ps != {} && MergeResult(ps, Ok(e))
    ensures Accepts(e, q) <==>
      && (forall p :: p in ps ==> PassesRest(p, q))
      && (NobodyRestricts(ps) || !SharesPattern(ps) || SharedMatch(ps, q.model))
  {
    RestDecomposes(ps, e, q);
    AllowedIff(ps, e, q.model);
  }

  // ---------------------------------------------------------------------------
  // Exactly when "most restrictive wins" holds
  // ---------------------------------------------------------------------------

  /** Patterns as the admin API stores them. */
  predicate Stored(p: Policy) {
    && WellFormed(p)
    && (forall x :: x in Allow(p) ==> ValidPattern(x))
    && (forall x :: x in Deny(p) ==> ValidPattern(x))
  }

  /** A model name that only the lone wildcard matches. */
  const OUTSIDER: string := "!"

  lemma {:induction false} OutsiderMatchesOnlyStar(pattern: string)
    requires ValidPattern(pattern)
    ensures MatchesGlob(pattern, OUTSIDER) <==> pattern == "*"
  {
    var base := StripStar(pattern);
    assert base != [] ==> IdentifierChar(base[0]);
    assert base == [] || base[0] != OUTSIDER[0];
    assert pattern == base || pattern == base + "*";
  }

  ghost predicate OnlyRestricts(ps: set<Policy>, e: Evaluated) {
    forall q, p :: Accepts(e, q) && p in ps ==> AcceptsAlone(p, q)
  }

  /** For stored policies, the merged policy never accepts what one of them refuses if and only if the allowlists
      share a pattern or some denylist holds "*". Otherwise the empty intersection reads as "no restriction". */
  lemma {:induction false} MostRestrictiveIff(ps: set<Policy>, e: Evaluated)
    requires ps != {} && (forall p :: p in ps ==> Stored(p)) && MergeResult(ps, Ok(e))
    ensures OnlyRestricts(ps, e) <==> SharesPattern(ps) || "*" in e.denied
    ensures "*" in e.denied <==> exists p :: p in ps && "*" in Deny(p)
  {
    if SharesPattern(ps) {
      forall q, p | Accepts(e, q) && p in ps
        ensures AcceptsAlone(p, q)
      {
        MergedAcceptsLess(ps, e, q, p);
      }
    } else if "*" in e.denied {
      StarDeniesAll(e);
    } else {
      DisjointAllowlistsOpen(ps, e);
    }
  }

  lemma {:induction false} StarDeniesAll(e: Evaluated)
    requires "*" in e.denied
    ensures forall q :: !Accepts(e, q)
  {
    forall q
      ensures !Accepts(e, q)
    {
      assert MatchesGlob("*", q.model);
    }
  }

  /** Allowlists without a common pattern: the merged policy accepts a model that one of them refuses. */
  lemma {:induction false} DisjointAllowlistsOpen(ps: set<Policy>, e: Evaluated)
    requires ps != {} && (forall p :: p in ps ==> Stored(p)) && MergeResult(ps, Ok(e))
    requires !SharesPattern(ps) && "*" !in e.denied
    ensures !OnlyRestricts(ps, e)
  {
    var q := Request(OUTSIDER, false, false, false, None, None);
    SharedIffNonempty(ps, e);
    NoStarNoDenial(ps, e);
    assert Accepts(e, q);
    assert !OnEveryList(ps, "*");
    var p :| p in ps && Restricts(p) && "*" !in Allow(p);
    ListWithoutStarRefuses(p, q);
  }

  function AllowOnly(id: nat, pattern: string): Policy {
    Policy(id, 0, "team", Array([Str(pattern)]), Array([]), None, None, true, true, true, None, None)
  }

  lemma {:induction false} HasMember(s: seq<string>)
    ensures s != [] ==> exists x :: x in s
  {
    if s != [] {
      assert s[0] in s;
    }
  }

  /** Two teams' policies on one account, "gpt-4*" and "gpt-4-turbo": together they let any model through. */
  lemma {:induction false} DisjointExample(e: Evaluated)
    requires MergeResult({AllowOnly(1, "gpt-4*"), AllowOnly(2, "gpt-4-turbo")}, Ok(e))
    ensures var q := Request("claude-3-opus", false, false, false, None, None);
      Accepts(e, q) && !AcceptsAlone(AllowOnly(1, "gpt-4*"), q) && !AcceptsAlone(AllowOnly(2, "gpt-4-turbo"), q)
  {
    var a, b := AllowOnly(1, "gpt-4*"), AllowOnly(2, "gpt-4-turbo");
    var ps, model := {a, b}, "claude-3-opus";
    assert Allow(a) == ["gpt-4*"] && Allow(b) == ["gpt-4-turbo"];
    assert Deny(a) == [] && Deny(b) == [];
    assert a in ps && b in ps;
    assert e.denied == {};
    assert e.allowed == [] by {
      HasMember(e.allowed);
      assert forall x :: x in e.allowed ==> x in Allow(a) && x in Allow(b);
      assert |"gpt-4*"| != |"gpt-4-turbo"|;
    }
    assert !MatchesGlob("gpt-4*", model) by { assert "gpt-4*"[..5][0] != model[0]; }
    assert !MatchesGlob("gpt-4-turbo", model) by { assert "gpt-4-turbo"[0] != model[0]; }
    assert e.streaming && e.tools && e.files;
  }

  function AllowTwo(id: nat, first: string, second: string): Policy {
    Policy(id, 0, "team", Array([Str(first), Str(second)]), Array([]), None, None, true, true, true, None, None)
  }

  lemma {:induction false} AllowTwoLists(id: nat, first: string, second: string)
    ensures Allow(AllowTwo(id, first, second)) == [first, second] && Deny(AllowTwo(id, first, second)) == []
  {
  }

  /** A policy that lists a pattern matching the model accepts a plain request for it. */
  lemma {:induction false} AllowTwoAccepts(id: nat, first: string, second: string, model: string)
    requires MatchesGlob(first, model)
    ensures AcceptsAlone(AllowTwo(id, first, second), Request(model, false, false, false, None, None))
  {
    AllowTwoLists(id, first, second);
    assert first in Allow(AllowTwo(id, first, second));
  }

  lemma {:induction false} OnlySecondShared(a: Policy, b: Policy, x: string, y: string, z: string)
    requires Allow(a) == [x, z] && Allow(b) == [y, z] && x != y && x != z && y != z
    ensures forall w :: OnEveryList({a, b}, w) <==> w == z
  {
    assert a in {a, b} && b in {a, b};
    forall w
      ensures OnEveryList({a, b}, w) <==> w == z
    {
      assert w in Allow(a) <==> w == x || w == z;
      assert w in Allow(b) <==> w == y || w == z;
    }
  }

  /** Two lists with one pattern in common: the merge refuses whatever that pattern does not match. */
  lemma {:induction false} OverlapRefuses(a: Policy, b: Policy, x: string, y: string, z: string, e: Evaluated, q: Request)
    requires Allow(a) == [x, z] && Allow(b) == [y, z] && x != y && x != z && y != z
    requires MergeResult({a, b}, Ok(e)) && !MatchesGlob(z, q.model)
    ensures !Accepts(e, q)
  {
    var ps := {a, b};
    OnlySecondShared(a, b, x, y, z);
    assert a in ps && Restricts(a);
    assert OnEveryList(ps, z);
    AcceptsIff(ps, e, q);
  }

  /** Lists are intersected pattern by pattern, not by what they match: "gpt-4*" and "gpt-4-turbo" beside a shared "o1"
      leave only "o1", so a model that both policies accept is refused. */
  lemma {:induction false} OverlapExample(e: Evaluated)
    requires MergeResult({AllowTwo(1, "gpt-4*", "o1"), AllowTwo(2, "gpt-4-turbo", "o1")}, Ok(e))
    ensures var q := Request("gpt-4-turbo", false, false, false, None, None);
      && AcceptsAlone(AllowTwo(1, "gpt-4*", "o1"), q) && AcceptsAlone(AllowTwo(2, "gpt-4-turbo", "o1"), q)
      && !Accepts(e, q)
  {
    var a, b, model := AllowTwo(1, "gpt-4*", "o1"), AllowTwo(2, "gpt-4-turbo", "o1"), "gpt-4-turbo";
    AllowTwoLists(1, "gpt-4*", "o1");
    AllowTwoLists(2, "gpt-4-turbo", "o1");
    assert |"gpt-4*"| == 6 && |"gpt-4-turbo"| == 11 && |"o1"| == 2;
    AllowTwoAccepts(1, "gpt-4*", "o1", model);
    AllowTwoAccepts(2, "gpt-4-turbo", "o1", model);
    assert !MatchesGlob("o1", model);
    OverlapRefuses(a, b, "gpt-4*", "gpt-4-turbo", "o1", e, Request(model, false, false, false, None, None));
  }

  lemma {:induction false} ListWithoutStarRefuses(p: Policy, q: Request)
    requires Stored(p) && Restricts(p) && "*" !in Allow(p) && q.model == OUTSIDER
    ensures !AcceptsAlone(p, q)
  {
    forall x | x in Allow(p)
      ensures !MatchesGlob(x, OUTSIDER)
    {
      OutsiderMatchesOnlyStar(x);
    }
  }

  lemma {:induction false} NoStarNoDenial(ps: set<Policy>, e: Evaluated)
    requires (forall p :: p in ps ==> Stored(p)) && Merged(ps, e)
    requires "*" !in e.denied
    ensures !Denied(e.denied, OUTSIDER)
  {
    forall x | x in e.denied
      ensures !MatchesGlob(x, OUTSIDER)
    {
      var p :| p in ps && x in Deny(p);
      OutsiderMatchesOnlyStar(x);
    }
  }

  // ---------------------------------------------------------------------------
  // The output cap
  // ---------------------------------------------------------------------------

  /** Clamping by each policy in turn. */
  function ClampAll(requested: Option<nat>, ps: seq<Policy>): Option<nat>
    requires forall p :: p in ps ==> WellFormed(p)
  {
    if ps == [] then requested
    else ClampOutput(ClampAll(requested, ps[..|ps| - 1]), Alone(ps[|ps| - 1]).maxOutput).effective
  }

  ghost predicate LeastOutput(requested: Option<nat>, ps: set<Policy>, cap: Option<nat>) {
    match cap
    case None => requested.None? && forall p :: p in ps ==> p.maxOutput.None?
    case Some(n) =>
      && (requested == Some(n) || exists p :: p in ps && p.maxOutput == Some(n))
      && (requested.Some? ==> n <= requested.value)
      && (forall p :: p in ps && p.maxOutput.Some? ==> n <= p.maxOutput.value)
  }

  lemma {:induction false} ClampAllIsLeast(requested: Option<nat>, ps: seq<Policy>)
    requires forall p :: p in ps ==> WellFormed(p)
    ensures LeastOutput(requested, SetOf(ps), ClampAll(requested, ps))
  {
    if ps != [] {
      var n := |ps| - 1;
      ClampAllIsLeast(requested, ps[..n]);
      PrefixSet(ps, n);
      assert ps[..n + 1] == ps;
      LeastOutputStep(requested, SetOf(ps[..n]), ClampAll(requested, ps[..n]), ps[n]);
    }
  }

  lemma {:induction false} LeastOutputStep(requested: Option<nat>, ps: set<Policy>, cap: Option<nat>, p: Policy)
    requires LeastOutput(requested, ps, cap) && WellFormed(p)
    ensures LeastOutput(requested, ps + {p}, ClampOutput(cap, Alone(p).maxOutput).effective)
  {
    var next := ClampOutput(cap, Alone(p).maxOutput).effective;
    assert p in ps + {p};
    if next.Some? && next == cap && requested != Some(next.value) {
      var q :| q in ps && q.maxOutput == Some(next.value);
      assert q in ps + {p};
    }
  }

  /** The cap sent to the provider is the requested one clamped by every policy in turn, in any order; the
      "clamped" marker is set exactly when some policy alone would set it. */
  lemma {:induction false} OutputCapIsClampAll(ps: seq<Policy>, e: Evaluated, requested: Option<nat>)
    requires ps != [] && MergeResult(SetOf(ps), Ok(e))
    requires forall p :: p in ps ==> WellFormed(p)
    ensures ClampOutput(requested, e.maxOutput).effective == ClampAll(requested, ps)
    ensures ClampOutput(requested, e.maxOutput).clamped <==>
      exists p :: p in ps && ClampOutput(requested, Alone(p).maxOutput).clamped
  {
    ClampAllIsLeast(requested, ps);
    assert ps[0] in SetOf(ps);
    assert LimitMerged(SetOf(ps), MaxOutput, MergedLimit(e, MaxOutput));
    var cap := ClampOutput(requested, e.maxOutput).effective;
    LeastFromLimit(requested, SetOf(ps), e.maxOutput);
    LeastOutputUnique(requested, SetOf(ps), cap, ClampAll(requested, ps));
    if e.maxOutput.Some? {
      var p :| p in SetOf(ps) && Limit(p, MaxOutput) == Some(e.maxOutput.value);
      assert p in ps && Alone(p).maxOutput == e.maxOutput;
    }
    forall p | p in ps && ClampOutput(requested, Alone(p).maxOutput).clamped
      ensures ClampOutput(requested, e.maxOutput).clamped
    {
      assert p in SetOf(ps) && Limit(p, MaxOutput).Some?;
    }
  }

  lemma {:induction false} LeastFromLimit(requested: Option<nat>, ps: set<Policy>, limit: Option<nat>)
    requires LimitMerged(ps, MaxOutput, limit)
    ensures LeastOutput(requested, ps, ClampOutput(requested, limit).effective)
  {
    forall p | p in ps
      ensures Limit(p, MaxOutput) == p.maxOutput
    {
    }
    if limit.Some? {
      var p :| p in ps && Limit(p, MaxOutput) == Some(limit.value);
    }
  }

  lemma {:induction false} LeastOutputUnique(requested: Option<nat>, ps: set<Policy>, a: Option<nat>, b: Option<nat>)
    requires LeastOutput(requested, ps, a) && LeastOutput(requested, ps, b)
    ensures a == b
  {
  }

  // ---------------------------------------------------------------------------
  // The whole decision on the columns of the policies
  // ---------------------------------------------------------------------------

  /** Some policy lists a denied pattern that matches. */
  ghost predicate ModelDenied(ps: set<Policy>, model: string) {
    exists x :: DeniedBySome(ps, x) && MatchesGlob(x, model)
  }

  /** Some pattern is on every nonempty allowlist, and no such pattern matches. */
  ghost predicate ModelLeftOff(ps: set<Policy>, model: string) {
    (exists x :: AllowedByAll(ps, x)) && forall x :: AllowedByAll(ps, x) ==> !MatchesGlob(x, model)
  }

  ghost predicate ModelRefused(ps: set<Policy>, model: string) {
    ModelDenied(ps, model) || ModelLeftOff(ps, model)
  }

  lemma {:induction false} DeniedChecked(ps: set<Policy>, denied: set<string>, model: string)
    requires forall x :: x in denied <==> DeniedBySome(ps, x)
    ensures Denied(denied, model) <==> ModelDenied(ps, model)
  {
    if x :| DeniedBySome(ps, x) && MatchesGlob(x, model) {
      assert x in denied;
    }
  }

  lemma {:induction false} AllowedChecked(ps: set<Policy>, allowed: seq<string>, model: string)
    requires forall x :: x in allowed <==> AllowedByAll(ps, x)
    ensures !Allowed(allowed, model) <==> ModelLeftOff(ps, model)
  {
    HasMember(allowed);
    if allowed != [] {
      var x :| x in allowed;
      assert AllowedByAll(ps, x);
    }
    if x :| AllowedByAll(ps, x) {
      assert x in allowed;
    }
  }

  lemma {:induction false} ModelChecked(ps: set<Policy>, e: Evaluated, model: string)
    requires ps != {} && MergeResult(ps, Ok(e))
    ensures Denied(e.denied, model) || !Allowed(e.allowed, model) <==> ModelRefused(ps, model)
  {
    MergeOnColumns(ps, Ok(e));
    DeniedChecked(ps, e.denied, model);
    AllowedChecked(ps, e.allowed, model);
  }

  /** The request estimates more input than the policy allows. */
  predicate OverInput(p: Policy, q: Request) {
    p.maxInput.Some? && q.estimate.Some? && q.estimate.value > p.maxInput.value
  }

  predicate OverOutput(p: Policy, q: Request) {
    p.maxOutput.Some? && q.maxOutput.Some? && q.maxOutput.value > p.maxOutput.value
  }

  lemma {:induction false} InputChecked(ps: set<Policy>, e: Evaluated, q: Request)
    requires ps != {} && MergeResult(ps, Ok(e))
    ensures !InputFits(e.maxInput, q.estimate) <==> exists p :: p in ps && OverInput(p, q)
  {
    MergeOnColumns(ps, Ok(e));
    if e.maxInput.Some? {
      var p :| p in ps && p.maxInput == Some(e.maxInput.value);
      assert !InputFits(e.maxInput, q.estimate) ==> OverInput(p, q);
    }
  }

  lemma {:induction false} ClampedIff(ps: set<Policy>, limit: Option<nat>, q: Request)
    requires LeastOf(ps, (p: Policy) => p.maxOutput, limit)
    ensures ClampOutput(q.maxOutput, limit).clamped <==> exists p :: p in ps && OverOutput(p, q)
  {
    if limit.Some? {
      var p :| p in ps && p.maxOutput == Some(limit.value);
      assert ClampOutput(q.maxOutput, limit).clamped ==> OverOutput(p, q);
    }
  }

  lemma {:induction false} OutputChecked(ps: set<Policy>, e: Evaluated, q: Request)
    requires ps != {} && MergeResult(ps, Ok(e))
    ensures LeastOutput(q.maxOutput, ps, ClampOutput(q.maxOutput, e.maxOutput).effective)
    ensures ClampOutput(q.maxOutput, e.maxOutput).clamped <==> exists p :: p in ps && OverOutput(p, q)
  {
    MergedLimits(ps, e);
    ClampedIff(ps, e.maxOutput, q);
    assert LimitMerged(ps, MaxOutput, MergedLimit(e, MaxOutput));
    LeastFromLimit(q.maxOutput, ps, e.maxOutput);
  }

  ghost predicate AnyWithout(ps: set<Policy>, flag: Policy -> bool) {
    exists p :: p in ps && !flag(p)
  }

  ghost predicate AnyOverInput(ps: set<Policy>, q: Request) {
    exists p :: p in ps && OverInput(p, q)
  }

  /** What must be returned, from the columns: the first check that any policy fails decides; if none does, the output cap
      is the least of the request and all caps, marked if some cap is below the request. */
  ghost predicate Decision(ps: set<Policy>, q: Request, r: Result<TokenCheck, Denial>) {
    if ModelRefused(ps, q.model) then r == Err(ModelNotAllowed)
    else if q.stream && AnyWithout(ps, (p: Policy) => p.streaming) then r == Err(StreamingNotAllowed)
    else if q.tools && AnyWithout(ps, (p: Policy) => p.tools) then r == Err(ToolsNotAllowed)
    else if q.files && AnyWithout(ps, (p: Policy) => p.files) then r == Err(FilesNotAllowed)
    else if AnyOverInput(ps, q) then r == Err(InputTokensExceeded)
    else
      && r.Ok? && LeastOutput(q.maxOutput, ps, r.value.effective)
      && (r.value.clamped <==> exists p :: p in ps && OverOutput(p, q))
  }

  lemma {:induction false} FlagsChecked(ps: set<Policy>, e: Evaluated)
    requires ps != {} && MergeResult(ps, Ok(e))
    ensures !e.streaming <==> AnyWithout(ps, (p: Policy) => p.streaming)
    ensures !e.tools <==> AnyWithout(ps, (p: Policy) => p.tools)
    ensures !e.files <==> AnyWithout(ps, (p: Policy) => p.files)
  {
  }

  /** The checks on a merged policy return exactly that, denial and output cap included. */
  lemma {:induction false} ChecksDecide(ps: set<Policy>, e: Evaluated, q: Request)
    requires ps != {} && MergeResult(ps, Ok(e))
    ensures Decision(ps, q, ApplyPolicyChecks(e, q))
  {
    ModelChecked(ps, e, q.model);
    FlagsChecked(ps, e);
    InputChecked(ps, e, q);
    OutputChecked(ps, e, q);
  }

  /** An account without policies may use any model and stream, without tools or files, and its output is not capped. */
  lemma {:induction false} UnboundDecides(q: Request, e: Evaluated)
    requires MergeResult({}, Ok(e))
    ensures ApplyPolicyChecks(e, q) == if q.tools then Err(ToolsNotAllowed)
                                       else if q.files then Err(FilesNotAllowed)
                                       else Ok(TokenCheck(q.maxOutput, false))
  {
    MergeOnColumns({}, Ok(e));
  }
}

/** Rate limiting at two levels: the service account first, then the whole gateway, undoing the
    account's hit when the gateway-wide check refuses. Requests of any number of accounts run
    concurrently; each step below is one Redis round trip of one request. */
module TwoLevelLimit {
  import opened Wrappers
  import opened Arithmetic
  import opened Counting
  import opened Redis
  import opened SlidingBound
  import opened SlidingWindow

  // ---------------------------------------------------------------------------
  // The protocol
  // ---------------------------------------------------------------------------

  datatype Phase =
    | AwaitingGlobal    // passed the account check, or has no account limit
    | AwaitingRollback  // refused by the global check, account hit not undone yet
    | Admitted
    | AccountRejected
    | GlobalRejected    // refused by the global check, nothing to undo
    | RolledBack
    | Failed            // Redis was unavailable for a check or for the rollback, or its reply no use

  /** A request in flight or finished, with the account check and the global check it made. */
  datatype Request = Request(hit: Hit, limited: bool, global: Option<Hit>, phase: Phase)

  datatype Config = Config(length: nat, globalRpm: U32)

  datatype Traffic = Traffic(counters: Counters, requests: seq<Request>, globals: seq<Hit>, now: nat)

  datatype Event =
    // `rpm`: the limit of the account's policy at this moment; unanswered: the script ran, the reply was lost
    | Arrive(account: nat, rpm: Option<U32>, clock: nat, at: nat, answered: bool)
    | CheckGlobal(i: nat, clock: nat, at: nat, answered: bool)
    | Rollback(i: nat, clock: nat, at: nat)
    | Fail(i: nat)

  function Start(): Traffic {
    Traffic(map[], [], [], 0)
  }

  /** One run of the window script for `prefix`. */
  function Hits(counters: Counters, prefix: Prefix, limit: U32, clock: nat, at: nat, length: nat): (Counters, Hit)
    requires length > 0
  {
    var s := Perform(WindowRun(counters, []), Check(prefix, limit, clock, at), length);
    (s.counters, s.hits[0])
  }

  /** A negative count in the reply is a Redis error to the limiter, which then reports itself unavailable. */
  predicate Undecodable(h: Hit) {
    h.current < 0 || h.previous < 0
  }

  function Step(cfg: Config, s: Traffic, e: Event): Traffic
    requires cfg.length > 0
  {
    match e
    case Arrive(account, rpm, clock, at, answered) =>
      (match rpm
       case None =>
         var hit := Hit(Account(account), 0, clock / cfg.length, clock % cfg.length, 0, 0, true);
         s.(requests := s.requests + [Request(hit, false, None, AwaitingGlobal)], now := at)
       case Some(limit) =>
         var (counters, hit) := Hits(s.counters, Account(account), limit, clock, at, cfg.length);
         var phase := if !answered || Undecodable(hit) then Failed else if hit.allowed then AwaitingGlobal else AccountRejected;
         s.(counters := counters, requests := s.requests + [Request(hit, true, None, phase)], now := at))
    case CheckGlobal(i, clock, at, answered) =>
      if i < |s.requests| && s.requests[i].phase == AwaitingGlobal then
        var (counters, hit) := Hits(s.counters, Global, cfg.globalRpm, clock, at, cfg.length);
        var phase :=
          if !answered || Undecodable(hit) then Failed
          else if hit.allowed then Admitted
          else if s.requests[i].limited then AwaitingRollback
          else GlobalRejected;
        Traffic(counters, s.requests[i := s.requests[i].(phase := phase, global := Some(hit))], s.globals + [hit], at)
      else s
    case Rollback(i, clock, at) =>
      if i < |s.requests| && s.requests[i].phase == AwaitingRollback then
        s.(counters := Undo(s.counters, s.requests[i].hit.prefix, clock / cfg.length, at),
           requests := s.requests[i := s.requests[i].(phase := RolledBack)], now := at)
      else s
    case Fail(i) =>
      if i < |s.requests| && (s.requests[i].phase == AwaitingGlobal || s.requests[i].phase == AwaitingRollback) then
        s.(requests := s.requests[i := s.requests[i].(phase := Failed)])
      else s
  }

  function Run(cfg: Config, events: seq<Event>): Traffic
    requires cfg.length > 0
  {
    if events == [] then Start() else Step(cfg, Run(cfg, events[..|events| - 1]), events[|events| - 1])
  }

  /** The script finds neither of its two counters expired. */
  ghost predicate FindsBoth(counters: Counters, prefix: Prefix, window: nat, at: nat) {
    Unexpired(counters, Key(prefix, window), at) && Unexpired(counters, Key(prefix, PrevWindow(window)), at)
  }

  /** No earlier limited request of the account, or no earlier global check, was aimed at a later window. */
  ghost predicate AccountInOrder(requests: seq<Request>, account: nat, window: nat) {
    forall i :: 0 <= i < |requests| && requests[i].limited && requests[i].hit.prefix == Account(account) ==>
      requests[i].hit.window <= window
  }

  ghost predicate GlobalInOrder(globals: seq<Hit>, window: nat) {
    forall i :: 0 <= i < |globals| ==> globals[i].window <= window
  }

  /** What every step needs: its counters have not expired, the windows of each prefix come in order, and a rollback
      lands in the window of the hit it undoes. */
  ghost predicate Sound(cfg: Config, s: Traffic, e: Event)
    requires cfg.length > 0
  {
    match e
    case Arrive(account, rpm, clock, at, _) =>
      rpm.Some? ==> FindsBoth(s.counters, Account(account), clock / cfg.length, at) && AccountInOrder(s.requests, account, clock / cfg.length)
    case CheckGlobal(_, clock, at, _) =>
      FindsBoth(s.counters, Global, clock / cfg.length, at) && GlobalInOrder(s.globals, clock / cfg.length)
    case Rollback(i, clock, at) => i < |s.requests| ==> Undoes(cfg, s, s.requests[i], clock, at)
    case Fail(_) => true
  }

  ghost predicate Undoes(cfg: Config, s: Traffic, r: Request, clock: nat, at: nat)
    requires cfg.length > 0
  {
    clock / cfg.length == r.hit.window && Unexpired(s.counters, Key(r.hit.prefix, r.hit.window), at)
  }

  ghost predicate SoundRun(cfg: Config, events: seq<Event>)
    requires cfg.length > 0
  {
    forall k :: 0 <= k < |events| ==> SoundAt(cfg, events, k)
  }

  ghost predicate SoundAt(cfg: Config, events: seq<Event>, k: nat)
    requires cfg.length > 0 && k < |events|
  {
    Sound(cfg, Run(cfg, events[..k]), events[k])
  }

  /** The simpler promise: time goes forward, scripts run inside the window they were aimed at, and a rollback in the
      window of the hit it undoes. */
  ghost predicate InTime(cfg: Config, s: Traffic, e: Event)
    requires cfg.length > 0
  {
    match e
    case Arrive(_, _, clock, at, _) => s.now <= at && clock / cfg.length == at / cfg.length
    case CheckGlobal(_, clock, at, _) => s.now <= at && clock / cfg.length == at / cfg.length
    case Rollback(i, clock, at) =>
      && s.now <= at && clock / cfg.length == at / cfg.length
      && (i < |s.requests| ==> clock / cfg.length == s.requests[i].hit.window)
    case Fail(_) => true
  }

  ghost predicate TimelyRun(cfg: Config, events: seq<Event>)
    requires cfg.length > 0
  {
    forall k :: 0 <= k < |events| ==> InTime(cfg, Run(cfg, events[..k]), events[k])
  }

  // ---------------------------------------------------------------------------
  // What the counters stand for
  // ---------------------------------------------------------------------------

  /** The phases in which an account's hit is still on its counter. */
  predicate OnCounter(p: Phase) {
    !p.RolledBack? && !p.GlobalRejected?
  }

  /** Admitted for good, or still able to be. */
  predicate Holding(p: Phase) {
    p.Admitted? || p.AwaitingGlobal? || p.AwaitingRollback?
  }

  function ChargedIn(key: Key): Request -> bool {
    (r: Request) => r.limited && r.hit.prefix == key.prefix && r.hit.window == key.window && OnCounter(r.phase)
  }

  function Charged(requests: seq<Request>, key: Key): nat {
    Count(requests, ChargedIn(key))
  }

  function ToAccountPass(r: Request, account: nat): Pass {
    ToPass(r.hit, Account(account)).(kept := r.hit.prefix == Account(account) && r.limited && Holding(r.phase))
  }

  /** The account checks as passes, kept while the request holds its place. */
  function AccountPasses(requests: seq<Request>, account: nat): (ps: seq<Pass>)
    ensures |ps| == |requests|
    ensures forall i :: 0 <= i < |requests| ==> ps[i] == ToAccountPass(requests[i], account)
  {
    seq(|requests|, i requires 0 <= i < |requests| => ToAccountPass(requests[i], account))
  }

  /** Requests whose global check was a hit satisfying `p`. */
  function Through(p: Hit -> bool): Request -> bool {
    (r: Request) => r.global.Some? && p(r.global.value)
  }

  /** The global checks made are exactly those of the requests, one each. */
  ghost predicate Matched(requests: seq<Request>, globals: seq<Hit>) {
    forall p: Hit -> bool :: Count(globals, p) == Count(requests, Through(p))
  }

  ghost predicate CountersOk(s: Traffic) {
    && (forall key: Key :: key.prefix.Account? ==> Tracks(s.counters, key, Charged(s.requests, key)))
    && (forall key: Key :: key.prefix.Global? ==> Tracks(s.counters, key, Attempts(s.globals, key)))
  }

  ghost predicate RequestOk(r: Request) {
    && r.hit.prefix.Account?
    && (r.phase.AccountRejected? ==> r.limited && r.global.None?)
    && (r.phase.AwaitingGlobal? ==> r.global.None?)
    && (r.phase.AwaitingRollback? || r.phase.RolledBack? ==> r.limited)
    && (r.phase.GlobalRejected? ==> !r.limited)
    && (r.phase.Admitted? ==> r.global.Some? && r.global.value.allowed && r.global.value.prefix == Global)
  }

  /** Every limited request of the account was checked against at most `limit`. */
  ghost predicate LimitedTo(requests: seq<Request>, account: nat, limit: U32) {
    forall i :: 0 <= i < |requests| && requests[i].limited && requests[i].hit.prefix == Account(account) ==>
      requests[i].hit.limit <= limit
  }

  /** Whatever limits the policies set over time, an account keeps to the largest. */
  ghost predicate AccountsDisciplined(cfg: Config, requests: seq<Request>) {
    forall account: nat, limit: U32 :: limit < U32_MAX && LimitedTo(requests, account, limit) ==>
      Disciplined(AccountPasses(requests, account), cfg.length, limit)
  }

  ghost predicate GlobalDisciplined(cfg: Config, globals: seq<Hit>) {
    cfg.globalRpm < U32_MAX ==> Disciplined(Passes(globals, Global), cfg.length, cfg.globalRpm)
  }

  ghost predicate Inv(cfg: Config, s: Traffic)
    requires cfg.length > 0
  {
    && CountersOk(s)
    && (forall i :: 0 <= i < |s.requests| ==> RequestOk(s.requests[i]))
    && AccountsDisciplined(cfg, s.requests)
    && GlobalDisciplined(cfg, s.globals)
    && Matched(s.requests, s.globals)
  }

  // ---------------------------------------------------------------------------
  // Preservation, one step at a time
  // ---------------------------------------------------------------------------

  /** One script run: its effect on the counters and the truth of what it read. */
  lemma {:induction false} HitsTrue(counters: Counters, prefix: Prefix, limit: U32, clock: nat, at: nat, length: nat, n: nat, m: nat)
    requires length > 0 && FindsBoth(counters, prefix, clock / length, at)
    requires Tracks(counters, Key(prefix, clock / length), n)
    requires Tracks(counters, Key(prefix, PrevWindow(clock / length)), m)
    ensures var (after, h) := Hits(counters, prefix, limit, clock, at, length);
      && h.prefix == prefix && h.limit == limit
      && h.window == clock / length && h.elapsed == clock % length
      && h.current == n + 1 && h.previous == (if h.window == 0 then n + 1 else m)
      && (h.allowed <==> AllowedByRule(h, length))
      && Tracks(after, Key(prefix, h.window), n + 1)
      && forall key: Key :: key != Key(prefix, h.window) ==> At(after, key) == At(counters, key)
  {
    ScriptReads(counters, prefix, clock / length, length, at, n, m);
  }

  lemma {:induction false} TracksSame(a: Counters, b: Counters, key: Key, n: int)
    requires Tracks(a, key, n) && At(a, key) == At(b, key)
    ensures Tracks(b, key, n)
  {
    assert key in a <==> key in b;
  }

  /** The charge that request `r` makes on `key`. */
  function Charge(r: Request, key: Key): nat {
    if ChargedIn(key)(r) then 1 else 0
  }

  lemma {:induction false} ChargedAppend(requests: seq<Request>, r: Request)
    ensures forall key :: Charged(requests + [r], key) == Charged(requests, key) + Charge(r, key)
  {
    forall key
      ensures Charged(requests + [r], key) == Charged(requests, key) + Charge(r, key)
    {
      CountAppend(requests, r, ChargedIn(key));
    }
  }

  lemma {:induction false} ChargedUpdate(requests: seq<Request>, i: nat, r: Request)
    requires i < |requests|
    ensures forall key :: Charged(requests[i := r], key) + Charge(requests[i], key) == Charged(requests, key) + Charge(r, key)
  {
    forall key
      ensures Charged(requests[i := r], key) + Charge(requests[i], key) == Charged(requests, key) + Charge(r, key)
    {
      CountUpdate(requests, i, r, ChargedIn(key));
    }
  }

  lemma {:induction false} MatchedArrive(requests: seq<Request>, globals: seq<Hit>, r: Request)
    requires Matched(requests, globals) && r.global.None?
    ensures Matched(requests + [r], globals)
  {
    forall p: Hit -> bool
      ensures Count(globals, p) == Count(requests + [r], Through(p))
    {
      CountAppend(requests, r, Through(p));
    }
  }

  lemma {:induction false} MatchedHit(requests: seq<Request>, globals: seq<Hit>, i: nat, r: Request, h: Hit)
    requires Matched(requests, globals) && i < |requests| && requests[i].global.None? && r.global == Some(h)
    ensures Matched(requests[i := r], globals + [h])
  {
    forall p: Hit -> bool
      ensures Count(globals + [h], p) == Count(requests[i := r], Through(p))
    {
      CountAppend(globals, h, p);
      CountUpdate(requests, i, r, Through(p));
    }
  }

  lemma {:induction false} MatchedSame(requests: seq<Request>, globals: seq<Hit>, i: nat, r: Request)
    requires Matched(requests, globals) && i < |requests| && requests[i].global == r.global
    ensures Matched(requests[i := r], globals)
  {
    forall p: Hit -> bool
      ensures Count(globals, p) == Count(requests[i := r], Through(p))
    {
      CountUpdate(requests, i, r, Through(p));
    }
  }

  lemma {:induction false} ArriveUnlimited(cfg: Config, s: Traffic, e: Event)
    requires cfg.length > 0 && Inv(cfg, s) && Sound(cfg, s, e)
    requires e.Arrive? && e.rpm.None?
    ensures Inv(cfg, Step(cfg, s, e))
  {
    var t := Step(cfg, s, e);
    var r := t.requests[|s.requests|];
    ChargedAppend(s.requests, r);
    AccountsAppend(cfg, s.requests, r);
    MatchedArrive(s.requests, s.globals, r);
  }

  lemma {:induction false} ArriveLimited(cfg: Config, s: Traffic, e: Event)
    requires cfg.length > 0 && Inv(cfg, s) && Sound(cfg, s, e)
    requires e.Arrive? && e.rpm.Some?
    ensures Inv(cfg, Step(cfg, s, e))
  {
    var t, here := Step(cfg, s, e), Key(Account(e.account), e.clock / cfg.length);
    var before := Key(here.prefix, PrevWindow(here.window));
    assert Tracks(s.counters, here, Charged(s.requests, here));
    assert Tracks(s.counters, before, Charged(s.requests, before));
    HitsTrue(s.counters, here.prefix, e.rpm.value, e.clock, e.at, cfg.length,
             Charged(s.requests, here), Charged(s.requests, before));
    var (counters, hit) := Hits(s.counters, here.prefix, e.rpm.value, e.clock, e.at, cfg.length);
    var r := Request(hit, true, None, if !e.answered || Undecodable(hit) then Failed else if hit.allowed then AwaitingGlobal else AccountRejected);
    assert t == Traffic(counters, s.requests + [r], s.globals, e.at);
    AccountHitKeepsInv(cfg, s, r, counters, e.at);
  }

  lemma {:induction false} AccountHitKeepsInv(cfg: Config, s: Traffic, r: Request, counters: Counters, at: nat)
    requires cfg.length > 0 && Inv(cfg, s)
    requires r.hit.prefix.Account? && AccountInOrder(s.requests, r.hit.prefix.id, r.hit.window)
    requires r.limited && r.global.None?
    requires r.phase.Failed? || r.phase == if r.hit.allowed then AwaitingGlobal else AccountRejected
    requires r.hit.allowed ==> AllowedByRule(r.hit, cfg.length)
    requires r.hit.current == Charged(s.requests, Key(r.hit.prefix, r.hit.window)) + 1
    requires r.hit.window > 0 ==> r.hit.previous == Charged(s.requests, Key(r.hit.prefix, r.hit.window - 1))
    requires Tracks(counters, Key(r.hit.prefix, r.hit.window), r.hit.current)
    requires forall key :: key != Key(r.hit.prefix, r.hit.window) ==> At(counters, key) == At(s.counters, key)
    ensures Inv(cfg, Traffic(counters, s.requests + [r], s.globals, at))
  {
    AccountHitCounters(cfg, s, r, counters, at);
    AccountsAppend(cfg, s.requests, r);
    MatchedArrive(s.requests, s.globals, r);
    assert RequestOk(r);
  }

  lemma {:induction false} AccountHitCounters(cfg: Config, s: Traffic, r: Request, counters: Counters, at: nat)
    requires CountersOk(s) && r.limited && OnCounter(r.phase) && r.hit.prefix.Account?
    requires r.hit.current == Charged(s.requests, Key(r.hit.prefix, r.hit.window)) + 1
    requires Tracks(counters, Key(r.hit.prefix, r.hit.window), r.hit.current)
    requires forall key :: key != Key(r.hit.prefix, r.hit.window) ==> At(counters, key) == At(s.counters, key)
    ensures CountersOk(Traffic(counters, s.requests + [r], s.globals, at))
  {
    var t, here := Traffic(counters, s.requests + [r], s.globals, at), Key(r.hit.prefix, r.hit.window);
    ChargedAppend(s.requests, r);
    assert Charge(r, here) == 1;
    CountersStep(cfg, s, t, here);
  }

  /** A step that writes only the counter `touched` and leaves every other charge alone. */
  lemma {:induction false} CountersStep(cfg: Config, s: Traffic, t: Traffic, touched: Key)
    requires CountersOk(s)
    requires forall key: Key :: key != touched ==> At(t.counters, key) == At(s.counters, key)
    requires forall key: Key :: key != touched && key.prefix.Account? ==> Charged(t.requests, key) == Charged(s.requests, key)
    requires forall key: Key :: key != touched && key.prefix.Global? ==> Attempts(t.globals, key) == Attempts(s.globals, key)
    requires touched.prefix.Account? ==> Tracks(t.counters, touched, Charged(t.requests, touched))
    requires touched.prefix.Global? ==> Tracks(t.counters, touched, Attempts(t.globals, touched))
    ensures CountersOk(t)
  {
    forall key | key != touched && key.prefix.Account?
      ensures Tracks(t.counters, key, Charged(t.requests, key))
    {
      TracksSame(s.counters, t.counters, key, Charged(s.requests, key));
    }
    forall key | key != touched && key.prefix.Global?
      ensures Tracks(t.counters, key, Attempts(t.globals, key))
    {
      TracksSame(s.counters, t.counters, key, Attempts(s.globals, key));
    }
  }

  /** A new request whose account check, if any, read at least the charges so far. */
  lemma {:induction false} AccountsAppend(cfg: Config, requests: seq<Request>, r: Request)
    requires AccountsDisciplined(cfg, requests)
    requires r.limited && Holding(r.phase) ==>
      && AllowedByRule(r.hit, cfg.length) && r.hit.prefix.Account? && AccountInOrder(requests, r.hit.prefix.id, r.hit.window)
      && r.hit.current == Charged(requests, Key(r.hit.prefix, r.hit.window)) + 1
      && (r.hit.window > 0 ==> r.hit.previous == Charged(requests, Key(r.hit.prefix, r.hit.window - 1)))
    ensures AccountsDisciplined(cfg, requests + [r])
  {
    forall account: nat, limit: U32 | limit < U32_MAX && LimitedTo(requests + [r], account, limit)
      ensures Disciplined(AccountPasses(requests + [r], account), cfg.length, limit)
    {
      assert forall i :: 0 <= i < |requests| ==> (requests + [r])[i] == requests[i];
      assert (requests + [r])[|requests|] == r;
      assert LimitedTo(requests, account, limit);
      AccountAppend(cfg, requests, r, account, limit);
    }
  }

  lemma {:induction false} AccountAppend(cfg: Config, requests: seq<Request>, r: Request, account: nat, limit: U32)
    requires Disciplined(AccountPasses(requests, account), cfg.length, limit)
    requires r.limited && r.hit.prefix == Account(account) ==> r.hit.limit <= limit < U32_MAX
    requires r.limited && Holding(r.phase) ==>
      && AllowedByRule(r.hit, cfg.length) && r.hit.prefix.Account? && AccountInOrder(requests, r.hit.prefix.id, r.hit.window)
      && r.hit.current == Charged(requests, Key(r.hit.prefix, r.hit.window)) + 1
      && (r.hit.window > 0 ==> r.hit.previous == Charged(requests, Key(r.hit.prefix, r.hit.window - 1)))
    ensures Disciplined(AccountPasses(requests + [r], account), cfg.length, limit)
  {
    var ps, p := AccountPasses(requests, account), ToAccountPass(r, account);
    assert AccountPasses(requests + [r], account) == ps + [p];
    if p.kept {
      FitsMonotone(r.hit.current, r.hit.previous, r.hit.elapsed, cfg.length, r.hit.limit, limit);
      CountPointwise(ps, InWindow(p.window), requests, ChargedIn(Key(r.hit.prefix, p.window)));
      if p.window > 0 {
        CountPointwise(ps, InWindow(p.window - 1), requests, ChargedIn(Key(r.hit.prefix, p.window - 1)));
      }
    }
    DisciplinedAppend(ps, p, cfg.length, limit);
  }

  /** A phase change that does not bring a request back into the holding phases. */
  lemma {:induction false} PhaseDisciplined(cfg: Config, requests: seq<Request>, i: nat, r: Request)
    requires i < |requests| && AccountsDisciplined(cfg, requests)
    requires r.hit == requests[i].hit && r.limited == requests[i].limited
    requires Holding(r.phase) ==> Holding(requests[i].phase)
    ensures AccountsDisciplined(cfg, requests[i := r])
  {
    var after := requests[i := r];
    forall account: nat, limit: U32 | limit < U32_MAX && LimitedTo(after, account, limit)
      ensures Disciplined(AccountPasses(after, account), cfg.length, limit)
    {
      LimitedSame(requests, i, r, account, limit);
      var ps := AccountPasses(requests, account);
      var qs := AccountPasses(after, account);
      if ps[i].kept && !qs[i].kept {
        DisciplinedDrop(ps, i, cfg.length, limit);
        assert qs == ps[i := ps[i].(kept := false)];
      } else {
        assert qs == ps;
      }
    }
  }

  lemma {:induction false} LimitedSame(requests: seq<Request>, i: nat, r: Request, account: nat, limit: U32)
    requires i < |requests| && r.hit == requests[i].hit && r.limited == requests[i].limited
    ensures LimitedTo(requests[i := r], account, limit) <==> LimitedTo(requests, account, limit)
  {
    assert forall j :: 0 <= j < |requests| ==>
      requests[i := r][j].hit == requests[j].hit && requests[i := r][j].limited == requests[j].limited;
  }

  lemma {:induction false} AttemptsAppend(hits: seq<Hit>, h: Hit)
    ensures forall key :: Attempts(hits + [h], key) == Attempts(hits, key) + (if key == Key(h.prefix, h.window) then 1 else 0)
  {
    forall key
      ensures Attempts(hits + [h], key) == Attempts(hits, key) + (if key == Key(h.prefix, h.window) then 1 else 0)
    {
      CountAppend(hits, h, Under(key));
    }
  }

  lemma {:induction false} CheckGlobalStep(cfg: Config, s: Traffic, e: Event)
    requires cfg.length > 0 && Inv(cfg, s) && Sound(cfg, s, e)
    requires e.CheckGlobal? && e.i < |s.requests| && s.requests[e.i].phase == AwaitingGlobal
    ensures Inv(cfg, Step(cfg, s, e))
  {
    var here := Key(Global, e.clock / cfg.length);
    var before := Key(Global, PrevWindow(here.window));
    assert Tracks(s.counters, here, Attempts(s.globals, here));
    assert Tracks(s.counters, before, Attempts(s.globals, before));
    HitsTrue(s.counters, Global, cfg.globalRpm, e.clock, e.at, cfg.length,
             Attempts(s.globals, here), Attempts(s.globals, before));
    var (counters, h) := Hits(s.counters, Global, cfg.globalRpm, e.clock, e.at, cfg.length);
    var r := Step(cfg, s, e).requests[e.i];
    assert Step(cfg, s, e) == Traffic(counters, s.requests[e.i := r], s.globals + [h], e.at);
    GlobalHitKeepsInv(cfg, s, e.i, r, counters, h, e.at);
  }

  lemma {:induction false} GlobalHitKeepsInv(cfg: Config, s: Traffic, i: nat, r: Request, counters: Counters, h: Hit, at: nat)
    requires cfg.length > 0 && Inv(cfg, s)
    requires i < |s.requests| && s.requests[i].phase == AwaitingGlobal
    requires r.hit == s.requests[i].hit && r.limited == s.requests[i].limited && r.global == Some(h)
    requires r.phase.Failed? || (r.phase.Admitted? && h.allowed) || r.phase == if r.limited then AwaitingRollback else GlobalRejected
    requires GlobalInOrder(s.globals, h.window)
    requires h.prefix == Global && h.limit == cfg.globalRpm && (h.allowed ==> AllowedByRule(h, cfg.length))
    requires h.current == Attempts(s.globals, Key(Global, h.window)) + 1
    requires h.previous == if h.window == 0 then h.current else Attempts(s.globals, Key(Global, PrevWindow(h.window)))
    requires Tracks(counters, Key(Global, h.window), h.current)
    requires forall key :: key != Key(Global, h.window) ==> At(counters, key) == At(s.counters, key)
    ensures Inv(cfg, Traffic(counters, s.requests[i := r], s.globals + [h], at))
  {
    assert RequestOk(s.requests[i]);
    AttemptsAppend(s.globals, h);
    MatchedHit(s.requests, s.globals, i, r, h);
    GlobalHitCounters(cfg, s, i, r, counters, h, at);
    PhaseDisciplined(cfg, s.requests, i, r);
    GlobalAppend(cfg, s.globals, h);
  }

  lemma {:induction false} GlobalHitCounters(cfg: Config, s: Traffic, i: nat, r: Request, counters: Counters, h: Hit, at: nat)
    requires CountersOk(s) && i < |s.requests| && RequestOk(s.requests[i]) && s.requests[i].phase == AwaitingGlobal
    requires r.hit == s.requests[i].hit && r.limited == s.requests[i].limited && (r.limited ==> OnCounter(r.phase))
    requires h.prefix == Global && h.current == Attempts(s.globals, Key(Global, h.window)) + 1
    requires Tracks(counters, Key(Global, h.window), h.current)
    requires forall key :: key != Key(Global, h.window) ==> At(counters, key) == At(s.counters, key)
    ensures CountersOk(Traffic(counters, s.requests[i := r], s.globals + [h], at))
  {
    ChargedUpdate(s.requests, i, r);
    AttemptsAppend(s.globals, h);
    forall key: Key | key.prefix.Account?
      ensures Charged(s.requests[i := r], key) == Charged(s.requests, key)
    {
      assert Charge(r, key) == Charge(s.requests[i], key);
    }
    CountersStep(cfg, s, Traffic(counters, s.requests[i := r], s.globals + [h], at), Key(Global, h.window));
  }

  lemma {:induction false} GlobalAppend(cfg: Config, globals: seq<Hit>, h: Hit)
    requires GlobalDisciplined(cfg, globals)
    requires GlobalInOrder(globals, h.window)
    requires h.prefix == Global && h.limit == cfg.globalRpm && (h.allowed ==> AllowedByRule(h, cfg.length))
    requires h.current == Attempts(globals + [h], Key(Global, h.window))
    requires h.previous == Attempts(globals + [h], Key(Global, PrevWindow(h.window)))
    ensures GlobalDisciplined(cfg, globals + [h])
  {
    if cfg.globalRpm < U32_MAX {
      assert (globals + [h])[..|globals| + 1] == globals + [h];
      HitDisciplined(globals, h, cfg.length, Global, cfg.globalRpm);
    }
  }

  lemma {:induction false} RollbackStep(cfg: Config, s: Traffic, e: Event)
    requires cfg.length > 0 && Inv(cfg, s) && Sound(cfg, s, e)
    requires e.Rollback? && e.i < |s.requests| && s.requests[e.i].phase == AwaitingRollback
    ensures Inv(cfg, Step(cfg, s, e))
  {
    var t, key := Step(cfg, s, e), Key(s.requests[e.i].hit.prefix, e.clock / cfg.length);
    var r := t.requests[e.i];
    assert RequestOk(s.requests[e.i]);
    ChargedUpdate(s.requests, e.i, r);
    assert Tracks(s.counters, key, Charged(s.requests, key));
    assert Charge(s.requests[e.i], key) == 1 && Charge(r, key) == 0;
    assert key in s.counters && Tracks(t.counters, key, Charged(s.requests, key) - 1);
    CountersStep(cfg, s, t, key);
    PhaseDisciplined(cfg, s.requests, e.i, r);
    MatchedSame(s.requests, s.globals, e.i, r);
  }

  lemma {:induction false} FailStep(cfg: Config, s: Traffic, e: Event)
    requires cfg.length > 0 && Inv(cfg, s) && e.Fail? && e.i < |s.requests|
    requires s.requests[e.i].phase == AwaitingGlobal || s.requests[e.i].phase == AwaitingRollback
    ensures Inv(cfg, Step(cfg, s, e))
  {
    var t := Step(cfg, s, e);
    var r := t.requests[e.i];
    assert RequestOk(s.requests[e.i]);
    ChargedUpdate(s.requests, e.i, r);
    forall key
      ensures Charged(t.requests, key) == Charged(s.requests, key)
    {
      assert Charge(r, key) == Charge(s.requests[e.i], key);
    }
    PhaseDisciplined(cfg, s.requests, e.i, r);
    MatchedSame(s.requests, s.globals, e.i, r);
  }

  lemma {:induction false} StepKeepsInv(cfg: Config, s: Traffic, e: Event)
    requires cfg.length > 0 && Inv(cfg, s) && Sound(cfg, s, e)
    ensures Inv(cfg, Step(cfg, s, e))
  {
    match e
    case Arrive(_, rpm, _, _, _) =>
      if rpm.None? { ArriveUnlimited(cfg, s, e); } else { ArriveLimited(cfg, s, e); }
    case CheckGlobal(i, _, _, _) =>
      if i < |s.requests| && s.requests[i].phase == AwaitingGlobal { CheckGlobalStep(cfg, s, e); }
    case Rollback(i, _, _) =>
      if i < |s.requests| && s.requests[i].phase == AwaitingRollback { RollbackStep(cfg, s, e); }
    case Fail(i) =>
      if i < |s.requests| && (s.requests[i].phase == AwaitingGlobal || s.requests[i].phase == AwaitingRollback) {
        FailStep(cfg, s, e);
      }
  }

  /** The invariant holds after every sound run, whatever the interleaving. */
  lemma {:induction false} RunKeepsInv(cfg: Config, events: seq<Event>)
    requires cfg.length > 0 && SoundRun(cfg, events)
    ensures Inv(cfg, Run(cfg, events))
  {
    if events != [] {
      var n := |events| - 1;
      SoundPrefix(cfg, events);
      RunKeepsInv(cfg, events[..n]);
      StepKeepsInv(cfg, Run(cfg, events[..n]), events[n]);
    }
  }

  lemma {:induction false} SoundPrefix(cfg: Config, events: seq<Event>)
    requires cfg.length > 0 && events != []
    ensures SoundRun(cfg, events) <==> SoundRun(cfg, events[..|events| - 1]) && SoundAt(cfg, events, |events| - 1)
  {
    var n := |events| - 1;
    forall k | 0 <= k < n
      ensures SoundAt(cfg, events[..n], k) <==> SoundAt(cfg, events, k)
    {
      assert events[..n][..k] == events[..k];
    }
  }

  // ---------------------------------------------------------------------------
  // Timely runs are sound
  // ---------------------------------------------------------------------------

  /** No hit lies in a window that has not begun. */
  ghost predicate WindowsOk(cfg: Config, s: Traffic)
    requires cfg.length > 0
  {
    && (forall i :: 0 <= i < |s.requests| ==> s.requests[i].hit.window <= s.now / cfg.length)
    && (forall i :: 0 <= i < |s.globals| ==> s.globals[i].window <= s.now / cfg.length)
  }

  lemma {:induction false} TimelyStepIsSound(cfg: Config, s: Traffic, e: Event)
    requires cfg.length > 0 && WindowsOk(cfg, s) && Lasting(s.counters, cfg.length) && InTime(cfg, s, e)
    ensures Sound(cfg, s, e)
  {
    if !e.Fail? {
      DivMonotone(s.now, e.at, cfg.length);
      var w := e.clock / cfg.length;
      match e {
        case Arrive(account, _, _, _, _) => LastingAlive(s.counters, Account(account), w, cfg.length, e.at);
        case CheckGlobal(_, _, _, _) => LastingAlive(s.counters, Global, w, cfg.length, e.at);
        case Rollback(i, _, _) =>
          if i < |s.requests| {
            LastingAlive(s.counters, s.requests[i].hit.prefix, w, cfg.length, e.at);
          }
      }
    }
  }

  lemma {:induction false} HitsLast(counters: Counters, prefix: Prefix, limit: U32, clock: nat, at: nat, length: nat)
    requires length > 0 && Lasting(counters, length) && clock / length <= at / length
    ensures Lasting(Hits(counters, prefix, limit, clock, at, length).0, length)
  {
    ScriptLasts(counters, prefix, clock / length, length, at);
  }

  lemma {:induction false} ArriveLasts(cfg: Config, s: Traffic, e: Event)
    requires cfg.length > 0 && Lasting(s.counters, cfg.length) && InTime(cfg, s, e) && e.Arrive?
    ensures Lasting(Step(cfg, s, e).counters, cfg.length)
  {
    if e.rpm.Some? {
      HitsLast(s.counters, Account(e.account), e.rpm.value, e.clock, e.at, cfg.length);
    }
  }

  lemma {:induction false} CheckGlobalLasts(cfg: Config, s: Traffic, e: Event)
    requires cfg.length > 0 && Lasting(s.counters, cfg.length) && InTime(cfg, s, e) && e.CheckGlobal?
    ensures Lasting(Step(cfg, s, e).counters, cfg.length)
  {
    HitsLast(s.counters, Global, cfg.globalRpm, e.clock, e.at, cfg.length);
  }

  lemma {:induction false} TimelyStepLasts(cfg: Config, s: Traffic, e: Event)
    requires cfg.length > 0 && Lasting(s.counters, cfg.length) && InTime(cfg, s, e) && Sound(cfg, s, e) && Inv(cfg, s)
    ensures Lasting(Step(cfg, s, e).counters, cfg.length)
  {
    if e.Arrive? {
      ArriveLasts(cfg, s, e);
    } else if e.CheckGlobal? {
      CheckGlobalLasts(cfg, s, e);
    } else if e.Rollback? && e.i < |s.requests| && s.requests[e.i].phase == AwaitingRollback {
      ChargedIsStored(cfg, s, e.i);
      UndoLasts(s.counters, s.requests[e.i].hit.prefix, e.clock / cfg.length, cfg.length, e.at);
    }
  }

  /** The hit of a request awaiting its rollback is on a stored counter. */
  lemma {:induction false} ChargedIsStored(cfg: Config, s: Traffic, i: nat)
    requires cfg.length > 0 && Inv(cfg, s) && i < |s.requests| && s.requests[i].phase == AwaitingRollback
    ensures Key(s.requests[i].hit.prefix, s.requests[i].hit.window) in s.counters
    ensures Charged(s.requests, Key(s.requests[i].hit.prefix, s.requests[i].hit.window)) > 0
  {
    var r := s.requests[i];
    assert RequestOk(r);
    var key := Key(r.hit.prefix, r.hit.window);
    ChargedUpdate(s.requests, i, r.(phase := RolledBack));
    assert Charge(r, key) == 1 && Charge(r.(phase := RolledBack), key) == 0;
    assert Tracks(s.counters, key, Charged(s.requests, key));
  }

  lemma {:induction false} TimelyStepWindows(cfg: Config, s: Traffic, e: Event)
    requires cfg.length > 0 && WindowsOk(cfg, s) && InTime(cfg, s, e)
    ensures WindowsOk(cfg, Step(cfg, s, e))
  {
    var t := Step(cfg, s, e);
    if !e.Fail? {
      DivMonotone(s.now, e.at, cfg.length);
    }
    assert forall i :: 0 <= i < |s.requests| ==> t.requests[i].hit == s.requests[i].hit;
    assert forall i :: 0 <= i < |s.globals| ==> t.globals[i] == s.globals[i];
  }

  /** Scripts that run inside their windows, rollbacks included, make a sound run, and every counter outlasts the
      window after its own. */
  lemma {:induction false} TimelyRunsAreSound(cfg: Config, events: seq<Event>)
    requires cfg.length > 0 && TimelyRun(cfg, events)
    ensures SoundRun(cfg, events)
    ensures WindowsOk(cfg, Run(cfg, events)) && Lasting(Run(cfg, events).counters, cfg.length)
  {
    if events != [] {
      var n := |events| - 1;
      forall k | 0 <= k < n
        ensures InTime(cfg, Run(cfg, events[..n][..k]), events[..n][k])
      {
        assert events[..n][..k] == events[..k];
      }
      TimelyRunsAreSound(cfg, events[..n]);
      RunKeepsInv(cfg, events[..n]);
      var s, e := Run(cfg, events[..n]), events[n];
      assert InTime(cfg, s, e);
      TimelyStepIsSound(cfg, s, e);
      TimelyStepLasts(cfg, s, e);
      TimelyStepWindows(cfg, s, e);
      SoundPrefix(cfg, events);
    }
  }

  // ---------------------------------------------------------------------------
  // What every run guarantees
  // ---------------------------------------------------------------------------

  function InPhase(key: Key, phase: Phase): Request -> bool {
    (r: Request) => r.limited && r.hit.prefix == key.prefix && r.hit.window == key.window && r.phase == phase
  }

  /** Requests that hit `key` and are now in `phase`. */
  function Tally(requests: seq<Request>, key: Key, phase: Phase): nat {
    Count(requests, InPhase(key, phase))
  }

  lemma {:induction false} ChargedIsSum(requests: seq<Request>, key: Key)
    ensures Charged(requests, key)
         == Tally(requests, key, Admitted) + Tally(requests, key, AwaitingGlobal) + Tally(requests, key, AwaitingRollback)
          + Tally(requests, key, AccountRejected) + Tally(requests, key, Failed)
  {
    if requests != [] {
      ChargedIsSum(requests[..|requests| - 1], key);
    }
  }

  lemma {:induction false} HoldingIsSum(requests: seq<Request>, account: nat, w: nat)
    ensures Count(AccountPasses(requests, account), InWindow(w))
         == Tally(requests, Key(Account(account), w), Admitted)
          + Tally(requests, Key(Account(account), w), AwaitingGlobal)
          + Tally(requests, Key(Account(account), w), AwaitingRollback)
  {
    if requests != [] {
      var n := |requests| - 1;
      HoldingIsSum(requests[..n], account, w);
      assert AccountPasses(requests, account)[..n] == AccountPasses(requests[..n], account);
    }
  }

  /** Until it expires, an account's counter is exactly the requests of its window admitted, still waiting, refused by
      the account check, or lost to a Redis failure. */
  lemma {:induction false} AccountCounterIsExact(cfg: Config, events: seq<Event>, account: nat, w: nat, at: nat)
    requires cfg.length > 0 && SoundRun(cfg, events) && Unexpired(Run(cfg, events).counters, Key(Account(account), w), at)
    ensures var (s, key) := (Run(cfg, events), Key(Account(account), w));
      Read(s.counters, key, at)
        == Tally(s.requests, key, Admitted) + Tally(s.requests, key, AwaitingGlobal) + Tally(s.requests, key, AwaitingRollback)
         + Tally(s.requests, key, AccountRejected) + Tally(s.requests, key, Failed)
  {
    RunKeepsInv(cfg, events);
    var s, key := Run(cfg, events), Key(Account(account), w);
    ChargedIsSum(s.requests, key);
    assert Tracks(s.counters, key, Charged(s.requests, key));
  }

  /** In a timely run no counter expires before the window after its own has ended. */
  lemma {:induction false} TimelyCountersLast(cfg: Config, events: seq<Event>, key: Key, at: nat)
    requires cfg.length > 0 && TimelyRun(cfg, events) && at / cfg.length <= key.window + 1
    ensures Unexpired(Run(cfg, events).counters, key, at)
  {
    TimelyRunsAreSound(cfg, events);
    LastingAlive(Run(cfg, events).counters, key.prefix, key.window, cfg.length, at);
  }

  /** Every policy limit the account has had during the run is at most `limit`. */
  ghost predicate RpmAtMost(events: seq<Event>, account: nat, limit: U32) {
    forall k :: 0 <= k < |events| && events[k].Arrive? && events[k].account == account && events[k].rpm.Some? ==>
      events[k].rpm.value <= limit
  }

  lemma {:induction false} StepLimited(cfg: Config, s: Traffic, e: Event, account: nat, limit: U32)
    requires cfg.length > 0 && LimitedTo(s.requests, account, limit)
    requires e.Arrive? && e.account == account && e.rpm.Some? ==> e.rpm.value <= limit
    ensures LimitedTo(Step(cfg, s, e).requests, account, limit)
  {
    var t := Step(cfg, s, e);
    forall i | 0 <= i < |t.requests| && t.requests[i].limited && t.requests[i].hit.prefix == Account(account)
      ensures t.requests[i].hit.limit <= limit
    {
      assert i < |s.requests| ==> t.requests[i].hit == s.requests[i].hit && t.requests[i].limited == s.requests[i].limited;
    }
  }

  lemma {:induction false} RunLimited(cfg: Config, events: seq<Event>, account: nat, limit: U32)
    requires cfg.length > 0 && RpmAtMost(events, account, limit)
    ensures LimitedTo(Run(cfg, events).requests, account, limit)
  {
    if events != [] {
      var n := |events| - 1;
      RunLimited(cfg, events[..n], account, limit);
      StepLimited(cfg, Run(cfg, events[..n]), events[n], account, limit);
    }
  }

  /** However an account's policy changes, its limited requests admitted or still in play never exceed the largest rpm
      it has had in a fixed window, nor reach twice that in any `length` consecutive seconds, rollbacks notwithstanding. */
  lemma {:induction false} AccountAdmissionsBounded(cfg: Config, events: seq<Event>, account: nat, limit: U32, w: nat, from: nat)
    requires cfg.length > 0 && SoundRun(cfg, events)
    requires RpmAtMost(events, account, limit) && limit < U32_MAX
    ensures var (s, key) := (Run(cfg, events), Key(Account(account), w));
      && Tally(s.requests, key, Admitted) + Tally(s.requests, key, AwaitingGlobal) + Tally(s.requests, key, AwaitingRollback) <= limit
      && (limit > 0 ==> Count(AccountPasses(s.requests, account), InSpan(from, cfg.length)) < 2 * limit)
  {
    RunKeepsInv(cfg, events);
    RunLimited(cfg, events, account, limit);
    var ps := AccountPasses(Run(cfg, events).requests, account);
    assert Disciplined(ps, cfg.length, limit);
    HoldingIsSum(Run(cfg, events).requests, account, w);
    DisciplinedCounted(ps, cfg.length, limit);
    WindowBound(ps, cfg.length, limit, w);
    if limit > 0 {
      SpanBelowTwice(ps, cfg.length, limit, from);
    }
  }

  /** The global counter of a window counts exactly the requests that got past the account check and reached
      Redis in that window: a request refused by its account never spends global quota. */
  lemma {:induction false} GlobalCounterIsExact(cfg: Config, events: seq<Event>, w: nat, at: nat)
    requires cfg.length > 0 && SoundRun(cfg, events) && Unexpired(Run(cfg, events).counters, Key(Global, w), at)
    ensures var s := Run(cfg, events);
      && Read(s.counters, Key(Global, w), at) == Count(s.requests, Through(Under(Key(Global, w))))
      && forall i :: 0 <= i < |s.requests| && s.requests[i].phase.AccountRejected? ==> s.requests[i].global.None?
  {
    RunKeepsInv(cfg, events);
    var s := Run(cfg, events);
    assert Tracks(s.counters, Key(Global, w), Attempts(s.globals, Key(Global, w)));
    forall i | 0 <= i < |s.requests|
      ensures RequestOk(s.requests[i])
    {
    }
  }

  /** Finally admitted by a global check in the window or span that `p` describes. */
  function AdmittedBy(p: Pass -> bool): Request -> bool {
    (r: Request) => r.phase.Admitted? && r.global.Some? && p(ToPass(r.global.value, Global))
  }

  /** Requests finally admitted, of all accounts together, are bounded like the global passes `p` picks. */
  lemma {:induction false} AdmittedAtMost(cfg: Config, s: Traffic, p: Pass -> bool)
    requires cfg.length > 0 && Inv(cfg, s)
    ensures Count(s.requests, AdmittedBy(p)) <= Count(Passes(s.globals, Global), p)
  {
    var q := (h: Hit) => p(ToPass(h, Global));
    CountPointwise(s.requests, AdmittedBy(p), s.requests, Through(q));
    assert Count(s.globals, q) == Count(s.requests, Through(q));
    CountPointwise(s.globals, q, Passes(s.globals, Global), p);
  }

  /** Over all accounts, the requests finally admitted in one fixed window never exceed the global limit, and those
      admitted in any `length` consecutive seconds are fewer than twice it. */
  lemma {:induction false} GlobalAdmissionsBounded(cfg: Config, events: seq<Event>, w: nat, from: nat)
    requires cfg.length > 0 && SoundRun(cfg, events) && cfg.globalRpm < U32_MAX
    ensures var s := Run(cfg, events);
      && Count(s.requests, AdmittedBy(InWindow(w))) <= cfg.globalRpm
      && (cfg.globalRpm > 0 ==> Count(s.requests, AdmittedBy(InSpan(from, cfg.length))) < 2 * cfg.globalRpm)
  {
    RunKeepsInv(cfg, events);
    var s := Run(cfg, events);
    var ps := Passes(s.globals, Global);
    AdmittedAtMost(cfg, s, InWindow(w));
    DisciplinedCounted(ps, cfg.length, cfg.globalRpm);
    WindowBound(ps, cfg.length, cfg.globalRpm, w);
    if cfg.globalRpm > 0 {
      AdmittedAtMost(cfg, s, InSpan(from, cfg.length));
      SpanBelowTwice(ps, cfg.length, cfg.globalRpm, from);
    }
  }

  /** And every request finally admitted was admitted by a global check: none is missed by the bounds above. */
  lemma {:induction false} AdmittedPassedGlobal(cfg: Config, events: seq<Event>, i: nat)
    requires cfg.length > 0 && SoundRun(cfg, events)
    requires i < |Run(cfg, events).requests| && Run(cfg, events).requests[i].phase.Admitted?
    ensures var r := Run(cfg, events).requests[i];
      r.global.Some? && r.global.value.prefix == Global && AdmittedBy(InWindow(r.global.value.window))(r)
  {
    RunKeepsInv(cfg, events);
    var r := Run(cfg, events).requests[i];
    assert RequestOk(r);
    assert InWindow(r.global.value.window)(ToPass(r.global.value, Global));
  }

  /** An expired counter misleads a script exactly when it stood for something. */
  ghost predicate ReadsWell(s: Traffic, key: Key, at: nat) {
    Unexpired(s.counters, key, at) || Charged(s.requests, key) == 0
  }

  /** The account check reads the charges of its window and of the one before if and only if neither counter has expired
      while standing for a request; and it keeps the counters exact if and only if that is so of its own. */
  lemma {:induction false} ArriveExactIff(cfg: Config, s: Traffic, account: nat, limit: U32, clock: nat, at: nat, answered: bool)
    requires cfg.length > 0 && Inv(cfg, s)
    ensures var (t, w) := (Step(cfg, s, Arrive(account, Some(limit), clock, at, answered)), clock / cfg.length);
      var hit, here, before := t.requests[|s.requests|].hit, Key(Account(account), w), Key(Account(account), PrevWindow(w));
      && (hit.current == Charged(s.requests, here) + 1 <==> ReadsWell(s, here, at))
      && (w > 0 ==> (hit.previous == Charged(s.requests, before) <==> ReadsWell(s, before, at)))
      && (CountersOk(t) <==> ReadsWell(s, here, at))
  {
    var t, w := Step(cfg, s, Arrive(account, Some(limit), clock, at, answered)), clock / cfg.length;
    var here, before := Key(Account(account), w), Key(Account(account), PrevWindow(w));
    assert Tracks(s.counters, here, Charged(s.requests, here)) && Tracks(s.counters, before, Charged(s.requests, before));
    var r := t.requests[|s.requests|];
    if ReadsWell(s, here, at) {
      AccountHitCounters(cfg, s, r, t.counters, at);
    } else {
      ChargedAppend(s.requests, r);
      assert Charge(r, here) == 1;
      assert !Tracks(t.counters, here, Charged(t.requests, here));
    }
  }

  /** The rollback recomputes its window from the clock. It keeps the counters exact if and only if that is still the
      window of the hit being undone and that counter has not expired. */
  lemma {:induction false} RollbackExactIff(cfg: Config, s: Traffic, i: nat, clock: nat, at: nat)
    requires cfg.length > 0 && Inv(cfg, s) && i < |s.requests| && s.requests[i].phase == AwaitingRollback
    ensures CountersOk(Step(cfg, s, Rollback(i, clock, at))) <==> Undoes(cfg, s, s.requests[i], clock, at)
  {
    var e := Rollback(i, clock, at);
    var t, r := Step(cfg, s, e), s.requests[i];
    if Undoes(cfg, s, r, clock, at) {
      RollbackStep(cfg, s, e);
    } else {
      var key := Key(r.hit.prefix, r.hit.window);
      assert RequestOk(r);
      ChargedIsStored(cfg, s, i);
      ChargedUpdate(s.requests, i, t.requests[i]);
      assert Charge(r, key) == 1 && Charge(t.requests[i], key) == 0;
      assert Tracks(s.counters, key, Charged(s.requests, key));
      assert !Tracks(t.counters, key, Charged(t.requests, key));
    }
  }

  lemma {:induction false} OwnHitExample()
    ensures Hits(map[], Account(0), 5, 59, 59, 60)
         == (map[Key(Account(0), 0) := Entry(1, Some(179))], Hit(Account(0), 5, 0, 59, 1, 1, true))
  {
    assert 59 / 60 == 0 && 59 % 60 == 59;
    assert Fits(1, 1, 59, 60, 5);
  }

  lemma {:induction false} GlobalHitExample(counters: Counters)
    requires Key(Global, 0) !in counters
    ensures Hits(counters, Global, 0, 59, 59, 60)
         == (counters[Key(Global, 0) := Entry(1, Some(179))], Hit(Global, 0, 0, 59, 1, 1, false))
  {
    assert 59 / 60 == 0 && 59 % 60 == 59;
    assert !Fits(1, 1, 59, 60, 0);
  }

  /** The state of a request refused by a global limit of 0 at the last second of window 0. */
  function AwaitingExample(): Traffic {
    var own, global := Hit(Account(0), 5, 0, 59, 1, 1, true), Hit(Global, 0, 0, 59, 1, 1, false);
    Traffic(map[Key(Account(0), 0) := Entry(1, Some(179)), Key(Global, 0) := Entry(1, Some(179))],
            [Request(own, true, Some(global), AwaitingRollback)], [global], 59)
  }

  lemma {:induction false} AwaitingReached()
    ensures Run(Config(60, 0), [Arrive(0, Some(5), 59, 59, true), CheckGlobal(0, 59, 59, true)]) == AwaitingExample()
  {
    var cfg, events := Config(60, 0), [Arrive(0, Some(5), 59, 59, true), CheckGlobal(0, 59, 59, true)];
    assert events[..1] == [events[0]] && events[..1][..0] == [];
    OwnHitExample();
    var own := map[Key(Account(0), 0) := Entry(1, Some(179))];
    var one := Run(cfg, events[..1]);
    assert Run(cfg, []) == Start();
    assert one == Step(cfg, Run(cfg, events[..1][..0]), events[..1][0]);
    assert one == Traffic(own, [Request(Hit(Account(0), 5, 0, 59, 1, 1, true), true, None, AwaitingGlobal)], [], 59);
    GlobalHitExample(own);
    assert Run(cfg, events) == Step(cfg, one, events[1]);
  }

  /** Arrival and refusal in the last second of window 0, rollback in the first of window 1. */
  function LateEvents(): seq<Event> {
    [Arrive(0, Some(5), 59, 59, true), CheckGlobal(0, 59, 59, true), Rollback(0, 60, 60)]
  }

  lemma {:induction false} LateRollbackState()
    ensures var s := Run(Config(60, 0), LateEvents());
      && At(s.counters, Key(Account(0), 0)) == Some(Entry(1, Some(179)))
      && At(s.counters, Key(Account(0), 1)) == Some(Entry(-1, None))
      && |s.requests| == 1 && s.requests[0].phase == RolledBack
  {
    var cfg, events := Config(60, 0), LateEvents();
    assert events[..2] == [Arrive(0, Some(5), 59, 59, true), CheckGlobal(0, 59, 59, true)];
    AwaitingReached();
    assert Run(cfg, events) == Step(cfg, Run(cfg, events[..2]), Rollback(0, 60, 60));
    UndoneLate(AwaitingExample());
  }

  lemma {:induction false} UndoneLate(s: Traffic)
    requires s == AwaitingExample()
    ensures var t := Step(Config(60, 0), s, Rollback(0, 60, 60));
      && t.counters == s.counters[Key(Account(0), 1) := Entry(-1, None)]
      && |t.requests| == 1 && t.requests[0].phase == RolledBack
  {
    assert 60 / 60 == 1;
  }

  /** A late rollback, reachable with a global limit of 0: the hit of window 0 is never given back, and window 1 starts
      at -1, although no request is charged to either. */
  lemma {:induction false} LateRollbackMiscounts()
    ensures var s := Run(Config(60, 0), LateEvents());
      && Read(s.counters, Key(Account(0), 0), 60) == 1 && Charged(s.requests, Key(Account(0), 0)) == 0
      && Read(s.counters, Key(Account(0), 1), 60) == -1 && Charged(s.requests, Key(Account(0), 1)) == 0
  {
    LateRollbackState();
    var s := Run(Config(60, 0), LateEvents());
    NothingCharged(s.requests, Key(Account(0), 0));
    NothingCharged(s.requests, Key(Account(0), 1));
  }

  lemma {:induction false} NothingCharged(requests: seq<Request>, key: Key)
    requires forall r :: r in requests ==> !OnCounter(r.phase)
    ensures Charged(requests, key) == 0
  {
    CountEmpty(requests, ChargedIn(key));
  }

  // ---------------------------------------------------------------------------
  // What a late rollback leaves behind
  // ---------------------------------------------------------------------------

  function RunFrom(cfg: Config, s: Traffic, events: seq<Event>): Traffic
    requires cfg.length > 0
  {
    if events == [] then s else Step(cfg, RunFrom(cfg, s, events[..|events| - 1]), events[|events| - 1])
  }

  /** The counter of `key` is below zero and has no expiry: no TTL will ever remove it. */
  predicate Stuck(s: Traffic, key: Key) {
    key in s.counters && s.counters[key].value < 0 && s.counters[key].expiresAt.None?
  }

  /** `e` neither checks the account in window `w` nor rolls back one of its hits there. */
  predicate Avoids(cfg: Config, s: Traffic, e: Event, account: nat, w: nat)
    requires cfg.length > 0
  {
    match e
    case Arrive(a, _, clock, _, _) => a != account || clock / cfg.length != w
    case Rollback(i, clock, _) => i < |s.requests| && s.requests[i].hit.prefix == Account(account) ==> clock / cfg.length != w
    case _ => true
  }

  lemma {:induction false} StepStaysStuck(cfg: Config, s: Traffic, e: Event, account: nat, w: nat)
    requires cfg.length > 0 && Stuck(s, Key(Account(account), w)) && Avoids(cfg, s, e, account, w)
    ensures Stuck(Step(cfg, s, e), Key(Account(account), w))
  {
  }

  lemma {:induction false} StaysStuck(cfg: Config, s: Traffic, events: seq<Event>, account: nat, w: nat)
    requires cfg.length > 0 && Stuck(s, Key(Account(account), w))
    requires forall k :: 0 <= k < |events| ==> Avoids(cfg, RunFrom(cfg, s, events[..k]), events[k], account, w)
    ensures Stuck(RunFrom(cfg, s, events), Key(Account(account), w))
  {
    if events != [] {
      var n := |events| - 1;
      forall k | 0 <= k < n
        ensures Avoids(cfg, RunFrom(cfg, s, events[..n][..k]), events[..n][k], account, w)
      {
        assert events[..n][..k] == events[..k];
      }
      StaysStuck(cfg, s, events[..n], account, w);
      StepStaysStuck(cfg, RunFrom(cfg, s, events[..n]), events[n], account, w);
    }
  }

  /** A counter left below zero makes the limiter unavailable to the account for the whole of the next window: unless
      window `w` is hit meanwhile, no check in window w + 1 is decided, at any time and under any limit. */
  lemma {:induction false} StuckCounterRefusesAll(cfg: Config, s: Traffic, events: seq<Event>, account: nat, w: nat,
                                                  limit: U32, clock: nat, at: nat, answered: bool)
    requires cfg.length > 0 && Stuck(s, Key(Account(account), w)) && clock / cfg.length == w + 1
    requires forall k :: 0 <= k < |events| ==> Avoids(cfg, RunFrom(cfg, s, events[..k]), events[k], account, w)
    ensures var m := RunFrom(cfg, s, events);
      && Step(cfg, m, Arrive(account, Some(limit), clock, at, answered)).requests[|m.requests|].phase == Failed
      && Checked(m.counters, Account(account), limit, Instant(clock, at, true), cfg.length).1 == Err(RedisError)
  {
    StaysStuck(cfg, s, events, account, w);
  }

  /** The late rollback above leaves such a counter. */
  lemma {:induction false} LateRollbackSticks()
    ensures Stuck(Run(Config(60, 0), LateEvents()), Key(Account(0), 1))
  {
    LateRollbackState();
  }

  // ---------------------------------------------------------------------------
  // One uninterrupted evaluation
  // ---------------------------------------------------------------------------

  datatype Outcome = Outcome(limit: U32, remaining: U32, resetAt: nat)

  datatype RateError = Unavailable | AccountExceeded(retryAfter: nat) | GlobalExceeded(retryAfter: nat)

  function MostRestrictive(current: Outcome, check: WindowCheckResult): (r: Outcome)
    ensures r.remaining <= current.remaining && r.remaining <= check.remaining
    ensures r == current || r == ToOutcome(check)
  {
    if check.remaining < current.remaining then ToOutcome(check) else current
  }

  function ToOutcome(check: WindowCheckResult): Outcome {
    Outcome(check.limit, check.remaining, check.resetAt)
  }

  function RetryAfter(resetAt: nat, now: nat): nat {
    if now <= resetAt then resetAt - now else 0
  }

  /** The account check, when the account has a limit. */
  function OwnCheck(counters: Counters, account: nat, rpm: Option<U32>, t: Instant, length: nat)
    : (Counters, Option<Result<WindowCheckResult, StorageError>>)
    requires length > 0
  {
    if rpm.None? then (counters, None)
    else
      var (after, r) := Checked(counters, Account(account), rpm.value, t, length);
      (after, Some(r))
  }

  predicate Passed(own: Option<Result<WindowCheckResult, StorageError>>) {
    own.Some? ==> own.value.Ok? && own.value.value.allowed
  }

  /** The check with less remaining; the global one on a tie. */
  function Tightest(own: Option<Result<WindowCheckResult, StorageError>>, global: WindowCheckResult): Outcome {
    if own.Some? && own.value.Ok? && own.value.value.remaining < global.remaining then ToOutcome(own.value.value)
    else ToOutcome(global)
  }

  predicate Refused(check: Result<WindowCheckResult, StorageError>) {
    check.Ok? && !check.value.allowed
  }

  /** One request by itself: account check, global check and, if due, rollback. */
  function InARow(cfg: Config, s: Traffic, account: nat, rpm: Option<U32>, first: Instant, second: Instant, third: Instant): Traffic
    requires cfg.length > 0
  {
    var i := |s.requests|;
    var one := Step(cfg, s, Arrive(account, rpm, first.clock, first.at, true));
    var two := Step(cfg, one, CheckGlobal(i, second.clock, second.at, true));
    Step(cfg, two, Rollback(i, third.clock, third.at))
  }

  /** The result that goes with the phase a request ends in. */
  predicate Ended(r: Result<Outcome, RateError>, phase: Phase) {
    && (r.Ok? <==> phase.Admitted?)
    && (r.Err? && r.error.AccountExceeded? <==> phase.AccountRejected?)
    && (r.Err? && r.error.GlobalExceeded? <==> phase.RolledBack? || phase.GlobalRejected?)
    && (r == Err(Unavailable) <==> phase.Failed?)
  }

  lemma {:induction false} ArriveIsOwnCheck(cfg: Config, s: Traffic, account: nat, rpm: Option<U32>, t: Instant)
    requires cfg.length > 0 && t.reachable
    ensures var (after, own) := OwnCheck(s.counters, account, rpm, t, cfg.length);
      var u := Step(cfg, s, Arrive(account, rpm, t.clock, t.at, true));
      && u.counters == after && |u.requests| == |s.requests| + 1
      && u.requests[|s.requests|].limited == rpm.Some? && u.requests[|s.requests|].hit.prefix == Account(account)
      && u.requests[|s.requests|].phase == (if Passed(own) then AwaitingGlobal else if Refused(own.value) then AccountRejected else Failed)
  {
  }

  lemma {:induction false} CheckGlobalIsChecked(cfg: Config, s: Traffic, i: nat, t: Instant)
    requires cfg.length > 0 && t.reachable && i < |s.requests| && s.requests[i].phase == AwaitingGlobal
    ensures var (after, global) := Checked(s.counters, Global, cfg.globalRpm, t, cfg.length);
      var (u, r) := (Step(cfg, s, CheckGlobal(i, t.clock, t.at, true)), s.requests[i]);
      && u.counters == after && |u.requests| == |s.requests|
      && u.requests[i].hit == r.hit && u.requests[i].limited == r.limited
      && u.requests[i].phase == (if global.Err? then Failed else if global.value.allowed then Admitted
                                 else if r.limited then AwaitingRollback else GlobalRejected)
  {
  }

  lemma {:induction false} LaterStepsIdle(cfg: Config, s: Traffic, i: nat, second: Instant, third: Instant)
    requires cfg.length > 0 && i < |s.requests|
    ensures s.requests[i].phase != AwaitingGlobal ==> Step(cfg, s, CheckGlobal(i, second.clock, second.at, true)) == s
    ensures s.requests[i].phase != AwaitingRollback ==> Step(cfg, s, Rollback(i, third.clock, third.at)) == s
    ensures s.requests[i].phase == AwaitingRollback ==>
      var t := Step(cfg, s, Rollback(i, third.clock, third.at));
      && t.counters == Undo(s.counters, s.requests[i].hit.prefix, third.clock / cfg.length, third.at)
      && t.requests == s.requests[i := s.requests[i].(phase := RolledBack)]
  {
  }

  /** What is returned, from the two checks. */
  function Verdict(own: Option<Result<WindowCheckResult, StorageError>>, global: Result<WindowCheckResult, StorageError>, now: nat)
    : Result<Outcome, RateError>
  {
    if own.Some? && own.value.Err? then Err(Unavailable)
    else if own.Some? && !own.value.value.allowed then Err(AccountExceeded(RetryAfter(own.value.value.resetAt, now)))
    else if global.Err? then Err(Unavailable)
    else if global.value.allowed then Ok(Tightest(own, global.value))
    else Err(GlobalExceeded(RetryAfter(global.value.resetAt, now)))
  }

  /** When each answer is given, and what it says: a refusal names the level that refused and the seconds left until that
      level's window ends, none if it has ended; success reports the lesser remaining of the two levels. */
  lemma {:induction false} VerdictCases(own: Option<Result<WindowCheckResult, StorageError>>, global: Result<WindowCheckResult, StorageError>, now: nat)
    ensures var r := Verdict(own, global, now);
      && (r.Ok? <==> Passed(own) && global.Ok? && global.value.allowed)
      && (r.Err? && r.error.AccountExceeded? <==> own.Some? && Refused(own.value))
      && (r.Err? && r.error.GlobalExceeded? <==> Passed(own) && Refused(global))
      && (r == Err(Unavailable) <==> (own.Some? && own.value.Err?) || (Passed(own) && global.Err?))
      && (r.Err? && r.error.AccountExceeded? && now <= own.value.value.resetAt ==> now + r.error.retryAfter == own.value.value.resetAt)
      && (r.Err? && r.error.GlobalExceeded? && now <= global.value.resetAt ==> now + r.error.retryAfter == global.value.resetAt)
      && (r.Err? && r.error.AccountExceeded? && now > own.value.value.resetAt ==> r.error.retryAfter == 0)
      && (r.Err? && r.error.GlobalExceeded? && now > global.value.resetAt ==> r.error.retryAfter == 0)
      && (r.Ok? ==> r.value.remaining <= global.value.remaining && (own.Some? ==> r.value.remaining <= own.value.value.remaining))
  {
  }

  /** What an evaluation returns and leaves, from its two checks and the rollback. */
  ghost predicate Evaluation(before: Counters, left: Counters, globalRpm: U32, length: nat, account: nat, rpm: Option<U32>,
                             first: Instant, second: Instant, third: Instant, now: nat, r: Result<Outcome, RateError>)
    requires length > 0
  {
    var (middle, own) := OwnCheck(before, account, rpm, first, length);
    var (after, global) := Checked(middle, Global, globalRpm, second, length);
    Concluded(middle, own, after, global, left, account, rpm, third, now, length, r)
  }

  ghost predicate Concluded(middle: Counters, own: Option<Result<WindowCheckResult, StorageError>>, after: Counters,
                            global: Result<WindowCheckResult, StorageError>, left: Counters, account: nat, rpm: Option<U32>,
                            third: Instant, now: nat, length: nat, r: Result<Outcome, RateError>)
    requires length > 0
  {
    && r == Verdict(own, global, now)
    && left == if !Passed(own) then middle
               else if Refused(global) && rpm.Some? then GivenBack(after, account, third, length)
               else after
  }

  /** The rollback, if Redis can be reached for it. */
  function GivenBack(counters: Counters, account: nat, t: Instant, length: nat): Counters
    requires length > 0
  {
    if t.reachable then Undo(counters, Account(account), t.clock / length, t.at) else counters
  }

  /** With Redis in reach, an evaluation by itself is three steps of the protocol in a row, and its result goes with the
      phase the request ends in: so what is proved of every run is about the evaluator. */
  lemma {:induction false} EvaluationIsInARow(cfg: Config, s: Traffic, account: nat, rpm: Option<U32>, first: Instant, second: Instant,
                                              third: Instant, now: nat, left: Counters, r: Result<Outcome, RateError>)
    requires cfg.length > 0 && first.reachable && second.reachable && third.reachable
    requires Evaluation(s.counters, left, cfg.globalRpm, cfg.length, account, rpm, first, second, third, now, r)
    ensures var t := InARow(cfg, s, account, rpm, first, second, third);
      |t.requests| == |s.requests| + 1 && left == t.counters && Ended(r, t.requests[|s.requests|].phase)
  {
    var i := |s.requests|;
    var one := Step(cfg, s, Arrive(account, rpm, first.clock, first.at, true));
    ArriveIsOwnCheck(cfg, s, account, rpm, first);
    LaterStepsIdle(cfg, one, i, second, third);
    if one.requests[i].phase == AwaitingGlobal {
      CheckGlobalIsChecked(cfg, one, i, second);
      LaterStepsIdle(cfg, Step(cfg, one, CheckGlobal(i, second.clock, second.at, true)), i, second, third);
    }
  }

  /** A check whose reply is lost, and a request given up, fail; the hit of the check stays on its counter. */
  lemma {:induction false} LostReplyFails(cfg: Config, s: Traffic, account: nat, limit: U32, i: nat, clock: nat, at: nat)
    requires cfg.length > 0
    ensures var t := Step(cfg, s, Arrive(account, Some(limit), clock, at, false));
      && t.requests[|s.requests|].phase == Failed
      && t.counters == Script(s.counters, Account(account), clock / cfg.length, cfg.length, at).0
    ensures i < |s.requests| && s.requests[i].phase == AwaitingGlobal ==>
      var t := Step(cfg, s, CheckGlobal(i, clock, at, false));
      t.requests[i].phase == Failed && t.counters == Script(s.counters, Global, clock / cfg.length, cfg.length, at).0
    ensures i < |s.requests| && (s.requests[i].phase == AwaitingGlobal || s.requests[i].phase == AwaitingRollback) ==>
      var t := Step(cfg, s, Fail(i)); t.requests[i].phase == Failed && t.counters == s.counters
  {
  }

  /** The retry hint, given in the window of the check, is the time to the first instant of the next. */
  lemma {:induction false} RetryAfterIsNextWindow(check: WindowCheckResult, clock: nat, now: nat, length: nat)
    requires length > 0 && clock < check.resetAt && check.resetAt / length == clock / length + 1
    requires forall t :: clock <= t < check.resetAt ==> t / length == clock / length
    requires clock <= now && now / length == clock / length
    ensures var wait := RetryAfter(check.resetAt, now);
      && 0 < wait && (now + wait) / length == clock / length + 1
      && forall t :: now <= t < now + wait ==> t / length == clock / length
  {
    if now >= check.resetAt {
      DivMonotone(check.resetAt, now, length);
    }
  }

  /** The reported level is one of the two, with the lesser remaining, and the global one on a tie. */
  lemma {:induction false} TightestIsLeast(own: WindowCheckResult, global: WindowCheckResult)
    ensures var t := Tightest(Some(Ok(own)), global);
      && t.remaining == (if own.remaining < global.remaining then own.remaining else global.remaining)
      && (t == Outcome(global.limit, global.remaining, global.resetAt) || t == Outcome(own.limit, own.remaining, own.resetAt))
      && (own.remaining == global.remaining ==> t == Outcome(global.limit, global.remaining, global.resetAt))
    ensures Tightest(None, global) == Outcome(global.limit, global.remaining, global.resetAt)
  {
  }

  /** When the rollback lands in the window of the hit, every account counter reads as before. */
  ghost predicate Undone(before: Counters, after: Counters, account: nat, first: Instant, third: Instant, length: nat)
    requires length > 0
  {
    var here := Key(Account(account), first.clock / length);
    third.reachable && third.clock / length == here.window && first.at <= third.at < first.at + 2 * length ==>
      && Read(after, here, third.at) == Read(before, here, first.at)
      && forall key: Key :: key.prefix.Account? && key != here ==> At(after, key) == At(before, key)
  }

  class RateLimitEvaluator {
    const limiter: SlidingWindowLimiter
    const globalRpm: U32

    constructor (limiter: SlidingWindowLimiter, globalRpm: U32)
      ensures this.limiter == limiter && this.globalRpm == globalRpm
    {
      this.limiter := limiter;
      this.globalRpm := globalRpm;
    }

    /** `first`, `second` and `third` are the instants of the account check, the global check and the
        rollback; `now` is the clock used for the retry hint. */
    method Evaluate(account: nat, rpm: Option<U32>, first: Instant, second: Instant, third: Instant, now: nat)
      returns (r: Result<Outcome, RateError>)
      requires limiter.length > 0
      modifies limiter
      // A refusal by the account leaves every global counter alone.
      ensures r.Err? && r.error.AccountExceeded? ==>
        forall key: Key :: key.prefix.Global? ==> At(limiter.counters, key) == At(old(limiter.counters), key)
      // A global refusal undoes the account's hit.
      ensures r.Err? && r.error.GlobalExceeded? && rpm.Some? ==>
        Undone(old(limiter.counters), limiter.counters, account, first, third, limiter.length)
      // Which outcome it is, and the counters it leaves.
      ensures Evaluation(old(limiter.counters), limiter.counters, globalRpm, limiter.length, account, rpm, first, second, third, now, r)
    {
      var outcome: Outcome;
      var accountResult: Option<WindowCheckResult> := None;
      if rpm.Some? {
        var checked := limiter.CheckAndIncrement(Account(account), rpm.value, first);
        if checked.Err? {
          return Err(Unavailable);
        }
        if !checked.value.allowed {
          return Err(AccountExceeded(RetryAfter(checked.value.resetAt, now)));
        }
        accountResult := Some(checked.value);
      }
      var global := limiter.CheckAndIncrement(Global, globalRpm, second);
      if global.Err? {
        return Err(Unavailable);
      }
      if !global.value.allowed {
        if rpm.Some? {
          limiter.Rollback(Account(account), third);
        }
        return Err(GlobalExceeded(RetryAfter(global.value.resetAt, now)));
      }
      outcome := ToOutcome(global.value);
      if accountResult.Some? {
        outcome := MostRestrictive(outcome, accountResult.value);
      }
      r := Ok(outcome);
    }
  }
}

/** Per-account concurrency limiting: one Redis counter, raised by an atomic script that also resets
    a safety-net TTL, and lowered at most once by each permit.

    A permit may be released, dropped without release, cancelled between setting its flag and sending
    the decrement, lose its decrement to a failure, or die with its process. Each event below is one
    atomic action; any interleaving of any number of permits is a run. */
module Concurrency {
  import opened Wrappers
  import opened Counting
  import opened Redis

  const KEY_TTL: nat := 120

  // ---------------------------------------------------------------------------
  // The acquire script and the permit objects
  // ---------------------------------------------------------------------------

  /** The key after the script, and whether a slot was granted. */
  function AcquireScript(cell: Cell<int>, limit: nat, at: nat): (Entry<int>, bool) {
    var count := match Get(cell, at) case Some(n) => n case None => 0;
    if count + 1 > limit then (Entry(count, Some(at + KEY_TTL)), false)
    else (Entry(count + 1, Some(at + KEY_TTL)), true)
  }

  datatype AcquireError = Unavailable | LimitExceeded(limit: nat)

  class ConcurrencyLimiter {
    var keys: Store<nat, int>

    constructor ()
      ensures keys == map[]
    {
      keys := map[];
    }

    method Acquire(account: nat, limit: nat, at: nat, reachable: bool) returns (r: Result<ConcurrencyPermit, AcquireError>)
      modifies this
      ensures var (entry, granted) := AcquireScript(At(old(keys), account), limit, at);
        && (reachable ==> keys == old(keys)[account := entry] && (r.Ok? <==> granted))
        && (reachable && r.Err? ==> r.error == LimitExceeded(limit))
      ensures !reachable ==> keys == old(keys) && r == Err(Unavailable)
      ensures r.Ok? ==> fresh(r.value) && !r.value.released && r.value.limiter == this && r.value.account == account
    {
      if !reachable {
        return Err(Unavailable);
      }
      var entry := IncrBy(At(keys, account), 1, at);
      entry := Expire(entry, KEY_TTL, at);
      keys := keys[account := entry];
      if entry.value > limit {
        keys := keys[account := IncrBy(At(keys, account), -1, at)];
        return Err(LimitExceeded(limit));
      }
      var permit := new ConcurrencyPermit(this, account);
      r := Ok(permit);
    }
  }

  class ConcurrencyPermit {
    const limiter: ConcurrencyLimiter
    const account: nat
    var released: bool

    constructor (limiter: ConcurrencyLimiter, account: nat)
      ensures this.limiter == limiter && this.account == account && !released
    {
      this.limiter := limiter;
      this.account := account;
      released := false;
    }

    /** Whichever of `Release` and `Drop` comes first decrements, if Redis can be reached; every later call
        leaves Redis alone. */
    method Release(at: nat, reachable: bool)
      modifies this, limiter
      ensures released
      ensures limiter.keys == if old(released) || !reachable then old(limiter.keys)
                              else old(limiter.keys)[account := IncrBy(At(old(limiter.keys), account), -1, at)]
    {
      var was := released;
      released := true;
      if was {
        return;
      }
      if reachable {
        limiter.keys := limiter.keys[account := IncrBy(At(limiter.keys, account), -1, at)];
      }
    }

    /** `runtime`: whether a task can still be spawned for the decrement. */
    method Drop(runtime: bool, at: nat, reachable: bool)
      modifies this, limiter
      ensures released
      ensures limiter.keys == if old(released) || !runtime || !reachable then old(limiter.keys)
                              else old(limiter.keys)[account := IncrBy(At(old(limiter.keys), account), -1, at)]
    {
      if !released {
        released := true;
        if runtime {
          if reachable {
            limiter.keys := limiter.keys[account := IncrBy(At(limiter.keys, account), -1, at)];
          }
        }
      }
    }

    /** `release` consumes the permit, so its drop always follows: one decrement in all, or none if Redis was
        out of reach. The drop does not try again. */
    method ReleaseAndDrop(at: nat, reachable: bool, runtime: bool, later: nat, reachableLater: bool)
      requires !released
      modifies this, limiter
      ensures limiter.keys == if !reachable then old(limiter.keys)
                              else old(limiter.keys)[account := IncrBy(At(old(limiter.keys), account), -1, at)]
    {
      Release(at, reachable);
      Drop(runtime, later, reachableLater);
    }
  }

  // ---------------------------------------------------------------------------
  // The interleaved protocol on one account's key
  // ---------------------------------------------------------------------------

  /** `life` numbers the incarnation of the key that granted the permit. `sent` counts the decrements ever sent on its
      behalf; `pending` and `landed` those still in flight, and those that have reached Redis. */
  datatype Permit = Permit(life: nat, since: nat, released: bool, sent: nat, pending: nat, landed: nat)

  datatype Protocol = Protocol(cell: Cell<int>, life: nat, touched: nat, permits: seq<Permit>, now: nat)

  datatype Event =
    | Acquire(limit: nat, at: nat, answered: bool)  // unanswered: the script ran, the reply was lost
    | BeginRelease(i: nat)                          // the flag is swapped; the decrement is not sent yet
    | DropPermit(i: nat, runtime: bool)
    | Land(i: nat, at: nat)                         // a pending decrement reaches Redis
    | Lose(i: nat)                                  // a pending decrement is cancelled or fails
    | Crash(i: nat)                                 // the holder dies and sends nothing more

  function Start(): Protocol {
    Protocol(None, 0, 0, [], 0)
  }

  function Step(s: Protocol, e: Event): Protocol {
    match e
    case Acquire(limit, at, answered) =>
      var (entry, granted) := AcquireScript(s.cell, limit, at);
      var life := if Live(s.cell, at) then s.life else s.life + 1;
      Protocol(Some(entry), life, at,
               if granted then s.permits + [Permit(life, at, !answered, 0, 0, 0)] else s.permits, at)
    case BeginRelease(i) =>
      if i < |s.permits| && !s.permits[i].released then Send(s, i) else s
    case DropPermit(i, runtime) =>
      if i < |s.permits| && !s.permits[i].released then (if runtime then Send(s, i) else Silence(s, i)) else s
    case Land(i, at) =>
      if i < |s.permits| && s.permits[i].pending > 0 then
        var p := s.permits[i];
        s.(cell := Some(IncrBy(s.cell, -1, at)),
           permits := s.permits[i := p.(pending := p.pending - 1, landed := p.landed + 1)], now := at)
      else s
    case Lose(i) =>
      if i < |s.permits| && s.permits[i].pending > 0 then
        s.(permits := s.permits[i := s.permits[i].(pending := s.permits[i].pending - 1)])
      else s
    case Crash(i) =>
      if i < |s.permits| then Silence(s, i) else s
  }

  function Send(s: Protocol, i: nat): Protocol
    requires i < |s.permits|
  {
    s.(permits := s.permits[i := s.permits[i].(released := true, sent := s.permits[i].sent + 1, pending := s.permits[i].pending + 1)])
  }

  function Silence(s: Protocol, i: nat): Protocol
    requires i < |s.permits|
  {
    s.(permits := s.permits[i := s.permits[i].(released := true, pending := 0)])
  }

  function Run(events: seq<Event>): Protocol {
    if events == [] then Start() else Step(Run(events[..|events| - 1]), events[|events| - 1])
  }

  // ---------------------------------------------------------------------------
  // What a run must keep
  // ---------------------------------------------------------------------------

  /** Still held, or its decrement is on its way. */
  predicate Outstanding(p: Permit) {
    !p.released || p.pending > 0
  }

  /** Gone without ever decrementing. */
  predicate Leaked(p: Permit) {
    p.released && p.pending == 0 && p.landed == 0
  }

  function IsOutstanding(): Permit -> bool {
    (p: Permit) => Outstanding(p)
  }

  function LeakedIn(life: nat): Permit -> bool {
    (p: Permit) => Leaked(p) && p.life == life
  }

  function OnCounter(life: nat): Permit -> bool {
    (p: Permit) => p.life == life && p.landed == 0
  }

  /** The key has not expired under a permit: there is none, or the last acquire is recent enough. */
  ghost predicate Fresh(s: Protocol, at: nat) {
    (exists p :: p in s.permits && Outstanding(p)) ==> at < s.touched + KEY_TTL
  }

  ghost predicate InTime(s: Protocol, e: Event) {
    match e
    case Acquire(_, at, _) => s.now <= at && Fresh(s, at)
    case Land(_, at) => s.now <= at && Fresh(s, at)
    case _ => true
  }

  ghost predicate TimelyRun(events: seq<Event>) {
    forall k :: 0 <= k < |events| ==> InTime(Run(events[..k]), events[k])
  }

  /** The simpler promise a deployment can make: nobody is still outstanding 120 seconds after acquiring. */
  ghost predicate HoldsShort(s: Protocol, at: nat) {
    forall p :: p in s.permits && Outstanding(p) ==> at < p.since + KEY_TTL
  }

  ghost predicate PermitOk(s: Protocol, p: Permit) {
    && p.pending + p.landed <= (if p.released then 1 else 0)
    && p.life <= s.life && p.since <= s.touched
    && (Outstanding(p) ==> p.life == s.life)
  }

  /** The counter is exactly the permits of this incarnation that have not decremented. */
  ghost predicate CounterOk(s: Protocol) {
    match s.cell
    case None => s.permits == []
    case Some(entry) =>
      && entry.value == Count(s.permits, OnCounter(s.life))
      && entry.expiresAt == Some(s.touched + KEY_TTL)
  }

  ghost predicate Inv(s: Protocol) {
    && CounterOk(s)
    && s.touched <= s.now
    && (forall p :: p in s.permits ==> PermitOk(s, p))
  }

  // ---------------------------------------------------------------------------
  // Preservation
  // ---------------------------------------------------------------------------

  lemma {:induction false} OldLivesEmpty(permits: seq<Permit>, life: nat)
    requires forall p :: p in permits ==> p.life < life
    ensures Count(permits, OnCounter(life)) == 0
  {
    CountEmpty(permits, OnCounter(life));
  }

  /** What the script reads is the permits on the counter of the key's life after it. */
  lemma {:induction false} AcquireReads(s: Protocol, e: Event)
    requires Inv(s) && e.Acquire?
    ensures var read := match Get(s.cell, e.at) case Some(n) => n case None => 0;
      read == Count(s.permits, OnCounter(Step(s, e).life))
  {
    var life := Step(s, e).life;
    if !Live(s.cell, e.at) {
      forall p | p in s.permits
        ensures p.life < life
      {
        assert PermitOk(s, p);
      }
      OldLivesEmpty(s.permits, life);
    }
  }

  lemma {:induction false} AcquireCounter(s: Protocol, e: Event)
    requires Inv(s) && e.Acquire?
    ensures CounterOk(Step(s, e))
  {
    AcquireReads(s, e);
    var life := Step(s, e).life;
    CountAppend(s.permits, Permit(life, e.at, !e.answered, 0, 0, 0), OnCounter(life));
  }

  lemma {:induction false} AcquireStep(s: Protocol, e: Event)
    requires Inv(s) && e.Acquire? && s.now <= e.at && Fresh(s, e.at)
    ensures Inv(Step(s, e))
  {
    var t := Step(s, e);
    AcquireCounter(s, e);
    forall p | p in t.permits
      ensures PermitOk(t, p)
    {
      if p in s.permits {
        assert PermitOk(s, p);
        assert Outstanding(p) ==> Live(s.cell, e.at);
      }
    }
  }

  /** Changing one permit, all of whose effects on the counter are accounted for. */
  lemma {:induction false} PermitStep(s: Protocol, t: Protocol, i: nat, p: Permit)
    requires Inv(s) && i < |s.permits| && t.permits == s.permits[i := p]
    requires t.life == s.life && t.touched == s.touched && s.now <= t.now
    requires t.cell.Some? && s.cell.Some? && t.cell.value.expiresAt == s.cell.value.expiresAt
    requires t.cell.value.value - s.cell.value.value
          == (if OnCounter(s.life)(p) then 1 else 0) - (if OnCounter(s.life)(s.permits[i]) then 1 else 0)
    requires PermitOk(s, p)
    ensures Inv(t)
  {
    CountUpdate(s.permits, i, p, OnCounter(s.life));
    forall q | q in t.permits
      ensures PermitOk(t, q)
    {
      assert q == p || q in s.permits;
    }
  }

  lemma {:induction false} StepKeepsInv(s: Protocol, e: Event)
    requires Inv(s) && InTime(s, e)
    ensures Inv(Step(s, e))
  {
    if e.Acquire? {
      AcquireStep(s, e);
    } else if Step(s, e) != s {
      var i := e.i;
      assert s.permits[i] in s.permits && PermitOk(s, s.permits[i]);
      PermitStep(s, Step(s, e), i, Step(s, e).permits[i]);
    }
  }

  lemma {:induction false} RunKeepsInv(events: seq<Event>)
    requires TimelyRun(events)
    ensures Inv(Run(events))
  {
    if events != [] {
      var n := |events| - 1;
      forall k | 0 <= k < n
        ensures InTime(Run(events[..n][..k]), events[..n][k])
      {
        assert events[..n][..k] == events[..k];
      }
      RunKeepsInv(events[..n]);
      assert InTime(Run(events[..n]), events[n]);
      StepKeepsInv(Run(events[..n]), events[n]);
    }
  }

  // ---------------------------------------------------------------------------
  // What every run guarantees
  // ---------------------------------------------------------------------------

  lemma {:induction false} CounterSplits(s: Protocol)
    requires forall p :: p in s.permits ==> PermitOk(s, p)
    ensures Count(s.permits, OnCounter(s.life)) == Count(s.permits, IsOutstanding()) + Count(s.permits, LeakedIn(s.life))
  {
    CountSplit(s.permits, OnCounter(s.life), IsOutstanding(), LeakedIn(s.life));
  }

  /** Until the key expires, its value is the permits still outstanding plus those leaked under it; once it
      has expired nobody is outstanding, so no decrement can land on a missing key. */
  lemma {:induction false} CounterIsExact(events: seq<Event>, at: nat)
    requires TimelyRun(events) && Fresh(Run(events), at)
    ensures var s := Run(events);
      Get(s.cell, at) == if Live(s.cell, at)
                         then Some(Count(s.permits, IsOutstanding()) + Count(s.permits, LeakedIn(s.life)))
                         else None
    ensures !Live(Run(events).cell, at) ==> Count(Run(events).permits, IsOutstanding()) == 0
  {
    RunKeepsInv(events);
    var s := Run(events);
    CounterSplits(s);
    if !Live(s.cell, at) {
      CountEmpty(s.permits, IsOutstanding());
    }
  }

  /** One decrement is sent at most, and none before the permit is released; a lost one is not sent again. */
  predicate SentOnce(p: Permit) {
    p.pending + p.landed <= p.sent <= (if p.released then 1 else 0)
  }

  /** No permit ever sends a second decrement, in any run at all, timely or not. */
  lemma {:induction false} AtMostOneDecrement(events: seq<Event>)
    ensures forall p :: p in Run(events).permits ==> SentOnce(p)
  {
    if events != [] {
      var n := |events| - 1;
      AtMostOneDecrement(events[..n]);
      var s, t := Run(events[..n]), Run(events);
      forall p | p in t.permits && p !in s.permits
        ensures SentOnce(p)
      {
        var e := events[n];
        if !e.Acquire? && t != s {
          assert s.permits[e.i] in s.permits;
        }
      }
    }
  }

  ghost predicate LimitedBy(events: seq<Event>, limit: nat) {
    forall k :: 0 <= k < |events| && events[k].Acquire? ==> events[k].limit <= limit
  }

  /** However acquires, releases, drops, losses, crashes and key expiry interleave, the permits outstanding
      together with those leaked under the live key never exceed the limit. */
  lemma {:induction false} LimitHolds(events: seq<Event>, limit: nat)
    requires TimelyRun(events) && LimitedBy(events, limit)
    ensures var s := Run(events); Count(s.permits, IsOutstanding()) + Count(s.permits, LeakedIn(s.life)) <= limit
  {
    RunKeepsInv(events);
    CounterSplits(Run(events));
    if events != [] {
      var n := |events| - 1;
      forall k | 0 <= k < n
        ensures InTime(Run(events[..n][..k]), events[..n][k])
      {
        assert events[..n][..k] == events[..k];
      }
      LimitHolds(events[..n], limit);
      RunKeepsInv(events[..n]);
      CounterSplits(Run(events[..n]));
      ValueBound(Run(events[..n]), events[n], limit);
    }
  }

  lemma {:induction false} ValueBound(s: Protocol, e: Event, limit: nat)
    requires Inv(s) && Inv(Step(s, e)) && Count(s.permits, OnCounter(s.life)) <= limit
    requires e.Acquire? ==> e.limit <= limit
    ensures Count(Step(s, e).permits, OnCounter(Step(s, e).life)) <= limit
  {
    var t := Step(s, e);
    if e.Acquire? {
      assert t.cell.value.value <= limit;
    } else if t != s {
      CountUpdate(s.permits, e.i, t.permits[e.i], OnCounter(s.life));
    }
  }

  /** Holding every permit for less than the TTL is enough for a run to be timely. */
  lemma {:induction false} ShortHoldsAreFresh(s: Protocol, at: nat)
    requires Inv(s) && HoldsShort(s, at)
    ensures Fresh(s, at)
  {
    if p :| p in s.permits && Outstanding(p) {
      assert PermitOk(s, p);
    }
  }

  ghost predicate HeldShort(s: Protocol, e: Event) {
    match e
    case Acquire(_, at, _) => s.now <= at && HoldsShort(s, at)
    case Land(_, at) => s.now <= at && HoldsShort(s, at)
    case _ => true
  }

  ghost predicate HeldShortAt(events: seq<Event>, k: nat)
    requires k < |events|
  {
    HeldShort(Run(events[..k]), events[k])
  }

  lemma {:induction false} HeldShortInTime(s: Protocol, e: Event)
    requires Inv(s) && HeldShort(s, e)
    ensures InTime(s, e)
  {
    if e.Acquire? || e.Land? {
      ShortHoldsAreFresh(s, e.at);
    }
  }

  /** A run in which every permit's decrement lands, or its holder is gone, within the TTL is timely. */
  lemma {:induction false} ShortHoldRunsAreTimely(events: seq<Event>)
    requires forall k :: 0 <= k < |events| ==> HeldShortAt(events, k)
    ensures TimelyRun(events)
  {
    if events != [] {
      var n := |events| - 1;
      forall k | 0 <= k < n
        ensures HeldShortAt(events[..n], k)
      {
        assert HeldShortAt(events, k) && events[..n][..k] == events[..k];
      }
      ShortHoldRunsAreTimely(events[..n]);
      RunKeepsInv(events[..n]);
      assert HeldShortAt(events, n);
      HeldShortInTime(Run(events[..n]), events[n]);
      TimelyLast(events);
    }
  }

  lemma {:induction false} TimelyLast(events: seq<Event>)
    requires events != [] && TimelyRun(events[..|events| - 1])
    requires InTime(Run(events[..|events| - 1]), events[|events| - 1])
    ensures TimelyRun(events)
  {
    var n := |events| - 1;
    forall k | 0 <= k < |events|
      ensures InTime(Run(events[..k]), events[k])
    {
      if k < n {
        assert events[..n][..k] == events[..k];
        assert InTime(Run(events[..n][..k]), events[..n][k]);
      }
    }
  }

  /** What Redis holds is the permits still outstanding plus those leaked under the key's current life. */
  ghost predicate CounterReads(s: Protocol) {
    s.cell.Some? && s.cell.value.value == Count(s.permits, IsOutstanding()) + Count(s.permits, LeakedIn(s.life))
  }

  lemma {:induction false} OutstandingCounts(permits: seq<Permit>, p: Permit)
    requires p in permits && Outstanding(p)
    ensures Count(permits, IsOutstanding()) > 0
  {
    var n := |permits| - 1;
    if permits[n] != p {
      OutstandingCounts(permits[..n], p);
    }
  }

  /** An acquire on a key that has expired under an outstanding permit starts again from zero: the permits of the old life
      are still outstanding, and the counter is too low by that many. */
  lemma {:induction false} StaleAcquireCounts(s: Protocol, limit: nat, at: nat, answered: bool)
    requires Inv(s) && !Fresh(s, at)
    ensures Count(s.permits, IsOutstanding()) > 0
    ensures var (t, granted) := (Step(s, Acquire(limit, at, answered)), if limit > 0 then 1 else 0);
      && t.cell.value.value == granted
      && Count(t.permits, IsOutstanding()) + Count(t.permits, LeakedIn(t.life)) == Count(s.permits, IsOutstanding()) + granted
  {
    var t := Step(s, Acquire(limit, at, answered));
    var p :| p in s.permits && Outstanding(p);
    OutstandingCounts(s.permits, p);
    assert t.life == s.life + 1;
    forall q | q in s.permits
      ensures q.life < t.life
    {
      assert PermitOk(s, q);
    }
    CountEmpty(s.permits, LeakedIn(t.life));
    if limit > 0 {
      var granted := Permit(t.life, at, !answered, 0, 0, 0);
      CountAppend(s.permits, granted, IsOutstanding());
      CountAppend(s.permits, granted, LeakedIn(t.life));
    }
  }

  /** Freshness is also necessary: after an acquire the counter is outstanding plus leaked permits, and the invariant
      holds, if and only if the key had not expired under an outstanding permit. */
  lemma {:induction false} AcquireExactIffFresh(s: Protocol, limit: nat, at: nat, answered: bool)
    requires Inv(s) && s.now <= at
    ensures CounterReads(Step(s, Acquire(limit, at, answered))) <==> Fresh(s, at)
    ensures Inv(Step(s, Acquire(limit, at, answered))) <==> Fresh(s, at)
  {
    var e := Acquire(limit, at, answered);
    if Fresh(s, at) {
      AcquireStep(s, e);
      CounterSplits(Step(s, e));
    } else {
      StaleAcquireCounts(s, limit, at, answered);
      var p :| p in s.permits && Outstanding(p);
      assert PermitOk(s, p);
      assert p in Step(s, e).permits && Step(s, e).life == s.life + 1;
      assert !PermitOk(Step(s, e), p);
    }
  }

  /** And exactly when an acquire keeps to the limit: the key has not expired under an outstanding permit, or the permits
      outstanding leave room for one more anyway. */
  lemma {:induction false} WithinLimitIff(s: Protocol, limit: nat, at: nat, answered: bool)
    requires Inv(s) && s.now <= at
    requires Count(s.permits, IsOutstanding()) + Count(s.permits, LeakedIn(s.life)) <= limit
    ensures var t := Step(s, Acquire(limit, at, answered));
      Count(t.permits, IsOutstanding()) + Count(t.permits, LeakedIn(t.life)) <= limit <==>
        Fresh(s, at) || Count(s.permits, IsOutstanding()) < limit
  {
    var e := Acquire(limit, at, answered);
    if Fresh(s, at) {
      AcquireStep(s, e);
      CounterSplits(s);
      CounterSplits(Step(s, e));
      ValueBound(s, e, limit);
    } else {
      StaleAcquireCounts(s, limit, at, answered);
    }
  }

  /** Likewise a decrement that lands: on an expired key it leaves -1 behind with no TTL. */
  lemma {:induction false} LandExactIffFresh(s: Protocol, i: nat, at: nat)
    requires Inv(s) && s.now <= at && i < |s.permits| && s.permits[i].pending > 0
    ensures Inv(Step(s, Land(i, at))) <==> Fresh(s, at)
    ensures !Fresh(s, at) ==> Step(s, Land(i, at)).cell == Some(Entry(-1, None))
  {
    assert s.permits[i] in s.permits && Outstanding(s.permits[i]);
    if Fresh(s, at) {
      StepKeepsInv(s, Land(i, at));
    }
  }

  /** A request outliving the TTL: with limit 1, two permits are held at once. */
  lemma {:induction false} LongHoldExceedsLimit()
    ensures Count(Run([Acquire(1, 0, true), Acquire(1, 120, true)]).permits, IsOutstanding()) == 2
  {
    var events := [Acquire(1, 0, true), Acquire(1, 120, true)];
    assert events[..1] == [Acquire(1, 0, true)] && events[..1][..0] == [];
    var one := Step(Start(), events[0]);
    assert Run(events[..1]) == one;
    assert Run(events) == Step(one, events[1]);
    var a, b := one.permits[0], Run(events).permits[1];
    CountAppend([], a, IsOutstanding());
    assert [] + [a] == [a];
    CountAppend([a], b, IsOutstanding());
    assert Run(events).permits == [a] + [b];
  }

  // ---------------------------------------------------------------------------
  // When the safety-net TTL reclaims leaked slots
  // ---------------------------------------------------------------------------

  /** With any slot leaked, an acquire counts the leaked slots along if and only if less than a whole TTL has passed since
      the last acquire, granted or refused; otherwise it starts again from zero. */
  lemma {:induction false} ReclaimedIffGap(s: Protocol, limit: nat, at: nat)
    requires Inv(s) && 0 < Count(s.permits, LeakedIn(s.life))
    ensures var (entry, granted) := AcquireScript(s.cell, limit, at);
      var one, held := if granted then 1 else 0, Count(s.permits, IsOutstanding()) + Count(s.permits, LeakedIn(s.life));
      && (entry.value == held + one <==> at < s.touched + KEY_TTL)
      && (entry.value == one <==> at >= s.touched + KEY_TTL)
      && (granted <==> (if at < s.touched + KEY_TTL then held else 0) < limit)
  {
    CounterSplits(s);
  }

  function RunFrom(s: Protocol, events: seq<Event>): Protocol {
    if events == [] then s else Step(RunFrom(s, events[..|events| - 1]), events[|events| - 1])
  }

  /** Every acquire comes less than a TTL after the one before it, under a limit of at most `limit`. */
  ghost predicate Busy(s: Protocol, e: Event, limit: nat) {
    match e
    case Acquire(l, at, _) => s.now <= at < s.touched + KEY_TTL && l <= limit
    case Land(_, at) => s.now <= at < s.touched + KEY_TTL
    case _ => true
  }

  /** A leaked permit stays leaked. */
  lemma {:induction false} LeaksStay(s: Protocol, e: Event)
    requires !e.Acquire?
    ensures Step(s, e).life == s.life && Step(s, e).touched == s.touched && |Step(s, e).permits| == |s.permits|
    ensures Count(Step(s, e).permits, LeakedIn(s.life)) >= Count(s.permits, LeakedIn(s.life))
  {
    CountPointwise(s.permits, LeakedIn(s.life), Step(s, e).permits, LeakedIn(s.life));
  }

  lemma {:induction false} BusyStep(s: Protocol, e: Event, limit: nat)
    requires Inv(s) && s.cell.Some? && Busy(s, e, limit)
    ensures var t := Step(s, e);
      && Inv(t) && t.cell.Some? && t.life == s.life
      && Count(t.permits, LeakedIn(t.life)) >= Count(s.permits, LeakedIn(s.life))
      && (Count(s.permits, OnCounter(s.life)) <= limit ==> Count(t.permits, OnCounter(t.life)) <= limit)
      && (limit <= Count(s.permits, OnCounter(s.life)) && e.Acquire? ==> t.permits == s.permits)
      && (!e.Acquire? ==> |t.permits| == |s.permits|)
  {
    StepKeepsInv(s, e);
    if e.Acquire? {
      CountAppend(s.permits, Permit(s.life, e.at, !e.answered, 0, 0, 0), LeakedIn(s.life));
    } else {
      LeaksStay(s, e);
    }
    if Count(s.permits, OnCounter(s.life)) <= limit {
      ValueBound(s, e, limit);
    }
  }

  ghost predicate BusyAt(s: Protocol, events: seq<Event>, k: nat, limit: nat)
    requires k < |events|
  {
    Busy(RunFrom(s, events[..k]), events[k], limit)
  }

  ghost predicate BusyRun(s: Protocol, events: seq<Event>, limit: nat) {
    forall k :: 0 <= k < |events| ==> BusyAt(s, events, k, limit)
  }

  lemma {:induction false} BusyPrefix(s: Protocol, events: seq<Event>, limit: nat)
    requires BusyRun(s, events, limit) && events != []
    ensures BusyRun(s, events[..|events| - 1], limit)
    ensures Busy(RunFrom(s, events[..|events| - 1]), events[|events| - 1], limit)
  {
    var n := |events| - 1;
    assert BusyAt(s, events, n, limit);
    forall k | 0 <= k < n
      ensures BusyAt(s, events[..n], k, limit)
    {
      assert BusyAt(s, events, k, limit) && events[..n][..k] == events[..k];
    }
  }

  lemma {:induction false} BusyKeepsLeaks(s: Protocol, events: seq<Event>, limit: nat)
    requires Inv(s) && s.cell.Some? && BusyRun(s, events, limit)
    ensures var t := RunFrom(s, events);
      && Inv(t) && t.cell.Some? && t.life == s.life
      && Count(t.permits, LeakedIn(t.life)) >= Count(s.permits, LeakedIn(s.life))
      && (Count(s.permits, OnCounter(s.life)) <= limit ==> Count(t.permits, OnCounter(t.life)) <= limit)
  {
    if events != [] {
      BusyPrefix(s, events, limit);
      BusyKeepsLeaks(s, events[..|events| - 1], limit);
      BusyStep(RunFrom(s, events[..|events| - 1]), events[|events| - 1], limit);
    }
  }

  lemma {:induction false} BusyGrantsNothing(s: Protocol, events: seq<Event>, limit: nat)
    requires Inv(s) && s.cell.Some? && BusyRun(s, events, limit) && limit <= Count(s.permits, LeakedIn(s.life))
    ensures |RunFrom(s, events).permits| == |s.permits|
  {
    if events != [] {
      var m := RunFrom(s, events[..|events| - 1]);
      BusyPrefix(s, events, limit);
      BusyGrantsNothing(s, events[..|events| - 1], limit);
      BusyKeepsLeaks(s, events[..|events| - 1], limit);
      CounterSplits(m);
      BusyStep(m, events[|events| - 1], limit);
    }
  }

  /** As long as acquires keep coming within the TTL of each other, no leaked slot is reclaimed, however few are leaked:
      the refused acquires keep the key alive too. The permits outstanding are confined to what the leaks leave of the
      limit, and if they leave nothing, nothing is granted. */
  lemma {:induction false} BusyNeverReclaims(s: Protocol, events: seq<Event>, limit: nat)
    requires Inv(s) && s.cell.Some? && BusyRun(s, events, limit)
    ensures var (t, leaked) := (RunFrom(s, events), Count(s.permits, LeakedIn(s.life)));
      && t.life == s.life && Count(t.permits, LeakedIn(t.life)) >= leaked
      && (Count(s.permits, IsOutstanding()) + leaked <= limit ==> Count(t.permits, IsOutstanding()) + leaked <= limit)
      && (limit <= leaked ==> |t.permits| == |s.permits|)
  {
    BusyKeepsLeaks(s, events, limit);
    CounterSplits(s);
    CounterSplits(RunFrom(s, events));
    if limit <= Count(s.permits, LeakedIn(s.life)) {
      BusyGrantsNothing(s, events, limit);
    }
  }

  /** One slot, leaked at the start: three more acquires 100 seconds apart are all refused and the key lives on. */
  lemma {:induction false} LeakOutlivesTtl()
    ensures var s := Run([Acquire(1, 0, true), Crash(0), Acquire(1, 100, true), Acquire(1, 200, true), Acquire(1, 300, true)]);
      |s.permits| == 1 && s.cell == Some(Entry(1, Some(420)))
  {
    var events := [Acquire(1, 0, true), Crash(0), Acquire(1, 100, true), Acquire(1, 200, true), Acquire(1, 300, true)];
    var one := Step(Start(), events[0]);
    var two := Step(one, events[1]);
    assert events[..4][..3] == events[..3] && events[..3][..2] == events[..2] && events[..2][..1] == events[..1];
    assert events[..1][..0] == [];
    assert Run(events[..1]) == Step(Run(events[..1][..0]), events[0]) == one;
    assert Run(events[..2]) == two;
    assert Run(events[..3]) == Step(two, events[2]);
    assert Run(events[..4]) == Step(Run(events[..3]), events[3]);
    assert Run(events) == Step(Run(events[..4]), events[4]);
  }

  // ---------------------------------------------------------------------------
  // What a permit costs and gives back
  // ---------------------------------------------------------------------------

  /** An acquire is granted if and only if the permits on the live key, outstanding and leaked, are fewer than the limit. */
  lemma {:induction false} GrantedIff(s: Protocol, limit: nat, at: nat)
    requires Inv(s)
    ensures AcquireScript(s.cell, limit, at).1 <==>
      (if Live(s.cell, at) then Count(s.permits, IsOutstanding()) + Count(s.permits, LeakedIn(s.life)) else 0) < limit
  {
    CounterSplits(s);
  }

  /** Releasing a permit, or dropping it while a runtime exists, and its decrement reaching the live key, gives back
      exactly one slot: the counter is one lower, the permit neither outstanding nor leaked. To the key it is what the
      release of the permit object does. */
  lemma {:induction false} ReleaseGivesBack(s: Protocol, i: nat, at: nat, dropped: bool)
    requires Inv(s) && i < |s.permits| && !s.permits[i].released && Live(s.cell, at)
    ensures var t := Step(Step(s, if dropped then DropPermit(i, true) else BeginRelease(i)), Land(i, at));
      && t.cell == Some(IncrBy(s.cell, -1, at)) && t.cell.value.value == s.cell.value.value - 1
      && |t.permits| == |s.permits| && !Outstanding(t.permits[i]) && !Leaked(t.permits[i])
      && forall j :: 0 <= j < |s.permits| && j != i ==> t.permits[j] == s.permits[j]
  {
    assert s.permits[i] in s.permits && PermitOk(s, s.permits[i]);
  }

  /** An answered grant is held; one whose answer is lost is leaked from the start. */
  lemma {:induction false} GrantIsHeld(s: Protocol, limit: nat, at: nat, answered: bool)
    requires AcquireScript(s.cell, limit, at).1
    ensures var t := Step(s, Acquire(limit, at, answered));
      && |t.permits| == |s.permits| + 1 && t.permits[..|s.permits|] == s.permits
      && var p := t.permits[|s.permits|]; (Outstanding(p) <==> answered) && (Leaked(p) <==> !answered) && p.since == at
  {
  }

  /** Without a runtime, or if the holder dies, or the decrement is lost, the slot leaks and the key is not touched. */
  lemma {:induction false} LossLeaks(s: Protocol, i: nat)
    requires Inv(s) && i < |s.permits| && !s.permits[i].released
    ensures var t := Step(s, DropPermit(i, false)); t.cell == s.cell && Leaked(t.permits[i])
    ensures var t := Step(s, Crash(i)); t.cell == s.cell && Leaked(t.permits[i])
    ensures var t := Step(Step(s, BeginRelease(i)), Lose(i)); t.cell == s.cell && Leaked(t.permits[i])
  {
    assert s.permits[i] in s.permits && PermitOk(s, s.permits[i]);
  }
}

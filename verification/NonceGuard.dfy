/** Replay protection: a request must carry a recent timestamp and a nonce not seen for the account while the
    nonce store remembers it. Signature, key and account checks come first; their verdict is an input here. */
module NonceGuard {
  import opened Wrappers
  import opened Redis

  /** An account, by the 36 characters of its hyphenated UUID. */
  type AccountId = id: string | |id| == 36 witness seq(36, _ => '0')

  /** `timestamp` is absent when the header is not an integer. */
  datatype Request = Request(account: AccountId, nonce: string, timestamp: Option<int>)

  datatype AuthError = InvalidTimestamp | TimestampExpired | InvalidNonce | Denied | NonceCheckFailed | NonceReplay

  function Abs(n: int): nat {
    if n < 0 then -n else n
  }

  function ValidateTimestamp(timestamp: Option<int>, skew: nat, now: int): Result<(), AuthError> {
    match timestamp
    case None => Err(InvalidTimestamp)
    case Some(t) => if Abs(now - t) > skew then Err(TimestampExpired) else Ok(())
  }

  predicate ValidNonceLength(nonce: string) {
    16 <= |nonce| <= 64
  }

  function NonceKey(account: AccountId, nonce: string): string {
    "nonce:" + account + ":" + nonce
  }

  /** Two accounts never share a nonce key. */
  lemma {:induction false} NonceKeyInjective(a1: AccountId, n1: string, a2: AccountId, n2: string)
    requires NonceKey(a1, n1) == NonceKey(a2, n2)
    ensures a1 == a2 && n1 == n2
  {
    var k1, k2 := NonceKey(a1, n1), NonceKey(a2, n2);
    assert a1 == k1[6..42] && a2 == k2[6..42];
    assert n1 == k1[43..] && n2 == k2[43..];
  }

  // ---------------------------------------------------------------------------
  // The nonce store
  // ---------------------------------------------------------------------------

  /** How the SET command went: answered, never executed, or executed with its answer lost. */
  datatype Reply = Answered | NotExecuted | AnswerLost

  /** SET NX EX. Redis refuses an expiry of zero. */
  function SetNxEx(store: Store<string, ()>, key: string, ttl: nat, at: nat, reply: Reply): Store<string, ()> {
    if reply.NotExecuted? || ttl == 0 || Live(At(store, key), at) then store
    else store[key := SetEx((), ttl, at)]
  }

  function CheckNonce(store: Store<string, ()>, key: string, ttl: nat, at: nat, reply: Reply): Result<(), AuthError> {
    if !reply.Answered? || ttl == 0 then Err(NonceCheckFailed)
    else if Live(At(store, key), at) then Err(NonceReplay)
    else Ok(())
  }

  class NonceStore {
    var store: Store<string, ()>

    constructor ()
      ensures store == map[]
    {
      store := map[];
    }

    /** Fails closed: no answer, no admission. */
    method Check(account: AccountId, nonce: string, ttl: nat, at: nat, reply: Reply) returns (r: Result<(), AuthError>)
      modifies this
      ensures store == SetNxEx(old(store), NonceKey(account, nonce), ttl, at, reply)
      ensures r == CheckNonce(old(store), NonceKey(account, nonce), ttl, at, reply)
    {
      var key := NonceKey(account, nonce);
      var existed := Live(At(store, key), at);
      if reply.NotExecuted? || ttl == 0 {
        return Err(NonceCheckFailed);
      }
      if !existed {
        store := store[key := SetEx((), ttl, at)];
      }
      if reply.AnswerLost? {
        return Err(NonceCheckFailed);
      }
      if existed {
        return Err(NonceReplay);
      }
      r := Ok(());
    }
  }

  // ---------------------------------------------------------------------------
  // Runs
  // ---------------------------------------------------------------------------

  /** One request: the clock read for its timestamp, the instant Redis sees it, the verdict of the checks on body,
      key, account and signature, and how the nonce command went. */
  datatype Arrival = Arrival(request: Request, clock: int, at: nat, verified: bool, reply: Reply)

  datatype Acceptance = Acceptance(request: Request, clock: int, at: nat)

  datatype Guard = Guard(store: Store<string, ()>, accepted: seq<Acceptance>)

  function Key(r: Request): string {
    NonceKey(r.account, r.nonce)
  }

  /** Timestamp and nonce format first, then the verification, and only then the nonce store. */
  function Decide(g: Guard, a: Arrival, skew: nat): Result<(), AuthError> {
    var timely := ValidateTimestamp(a.request.timestamp, skew, a.clock);
    if timely.Err? then timely
    else if !ValidNonceLength(a.request.nonce) then Err(InvalidNonce)
    else if !a.verified then Err(Denied)
    else CheckNonce(g.store, Key(a.request), skew, a.at, a.reply)
  }

  /** The request got as far as the nonce store. */
  predicate Passed(a: Arrival, skew: nat) {
    ValidateTimestamp(a.request.timestamp, skew, a.clock).Ok? && ValidNonceLength(a.request.nonce) && a.verified
  }

  function Step(g: Guard, a: Arrival, skew: nat): Guard {
    Guard(if Passed(a, skew) then SetNxEx(g.store, Key(a.request), skew, a.at, a.reply) else g.store,
          if Decide(g, a, skew).Ok? then g.accepted + [Acceptance(a.request, a.clock, a.at)] else g.accepted)
  }

  function Run(arrivals: seq<Arrival>, skew: nat): Guard {
    if arrivals == [] then Guard(map[], [])
    else Step(Run(arrivals[..|arrivals| - 1], skew), arrivals[|arrivals| - 1], skew)
  }

  ghost predicate Remembered(g: Guard, a: Acceptance, skew: nat) {
    var cell := At(g.store, Key(a.request));
    cell.Some? && cell.value.expiresAt.Some? && cell.value.expiresAt.value >= a.at + skew
  }

  ghost predicate Spaced(g: Guard, skew: nat) {
    forall i, j :: 0 <= i < j < |g.accepted| && Key(g.accepted[i].request) == Key(g.accepted[j].request) ==>
      g.accepted[i].at + skew <= g.accepted[j].at
  }

  ghost predicate Inv(g: Guard, skew: nat) {
    && (forall i :: 0 <= i < |g.accepted| ==> Remembered(g, g.accepted[i], skew))
    && (forall i :: 0 <= i < |g.accepted| ==>
          g.accepted[i].request.timestamp.Some? && Abs(g.accepted[i].clock - g.accepted[i].request.timestamp.value) <= skew)
    && Spaced(g, skew)
  }

  /** A nonce is only overwritten once its entry has expired, and then by a later expiry. */
  lemma {:induction false} StaysRemembered(g: Guard, a: Arrival, skew: nat, x: Acceptance)
    requires Remembered(g, x, skew)
    ensures Remembered(Step(g, a, skew), x, skew)
  {
  }

  lemma {:induction false} StepKeepsInv(g: Guard, a: Arrival, skew: nat)
    requires Inv(g, skew)
    ensures Inv(Step(g, a, skew), skew)
  {
    var h := Step(g, a, skew);
    forall i | 0 <= i < |g.accepted|
      ensures Remembered(h, g.accepted[i], skew)
    {
      StaysRemembered(g, a, skew, g.accepted[i]);
    }
    forall i, j | 0 <= i < j < |h.accepted| && Key(h.accepted[i].request) == Key(h.accepted[j].request)
      ensures h.accepted[i].at + skew <= h.accepted[j].at
    {
      assert Remembered(g, g.accepted[i], skew);
    }
  }

  lemma {:induction false} RunKeepsInv(arrivals: seq<Arrival>, skew: nat)
    ensures Inv(Run(arrivals, skew), skew)
  {
    if arrivals != [] {
      RunKeepsInv(arrivals[..|arrivals| - 1], skew);
      StepKeepsInv(Run(arrivals[..|arrivals| - 1], skew), arrivals[|arrivals| - 1], skew);
    }
  }

  /** In every run, two acceptances of the same nonce for the same account are at least the skew apart. */
  lemma {:induction false} AcceptancesApart(arrivals: seq<Arrival>, skew: nat, i: nat, j: nat)
    requires i < j < |Run(arrivals, skew).accepted|
    requires Run(arrivals, skew).accepted[i].request.account == Run(arrivals, skew).accepted[j].request.account
    requires Run(arrivals, skew).accepted[i].request.nonce == Run(arrivals, skew).accepted[j].request.nonce
    ensures Run(arrivals, skew).accepted[i].at + skew <= Run(arrivals, skew).accepted[j].at
  {
    RunKeepsInv(arrivals, skew);
    var acc := Run(arrivals, skew).accepted;
    assert Key(acc[i].request) == Key(acc[j].request);
  }

  // ---------------------------------------------------------------------------
  // How often one request is accepted
  // ---------------------------------------------------------------------------

  /** Between reading the clock and reaching the nonce store a request waits for the key, the account and Redis. */
  predicate Delayed(a: Arrival, d: nat) {
    a.clock <= a.at <= a.clock + d
  }

  ghost predicate AllDelayed(arrivals: seq<Arrival>, d: nat) {
    forall i :: 0 <= i < |arrivals| ==> Delayed(arrivals[i], d)
  }

  /** In every run, a request accepted a second time was stamped no earlier than its first acceptance, less the delay of
      the second. */
  lemma {:induction false} RepeatNeedsLateStamp(arrivals: seq<Arrival>, skew: nat, i: nat, j: nat)
    requires i < j < |Run(arrivals, skew).accepted|
    requires Run(arrivals, skew).accepted[i].request == Run(arrivals, skew).accepted[j].request
    ensures var acc := Run(arrivals, skew).accepted;
      && acc[i].request.timestamp.Some?
      && acc[i].at <= acc[i].request.timestamp.value + (acc[j].at - acc[j].clock)
  {
    RunKeepsInv(arrivals, skew);
    AcceptancesApart(arrivals, skew, i, j);
    var acc := Run(arrivals, skew).accepted;
    assert Abs(acc[j].clock - acc[j].request.timestamp.value) <= skew;
  }

  lemma {:induction false} AcceptedDelayed(arrivals: seq<Arrival>, skew: nat, d: nat)
    requires AllDelayed(arrivals, d)
    ensures forall i :: 0 <= i < |Run(arrivals, skew).accepted| ==>
      Run(arrivals, skew).accepted[i].clock <= Run(arrivals, skew).accepted[i].at <= Run(arrivals, skew).accepted[i].clock + d
  {
    if arrivals != [] {
      AcceptedDelayed(arrivals[..|arrivals| - 1], skew, d);
    }
  }

  /** With delays of at most `d`, a request stamped more than `d` before it is first accepted is never accepted again. */
  lemma {:induction false} PastStampAcceptedOnce(arrivals: seq<Arrival>, skew: nat, d: nat, i: nat, j: nat)
    requires AllDelayed(arrivals, d) && i < j < |Run(arrivals, skew).accepted|
    requires Run(arrivals, skew).accepted[i].request == Run(arrivals, skew).accepted[j].request
    ensures Run(arrivals, skew).accepted[i].request.timestamp.Some?
    ensures Run(arrivals, skew).accepted[i].at <= Run(arrivals, skew).accepted[i].request.timestamp.value + d
  {
    RepeatNeedsLateStamp(arrivals, skew, i, j);
    AcceptedDelayed(arrivals, skew, d);
  }

  /** If the clock does not advance within a request's checks, one stamped before the clock is accepted once only. */
  lemma {:induction false} InstantPastStampOnce(arrivals: seq<Arrival>, skew: nat, i: nat, j: nat)
    requires AllDelayed(arrivals, 0) && i < j < |Run(arrivals, skew).accepted|
    requires Run(arrivals, skew).accepted[i].request == Run(arrivals, skew).accepted[j].request
    ensures Run(arrivals, skew).accepted[i].request.timestamp.Some?
    ensures Run(arrivals, skew).accepted[i].clock <= Run(arrivals, skew).accepted[i].request.timestamp.value
  {
    PastStampAcceptedOnce(arrivals, skew, 0, i, j);
    AcceptedDelayed(arrivals, skew, 0);
  }

  /** The same request right after its acceptance, with the clock read at `clock` and Redis reached at `at`, is accepted. */
  ghost predicate AcceptedAgain(g: Guard, a: Arrival, skew: nat, clock: int, at: nat) {
    Decide(Step(g, a, skew), a.(clock := clock, at := at), skew).Ok?
  }

  /** Exactly when acceptance is once and for all: the store keeps a nonce until `skew` after its acceptance, and a stamp
      is honoured until `skew` after its own time by a clock read up to `d` before the store is reached. So the same
      request can be accepted again, with nothing in between, if and only if its first acceptance came at most `d` after
      its stamp. */
  lemma {:induction false} AcceptedAgainIff(g: Guard, a: Arrival, skew: nat, d: nat)
    requires a.clock <= a.at && Decide(g, a, skew).Ok?
    ensures (exists clock: int, at: nat :: AcceptedAgain(g, a, skew, clock, at) && clock <= at <= clock + d) <==>
      a.at <= a.request.timestamp.value + d
  {
    var stamp := a.request.timestamp.value;
    if a.at <= stamp + d {
      var at := a.at + skew;
      var clock := if at <= stamp + skew then at else stamp + skew;
      assert AcceptedAgain(g, a, skew, clock, at) && clock <= at <= clock + d;
    }
  }

  /** Without delays: if and only if it was stamped at or after the clock. */
  lemma {:induction false} InstantAcceptedAgainIff(g: Guard, a: Arrival, skew: nat)
    requires a.clock == a.at && Decide(g, a, skew).Ok?
    ensures (exists at: nat :: AcceptedAgain(g, a, skew, at, at)) <==> a.request.timestamp.value >= a.clock
  {
    AcceptedAgainIff(g, a, skew, 0);
    if a.request.timestamp.value >= a.clock {
      var clock: int, at: nat :| AcceptedAgain(g, a, skew, clock, at) && clock <= at <= clock + 0;
      assert AcceptedAgain(g, a, skew, at, at);
    }
  }

  /** Two arrivals of one request, both accepted. */
  lemma {:induction false} TwoAcceptances(stamped: Request, first: Arrival, second: Arrival, skew: nat)
    requires first.request == second.request == stamped && Passed(first, skew) && Passed(second, skew)
    requires first.reply.Answered? && second.reply.Answered? && 0 < skew && first.at + skew <= second.at
    ensures |Run([first, second], skew).accepted| == 2
  {
    var all := [first, second];
    assert all[..1] == [first] && [first][..0] == [];
    assert Run([first], skew) == Step(Run([], skew), first, skew);
    assert Run(all, skew) == Step(Run([first], skew), second, skew);
  }

  lemma {:induction false} FutureStampAcceptedTwice()
    ensures var stamped := Request(seq(36, _ => '0'), seq(16, _ => 'n'), Some(1300));
      |Run([Arrival(stamped, 1000, 1000, true, Answered), Arrival(stamped, 1300, 1300, true, Answered)], 300).accepted| == 2
  {
    var stamped := Request(seq(36, _ => '0'), seq(16, _ => 'n'), Some(1300));
    TwoAcceptances(stamped, Arrival(stamped, 1000, 1000, true, Answered), Arrival(stamped, 1300, 1300, true, Answered), 300);
  }

  /** A stamp from the past, one second of delay at the second arrival. */
  lemma {:induction false} DelayedStampAcceptedTwice()
    ensures var stamped := Request(seq(36, _ => '0'), seq(16, _ => 'n'), Some(999));
      |Run([Arrival(stamped, 1000, 1000, true, Answered), Arrival(stamped, 1299, 1300, true, Answered)], 300).accepted| == 2
  {
    var stamped := Request(seq(36, _ => '0'), seq(16, _ => 'n'), Some(999));
    TwoAcceptances(stamped, Arrival(stamped, 1000, 1000, true, Answered), Arrival(stamped, 1299, 1300, true, Answered), 300);
  }

  // ---------------------------------------------------------------------------
  // The store holds only what was verified, and refuses nothing else
  // ---------------------------------------------------------------------------

  /** Every nonce in the store was put there by a request that had passed every earlier check. */
  lemma {:induction false} OnlyVerifiedStored(arrivals: seq<Arrival>, skew: nat, key: string)
    requires key in Run(arrivals, skew).store
    ensures exists k :: 0 <= k < |arrivals| && Passed(arrivals[k], skew) && Key(arrivals[k].request) == key
  {
    var n := |arrivals| - 1;
    if n >= 0 {
      if key in Run(arrivals[..n], skew).store {
        OnlyVerifiedStored(arrivals[..n], skew, key);
        var k :| 0 <= k < n && Passed(arrivals[..n][k], skew) && Key(arrivals[..n][k].request) == key;
        assert Passed(arrivals[k], skew) && Key(arrivals[k].request) == key;
      } else {
        assert Passed(arrivals[n], skew) && Key(arrivals[n].request) == key;
      }
    }
  }

  /** A request that passes every check and whose nonce its account has not presented verified before is accepted. */
  lemma {:induction false} FreshNonceAccepted(arrivals: seq<Arrival>, skew: nat, a: Arrival)
    requires skew > 0 && Passed(a, skew) && a.reply.Answered?
    requires forall k :: 0 <= k < |arrivals| && Passed(arrivals[k], skew) ==>
      arrivals[k].request.account != a.request.account || arrivals[k].request.nonce != a.request.nonce
    ensures Decide(Run(arrivals, skew), a, skew).Ok?
  {
    var key := Key(a.request);
    if key in Run(arrivals, skew).store {
      OnlyVerifiedStored(arrivals, skew, key);
      var k :| 0 <= k < |arrivals| && Passed(arrivals[k], skew) && Key(arrivals[k].request) == key;
      NonceKeyInjective(arrivals[k].request.account, arrivals[k].request.nonce, a.request.account, a.request.nonce);
    }
  }

  // ---------------------------------------------------------------------------
  // The decision on one request
  // ---------------------------------------------------------------------------

  /** Which answer a request gets: the first of these that applies. */
  lemma {:induction false} DecideCases(g: Guard, a: Arrival, skew: nat)
    ensures var stamp := a.request.timestamp;
      Decide(g, a, skew) ==
        if stamp.None? then Err(InvalidTimestamp)
        else if a.clock > stamp.value + skew || stamp.value > a.clock + skew then Err(TimestampExpired)
        else if |a.request.nonce| < 16 || |a.request.nonce| > 64 then Err(InvalidNonce)
        else if !a.verified then Err(Denied)
        else if skew == 0 || a.reply != Answered then Err(NonceCheckFailed)
        else if Seen(g, a) then Err(NonceReplay)
        else Ok(())
  {
  }

  /** The account's nonce is in the store and has not expired. */
  predicate Seen(g: Guard, a: Arrival) {
    var key := "nonce:" + a.request.account + ":" + a.request.nonce;
    key in g.store && (g.store[key].expiresAt.None? || a.at < g.store[key].expiresAt.value)
  }

  /** And what it leaves in the store: an accepted nonce until `skew` seconds after Redis saw it, everything else as it was. */
  lemma {:induction false} AcceptedIsStored(g: Guard, a: Arrival, skew: nat)
    ensures Decide(g, a, skew).Ok? ==>
      Step(g, a, skew).store == g.store["nonce:" + a.request.account + ":" + a.request.nonce := Entry((), Some(a.at + skew))]
    ensures Passed(a, skew) && a.reply == AnswerLost && skew > 0 && !Seen(g, a) ==>
      Step(g, a, skew).store == g.store["nonce:" + a.request.account + ":" + a.request.nonce := Entry((), Some(a.at + skew))]
    ensures !Passed(a, skew) || a.reply == NotExecuted ==> Step(g, a, skew).store == g.store
    ensures Decide(g, a, skew) == Err(NonceReplay) ==> Step(g, a, skew).store == g.store
  {
  }
}

/** The Redis-backed sliding-window limiter: one counter per prefix and fixed window, each kept
    alive for two window lengths after its last hit, and a weighted test on the last two.

    A check carries two clock readings: `clock`, taken by the gateway before it waits for a
    connection, picks the window keys and the weight; `at`, the instant Redis runs the script,
    drives expiry. The f64 weight of the original is exact arithmetic over `real` here. */
module SlidingWindow {
  import opened Wrappers
  import opened Redis
  import opened Arithmetic
  import opened Counting
  import opened SlidingBound

  const U32_MAX: nat := 0xFFFF_FFFF

  type U32 = n: nat | n <= U32_MAX

  datatype Prefix = Global | Account(id: nat)

  datatype Key = Key(prefix: Prefix, window: nat)

  type Counters = Store<Key, int>

  datatype WindowCheckResult =
    WindowCheckResult(allowed: bool, limit: U32, remaining: U32, resetAt: nat)

  // ---------------------------------------------------------------------------
  // The weighted test
  // ---------------------------------------------------------------------------

  function WeightedCount(current: nat, previous: nat, elapsed: nat, length: nat): real {
    if length == 0 then current as real
    else previous as real * (1.0 - elapsed as real / length as real) + current as real
  }

  function Ceil(x: real): int {
    -((-x).Floor)
  }

  /** A float-to-u32 cast saturates at both ends. */
  function ToU32(n: int): U32 {
    if n < 0 then 0 else if n > U32_MAX then U32_MAX else n
  }

  function SaturatingSub(a: U32, b: U32): U32 {
    if b <= a then a - b else 0
  }

  function BuildCheckResult(current: nat, previous: nat, now: nat, length: nat, limit: U32): (r: WindowCheckResult)
    requires length > 0
    ensures r.allowed <==> limit == 0xFFFF_FFFF || Fits(current, previous, now % length, length, limit)
    ensures r.limit == limit && (!r.allowed ==> r.remaining == 0)
    ensures now < r.resetAt && r.resetAt / length == now / length + 1
    ensures forall t :: now <= t < r.resetAt ==> t / length == now / length
  {
    WeightedTest(current, previous, now % length, length, limit);
    NextBoundary(now, length);
    var count := ToU32(Ceil(WeightedCount(current, previous, now % length, length)));
    WindowCheckResult(count <= limit, limit, SaturatingSub(limit, count), (now / length + 1) * length)
  }

  /** The next multiple of `length` is the first instant of the next window. */
  lemma {:induction false} NextBoundary(now: nat, length: nat)
    requires length > 0
    ensures var next := (now / length + 1) * length;
      && now < next && next / length == now / length + 1
      && forall t :: now <= t < next ==> t / length == now / length
  {
    var q := now / length;
    WindowEdges(now, length);
    MulSuccessor(q, length);
    DivIs((q + 1) * length, q + 1, length);
    forall t | now <= t < (q + 1) * length
      ensures t / length == q
    {
      DivIs(t, q, length);
    }
  }

  lemma {:induction false} WeightedTest(current: nat, previous: nat, elapsed: nat, length: nat, limit: nat)
    requires elapsed < length
    ensures Ceil(WeightedCount(current, previous, elapsed, length)) <= limit
       <==> Fits(current, previous, elapsed, length, limit)
  {
    var c, p, e, w, l := current as real, previous as real, elapsed as real, length as real, limit as real;
    var x := WeightedCount(current, previous, elapsed, length);
    assert e / w * w == e;
    assert p * (1.0 - e / w) * w == p * (w - e) by {
      assert (1.0 - e / w) * w == w - e;
      assert p * (1.0 - e / w) * w == p * ((1.0 - e / w) * w);
    }
    assert x * w == p * (w - e) + c * w;
    assert (x <= l) == (x * w <= l * w) by { ScaleOrder(x, l, w); }
    assert p * (w - e) == (previous * (length - elapsed)) as real;
    assert c * w == (current * length) as real && l * w == (limit * length) as real;
    assert Ceil(x) <= limit <==> x <= l;
  }

  lemma {:induction false} ScaleOrder(x: real, y: real, w: real)
    requires w > 0.0
    ensures x <= y <==> x * w <= y * w
  {
    assert x < y ==> x * w < y * w;
    assert y < x ==> y * w < x * w;
  }

  lemma {:induction false} CeilShift(current: nat, previous: nat, elapsed: nat, length: nat, more: nat)
    requires elapsed < length
    ensures Ceil(WeightedCount(current, previous, elapsed, length)) >= 0
    ensures Ceil(WeightedCount(current + more, previous, elapsed, length))
         == Ceil(WeightedCount(current, previous, elapsed, length)) + more
  {
    var x := WeightedCount(current, previous, elapsed, length);
    assert WeightedCount(current + more, previous, elapsed, length) == x + more as real;
    FloorShift(-x, more);
    var overlap := 1.0 - elapsed as real / length as real;
    assert overlap >= 0.0;
    assert previous as real * overlap >= 0.0;
  }

  lemma {:induction false} FloorShift(y: real, more: nat)
    ensures (y - more as real).Floor == y.Floor - more
  {
  }

  /** `remaining` is exactly how many further hits the same second could still take. */
  lemma {:induction false} RemainingIsSlack(current: nat, previous: nat, now: nat, length: nat, limit: U32, more: nat)
    requires length > 0 && limit < U32_MAX
    requires BuildCheckResult(current, previous, now, length, limit).allowed
    ensures BuildCheckResult(current + more, previous, now, length, limit).allowed <==>
      more <= BuildCheckResult(current, previous, now, length, limit).remaining
  {
    CeilShift(current, previous, now % length, length, more);
  }

  // ---------------------------------------------------------------------------
  // The script and the limiter object
  // ---------------------------------------------------------------------------

  function PrevWindow(window: nat): nat {
    if window == 0 then 0 else window - 1
  }

  function Read(counters: Counters, key: Key, at: nat): int {
    match Get(At(counters, key), at) case Some(n) => n case None => 0
  }

  /** The counters after the script, with the two counts it returns. */
  function Script(counters: Counters, prefix: Prefix, window: nat, length: nat, at: nat): (Counters, int, int) {
    var key := Key(prefix, window);
    var bumped := counters[key := Entry(Read(counters, key, at) + 1, Some(at + 2 * length))];
    (bumped, bumped[key].value, Read(bumped, Key(prefix, PrevWindow(window)), at))
  }

  datatype StorageError = RedisError

  /** The reply is decoded as two unsigned counts, so a negative one is a Redis error. */
  function Decide(current: int, previous: int, clock: nat, length: nat, limit: U32): Result<WindowCheckResult, StorageError>
    requires length > 0
  {
    if current < 0 || previous < 0 then Err(RedisError)
    else Ok(BuildCheckResult(current, previous, clock, length, limit))
  }

  /** The gateway's clock reading, the instant Redis runs the command, and whether it can be reached at all. */
  datatype Instant = Instant(clock: nat, at: nat, reachable: bool)

  /** One check: the counters after it, and its result. */
  function Checked(counters: Counters, prefix: Prefix, limit: U32, t: Instant, length: nat): (Counters, Result<WindowCheckResult, StorageError>)
    requires length > 0
  {
    if !t.reachable then (counters, Err(RedisError))
    else
      var (after, current, previous) := Script(counters, prefix, t.clock / length, length, t.at);
      (after, Decide(current, previous, t.clock, length, limit))
  }

  class SlidingWindowLimiter {
    const length: nat
    var counters: Counters

    constructor (length: nat)
      requires length > 0
      ensures this.length == length && counters == map[]
    {
      this.length := length;
      counters := map[];
    }

    method CheckAndIncrement(prefix: Prefix, limit: U32, t: Instant)
      returns (r: Result<WindowCheckResult, StorageError>)
      requires length > 0
      modifies this
      ensures var (after, result) := Checked(old(counters), prefix, limit, t, length);
        counters == after && r == result
      ensures !t.reachable ==> counters == old(counters) && r == Err(RedisError)
    {
      var clock, at := t.clock, t.at;
      var currentWindow := clock / length;
      var currentKey := Key(prefix, currentWindow);
      var prevKey := Key(prefix, PrevWindow(currentWindow));
      if !t.reachable {
        return Err(RedisError);
      }
      var entry := IncrBy(At(counters, currentKey), 1, at);
      counters := counters[currentKey := entry];
      counters := counters[currentKey := Expire(entry, 2 * length, at)];
      var current := counters[currentKey].value;
      var previous := Read(counters, prevKey, at);
      if current < 0 || previous < 0 {
        return Err(RedisError);
      }
      r := Ok(BuildCheckResult(current, previous, clock, length, limit));
    }

    /** Undo one hit of the window that the clock is in now, best effort. */
    method Rollback(prefix: Prefix, t: Instant)
      requires length > 0
      modifies this
      ensures counters == if t.reachable then Undo(old(counters), prefix, t.clock / length, t.at) else old(counters)
    {
      var key := Key(prefix, t.clock / length);
      if t.reachable {
        counters := counters[key := IncrBy(At(counters, key), -1, t.at)];
      }
    }
  }

  /** DECR of one window counter: a live one keeps its expiry, an absent one starts at -1 with none. */
  function Undo(counters: Counters, prefix: Prefix, window: nat, at: nat): Counters {
    var key := Key(prefix, window);
    if Live(At(counters, key), at)
    then counters[key := counters[key].(value := counters[key].value - 1)]
    else counters[key := Entry(-1, None)]
  }

  // ---------------------------------------------------------------------------
  // Expiring counters against never-expiring ones
  // ---------------------------------------------------------------------------

  /** The stored counter of `key`, expired or not, stands for `n`. */
  ghost predicate Tracks(counters: Counters, key: Key, n: int) {
    if key in counters then counters[key].value == n else n == 0
  }

  ghost predicate Unexpired(counters: Counters, key: Key, at: nat) {
    key in counters ==> Live(At(counters, key), at)
  }

  /** Every stored counter outlives the window after its own. */
  ghost predicate Lasting(counters: Counters, length: nat) {
    forall key :: key in counters ==> LastsFor(counters[key], key.window, length)
  }

  ghost predicate LastsFor(entry: Entry<int>, window: nat, length: nat) {
    entry.expiresAt.Some? && entry.expiresAt.value >= (window + 2) * length
  }

  /** A script whose counters have not expired reads what they stand for. */
  lemma {:induction false} ScriptReads(counters: Counters, prefix: Prefix, window: nat, length: nat, at: nat, n: int, m: int)
    requires length > 0
    requires Tracks(counters, Key(prefix, window), n) && Unexpired(counters, Key(prefix, window), at)
    requires Tracks(counters, Key(prefix, PrevWindow(window)), m) && Unexpired(counters, Key(prefix, PrevWindow(window)), at)
    ensures var (after, current, previous) := Script(counters, prefix, window, length, at);
      && current == n + 1
      && previous == (if window == 0 then n + 1 else m)
      && Tracks(after, Key(prefix, window), n + 1)
      && after == counters[Key(prefix, window) := Entry(n + 1, Some(at + 2 * length))]
  {
  }

  lemma {:induction false} WindowEdges(at: nat, length: nat)
    requires length > 0
    ensures at / length * length <= at < (at / length + 1) * length
    ensures (at / length + 2) * length <= at + 2 * length
  {
    DivMod(at, length);
    MulSuccessor(at / length, length);
    MulSuccessor(at / length + 1, length);
  }

  /** The two counters of a script that runs inside its window are alive, if they last. */
  lemma {:induction false} LastingAlive(counters: Counters, prefix: Prefix, window: nat, length: nat, at: nat)
    requires length > 0 && Lasting(counters, length) && at / length <= window + 1
    ensures Unexpired(counters, Key(prefix, window), at)
    ensures at / length <= window ==> Unexpired(counters, Key(prefix, PrevWindow(window)), at)
  {
    WindowEdges(at, length);
    MulMonotone(at / length + 1, window + 2, length);
    if at / length <= window && window > 0 {
      MulMonotone(at / length + 1, window + 1, length);
      assert PrevWindow(window) + 2 == window + 1;
    }
  }

  lemma {:induction false} ScriptLasts(counters: Counters, prefix: Prefix, window: nat, length: nat, at: nat)
    requires length > 0 && Lasting(counters, length) && window <= at / length
    ensures Lasting(Script(counters, prefix, window, length, at).0, length)
  {
    WindowEdges(at, length);
    MulMonotone(window + 2, at / length + 2, length);
  }

  lemma {:induction false} UndoLasts(counters: Counters, prefix: Prefix, window: nat, length: nat, at: nat)
    requires Lasting(counters, length) && Key(prefix, window) in counters && Unexpired(counters, Key(prefix, window), at)
    ensures Lasting(Undo(counters, prefix, window, at), length)
  {
    assert LastsFor(counters[Key(prefix, window)], window, length);
  }

  // ---------------------------------------------------------------------------
  // Runs of checks on any number of prefixes
  // ---------------------------------------------------------------------------

  datatype Check = Check(prefix: Prefix, limit: U32, clock: nat, at: nat)

  datatype Hit =
    Hit(prefix: Prefix, limit: U32, window: nat, elapsed: nat, current: int, previous: int, allowed: bool)

  datatype WindowRun = WindowRun(counters: Counters, hits: seq<Hit>)

  function Perform(s: WindowRun, c: Check, length: nat): WindowRun
    requires length > 0
  {
    var (after, current, previous) := Script(s.counters, c.prefix, c.clock / length, length, c.at);
    var r := Decide(current, previous, c.clock, length, c.limit);
    WindowRun(after, s.hits + [Hit(c.prefix, c.limit, c.clock / length, c.clock % length, current, previous,
                               r.Ok? && r.value.allowed)])
  }

  function Execute(checks: seq<Check>, length: nat): WindowRun
    requires length > 0
  {
    if checks == [] then WindowRun(map[], [])
    else Perform(Execute(checks[..|checks| - 1], length), checks[|checks| - 1], length)
  }

  function Under(key: Key): Hit -> bool {
    (h: Hit) => h.prefix == key.prefix && h.window == key.window
  }

  /** How many checks ever fell under `key`, expired or not. */
  function Attempts(hits: seq<Hit>, key: Key): nat {
    Count(hits, Under(key))
  }

  /** Check `i` read what never-expiring counters would have shown. */
  ghost predicate TrueReads(hits: seq<Hit>, i: nat)
    requires i < |hits|
  {
    var h := hits[i];
    && h.current == Attempts(hits[..i + 1], Key(h.prefix, h.window))
    && h.previous == Attempts(hits[..i + 1], Key(h.prefix, PrevWindow(h.window)))
  }

  ghost predicate AllTrue(hits: seq<Hit>) {
    forall i :: 0 <= i < |hits| ==> TrueReads(hits, i)
  }

  ghost predicate AllowedByRule(h: Hit, length: nat) {
    && h.current >= 0 && h.previous >= 0
    && (h.limit == U32_MAX || Fits(h.current, h.previous, h.elapsed, length, h.limit))
  }

  ghost predicate Records(h: Hit, c: Check, length: nat)
    requires length > 0
  {
    && h.window == c.clock / length && h.elapsed == c.clock % length
    && h.prefix == c.prefix && h.limit == c.limit
    && (h.allowed <==> AllowedByRule(h, length))
  }

  ghost predicate AllRecorded(hits: seq<Hit>, checks: seq<Check>, length: nat)
    requires length > 0
  {
    |hits| == |checks| && forall i :: 0 <= i < |checks| ==> Records(hits[i], checks[i], length)
  }

  lemma {:induction false} RunRecords(checks: seq<Check>, length: nat)
    requires length > 0
    ensures AllRecorded(Execute(checks, length).hits, checks, length)
  {
    if checks != [] {
      var n := |checks| - 1;
      RunRecords(checks[..n], length);
      var s, t := Execute(checks[..n], length), Execute(checks, length);
      forall i | 0 <= i < |checks|
        ensures Records(t.hits[i], checks[i], length)
      {
        assert i < n ==> Records(s.hits[i], checks[..n][i], length);
      }
    }
  }

  // ---------------------------------------------------------------------------
  // Exactly when the reads are true
  // ---------------------------------------------------------------------------

  /** Check `c` finds neither of its two counters expired. */
  ghost predicate FindsAlive(s: WindowRun, c: Check, length: nat)
    requires length > 0
  {
    && Unexpired(s.counters, Key(c.prefix, c.clock / length), c.at)
    && Unexpired(s.counters, Key(c.prefix, PrevWindow(c.clock / length)), c.at)
  }

  /** Every stored counter, expired or not, stands for the checks made under its key; a key never hit has none. */
  ghost predicate Standing(s: WindowRun) {
    forall key :: if key in s.counters then s.counters[key].value == Attempts(s.hits, key) > 0 else Attempts(s.hits, key) == 0
  }

  lemma {:induction false} AttemptsNext(s: WindowRun, c: Check, length: nat, key: Key)
    requires length > 0
    ensures Attempts(Perform(s, c, length).hits, key)
         == Attempts(s.hits, key) + (if key == Key(c.prefix, c.clock / length) then 1 else 0)
  {
    CountAppend(s.hits, Perform(s, c, length).hits[|s.hits|], Under(key));
  }

  /** One check reads true counts if and only if neither of its counters has expired. */
  lemma {:induction false} CheckReadsIff(s: WindowRun, c: Check, length: nat)
    requires length > 0 && Standing(s)
    ensures TrueReads(Perform(s, c, length).hits, |s.hits|) <==> FindsAlive(s, c, length)
  {
    var t, w := Perform(s, c, length), c.clock / length;
    var here, before := Key(c.prefix, w), Key(c.prefix, PrevWindow(w));
    AttemptsNext(s, c, length, here);
    AttemptsNext(s, c, length, before);
    assert t.hits[..|s.hits| + 1] == t.hits;
  }

  lemma {:induction false} CheckKeepsStanding(s: WindowRun, c: Check, length: nat)
    requires length > 0 && Standing(s) && FindsAlive(s, c, length)
    ensures Standing(Perform(s, c, length))
  {
    var t := Perform(s, c, length);
    forall key
      ensures if key in t.counters then t.counters[key].value == Attempts(t.hits, key) > 0 else Attempts(t.hits, key) == 0
    {
      AttemptsNext(s, c, length, key);
    }
  }

  ghost predicate AliveAt(checks: seq<Check>, k: nat, length: nat)
    requires length > 0 && k < |checks|
  {
    FindsAlive(Execute(checks[..k], length), checks[k], length)
  }

  /** No check of the run finds either of its counters expired. */
  ghost predicate NeverExpired(checks: seq<Check>, length: nat)
    requires length > 0
  {
    forall k :: 0 <= k < |checks| ==> AliveAt(checks, k, length)
  }

  lemma {:induction false} AlivePrefix(checks: seq<Check>, n: nat, k: nat, length: nat)
    requires length > 0 && k < n <= |checks|
    ensures AliveAt(checks[..n], k, length) <==> AliveAt(checks, k, length)
  {
    assert checks[..n][..k] == checks[..k];
  }

  lemma {:induction false} NeverExpiredLast(checks: seq<Check>, length: nat)
    requires length > 0 && checks != []
    ensures NeverExpired(checks, length) <==> NeverExpired(checks[..|checks| - 1], length) && AliveAt(checks, |checks| - 1, length)
  {
    var n := |checks| - 1;
    forall k | 0 <= k < n
      ensures AliveAt(checks[..n], k, length) <==> AliveAt(checks, k, length)
    {
      AlivePrefix(checks, n, k, length);
    }
  }

  lemma {:induction false} AllTrueLast(hits: seq<Hit>, h: Hit)
    ensures AllTrue(hits + [h]) <==> AllTrue(hits) && TrueReads(hits + [h], |hits|)
  {
    var all := hits + [h];
    forall i | 0 <= i < |hits|
      ensures TrueReads(all, i) <==> TrueReads(hits, i)
    {
      assert all[..i + 1] == hits[..i + 1];
    }
  }

  /** The expiring counters read like never-expiring ones throughout a run, timely or not, if and only if no check
      of the run finds either of its two counters expired. */
  lemma {:induction false} ReadsTrueIff(checks: seq<Check>, length: nat)
    requires length > 0
    ensures AllTrue(Execute(checks, length).hits) <==> NeverExpired(checks, length)
    ensures NeverExpired(checks, length) ==> Standing(Execute(checks, length))
  {
    if checks != [] {
      var n := |checks| - 1;
      var s := Execute(checks[..n], length);
      var t := Perform(s, checks[n], length);
      ReadsTrueIff(checks[..n], length);
      NeverExpiredLast(checks, length);
      AllTrueLast(s.hits, t.hits[|s.hits|]);
      if NeverExpired(checks[..n], length) {
        CheckReadsIff(s, checks[n], length);
        if FindsAlive(s, checks[n], length) {
          CheckKeepsStanding(s, checks[n], length);
        }
      }
    }
  }

  // ---------------------------------------------------------------------------
  // Two window lengths of TTL are enough for timely runs
  // ---------------------------------------------------------------------------

  /** Redis runs the scripts one after another, each inside the window its gateway computed. */
  ghost predicate Timely(checks: seq<Check>, length: nat)
    requires length > 0
  {
    && (forall i, j :: 0 <= i < j < |checks| ==> checks[i].at <= checks[j].at)
    && (forall i :: 0 <= i < |checks| ==> checks[i].clock / length == checks[i].at / length)
  }

  lemma {:induction false} TimelyCheckLasts(s: WindowRun, c: Check, length: nat)
    requires length > 0 && Lasting(s.counters, length) && c.clock / length == c.at / length
    ensures FindsAlive(s, c, length) && Lasting(Perform(s, c, length).counters, length)
  {
    LastingAlive(s.counters, c.prefix, c.clock / length, length, c.at);
    ScriptLasts(s.counters, c.prefix, c.clock / length, length, c.at);
  }

  lemma {:induction false} TimelyNeverExpired(checks: seq<Check>, length: nat)
    requires length > 0 && Timely(checks, length)
    ensures NeverExpired(checks, length) && Lasting(Execute(checks, length).counters, length)
  {
    if checks != [] {
      var n := |checks| - 1;
      TimelyNeverExpired(checks[..n], length);
      TimelyCheckLasts(Execute(checks[..n], length), checks[n], length);
      NeverExpiredLast(checks, length);
    }
  }

  /** The expiring counters refine never-expiring ones: in every timely run, each script reads the true number of
      checks made so far in its own window and in the one before, and every counter still stands for its checks. */
  lemma {:induction false} ReadsAreTrue(checks: seq<Check>, length: nat)
    requires length > 0 && Timely(checks, length)
    ensures AllTrue(Execute(checks, length).hits)
    ensures var s := Execute(checks, length); forall key :: Tracks(s.counters, key, Attempts(s.hits, key))
    ensures Lasting(Execute(checks, length).counters, length)
  {
    TimelyNeverExpired(checks, length);
    ReadsTrueIff(checks, length);
  }

  /** A script that Redis runs only after the window it was aimed at has ended can find the previous counter expired. */
  lemma {:induction false} LateScriptMissesPrevious()
    ensures var late := [Check(Global, 10, 0, 0), Check(Global, 10, 119, 120)];
      && (forall i, j :: 0 <= i < j < |late| ==> late[i].at <= late[j].at)
      && !NeverExpired(late, 60) && !AllTrue(Execute(late, 60).hits)
  {
    var late := [Check(Global, 10, 0, 0), Check(Global, 10, 119, 120)];
    assert late[..1][..0] == [] && late[..1][0] == late[0];
    assert Execute(late[..1], 60) == Perform(WindowRun(map[], []), late[0], 60);
    assert !AliveAt(late, 1, 60);
    ReadsTrueIff(late, 60);
  }

  /** Late, and yet read truly: expiry decides, not lateness. */
  lemma {:induction false} LateScriptMayReadTrue()
    ensures var late := [Check(Global, 10, 60, 60), Check(Global, 10, 119, 120)];
      !Timely(late, 60) && NeverExpired(late, 60) && AllTrue(Execute(late, 60).hits)
  {
    var late := [Check(Global, 10, 60, 60), Check(Global, 10, 119, 120)];
    assert late[1].clock / 60 != late[1].at / 60;
    assert late[..1][..0] == [] && late[..1][0] == late[0] && late[..0] == [];
    assert Execute(late[..1], 60) == Perform(WindowRun(map[], []), late[0], 60);
    assert AliveAt(late, 0, 60) && AliveAt(late, 1, 60);
    ReadsTrueIff(late, 60);
  }

  // ---------------------------------------------------------------------------
  // Admission bounds
  // ---------------------------------------------------------------------------

  function ToPass(h: Hit, prefix: Prefix): Pass {
    Pass(h.window, h.elapsed, if h.current < 0 then 0 else h.current, if h.previous < 0 then 0 else h.previous,
         h.prefix == prefix && h.allowed)
  }

  /** The checks on `prefix` as passes; those of other prefixes are never kept. */
  function Passes(hits: seq<Hit>, prefix: Prefix): (ps: seq<Pass>)
    ensures |ps| == |hits|
    ensures forall i :: 0 <= i < |hits| ==> ps[i] == ToPass(hits[i], prefix)
  {
    seq(|hits|, i requires 0 <= i < |hits| => ToPass(hits[i], prefix))
  }

  /** Every check on `prefix` used a limit of at most `limit`. */
  ghost predicate LimitedBy(checks: seq<Check>, prefix: Prefix, limit: U32) {
    forall i :: 0 <= i < |checks| && checks[i].prefix == prefix ==> checks[i].limit <= limit
  }

  lemma {:induction false} FitsMonotone(current: nat, previous: nat, elapsed: nat, length: nat, l1: nat, l2: nat)
    requires Fits(current, previous, elapsed, length, l1) && l1 <= l2
    ensures Fits(current, previous, elapsed, length, l2)
  {
    MulMonotone(l1, l2, length);
  }

  /** Redis runs the scripts of `prefix` in the order of the windows they were aimed at. */
  ghost predicate WindowsInOrder(checks: seq<Check>, length: nat, prefix: Prefix)
    requires length > 0
  {
    forall i, j :: 0 <= i < j < |checks| && checks[i].prefix == checks[j].prefix == prefix ==>
      checks[i].clock / length <= checks[j].clock / length
  }

  lemma {:induction false} TimelyInOrder(checks: seq<Check>, length: nat, prefix: Prefix)
    requires length > 0 && Timely(checks, length)
    ensures WindowsInOrder(checks, length, prefix)
  {
    forall i, j | 0 <= i < j < |checks|
      ensures checks[i].clock / length <= checks[j].clock / length
    {
      DivMonotone(checks[i].at, checks[j].at, length);
    }
  }

  /** A hit that was admitted against true counts. */
  lemma {:induction false} HitIsCounted(hits: seq<Hit>, i: nat, length: nat, prefix: Prefix, limit: U32)
    requires i < |hits| && TrueReads(hits, i) && hits[i].allowed && AllowedByRule(hits[i], length)
    requires hits[i].prefix == prefix && hits[i].limit <= limit < U32_MAX
    ensures Counted(Passes(hits, prefix), i, length, limit)
  {
    var ps, h := Passes(hits, prefix), hits[i];
    FitsMonotone(h.current, h.previous, h.elapsed, length, h.limit, limit);
    CountPointwise(ps[..i + 1], InWindow(h.window), hits[..i + 1], Under(Key(prefix, h.window)));
  }

  lemma {:induction false} RunIsDisciplined(checks: seq<Check>, length: nat, prefix: Prefix, limit: U32)
    requires length > 0 && NeverExpired(checks, length) && WindowsInOrder(checks, length, prefix)
    requires LimitedBy(checks, prefix, limit) && limit < U32_MAX
    ensures Disciplined(Passes(Execute(checks, length).hits, prefix), length, limit)
  {
    if checks != [] {
      var n := |checks| - 1;
      NeverExpiredLast(checks, length);
      RunIsDisciplined(checks[..n], length, prefix, limit);
      ReadsTrueIff(checks, length);
      RunRecords(checks, length);
      RunRecords(checks[..n], length);
      var s, t := Execute(checks[..n], length), Execute(checks, length);
      assert Records(t.hits[n], checks[n], length) && TrueReads(t.hits, n);
      assert t.hits == s.hits + [t.hits[n]];
      forall i | 0 <= i < n && s.hits[i].prefix == t.hits[n].prefix == prefix
        ensures s.hits[i].window <= t.hits[n].window
      {
        assert Records(s.hits[i], checks[..n][i], length);
      }
      HitDisciplined(s.hits, t.hits[n], length, prefix, limit);
    }
  }

  /** A new hit that read true counts read at least the passes kept so far. */
  lemma {:induction false} HitCovers(hits: seq<Hit>, h: Hit, prefix: Prefix, w: nat)
    requires h.prefix == prefix
    ensures var all := Attempts(hits + [h], Key(prefix, w));
      Count(Passes(hits, prefix), InWindow(w)) <= (if h.window == w then all - 1 else all)
  {
    CountAppend(hits, h, Under(Key(prefix, w)));
    CountPointwise(Passes(hits, prefix), InWindow(w), hits, Under(Key(prefix, w)));
  }

  /** Adding a hit that read true counts keeps a run disciplined. */
  lemma {:induction false} HitDisciplined(hits: seq<Hit>, h: Hit, length: nat, prefix: Prefix, limit: U32)
    requires Disciplined(Passes(hits, prefix), length, limit)
    requires forall i :: 0 <= i < |hits| && hits[i].prefix == h.prefix == prefix ==> hits[i].window <= h.window
    requires TrueReads(hits + [h], |hits|)
    requires h.allowed ==> AllowedByRule(h, length)
    requires h.prefix == prefix ==> h.limit <= limit < U32_MAX
    ensures Disciplined(Passes(hits + [h], prefix), length, limit)
  {
    var ps, p := Passes(hits, prefix), ToPass(h, prefix);
    assert Passes(hits + [h], prefix) == ps + [p];
    if p.kept {
      assert (hits + [h])[..|hits| + 1] == hits + [h];
      FitsMonotone(h.current, h.previous, h.elapsed, length, h.limit, limit);
      HitCovers(hits, h, prefix, h.window);
      if h.window > 0 {
        HitCovers(hits, h, prefix, h.window - 1);
      }
    }
    DisciplinedAppend(ps, p, length, limit);
  }

  /** Every admitted check was admitted against true counts. */
  lemma {:induction false} RunIsCounted(checks: seq<Check>, length: nat, prefix: Prefix, limit: U32)
    requires length > 0 && NeverExpired(checks, length) && LimitedBy(checks, prefix, limit) && limit < U32_MAX
    ensures AllCounted(Passes(Execute(checks, length).hits, prefix), length, limit)
  {
    RunRecords(checks, length);
    ReadsTrueIff(checks, length);
    var hits := Execute(checks, length).hits;
    var ps := Passes(hits, prefix);
    forall i | 0 <= i < |ps| && ps[i].kept
      ensures Counted(ps, i, length, limit)
    {
      assert Records(hits[i], checks[i], length) && TrueReads(hits, i);
      HitIsCounted(hits, i, length, prefix, limit);
    }
  }

  /** No fixed window ever admits more than the limit, on any prefix that is never rolled back. */
  lemma {:induction false} FixedWindowBound(checks: seq<Check>, length: nat, prefix: Prefix, limit: U32, w: nat)
    requires length > 0 && NeverExpired(checks, length) && LimitedBy(checks, prefix, limit) && limit < U32_MAX
    ensures Count(Passes(Execute(checks, length).hits, prefix), InWindow(w)) <= limit
  {
    RunIsCounted(checks, length, prefix, limit);
    WindowBound(Passes(Execute(checks, length).hits, prefix), length, limit, w);
  }

  /** Any `length` consecutive seconds admit at most twice the limit, in whatever order the windows come. */
  lemma {:induction false} UnorderedSpanBound(checks: seq<Check>, length: nat, prefix: Prefix, limit: U32, from: nat)
    requires length > 0 && NeverExpired(checks, length) && LimitedBy(checks, prefix, limit) && limit < U32_MAX
    ensures Count(Passes(Execute(checks, length).hits, prefix), InSpan(from, length)) <= 2 * limit
  {
    RunIsCounted(checks, length, prefix, limit);
    SpanAtMostTwice(Passes(Execute(checks, length).hits, prefix), length, limit, from);
  }

  /** A check of window 1 that lands after one of window 2. */
  function Crossed(): seq<Check> {
    [Check(Global, 1, 120, 120), Check(Global, 1, 119, 121)]
  }

  lemma {:induction false} CrossedFirst()
    ensures Execute(Crossed()[..1], 60) == WindowRun(map[Key(Global, 2) := Entry(1, Some(240))], [Hit(Global, 1, 2, 0, 1, 0, true)])
  {
    var one := Crossed()[..1];
    assert one[..0] == [] && one[0] == Check(Global, 1, 120, 120);
    assert Execute([], 60) == WindowRun(map[], []);
    assert Execute(one, 60) == Perform(Execute(one[..0], 60), one[0], 60);
    assert Fits(1, 0, 0, 60, 1);
  }

  lemma {:induction false} CrossedSecond()
    ensures Execute(Crossed(), 60).hits == [Hit(Global, 1, 2, 0, 1, 0, true), Hit(Global, 1, 1, 59, 1, 0, true)]
    ensures NeverExpired(Crossed(), 60)
  {
    CrossedFirst();
    var checks := Crossed();
    assert checks[..0] == [];
    assert Execute(checks, 60) == Perform(Execute(checks[..1], 60), checks[1], 60);
    assert Fits(1, 0, 59, 60, 1);
    assert AliveAt(checks, 0, 60) && AliveAt(checks, 1, 60);
  }

  /** Out of order, exactly twice the limit can be reached. */
  lemma {:induction false} UnorderedReachesTwice()
    ensures NeverExpired(Crossed(), 60) && LimitedBy(Crossed(), Global, 1) && !WindowsInOrder(Crossed(), 60, Global)
    ensures Count(Passes(Execute(Crossed(), 60).hits, Global), InSpan(119, 60)) == 2
  {
    CrossedSecond();
    assert Crossed()[0].clock / 60 > Crossed()[1].clock / 60;
    TwoInSpan(Passes(Execute(Crossed(), 60).hits, Global), InSpan(119, 60));
  }

  lemma {:induction false} TwoInSpan(ps: seq<Pass>, p: Pass -> bool)
    requires |ps| == 2 && p(ps[0]) && p(ps[1])
    ensures Count(ps, p) == 2
  {
    assert ps == [ps[0]] + [ps[1]] && [ps[0]] == [] + [ps[0]];
    CountAppend([], ps[0], p);
    CountAppend([ps[0]], ps[1], p);
  }

  /** Any `length` consecutive seconds admit fewer than twice the limit. */
  lemma {:induction false} SlidingSpanBound(checks: seq<Check>, length: nat, prefix: Prefix, limit: U32, from: nat)
    requires length > 0 && NeverExpired(checks, length) && WindowsInOrder(checks, length, prefix)
    requires LimitedBy(checks, prefix, limit) && 0 < limit < U32_MAX
    ensures Count(Passes(Execute(checks, length).hits, prefix), InSpan(from, length)) < 2 * limit
  {
    RunIsDisciplined(checks, length, prefix, limit);
    SpanBelowTwice(Passes(Execute(checks, length).hits, prefix), length, limit, from);
  }

  /** The sharper form: at most limit + a * e / length admissions in a span that ends with check `last`,
      `a` being the admissions of the window before and `e` the seconds elapsed at `last`. */
  lemma {:induction false} SlidingSpanByLast(checks: seq<Check>, length: nat, prefix: Prefix, limit: U32, from: nat, last: nat)
    requires length > 0 && NeverExpired(checks, length) && WindowsInOrder(checks, length, prefix)
    requires LimitedBy(checks, prefix, limit) && limit < U32_MAX
    requires last < |Passes(Execute(checks, length).hits, prefix)|
    requires InSpan(from, length)(Passes(Execute(checks, length).hits, prefix)[last])
    requires var ps := Passes(Execute(checks, length).hits, prefix);
      forall j :: last < j < |ps| ==> !InSpan(from, length)(ps[j])
    ensures var ps := Passes(Execute(checks, length).hits, prefix);
      Count(ps, InSpan(from, length)) * length <= limit * length + KeptBefore(ps, ps[last]) * ps[last].elapsed
  {
    RunIsDisciplined(checks, length, prefix, limit);
    SpanBound(Passes(Execute(checks, length).hits, prefix), length, limit, from, last);
  }

  /** Timely runs have all three bounds. */
  lemma {:induction false} TimelyRunsQualify(checks: seq<Check>, length: nat, prefix: Prefix)
    requires length > 0 && Timely(checks, length)
    ensures NeverExpired(checks, length) && WindowsInOrder(checks, length, prefix)
  {
    TimelyNeverExpired(checks, length);
    TimelyInOrder(checks, length, prefix);
  }

  /** Hit `i`, made by check `c`, was admitted exactly when the checks really made so far fit the limit. */
  ghost predicate DecidedTruly(hits: seq<Hit>, i: nat, c: Check, length: nat)
    requires length > 0 && i < |hits|
  {
    var sofar, w := hits[..i + 1], c.clock / length;
    hits[i].allowed <==>
      || c.limit == U32_MAX
      || Fits(Attempts(sofar, Key(c.prefix, w)), Attempts(sofar, Key(c.prefix, PrevWindow(w))), c.clock % length, length, c.limit)
  }

  /** No under-admission either: a check is admitted if and only if the checks really made so far fit its limit. */
  lemma {:induction false} AdmissionIsExact(checks: seq<Check>, length: nat)
    requires length > 0 && NeverExpired(checks, length)
    ensures |Execute(checks, length).hits| == |checks|
    ensures forall i :: 0 <= i < |checks| ==> DecidedTruly(Execute(checks, length).hits, i, checks[i], length)
  {
    ReadsTrueIff(checks, length);
    RunRecords(checks, length);
    var hits := Execute(checks, length).hits;
    forall i | 0 <= i < |checks|
      ensures DecidedTruly(hits, i, checks[i], length)
    {
      assert Records(hits[i], checks[i], length) && TrueReads(hits, i);
    }
  }

  // ---------------------------------------------------------------------------
  // The limiter object against these runs
  // ---------------------------------------------------------------------------

  /** What one call decides: with both counters alive it answers, and admits if and only if the checks made in this window,
      its own included, and those of the window before fit the limit. */
  lemma {:induction false} CheckedDecides(s: WindowRun, prefix: Prefix, limit: U32, t: Instant, length: nat)
    requires length > 0 && Standing(s) && t.reachable
    requires Unexpired(s.counters, Key(prefix, t.clock / length), t.at)
    requires Unexpired(s.counters, Key(prefix, PrevWindow(t.clock / length)), t.at)
    ensures var (r, w) := (Checked(s.counters, prefix, limit, t, length).1, t.clock / length);
      var here := Attempts(s.hits, Key(prefix, w)) + 1;
      var before := if w == 0 then here else Attempts(s.hits, Key(prefix, w - 1));
      r.Ok? && (r.value.allowed <==> limit == 0xFFFF_FFFF || Fits(here, before, t.clock % length, length, limit))
  {
    var w := t.clock / length;
    var here, before := Key(prefix, w), Key(prefix, PrevWindow(w));
    assert Tracks(s.counters, here, Attempts(s.hits, here)) && Tracks(s.counters, before, Attempts(s.hits, before));
    ScriptReads(s.counters, prefix, w, length, t.at, Attempts(s.hits, here), Attempts(s.hits, before));
  }

  /** The calls of a sequence of checks on one limiter, each answered: the counters they leave and their results. */
  function Calls(checks: seq<Check>, length: nat): (Counters, seq<Result<WindowCheckResult, StorageError>>)
    requires length > 0
  {
    if checks == [] then (map[], [])
    else
      var (counters, results) := Calls(checks[..|checks| - 1], length);
      var c := checks[|checks| - 1];
      var (after, r) := Checked(counters, c.prefix, c.limit, Instant(c.clock, c.at, true), length);
      (after, results + [r])
  }

  predicate Admits(r: Result<WindowCheckResult, StorageError>) {
    r.Ok? && r.value.allowed
  }

  lemma {:induction false} CallIsPerform(s: WindowRun, c: Check, length: nat)
    requires length > 0
    ensures var (after, r) := Checked(s.counters, c.prefix, c.limit, Instant(c.clock, c.at, true), length);
      var t := Perform(s, c, length);
      after == t.counters && |t.hits| == |s.hits| + 1 && t.hits[..|s.hits|] == s.hits && Admits(r) == t.hits[|s.hits|].allowed
  {
  }

  /** The results of any sequence of calls are the admissions of the run, so every bound above is about the limiter. */
  lemma {:induction false} CallsAreExecuted(checks: seq<Check>, length: nat)
    requires length > 0
    ensures var (counters, results) := Calls(checks, length);
      var s := Execute(checks, length);
      && counters == s.counters && |results| == |checks| == |s.hits|
      && forall i :: 0 <= i < |checks| ==> Admits(results[i]) == s.hits[i].allowed
  {
    if checks != [] {
      var n := |checks| - 1;
      CallsAreExecuted(checks[..n], length);
      CallIsPerform(Execute(checks[..n], length), checks[n], length);
      var s, before := Execute(checks, length), Execute(checks[..n], length);
      assert forall i :: 0 <= i < n ==> s.hits[i] == before.hits[i];
    }
  }

  /** For instance: what the calls on one prefix admit in any `length` consecutive seconds. */
  lemma {:induction false} CallsBounded(checks: seq<Check>, length: nat, prefix: Prefix, limit: U32, from: nat)
    requires length > 0 && Timely(checks, length) && LimitedBy(checks, prefix, limit) && 0 < limit < U32_MAX
    ensures Count(Granted(checks, Calls(checks, length).1, length), InGrant(prefix, from, length)) < 2 * limit
  {
    CallsAreExecuted(checks, length);
    TimelyRunsQualify(checks, length, prefix);
    SlidingSpanBound(checks, length, prefix, limit, from);
    RunRecords(checks, length);
    var hits := Execute(checks, length).hits;
    var gs, ps := Granted(checks, Calls(checks, length).1, length), Passes(hits, prefix);
    forall i | 0 <= i < |gs| && InGrant(prefix, from, length)(gs[i])
      ensures InSpan(from, length)(ps[i])
    {
      assert Records(hits[i], checks[i], length);
      DivMod(checks[i].clock, length);
    }
    CountPointwise(gs, InGrant(prefix, from, length), ps, InSpan(from, length));
  }

  /** The clock reading and prefix of a call, and whether it was admitted. */
  datatype Grant = Grant(prefix: Prefix, clock: nat, admitted: bool)

  function Granted(checks: seq<Check>, results: seq<Result<WindowCheckResult, StorageError>>, length: nat): (gs: seq<Grant>)
    ensures |gs| == |checks|
    ensures |results| == |checks| ==>
      forall i :: 0 <= i < |checks| ==> gs[i] == Grant(checks[i].prefix, checks[i].clock, Admits(results[i]))
  {
    seq(|checks|, i requires 0 <= i < |checks| =>
      Grant(checks[i].prefix, checks[i].clock, i < |results| && Admits(results[i])))
  }

  function InGrant(prefix: Prefix, from: nat, length: nat): Grant -> bool {
    (g: Grant) => g.prefix == prefix && g.admitted && from <= g.clock < from + length
  }
}

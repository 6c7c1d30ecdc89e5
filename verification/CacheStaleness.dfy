/** How stale a time-to-live cache in front of shared tables can be. Any number of gateway instances each keep an entry
    for `ttl` seconds from its insertion. A load reads the tables at one or more separate instants; table writes,
    invalidations and other loads, here and elsewhere, may come in between, and an instance need not hear of a write at
    all. Requests that miss while another request of the instance is loading may be handed what it loads. The model follows one cache key and holds for tables `T` and cached values `V` of any kind; `answers` says which
    values a load may produce from the tables it has seen. */
module CacheStaleness {
  /** The tables as seen at one instant. */
  datatype Snapshot<+T> = Snapshot(table: T, at: nat)

  datatype Copy<+T, +V> = Copy(value: V, seen: seq<Snapshot<T>>)

  datatype Cached<+T, +V> = Cached(copy: Copy<T, V>, expiresAt: nat)

  /** A request at work, with what it has read so far. */
  datatype Flight<+T> = Flight(instance: nat, started: nat, seen: seq<Snapshot<T>>)

  datatype Version<+T> = Version(from: nat, table: T)

  /** `loaded`: the request loaded the value itself. */
  datatype Served<+T, +V> = Served(copy: Copy<T, V>, at: nat, loaded: bool)

  datatype World<+T, +V> = World(
    history: seq<Version<T>>, caches: map<nat, Cached<T, V>>, flights: map<nat, Flight<T>>,
    served: seq<Served<T, V>>, now: nat)

  datatype Event<+T, +V> =
    | Write(table: T, at: nat)
    | Begin(f: nat, instance: nat, at: nat)
    | Read(f: nat, at: nat)                 // one query
    | Lookup(f: nat, at: nat)               // a hit serves the request, a miss leaves it to load
    | Fill(f: nat, at: nat, answer: V)      // the loaded value is inserted and served
    | Join(f: nat, k: nat, at: nat)         // handed the value that request number `k` served loaded
    | Drop(instance: nat)                   // invalidation or eviction
    | Abandon(f: nat)                       // the load failed; nothing is cached

  function Start<T, V>(table: T): World<T, V> {
    World([Version(0, table)], map[], map[], [], 0)
  }

  function Current<T, V>(w: World<T, V>): T
    requires w.history != []
  {
    w.history[|w.history| - 1].table
  }

  function Finish<T, V>(w: World<T, V>, f: nat, copy: Copy<T, V>, at: nat, loaded: bool): World<T, V> {
    w.(flights := w.flights - {f}, served := w.served + [Served(copy, at, loaded)], now := at)
  }

  function Step<T, V>(w: World<T, V>, e: Event<T, V>, ttl: nat): World<T, V>
    requires w.history != []
  {
    match e
    case Write(table, at) => w.(history := w.history + [Version(at, table)], now := at)
    case Begin(f, instance, at) =>
      if f in w.flights then w else w.(flights := w.flights[f := Flight(instance, at, [])], now := at)
    case Read(f, at) =>
      if f in w.flights
      then w.(flights := w.flights[f := w.flights[f].(seen := w.flights[f].seen + [Snapshot(Current(w), at)])], now := at)
      else w
    case Lookup(f, at) =>
      if f in w.flights && w.flights[f].instance in w.caches && at < w.caches[w.flights[f].instance].expiresAt
      then Finish(w, f, w.caches[w.flights[f].instance].copy, at, false) else w
    case Fill(f, at, answer) =>
      if f in w.flights then
        var copy := Copy(answer, w.flights[f].seen);
        Finish(w.(caches := w.caches[w.flights[f].instance := Cached(copy, at + ttl)]), f, copy, at, true)
      else w
    case Join(f, k, at) => if f in w.flights && k < |w.served| then Finish(w, f, w.served[k].copy, at, false) else w
    case Drop(instance) => w.(caches := w.caches - {instance})
    case Abandon(f) => w.(flights := w.flights - {f})
  }

  function Run<T, V>(table: T, events: seq<Event<T, V>>, ttl: nat): (w: World<T, V>)
    ensures w.history != []
  {
    if events == [] then Start(table) else Step(Run(table, events[..|events| - 1], ttl), events[|events| - 1], ttl)
  }

  // ---------------------------------------------------------------------------
  // Assumptions on a run
  // ---------------------------------------------------------------------------

  function Tables<T>(seen: seq<Snapshot<T>>): seq<T> {
    seq(|seen|, i requires 0 <= i < |seen| => seen[i].table)
  }

  ghost predicate Within<T, V>(w: World<T, V>, f: nat, at: nat, d: nat) {
    w.now <= at && (f in w.flights ==> at <= w.flights[f].started + d)
  }

  /** Request `f` was waiting when request `k` finished its load. */
  ghost predicate Waited<T, V>(w: World<T, V>, f: nat, k: nat) {
    f in w.flights && k < |w.served| ==> w.served[k].loaded && w.flights[f].started <= w.served[k].at
  }

  /** Time goes forward, no request is at work for more than `d`, what is filled in answers what was read, and only a load
      that ended while a request waited is handed to it. */
  ghost predicate InTime<T(!new), V(!new)>(w: World<T, V>, e: Event<T, V>, d: nat, answers: (seq<T>, V) -> bool) {
    match e
    case Write(_, at) => w.now <= at
    case Begin(_, _, at) => w.now <= at
    case Read(f, at) => Within(w, f, at, d)
    case Lookup(f, at) => Within(w, f, at, d)
    case Fill(f, at, answer) => Within(w, f, at, d) && (f in w.flights ==> answers(Tables(w.flights[f].seen), answer))
    case Join(f, k, at) => Within(w, f, at, d) && Waited(w, f, k)
    case Drop(_) => true
    case Abandon(_) => true
  }

  ghost predicate TimelyRun<T(!new), V(!new)>(table: T, events: seq<Event<T, V>>, ttl: nat, d: nat, answers: (seq<T>, V) -> bool) {
    forall k :: 0 <= k < |events| ==> InTime(Run(table, events[..k], ttl), events[k], d, answers)
  }

  // ---------------------------------------------------------------------------
  // The invariant
  // ---------------------------------------------------------------------------

  /** Version `i` was in force at `t`; at the instant of a write both versions are. */
  ghost predicate InForce<T>(history: seq<Version<T>>, i: int, t: nat) {
    0 <= i < |history| && history[i].from <= t && (i + 1 < |history| ==> t <= history[i + 1].from)
  }

  ghost predicate WasTable<T(!new)>(history: seq<Version<T>>, s: Snapshot<T>) {
    exists i :: InForce(history, i, s.at) && history[i].table == s.table
  }

  ghost predicate SeenOk<T(!new), V(!new)>(w: World<T, V>, seen: seq<Snapshot<T>>) {
    forall i :: 0 <= i < |seen| ==> seen[i].at <= w.now && WasTable(w.history, seen[i])
  }

  ghost predicate NotBefore<T>(seen: seq<Snapshot<T>>, t: int) {
    forall i :: 0 <= i < |seen| ==> t <= seen[i].at
  }

  ghost predicate CopyOk<T(!new), V(!new)>(w: World<T, V>, c: Copy<T, V>, answers: (seq<T>, V) -> bool) {
    SeenOk(w, c.seen) && answers(Tables(c.seen), c.value)
  }

  ghost predicate HistoryOk<T(!new), V(!new)>(w: World<T, V>) {
    w.history != [] && w.history[|w.history| - 1].from <= w.now
  }

  ghost predicate FlightOk<T(!new), V(!new)>(w: World<T, V>, fl: Flight<T>) {
    fl.started <= w.now && SeenOk(w, fl.seen) && NotBefore(fl.seen, fl.started)
  }

  ghost predicate EntryOk<T(!new), V(!new)>(w: World<T, V>, c: Cached<T, V>, age: nat, answers: (seq<T>, V) -> bool) {
    CopyOk(w, c.copy, answers) && NotBefore(c.copy.seen, c.expiresAt - age)
  }

  function Max(a: nat, b: nat): nat {
    if a < b then b else a
  }

  /** How old what a request is served may be: a cached value ttl + d, one handed over by another request 2d. */
  function Age(ttl: nat, d: nat): nat {
    d + Max(ttl, d)
  }

  ghost predicate ServedOk<T(!new), V(!new)>(w: World<T, V>, s: Served<T, V>, ttl: nat, d: nat, answers: (seq<T>, V) -> bool) {
    CopyOk(w, s.copy, answers) && NotBefore(s.copy.seen, s.at - (if s.loaded then d else Age(ttl, d)))
  }

  ghost predicate Inv<T(!new), V(!new)>(w: World<T, V>, ttl: nat, d: nat, answers: (seq<T>, V) -> bool) {
    && HistoryOk(w)
    && (forall i :: i in w.caches ==> EntryOk(w, w.caches[i], ttl + d, answers))
    && (forall f :: f in w.flights ==> FlightOk(w, w.flights[f]))
    && (forall k :: 0 <= k < |w.served| ==> ServedOk(w, w.served[k], ttl, d, answers))
  }

  // ---------------------------------------------------------------------------
  // Preservation
  // ---------------------------------------------------------------------------

  /** Time goes on and at most one version is added, not before now. */
  ghost predicate Later<T(!new), V(!new)>(w: World<T, V>, v: World<T, V>) {
    && w.now <= v.now
    && (v.history == w.history || (|v.history| == |w.history| + 1 && w.history <= v.history && w.now <= v.history[|w.history|].from))
  }

  lemma {:induction false} SeenStays<T(!new), V(!new)>(w: World<T, V>, v: World<T, V>, seen: seq<Snapshot<T>>)
    requires SeenOk(w, seen) && Later(w, v)
    ensures SeenOk(v, seen)
  {
    forall k | 0 <= k < |seen|
      ensures WasTable(v.history, seen[k])
    {
      var i :| InForce(w.history, i, seen[k].at) && w.history[i].table == seen[k].table;
      assert InForce(v.history, i, seen[k].at) && v.history[i].table == seen[k].table;
    }
  }

  lemma {:induction false} FrameKeepsInv<T(!new), V(!new)>(w: World<T, V>, v: World<T, V>, ttl: nat, d: nat, answers: (seq<T>, V) -> bool)
    requires Inv(w, ttl, d, answers) && HistoryOk(v) && Later(w, v)
    requires forall i :: i in v.caches ==> (i in w.caches && v.caches[i] == w.caches[i]) || EntryOk(v, v.caches[i], ttl + d, answers)
    requires forall f :: f in v.flights ==> (f in w.flights && v.flights[f] == w.flights[f]) || FlightOk(v, v.flights[f])
    requires v.served == w.served || exists s :: v.served == w.served + [s] && ServedOk(v, s, ttl, d, answers)
    ensures Inv(v, ttl, d, answers)
  {
    forall i | i in v.caches && i in w.caches && v.caches[i] == w.caches[i]
      ensures EntryOk(v, v.caches[i], ttl + d, answers)
    {
      SeenStays(w, v, w.caches[i].copy.seen);
    }
    forall f | f in v.flights && f in w.flights && v.flights[f] == w.flights[f]
      ensures FlightOk(v, v.flights[f])
    {
      SeenStays(w, v, w.flights[f].seen);
    }
    forall k | 0 <= k < |w.served|
      ensures ServedOk(v, w.served[k], ttl, d, answers)
    {
      SeenStays(w, v, w.served[k].copy.seen);
    }
  }

  lemma {:induction false} WriteStep<T(!new), V(!new)>(w: World<T, V>, e: Event<T, V>, ttl: nat, d: nat, answers: (seq<T>, V) -> bool)
    requires Inv(w, ttl, d, answers) && e.Write? && w.now <= e.at
    ensures Inv(Step(w, e, ttl), ttl, d, answers)
  {
    FrameKeepsInv(w, Step(w, e, ttl), ttl, d, answers);
  }

  lemma {:induction false} BeginStep<T(!new), V(!new)>(w: World<T, V>, e: Event<T, V>, ttl: nat, d: nat, answers: (seq<T>, V) -> bool)
    requires Inv(w, ttl, d, answers) && e.Begin? && w.now <= e.at && e.f !in w.flights
    ensures Inv(Step(w, e, ttl), ttl, d, answers)
  {
    FrameKeepsInv(w, Step(w, e, ttl), ttl, d, answers);
  }

  lemma {:induction false} ReadStep<T(!new), V(!new)>(w: World<T, V>, e: Event<T, V>, ttl: nat, d: nat, answers: (seq<T>, V) -> bool)
    requires Inv(w, ttl, d, answers) && e.Read? && w.now <= e.at && e.f in w.flights
    ensures Inv(Step(w, e, ttl), ttl, d, answers)
  {
    var v := Step(w, e, ttl);
    assert FlightOk(w, w.flights[e.f]);
    SeenStays(w, v, w.flights[e.f].seen);
    var snap := Snapshot(Current(w), e.at);
    assert InForce(v.history, |v.history| - 1, snap.at);
    assert WasTable(v.history, snap);
    FrameKeepsInv(w, v, ttl, d, answers);
  }

  lemma {:induction false} HitStep<T(!new), V(!new)>(w: World<T, V>, e: Event<T, V>, ttl: nat, d: nat, answers: (seq<T>, V) -> bool)
    requires Inv(w, ttl, d, answers) && e.Lookup? && w.now <= e.at && e.f in w.flights
    requires w.flights[e.f].instance in w.caches && e.at < w.caches[w.flights[e.f].instance].expiresAt
    ensures Inv(Step(w, e, ttl), ttl, d, answers)
  {
    var v, c := Step(w, e, ttl), w.caches[w.flights[e.f].instance];
    SeenStays(w, v, c.copy.seen);
    assert ServedOk(v, Served(c.copy, e.at, false), ttl, d, answers);
    assert v.served == w.served + [Served(c.copy, e.at, false)];
    FrameKeepsInv(w, v, ttl, d, answers);
  }

  lemma {:induction false} FillStep<T(!new), V(!new)>(w: World<T, V>, e: Event<T, V>, ttl: nat, d: nat, answers: (seq<T>, V) -> bool)
    requires Inv(w, ttl, d, answers) && e.Fill? && InTime(w, e, d, answers) && e.f in w.flights
    ensures Inv(Step(w, e, ttl), ttl, d, answers)
  {
    var v, fl := Step(w, e, ttl), w.flights[e.f];
    assert FlightOk(w, fl);
    SeenStays(w, v, fl.seen);
    var copy := Copy(e.answer, fl.seen);
    assert NotBefore(copy.seen, e.at - d);
    assert EntryOk(v, Cached(copy, e.at + ttl), ttl + d, answers);
    assert ServedOk(v, Served(copy, e.at, true), ttl, d, answers);
    assert v.served == w.served + [Served(copy, e.at, true)];
    FrameKeepsInv(w, v, ttl, d, answers);
  }

  /** A waiter began before the load ended, so it is served at most `d` after that, and the load took at most `d`. */
  lemma {:induction false} JoinStep<T(!new), V(!new)>(w: World<T, V>, e: Event<T, V>, ttl: nat, d: nat, answers: (seq<T>, V) -> bool)
    requires Inv(w, ttl, d, answers) && e.Join? && InTime(w, e, d, answers) && e.f in w.flights && e.k < |w.served|
    ensures Inv(Step(w, e, ttl), ttl, d, answers)
  {
    var v, load := Step(w, e, ttl), w.served[e.k];
    assert ServedOk(w, load, ttl, d, answers);
    SeenStays(w, v, load.copy.seen);
    assert e.at <= load.at + d;
    assert ServedOk(v, Served(load.copy, e.at, false), ttl, d, answers);
    assert v.served == w.served + [Served(load.copy, e.at, false)];
    FrameKeepsInv(w, v, ttl, d, answers);
  }

  lemma {:induction false} DropStep<T(!new), V(!new)>(w: World<T, V>, e: Event<T, V>, ttl: nat, d: nat, answers: (seq<T>, V) -> bool)
    requires Inv(w, ttl, d, answers) && (e.Drop? || e.Abandon?)
    ensures Inv(Step(w, e, ttl), ttl, d, answers)
  {
    var v := Step(w, e, ttl);
    assert v.history == w.history && v.served == w.served && v.now == w.now;
    FrameKeepsInv(w, v, ttl, d, answers);
  }

  lemma {:induction false} StepKeepsInv<T(!new), V(!new)>(w: World<T, V>, e: Event<T, V>, ttl: nat, d: nat, answers: (seq<T>, V) -> bool)
    requires Inv(w, ttl, d, answers) && InTime(w, e, d, answers)
    ensures Inv(Step(w, e, ttl), ttl, d, answers)
  {
    match e
    case Write(_, _) => WriteStep(w, e, ttl, d, answers);
    case Begin(f, _, _) => if f !in w.flights { BeginStep(w, e, ttl, d, answers); }
    case Read(f, _) => if f in w.flights { ReadStep(w, e, ttl, d, answers); }
    case Lookup(f, at) =>
      if f in w.flights && w.flights[f].instance in w.caches && at < w.caches[w.flights[f].instance].expiresAt {
        HitStep(w, e, ttl, d, answers);
      }
    case Fill(f, _, _) => if f in w.flights { FillStep(w, e, ttl, d, answers); }
    case Join(f, k, _) => if f in w.flights && k < |w.served| { JoinStep(w, e, ttl, d, answers); }
    case Drop(_) => DropStep(w, e, ttl, d, answers);
    case Abandon(_) => DropStep(w, e, ttl, d, answers);
  }

  lemma {:induction false} RunKeepsInv<T(!new), V(!new)>(table: T, events: seq<Event<T, V>>, ttl: nat, d: nat, answers: (seq<T>, V) -> bool)
    requires TimelyRun(table, events, ttl, d, answers)
    ensures Inv(Run(table, events, ttl), ttl, d, answers)
  {
    if events != [] {
      var n := |events| - 1;
      forall k | 0 <= k < n
        ensures InTime(Run(table, events[..n][..k], ttl), events[..n][k], d, answers)
      {
        assert events[..n][..k] == events[..k];
      }
      RunKeepsInv(table, events[..n], ttl, d, answers);
      assert InTime(Run(table, events[..n], ttl), events[n], d, answers);
      StepKeepsInv(Run(table, events[..n], ttl), events[n], ttl, d, answers);
    }
  }

  // ---------------------------------------------------------------------------
  // What every run guarantees
  // ---------------------------------------------------------------------------

  /** Every value served, from the cache, by a load of its own or by joining another's, answers tables that were in force at
      most d + max(ttl, d) seconds before, one instant for each query of the load that produced it. That is ttl + d unless
      a request may take longer than the time to live. */
  lemma {:induction false} ServedIsRecent<T(!new), V(!new)>(table: T, events: seq<Event<T, V>>, ttl: nat, d: nat, answers: (seq<T>, V) -> bool, k: nat)
    requires TimelyRun(table, events, ttl, d, answers) && k < |Run(table, events, ttl).served|
    ensures var w := Run(table, events, ttl); var s := w.served[k];
      && answers(Tables(s.copy.seen), s.copy.value)
      && forall i :: 0 <= i < |s.copy.seen| ==> WasTable(w.history, s.copy.seen[i]) && s.at <= s.copy.seen[i].at + Age(ttl, d)
  {
    RunKeepsInv(table, events, ttl, d, answers);
    assert ServedOk(Run(table, events, ttl), Run(table, events, ttl).served[k], ttl, d, answers);
  }

  /** Every table in force after `t` satisfies `p`. */
  ghost predicate Since<T(!new)>(history: seq<Version<T>>, t: nat, p: T -> bool) {
    forall i :: 0 <= i < |history| && (i + 1 < |history| ==> t < history[i + 1].from) ==> p(history[i].table)
  }

  /** What has been true of the tables since `t` is true of all that was read for a value served later than that age after `t`,
      on every instance, whether or not any invalidation reached it. */
  lemma {:induction false} ChangesArrive<T(!new), V(!new)>(table: T, events: seq<Event<T, V>>, ttl: nat, d: nat, answers: (seq<T>, V) -> bool, k: nat, t: nat, p: T -> bool)
    requires TimelyRun(table, events, ttl, d, answers) && k < |Run(table, events, ttl).served|
    requires Since(Run(table, events, ttl).history, t, p) && Run(table, events, ttl).served[k].at > t + Age(ttl, d)
    ensures var c := Run(table, events, ttl).served[k].copy;
      answers(Tables(c.seen), c.value) && forall i :: 0 <= i < |c.seen| ==> p(Tables(c.seen)[i])
  {
    ServedIsRecent(table, events, ttl, d, answers, k);
    var w := Run(table, events, ttl);
    var seen := w.served[k].copy.seen;
    forall i | 0 <= i < |seen|
      ensures p(seen[i].table)
    {
      assert WasTable(w.history, seen[i]);
      var j :| InForce(w.history, j, seen[i].at) && w.history[j].table == seen[i].table;
      assert j + 1 < |w.history| ==> t < w.history[j + 1].from;
      assert p(w.history[j].table);
    }
  }

  // ---------------------------------------------------------------------------
  // One request by itself
  // ---------------------------------------------------------------------------

  /** A live entry is served as it is; otherwise what is loaded is served and kept for `ttl` from now. */
  lemma {:induction false} RequestAlone<T(!new), V(!new)>(w: World<T, V>, f: nat, instance: nat, at: nat, ttl: nat, answer: V)
    requires w.history != [] && f !in w.flights
    ensures var a := Step(w, Begin(f, instance, at), ttl);
      var hit := Step(a, Lookup(f, at), ttl);
      if instance in w.caches && at < w.caches[instance].expiresAt then
        hit.served == w.served + [Served(w.caches[instance].copy, at, false)] && hit.caches == w.caches && f !in hit.flights
      else
        var b := Step(Step(hit, Read(f, at), ttl), Fill(f, at, answer), ttl);
        var copy := Copy(answer, [Snapshot(Current(w), at)]);
        && b.served == w.served + [Served(copy, at, true)] && b.caches == w.caches[instance := Cached(copy, at + ttl)]
        && f !in b.flights
  {
    var a := Step(w, Begin(f, instance, at), ttl);
    assert a.flights[f] == Flight(instance, at, []);
    var hit := Step(a, Lookup(f, at), ttl);
    if !(instance in w.caches && at < w.caches[instance].expiresAt) {
      assert hit == a && Current(hit) == Current(w);
      assert Step(hit, Read(f, at), ttl).flights[f].seen == [Snapshot(Current(w), at)];
    }
  }
}

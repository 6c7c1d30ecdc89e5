/** How stale a cached key can be. Any number of gateway instances share the Redis tier (L2, 300 seconds) and each
    has its own in-process tier (L1, 60 seconds). A lookup is a sequence of separate reads and writes that other
    lookups, table writes and invalidations may interleave with, and any of its Redis calls may fail. The model
    follows one key id; entries of different ids never meet. */
module KeyStaleness {
  import opened Wrappers
  import opened KeyRecord

  const L1_TTL: nat := 60
  const L2_TTL: nat := 300

  /** A row together with the instant it was read from the database. */
  datatype Copy = Copy(row: KeyRow, asOf: nat)

  datatype Cached = Cached(copy: Copy, expiresAt: nat)

  /** What a lookup in progress has learnt so far. */
  datatype Stage = MissedL1 | MissedL2 | FoundL2(copy: Copy) | Loaded(copy: Copy) | FilledL1(copy: Copy)

  datatype Flight = Flight(instance: nat, started: nat, stage: Stage)

  /** A row of the key from some instant on, until the next version. */
  datatype Version = Version(from: nat, row: Option<KeyRow>)

  /** A row handed to a request. */
  datatype Served = Served(copy: Copy, at: nat)

  datatype World = World(
    history: seq<Version>, l1: map<nat, Cached>, l2: Option<Cached>, flights: map<nat, Flight>, served: seq<Served>, now: nat)

  datatype Write = Register(row: KeyRow) | Revoke | Touch(at: int)

  datatype Event =
    | WriteRow(write: Write, at: nat)
    | Start(f: nat, instance: nat, at: nat)      // reads L1
    | ReadL2(f: nat, at: nat, answered: bool)
    | ReadTable(f: nat, at: nat)
    | FillL1(f: nat, at: nat)
    | FillL2(f: nat, at: nat, answered: bool)
    | DropL1(instance: nat)                      // invalidation or eviction
    | DropL2                                     // invalidation; a failed one is no event
    | Abandon(f: nat)

  function Current(w: World): Option<KeyRow> {
    if w.history == [] then None else w.history[|w.history| - 1].row
  }

  /** What each table write makes of the row. There is no way back from revoked. */
  function Apply(row: Option<KeyRow>, write: Write): Option<KeyRow> {
    match write
    case Register(input) => if row.None? then Some(input.(status := Active)) else row
    case Revoke => if row.Some? then Some(row.value.(status := Revoked)) else None
    case Touch(at) => if row.Some? then Some(row.value.(lastUsed := Some(at))) else None
  }

  function Begin(): World {
    World([Version(0, None)], map[], None, map[], [], 0)
  }

  function Advance(w: World, f: nat, stage: Stage, at: nat): World
    requires f in w.flights
  {
    w.(flights := w.flights[f := w.flights[f].(stage := stage)], now := at)
  }

  function Finish(w: World, f: nat, copy: Copy, at: nat): World {
    w.(flights := w.flights - {f}, served := w.served + [Served(copy, at)], now := at)
  }

  function Step(w: World, e: Event): World {
    match e
    case WriteRow(write, at) =>
      w.(history := w.history + [Version(at, Apply(Current(w), write))], now := at)
    case Start(f, instance, at) =>
      if f in w.flights then w
      else if instance in w.l1 && at < w.l1[instance].expiresAt then Finish(w, f, w.l1[instance].copy, at)
      else w.(flights := w.flights[f := Flight(instance, at, MissedL1)], now := at)
    case ReadL2(f, at, answered) =>
      if f in w.flights && w.flights[f].stage.MissedL1? then
        if answered && w.l2.Some? && at < w.l2.value.expiresAt then Advance(w, f, FoundL2(w.l2.value.copy), at)
        else Advance(w, f, MissedL2, at)
      else w
    case ReadTable(f, at) =>
      if f in w.flights && w.flights[f].stage.MissedL2? then
        match Current(w)
        case Some(row) => Advance(w, f, Loaded(Copy(row, at)), at)
        case None => w.(flights := w.flights - {f}, now := at)
      else w
    case FillL1(f, at) =>
      if f in w.flights then
        match w.flights[f].stage
        case FoundL2(copy) =>
          Finish(w.(l1 := w.l1[w.flights[f].instance := Cached(copy, at + L1_TTL)]), f, copy, at)
        case Loaded(copy) =>
          Advance(w.(l1 := w.l1[w.flights[f].instance := Cached(copy, at + L1_TTL)]), f, FilledL1(copy), at)
        case _ => w
      else w
    case FillL2(f, at, answered) =>
      if f in w.flights && w.flights[f].stage.FilledL1? then
        var copy := w.flights[f].stage.copy;
        Finish(if answered then w.(l2 := Some(Cached(copy, at + L2_TTL))) else w, f, copy, at)
      else w
    case DropL1(instance) => w.(l1 := w.l1 - {instance})
    case DropL2 => w.(l2 := None)
    case Abandon(f) => w.(flights := w.flights - {f})
  }

  function Run(events: seq<Event>): World {
    if events == [] then Begin() else Step(Run(events[..|events| - 1]), events[|events| - 1])
  }

  // ---------------------------------------------------------------------------
  // Timing assumption
  // ---------------------------------------------------------------------------

  /** Time does not run backwards and no lookup is still at work more than `d` after it began. */
  ghost predicate InTime(w: World, e: Event, d: nat) {
    match e
    case WriteRow(_, at) => w.now <= at
    case Start(_, _, at) => w.now <= at
    case ReadL2(f, at, _) => w.now <= at && WithinLookup(w, f, at, d)
    case ReadTable(f, at) => w.now <= at && WithinLookup(w, f, at, d)
    case FillL1(f, at) => w.now <= at && WithinLookup(w, f, at, d)
    case FillL2(f, at, _) => w.now <= at && WithinLookup(w, f, at, d)
    case _ => true
  }

  ghost predicate WithinLookup(w: World, f: nat, at: nat, d: nat) {
    f in w.flights ==> at <= w.flights[f].started + d
  }

  ghost predicate TimelyRun(events: seq<Event>, d: nat) {
    forall k :: 0 <= k < |events| ==> InTime(Run(events[..k]), events[k], d)
  }

  // ---------------------------------------------------------------------------
  // The invariant
  // ---------------------------------------------------------------------------

  /** `row` was the row of the key at instant `t`. */
  ghost predicate WasRow(history: seq<Version>, t: nat, row: KeyRow) {
    exists i :: InForce(history, i, t) && history[i].row == Some(row)
  }

  /** Version `i` was in force at `t`; at the instant of a write both versions are. */
  ghost predicate InForce(history: seq<Version>, i: int, t: nat) {
    0 <= i < |history| && history[i].from <= t && (i + 1 < |history| ==> t <= history[i + 1].from)
  }

  ghost predicate CopyOk(w: World, c: Copy) {
    c.asOf <= w.now && WasRow(w.history, c.asOf, c.row)
  }

  ghost predicate FlightOk(w: World, fl: Flight, d: nat) {
    && fl.started <= w.now
    && match fl.stage
       case FoundL2(c) => CopyOk(w, c) && fl.started < c.asOf + d + L2_TTL
       case Loaded(c) => CopyOk(w, c) && fl.started <= c.asOf
       case FilledL1(c) => CopyOk(w, c) && fl.started <= c.asOf
       case _ => true
  }

  ghost predicate HistoryOk(w: World) {
    && w.history != []
    && (forall i, j :: 0 <= i < j < |w.history| ==> w.history[i].from <= w.history[j].from)
    && w.history[|w.history| - 1].from <= w.now
  }

  function Staleness(d: nat): nat {
    L1_TTL + L2_TTL + 2 * d
  }

  ghost predicate ServedOk(w: World, s: Served, d: nat) {
    CopyOk(w, s.copy) && s.copy.asOf <= s.at <= s.copy.asOf + Staleness(d)
  }

  ghost predicate Inv(w: World, d: nat) {
    && HistoryOk(w)
    && (forall i :: i in w.l1 ==> CopyOk(w, w.l1[i].copy) && w.l1[i].expiresAt <= w.l1[i].copy.asOf + Staleness(d))
    && (w.l2.Some? ==> CopyOk(w, w.l2.value.copy) && w.l2.value.expiresAt <= w.l2.value.copy.asOf + d + L2_TTL)
    && (forall f :: f in w.flights ==> FlightOk(w, w.flights[f], d))
    && (forall k :: 0 <= k < |w.served| ==> ServedOk(w, w.served[k], d))
  }

  // ---------------------------------------------------------------------------
  // Preservation
  // ---------------------------------------------------------------------------

  /** Later versions and later instants do not change what was true. */
  lemma {:induction false} CopyStays(w: World, v: World, c: Copy)
    requires CopyOk(w, c) && w.now <= v.now
    requires v.history == w.history || exists x :: v.history == w.history + [x] && w.now <= x.from
    ensures CopyOk(v, c)
  {
    var i :| InForce(w.history, i, c.asOf) && w.history[i].row == Some(c.row);
    assert InForce(v.history, i, c.asOf) && v.history[i].row == Some(c.row);
  }

  /** A step that adds at most one version, and whose new entries, flights and servings are all in order. */
  lemma {:induction false} FrameKeepsInv(w: World, v: World, d: nat)
    requires Inv(w, d) && HistoryOk(v) && w.now <= v.now
    requires v.history == w.history || exists x :: v.history == w.history + [x] && w.now <= x.from
    requires forall i :: i in v.l1 ==>
      (i in w.l1 && v.l1[i] == w.l1[i]) || (CopyOk(v, v.l1[i].copy) && v.l1[i].expiresAt <= v.l1[i].copy.asOf + Staleness(d))
    requires v.l2 == w.l2 || (v.l2.Some? ==> CopyOk(v, v.l2.value.copy) && v.l2.value.expiresAt <= v.l2.value.copy.asOf + d + L2_TTL)
    requires forall f :: f in v.flights ==> (f in w.flights && v.flights[f] == w.flights[f]) || FlightOk(v, v.flights[f], d)
    requires v.served == w.served || exists s :: v.served == w.served + [s] && ServedOk(v, s, d)
    ensures Inv(v, d)
  {
    forall i | i in v.l1 && i in w.l1 && v.l1[i] == w.l1[i]
      ensures CopyOk(v, v.l1[i].copy)
    {
      CopyStays(w, v, w.l1[i].copy);
    }
    if v.l2 == w.l2 && w.l2.Some? {
      CopyStays(w, v, w.l2.value.copy);
    }
    forall f | f in v.flights && f in w.flights && v.flights[f] == w.flights[f]
      ensures FlightOk(v, v.flights[f], d)
    {
      FlightStays(w, v, w.flights[f], d);
    }
    forall k | 0 <= k < |w.served|
      ensures ServedOk(v, w.served[k], d)
    {
      CopyStays(w, v, w.served[k].copy);
    }
  }

  lemma {:induction false} FlightStays(w: World, v: World, fl: Flight, d: nat)
    requires FlightOk(w, fl, d) && w.now <= v.now
    requires v.history == w.history || exists x :: v.history == w.history + [x] && w.now <= x.from
    ensures FlightOk(v, fl, d)
  {
    match fl.stage
    case FoundL2(c) => CopyStays(w, v, c);
    case Loaded(c) => CopyStays(w, v, c);
    case FilledL1(c) => CopyStays(w, v, c);
    case _ =>
  }

  lemma {:induction false} WriteStep(w: World, e: Event, d: nat)
    requires Inv(w, d) && e.WriteRow? && w.now <= e.at
    ensures Inv(Step(w, e), d)
  {
    FrameKeepsInv(w, Step(w, e), d);
  }

  lemma {:induction false} StartStep(w: World, e: Event, d: nat)
    requires Inv(w, d) && e.Start? && w.now <= e.at && e.f !in w.flights
    ensures Inv(Step(w, e), d)
  {
    var v := Step(w, e);
    if e.instance in w.l1 && e.at < w.l1[e.instance].expiresAt {
      CopyStays(w, v, w.l1[e.instance].copy);
      assert v.served == w.served + [Served(w.l1[e.instance].copy, e.at)];
    }
    FrameKeepsInv(w, v, d);
  }

  lemma {:induction false} ReadL2Step(w: World, e: Event, d: nat)
    requires Inv(w, d) && e.ReadL2? && InTime(w, e, d) && e.f in w.flights && w.flights[e.f].stage.MissedL1?
    ensures Inv(Step(w, e), d)
  {
    var v := Step(w, e);
    assert FlightOk(w, w.flights[e.f], d);
    if e.answered && w.l2.Some? && e.at < w.l2.value.expiresAt {
      CopyStays(w, v, w.l2.value.copy);
    }
    FrameKeepsInv(w, v, d);
  }

  lemma {:induction false} ReadTableStep(w: World, e: Event, d: nat)
    requires Inv(w, d) && e.ReadTable? && InTime(w, e, d) && e.f in w.flights && w.flights[e.f].stage.MissedL2?
    ensures Inv(Step(w, e), d)
  {
    var v := Step(w, e);
    assert FlightOk(w, w.flights[e.f], d);
    if Current(w).Some? {
      assert InForce(v.history, |v.history| - 1, e.at);
    }
    FrameKeepsInv(w, v, d);
  }

  lemma {:induction false} FillFromL2Step(w: World, e: Event, d: nat)
    requires Inv(w, d) && e.FillL1? && InTime(w, e, d) && e.f in w.flights && w.flights[e.f].stage.FoundL2?
    ensures Inv(Step(w, e), d)
  {
    var v, fl := Step(w, e), w.flights[e.f];
    var c := fl.stage.copy;
    assert FlightOk(w, fl, d);
    CopyStays(w, v, c);
    assert ServedOk(v, Served(c, e.at), d);
    assert v.served == w.served + [Served(c, e.at)];
    assert v.flights == w.flights - {e.f} && v.l1 == w.l1[fl.instance := Cached(c, e.at + L1_TTL)];
    FrameKeepsInv(w, v, d);
  }

  lemma {:induction false} FillLoadedStep(w: World, e: Event, d: nat)
    requires Inv(w, d) && e.FillL1? && InTime(w, e, d) && e.f in w.flights && w.flights[e.f].stage.Loaded?
    ensures Inv(Step(w, e), d)
  {
    var v, fl := Step(w, e), w.flights[e.f];
    var c := fl.stage.copy;
    assert FlightOk(w, fl, d);
    CopyStays(w, v, c);
    assert v.flights == w.flights[e.f := fl.(stage := FilledL1(c))] && FlightOk(v, v.flights[e.f], d);
    assert v.l1 == w.l1[fl.instance := Cached(c, e.at + L1_TTL)] && v.served == w.served;
    FrameKeepsInv(w, v, d);
  }

  lemma {:induction false} FillL2Step(w: World, e: Event, d: nat)
    requires Inv(w, d) && e.FillL2? && InTime(w, e, d) && e.f in w.flights && w.flights[e.f].stage.FilledL1?
    ensures Inv(Step(w, e), d)
  {
    var v, c := Step(w, e), w.flights[e.f].stage.copy;
    assert FlightOk(w, w.flights[e.f], d);
    CopyStays(w, v, c);
    assert v.served == w.served + [Served(c, e.at)];
    FrameKeepsInv(w, v, d);
  }

  lemma {:induction false} DropStep(w: World, e: Event, d: nat)
    requires Inv(w, d) && (e.DropL1? || e.DropL2? || e.Abandon?)
    ensures Inv(Step(w, e), d)
  {
    var v := Step(w, e);
    assert v.history == w.history && v.served == w.served && v.now == w.now;
    assert v.l2 == w.l2 || v.l2.None?;
    FrameKeepsInv(w, v, d);
  }

  /** An event about a lookup that is not at that stage changes nothing. */
  predicate Applies(w: World, e: Event) {
    match e
    case Start(f, _, _) => f !in w.flights
    case ReadL2(f, _, _) => f in w.flights && w.flights[f].stage.MissedL1?
    case ReadTable(f, _) => f in w.flights && w.flights[f].stage.MissedL2?
    case FillL1(f, _) => f in w.flights && (w.flights[f].stage.FoundL2? || w.flights[f].stage.Loaded?)
    case FillL2(f, _, _) => f in w.flights && w.flights[f].stage.FilledL1?
    case _ => true
  }

  lemma {:induction false} OtherwiseIdle(w: World, e: Event)
    requires !Applies(w, e)
    ensures Step(w, e) == w
  {
  }

  lemma {:induction false} StepKeepsInv(w: World, e: Event, d: nat)
    requires Inv(w, d) && InTime(w, e, d)
    ensures Inv(Step(w, e), d)
  {
    if !Applies(w, e) {
      OtherwiseIdle(w, e);
      return;
    }
    match e
    case WriteRow(_, _) => WriteStep(w, e, d);
    case Start(_, _, _) => StartStep(w, e, d);
    case ReadL2(_, _, _) => ReadL2Step(w, e, d);
    case ReadTable(_, _) => ReadTableStep(w, e, d);
    case FillL1(f, _) => if w.flights[f].stage.FoundL2? { FillFromL2Step(w, e, d); } else { FillLoadedStep(w, e, d); }
    case FillL2(_, _, _) => FillL2Step(w, e, d);
    case DropL1(_) => DropStep(w, e, d);
    case DropL2 => DropStep(w, e, d);
    case Abandon(_) => DropStep(w, e, d);
  }

  lemma {:induction false} RunKeepsInv(events: seq<Event>, d: nat)
    requires TimelyRun(events, d)
    ensures Inv(Run(events), d)
  {
    if events != [] {
      var n := |events| - 1;
      forall k | 0 <= k < n
        ensures InTime(Run(events[..n][..k]), events[..n][k], d)
      {
        assert events[..n][..k] == events[..k];
      }
      RunKeepsInv(events[..n], d);
      assert InTime(Run(events[..n]), events[n], d);
      StepKeepsInv(Run(events[..n]), events[n], d);
    }
  }

  // ---------------------------------------------------------------------------
  // What every run guarantees
  // ---------------------------------------------------------------------------

  /** Whatever the interleaving and whichever invalidations fail, every row served was the row of the key in the
      database at some instant no more than 60 + 300 + 2d seconds before it was served. */
  lemma {:induction false} ServedRowsAreRecent(events: seq<Event>, d: nat, k: nat)
    requires TimelyRun(events, d) && k < |Run(events).served|
    ensures var s := Run(events).served[k];
      && WasRow(Run(events).history, s.copy.asOf, s.copy.row)
      && s.copy.asOf <= s.at <= s.copy.asOf + 60 + 300 + 2 * d
  {
    RunKeepsInv(events, d);
    assert ServedOk(Run(events), Run(events).served[k], d);
  }

  ghost predicate IsRevoked(v: Version) {
    v.row.Some? && v.row.value.status == Revoked
  }

  /** The row history only grows, and no write takes a row out of revoked. */
  lemma {:induction false} HistoryGrows(w: World, e: Event)
    ensures w.history <= Step(w, e).history && |Step(w, e).history| <= |w.history| + 1
    ensures |Step(w, e).history| > |w.history| > 0 && IsRevoked(w.history[|w.history| - 1]) ==> IsRevoked(Step(w, e).history[|w.history|])
  {
    if e.WriteRow? {
      assert Step(w, e).history == w.history + [Version(e.at, Apply(Current(w), e.write))];
    } else {
      assert Step(w, e).history == w.history;
    }
  }

  /** Revoked is terminal in the table. */
  lemma {:induction false} RevokedIsTerminal(events: seq<Event>, i: nat, j: nat)
    requires i <= j < |Run(events).history| && IsRevoked(Run(events).history[i])
    ensures IsRevoked(Run(events).history[j])
  {
    if events != [] {
      var n := |events| - 1;
      var w, h := Run(events[..n]), Run(events).history;
      HistoryGrows(w, events[n]);
      if i < |w.history| {
        RevokedIsTerminal(events[..n], i, if j < |w.history| then j else |w.history| - 1);
      }
    }
  }

  /** So a revoked key is refused by every instance once 60 + 300 + 2d seconds have passed, even if no
      invalidation ever succeeded. */
  lemma {:induction false} RevokedRefusedEverywhere(events: seq<Event>, d: nat, i: nat, k: nat, now: int)
    requires TimelyRun(events, d) && i < |Run(events).history| && IsRevoked(Run(events).history[i])
    requires k < |Run(events).served| && Run(events).served[k].at > Run(events).history[i].from + 60 + 300 + 2 * d
    ensures !Usable(Run(events).served[k].copy.row, now)
  {
    RunKeepsInv(events, d);
    var w := Run(events);
    var s := w.served[k];
    assert ServedOk(w, s, d);
    var j :| InForce(w.history, j, s.copy.asOf) && w.history[j].row == Some(s.copy.row);
    assert j >= i;
    RevokedIsTerminal(events, i, j);
  }

  // ---------------------------------------------------------------------------
  // One write, and one lookup by itself
  // ---------------------------------------------------------------------------

  /** A revocation revokes: with its key in the table, the version it writes is revoked, and nothing else of it changes.
      Registration stores a new key as active, and never replaces one; use touches only the timestamp. */
  lemma {:induction false} WritesTakeEffect(row: Option<KeyRow>, input: KeyRow, at: int)
    ensures row.Some? ==> Apply(row, Revoke) == Some(row.value.(status := Revoked))
    ensures row.Some? ==> Apply(row, Register(input)) == row
    ensures row.Some? ==> Apply(row, Touch(at)).Some? && SameKey(Apply(row, Touch(at)).value, row.value)
    ensures row.None? ==> Apply(row, Register(input)) == Some(input.(status := Active))
    ensures row.None? ==> Apply(row, Revoke).None? && Apply(row, Touch(at)).None?
  {
  }

  function RunOn(w: World, events: seq<Event>): World {
    if events == [] then w else Step(RunOn(w, events[..|events| - 1]), events[|events| - 1])
  }

  lemma {:induction false} RunSplits(events: seq<Event>, more: seq<Event>)
    ensures Run(events + more) == RunOn(Run(events), more)
  {
    if more == [] {
      assert events + more == events;
    } else {
      var n := |more| - 1;
      RunSplits(events, more[..n]);
      assert (events + more)[..|events| + n] == events + more[..n];
    }
  }

  lemma {:induction false} HistoryExtends(w: World, events: seq<Event>)
    ensures w.history <= RunOn(w, events).history
  {
    if events != [] {
      HistoryExtends(w, events[..|events| - 1]);
      HistoryGrows(RunOn(w, events[..|events| - 1]), events[|events| - 1]);
    }
  }

  /** From the write of the admin to the refusal everywhere: whatever came before, once an existing key is revoked at
      `at`, every row served more than 60 + 300 + 2d seconds later is unusable. */
  lemma {:induction false} RevocationTakesHold(before: seq<Event>, at: nat, after: seq<Event>, d: nat, k: nat, now: int)
    requires Current(Run(before)).Some?
    requires TimelyRun(before + [WriteRow(Revoke, at)] + after, d)
    requires k < |Run(before + [WriteRow(Revoke, at)] + after).served|
    requires Run(before + [WriteRow(Revoke, at)] + after).served[k].at > at + 60 + 300 + 2 * d
    ensures !Usable(Run(before + [WriteRow(Revoke, at)] + after).served[k].copy.row, now)
  {
    var upto := before + [WriteRow(Revoke, at)];
    assert upto[..|before|] == before;
    var w, i := Run(upto), |Run(before).history|;
    assert w.history == Run(before).history + [Version(at, Apply(Current(Run(before)), Revoke))];
    RunSplits(upto, after);
    HistoryExtends(w, after);
    RevokedRefusedEverywhere(upto + after, d, i, k, now);
  }

  /** The steps of a lookup with nothing in between and every reply arriving. */
  function Lookup(w: World, f: nat, instance: nat, at: nat): World {
    var a := Step(w, Start(f, instance, at));
    var b := Step(a, ReadL2(f, at, true));
    var c := Step(b, ReadTable(f, at));
    Step(Step(c, FillL1(f, at)), FillL2(f, at, true))
  }

  /** It serves the live entry of its own instance, else the live shared entry, else the row in the table, and leaves what
      it served in its own tier for 60 seconds from now, and a row from the table in the shared one for 300. */
  lemma {:induction false} LookupAlone(w: World, f: nat, instance: nat, at: nat)
    requires f !in w.flights
    ensures var v := Lookup(w, f, instance, at);
      if instance in w.l1 && at < w.l1[instance].expiresAt then
        v.served == w.served + [Served(w.l1[instance].copy, at)] && v.l1 == w.l1 && v.l2 == w.l2
      else if w.l2.Some? && at < w.l2.value.expiresAt then
        && v.served == w.served + [Served(w.l2.value.copy, at)]
        && v.l1 == w.l1[instance := Cached(w.l2.value.copy, at + 60)] && v.l2 == w.l2
      else if Current(w).Some? then
        var copy := Copy(Current(w).value, at);
        && v.served == w.served + [Served(copy, at)]
        && v.l1 == w.l1[instance := Cached(copy, at + 60)] && v.l2 == Some(Cached(copy, at + 300))
      else v.served == w.served && v.l1 == w.l1 && v.l2 == w.l2
  {
    var a := Step(w, Start(f, instance, at));
    var b := Step(a, ReadL2(f, at, true));
    var c := Step(b, ReadTable(f, at));
    if instance in w.l1 && at < w.l1[instance].expiresAt {
      assert f !in a.flights && b == a && c == a;
    } else if w.l2.Some? && at < w.l2.value.expiresAt {
      assert b.flights[f].stage == FoundL2(w.l2.value.copy) && c == b;
    } else if Current(w).Some? {
      assert c.flights[f].stage == Loaded(Copy(Current(w).value, at));
    } else {
      assert f !in c.flights;
    }
  }
}

/** What the two-window weighting buys, independently of how the counters are kept.
    A run of window checks is a sequence of passes; every kept pass met the weighted test
    against counters at least as large as the kept passes they should cover. From that alone,
    any span of one window length holds fewer than twice the limit. */
module SlidingBound {
  import opened Arithmetic
  import opened Counting

  /** One window check: where it fell, the two counters it read, and whether it is counted. */
  datatype Pass = Pass(window: nat, elapsed: nat, current: nat, previous: nat, kept: bool)

  function InWindow(w: nat): Pass -> bool {
    (p: Pass) => p.kept && p.window == w
  }

  function Time(p: Pass, length: nat): nat {
    p.window * length + p.elapsed
  }

  /** Kept passes in the span of one window length that starts at `from`. */
  function InSpan(from: nat, length: nat): Pass -> bool {
    (p: Pass) => p.kept && from <= Time(p, length) < from + length
  }

  /** current + previous * (1 - elapsed / length) <= limit, over the integers. */
  predicate Fits(current: nat, previous: nat, elapsed: nat, length: nat, limit: nat) {
    elapsed < length && current * length + previous * (length - elapsed) <= limit * length
  }

  /** Pass `i` met the test against a current counter that covers the kept passes of its window so far. */
  ghost predicate Counted(ps: seq<Pass>, i: nat, length: nat, limit: nat)
    requires i < |ps|
  {
    var p := ps[i];
    Fits(p.current, p.previous, p.elapsed, length, limit) && Count(ps[..i + 1], InWindow(p.window)) <= p.current
  }

  ghost predicate AllCounted(ps: seq<Pass>, length: nat, limit: nat) {
    forall i :: 0 <= i < |ps| && ps[i].kept ==> Counted(ps, i, length, limit)
  }

  ghost predicate PassOk(ps: seq<Pass>, i: nat, length: nat, limit: nat)
    requires i < |ps|
  {
    var p := ps[i];
    && Counted(ps, i, length, limit)
    && (p.window > 0 ==> Count(ps, InWindow(p.window - 1)) <= p.previous)
  }

  ghost predicate Disciplined(ps: seq<Pass>, length: nat, limit: nat) {
    && (forall i, j :: 0 <= i < j < |ps| && ps[i].kept && ps[j].kept ==> ps[i].window <= ps[j].window)
    && (forall i :: 0 <= i < |ps| && ps[i].kept ==> PassOk(ps, i, length, limit))
  }

  lemma {:induction false} DisciplinedCounted(ps: seq<Pass>, length: nat, limit: nat)
    requires Disciplined(ps, length, limit)
    ensures AllCounted(ps, length, limit)
  {
    forall i | 0 <= i < |ps| && ps[i].kept
      ensures Counted(ps, i, length, limit)
    {
      assert PassOk(ps, i, length, limit);
    }
  }

  lemma {:induction false} FitsUnderLimit(current: nat, previous: nat, elapsed: nat, length: nat, limit: nat)
    requires Fits(current, previous, elapsed, length, limit)
    ensures current <= limit
  {
    assert previous * (length - elapsed) >= 0;
    MulCancel(current, limit, length);
  }

  /** A fixed window never holds more kept passes than the limit, in whatever order the windows come. */
  lemma {:induction false} WindowBound(ps: seq<Pass>, length: nat, limit: nat, w: nat)
    requires AllCounted(ps, length, limit)
    ensures Count(ps, InWindow(w)) <= limit
  {
    if Count(ps, InWindow(w)) > 0 {
      var i := CountLast(ps, InWindow(w));
      assert Counted(ps, i, length, limit);
      FitsUnderLimit(ps[i].current, ps[i].previous, ps[i].elapsed, length, limit);
    }
  }

  /** A span of one window length meets at most two windows. */
  lemma {:induction false} SpanCases(p: Pass, from: nat, length: nat)
    requires length > 0 && p.elapsed < length
    ensures from <= Time(p, length) < from + length <==>
      || (p.window == from / length && p.elapsed >= from % length)
      || (p.window == from / length + 1 && p.elapsed < from % length)
  {
    var q, s := from / length, from % length;
    DivMod(from, length);
    MulSuccessor(p.window, length);
    MulSuccessor(q, length);
    MulSuccessor(q + 1, length);
    if p.window < q {
      MulMonotone(p.window + 1, q, length);
    } else if p.window > q + 1 {
      MulMonotone(q + 2, p.window, length);
    }
  }

  function LatePart(q: nat, s: nat): Pass -> bool {
    (p: Pass) => p.kept && p.window == q && p.elapsed >= s
  }

  function EarlyPart(q: nat, s: nat): Pass -> bool {
    (p: Pass) => p.kept && p.window == q + 1 && p.elapsed < s
  }

  lemma {:induction false} SpanSplit(ps: seq<Pass>, length: nat, limit: nat, from: nat)
    requires length > 0 && AllCounted(ps, length, limit)
    ensures var late, early := LatePart(from / length, from % length), EarlyPart(from / length, from % length);
      && (forall p :: p in ps ==> (InSpan(from, length)(p) <==> late(p) || early(p)))
      && Count(ps, InSpan(from, length)) == Count(ps, late) + Count(ps, early)
  {
    var late, early := LatePart(from / length, from % length), EarlyPart(from / length, from % length);
    forall p | p in ps
      ensures InSpan(from, length)(p) <==> late(p) || early(p)
    {
      if p.kept {
        var i :| 0 <= i < |ps| && ps[i] == p;
        assert Counted(ps, i, length, limit);
        SpanCases(p, from, length);
      }
    }
    CountSplit(ps, InSpan(from, length), late, early);
  }

  /** In whatever order the windows come, a span meets two of them, so it holds at most twice the limit. */
  lemma {:induction false} SpanAtMostTwice(ps: seq<Pass>, length: nat, limit: nat, from: nat)
    requires length > 0 && AllCounted(ps, length, limit)
    ensures Count(ps, InSpan(from, length)) <= 2 * limit
  {
    var q, s := from / length, from % length;
    SpanSplit(ps, length, limit, from);
    CountPointwise(ps, LatePart(q, s), ps, InWindow(q));
    CountPointwise(ps, EarlyPart(q, s), ps, InWindow(q + 1));
    WindowBound(ps, length, limit, q);
    WindowBound(ps, length, limit, q + 1);
  }

  /** The kept passes just before the window of `p`. */
  function KeptBefore(ps: seq<Pass>, p: Pass): nat {
    if p.window == 0 then 0 else Count(ps, InWindow(p.window - 1))
  }

  /** A span ending in pass `last` holds at most limit + a * e / length kept passes, where `a`
      counts the window before `last` and `e` is how far into its own window `last` fell. */
  lemma {:induction false} SpanBound(ps: seq<Pass>, length: nat, limit: nat, from: nat, last: nat)
    requires length > 0 && Disciplined(ps, length, limit)
    requires last < |ps| && InSpan(from, length)(ps[last])
    requires forall j :: last < j < |ps| ==> !InSpan(from, length)(ps[j])
    ensures Count(ps, InSpan(from, length)) * length
         <= limit * length + KeptBefore(ps, ps[last]) * ps[last].elapsed
  {
    DisciplinedCounted(ps, length, limit);
    SpanSplit(ps, length, limit, from);
    forall j | last < j < |ps|
      ensures !EarlyPart(from / length, from % length)(ps[j])
    {
      assert ps[j] in ps;
    }
    assert ps[last] in ps;
    SpanBoundParts(ps, length, limit, from / length, from % length, last);
  }

  lemma {:induction false} SpanBoundParts(ps: seq<Pass>, length: nat, limit: nat, q: nat, s: nat, last: nat)
    requires length > 0 && Disciplined(ps, length, limit)
    requires last < |ps| && (LatePart(q, s)(ps[last]) || EarlyPart(q, s)(ps[last]))
    requires forall j :: last < j < |ps| ==> !EarlyPart(q, s)(ps[j])
    ensures (Count(ps, LatePart(q, s)) + Count(ps, EarlyPart(q, s))) * length
         <= limit * length + KeptBefore(ps, ps[last]) * ps[last].elapsed
  {
    var p := ps[last];
    var late, early := Count(ps, LatePart(q, s)), Count(ps, EarlyPart(q, s));
    CountPointwise(ps, LatePart(q, s), ps, InWindow(q));
    if EarlyPart(q, s)(p) {
      if early > 0 {
        var i := CountLast(ps, EarlyPart(q, s));
        assert i == last;
        CountPointwise(ps[..i + 1], EarlyPart(q, s), ps[..i + 1], InWindow(q + 1));
      }
      assert PassOk(ps, last, length, limit);
      TwoWindows(late, early, KeptBefore(ps, p), p, length, limit);
    } else {
      forall x | x in ps
        ensures !EarlyPart(q, s)(x)
      {
        var i :| 0 <= i < |ps| && ps[i] == x;
        assert i < last && ps[i].kept ==> ps[i].window <= ps[last].window;
      }
      CountEmpty(ps, EarlyPart(q, s));
      DisciplinedCounted(ps, length, limit);
      WindowBound(ps, length, limit, q);
      OneWindow(late, KeptBefore(ps, p), p, length, limit);
    }
  }

  lemma {:induction false} OneWindow(late: nat, before: nat, p: Pass, length: nat, limit: nat)
    requires late <= limit
    ensures late * length <= limit * length + before * p.elapsed
  {
    MulMonotone(late, limit, length);
    assert before * p.elapsed >= 0;
  }

  lemma {:induction false} TwoWindows(late: nat, early: nat, before: nat, p: Pass, length: nat, limit: nat)
    requires Fits(p.current, p.previous, p.elapsed, length, limit)
    requires early <= p.current && late <= before <= p.previous
    ensures (late + early) * length <= limit * length + before * p.elapsed
  {
    MulMonotone(early, p.current, length);
    MulMonotone(before, p.previous, length - p.elapsed);
    MulMonotone(late, before, length);
    assert before * (length - p.elapsed) == before * length - before * p.elapsed;
    assert (late + early) * length == late * length + early * length;
  }

  /** Any span of one window length holds strictly fewer than twice the limit. */
  lemma {:induction false} SpanBelowTwice(ps: seq<Pass>, length: nat, limit: nat, from: nat)
    requires length > 0 && limit > 0 && Disciplined(ps, length, limit)
    ensures Count(ps, InSpan(from, length)) < 2 * limit
  {
    if Count(ps, InSpan(from, length)) > 0 {
      var last := CountLast(ps, InSpan(from, length));
      SpanBound(ps, length, limit, from, last);
      var p := ps[last];
      if p.window > 0 {
        DisciplinedCounted(ps, length, limit);
        WindowBound(ps, length, limit, p.window - 1);
      }
      assert PassOk(ps, last, length, limit);
      BelowTwice(Count(ps, InSpan(from, length)), KeptBefore(ps, p), p.elapsed, length, limit);
    }
  }

  lemma {:induction false} BelowTwice(n: nat, before: nat, elapsed: nat, length: nat, limit: nat)
    requires elapsed < length && limit > 0 && before <= limit
    requires n * length <= limit * length + before * elapsed
    ensures n < 2 * limit
  {
    MulMonotone(before, limit, elapsed);
    MulMonotone(elapsed + 1, length, limit);
    MulSuccessor(elapsed, limit);
    assert limit * elapsed == elapsed * limit && limit * length == length * limit;
    assert 2 * limit * length == limit * length + limit * length;
    if n >= 2 * limit {
      MulMonotone(2 * limit, n, length);
    }
  }

  // ---------------------------------------------------------------------------
  // Building a disciplined run
  // ---------------------------------------------------------------------------

  /** A pass made after all others, against counters covering the kept passes so far. */
  lemma {:induction false} DisciplinedAppend(ps: seq<Pass>, p: Pass, length: nat, limit: nat)
    requires Disciplined(ps, length, limit)
    requires p.kept ==> forall i :: 0 <= i < |ps| && ps[i].kept ==> ps[i].window <= p.window
    requires p.kept ==> Fits(p.current, p.previous, p.elapsed, length, limit)
    requires p.kept ==> Count(ps, InWindow(p.window)) < p.current && KeptBefore(ps, p) <= p.previous
    ensures Disciplined(ps + [p], length, limit)
  {
    var qs := ps + [p];
    forall i | 0 <= i < |qs| && qs[i].kept
      ensures PassOk(qs, i, length, limit)
    {
      CountAppend(ps, p, InWindow(qs[i].window));
      if qs[i].window > 0 {
        CountAppend(ps, p, InWindow(qs[i].window - 1));
      }
      if i < |ps| {
        assert PassOk(ps, i, length, limit);
        assert qs[..i + 1] == ps[..i + 1];
      } else {
        assert qs[..i + 1] == qs;
      }
    }
  }

  /** Ceasing to keep a pass. */
  lemma {:induction false} DisciplinedDrop(ps: seq<Pass>, k: nat, length: nat, limit: nat)
    requires k < |ps| && Disciplined(ps, length, limit)
    ensures Disciplined(ps[k := ps[k].(kept := false)], length, limit)
  {
    var qs := ps[k := ps[k].(kept := false)];
    forall i | 0 <= i < |qs| && qs[i].kept
      ensures PassOk(qs, i, length, limit)
    {
      assert PassOk(ps, i, length, limit);
      CountPointwise(qs[..i + 1], InWindow(qs[i].window), ps[..i + 1], InWindow(qs[i].window));
      if qs[i].window > 0 {
        CountPointwise(qs, InWindow(qs[i].window - 1), ps, InWindow(qs[i].window - 1));
      }
    }
  }
}

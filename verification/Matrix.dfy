/** The range functions at one instant and over a grid: which samples each form sees,
    and when they give the same values. */
module Matrix {
  import opened Sorting
  import opened Wrappers
  import opened IngestBuffer
  import opened Counter
  import opened EvalGrid

  /** A timestamp as the SQL literal has it: the epoch when chrono cannot represent it. */
  function SqlLiteral(us: int): int { if Representable(us) then us else 0 }

  /** The samples from `lo` to `hi`, both included. */
  function Between(ps: Points, lo: int, hi: int): Points
  {
    if ps == [] then [] else (if lo <= ps[0].0 <= hi then [ps[0]] else []) + Between(ps[1..], lo, hi)
  }

  predicate Earlier(a: (int, real), b: (int, real)) { a.0 < b.0 }

  /** ORDER BY timestamp. */
  function ByTime(ps: Points): Points { StableSort(ps, Earlier) }

  /** The window of an instant query, closed at both ends. */
  function InstantWindow(ps: Points, t: int, range: int): Points
  {
    ByTime(Between(ps, SqlLiteral(Validate.Wrap64(t - range)), SqlLiteral(t)))
  }

  /** The window of one evaluation in a matrix query: open below, and only of samples
      that pass the filter over the whole query. */
  function MatrixWindow(ps: Points, t: int, range: int, start: int, end: int): Points
  {
    ByTime(Between(Between(ps, SqlLiteral(SaturatingSub(start, range)), SqlLiteral(end)), t - range + 1, t))
  }

  function ValueAt(t: int, o: Option<real>): Points
  {
    match o
    case None => []
    case Some(v) => [(t, v)]
  }

  function MatrixSeries(op: RangeFnOp, ps: Points, range: int, start: int, end: int, evals: seq<int>): Points
  {
    if evals == [] then []
    else
      ValueAt(evals[0], RangeFn(op, MatrixWindow(ps, evals[0], range, start, end)))
      + MatrixSeries(op, ps, range, start, end, evals[1..])
  }

  function InstantSeries(op: RangeFnOp, ps: Points, range: int, evals: seq<int>): Points
  {
    if evals == [] then []
    else ValueAt(evals[0], RangeFn(op, InstantWindow(ps, evals[0], range))) + InstantSeries(op, ps, range, evals[1..])
  }

  // ---------- what each form sees ----------

  predicate InstantSees(us: int, t: int, range: int)
  {
    SqlLiteral(Validate.Wrap64(t - range)) <= us <= SqlLiteral(t)
  }

  predicate PassesFilter(us: int, range: int, start: int, end: int)
  {
    SqlLiteral(SaturatingSub(start, range)) <= us <= SqlLiteral(end)
  }

  predicate MatrixSees(us: int, t: int, range: int, start: int, end: int)
  {
    PassesFilter(us, range, start, end) && t - range < us <= t
  }

  lemma {:induction false} BetweenHas(ps: Points, lo: int, hi: int, p: (int, real))
    ensures p in Between(ps, lo, hi) <==> p in ps && lo <= p.0 <= hi
  {
    if ps != [] {
      BetweenHas(ps[1..], lo, hi, p);
      assert ps == [ps[0]] + ps[1..];
    }
  }

  lemma ByTimeHas(ps: Points, p: (int, real))
    ensures p in ByTime(ps) <==> p in ps
  {
    SortPermutes(ps, Earlier);
    assert p in multiset(ByTime(ps)) <==> p in multiset(ps);
  }

  lemma InstantHas(ps: Points, t: int, range: int, p: (int, real))
    ensures p in InstantWindow(ps, t, range) <==> p in ps && InstantSees(p.0, t, range)
  {
    var lo, hi := SqlLiteral(Validate.Wrap64(t - range)), SqlLiteral(t);
    hide ByTime, Between;
    BetweenHas(ps, lo, hi, p);
    ByTimeHas(Between(ps, lo, hi), p);
  }

  lemma MatrixHas(ps: Points, t: int, range: int, start: int, end: int, p: (int, real))
    ensures p in MatrixWindow(ps, t, range, start, end) <==> p in ps && MatrixSees(p.0, t, range, start, end)
  {
    var lo, hi := SqlLiteral(SaturatingSub(start, range)), SqlLiteral(end);
    hide ByTime, Between;
    BetweenHas(ps, lo, hi, p);
    BetweenHas(Between(ps, lo, hi), t - range + 1, t, p);
    ByTimeHas(Between(Between(ps, lo, hi), t - range + 1, t), p);
  }

  /** Filtering twice is filtering once, where that comes to the same for the samples
      there are. */
  lemma {:induction false} SameFilter(ps: Points, lo: int, hi: int, a: int, b: int, c: int, d: int)
    requires forall p :: p in ps ==> (lo <= p.0 <= hi && a <= p.0 <= b <==> c <= p.0 <= d)
    ensures Between(Between(ps, lo, hi), a, b) == Between(ps, c, d)
  {
    if ps != [] {
      assert ps == [ps[0]] + ps[1..];
      assert ps[0] in ps;
      SameFilter(ps[1..], lo, hi, a, b, c, d);
      var rest := Between(ps[1..], lo, hi);
      assert ([ps[0]] + rest)[1..] == rest && [] + rest == rest;
    }
  }

  // ---------- the filter over the whole query ----------

  /** The samples of an evaluation before any filter. */
  function Unfiltered(ps: Points, t: int, range: int): Points { ByTime(Between(ps, t - range + 1, t)) }

  /** The filter over the whole query drops no sample an evaluation needs, whatever the
      samples are, exactly when its literals enclose the window: where chrono cannot
      represent an end of the query its literal is the epoch, and they need not. */
  lemma {:induction false} PrefilterDropsNothing(t: int, range: nat, start: int, end: int)
    ensures (forall ps :: MatrixWindow(ps, t, range, start, end) == Unfiltered(ps, t, range))
      <==> range == 0 || (SqlLiteral(SaturatingSub(start, range)) <= t - range + 1 && t <= SqlLiteral(end))
  {
    var lo, hi := SqlLiteral(SaturatingSub(start, range)), SqlLiteral(end);
    if range == 0 || (lo <= t - range + 1 && t <= hi) {
      forall ps ensures MatrixWindow(ps, t, range, start, end) == Unfiltered(ps, t, range) {
        SameFilter(ps, lo, hi, t - range + 1, t, t - range + 1, t);
      }
    } else {
      SampleDropped(t, range, start, end, if lo <= t - range + 1 then t else t - range + 1);
    }
  }

  lemma SampleDropped(t: int, range: nat, start: int, end: int, us: int)
    requires t - range < us <= t && !PassesFilter(us, range, start, end)
    ensures MatrixWindow([(us, 0.0)], t, range, start, end) != Unfiltered([(us, 0.0)], t, range)
  {
    hide PassesFilter, ByTime, Between, MatrixWindow;
    var p := (us, 0.0);
    MatrixHas([p], t, range, start, end, p);
    BetweenHas([p], t - range + 1, t, p);
    ByTimeHas(Between([p], t - range + 1, t), p);
  }

  // ---------- one evaluation ----------

  /** The two windows are the same exactly when both forms see the same samples. */
  lemma {:induction false} WindowsAgreeIff(ps: Points, t: int, range: int, start: int, end: int)
    ensures MatrixWindow(ps, t, range, start, end) == InstantWindow(ps, t, range)
      <==> forall p :: p in ps ==> (MatrixSees(p.0, t, range, start, end) <==> InstantSees(p.0, t, range))
  {
    if MatrixWindow(ps, t, range, start, end) == InstantWindow(ps, t, range) {
      hide MatrixWindow, InstantWindow, MatrixSees, InstantSees;
      forall p | p in ps ensures MatrixSees(p.0, t, range, start, end) <==> InstantSees(p.0, t, range) {
        MatrixHas(ps, t, range, start, end, p);
        InstantHas(ps, t, range, p);
      }
    } else if forall p :: p in ps ==> (MatrixSees(p.0, t, range, start, end) <==> InstantSees(p.0, t, range)) {
      hide SqlLiteral, Between, ByTime;
      SameFilter(ps, SqlLiteral(SaturatingSub(start, range)), SqlLiteral(end), t - range + 1, t,
                 SqlLiteral(Validate.Wrap64(t - range)), SqlLiteral(t));
    }
  }

  /** Both ends of the query, with its range, can be written as literals. */
  predicate Writable(start: int, end: int, range: int)
  {
    range >= 0 && IsI64(start) && IsI64(end) && Representable(SaturatingSub(start, range)) && Representable(end)
  }

  /** With ends that can be written, the forms differ at one timestamp only: the sample
      exactly one range before the evaluation. */
  lemma SeenAlikeIff(us: int, t: int, range: int, start: int, end: int)
    requires Writable(start, end, range) && start <= t <= end
    ensures (MatrixSees(us, t, range, start, end) <==> InstantSees(us, t, range)) <==> us != t - range
  {
    assert SaturatingSub(start, range) == start - range;
    assert (start - range) / US_PER_DAY <= (t - range) / US_PER_DAY <= t / US_PER_DAY <= end / US_PER_DAY;
    assert Validate.Wrap64(t - range) == t - range;
  }

  // ---------- the whole query ----------

  /** At evaluation `t` both forms see the same samples of the series. */
  ghost predicate SeenAlike(ps: Points, t: int, range: int, start: int, end: int)
  {
    forall p :: p in ps ==> (MatrixSees(p.0, t, range, start, end) <==> InstantSees(p.0, t, range))
  }

  lemma {:induction false} SeriesAgree(op: RangeFnOp, ps: Points, range: int, start: int, end: int, evals: seq<int>)
    requires forall i :: 0 <= i < |evals| ==> SeenAlike(ps, evals[i], range, start, end)
    ensures MatrixSeries(op, ps, range, start, end, evals) == InstantSeries(op, ps, range, evals)
  {
    if evals != [] {
      hide MatrixWindow, InstantWindow, RangeFn, MatrixSees, InstantSees;
      WindowsAgreeIff(ps, evals[0], range, start, end);
      SeriesAgree(op, ps, range, start, end, evals[1..]);
    }
  }

  /** The matrix query gives at every grid point what an instant query gives there, for
      every request and every series of which both forms see the same samples at each
      grid point. */
  lemma {:induction false} MatrixIsInstant(op: RangeFnOp, ps: Points, range: int, start: int, end: int, step: int)
    requires step > 0
    requires forall k: nat :: k < GridCount(start, end, step) ==> SeenAlike(ps, GridPoint(start, step, k), range, start, end)
    ensures var evals := GridPoints(start, step, GridCount(start, end, step));
      MatrixSeries(op, ps, range, start, end, evals) == InstantSeries(op, ps, range, evals)
  {
    hide GridCount, GridPoint, SeenAlike;
    SeriesAgree(op, ps, range, start, end, GridPoints(start, step, GridCount(start, end, step)));
  }

  /** Where the ends can be written that is so as long as no sample lies exactly one
      range before a grid point. */
  lemma {:induction false} MatrixIsInstantOffEdges(op: RangeFnOp, ps: Points, range: int, start: int, end: int, step: int)
    requires Writable(start, end, range) && step > 0 && start <= end
    requires forall k: nat, p :: k < GridCount(start, end, step) && p in ps ==> p.0 != GridPoint(start, step, k) - range
    ensures var evals := GridPoints(start, step, GridCount(start, end, step));
      MatrixSeries(op, ps, range, start, end, evals) == InstantSeries(op, ps, range, evals)
  {
    forall k: nat | k < GridCount(start, end, step) ensures SeenAlike(ps, GridPoint(start, step, k), range, start, end) {
      CountAtMost(start, end, step, k);
      assert k * step >= 0;
      hide GridCount, GridPoint, MatrixSees, InstantSees;
      forall p | p in ps {
        SeenAlikeIff(p.0, GridPoint(start, step, k), range, start, end);
      }
    }
    MatrixIsInstant(op, ps, range, start, end, step);
  }

  lemma WritableEdges(t: int, range: int)
    requires Writable(t, t, range)
    ensures SqlLiteral(SaturatingSub(t, range)) == t - range == SqlLiteral(Validate.Wrap64(t - range)) && SqlLiteral(t) == t
  {
  }

  lemma EdgeFilters(p: (int, real), q: (int, real))
    requires p.0 < q.0
    ensures Between([p, q], p.0, q.0) == [p, q] && Between([p, q], p.0 + 1, q.0) == [q]
  {
    assert [p, q][1..] == [q] && |[q][1..]| == 0;
    assert Between([q], p.0, q.0) == [q] && Between([q], p.0 + 1, q.0) == [q];
  }

  lemma TwoInOrder(p: (int, real), q: (int, real))
    requires p.0 < q.0
    ensures ByTime([p, q]) == [p, q] && ByTime([q]) == [q]
  {
    SortOfSorted([p, q], Earlier);
    SortOfSorted([q], Earlier);
  }

  /** With a sample there they may differ: the instant query sees two samples and
      answers, the matrix query sees one and does not. */
  lemma EdgeSampleDiffers(t: int, range: int, v: real)
    requires Writable(t, t, range) && range > 0 && v > 0.0
    ensures var ps := [(t - range, 0.0), (t, v)];
      && RangeFn(Increase, InstantWindow(ps, t, range)) == Some(v)
      && RangeFn(Increase, MatrixWindow(ps, t, range, t, t)) == None
  {
    var ps: Points := [(t - range, 0.0), (t, v)];
    WritableEdges(t, range);
    EdgeFilters(ps[0], ps[1]);
    TwoInOrder(ps[0], ps[1]);
    hide Between, ByTime, SqlLiteral;
    assert InstantWindow(ps, t, range) == ps;
    assert MatrixWindow(ps, t, range, t, t) == [(t, v)];
    assert ps[..1] == [(t - range, 0.0)];
    TotalDeltaStep(ps);
    TotalDeltaOne(ps[..1]);
  }
}

/** Two edges that read alike under a quantile over `bottomk`: the range query and the
    instant query meet the tied buckets in different orders and answer differently. */
module QuantileWitness {
  import opened Orders
  import opened Wrappers
  import opened Sorting
  import opened Vectors
  import opened Quantile
  import opened StringKeys
  import opened TopK
  import opened TopKRange
  import opened Histogram
  import opened FiniteAnswers
  import opened RangeLifting
  import opened RangeWitness

  const ONE: Labels := map["le" := "1"]
  const ONE_ZERO: Labels := map["le" := "1.0"]

  function Few(t: int): InstantPoint { InstantPoint("", ONE, t, 3.0) }

  function Many(t: int): InstantPoint { InstantPoint("", ONE_ZERO, t, 10.0) }

  function Tied(t: int): seq<RangePoints> { [AsRange(Few(t)), AsRange(Many(t))] }

  const BOTTOM: Expr := TopKOf(2, false, NoModifier, Leaf(0))

  /** `histogram_quantile(0.5, bottomk(2, m * 1))` over the points of `m * 1`. */
  const MEDIAN: Expr := QuantileOf(0.5, BOTTOM)

  /** Both labels read as 1, and their series keys sort as strings do. */
  ghost predicate TiedEdges(cx: Ctx)
  {
    && Orderly(cx) && cx.st(SeriesKey(cx.st, "", ONE_ZERO), SeriesKey(cx.st, "", ONE))
    && cx.parse("1") == Some(Fin(1.0)) && cx.parse("1.0") == Some(Fin(1.0))
  }

  lemma TiedSlice(t: int)
    ensures Slice(Tied(t), t) == [Few(t), Many(t)] && OneTime(Tied(t), t)
  {
    var ss := Tied(t);
    assert ss[1..] == [AsRange(Many(t))];
    SliceOne(AsRange(Many(t)), t);
    assert [(t, 3.0)][1..] == [] && [(t, 10.0)][1..] == [];
    assert At([(t, 3.0)], t) == [3.0] && At([(t, 10.0)], t) == [10.0];
  }

  lemma TiedGood(t: int)
    ensures GoodVector(Tied(t))
  {
    assert ONE["le"] != ONE_ZERO["le"];
  }

  lemma BothSurvive(t: int)
    ensures Cut([Few(t), Many(t)], 2, false) == [Few(t), Many(t)]
  {
    SortOfSorted([Few(t), Many(t)], Ranks(false));
    RankedIsSort([Few(t), Many(t)], false);
  }

  /** The inner operator lists the smaller value first. */
  lemma BottomInstant(cx: Ctx, t: int)
    requires StrictTotal(cx.lt)
    ensures TopKInstant(cx.lt, [Few(t), Many(t)], 2, false, NoModifier) == [Few(t), Many(t)]
  {
    hide *;
    var pts := [Few(t), Many(t)];
    WholeGroup(Few(t), Many(t));
    SortedOne<Labels>(cx.lt, map[]);
    BothSurvive(t);
    TopKInstantIs(cx, pts, 2, false, NoModifier);
    TopKOfOneGroup(pts, 2, false, NoModifier, map[]);
  }

  lemma TiedTotal(cx: Ctx)
    requires TiedEdges(cx)
    ensures Orderly(cx) && StrictTotal(cx.lt) && StrictTotal(cx.st)
  {
    hide StrictTotal;
  }

  /** Collected by series key, the larger comes first. */
  lemma BottomRange(cx: Ctx, t: int)
    requires TiedEdges(cx)
    ensures Orderly(cx)
    ensures Slice(TopKRangeVector(cx.lt, cx.st, Tied(t), 2, false, NoModifier), t) == [Many(t), Few(t)]
  {
    TiedTotal(cx);
    TiedSlice(t);
    PushesShow(cx, Tied(t), 2, false, NoModifier, t);
    BottomInstant(cx, t);
    hide StrictTotal, Pushes, SeriesKey, Collect, Slice, TopKInstant, OneTime;
    CollectSwaps(cx.st, Many(t), Few(t));
  }

  lemma OneEdge(parse: ParseLe, p: InstantPoint)
    requires parse("1") == Some(Fin(1.0)) && parse("1.0") == Some(Fin(1.0)) && p.labels in {ONE, ONE_ZERO}
    ensures BucketIn(parse, p, map[]) == [(Fin(1.0), p.value)]
    ensures EdgeOf(parse, p.labels).Some? && WithoutLe(p.labels) == map[]
  {
  }

  lemma TiedBuckets(parse: ParseLe, p: InstantPoint, q: InstantPoint)
    requires parse("1") == Some(Fin(1.0)) && parse("1.0") == Some(Fin(1.0))
    requires p.labels in {ONE, ONE_ZERO} && q.labels in {ONE, ONE_ZERO}
    ensures Buckets(parse, [p, q], map[]) == [(Fin(1.0), p.value), (Fin(1.0), q.value)]
    ensures HistKeys(parse, [p, q]) == {map[]}
  {
    OneEdge(parse, p);
    OneEdge(parse, q);
    hide BucketIn, EdgeOf, WithoutLe;
    assert [p, q][1..] == [q] && |[q][1..]| == 0;
    assert Buckets(parse, [q], map[]) == BucketIn(parse, q, map[]) + [];
    assert p in [p, q];
  }

  /** The median of two buckets at edge 1, in the order they come. */
  lemma TiedMedian(a: real, b: real, c: nat)
    requires a > 0.0 && b > 0.0 && CrossesAt([(Fin(1.0), a), (Fin(1.0), b)], Scale(0.5, b), c)
    ensures var bs := [(Fin(1.0), a), (Fin(1.0), b)];
      GroupQuantile(bs, 0.5) == Some(AnswerAt(bs, Scale(0.5, b), c))
  {
    var bs: seq<Bucket> := [(Fin(1.0), a), (Fin(1.0), b)];
    SortOfSorted(bs, EdgeBefore);
    SortedAgain(bs);
    hide StableSort, SortedBuckets, Scale;
    QuantileAnswers(bs, 0.5, c);
  }

  lemma SingleAnswer(parse: ParseLe, pts: seq<InstantPoint>, t: int, k: Labels, v: real)
    requires GroupQuantile(Buckets(parse, pts, k), 0.5) == Some(Fin(v))
    ensures HistInstantOver(parse, pts, 0.5, t, [k]) == [InstantPoint("", k, t, Fin(v))]
  {
    hide GroupQuantile, Buckets;
    assert |[k][1..]| == 0;
  }

  lemma SingleFinite(p: Answer)
    requires p.value.Fin?
    ensures FinitePoints([p]) == [InstantPoint(p.metric, p.labels, p.ts, p.value.r)]
  {
    assert |[p][1..]| == 0;
  }

  lemma FiniteInstantIs(cx: Ctx, pts: seq<InstantPoint>, t: int)
    requires StrictTotal(cx.lt) && Orderly(cx)
    ensures FiniteInstant(cx, pts, 0.5, t)
         == FinitePoints(HistInstantOver(cx.parse, pts, 0.5, t, Sorted(HistKeys(cx.parse, pts), cx.lt)))
  {
    hide StrictTotal, HistInstantOver;
  }

  lemma OneAnswer(cx: Ctx, p: InstantPoint, q: InstantPoint, t: int, v: real)
    requires TiedEdges(cx) && p.labels in {ONE, ONE_ZERO} && q.labels in {ONE, ONE_ZERO}
    requires GroupQuantile([(Fin(1.0), p.value), (Fin(1.0), q.value)], 0.5) == Some(Fin(v))
    ensures Orderly(cx) && FiniteInstant(cx, [p, q], 0.5, t) == [InstantPoint("", map[], t, v)]
  {
    TiedTotal(cx);
    TiedBuckets(cx.parse, p, q);
    hide *;
    SortedOne<Labels>(cx.lt, map[]);
    FiniteInstantIs(cx, [p, q], t);
    SingleAnswer(cx.parse, [p, q], t, map[], v);
    SingleFinite(InstantPoint("", map[], t, Fin(v)));
  }

  /** Over the two buckets the instant query answers 1, the range query 0.15. */
  lemma {:induction false} TiedEdgesDiverge(cx: Ctx, t: int)
    requires TiedEdges(cx)
    ensures Orderly(cx) && GoodInput([Tied(t)])
    ensures EvalInstant(cx, SliceAll([Tied(t)], t), MEDIAN, t) == [InstantPoint("", map[], t, 1.0)]
    ensures Slice(EvalRange(cx, [Tied(t)], MEDIAN), t) == [InstantPoint("", map[], t, 0.15)]
  {
    hide *;
    TiedTotal(cx);
    TiedGood(t);
    OneGood(Tied(t));
    TiedSlice(t);
    BottomInstant(cx, t);
    BottomRange(cx, t);
    InOrder();
    Swapped();
    TiedLabels(t);
    OneAnswer(cx, Few(t), Many(t), t, 1.0);
    OneAnswer(cx, Many(t), Few(t), t, 0.15);
    MedianUnfolded(cx, t);
    var rs := TopKRangeVector(cx.lt, cx.st, Tied(t), 2, false, NoModifier);
    FiniteRangeShows(cx, rs, t);
  }

  lemma InOrder()
    ensures GroupQuantile([(Fin(1.0), 3.0), (Fin(1.0), 10.0)], 0.5) == Some(Fin(1.0))
  {
    assert Scale(0.5, 10.0) == 5.0;
    TiedMedian(3.0, 10.0, 1);
    assert forall f :: Scale(f, 0.0) == 0.0;
    hide Scale;
  }

  lemma Swapped()
    ensures GroupQuantile([(Fin(1.0), 10.0), (Fin(1.0), 3.0)], 0.5) == Some(Fin(0.15))
  {
    assert Scale(0.5, 3.0) == 1.5;
    TiedMedian(10.0, 3.0, 0);
  }

  lemma TiedLabels(t: int)
    ensures Few(t).labels == ONE && Few(t).value == 3.0 && Many(t).labels == ONE_ZERO && Many(t).value == 10.0
  {
  }

  lemma FiniteRangeShows(cx: Ctx, rs: seq<RangePoints>, t: int)
    requires Orderly(cx)
    ensures Slice(FiniteRange(cx, rs, 0.5), t) == FiniteInstant(cx, Slice(rs, t), 0.5, t)
  {
    hide StrictTotal, HistRange, HistInstant, Slice;
    HistLifts(cx.parse, cx.lt, rs, 0.5, t);
    SliceFinite(HistRange(cx.parse, cx.lt, rs, 0.5), t);
  }

  lemma {:induction false} MedianUnfolded(cx: Ctx, t: int)
    requires StrictTotal(cx.lt) && StrictTotal(cx.st)
    ensures Orderly(cx)
    ensures EvalRange(cx, [Tied(t)], MEDIAN)
         == FiniteRange(cx, TopKRangeVector(cx.lt, cx.st, Tied(t), 2, false, NoModifier), 0.5)
    ensures EvalInstant(cx, SliceAll([Tied(t)], t), MEDIAN, t)
         == FiniteInstant(cx, TopKInstant(cx.lt, Slice(Tied(t), t), 2, false, NoModifier), 0.5, t)
  {
    hide StrictTotal, TopKRangeVector, TopKInstant, Slice, Tied, FiniteRange, FiniteInstant;
    var ins := SliceAll([Tied(t)], t);
    assert ins[0] == Slice(Tied(t), t);
    assert EvalRange(cx, [Tied(t)], Leaf(0)) == Tied(t) && EvalInstant(cx, ins, Leaf(0), t) == Slice(Tied(t), t);
    assert EvalRange(cx, [Tied(t)], BOTTOM) == TopKRangeVector(cx.lt, cx.st, Tied(t), 2, false, NoModifier);
    assert EvalInstant(cx, ins, BOTTOM, t) == TopKInstant(cx.lt, Slice(Tied(t), t), 2, false, NoModifier);
  }
}

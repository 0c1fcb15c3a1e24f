/** `histogram_quantile` over instant and range vectors: buckets are grouped by every
    label but `le`. */
module Histogram {
  import opened Orders
  import opened Wrappers
  import opened Sorting
  import opened Vectors
  import opened Quantile
  import opened Aggregate

  /** How the value of an `le` label reads, if it reads as an edge. */
  type ParseLe = string -> Option<Le>

  const LE: string := "le"

  function EdgeOf(parse: ParseLe, labels: Labels): Option<Le>
  {
    if LE in labels then parse(labels[LE]) else None
  }

  function WithoutLe(labels: Labels): Labels { map k | k in labels && k != LE :: labels[k] }

  // ---------- one group ----------

  predicate EdgeBefore(a: Bucket, b: Bucket) { LeLess(a.0, b.0) }

  function SortedBuckets(bs: seq<Bucket>): (r: seq<Bucket>)
    ensures EdgesSorted(r)
  {
    SortSorts(bs, EdgeBefore);
    var r := StableSort(bs, EdgeBefore);
    assert forall i, j :: 0 <= i < j < |r| ==> !EdgeBefore(r[j], r[i]);
    r
  }

  function GroupQuantile(bs: seq<Bucket>, q: real): Option<Le>
  {
    Quantile.Quantile(SortedBuckets(bs), q)
  }

  // ---------- instant vectors ----------

  function BucketIn(parse: ParseLe, p: InstantPoint, k: Labels): seq<Bucket>
  {
    var e := EdgeOf(parse, p.labels);
    if e.Some? && WithoutLe(p.labels) == k then [(e.value, p.value)] else []
  }

  function Buckets(parse: ParseLe, pts: seq<InstantPoint>, k: Labels): seq<Bucket>
  {
    if pts == [] then [] else BucketIn(parse, pts[0], k) + Buckets(parse, pts[1..], k)
  }

  function HistKeys(parse: ParseLe, pts: seq<InstantPoint>): set<Labels>
  {
    set p | p in pts && EdgeOf(parse, p.labels).Some? :: WithoutLe(p.labels)
  }

  type Answer = PointOf<Le>

  type AnswerSeries = SeriesOf<Le>

  function Answered(k: Labels, t: int, o: Option<Le>): seq<Answer>
  {
    match o
    case None => []
    case Some(v) => [InstantPoint("", k, t, v)]
  }

  function HistInstantOver(parse: ParseLe, pts: seq<InstantPoint>, q: real, t: int, ks: seq<Labels>): seq<Answer>
  {
    if ks == [] then []
    else Answered(ks[0], t, GroupQuantile(Buckets(parse, pts, ks[0]), q)) + HistInstantOver(parse, pts, q, t, ks[1..])
  }

  function HistInstant(parse: ParseLe, lt: LabelOrder, pts: seq<InstantPoint>, q: real, t: int): seq<Answer>
    requires StrictTotal(lt)
  {
    HistInstantOver(parse, pts, q, t, Sorted(HistKeys(parse, pts), lt))
  }

  lemma {:induction false} BucketsConcat(parse: ParseLe, a: seq<InstantPoint>, b: seq<InstantPoint>, k: Labels)
    ensures Buckets(parse, a + b, k) == Buckets(parse, a, k) + Buckets(parse, b, k)
  {
    hide BucketIn;
    if a == [] {
      assert a + b == b;
    } else {
      BucketsConcat(parse, a[1..], b, k);
      assert (a + b)[0] == a[0] && (a + b)[1..] == a[1..] + b;
      Assoc(BucketIn(parse, a[0], k), Buckets(parse, a[1..], k), Buckets(parse, b, k));
    }
  }

  lemma {:induction false} NoBuckets(parse: ParseLe, pts: seq<InstantPoint>, k: Labels)
    ensures Buckets(parse, pts, k) == [] <==> k !in HistKeys(parse, pts)
  {
    if pts != [] {
      NoBuckets(parse, pts[1..], k);
      hide WithoutLe, EdgeOf;
      assert pts == [pts[0]] + pts[1..];
    }
  }

  lemma BucketsStep(parse: ParseLe, pts: seq<InstantPoint>, i: nat)
    requires i < |pts|
    ensures forall k :: Buckets(parse, pts[..i + 1], k) == Buckets(parse, pts[..i], k) + BucketIn(parse, pts[i], k)
    ensures HistKeys(parse, pts[..i + 1])
         == HistKeys(parse, pts[..i]) + if EdgeOf(parse, pts[i].labels).Some? then {WithoutLe(pts[i].labels)} else {}
  {
    assert pts[..i + 1] == pts[..i] + [pts[i]];
    hide BucketIn, EdgeOf, WithoutLe;
    forall k ensures Buckets(parse, pts[..i + 1], k) == Buckets(parse, pts[..i], k) + BucketIn(parse, pts[i], k) {
      BucketsConcat(parse, pts[..i], [pts[i]], k);
      assert |[pts[i]][1..]| == 0;
      assert Buckets(parse, [pts[i]], k) == BucketIn(parse, pts[i], k) + [];
    }
  }

  method GroupBuckets(parse: ParseLe, inner: seq<InstantPoint>) returns (groups: map<Labels, seq<Bucket>>)
    ensures groups.Keys == HistKeys(parse, inner)
    ensures forall k :: k in groups ==> groups[k] == Buckets(parse, inner, k)
  {
    hide EdgeOf, WithoutLe, Buckets, HistKeys;
    groups := map[];
    NoHistKeys(parse, inner);
    for i := 0 to |inner|
      invariant groups.Keys == HistKeys(parse, inner[..i])
      invariant forall k :: k in groups ==> groups[k] == Buckets(parse, inner[..i], k)
    {
      BucketsStep(parse, inner, i);
      var le := EdgeOf(parse, inner[i].labels);
      if le.None? {
        continue;
      }
      var k := WithoutLe(inner[i].labels);
      NoBuckets(parse, inner[..i], k);
      groups := groups[k := (if k in groups then groups[k] else []) + [(le.value, inner[i].value)]];
    }
    assert inner[..|inner|] == inner;
  }

  lemma NoHistKeys(parse: ParseLe, pts: seq<InstantPoint>)
    ensures HistKeys(parse, pts[..0]) == {}
  {
  }

  method GroupAnswer(bs: seq<Bucket>, q: real) returns (r: Option<Le>)
    ensures r == GroupQuantile(bs, q)
  {
    hide StableSort, Quantile.Quantile;
    var sorted := SortBy(bs, EdgeBefore);
    SortedAgain(bs);
    r := QuantileFromBuckets(sorted, q);
  }

  lemma SortedAgain(bs: seq<Bucket>)
    ensures SortedBuckets(bs) == StableSort(bs, EdgeBefore)
  {
  }

  method HistogramQuantileInstant(parse: ParseLe, lt: LabelOrder, inner: seq<InstantPoint>, q: real, timeUs: int)
    returns (out: seq<Answer>)
    requires StrictTotal(lt)
    ensures out == HistInstant(parse, lt, inner, q, timeUs)
  {
    hide StrictTotal, GroupQuantile, Buckets, HistKeys;
    var groups := GroupBuckets(parse, inner);
    var ks := Sorted(groups.Keys, lt);
    out := [];
    while ks != []
      invariant forall k :: k in ks ==> k in groups
      invariant out + HistInstantOver(parse, inner, q, timeUs, ks) == HistInstant(parse, lt, inner, q, timeUs)
    {
      assert ks[0] in ks;
      var v := GroupAnswer(groups[ks[0]], q);
      ghost var before := out;
      if v.Some? {
        out := out + [InstantPoint("", ks[0], timeUs, v.value)];
      }
      assert out == before + Answered(ks[0], timeUs, v);
      Assoc(before, Answered(ks[0], timeUs, v), HistInstantOver(parse, inner, q, timeUs, ks[1..]));
      ks := ks[1..];
    }
  }

  // ---------- range vectors ----------

  function WithEdge(e: Le, vs: seq<real>): (r: seq<Bucket>)
    ensures |r| == |vs|
  {
    seq(|vs|, i requires 0 <= i < |vs| => (e, vs[i]))
  }

  /** The series' buckets at `t` if it belongs to group `k`. */
  function SeriesBuckets(parse: ParseLe, s: RangePoints, k: Labels, t: int): seq<Bucket>
  {
    var e := EdgeOf(parse, s.labels);
    if e.Some? && WithoutLe(s.labels) == k then WithEdge(e.value, At(s.points, t)) else []
  }

  function BucketsAt(parse: ParseLe, ss: seq<RangePoints>, k: Labels, t: int): seq<Bucket>
  {
    if ss == [] then [] else SeriesBuckets(parse, ss[0], k, t) + BucketsAt(parse, ss[1..], k, t)
  }

  function HistSeriesKeys(parse: ParseLe, ss: seq<RangePoints>): set<Labels>
  {
    set s | s in ss && EdgeOf(parse, s.labels).Some? :: WithoutLe(s.labels)
  }

  /** The timestamps of group `k`. */
  function HistTimes(parse: ParseLe, ss: seq<RangePoints>, k: Labels): set<int>
  {
    if ss == [] then {}
    else
      (if EdgeOf(parse, ss[0].labels).Some? && WithoutLe(ss[0].labels) == k then Times(ss[0].points) else {})
      + HistTimes(parse, ss[1..], k)
  }

  function AnswerPoints(parse: ParseLe, ss: seq<RangePoints>, k: Labels, q: real, ts: seq<int>): seq<(int, Le)>
  {
    if ts == [] then []
    else AnswerPoint(ts[0], GroupQuantile(BucketsAt(parse, ss, k, ts[0]), q)) + AnswerPoints(parse, ss, k, q, ts[1..])
  }

  function AnswerPoint(t: int, o: Option<Le>): seq<(int, Le)>
  {
    match o
    case None => []
    case Some(v) => [(t, v)]
  }

  function HistSeries(parse: ParseLe, ss: seq<RangePoints>, k: Labels, q: real): seq<AnswerSeries>
  {
    var points := AnswerPoints(parse, ss, k, q, Ascend(HistTimes(parse, ss, k)));
    if points == [] then [] else [RangePoints("", k, points)]
  }

  function HistRangeOver(parse: ParseLe, ss: seq<RangePoints>, q: real, ks: seq<Labels>): seq<AnswerSeries>
  {
    if ks == [] then [] else HistSeries(parse, ss, ks[0], q) + HistRangeOver(parse, ss, q, ks[1..])
  }

  function HistRange(parse: ParseLe, lt: LabelOrder, ss: seq<RangePoints>, q: real): seq<AnswerSeries>
    requires StrictTotal(lt)
  {
    HistRangeOver(parse, ss, q, Sorted(HistSeriesKeys(parse, ss), lt))
  }

  // ---------- range evaluation is instant evaluation, timestamp by timestamp ----------

  lemma {:induction false} TaggedBuckets(parse: ParseLe, metric: string, labels: Labels, t: int, vs: seq<real>, k: Labels)
    ensures Buckets(parse, Tagged(metric, labels, t, vs), k)
         == if EdgeOf(parse, labels).Some? && WithoutLe(labels) == k then WithEdge(EdgeOf(parse, labels).value, vs) else []
  {
    hide EdgeOf, WithoutLe, BucketIn;
    if vs != [] {
      var pts := Tagged(metric, labels, t, vs);
      TaggedBuckets(parse, metric, labels, t, vs[1..], k);
      assert pts[1..] == Tagged(metric, labels, t, vs[1..]);
      BucketOf(parse, pts[0], k);
      hide Buckets;
      assert vs == [vs[0]] + vs[1..];
      if EdgeOf(parse, labels).Some? {
        WithEdgeHead(EdgeOf(parse, labels).value, vs);
      }
    }
  }

  lemma BucketOf(parse: ParseLe, p: InstantPoint, k: Labels)
    ensures BucketIn(parse, p, k)
         == if EdgeOf(parse, p.labels).Some? && WithoutLe(p.labels) == k then [(EdgeOf(parse, p.labels).value, p.value)] else []
  {
  }

  lemma WithEdgeHead(e: Le, vs: seq<real>)
    requires vs != []
    ensures WithEdge(e, vs) == [(e, vs[0])] + WithEdge(e, vs[1..])
  {
  }

  lemma {:induction false} SliceBuckets(parse: ParseLe, ss: seq<RangePoints>, k: Labels, t: int)
    ensures Buckets(parse, Slice(ss, t), k) == BucketsAt(parse, ss, k, t)
  {
    if ss != [] {
      var s := ss[0];
      hide EdgeOf, WithoutLe, At, BucketIn;
      SliceBuckets(parse, ss[1..], k, t);
      BucketsConcat(parse, Tagged(s.metric, s.labels, t, At(s.points, t)), Slice(ss[1..], t), k);
      TaggedBuckets(parse, s.metric, s.labels, t, At(s.points, t), k);
    }
  }

  lemma {:induction false} HistTimesBuckets(parse: ParseLe, ss: seq<RangePoints>, k: Labels, t: int)
    ensures t in HistTimes(parse, ss, k) <==> BucketsAt(parse, ss, k, t) != []
  {
    if ss != [] {
      hide EdgeOf, WithoutLe, At, Times;
      HistTimesBuckets(parse, ss[1..], k, t);
      AtTimes(ss[0].points, t);
    }
  }

  lemma {:induction false} AnswerTimes(parse: ParseLe, ss: seq<RangePoints>, k: Labels, q: real, ts: seq<int>)
    requires Ascending(ts, IntLess)
    ensures forall p :: p in AnswerPoints(parse, ss, k, q, ts) ==> p.0 in ts
    ensures DistinctTimes(AnswerPoints(parse, ss, k, q, ts))
  {
    hide GroupQuantile, BucketsAt;
    if ts != [] {
      AnswerTimes(parse, ss, k, q, ts[1..]);
      HeadLeast(ts, IntLess);
      assert ts == [ts[0]] + ts[1..];
      var o := GroupQuantile(BucketsAt(parse, ss, k, ts[0]), q);
      hide AnswerPoints;
      AnswerTimesJoin(ts[0], o, AnswerPoints(parse, ss, k, q, ts[1..]));
      AnswerUnfold(parse, ss, k, q, ts);
    }
  }

  lemma AnswerUnfold(parse: ParseLe, ss: seq<RangePoints>, k: Labels, q: real, ts: seq<int>)
    requires ts != []
    ensures AnswerPoints(parse, ss, k, q, ts)
         == AnswerPoint(ts[0], GroupQuantile(BucketsAt(parse, ss, k, ts[0]), q)) + AnswerPoints(parse, ss, k, q, ts[1..])
  {
    hide GroupQuantile, BucketsAt, AnswerPoint;
  }

  lemma AnswerTimesJoin(t: int, o: Option<Le>, rest: seq<(int, Le)>)
    requires DistinctTimes(rest) && forall p :: p in rest ==> p.0 > t
    ensures DistinctTimes(AnswerPoint(t, o) + rest)
    ensures forall p :: p in AnswerPoint(t, o) + rest ==> p.0 == t || p in rest
  {
    assert forall i :: 0 <= i < |rest| ==> rest[i] in rest;
  }

  lemma AnswerPointAt(u: int, o: Option<Le>, k: Labels, t: int)
    ensures Tagged("", k, t, At(AnswerPoint(u, o), t)) == if u == t then Answered(k, t, o) else []
  {
    assert o.Some? ==> |AnswerPoint(u, o)[1..]| == 0;
  }

  lemma {:induction false} AnswersAt(parse: ParseLe, ss: seq<RangePoints>, k: Labels, q: real, ts: seq<int>, t: int)
    requires Ascending(ts, IntLess)
    ensures Tagged("", k, t, At(AnswerPoints(parse, ss, k, q, ts), t))
         == if t in ts then Answered(k, t, GroupQuantile(BucketsAt(parse, ss, k, t), q)) else []
  {
    hide GroupQuantile, BucketsAt, Answered, At, AnswerPoint, Tagged;
    if ts == [] {
      AtNone<Le>(t);
    } else {
      AnswersAt(parse, ss, k, q, ts[1..], t);
      HeadLeast(ts, IntLess);
      assert ts == [ts[0]] + ts[1..];
      var o := GroupQuantile(BucketsAt(parse, ss, k, ts[0]), q);
      var head, rest := AnswerPoint(ts[0], o), AnswerPoints(parse, ss, k, q, ts[1..]);
      AtConcat(head, rest, t);
      TaggedConcat("", k, t, At(head, t), At(rest, t));
      AnswerPointAt(ts[0], o, k, t);
    }
  }

  lemma NoAnswer(q: real)
    ensures GroupQuantile([], q) == None
  {
    assert SortedBuckets([]) == [];
  }

  /** A group's series at `t` is the group's answer there. */
  lemma {:induction false} HistSeriesAt(parse: ParseLe, ss: seq<RangePoints>, k: Labels, q: real, t: int)
    ensures Slice(HistSeries(parse, ss, k, q), t) == Answered(k, t, GroupQuantile(BucketsAt(parse, ss, k, t), q))
  {
    hide GroupQuantile, BucketsAt, HistTimes, AnswerPoints, Slice;
    var ts := Ascend(HistTimes(parse, ss, k));
    var points := AnswerPoints(parse, ss, k, q, ts);
    AnswersAt(parse, ss, k, q, ts, t);
    HistTimesBuckets(parse, ss, k, t);
    NoAnswer(q);
    SliceOne(RangePoints("", k, points), t);
    SliceNone<Le>(t);
    AtNone<Le>(t);
  }

  lemma {:induction false} HistOverLifts(parse: ParseLe, ss: seq<RangePoints>, q: real, ks: seq<Labels>, t: int)
    ensures Slice(HistRangeOver(parse, ss, q, ks), t) == HistInstantOver(parse, Slice(ss, t), q, t, ks)
  {
    hide GroupQuantile, BucketsAt, Buckets, HistSeries, Answered;
    if ks == [] {
      SliceNone<Le>(t);
    } else {
      HistOverLifts(parse, ss, q, ks[1..], t);
      SliceConcat(HistSeries(parse, ss, ks[0], q), HistRangeOver(parse, ss, q, ks[1..]), t);
      HistSeriesAt(parse, ss, ks[0], q, t);
      SliceBuckets(parse, ss, ks[0], t);
      hide Slice;
    }
  }

  /** The keys that have buckets in the vector, in order. */
  function Present(parse: ParseLe, pts: seq<InstantPoint>, ks: seq<Labels>): seq<Labels>
  {
    if ks == [] then []
    else (if ks[0] in HistKeys(parse, pts) then [ks[0]] else []) + Present(parse, pts, ks[1..])
  }

  lemma {:induction false} PresentAscend(lt: LabelOrder, parse: ParseLe, pts: seq<InstantPoint>, ks: seq<Labels>)
    requires Ascending(ks, lt)
    ensures Ascending(Present(parse, pts, ks), lt)
    ensures forall k :: k in Present(parse, pts, ks) <==> k in ks && k in HistKeys(parse, pts)
  {
    hide HistKeys;
    if ks != [] {
      PresentAscend(lt, parse, pts, ks[1..]);
      assert ks == [ks[0]] + ks[1..];
      var rest := Present(parse, pts, ks[1..]);
      HeadLeast(ks, lt);
      assert forall j :: 0 <= j < |rest| ==> rest[j] in rest && rest[j] in ks[1..];
    }
  }

  lemma {:induction false} AbsentSilent(parse: ParseLe, pts: seq<InstantPoint>, q: real, t: int, ks: seq<Labels>)
    ensures HistInstantOver(parse, pts, q, t, ks) == HistInstantOver(parse, pts, q, t, Present(parse, pts, ks))
  {
    hide HistKeys, GroupQuantile, Buckets;
    if ks != [] {
      AbsentSilent(parse, pts, q, t, ks[1..]);
      NoBuckets(parse, pts, ks[0]);
      NoAnswer(q);
      var rest := Present(parse, pts, ks[1..]);
      assert ([ks[0]] + rest)[0] == ks[0] && ([ks[0]] + rest)[1..] == rest;
      assert [] + rest == rest;
    }
  }

  lemma SliceKeyIn(parse: ParseLe, ss: seq<RangePoints>, t: int, k: Labels)
    requires k in HistKeys(parse, Slice(ss, t))
    ensures k in HistSeriesKeys(parse, ss)
  {
    hide EdgeOf, WithoutLe, Slice;
    var p :| p in Slice(ss, t) && EdgeOf(parse, p.labels).Some? && WithoutLe(p.labels) == k;
    SliceFrom(ss, t, p);
    var i :| FromSeries(ss, i, p);
    assert ss[i] in ss;
  }

  /** The quantile of a range vector at one timestamp is the quantile of what it shows
      there. */
  lemma {:induction false} HistLifts(parse: ParseLe, lt: LabelOrder, ss: seq<RangePoints>, q: real, t: int)
    requires StrictTotal(lt)
    ensures Slice(HistRange(parse, lt, ss, q), t) == HistInstant(parse, lt, Slice(ss, t), q, t)
  {
    hide StrictTotal, Slice, HistInstantOver, HistRangeOver, HistKeys, HistSeriesKeys, Present;
    var ks := Sorted(HistSeriesKeys(parse, ss), lt);
    var pts := Slice(ss, t);
    HistOverLifts(parse, ss, q, ks, t);
    AbsentSilent(parse, pts, q, t, ks);
    PresentAscend(lt, parse, pts, ks);
    forall k | k in HistKeys(parse, pts) ensures k in ks {
      SliceKeyIn(parse, ss, t, k);
    }
    AscendingUnique(Present(parse, pts, ks), Sorted(HistKeys(parse, pts), lt), lt);
  }

  lemma {:induction false} HistOverShape(lt: LabelOrder, parse: ParseLe, ss: seq<RangePoints>, q: real, ks: seq<Labels>)
    requires StrictTotal(lt) && Ascending(ks, lt)
    ensures WellFormed(HistRangeOver(parse, ss, q, ks))
    ensures forall s :: s in HistRangeOver(parse, ss, q, ks) ==> s.metric == "" && s.labels in ks
  {
    hide *;
    HistRangeUnfold(parse, ss, q, ks);
    if ks == [] {
      EmptyWellFormed();
    } else {
      HeadDistinct(lt, ks);
      HistOverShape(lt, parse, ss, q, ks[1..]);
      HistSeriesShape(parse, ss, ks[0], q);
      assert ks == [ks[0]] + ks[1..];
      WellFormedJoin(HistSeries(parse, ss, ks[0], q), HistRangeOver(parse, ss, q, ks[1..]));
    }
  }

  lemma HistRangeUnfold(parse: ParseLe, ss: seq<RangePoints>, q: real, ks: seq<Labels>)
    ensures HistRangeOver(parse, ss, q, ks)
         == if ks == [] then [] else HistSeries(parse, ss, ks[0], q) + HistRangeOver(parse, ss, q, ks[1..])
  {
  }

  lemma EmptyWellFormed()
    ensures WellFormed<Le>([])
  {
  }

  lemma {:induction false} HistSeriesShape(parse: ParseLe, ss: seq<RangePoints>, k: Labels, q: real)
    ensures WellFormed(HistSeries(parse, ss, k, q))
    ensures forall s :: s in HistSeries(parse, ss, k, q) ==> s.metric == "" && s.labels == k
  {
    hide HistTimes, AnswerPoints;
    AnswerTimes(parse, ss, k, q, Ascend(HistTimes(parse, ss, k)));
  }

  lemma {:induction false} HistWellFormed(parse: ParseLe, lt: LabelOrder, ss: seq<RangePoints>, q: real)
    requires StrictTotal(lt)
    ensures WellFormed(HistRange(parse, lt, ss, q))
    ensures forall s :: s in HistRange(parse, lt, ss, q) ==>
      s.metric == "" && exists r :: r in ss && s.labels == WithoutLe(r.labels)
  {
    HistOverShape(lt, parse, ss, q, Sorted(HistSeriesKeys(parse, ss), lt));
  }

  // ---------- the order of the input ----------

  /** No two buckets of a group have the same edge. Labels such as `1` and `1.0` may
      read alike. */
  ghost predicate DistinctEdges(parse: ParseLe, pts: seq<InstantPoint>)
  {
    forall k :: EdgesApart(Buckets(parse, pts, k))
  }

  ghost predicate EdgesApart(bs: seq<Bucket>)
  {
    forall a, b :: a in bs && b in bs && a != b ==> a.0 != b.0
  }

  lemma {:induction false} BucketsPermute(parse: ParseLe, a: seq<InstantPoint>, b: seq<InstantPoint>, k: Labels)
    requires multiset(a) == multiset(b)
    ensures multiset(Buckets(parse, a, k)) == multiset(Buckets(parse, b, k))
  {
    hide BucketIn;
    if a == [] {
      assert |multiset(b)| == 0;
    } else {
      var i := TakeOut(a, b);
      BucketsConcat(parse, b[..i], [b[i]] + b[i + 1..], k);
      BucketsConcat(parse, [b[i]], b[i + 1..], k);
      BucketsConcat(parse, b[..i], b[i + 1..], k);
      assert [b[i]][1..] == [];
      BucketsPermute(parse, a[1..], b[..i] + b[i + 1..], k);
    }
  }

  lemma AnswerPermutes(a: seq<Bucket>, b: seq<Bucket>, q: real)
    requires multiset(a) == multiset(b) && EdgesApart(a)
    ensures GroupQuantile(a, q) == GroupQuantile(b, q)
  {
    hide Quantile.Quantile;
    var x, y := SortedBuckets(a), SortedBuckets(b);
    SortedAgain(a);
    SortedAgain(b);
    SortPermutes(a, EdgeBefore);
    SortPermutes(b, EdgeBefore);
    SortSorts(a, EdgeBefore);
    SortSorts(b, EdgeBefore);
    forall u, v | u in x && v in x && u != v ensures EdgeBefore(u, v) || EdgeBefore(v, u) {
      assert u in multiset(x) && v in multiset(x);
      assert u in multiset(a) && v in multiset(a);
      assert u in a && v in a;
    }
    SortedUnique(x, y, EdgeBefore);
  }

  lemma {:induction false} HistOverPermutes(parse: ParseLe, a: seq<InstantPoint>, b: seq<InstantPoint>, q: real, t: int,
                                            ks: seq<Labels>)
    requires multiset(a) == multiset(b) && DistinctEdges(parse, a)
    ensures HistInstantOver(parse, a, q, t, ks) == HistInstantOver(parse, b, q, t, ks)
  {
    hide GroupQuantile, Buckets, EdgesApart;
    if ks != [] {
      BucketsPermute(parse, a, b, ks[0]);
      assert EdgesApart(Buckets(parse, a, ks[0]));
      AnswerPermutes(Buckets(parse, a, ks[0]), Buckets(parse, b, ks[0]), q);
      HistOverPermutes(parse, a, b, q, t, ks[1..]);
    }
  }

  lemma HistPermutes(parse: ParseLe, lt: LabelOrder, a: seq<InstantPoint>, b: seq<InstantPoint>, q: real, t: int)
    requires StrictTotal(lt) && multiset(a) == multiset(b) && DistinctEdges(parse, a)
    ensures HistInstant(parse, lt, a, q, t) == HistInstant(parse, lt, b, q, t)
  {
    hide StrictTotal, EdgeOf, WithoutLe, HistInstantOver, DistinctEdges;
    assert HistKeys(parse, a) == HistKeys(parse, b) by {
      assert forall p :: p in a <==> p in multiset(a);
      assert forall p :: p in b <==> p in multiset(b);
    }
    HistOverPermutes(parse, a, b, q, t, Sorted(HistKeys(parse, a), lt));
  }
}

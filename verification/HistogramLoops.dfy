/** `histogram_quantile_range` as it runs: a map of groups to a map of timestamps to
    buckets, filled point by point. */
module HistogramLoops {
  import opened Orders
  import opened Wrappers
  import opened Vectors
  import opened Quantile
  import opened Aggregate
  import opened Histogram

  type BucketMap = map<Labels, map<int, seq<Bucket>>>

  /** The map holds the buckets of the series `ss`. */
  ghost predicate Filled(parse: ParseLe, groups: BucketMap, ss: seq<RangePoints>)
  {
    && groups.Keys == HistSeriesKeys(parse, ss)
    && forall k :: k in groups ==> GroupFilled(parse, groups[k], ss, k)
  }

  ghost predicate GroupFilled(parse: ParseLe, byTs: map<int, seq<Bucket>>, ss: seq<RangePoints>, k: Labels)
  {
    && byTs.Keys == HistTimes(parse, ss, k)
    && forall t :: t in byTs ==> byTs[t] == BucketsAt(parse, ss, k, t)
  }

  lemma {:induction false} BucketsAtConcat(parse: ParseLe, a: seq<RangePoints>, b: seq<RangePoints>, k: Labels, t: int)
    ensures BucketsAt(parse, a + b, k, t) == BucketsAt(parse, a, k, t) + BucketsAt(parse, b, k, t)
    ensures HistTimes(parse, a + b, k) == HistTimes(parse, a, k) + HistTimes(parse, b, k)
  {
    hide SeriesBuckets, WithoutLe, EdgeOf, Times;
    if a == [] {
      assert a + b == b;
    } else {
      BucketsAtConcat(parse, a[1..], b, k, t);
      assert (a + b)[0] == a[0] && (a + b)[1..] == a[1..] + b;
      Assoc(SeriesBuckets(parse, a[0], k, t), BucketsAt(parse, a[1..], k, t), BucketsAt(parse, b, k, t));
    }
  }

  lemma OneSeriesBuckets(parse: ParseLe, s: RangePoints, k: Labels, t: int)
    ensures BucketsAt(parse, [s], k, t) == SeriesBuckets(parse, s, k, t)
    ensures HistTimes(parse, [s], k)
         == if EdgeOf(parse, s.labels).Some? && WithoutLe(s.labels) == k then Times(s.points) else {}
  {
    assert |[s][1..]| == 0;
    hide SeriesBuckets;
    assert BucketsAt(parse, [s], k, t) == SeriesBuckets(parse, s, k, t) + [];
  }

  lemma KeysConcat(parse: ParseLe, a: seq<RangePoints>, s: RangePoints)
    ensures HistSeriesKeys(parse, a + [s])
         == HistSeriesKeys(parse, a) + if EdgeOf(parse, s.labels).Some? then {WithoutLe(s.labels)} else {}
  {
    hide WithoutLe, EdgeOf;
    assert forall q :: q in a + [s] <==> q in a || q == s;
  }

  /** One more series: its group gets its buckets, every other group stays. */
  lemma AddSeries(parse: ParseLe, a: seq<RangePoints>, s: RangePoints, k: Labels, t: int)
    ensures BucketsAt(parse, a + [s], k, t) == BucketsAt(parse, a, k, t) + SeriesBuckets(parse, s, k, t)
    ensures HistTimes(parse, a + [s], k) == HistTimes(parse, a, k)
            + if EdgeOf(parse, s.labels).Some? && WithoutLe(s.labels) == k then Times(s.points) else {}
  {
    BucketsAtConcat(parse, a, [s], k, t);
    OneSeriesBuckets(parse, s, k, t);
  }

  lemma {:induction false} GroupTimesIn(parse: ParseLe, ss: seq<RangePoints>, k: Labels)
    ensures k !in HistSeriesKeys(parse, ss) ==> HistTimes(parse, ss, k) == {}
  {
    if ss != [] {
      GroupTimesIn(parse, ss[1..], k);
      hide WithoutLe, EdgeOf;
      assert ss == [ss[0]] + ss[1..];
    }
  }

  /** A series that is no bucket changes nothing. */
  lemma {:induction false} SkipSeries(parse: ParseLe, groups: BucketMap, a: seq<RangePoints>, s: RangePoints)
    requires Filled(parse, groups, a) && EdgeOf(parse, s.labels).None?
    ensures Filled(parse, groups, a + [s])
  {
    hide BucketsAt, HistTimes, HistSeriesKeys, EdgeOf, WithoutLe;
    KeysConcat(parse, a, s);
    forall k | k in groups ensures GroupFilled(parse, groups[k], a + [s], k) {
      AddSeries(parse, a, s, k, 0);
      forall t | t in groups[k] ensures groups[k][t] == BucketsAt(parse, a + [s], k, t) {
        AddSeries(parse, a, s, k, t);
        NoEdgeNoBuckets(parse, s, k, t);
        assert BucketsAt(parse, a, k, t) + [] == BucketsAt(parse, a, k, t);
      }
    }
  }

  lemma NoEdgeNoBuckets(parse: ParseLe, s: RangePoints, k: Labels, t: int)
    requires EdgeOf(parse, s.labels).None? || WithoutLe(s.labels) != k
    ensures SeriesBuckets(parse, s, k, t) == []
  {
  }

  /** A bucket series of which no point has been added yet. */
  lemma StartSeries(parse: ParseLe, groups: BucketMap, a: seq<RangePoints>, s: RangePoints)
    requires Filled(parse, groups, a) && EdgeOf(parse, s.labels).Some? && s.points == []
    ensures var k := WithoutLe(s.labels);
      Filled(parse, groups[k := if k in groups then groups[k] else map[]], a + [s])
  {
    hide BucketsAt, HistTimes, HistSeriesKeys, EdgeOf, WithoutLe;
    var k0 := WithoutLe(s.labels);
    var groups' := groups[k0 := if k0 in groups then groups[k0] else map[]];
    KeysConcat(parse, a, s);
    forall k | k in groups' ensures GroupFilled(parse, groups'[k], a + [s], k) {
      AddSeries(parse, a, s, k, 0);
      GroupTimesIn(parse, a, k);
      forall t | t in groups'[k] ensures groups'[k][t] == BucketsAt(parse, a + [s], k, t) {
        AddSeries(parse, a, s, k, t);
        EmptyNoBuckets(parse, s, k, t);
        assert BucketsAt(parse, a, k, t) + [] == BucketsAt(parse, a, k, t);
      }
    }
  }

  lemma EmptyNoBuckets(parse: ParseLe, s: RangePoints, k: Labels, t: int)
    requires s.points == []
    ensures SeriesBuckets(parse, s, k, t) == []
  {
  }

  lemma MorePoints(parse: ParseLe, s: RangePoints, p: (int, real), k: Labels, t: int)
    ensures SeriesBuckets(parse, s.(points := s.points + [p]), k, t)
         == SeriesBuckets(parse, s, k, t)
            + if EdgeOf(parse, s.labels).Some? && WithoutLe(s.labels) == k && p.0 == t
              then [(EdgeOf(parse, s.labels).value, p.1)] else []
    ensures Times(s.points + [p]) == Times(s.points) + {p.0}
  {
    AtConcat(s.points, [p], t);
    AtSingle(p, t);
    hide EdgeOf, WithoutLe, At;
    MoreTimes(s.points, p);
    if EdgeOf(parse, s.labels).Some? {
      WithEdgeMore(EdgeOf(parse, s.labels).value, At(s.points, t), p.1);
    }
  }

  lemma AtSingle(p: (int, real), t: int)
    ensures At([p], t) == if p.0 == t then [p.1] else []
  {
    assert |[p][1..]| == 0;
  }

  lemma MoreTimes(points: seq<(int, real)>, p: (int, real))
    ensures Times(points + [p]) == Times(points) + {p.0}
  {
    assert forall q :: q in points + [p] <==> q in points || q == p;
  }

  lemma WithEdgeMore(e: Le, vs: seq<real>, v: real)
    ensures WithEdge(e, vs + [v]) == WithEdge(e, vs) + [(e, v)]
    ensures WithEdge(e, vs + []) == WithEdge(e, vs)
  {
    assert vs + [] == vs;
  }

  function Entry(byTs: map<int, seq<Bucket>>, t: int): seq<Bucket> { if t in byTs then byTs[t] else [] }

  /** One more point of the last series. */
  lemma {:induction false} AddPoint(parse: ParseLe, groups: BucketMap, a: seq<RangePoints>, s: RangePoints, p: (int, real))
    requires Filled(parse, groups, a + [s]) && EdgeOf(parse, s.labels).Some?
    ensures var k := WithoutLe(s.labels);
      k in groups && Filled(parse, groups[k := AddTo(groups[k], p, EdgeOf(parse, s.labels).value)],
                            a + [s.(points := s.points + [p])])
  {
    hide BucketsAt, HistTimes, HistSeriesKeys, EdgeOf, WithoutLe, Times;
    var k0, s' := WithoutLe(s.labels), s.(points := s.points + [p]);
    KeysConcat(parse, a, s);
    KeysConcat(parse, a, s');
    assert k0 in groups;
    var groups' := groups[k0 := AddTo(groups[k0], p, EdgeOf(parse, s.labels).value)];
    forall k | k in groups' ensures GroupFilled(parse, groups'[k], a + [s'], k) {
      PointInGroup(parse, groups, a, s, p, k);
    }
  }

  function AddTo(byTs: map<int, seq<Bucket>>, p: (int, real), le: Le): map<int, seq<Bucket>>
  {
    byTs[p.0 := Entry(byTs, p.0) + [(le, p.1)]]
  }

  lemma PointInGroup(parse: ParseLe, groups: BucketMap, a: seq<RangePoints>, s: RangePoints, p: (int, real), k: Labels)
    requires EdgeOf(parse, s.labels).Some? && k in groups && GroupFilled(parse, groups[k], a + [s], k)
    ensures GroupFilled(parse, if k == WithoutLe(s.labels) then AddTo(groups[k], p, EdgeOf(parse, s.labels).value) else groups[k],
                        a + [s.(points := s.points + [p])], k)
  {
    hide BucketsAt, HistTimes, EdgeOf, WithoutLe, Times, SeriesBuckets;
    var s' := s.(points := s.points + [p]);
    var byTs := if k == WithoutLe(s.labels) then AddTo(groups[k], p, EdgeOf(parse, s.labels).value) else groups[k];
    AddSeries(parse, a, s, k, 0);
    AddSeries(parse, a, s', k, 0);
    MorePoints(parse, s, p, k, 0);
    forall t | t in byTs ensures byTs[t] == BucketsAt(parse, a + [s'], k, t) {
      AddSeries(parse, a, s, k, t);
      AddSeries(parse, a, s', k, t);
      MorePoints(parse, s, p, k, t);
      HistTimesBuckets(parse, a + [s], k, t);
      SplitBuckets(BucketsAt(parse, a, k, t), SeriesBuckets(parse, s, k, t), SeriesBuckets(parse, s', k, t));
    }
  }

  lemma SplitBuckets(x: seq<Bucket>, y: seq<Bucket>, z: seq<Bucket>)
    ensures forall d :: z == y + d ==> x + z == x + y + d
  {
    forall d | z == y + d ensures x + z == x + y + d {
      Assoc(x, y, d);
    }
  }

  method FillGroups(parse: ParseLe, inner: seq<RangePoints>) returns (groups: BucketMap)
    ensures Filled(parse, groups, inner)
  {
    hide Filled, EdgeOf, WithoutLe;
    groups := map[];
    NothingFilled(parse, inner);
    for i := 0 to |inner|
      invariant Filled(parse, groups, inner[..i])
    {
      var s := inner[i];
      assert inner[..i + 1] == inner[..i] + [s];
      var le := EdgeOf(parse, s.labels);
      if le.None? {
        SkipSeries(parse, groups, inner[..i], s);
        continue;
      }
      var k := WithoutLe(s.labels);
      StartSeries(parse, groups, inner[..i], s.(points := []));
      groups := groups[k := if k in groups then groups[k] else map[]];
      assert s.points[..0] == [];
      for j := 0 to |s.points|
        invariant Filled(parse, groups, inner[..i] + [s.(points := s.points[..j])])
      {
        AddPoint(parse, groups, inner[..i], s.(points := s.points[..j]), s.points[j]);
        groups := groups[k := AddTo(groups[k], s.points[j], le.value)];
        assert s.points[..j + 1] == s.points[..j] + [s.points[j]];
      }
      assert s.(points := s.points[..|s.points|]) == s by {
        assert s.points[..|s.points|] == s.points;
      }
    }
    assert inner[..|inner|] == inner;
  }

  lemma NothingFilled(parse: ParseLe, ss: seq<RangePoints>)
    ensures Filled(parse, map[], ss[..0])
  {
    assert HistSeriesKeys(parse, ss[..0]) == {};
  }

  method AnswerGroup(parse: ParseLe, ss: seq<RangePoints>, k: Labels, byTs: map<int, seq<Bucket>>, q: real)
    returns (points: seq<(int, Le)>)
    requires GroupFilled(parse, byTs, ss, k)
    ensures points == AnswerPoints(parse, ss, k, q, Ascend(HistTimes(parse, ss, k)))
  {
    hide GroupQuantile, BucketsAt, HistTimes, AnswerPoints, AnswerPoint;
    var ts := Ascend(byTs.Keys);
    ghost var whole := AnswerPoints(parse, ss, k, q, ts);
    points := [];
    assert points + whole == whole;
    while ts != []
      invariant forall t :: t in ts ==> t in byTs
      invariant points + AnswerPoints(parse, ss, k, q, ts) == whole
    {
      var t := ts[0];
      assert t in ts && t in byTs;
      var v := GroupAnswer(byTs[t], q);
      ghost var before := points;
      if v.Some? {
        points := points + [(t, v.value)];
      }
      OneAnswerPoint(before, t, v);
      AnswerUnfold(parse, ss, k, q, ts);
      Assoc(before, AnswerPoint(t, v), AnswerPoints(parse, ss, k, q, ts[1..]));
      ts := ts[1..];
    }
    NoAnswerPoints(parse, ss, k, q);
  }

  lemma OneAnswerPoint(before: seq<(int, Le)>, t: int, v: Option<Le>)
    ensures before + AnswerPoint(t, v) == if v.Some? then before + [(t, v.value)] else before
  {
  }

  lemma NoAnswerPoints(parse: ParseLe, ss: seq<RangePoints>, k: Labels, q: real)
    ensures AnswerPoints(parse, ss, k, q, []) == []
  {
  }

  method HistogramQuantileRange(parse: ParseLe, lt: LabelOrder, inner: seq<RangePoints>, q: real)
    returns (out: seq<AnswerSeries>)
    requires StrictTotal(lt)
    ensures out == HistRange(parse, lt, inner, q)
  {
    hide StrictTotal, AnswerPoints, GroupFilled, HistSeriesKeys, HistTimes;
    var groups := FillGroups(parse, inner);
    var ks := Sorted(groups.Keys, lt);
    out := [];
    while ks != []
      invariant forall k :: k in ks ==> k in groups
      invariant out + HistRangeOver(parse, inner, q, ks) == HistRange(parse, lt, inner, q)
    {
      assert ks[0] in ks;
      var points := AnswerGroup(parse, inner, ks[0], groups[ks[0]], q);
      ghost var before := out;
      if points != [] {
        out := out + [RangePoints("", ks[0], points)];
      }
      assert out == before + HistSeries(parse, inner, ks[0], q);
      Assoc(before, HistSeries(parse, inner, ks[0], q), HistRangeOver(parse, inner, q, ks[1..]));
      ks := ks[1..];
    }
  }
}

/** The finite answers of `histogram_quantile`, as vectors of reals that a further
    operator can take. */
module FiniteAnswers {
  import opened Orders
  import opened Wrappers
  import opened Sorting
  import opened Vectors
  import opened Quantile
  import opened Aggregate
  import opened Histogram

  function FinitePoint(p: Answer): seq<InstantPoint>
  {
    if p.value.Fin? then [InstantPoint(p.metric, p.labels, p.ts, p.value.r)] else []
  }

  function FinitePoints(ps: seq<Answer>): seq<InstantPoint>
  {
    if ps == [] then [] else FinitePoint(ps[0]) + FinitePoints(ps[1..])
  }

  function FiniteValue(p: (int, Le)): seq<(int, real)>
  {
    if p.1.Fin? then [(p.0, p.1.r)] else []
  }

  function FiniteValues(points: seq<(int, Le)>): seq<(int, real)>
  {
    if points == [] then [] else FiniteValue(points[0]) + FiniteValues(points[1..])
  }

  function FiniteSeries(ss: seq<AnswerSeries>): (r: seq<RangePoints>)
    ensures |r| == |ss|
  {
    seq(|ss|, i requires 0 <= i < |ss| => RangePoints(ss[i].metric, ss[i].labels, FiniteValues(ss[i].points)))
  }

  /** The finite part of an instant vector is exactly its finite answers. */
  lemma {:induction false} FinitePointsHave(ps: seq<Answer>, p: InstantPoint)
    ensures p in FinitePoints(ps) <==> InstantPoint(p.metric, p.labels, p.ts, Fin(p.value)) in ps
  {
    if ps != [] {
      FinitePointsHave(ps[1..], p);
      assert ps == [ps[0]] + ps[1..];
    }
  }

  lemma {:induction false} FinitePointsConcat(a: seq<Answer>, b: seq<Answer>)
    ensures FinitePoints(a + b) == FinitePoints(a) + FinitePoints(b)
  {
    if a == [] {
      assert a + b == b;
    } else {
      hide FinitePoint;
      FinitePointsConcat(a[1..], b);
      assert (a + b)[0] == a[0] && (a + b)[1..] == a[1..] + b;
      Assoc(FinitePoint(a[0]), FinitePoints(a[1..]), FinitePoints(b));
    }
  }

  lemma {:induction false} FiniteValuesIn(points: seq<(int, Le)>)
    ensures forall p :: p in FiniteValues(points) ==> (p.0, Fin(p.1)) in points
  {
    if points != [] {
      FiniteValuesIn(points[1..]);
      assert points == [points[0]] + points[1..];
    }
  }

  lemma {:induction false} FiniteTimes(points: seq<(int, Le)>)
    requires DistinctTimes(points)
    ensures DistinctTimes(FiniteValues(points))
  {
    if points != [] {
      FiniteTimes(points[1..]);
      FiniteValuesIn(points[1..]);
      var rest := FiniteValues(points[1..]);
      forall i | 0 <= i < |rest| ensures rest[i].0 != points[0].0 {
        assert rest[i] in rest;
        var j :| 0 <= j < |points[1..]| && points[1..][j] == (rest[i].0, Fin(rest[i].1));
        assert points[j + 1].0 == rest[i].0;
      }
    }
  }

  lemma FiniteWellFormed(ss: seq<AnswerSeries>)
    requires WellFormed(ss)
    ensures WellFormed(FiniteSeries(ss))
  {
    hide DistinctTimes, FiniteValues;
    forall i | 0 <= i < |ss| ensures DistinctTimes(FiniteSeries(ss)[i].points) {
      FiniteTimes(ss[i].points);
    }
  }

  lemma {:induction false} TaggedFinite(metric: string, labels: Labels, t: int, vs: seq<Le>)
    ensures FinitePoints(Tagged(metric, labels, t, vs)) == Tagged(metric, labels, t, FiniteOnly(vs))
  {
    if vs != [] {
      TaggedFinite(metric, labels, t, vs[1..]);
      assert Tagged(metric, labels, t, vs)[1..] == Tagged(metric, labels, t, vs[1..]);
    }
  }

  function FiniteOnly(vs: seq<Le>): seq<real>
  {
    if vs == [] then [] else (if vs[0].Fin? then [vs[0].r] else []) + FiniteOnly(vs[1..])
  }

  lemma {:induction false} AtFinite(points: seq<(int, Le)>, t: int)
    ensures At(FiniteValues(points), t) == FiniteOnly(At(points, t))
  {
    if points != [] {
      AtFinite(points[1..], t);
      AtConcat(FiniteValue(points[0]), FiniteValues(points[1..]), t);
      AtOne(points[0], t);
      FiniteHead(points[0].1, At(points[1..], t));
      assert [] + At(points[1..], t) == At(points[1..], t);
    }
  }

  lemma FiniteHead(v: Le, vs: seq<Le>)
    ensures FiniteOnly([v] + vs) == (if v.Fin? then [v.r] else []) + FiniteOnly(vs)
  {
    assert ([v] + vs)[1..] == vs;
  }

  lemma AtOne(p: (int, Le), t: int)
    ensures At(FiniteValue(p), t) == if p.0 == t && p.1.Fin? then [p.1.r] else []
  {
    assert p.1.Fin? ==> |FiniteValue(p)[1..]| == 0;
  }

  /** Slicing and dropping infinite answers commute. */
  lemma {:induction false} SliceFinite(ss: seq<AnswerSeries>, t: int)
    ensures Slice(FiniteSeries(ss), t) == FinitePoints(Slice(ss, t))
  {
    hide Tagged, FiniteValues, At, FiniteOnly;
    if ss != [] {
      var s := ss[0];
      SliceFinite(ss[1..], t);
      assert FiniteSeries(ss)[1..] == FiniteSeries(ss[1..]);
      FinitePointsConcat(Tagged(s.metric, s.labels, t, At(s.points, t)), Slice(ss[1..], t));
      TaggedFinite(s.metric, s.labels, t, At(s.points, t));
      AtFinite(s.points, t);
    }
  }

  // ---------- when nothing is dropped ----------

  lemma CrossingFinite(bs: seq<Bucket>, target: real, c: nat)
    requires EdgesSorted(bs) && EdgesApart(bs) && CrossesAt(bs, target, c)
    ensures AnswerAt(bs, target, c).Fin?
  {
    if c > 0 {
      assert LeAtMost(bs[c - 1].0, bs[c].0);
      assert bs[c - 1] in bs && bs[c] in bs;
    }
  }

  lemma {:induction false} LastFiniteIsFinite(bs: seq<Bucket>)
    ensures LastFinite(bs).Some? ==> LastFinite(bs).value.Fin?
  {
    if bs != [] {
      LastFiniteIsFinite(bs[..|bs| - 1]);
    }
  }

  lemma {:induction false} AnswerFinite(bs: seq<Bucket>, q: real)
    requires EdgesApart(bs) && q > 0.0
    ensures GroupQuantile(bs, q).Some? ==> GroupQuantile(bs, q).value.Fin?
  {
    hide StableSort;
    var r := SortedBuckets(bs);
    SortedAgain(bs);
    SortPermutes(bs, EdgeBefore);
    hide Quantile.Quantile, SortedBuckets;
    forall b | b in r ensures b in bs {
      assert b in multiset(r);
    }
    if |r| >= 2 && r[|r| - 1].1 > 0.0 {
      if q < 1.0 {
        var c := CrossingExists(r, q);
        QuantileAnswers(r, q, c);
        CrossingFinite(r, Target(r, q), c);
      } else {
        LastFiniteIsFinite(r);
        TopAnswer(r, q);
      }
    } else {
      NothingAnswered(r, q);
    }
  }

  lemma TopAnswer(bs: seq<Bucket>, q: real)
    requires |bs| >= 2 && EdgesSorted(bs) && bs[|bs| - 1].1 > 0.0 && q >= 1.0
    ensures Quantile.Quantile(bs, q) == LastFinite(bs)
  {
  }

  lemma NothingAnswered(bs: seq<Bucket>, q: real)
    requires EdgesSorted(bs) && (|bs| < 2 || bs[|bs| - 1].1 <= 0.0)
    ensures Quantile.Quantile(bs, q) == None
  {
  }

  /** Above quantile 0, groups without equal edges have finite answers only. */
  lemma {:induction false} AnswersFinite(parse: ParseLe, lt: LabelOrder, pts: seq<InstantPoint>, q: real, t: int)
    requires StrictTotal(lt) && DistinctEdges(parse, pts) && q > 0.0
    ensures forall p :: p in HistInstant(parse, lt, pts, q, t) ==> p.value.Fin?
  {
    hide StrictTotal, DistinctEdges, HistKeys, HistInstantOver;
    AnswersFiniteOver(parse, pts, q, t, Sorted(HistKeys(parse, pts), lt));
  }

  lemma {:induction false} AnswersFiniteOver(parse: ParseLe, pts: seq<InstantPoint>, q: real, t: int, ks: seq<Labels>)
    requires DistinctEdges(parse, pts) && q > 0.0
    ensures forall p :: p in HistInstantOver(parse, pts, q, t, ks) ==> p.value.Fin?
  {
    hide GroupQuantile, Buckets, EdgesApart;
    if ks != [] {
      assert EdgesApart(Buckets(parse, pts, ks[0]));
      AnswerFinite(Buckets(parse, pts, ks[0]), q);
      AnswersFiniteOver(parse, pts, q, t, ks[1..]);
    }
  }
}

/** Instant and range vectors, grouping labels, and the slice of a range vector at
    one timestamp. */
module Vectors {
  import opened Orders
  import IngestBuffer

  type Labels = IngestBuffer.Labels

  /** A point, and a series of points, with values of type `V`. */
  datatype PointOf<V> = InstantPoint(metric: string, labels: Labels, ts: int, value: V)

  datatype SeriesOf<V> = RangePoints(metric: string, labels: Labels, points: seq<(int, V)>)

  type InstantPoint = PointOf<real>

  type RangePoints = SeriesOf<real>

  datatype LabelModifier = Include(ls: seq<string>) | Exclude(ls: seq<string>) | NoModifier

  /** The group key that `by(...)`, `without(...)` or no modifier leaves. */
  function Retained(labels: Labels, m: LabelModifier): Labels
  {
    match m
    case Include(ls) => map k | k in labels && k in ls :: labels[k]
    case Exclude(ls) => map k | k in labels && k !in ls :: labels[k]
    case NoModifier => map[]
  }

  // ---------- slices ----------

  /** The values at timestamp `t`, in order. */
  function At<V>(points: seq<(int, V)>, t: int): seq<V>
  {
    if points == [] then [] else (if points[0].0 == t then [points[0].1] else []) + At(points[1..], t)
  }

  lemma {:induction false} AtConcat<V>(a: seq<(int, V)>, b: seq<(int, V)>, t: int)
    ensures At(a + b, t) == At(a, t) + At(b, t)
  {
    if a == [] {
      assert a + b == b;
    } else {
      AtConcat(a[1..], b, t);
      assert (a + b)[0] == a[0] && (a + b)[1..] == a[1..] + b;
    }
  }

  function Tagged<V>(metric: string, labels: Labels, t: int, vs: seq<V>): (r: seq<PointOf<V>>)
    ensures |r| == |vs|
    ensures forall i :: 0 <= i < |r| ==> r[i] == InstantPoint(metric, labels, t, vs[i])
  {
    seq(|vs|, i requires 0 <= i < |vs| => InstantPoint(metric, labels, t, vs[i]))
  }

  lemma TaggedConcat<V>(metric: string, labels: Labels, t: int, a: seq<V>, b: seq<V>)
    ensures Tagged(metric, labels, t, a + b) == Tagged(metric, labels, t, a) + Tagged(metric, labels, t, b)
  {
  }

  /** The instant vector a range vector shows at `t`. */
  function Slice<V>(ss: seq<SeriesOf<V>>, t: int): seq<PointOf<V>>
  {
    if ss == [] then []
    else Tagged(ss[0].metric, ss[0].labels, t, At(ss[0].points, t)) + Slice(ss[1..], t)
  }

  lemma {:induction false} SliceConcat<V>(a: seq<SeriesOf<V>>, b: seq<SeriesOf<V>>, t: int)
    ensures Slice(a + b, t) == Slice(a, t) + Slice(b, t)
  {
    if a == [] {
      assert a + b == b;
    } else {
      SliceConcat(a[1..], b, t);
      assert (a + b)[0] == a[0] && (a + b)[1..] == a[1..] + b;
      hide Tagged;
      Assoc(Tagged(a[0].metric, a[0].labels, t, At(a[0].points, t)), Slice(a[1..], t), Slice(b, t));
    }
  }

  lemma Assoc<T>(x: seq<T>, y: seq<T>, z: seq<T>)
    ensures x + (y + z) == x + y + z
  {
  }

  lemma SliceOne<V>(s: SeriesOf<V>, t: int)
    ensures Slice([s], t) == Tagged(s.metric, s.labels, t, At(s.points, t))
  {
    assert [s][1..] == [];
  }

  lemma SliceNone<V>(t: int)
    ensures Slice<V>([], t) == []
  {
  }

  lemma AtNone<V>(t: int)
    ensures At<V>([], t) == []
  {
  }

  /** The distinct timestamps of some points. */
  function Times<V(==)>(points: seq<(int, V)>): set<int> { set p | p in points :: p.0 }

  lemma {:induction false} AtTimes<V>(points: seq<(int, V)>, t: int)
    ensures At(points, t) != [] <==> t in Times(points)
  {
    if points != [] {
      AtTimes(points[1..], t);
      assert points == [points[0]] + points[1..];
      if t in Times(points) && points[0].0 != t {
        var p :| p in points && p.0 == t;
        assert p in points[1..];
      }
    }
  }

  ghost predicate DistinctTimes<V>(points: seq<(int, V)>)
  {
    forall i, j :: 0 <= i < j < |points| ==> points[i].0 != points[j].0
  }

  ghost predicate DistinctLabels<V>(ss: seq<SeriesOf<V>>)
  {
    forall i, j :: 0 <= i < j < |ss| ==> ss[i].labels != ss[j].labels
  }

  /** What every range operator needs of its input and gives of its output: one
      series per label set, one value per timestamp. */
  ghost predicate WellFormed<V>(ss: seq<SeriesOf<V>>)
  {
    DistinctLabels(ss) && forall i :: 0 <= i < |ss| ==> DistinctTimes(ss[i].points)
  }

  lemma WellFormedJoin<V>(a: seq<SeriesOf<V>>, b: seq<SeriesOf<V>>)
    requires WellFormed(a) && WellFormed(b)
    requires forall s, q :: s in a && q in b ==> s.labels != q.labels
    ensures WellFormed(a + b)
  {
    forall i, j | 0 <= i < j < |a + b| ensures (a + b)[i].labels != (a + b)[j].labels {
      if i < |a| <= j {
        assert a[i] in a && b[j - |a|] in b;
      }
    }
  }

  ghost predicate DistinctPoints<V>(pts: seq<PointOf<V>>)
  {
    forall i, j :: 0 <= i < j < |pts| ==> pts[i].labels != pts[j].labels
  }

  lemma {:induction false} AtDistinct<V>(points: seq<(int, V)>, t: int)
    requires DistinctTimes(points)
    ensures |At(points, t)| <= 1
  {
    if points != [] {
      AtDistinct(points[1..], t);
      AtTimes(points[1..], t);
      forall p | p in points[1..] ensures p.0 != points[0].0 {
        var i :| 0 <= i < |points[1..]| && points[1..][i] == p;
        assert points[i + 1] == p;
      }
    }
  }

  /** Every point of a slice comes from a series with its name and labels. */
  lemma {:induction false} SliceFrom<V>(ss: seq<SeriesOf<V>>, t: int, p: PointOf<V>)
    requires p in Slice(ss, t)
    ensures p.ts == t && exists i :: FromSeries(ss, i, p)
  {
    var head := Tagged(ss[0].metric, ss[0].labels, t, At(ss[0].points, t));
    if p in head {
      AtIn(ss[0].points, t, p.value);
      assert FromSeries(ss, 0, p);
    } else {
      SliceFrom(ss[1..], t, p);
      var i :| FromSeries(ss[1..], i, p);
      assert FromSeries(ss, i + 1, p);
    }
  }

  ghost predicate FromSeries<V>(ss: seq<SeriesOf<V>>, i: int, p: PointOf<V>)
  {
    && 0 <= i < |ss| && ss[i].metric == p.metric && ss[i].labels == p.labels
    && (p.ts, p.value) in ss[i].points
  }

  lemma {:induction false} AtIn<V>(points: seq<(int, V)>, t: int, v: V)
    ensures v in At(points, t) <==> (t, v) in points
  {
    if points != [] {
      AtIn(points[1..], t, v);
      assert points == [points[0]] + points[1..];
    }
  }

  lemma {:induction false} SliceDistinct<V>(ss: seq<SeriesOf<V>>, t: int)
    requires WellFormed(ss)
    ensures DistinctPoints(Slice(ss, t))
  {
    if ss != [] {
      SliceDistinct(ss[1..], t);
      AtDistinct(ss[0].points, t);
      var rest := Slice(ss[1..], t);
      forall j | 0 <= j < |rest| ensures rest[j].labels != ss[0].labels {
        SliceFrom(ss[1..], t, rest[j]);
        var i :| FromSeries(ss[1..], i, rest[j]);
        assert ss[i + 1] == ss[1..][i];
      }
    }
  }

  /** A timestamp-ascending list of points shows one value at a time it has. */
  lemma {:induction false} AtAscending<V>(ts: seq<int>, f: int -> V, t: int)
    requires Ascending(ts, IntLess)
    ensures At(PointsOver(ts, f), t) == if t in ts then [f(t)] else []
  {
    if ts != [] {
      assert PointsOver(ts, f)[1..] == PointsOver(ts[1..], f);
      AtAscending(ts[1..], f, t);
      HeadLeast(ts, IntLess);
      assert ts == [ts[0]] + ts[1..];
    }
  }

  function PointsOver<V>(ts: seq<int>, f: int -> V): (r: seq<(int, V)>)
    ensures |r| == |ts|
    ensures forall i :: 0 <= i < |r| ==> r[i] == (ts[i], f(ts[i]))
  {
    seq(|ts|, i requires 0 <= i < |ts| => (ts[i], f(ts[i])))
  }

  lemma PointsOverDistinct<V>(ts: seq<int>, f: int -> V)
    requires Ascending(ts, IntLess)
    ensures DistinctTimes(PointsOver(ts, f))
  {
    forall i, j | 0 <= i < j < |ts| ensures ts[i] != ts[j] {
      assert IntLess(ts[i], ts[j]);
    }
  }
}

/** Binary operators between a scalar and a vector and between two vectors. */
module Binary {
  import opened Wrappers
  import opened Sorting
  import opened Vectors
  import opened TopKRange

  datatype BinOp = Add | Sub | Mul | Div | Mod | Pow | Eq | Ne | Lt | Le | Gt | Ge

  /** Division, remainder and power, which real numbers do not settle. */
  datatype Arith = Arith(div: (real, real) -> real, rem: (real, real) -> real, pow: (real, real) -> real)

  predicate IsComparison(op: BinOp) { op in {Eq, Ne, Lt, Le, Gt, Ge} }

  predicate ComparisonPasses(a: real, b: real, op: BinOp)
  {
    match op
    case Eq => a == b
    case Ne => a != b
    case Lt => a < b
    case Le => a <= b
    case Gt => a > b
    case Ge => a >= b
    case _ => true
  }

  function ApplyBinValue(ar: Arith, a: real, b: real, op: BinOp): real
  {
    match op
    case Add => a + b
    case Sub => a - b
    case Mul => a * b
    case Div => ar.div(a, b)
    case Mod => ar.rem(a, b)
    case Pow => ar.pow(a, b)
    case _ => if ComparisonPasses(a, b, op) then 1.0 else 0.0
  }

  /** An operator and whether `bool` was written; a comparison without it filters. */
  datatype BinSpec = BinSpec(ar: Arith, op: BinOp, returnBool: bool) {
    predicate Filters() { IsComparison(op) && !returnBool }

    /** The result for operands `a` and `b`; a filter passes `keep`. */
    function Combine(a: real, b: real, keep: real): Option<real>
    {
      if !Filters() then Some(ApplyBinValue(ar, a, b, op))
      else if ComparisonPasses(a, b, op) then Some(keep)
      else None
    }

    /** Results of arithmetic lose their name. */
    function Name(metric: string): string { if Filters() then metric else "" }
  }

  // ---------- scalar and vector ----------

  function ScalarValue(sp: BinSpec, c: real, left: bool, v: real): Option<real>
  {
    if left then sp.Combine(c, v, v) else sp.Combine(v, c, v)
  }

  function ScalarPoint(sp: BinSpec, c: real, left: bool, p: InstantPoint): seq<InstantPoint>
  {
    match ScalarValue(sp, c, left, p.value)
    case None => []
    case Some(w) => [InstantPoint(sp.Name(p.metric), p.labels, p.ts, w)]
  }

  function ScalarVectorInstant(sp: BinSpec, c: real, left: bool, pts: seq<InstantPoint>): seq<InstantPoint>
  {
    if pts == [] then [] else ScalarPoint(sp, c, left, pts[0]) + ScalarVectorInstant(sp, c, left, pts[1..])
  }

  function ScalarPoints(sp: BinSpec, c: real, left: bool, points: seq<(int, real)>): seq<(int, real)>
  {
    if points == [] then [] else ScalarAtTime(sp, c, left, points[0]) + ScalarPoints(sp, c, left, points[1..])
  }

  function ScalarAtTime(sp: BinSpec, c: real, left: bool, p: (int, real)): seq<(int, real)>
  {
    match ScalarValue(sp, c, left, p.1)
    case None => []
    case Some(w) => [(p.0, w)]
  }

  /** A series with its new points, unless it has none left. */
  function Rebuilt(sp: BinSpec, s: RangePoints, points: seq<(int, real)>): seq<RangePoints>
  {
    if points == [] then [] else [RangePoints(sp.Name(s.metric), s.labels, points)]
  }

  function ScalarVectorRange(sp: BinSpec, c: real, left: bool, ss: seq<RangePoints>): seq<RangePoints>
  {
    if ss == [] then []
    else Rebuilt(sp, ss[0], ScalarPoints(sp, c, left, ss[0].points)) + ScalarVectorRange(sp, c, left, ss[1..])
  }

  lemma {:induction false} ScalarConcat(sp: BinSpec, c: real, left: bool, a: seq<InstantPoint>, b: seq<InstantPoint>)
    ensures ScalarVectorInstant(sp, c, left, a + b)
         == ScalarVectorInstant(sp, c, left, a) + ScalarVectorInstant(sp, c, left, b)
  {
    hide ScalarPoint;
    if a == [] {
      assert a + b == b;
    } else {
      ScalarConcat(sp, c, left, a[1..], b);
      assert (a + b)[0] == a[0] && (a + b)[1..] == a[1..] + b;
      Assoc(ScalarPoint(sp, c, left, a[0]), ScalarVectorInstant(sp, c, left, a[1..]), ScalarVectorInstant(sp, c, left, b));
    }
  }

  lemma {:induction false} ScalarAt(sp: BinSpec, c: real, left: bool, metric: string, labels: Labels,
                                    points: seq<(int, real)>, t: int)
    ensures Tagged(sp.Name(metric), labels, t, At(ScalarPoints(sp, c, left, points), t))
         == ScalarVectorInstant(sp, c, left, Tagged(metric, labels, t, At(points, t)))
  {
    if points != [] {
      ScalarAt(sp, c, left, metric, labels, points[1..], t);
      hide ScalarValue;
      var here := if points[0].0 == t then [points[0].1] else [];
      var rest := At(points[1..], t);
      assert Tagged(metric, labels, t, here + rest) == Tagged(metric, labels, t, here) + Tagged(metric, labels, t, rest);
      ScalarConcat(sp, c, left, Tagged(metric, labels, t, here), Tagged(metric, labels, t, rest));
      ScalarOne(sp, c, left, metric, labels, points, t);
    }
  }

  lemma ScalarOne(sp: BinSpec, c: real, left: bool, metric: string, labels: Labels, points: seq<(int, real)>, t: int)
    requires points != []
    ensures var here := if points[0].0 == t then [points[0].1] else [];
      Tagged(sp.Name(metric), labels, t, At(ScalarPoints(sp, c, left, points), t))
      == ScalarVectorInstant(sp, c, left, Tagged(metric, labels, t, here))
         + Tagged(sp.Name(metric), labels, t, At(ScalarPoints(sp, c, left, points[1..]), t))
  {
    hide ScalarValue, At, Tagged, ScalarAtTime;
    var head, rest := ScalarAtTime(sp, c, left, points[0]), ScalarPoints(sp, c, left, points[1..]);
    AtConcat(head, rest, t);
    TaggedConcat(sp.Name(metric), labels, t, At(head, t), At(rest, t));
    ScalarHead(sp, c, left, metric, labels, points[0], t);
  }

  lemma ScalarHead(sp: BinSpec, c: real, left: bool, metric: string, labels: Labels, q: (int, real), t: int)
    ensures Tagged(sp.Name(metric), labels, t, At(ScalarAtTime(sp, c, left, q), t))
         == ScalarVectorInstant(sp, c, left, Tagged(metric, labels, t, if q.0 == t then [q.1] else []))
  {
    hide ScalarValue;
    if q.0 == t {
      var p := InstantPoint(metric, labels, t, q.1);
      assert Tagged(metric, labels, t, [q.1]) == [p];
      assert |[p][1..]| == 0;
      assert ScalarVectorInstant(sp, c, left, [p]) == ScalarPoint(sp, c, left, p) + [];
    }
  }

  lemma RebuiltAt(sp: BinSpec, s: RangePoints, points: seq<(int, real)>, t: int)
    ensures Slice(Rebuilt(sp, s, points), t) == Tagged(sp.Name(s.metric), s.labels, t, At(points, t))
  {
    SliceOne(RangePoints(sp.Name(s.metric), s.labels, points), t);
  }

  /** A scalar operator on a range vector is the operator at every timestamp. */
  lemma {:induction false} ScalarLifts(sp: BinSpec, c: real, left: bool, ss: seq<RangePoints>, t: int)
    ensures Slice(ScalarVectorRange(sp, c, left, ss), t) == ScalarVectorInstant(sp, c, left, Slice(ss, t))
  {
    hide Rebuilt, ScalarPoints, At, Tagged, ScalarVectorInstant;
    if ss == [] {
      ScalarNone(sp, c, left);
    } else {
      var s := ss[0];
      ScalarLifts(sp, c, left, ss[1..], t);
      SliceConcat(Rebuilt(sp, s, ScalarPoints(sp, c, left, s.points)), ScalarVectorRange(sp, c, left, ss[1..]), t);
      RebuiltAt(sp, s, ScalarPoints(sp, c, left, s.points), t);
      ScalarAt(sp, c, left, s.metric, s.labels, s.points, t);
      ScalarConcat(sp, c, left, Tagged(s.metric, s.labels, t, At(s.points, t)), Slice(ss[1..], t));
    }
  }

  lemma ScalarNone(sp: BinSpec, c: real, left: bool)
    ensures ScalarVectorInstant(sp, c, left, []) == []
  {
  }

  lemma {:induction false} ScalarPermutes(sp: BinSpec, c: real, left: bool, a: seq<InstantPoint>, b: seq<InstantPoint>)
    requires multiset(a) == multiset(b)
    ensures multiset(ScalarVectorInstant(sp, c, left, a)) == multiset(ScalarVectorInstant(sp, c, left, b))
  {
    hide ScalarPoint;
    if a == [] {
      assert |multiset(b)| == 0;
    } else {
      var i := TakeOut(a, b);
      ScalarConcat(sp, c, left, b[..i], [b[i]] + b[i + 1..]);
      ScalarConcat(sp, c, left, [b[i]], b[i + 1..]);
      ScalarConcat(sp, c, left, b[..i], b[i + 1..]);
      assert [b[i]][1..] == [];
      ScalarPermutes(sp, c, left, a[1..], b[..i] + b[i + 1..]);
    }
  }

  // ---------- vector and vector ----------

  /** The right side by labels; the last point of a label set wins. */
  function IndexPoints(rhs: seq<InstantPoint>): map<Labels, real>
  {
    if rhs == [] then map[] else IndexPoints(rhs[..|rhs| - 1])[rhs[|rhs| - 1].labels := rhs[|rhs| - 1].value]
  }

  function MatchPoint(sp: BinSpec, l: InstantPoint, index: map<Labels, real>): seq<InstantPoint>
  {
    if l.labels !in index then []
    else
      match sp.Combine(l.value, index[l.labels], l.value)
      case None => []
      case Some(w) => [InstantPoint(sp.Name(l.metric), l.labels, l.ts, w)]
  }

  function MatchPoints(sp: BinSpec, lhs: seq<InstantPoint>, index: map<Labels, real>): seq<InstantPoint>
  {
    if lhs == [] then [] else MatchPoint(sp, lhs[0], index) + MatchPoints(sp, lhs[1..], index)
  }

  function VectorVectorInstant(sp: BinSpec, lhs: seq<InstantPoint>, rhs: seq<InstantPoint>): seq<InstantPoint>
  {
    MatchPoints(sp, lhs, IndexPoints(rhs))
  }

  function IndexSeries(rhs: seq<RangePoints>): map<Labels, map<int, real>>
  {
    if rhs == [] then map[] else IndexSeries(rhs[..|rhs| - 1])[rhs[|rhs| - 1].labels := ToMap(rhs[|rhs| - 1].points)]
  }

  function MatchOne(sp: BinSpec, p: (int, real), r: map<int, real>): seq<(int, real)>
  {
    if p.0 !in r then []
    else
      match sp.Combine(p.1, r[p.0], p.1)
      case None => []
      case Some(w) => [(p.0, w)]
  }

  function MatchTimes(sp: BinSpec, points: seq<(int, real)>, r: map<int, real>): seq<(int, real)>
  {
    if points == [] then [] else MatchOne(sp, points[0], r) + MatchTimes(sp, points[1..], r)
  }

  function MatchSeries(sp: BinSpec, l: RangePoints, index: map<Labels, map<int, real>>): seq<RangePoints>
  {
    if l.labels in index then Rebuilt(sp, l, MatchTimes(sp, l.points, index[l.labels])) else []
  }

  function MatchAll(sp: BinSpec, lhs: seq<RangePoints>, index: map<Labels, map<int, real>>): seq<RangePoints>
  {
    if lhs == [] then [] else MatchSeries(sp, lhs[0], index) + MatchAll(sp, lhs[1..], index)
  }

  function VectorVectorRange(sp: BinSpec, lhs: seq<RangePoints>, rhs: seq<RangePoints>): seq<RangePoints>
  {
    MatchAll(sp, lhs, IndexSeries(rhs))
  }

  // ---------- the loops ----------

  lemma {:induction false} MatchPointsConcat(sp: BinSpec, a: seq<InstantPoint>, b: seq<InstantPoint>, index: map<Labels, real>)
    ensures MatchPoints(sp, a + b, index) == MatchPoints(sp, a, index) + MatchPoints(sp, b, index)
  {
    hide MatchPoint;
    if a == [] {
      assert a + b == b;
    } else {
      MatchPointsConcat(sp, a[1..], b, index);
      assert (a + b)[0] == a[0] && (a + b)[1..] == a[1..] + b;
      Assoc(MatchPoint(sp, a[0], index), MatchPoints(sp, a[1..], index), MatchPoints(sp, b, index));
    }
  }

  method ApplyVectorVectorInstant(sp: BinSpec, lhs: seq<InstantPoint>, rhs: seq<InstantPoint>) returns (out: seq<InstantPoint>)
    ensures out == VectorVectorInstant(sp, lhs, rhs)
  {
    var rhsIndex: map<Labels, real> := map[];
    for i := 0 to |rhs|
      invariant rhsIndex == IndexPoints(rhs[..i])
    {
      assert rhs[..i + 1][..i] == rhs[..i];
      rhsIndex := rhsIndex[rhs[i].labels := rhs[i].value];
    }
    assert rhs[..|rhs|] == rhs;
    hide IndexPoints;
    out := [];
    for i := 0 to |lhs|
      invariant out + MatchPoints(sp, lhs[i..], rhsIndex) == MatchPoints(sp, lhs, rhsIndex)
    {
      var l := lhs[i];
      assert lhs[i..][1..] == lhs[i + 1..];
      ghost var before := out;
      if l.labels in rhsIndex {
        var rv := rhsIndex[l.labels];
        if IsComparison(sp.op) && !sp.returnBool {
          if ComparisonPasses(l.value, rv, sp.op) {
            out := out + [l];
          }
        } else {
          out := out + [InstantPoint("", l.labels, l.ts, ApplyBinValue(sp.ar, l.value, rv, sp.op))];
        }
      }
      assert out == before + MatchPoint(sp, l, rhsIndex);
      Assoc(before, MatchPoint(sp, l, rhsIndex), MatchPoints(sp, lhs[i + 1..], rhsIndex));
    }
  }

  method MatchTimestamps(sp: BinSpec, points: seq<(int, real)>, r: map<int, real>) returns (out: seq<(int, real)>)
    ensures out == MatchTimes(sp, points, r)
  {
    out := [];
    for i := 0 to |points|
      invariant out + MatchTimes(sp, points[i..], r) == MatchTimes(sp, points, r)
    {
      var (ts, lv) := points[i];
      assert points[i..][1..] == points[i + 1..];
      ghost var before := out;
      if ts in r {
        if IsComparison(sp.op) && !sp.returnBool {
          if ComparisonPasses(lv, r[ts], sp.op) {
            out := out + [(ts, lv)];
          }
        } else {
          out := out + [(ts, ApplyBinValue(sp.ar, lv, r[ts], sp.op))];
        }
      }
      assert out == before + MatchOne(sp, points[i], r);
      Assoc(before, MatchOne(sp, points[i], r), MatchTimes(sp, points[i + 1..], r));
    }
  }

  method ApplyVectorVectorRange(sp: BinSpec, lhs: seq<RangePoints>, rhs: seq<RangePoints>) returns (out: seq<RangePoints>)
    ensures out == VectorVectorRange(sp, lhs, rhs)
  {
    var rhsIndex: map<Labels, map<int, real>> := map[];
    for i := 0 to |rhs|
      invariant rhsIndex == IndexSeries(rhs[..i])
    {
      assert rhs[..i + 1][..i] == rhs[..i];
      rhsIndex := rhsIndex[rhs[i].labels := ToMap(rhs[i].points)];
    }
    assert rhs[..|rhs|] == rhs;
    hide IndexSeries, MatchTimes;
    out := [];
    for i := 0 to |lhs|
      invariant out + MatchAll(sp, lhs[i..], rhsIndex) == MatchAll(sp, lhs, rhsIndex)
    {
      var l := lhs[i];
      assert lhs[i..][1..] == lhs[i + 1..];
      ghost var before := out;
      if l.labels in rhsIndex {
        var newPoints := MatchTimestamps(sp, l.points, rhsIndex[l.labels]);
        if newPoints != [] {
          out := out + [RangePoints(if IsComparison(sp.op) && !sp.returnBool then l.metric else "", l.labels, newPoints)];
        }
      }
      assert out == before + MatchSeries(sp, l, rhsIndex);
      Assoc(before, MatchSeries(sp, l, rhsIndex), MatchAll(sp, lhs[i + 1..], rhsIndex));
    }
  }

  // ---------- range evaluation is instant evaluation, timestamp by timestamp ----------

  lemma {:induction false} IndexPointsHas(rhs: seq<InstantPoint>)
    ensures forall l :: l in IndexPoints(rhs) ==> exists p :: p in rhs && p.labels == l && p.value == IndexPoints(rhs)[l]
    ensures forall p :: p in rhs ==> p.labels in IndexPoints(rhs)
  {
    if rhs != [] {
      var n := |rhs| - 1;
      IndexPointsHas(rhs[..n]);
      assert rhs == rhs[..n] + [rhs[n]];
    }
  }

  lemma {:induction false} IndexSeriesHas(rhs: seq<RangePoints>)
    ensures forall l :: l in IndexSeries(rhs) ==> exists s :: s in rhs && s.labels == l && IndexSeries(rhs)[l] == ToMap(s.points)
    ensures forall s :: s in rhs ==> s.labels in IndexSeries(rhs)
  {
    hide ToMap;
    if rhs != [] {
      var n := |rhs| - 1;
      IndexSeriesHas(rhs[..n]);
      assert rhs == rhs[..n] + [rhs[n]];
    }
  }

  /** What the slice's index says is what the series' index says at `t`. */
  lemma IndexAt(rhs: seq<RangePoints>, t: int, l: Labels)
    requires WellFormed(rhs)
    ensures l in IndexPoints(Slice(rhs, t)) <==> l in IndexSeries(rhs) && t in IndexSeries(rhs)[l]
    ensures l in IndexPoints(Slice(rhs, t)) ==> IndexPoints(Slice(rhs, t))[l] == IndexSeries(rhs)[l][t]
  {
    var pts := Slice(rhs, t);
    IndexPointsHas(pts);
    IndexSeriesHas(rhs);
    hide IndexPoints, IndexSeries, Slice, ToMap;
    if l in IndexPoints(pts) {
      var p :| p in pts && p.labels == l && p.value == IndexPoints(pts)[l];
      PointsOfSeries(rhs, t, p, l);
    }
    if l in IndexSeries(rhs) && t in IndexSeries(rhs)[l] {
      var s :| s in rhs && s.labels == l && IndexSeries(rhs)[l] == ToMap(s.points);
      SeriesShows(rhs, t, s);
    }
  }

  lemma PointsOfSeries(rhs: seq<RangePoints>, t: int, p: InstantPoint, l: Labels)
    requires WellFormed(rhs) && p in Slice(rhs, t) && p.labels == l
    ensures l in IndexSeries(rhs) && t in IndexSeries(rhs)[l] && IndexSeries(rhs)[l][t] == p.value
  {
    hide IndexSeries, Slice, ToMap;
    IndexSeriesHas(rhs);
    SliceFrom(rhs, t, p);
    var i :| FromSeries(rhs, i, p);
    assert rhs[i] in rhs;
    var s :| s in rhs && s.labels == l && IndexSeries(rhs)[l] == ToMap(s.points);
    var j :| 0 <= j < |rhs| && rhs[j] == s;
    assert i == j;
    OnlyValue(s.points, t, p.value);
  }

  lemma OnlyValue(points: seq<(int, real)>, t: int, v: real)
    requires DistinctTimes(points) && (t, v) in points
    ensures t in ToMap(points) && ToMap(points)[t] == v
  {
    OneValueAt(points, t);
    AtIn(points, t, v);
  }

  lemma {:induction false} SeriesShows(rhs: seq<RangePoints>, t: int, s: RangePoints)
    requires s in rhs && t in ToMap(s.points)
    ensures exists p :: p in Slice(rhs, t) && p.labels == s.labels
  {
    ToMapKeys(s.points);
    AtTimes(s.points, t);
    hide ToMap;
    if rhs[0] == s {
      var here := Tagged(s.metric, s.labels, t, At(s.points, t));
      assert here[0] in Slice(rhs, t);
    } else {
      SeriesShows(rhs[1..], t, s);
    }
  }

  lemma {:induction false} MatchAt(sp: BinSpec, metric: string, labels: Labels, points: seq<(int, real)>,
                                   r: map<int, real>, index: map<Labels, real>, t: int)
    requires labels in index <==> t in r
    requires labels in index ==> index[labels] == r[t]
    ensures Tagged(sp.Name(metric), labels, t, At(MatchTimes(sp, points, r), t))
         == MatchPoints(sp, Tagged(metric, labels, t, At(points, t)), index)
  {
    if points != [] {
      MatchAt(sp, metric, labels, points[1..], r, index, t);
      var here := if points[0].0 == t then [points[0].1] else [];
      var rest := At(points[1..], t);
      assert Tagged(metric, labels, t, here + rest) == Tagged(metric, labels, t, here) + Tagged(metric, labels, t, rest);
      MatchPointsConcat(sp, Tagged(metric, labels, t, here), Tagged(metric, labels, t, rest), index);
      MatchHere(sp, metric, labels, points, r, index, t);
    }
  }

  lemma {:induction false} MatchHere(sp: BinSpec, metric: string, labels: Labels, points: seq<(int, real)>, r: map<int, real>,
                  index: map<Labels, real>, t: int)
    requires points != []
    requires labels in index <==> t in r
    requires labels in index ==> index[labels] == r[t]
    ensures var here := if points[0].0 == t then [points[0].1] else [];
      Tagged(sp.Name(metric), labels, t, At(MatchTimes(sp, points, r), t))
      == MatchPoints(sp, Tagged(metric, labels, t, here), index)
         + Tagged(sp.Name(metric), labels, t, At(MatchTimes(sp, points[1..], r), t))
  {
    hide At, Tagged, MatchOne;
    var head, rest := MatchOne(sp, points[0], r), MatchTimes(sp, points[1..], r);
    AtConcat(head, rest, t);
    TaggedConcat(sp.Name(metric), labels, t, At(head, t), At(rest, t));
    MatchHead(sp, metric, labels, points[0], r, index, t);
  }

  lemma MatchHead(sp: BinSpec, metric: string, labels: Labels, q: (int, real), r: map<int, real>,
                  index: map<Labels, real>, t: int)
    requires labels in index <==> t in r
    requires labels in index ==> index[labels] == r[t]
    ensures Tagged(sp.Name(metric), labels, t, At(MatchOne(sp, q, r), t))
         == MatchPoints(sp, Tagged(metric, labels, t, if q.0 == t then [q.1] else []), index)
  {
    if q.0 == t {
      var p := InstantPoint(metric, labels, t, q.1);
      assert Tagged(metric, labels, t, [q.1]) == [p];
      assert |[p][1..]| == 0;
      assert MatchPoints(sp, [p], index) == MatchPoint(sp, p, index) + [];
    }
  }

  lemma {:induction false} MatchNone(sp: BinSpec, pts: seq<InstantPoint>, index: map<Labels, real>)
    requires forall p :: p in pts ==> p.labels !in index
    ensures MatchPoints(sp, pts, index) == []
  {
    if pts != [] {
      assert pts[0] in pts && pts == [pts[0]] + pts[1..];
      MatchNone(sp, pts[1..], index);
    }
  }

  lemma MatchSeriesAt(sp: BinSpec, l: RangePoints, rhs: seq<RangePoints>, t: int)
    requires WellFormed(rhs)
    ensures Slice(MatchSeries(sp, l, IndexSeries(rhs)), t)
         == MatchPoints(sp, Tagged(l.metric, l.labels, t, At(l.points, t)), IndexPoints(Slice(rhs, t)))
  {
    hide IndexSeries, IndexPoints, MatchTimes, WellFormed, MatchPoints, At;
    var index, series := IndexPoints(Slice(rhs, t)), IndexSeries(rhs);
    IndexAt(rhs, t, l.labels);
    SliceNone<real>(t);
    if l.labels in series {
      RebuiltAt(sp, l, MatchTimes(sp, l.points, series[l.labels]), t);
      MatchAt(sp, l.metric, l.labels, l.points, series[l.labels], index, t);
    } else {
      MatchNone(sp, Tagged(l.metric, l.labels, t, At(l.points, t)), index);
    }
  }

  lemma {:induction false} MatchAllAt(sp: BinSpec, lhs: seq<RangePoints>, rhs: seq<RangePoints>, t: int)
    requires WellFormed(rhs)
    ensures Slice(MatchAll(sp, lhs, IndexSeries(rhs)), t) == MatchPoints(sp, Slice(lhs, t), IndexPoints(Slice(rhs, t)))
  {
    hide IndexSeries, IndexPoints, WellFormed, MatchSeries, At, MatchPoint, Tagged;
    if lhs != [] {
      var l, index := lhs[0], IndexPoints(Slice(rhs, t));
      MatchAllAt(sp, lhs[1..], rhs, t);
      SliceConcat(MatchSeries(sp, l, IndexSeries(rhs)), MatchAll(sp, lhs[1..], IndexSeries(rhs)), t);
      MatchSeriesAt(sp, l, rhs, t);
      MatchPointsConcat(sp, Tagged(l.metric, l.labels, t, At(l.points, t)), Slice(lhs[1..], t), index);
    }
  }

  /** Matching two range vectors is matching what they show at every timestamp. */
  lemma {:induction false} VectorLifts(sp: BinSpec, lhs: seq<RangePoints>, rhs: seq<RangePoints>, t: int)
    requires WellFormed(rhs)
    ensures Slice(VectorVectorRange(sp, lhs, rhs), t) == VectorVectorInstant(sp, Slice(lhs, t), Slice(rhs, t))
  {
    MatchAllAt(sp, lhs, rhs, t);
  }

  // ---------- the order of the input does not matter ----------

  lemma {:induction false} MatchPermutes(sp: BinSpec, a: seq<InstantPoint>, b: seq<InstantPoint>, index: map<Labels, real>)
    requires multiset(a) == multiset(b)
    ensures multiset(MatchPoints(sp, a, index)) == multiset(MatchPoints(sp, b, index))
  {
    hide MatchPoint;
    if a == [] {
      assert |multiset(b)| == 0;
    } else {
      var i := TakeOut(a, b);
      MatchPointsConcat(sp, b[..i], [b[i]] + b[i + 1..], index);
      MatchPointsConcat(sp, [b[i]], b[i + 1..], index);
      MatchPointsConcat(sp, b[..i], b[i + 1..], index);
      assert [b[i]][1..] == [];
      MatchPermutes(sp, a[1..], b[..i] + b[i + 1..], index);
    }
  }

  /** With one point per label set the index does not depend on their order. */
  lemma IndexPermutes(a: seq<InstantPoint>, b: seq<InstantPoint>)
    requires multiset(a) == multiset(b) && DistinctPoints(a)
    ensures IndexPoints(a) == IndexPoints(b)
  {
    hide IndexPoints, DistinctPoints;
    SameMembers(a, b);
    IndexPointsHas(a);
    IndexPointsHas(b);
    forall l | l in IndexPoints(b) ensures l in IndexPoints(a) && IndexPoints(a)[l] == IndexPoints(b)[l] {
      var q :| q in b && q.labels == l && q.value == IndexPoints(b)[l];
      IndexValue(a, q);
    }
    forall l | l in IndexPoints(a) ensures l in IndexPoints(b) {
      var p :| p in a && p.labels == l && p.value == IndexPoints(a)[l];
      assert p in b;
    }
  }

  lemma SameMembers(a: seq<InstantPoint>, b: seq<InstantPoint>)
    requires multiset(a) == multiset(b)
    ensures forall p :: p in a <==> p in b
  {
    forall p ensures p in a <==> p in b {
      assert p in multiset(a) <==> p in multiset(b);
    }
  }

  lemma IndexValue(a: seq<InstantPoint>, p: InstantPoint)
    requires DistinctPoints(a) && p in a
    ensures p.labels in IndexPoints(a) && IndexPoints(a)[p.labels] == p.value
  {
    IndexPointsHas(a);
    var q :| q in a && q.labels == p.labels && q.value == IndexPoints(a)[p.labels];
    var i :| 0 <= i < |a| && a[i] == p;
    var j :| 0 <= j < |a| && a[j] == q;
  }

  lemma VectorPermutes(sp: BinSpec, a: seq<InstantPoint>, a': seq<InstantPoint>, b: seq<InstantPoint>, b': seq<InstantPoint>)
    requires multiset(a) == multiset(a') && multiset(b) == multiset(b') && DistinctPoints(b)
    ensures multiset(VectorVectorInstant(sp, a, b)) == multiset(VectorVectorInstant(sp, a', b'))
  {
    IndexPermutes(b, b');
    MatchPermutes(sp, a, a', IndexPoints(b));
  }

  // ---------- what the outputs look like ----------

  /** The output has some of the input's label sets, each series with its own name or
      none and some of its timestamps, in the same order. */
  ghost predicate Thinned(ss: seq<RangePoints>, out: seq<RangePoints>)
  {
    && (WellFormed(ss) ==> WellFormed(out))
    && forall r :: r in out ==> exists s :: s in ss && s.labels == r.labels && (r.metric == s.metric || r.metric == "")
  }

  lemma {:induction false} ScalarTimes(sp: BinSpec, c: real, left: bool, points: seq<(int, real)>)
    requires DistinctTimes(points)
    ensures DistinctTimes(ScalarPoints(sp, c, left, points))
    ensures forall q :: q in ScalarPoints(sp, c, left, points) ==> q.0 in Times(points)
  {
    if points != [] {
      hide ScalarValue;
      TailTimes(points);
      ScalarTimes(sp, c, left, points[1..]);
      var rest := ScalarPoints(sp, c, left, points[1..]);
      assert forall i :: 0 <= i < |rest| ==> rest[i] in rest;
    }
  }

  lemma TailTimes(points: seq<(int, real)>)
    requires points != [] && DistinctTimes(points)
    ensures DistinctTimes(points[1..]) && points[0].0 !in Times(points[1..])
    ensures Times(points) == {points[0].0} + Times(points[1..])
  {
    assert points == [points[0]] + points[1..];
    forall p | p in points[1..] ensures p.0 != points[0].0 {
      var i :| 0 <= i < |points[1..]| && points[1..][i] == p;
      assert points[i + 1] == p;
    }
  }

  lemma {:induction false} MatchTimesDistinct(sp: BinSpec, points: seq<(int, real)>, r: map<int, real>)
    requires DistinctTimes(points)
    ensures DistinctTimes(MatchTimes(sp, points, r))
    ensures forall q :: q in MatchTimes(sp, points, r) ==> q.0 in Times(points)
  {
    if points != [] {
      TailTimes(points);
      MatchTimesDistinct(sp, points[1..], r);
      var rest := MatchTimes(sp, points[1..], r);
      assert forall i :: 0 <= i < |rest| ==> rest[i] in rest;
    }
  }

  lemma ThinnedJoin(ss: seq<RangePoints>, s: RangePoints, head: seq<RangePoints>, out: seq<RangePoints>)
    requires ss != [] && ss[0] == s && Thinned(ss[1..], out)
    requires |head| <= 1 && forall r :: r in head ==> r.labels == s.labels && (r.metric == s.metric || r.metric == "")
    requires WellFormed(ss) ==> forall r :: r in head ==> DistinctTimes(r.points)
    ensures Thinned(ss, head + out)
  {
    assert ss == [s] + ss[1..];
    if WellFormed(ss) {
      assert WellFormed(ss[1..]);
      assert WellFormed(head) by {
        assert forall i :: 0 <= i < |head| ==> head[i] in head;
      }
      forall r, q | r in head && q in out ensures r.labels != q.labels {
        var x :| x in ss[1..] && x.labels == q.labels;
        var i :| 0 <= i < |ss[1..]| && ss[1..][i] == x;
        assert ss[i + 1] == x;
      }
      WellFormedJoin(head, out);
    }
    forall r | r in head + out
      ensures exists x :: x in ss && x.labels == r.labels && (r.metric == x.metric || r.metric == "")
    {
      if r in head {
        assert s in ss;
      }
    }
  }

  lemma {:induction false} ScalarThins(sp: BinSpec, c: real, left: bool, ss: seq<RangePoints>)
    ensures Thinned(ss, ScalarVectorRange(sp, c, left, ss))
  {
    if ss != [] {
      hide ScalarPoints, DistinctTimes, DistinctLabels, Thinned;
      ScalarThins(sp, c, left, ss[1..]);
      var s := ss[0];
      if DistinctTimes(s.points) {
        ScalarTimes(sp, c, left, s.points);
      }
      ThinnedJoin(ss, s, Rebuilt(sp, s, ScalarPoints(sp, c, left, s.points)), ScalarVectorRange(sp, c, left, ss[1..]));
    } else {
      NothingThins(ss);
    }
  }

  lemma NothingThins(ss: seq<RangePoints>)
    ensures Thinned(ss, [])
  {
  }

  lemma {:induction false} MatchThins(sp: BinSpec, lhs: seq<RangePoints>, index: map<Labels, map<int, real>>)
    ensures Thinned(lhs, MatchAll(sp, lhs, index))
  {
    if lhs != [] {
      hide MatchTimes, DistinctTimes, DistinctLabels, Thinned;
      MatchThins(sp, lhs[1..], index);
      var l := lhs[0];
      if DistinctTimes(l.points) && l.labels in index {
        MatchTimesDistinct(sp, l.points, index[l.labels]);
      }
      ThinnedJoin(lhs, l, MatchSeries(sp, l, index), MatchAll(sp, lhs[1..], index));
    } else {
      NothingThins(lhs);
    }
  }
}

/** The relational plan for `histogram_quantile` on the buckets of one group: LAG for
    the previous edge and count, MAX for the total, MIN of the row number for the
    crossing. */
module HistogramPlan {
  import opened Wrappers
  import opened Quantile

  /** A row of `ranked`. */
  datatype RankedRow = RankedRow(le: Le, cum: real, prevLe: Option<Le>, prevCum: Option<real>, total: real, rn: nat)

  function MaxCum(bs: seq<Bucket>): real
    requires bs != []
  {
    if |bs| == 1 then bs[0].1
    else
      var rest := MaxCum(bs[1..]);
      if bs[0].1 > rest then bs[0].1 else rest
  }

  /** The rows of one partition, in the order of their edges. */
  function RankedRows(bs: seq<Bucket>): (r: seq<RankedRow>)
    ensures |r| == |bs|
  {
    seq(|bs|, i requires 0 <= i < |bs| =>
      RankedRow(bs[i].0, bs[i].1,
                if i == 0 then None else Some(bs[i - 1].0),
                if i == 0 then None else Some(bs[i - 1].1),
                MaxCum(bs), i + 1))
  }

  function TargetOf(r: RankedRow, q: real): real { Scale(q, r.total) }

  predicate Reaches(r: RankedRow, q: real) { r.total > 0.0 && r.cum >= TargetOf(r, q) }

  /** MIN(rn) over the rows that reach the target. */
  function FirstRn(rows: seq<RankedRow>, q: real): Option<nat>
  {
    if rows == [] then None
    else
      match FirstRn(rows[1..], q)
      case None => if Reaches(rows[0], q) then Some(rows[0].rn) else None
      case Some(n) => if Reaches(rows[0], q) && rows[0].rn < n then Some(rows[0].rn) else Some(n)
  }

  function Coalesce<T>(o: Option<T>, d: T): T { if o.Some? then o.value else d }

  /** The CASE of the plan. An infinite previous edge makes the value infinite. */
  function PlanValue(r: RankedRow, q: real): Le
  {
    var lo, below := Coalesce(r.prevLe, Fin(0.0)), Coalesce(r.prevCum, 0.0);
    if r.le.PosInf? then lo
    else if r.cum - below <= 0.0 then r.le
    else if lo.PosInf? then lo
    else Fin(Interpolate(lo.r, r.le.r, (TargetOf(r, q) - below) / (r.cum - below)))
  }

  function PlanQuantile(bs: seq<Bucket>, q: real): Option<Le>
  {
    var rows := RankedRows(bs);
    match FirstRn(rows, q)
    case None => None
    case Some(n) => if 1 <= n <= |rows| then Some(PlanValue(rows[n - 1], q)) else None
  }

  lemma {:induction false} MaxCumIsMax(bs: seq<Bucket>)
    requires bs != []
    ensures forall i :: 0 <= i < |bs| ==> bs[i].1 <= MaxCum(bs)
    ensures exists i :: 0 <= i < |bs| && bs[i].1 == MaxCum(bs)
  {
    if |bs| > 1 {
      MaxCumIsMax(bs[1..]);
      forall i | 0 <= i < |bs| ensures bs[i].1 <= MaxCum(bs) {
        assert i > 0 ==> bs[i] == bs[1..][i - 1];
      }
      var j :| 0 <= j < |bs[1..]| && bs[1..][j].1 == MaxCum(bs[1..]);
      assert bs[j + 1] == bs[1..][j];
      assert bs[0].1 == MaxCum(bs) || bs[j + 1].1 == MaxCum(bs);
    } else {
      assert bs[0].1 == MaxCum(bs);
    }
  }

  /** The plan's total is the operator's: no count exceeds the last one. */
  ghost predicate PeaksLast(bs: seq<Bucket>)
  {
    bs != [] ==> MaxCum(bs) == bs[|bs| - 1].1
  }

  /** Cumulative counts do. */
  lemma CumulativePeaksLast(bs: seq<Bucket>)
    requires forall i, j :: 0 <= i < j < |bs| ==> bs[i].1 <= bs[j].1
    ensures PeaksLast(bs)
  {
    if bs != [] {
      MaxCumIsMax(bs);
      var j :| 0 <= j < |bs| && bs[j].1 == MaxCum(bs);
      assert j < |bs| - 1 ==> bs[j].1 <= bs[|bs| - 1].1;
    }
  }

  lemma {:induction false} FirstRnAt(rows: seq<RankedRow>, q: real, c: nat, base: nat)
    requires c < |rows| && Reaches(rows[c], q) && forall i :: 0 <= i < c ==> !Reaches(rows[i], q)
    requires forall i :: 0 <= i < |rows| ==> rows[i].rn == base + i + 1
    ensures FirstRn(rows, q) == Some(base + c + 1)
  {
    if c > 0 {
      FirstRnAt(rows[1..], q, c - 1, base + 1);
    } else {
      FirstRnBeyond(rows[1..], q, base + 1);
    }
  }

  lemma {:induction false} FirstRnBeyond(rows: seq<RankedRow>, q: real, base: nat)
    requires forall i :: 0 <= i < |rows| ==> rows[i].rn == base + i + 1
    ensures FirstRn(rows, q).Some? ==> FirstRn(rows, q).value > base
  {
    if rows != [] {
      FirstRnBeyond(rows[1..], q, base + 1);
    }
  }

  lemma {:induction false} NothingReaches(rows: seq<RankedRow>, q: real)
    requires forall i :: 0 <= i < |rows| ==> !Reaches(rows[i], q)
    ensures FirstRn(rows, q) == None
  {
    if rows != [] {
      NothingReaches(rows[1..], q);
    }
  }

  /** The count the plan looks for, of the largest count of the group. */
  function PlanTarget(bs: seq<Bucket>, q: real): real
    requires bs != []
  {
    Scale(q, MaxCum(bs))
  }

  /** With a positive total, row `c + 1` is the crossing of the plan's target. */
  lemma PlanCrosses(bs: seq<Bucket>, q: real, c: nat)
    requires bs != [] && CrossesAt(bs, PlanTarget(bs, q), c) && MaxCum(bs) > 0.0
    ensures PlanQuantile(bs, q) == Some(PlanValue(RankedRows(bs)[c], q))
  {
    var rows := RankedRows(bs);
    assert forall i :: 0 <= i <= c ==> (Reaches(rows[i], q) <==> i == c);
    hide Reaches;
    FirstRnAt(rows, q, c, 0);
  }

  lemma RowAnswer(bs: seq<Bucket>, q: real, c: nat)
    requires c < |bs| && bs[c].1 - LowerCount(bs, c) > 0.0
    ensures PlanValue(RankedRows(bs)[c], q) == AnswerAt(bs, PlanTarget(bs, q), c)
  {
    hide Scale, Interpolate;
  }

  lemma NoTotalNoRow(bs: seq<Bucket>, q: real)
    requires bs != [] ==> MaxCum(bs) <= 0.0
    ensures PlanQuantile(bs, q) == None
  {
    NothingReaches(RankedRows(bs), q);
  }

  /** The largest count reaches the plan's target, so some bucket up to it crosses. */
  lemma PlanCrossing(bs: seq<Bucket>, q: real, m: nat) returns (c: nat)
    requires m < |bs| && bs[m].1 == MaxCum(bs) > 0.0 && 0.0 < q < 1.0
    ensures c <= m && CrossesAt(bs, PlanTarget(bs, q), c) && PlanTarget(bs, q) > 0.0
    ensures bs[c].1 - LowerCount(bs, c) > 0.0
    ensures PlanQuantile(bs, q) == Some(AnswerAt(bs, PlanTarget(bs, q), c))
  {
    ScaleUnits(MaxCum(bs));
    ScaleLess(0.0, q, MaxCum(bs));
    ScaleLess(q, 1.0, MaxCum(bs));
    hide Scale, PlanQuantile, PlanValue, RankedRows;
    MaxCumIsMax(bs);
    assert bs[..m + 1][m] == bs[m];
    c := FirstCrossing(bs[..m + 1], PlanTarget(bs, q), 0);
    PlanCrosses(bs, q, c);
    RowAnswer(bs, q, c);
  }

  /** The plan and the operator agree, answer and absence of one, on every sorted group
      whose last count is its largest, unless the group is a single filled bucket: the
      operator wants two buckets, the plan does not. */
  lemma {:induction false} PeakedPlanAgreesIff(bs: seq<Bucket>, q: real)
    requires 0.0 < q < 1.0 && EdgesSorted(bs) && PeaksLast(bs)
    ensures PlanQuantile(bs, q) == Quantile.Quantile(bs, q) <==> !(|bs| == 1 && bs[0].1 > 0.0)
  {
    hide Walk, FirstRn, PlanQuantile, EdgesSorted;
    if bs == [] || MaxCum(bs) <= 0.0 {
      NoTotalNoRow(bs, q);
    } else {
      var c := PlanCrossing(bs, q, |bs| - 1);
      if |bs| > 1 {
        QuantileAnswers(bs, q, c);
      }
    }
  }

  /** Where a positive count exceeds the last one, the plan answers above the operator,
      or alone. */
  lemma {:induction false} UnpeakedPlanDiffers(bs: seq<Bucket>, q: real)
    requires 0.0 < q < 1.0 && StrictEdges(bs) && !PeaksLast(bs) && MaxCum(bs) > 0.0
    ensures PlanQuantile(bs, q) != Quantile.Quantile(bs, q)
  {
    hide Walk, FirstRn, PlanQuantile;
    MaxCumIsMax(bs);
    var m :| 0 <= m < |bs| && bs[m].1 == MaxCum(bs);
    var d := PlanCrossing(bs, q, m);
    if bs[|bs| - 1].1 > 0.0 {
      var c := CrossingExists(bs, q);
      QuantileAnswers(bs, q, c);
      SmallerTarget(bs, q);
      EarlierAnswerLess(bs, Target(bs, q), PlanTarget(bs, q), c, d);
    }
  }

  lemma SmallerTarget(bs: seq<Bucket>, q: real)
    requires bs != [] && q > 0.0 && bs[|bs| - 1].1 < MaxCum(bs)
    ensures Target(bs, q) < PlanTarget(bs, q)
  {
    assert q * (MaxCum(bs) - bs[|bs| - 1].1) > 0.0;
  }

  /** Below the last bucket of a group with rising edges, a larger target has a larger
      answer. */
  lemma {:induction false} EarlierAnswerLess(bs: seq<Bucket>, s: real, t: real, c: nat, d: nat)
    requires StrictEdges(bs) && 0.0 < s < t && CrossesAt(bs, s, c) && CrossesAt(bs, t, d) && d < |bs| - 1
    ensures AnswerAt(bs, s, c) != AnswerAt(bs, t, d)
  {
    CrossingOrder(bs, s, t, c, d);
    RisingEdges(bs, c);
    RisingEdges(bs, d);
    FractionBounds(bs, s, c);
    FractionBounds(bs, t, d);
    hide Interpolate;
    var lo, hi := LowerEdge(bs, d).r, bs[d].0.r;
    if c < d {
      assert c < d - 1 ==> LeLess(bs[c].0, bs[d - 1].0);
      StrictInside(LowerEdge(bs, c).r, bs[c].0.r, Fraction(bs, s, c));
      StrictInside(lo, hi, Fraction(bs, t, d));
    } else {
      DivLess(s - LowerCount(bs, c), t - LowerCount(bs, c), bs[c].1 - LowerCount(bs, c));
      InterpolateLess(lo, hi, Fraction(bs, s, c), Fraction(bs, t, c));
    }
  }

  lemma RisingEdges(bs: seq<Bucket>, c: nat)
    requires StrictEdges(bs) && c < |bs| - 1
    ensures LowerEdge(bs, c).Fin? && bs[c].0.Fin? && LowerEdge(bs, c).r < bs[c].0.r
  {
    assert LeLess(bs[c].0, bs[|bs| - 1].0);
    assert c > 0 ==> LeLess(bs[c - 1].0, bs[c].0);
  }

  lemma DivLess(a: real, b: real, d: real)
    requires a < b && d > 0.0
    ensures a / d < b / d
  {
    DivScale(a, d);
    DivScale(b, d);
    hide Scale;
    if b / d < a / d {
      ScaleLess(b / d, a / d, d);
    }
  }

  lemma InterpolateLess(lo: real, hi: real, f: real, g: real)
    requires lo < hi && f < g
    ensures Interpolate(lo, hi, f) < Interpolate(lo, hi, g)
  {
    ScaleLess(f, g, hi - lo);
  }

  /** No positive count exceeds the last one, and a single bucket is empty. */
  ghost predicate Alike(bs: seq<Bucket>)
  {
    (PeaksLast(bs) || MaxCum(bs) <= 0.0) && !(|bs| == 1 && bs[0].1 > 0.0)
  }

  lemma {:induction false} AlikeAgree(bs: seq<Bucket>, q: real)
    requires 0.0 < q < 1.0 && EdgesSorted(bs) && Alike(bs)
    ensures PlanQuantile(bs, q) == Quantile.Quantile(bs, q)
  {
    hide Walk, PlanQuantile;
    if PeaksLast(bs) {
      PeakedPlanAgreesIff(bs, q);
    } else {
      MaxCumIsMax(bs);
      NoTotalNoRow(bs, q);
    }
  }

  /** On a group with rising positive edges the plan and the operator agree, answer and
      absence of one, exactly when no positive count exceeds the last one and the group
      is not a single filled bucket. */
  lemma {:induction false} PlanAgreesIff(bs: seq<Bucket>, q: real)
    requires 0.0 < q < 1.0 && StrictEdges(bs)
    ensures PlanQuantile(bs, q) == Quantile.Quantile(bs, q) <==> Alike(bs)
  {
    hide Walk, FirstRn, PlanQuantile;
    if PeaksLast(bs) {
      PeakedPlanAgreesIff(bs, q);
    } else if MaxCum(bs) <= 0.0 {
      AlikeAgree(bs, q);
    } else {
      UnpeakedPlanDiffers(bs, q);
    }
  }

  /** A group where the totals differ: the plan answers 0.5, the operator 0.2. */
  lemma DifferentTotals()
    ensures var bs := [(Fin(1.0), 10.0), (Fin(2.0), 4.0)];
      && StrictEdges(bs) && !PeaksLast(bs)
      && PlanQuantile(bs, 0.5) == Some(Fin(0.5)) && Quantile.Quantile(bs, 0.5) == Some(Fin(0.2))
  {
    var bs: seq<Bucket> := [(Fin(1.0), 10.0), (Fin(2.0), 4.0)];
    assert bs[1..] == [bs[1]];
    assert MaxCum(bs) == 10.0;
    assert PlanTarget(bs, 0.5) == 5.0 && Target(bs, 0.5) == 2.0;
    assert CrossesAt(bs, 5.0, 0) && CrossesAt(bs, 2.0, 0);
    PlanCrosses(bs, 0.5, 0);
    QuantileAnswers(bs, 0.5, 0);
  }
}

/** The quantile of a cumulative histogram, and what its interpolation guarantees. */
module Quantile {
  import opened Wrappers

  /** An upper bucket edge. */
  datatype Le = Fin(r: real) | PosInf

  type Bucket = (Le, real)

  predicate LeLess(a: Le, b: Le) { a.Fin? && (b.PosInf? || a.r < b.r) }

  predicate LeAtMost(a: Le, b: Le) { !LeLess(b, a) }

  ghost predicate EdgesSorted(bs: seq<Bucket>)
  {
    forall i, j :: 0 <= i < j < |bs| ==> LeAtMost(bs[i].0, bs[j].0)
  }

  /** The edge of the first bucket with any count. */
  function FirstFilled(bs: seq<Bucket>): Option<Le>
  {
    if bs == [] then None else if bs[0].1 > 0.0 then Some(bs[0].0) else FirstFilled(bs[1..])
  }

  function LastFinite(bs: seq<Bucket>): Option<Le>
  {
    if bs == [] then None
    else if bs[|bs| - 1].0.Fin? then Some(bs[|bs| - 1].0)
    else LastFinite(bs[..|bs| - 1])
  }

  /** The walk over the buckets from a lower edge and count to the first cumulative
      count at or above the target. */
  function Walk(bs: seq<Bucket>, target: real, lowerLe: Le, lowerCount: real): Option<Le>
    requires EdgesSorted(bs)
    requires lowerLe.PosInf? ==> forall i :: 0 <= i < |bs| ==> bs[i].0.PosInf?
    decreases |bs|
  {
    if bs == [] then None
    else
      var (le, count) := bs[0];
      if count >= target then
        if le.PosInf? then Some(lowerLe)
        else if count - lowerCount <= 0.0 then Some(le)
        else Some(Fin(Interpolate(lowerLe.r, le.r, (target - lowerCount) / (count - lowerCount))))
      else Walk(bs[1..], target, le, count)
  }

  function Scale(a: real, b: real): real { a * b }

  function Interpolate(lo: real, hi: real, frac: real): real { lo + Scale(frac, hi - lo) }

  /** The count a quantile stands for, of the total in the last bucket. */
  function Target(bs: seq<Bucket>, q: real): real
    requires |bs| > 0
  {
    Scale(q, bs[|bs| - 1].1)
  }

  function Quantile(bs: seq<Bucket>, q: real): Option<Le>
    requires EdgesSorted(bs)
  {
    if |bs| < 2 then None
    else
      var total := bs[|bs| - 1].1;
      if total <= 0.0 then None
      else if q <= 0.0 then FirstFilled(bs)
      else if q >= 1.0 then LastFinite(bs)
      else Middle(bs, Target(bs, q))
  }

  /** The answer strictly between 0 and 1. */
  function Middle(bs: seq<Bucket>, target: real): Option<Le>
    requires EdgesSorted(bs)
  {
    Walk(bs, target, Fin(0.0), 0.0)
  }

  method QuantileFromBuckets(bs: seq<Bucket>, q: real) returns (r: Option<Le>)
    requires EdgesSorted(bs)
    ensures r == Quantile(bs, q)
  {
    hide Walk;
    if |bs| < 2 {
      return None;
    }
    var total := bs[|bs| - 1].1;
    if total <= 0.0 {
      return None;
    }
    if q <= 0.0 {
      r := LowestFilled(bs);
      return;
    }
    if q >= 1.0 {
      r := HighestFinite(bs);
      return;
    }
    r := WalkBuckets(bs, Target(bs, q));
  }

  method LowestFilled(bs: seq<Bucket>) returns (r: Option<Le>)
    ensures r == FirstFilled(bs)
  {
    for i := 0 to |bs|
      invariant FirstFilled(bs) == FirstFilled(bs[i..])
    {
      assert bs[i..][1..] == bs[i + 1..];
      if bs[i].1 > 0.0 {
        return Some(bs[i].0);
      }
    }
    r := None;
  }

  method HighestFinite(bs: seq<Bucket>) returns (r: Option<Le>)
    ensures r == LastFinite(bs)
  {
    assert bs[..|bs|] == bs;
    for i := |bs| downto 0
      invariant LastFinite(bs) == LastFinite(bs[..i])
    {
      assert bs[..i + 1][..i] == bs[..i];
      if bs[i].0.Fin? {
        return Some(bs[i].0);
      }
    }
    r := None;
  }

  method WalkBuckets(bs: seq<Bucket>, target: real) returns (r: Option<Le>)
    requires EdgesSorted(bs)
    ensures r == Middle(bs, target)
  {
    hide Interpolate;
    var lowerLe, lowerCount := Fin(0.0), 0.0;
    for i := 0 to |bs|
      invariant lowerLe.PosInf? ==> forall j :: i <= j < |bs| ==> bs[j].0.PosInf?
      invariant Walk(bs, target, Fin(0.0), 0.0) == Walk(bs[i..], target, lowerLe, lowerCount)
    {
      var (le, count) := bs[i];
      assert bs[i..][0] == bs[i] && bs[i..][1..] == bs[i + 1..];
      if count >= target {
        if le.PosInf? {
          WalkUnbounded(bs[i..], target, lowerLe, lowerCount);
          return Some(lowerLe);
        }
        var bucketCount := count - lowerCount;
        if bucketCount <= 0.0 {
          return Some(le);
        }
        var frac := (target - lowerCount) / bucketCount;
        WalkBounded(bs[i..], target, lowerLe, lowerCount);
        return Some(Fin(Interpolate(lowerLe.r, le.r, frac)));
      }
      lowerLe := le;
      lowerCount := count;
    }
    r := None;
  }

  lemma WalkUnbounded(bs: seq<Bucket>, target: real, lowerLe: Le, lowerCount: real)
    requires EdgesSorted(bs) && bs != [] && bs[0].1 >= target && bs[0].0.PosInf?
    requires lowerLe.PosInf? ==> forall i :: 0 <= i < |bs| ==> bs[i].0.PosInf?
    ensures Walk(bs, target, lowerLe, lowerCount) == Some(lowerLe)
  {
  }

  lemma WalkBounded(bs: seq<Bucket>, target: real, lowerLe: Le, lowerCount: real)
    requires EdgesSorted(bs) && bs != [] && bs[0].1 >= target && bs[0].0.Fin? && bs[0].1 - lowerCount > 0.0 && lowerLe.Fin?
    ensures Walk(bs, target, lowerLe, lowerCount)
         == Some(Fin(Interpolate(lowerLe.r, bs[0].0.r, (target - lowerCount) / (bs[0].1 - lowerCount))))
  {
  }

  // ---------- the crossing bucket ----------

  /** Bucket `c` is the first whose cumulative count reaches the target. */
  ghost predicate CrossesAt(bs: seq<Bucket>, target: real, c: nat)
  {
    c < |bs| && bs[c].1 >= target && forall i :: 0 <= i < c ==> bs[i].1 < target
  }

  function LowerEdge(bs: seq<Bucket>, c: nat): Le
    requires c <= |bs|
  {
    if c == 0 then Fin(0.0) else bs[c - 1].0
  }

  function LowerCount(bs: seq<Bucket>, c: nat): real
    requires c <= |bs|
  {
    if c == 0 then 0.0 else bs[c - 1].1
  }

  /** A histogram a quantile strictly between 0 and 1 is answered for. */
  ghost predicate Answerable(bs: seq<Bucket>, q: real)
  {
    |bs| >= 2 && EdgesSorted(bs) && bs[|bs| - 1].1 > 0.0 && 0.0 < q < 1.0
  }

  lemma {:induction false} FirstCrossing(bs: seq<Bucket>, target: real, i: nat) returns (c: nat)
    requires i < |bs| && bs[|bs| - 1].1 >= target && forall j :: 0 <= j < i ==> bs[j].1 < target
    ensures CrossesAt(bs, target, c)
    decreases |bs| - i
  {
    if bs[i].1 >= target {
      c := i;
    } else {
      c := FirstCrossing(bs, target, i + 1);
    }
  }

  lemma ScaleLess(a: real, b: real, c: real)
    requires a < b && c > 0.0
    ensures Scale(a, c) < Scale(b, c)
  {
    assert (b - a) * c > 0.0;
  }

  lemma ScaleUnits(c: real)
    ensures Scale(0.0, c) == 0.0 && Scale(1.0, c) == c
  {
  }

  lemma ScaleAtMost(a: real, b: real, c: real)
    requires a <= b && c >= 0.0
    ensures Scale(a, c) <= Scale(b, c)
  {
    assert (b - a) * c >= 0.0;
  }

  /** The last count always crosses, so some bucket does. */
  lemma CrossingExists(bs: seq<Bucket>, q: real) returns (c: nat)
    requires Answerable(bs, q)
    ensures c < |bs| && CrossesAt(bs, Target(bs, q), c)
    ensures 0.0 < Target(bs, q) < bs[|bs| - 1].1
  {
    var total := bs[|bs| - 1].1;
    ScaleUnits(total);
    ScaleLess(0.0, q, total);
    ScaleLess(q, 1.0, total);
    hide Scale;
    c := FirstCrossing(bs, Target(bs, q), 0);
  }

  lemma {:induction false} WalkToCrossing(bs: seq<Bucket>, target: real, c: nat, k: nat)
    requires EdgesSorted(bs) && CrossesAt(bs, target, c) && k <= c
    requires LowerEdge(bs, k).PosInf? ==> forall i :: k <= i < |bs| ==> bs[i].0.PosInf?
    ensures LowerEdge(bs, c).PosInf? ==> forall i :: c <= i < |bs| ==> bs[i].0.PosInf?
    ensures Walk(bs[k..], target, LowerEdge(bs, k), LowerCount(bs, k))
         == Walk(bs[c..], target, LowerEdge(bs, c), LowerCount(bs, c))
    decreases c - k
  {
    if k < c {
      assert bs[k..][1..] == bs[k + 1..];
      WalkToCrossing(bs, target, c, k + 1);
    }
  }

  /** What the answer is in terms of the crossing bucket. It always exists, and the
      bucket's own count is positive, so the guard against an empty bucket never
      fires. */
  function AnswerAt(bs: seq<Bucket>, target: real, c: nat): Le
    requires c < |bs|
  {
    var lo := LowerEdge(bs, c);
    var own := bs[c].1 - LowerCount(bs, c);
    if bs[c].0.PosInf? || lo.PosInf? || own == 0.0 then lo
    else Fin(Interpolate(lo.r, bs[c].0.r, (target - LowerCount(bs, c)) / own))
  }

  lemma {:induction false} QuantileAnswers(bs: seq<Bucket>, q: real, c: nat)
    requires Answerable(bs, q) && CrossesAt(bs, Target(bs, q), c)
    ensures bs[c].1 - LowerCount(bs, c) > 0.0
    ensures Quantile(bs, q) == Some(AnswerAt(bs, Target(bs, q), c))
  {
    var c0 := CrossingExists(bs, q);
    assert bs[0..] == bs;
    WalkToCrossing(bs, Target(bs, q), c, 0);
    assert bs[c..][0] == bs[c];
  }

  // ---------- soundness of the interpolation ----------

  /** Edges finite and not negative but for the last, which may be +Inf. */
  ghost predicate SoundEdges(bs: seq<Bucket>)
  {
    && EdgesSorted(bs)
    && (forall i :: 0 <= i < |bs| - 1 ==> bs[i].0.Fin?)
    && (forall i :: 0 <= i < |bs| && bs[i].0.Fin? ==> bs[i].0.r >= 0.0)
  }

  /** How far into its bucket the target lies: more than nothing, at most all. */
  function Fraction(bs: seq<Bucket>, target: real, c: nat): real
    requires c < |bs| && bs[c].1 != LowerCount(bs, c)
  {
    (target - LowerCount(bs, c)) / (bs[c].1 - LowerCount(bs, c))
  }

  lemma DivBounds(a: real, b: real)
    requires 0.0 < a <= b
    ensures 0.0 < a / b <= 1.0
  {
    var d := a / b;
    DivScale(a, b);
    ScaleUnits(b);
    hide Scale;
    if d <= 0.0 {
      ScaleAtMost(d, 0.0, b);
    } else if d > 1.0 {
      ScaleLess(1.0, d, b);
    }
  }

  lemma FractionBounds(bs: seq<Bucket>, target: real, c: nat)
    requires target > 0.0 && CrossesAt(bs, target, c)
    ensures bs[c].1 != LowerCount(bs, c) && 0.0 < Fraction(bs, target, c) <= 1.0
  {
    DivBounds(target - LowerCount(bs, c), bs[c].1 - LowerCount(bs, c));
  }

  lemma InterpolateBounds(lo: real, hi: real, f: real, g: real)
    requires lo <= hi && 0.0 <= f <= g <= 1.0
    ensures lo <= Interpolate(lo, hi, f) <= Interpolate(lo, hi, g) <= hi
  {
    hide Scale;
    ScaleUnits(hi - lo);
    ScaleAtMost(0.0, f, hi - lo);
    ScaleAtMost(f, g, hi - lo);
    ScaleAtMost(g, 1.0, hi - lo);
  }

  /** The answer lies in the crossing bucket; in an unbounded one it is its lower
      edge. */
  lemma AnswerInBucket(bs: seq<Bucket>, q: real, c: nat)
    requires Answerable(bs, q) && SoundEdges(bs) && CrossesAt(bs, Target(bs, q), c)
    ensures Quantile(bs, q) == Some(AnswerAt(bs, Target(bs, q), c))
    ensures var x := AnswerAt(bs, Target(bs, q), c);
      && x.Fin? && LowerEdge(bs, c).Fin? && LowerEdge(bs, c).r <= x.r && LeAtMost(x, bs[c].0)
      && (bs[c].0.PosInf? ==> x == LowerEdge(bs, c))
  {
    QuantileAnswers(bs, q, c);
    if bs[c].0.Fin? {
      var c0 := CrossingExists(bs, q);
      FractionBounds(bs, Target(bs, q), c);
      assert c > 0 ==> LeAtMost(bs[c - 1].0, bs[c].0);
      InterpolateBounds(LowerEdge(bs, c).r, bs[c].0.r, Fraction(bs, Target(bs, q), c), 1.0);
    }
  }

  lemma DivMonotone(a: real, b: real, d: real)
    requires a <= b && d > 0.0
    ensures a / d <= b / d
  {
    DivScale(a, d);
    DivScale(b, d);
    hide Scale;
    if b / d < a / d {
      ScaleLess(b / d, a / d, d);
    }
  }

  /** A larger quantile has no smaller answer. */
  lemma AnswerMonotone(bs: seq<Bucket>, p: real, q: real)
    requires Answerable(bs, p) && Answerable(bs, q) && SoundEdges(bs) && p <= q
    ensures Quantile(bs, p).Some? && Quantile(bs, p).value.Fin?
    ensures Quantile(bs, q).Some? && Quantile(bs, q).value.Fin?
    ensures Quantile(bs, p).value.r <= Quantile(bs, q).value.r
  {
    hide *;
    var c := CrossingExists(bs, p);
    var d := CrossingExists(bs, q);
    AnswerInBucket(bs, p, c);
    AnswerInBucket(bs, q, d);
    TargetMonotone(bs, p, q);
    CrossingOrder(bs, Target(bs, p), Target(bs, q), c, d);
    if c < d {
      EarlierBucket(bs, c, d);
      FinAtMost(AnswerAt(bs, Target(bs, p), c), bs[c].0);
    } else if bs[c].0.Fin? {
      SameBucket(bs, Target(bs, p), Target(bs, q), c);
    }
  }

  lemma TargetMonotone(bs: seq<Bucket>, p: real, q: real)
    requires Answerable(bs, p) && p <= q
    ensures Target(bs, p) <= Target(bs, q)
  {
    ScaleAtMost(p, q, bs[|bs| - 1].1);
  }

  lemma CrossingOrder(bs: seq<Bucket>, s: real, t: real, c: nat, d: nat)
    requires s <= t && CrossesAt(bs, s, c) && CrossesAt(bs, t, d)
    ensures c <= d
  {
  }

  lemma EarlierBucket(bs: seq<Bucket>, c: nat, d: nat)
    requires SoundEdges(bs) && c < d < |bs|
    ensures bs[c].0.Fin? && LowerEdge(bs, d).Fin? && bs[c].0.r <= LowerEdge(bs, d).r
  {
    assert c < d - 1 ==> LeAtMost(bs[c].0, bs[d - 1].0);
  }

  lemma FinAtMost(a: Le, b: Le)
    requires a.Fin? && b.Fin? && LeAtMost(a, b)
    ensures a.r <= b.r
  {
  }

  lemma SameBucket(bs: seq<Bucket>, s: real, t: real, c: nat)
    requires SoundEdges(bs) && 0.0 < s <= t && CrossesAt(bs, s, c) && CrossesAt(bs, t, c) && bs[c].0.Fin?
    ensures AnswerAt(bs, s, c).Fin? && AnswerAt(bs, t, c).Fin? && AnswerAt(bs, s, c).r <= AnswerAt(bs, t, c).r
  {
    FractionBounds(bs, s, c);
    FractionBounds(bs, t, c);
    DivMonotone(s - LowerCount(bs, c), t - LowerCount(bs, c), bs[c].1 - LowerCount(bs, c));
    assert c > 0 ==> LeAtMost(bs[c - 1].0, bs[c].0);
    InterpolateBounds(LowerEdge(bs, c).r, bs[c].0.r, Fraction(bs, s, c), Fraction(bs, t, c));
  }

  lemma {:induction false} LastFiniteIsLargest(bs: seq<Bucket>, i: nat)
    requires EdgesSorted(bs) && i < |bs| && bs[i].0.Fin?
    ensures LastFinite(bs).Some? && LastFinite(bs).value.Fin? && bs[i].0.r <= LastFinite(bs).value.r
  {
    var n := |bs| - 1;
    if bs[n].0.Fin? {
      assert i < n ==> LeAtMost(bs[i].0, bs[n].0);
    } else {
      LastFiniteIsLargest(bs[..n], i);
    }
  }

  /** No answer below 1 exceeds the answer for 1, the largest finite edge. */
  lemma {:induction false} AnswerAtMostTop(bs: seq<Bucket>, q: real, top: real)
    requires Answerable(bs, q) && SoundEdges(bs) && top >= 1.0
    ensures Quantile(bs, q).Some? && Quantile(bs, top).Some? && Quantile(bs, top).value.Fin?
    ensures LeAtMost(Quantile(bs, q).value, Quantile(bs, top).value)
  {
    var c := CrossingExists(bs, q);
    AnswerInBucket(bs, q, c);
    assert bs[0].0.Fin?;
    LastFiniteIsLargest(bs, 0);
    if bs[c].0.Fin? {
      LastFiniteIsLargest(bs, c);
    } else if c > 0 {
      LastFiniteIsLargest(bs, c - 1);
    }
  }

  // ---------- the inverse ----------

  /** The cumulative count at `x`, linear inside each finite bucket. */
  function CountAt(bs: seq<Bucket>, x: real, k: nat): Option<real>
    requires k <= |bs|
    decreases |bs| - k
  {
    if k == |bs| then None
    else if bs[k].0.PosInf? || LowerEdge(bs, k).PosInf? || bs[k].0.r == LowerEdge(bs, k).r then None
    else if x <= bs[k].0.r then
      Some(Interpolate(LowerCount(bs, k), bs[k].1, (x - LowerEdge(bs, k).r) / (bs[k].0.r - LowerEdge(bs, k).r)))
    else CountAt(bs, x, k + 1)
  }

  ghost predicate StrictEdges(bs: seq<Bucket>)
  {
    && (forall i, j :: 0 <= i < j < |bs| ==> LeLess(bs[i].0, bs[j].0))
    && (|bs| > 0 ==> LeLess(Fin(0.0), bs[0].0))
  }

  lemma {:induction false} CountReaches(bs: seq<Bucket>, x: real, c: nat, k: nat)
    requires StrictEdges(bs) && k <= c < |bs| && bs[c].0.Fin?
    requires forall i :: 0 <= i < c ==> bs[i].0.Fin? && bs[i].0.r < x
    ensures CountAt(bs, x, k) == CountAt(bs, x, c)
    decreases c - k
  {
    if k < c {
      assert k > 0 ==> LeLess(bs[k - 1].0, bs[k].0);
      CountReaches(bs, x, c, k + 1);
    }
  }

  lemma InterpolateInverse(lo: real, hi: real, a: real, b: real, t: real)
    requires lo < hi && a < b
    ensures var f := (t - a) / (b - a);
      Interpolate(a, b, (Interpolate(lo, hi, f) - lo) / (hi - lo)) == t
  {
    hide Scale;
    DivScale(t - a, b - a);
    ScaleDiv((t - a) / (b - a), hi - lo);
  }

  lemma DivScale(x: real, y: real)
    requires y > 0.0
    ensures Scale(x / y, y) == x
  {
  }

  lemma ScaleDiv(x: real, y: real)
    requires y > 0.0
    ensures Scale(x, y) / y == x
  {
    var z := Scale(x, y) / y;
    DivScale(Scale(x, y), y);
    hide Scale;
    if z < x {
      ScaleLess(z, x, y);
    } else if x < z {
      ScaleLess(x, z, y);
    }
  }

  lemma StrictInside(lo: real, hi: real, f: real)
    requires lo < hi && 0.0 < f <= 1.0
    ensures lo < Interpolate(lo, hi, f) <= hi
  {
    hide Scale;
    ScaleUnits(hi - lo);
    ScaleLess(0.0, f, hi - lo);
    ScaleAtMost(f, 1.0, hi - lo);
  }

  /** In a finite crossing bucket the answer is where the interpolated count is exactly
      the target. */
  lemma {:induction false} CountAtAnswer(bs: seq<Bucket>, q: real, c: nat)
    requires Answerable(bs, q) && StrictEdges(bs) && CrossesAt(bs, Target(bs, q), c) && bs[c].0.Fin?
    ensures Quantile(bs, q).Some? && Quantile(bs, q).value.Fin?
    ensures CountAt(bs, Quantile(bs, q).value.r, 0) == Some(Target(bs, q))
  {
    QuantileAnswers(bs, q, c);
    var c0 := CrossingExists(bs, q);
    var lo, hi := LowerEdge(bs, c), bs[c].0;
    FractionBounds(bs, Target(bs, q), c);
    assert c > 0 ==> LeLess(bs[c - 1].0, bs[c].0);
    StrictInside(lo.r, hi.r, Fraction(bs, Target(bs, q), c));
    var x := Quantile(bs, q).value.r;
    forall i | 0 <= i < c ensures bs[i].0.Fin? && bs[i].0.r < x {
      assert i < c - 1 ==> LeLess(bs[i].0, bs[c - 1].0);
    }
    CountReaches(bs, x, c, 0);
    InterpolateInverse(lo.r, hi.r, LowerCount(bs, c), bs[c].1, Target(bs, q));
  }
}

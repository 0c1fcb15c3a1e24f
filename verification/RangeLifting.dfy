/** A range query is an instant query at every timestamp, for every tree of the
    operators over any vectors. */
module RangeLifting {
  import opened Orders
  import opened Vectors
  import opened Aggregate
  import opened StringKeys
  import opened TopK
  import opened TopKOrder
  import opened TopKRange
  import opened TopKShape
  import opened Histogram
  import opened FiniteAnswers
  import opened Binary

  datatype Expr =
    | Leaf(i: nat)
    | AggregateOf(op: AggOp, m: LabelModifier, inner: Expr)
    | TopKOf(n: nat, top: bool, m: LabelModifier, inner: Expr)
    | QuantileOf(q: real, inner: Expr)
    | ScalarOf(sp: BinSpec, c: real, left: bool, inner: Expr)
    | VectorOf(sp: BinSpec, lhs: Expr, rhs: Expr)

  /** The orders of the sorted maps, and how `le` values read. */
  datatype Ctx = Ctx(lt: LabelOrder, st: StringOrder, parse: ParseLe)

  ghost predicate Orderly(cx: Ctx) { StrictTotal(cx.lt) && StrictTotal(cx.st) }

  function FiniteInstant(cx: Ctx, pts: seq<InstantPoint>, q: real, t: int): seq<InstantPoint>
    requires Orderly(cx)
  {
    FinitePoints(HistInstant(cx.parse, cx.lt, pts, q, t))
  }

  function FiniteRange(cx: Ctx, ss: seq<RangePoints>, q: real): seq<RangePoints>
    requires Orderly(cx)
  {
    FiniteSeries(HistRange(cx.parse, cx.lt, ss, q))
  }

  /** The instant operators over instant vectors. */
  function EvalInstant(cx: Ctx, ins: seq<seq<InstantPoint>>, e: Expr, t: int): seq<InstantPoint>
    requires Orderly(cx)
  {
    match e
    case Leaf(i) => if i < |ins| then ins[i] else []
    case AggregateOf(op, m, inner) => AggregateInstant(cx.lt, EvalInstant(cx, ins, inner, t), op, m, t)
    case TopKOf(n, top, m, inner) => TopKInstant(cx.lt, EvalInstant(cx, ins, inner, t), n, top, m)
    case QuantileOf(q, inner) => FiniteInstant(cx, EvalInstant(cx, ins, inner, t), q, t)
    case ScalarOf(sp, c, left, inner) => ScalarVectorInstant(sp, c, left, EvalInstant(cx, ins, inner, t))
    case VectorOf(sp, lhs, rhs) => VectorVectorInstant(sp, EvalInstant(cx, ins, lhs, t), EvalInstant(cx, ins, rhs, t))
  }

  /** The range operators over range vectors. */
  function EvalRange(cx: Ctx, env: seq<seq<RangePoints>>, e: Expr): seq<RangePoints>
    requires Orderly(cx)
  {
    match e
    case Leaf(i) => if i < |env| then env[i] else []
    case AggregateOf(op, m, inner) => AggregateRange(cx.lt, EvalRange(cx, env, inner), op, m)
    case TopKOf(n, top, m, inner) => TopKRangeVector(cx.lt, cx.st, EvalRange(cx, env, inner), n, top, m)
    case QuantileOf(q, inner) => FiniteRange(cx, EvalRange(cx, env, inner), q)
    case ScalarOf(sp, c, left, inner) => ScalarVectorRange(sp, c, left, EvalRange(cx, env, inner))
    case VectorOf(sp, lhs, rhs) => VectorVectorRange(sp, EvalRange(cx, env, lhs), EvalRange(cx, env, rhs))
  }

  function SliceAll(env: seq<seq<RangePoints>>, t: int): (r: seq<seq<InstantPoint>>)
    ensures |r| == |env|
  {
    seq(|env|, i requires 0 <= i < |env| => Slice(env[i], t))
  }

  /** Both evaluations give the points in one order: `topk` is the only operator whose
      two forms order their output differently, and sorting by group hides that. */
  predicate SameOrder(e: Expr)
  {
    match e
    case Leaf(_) => true
    case AggregateOf(_, _, _) => true
    case TopKOf(_, _, _, _) => false
    case QuantileOf(_, _) => true
    case ScalarOf(_, _, _, inner) => SameOrder(inner)
    case VectorOf(_, lhs, _) => SameOrder(lhs)
  }

  /** Where an operand's order may differ, the operator does not look at it: the cuts
      are clean, and no two bucket edges of a group read alike. */
  ghost predicate OrderFree(cx: Ctx, ins: seq<seq<InstantPoint>>, e: Expr, t: int)
    requires Orderly(cx)
  {
    match e
    case Leaf(_) => true
    case AggregateOf(_, _, inner) => OrderFree(cx, ins, inner, t)
    case TopKOf(n, top, m, inner) =>
      OrderFree(cx, ins, inner, t) && (SameOrder(inner) || CleanCuts(EvalInstant(cx, ins, inner, t), n, top, m))
    case QuantileOf(_, inner) =>
      OrderFree(cx, ins, inner, t) && (SameOrder(inner) || DistinctEdges(cx.parse, EvalInstant(cx, ins, inner, t)))
    case ScalarOf(_, _, _, inner) => OrderFree(cx, ins, inner, t)
    case VectorOf(_, lhs, rhs) => OrderFree(cx, ins, lhs, t) && OrderFree(cx, ins, rhs, t)
  }

  ghost predicate GoodVector(ss: seq<RangePoints>) { WellFormed(ss) && PlainSeries(ss) }

  ghost predicate GoodInput(env: seq<seq<RangePoints>>)
  {
    forall i :: 0 <= i < |env| ==> GoodVector(env[i])
  }

  // ---------- every operator keeps what the next one needs ----------

  lemma EmptyGood()
    ensures GoodVector([])
  {
  }

  lemma {:induction false} AggregateGood(lt: LabelOrder, ss: seq<RangePoints>, op: AggOp, m: LabelModifier)
    requires StrictTotal(lt) && GoodVector(ss)
    ensures GoodVector(AggregateRange(lt, ss, op, m))
  {
    hide StrictTotal, AggRangeOver, WellFormed, Plain, Retained;
    AggregateWellFormed(lt, ss, op, m);
    forall s | s in AggregateRange(lt, ss, op, m) ensures '{' !in s.metric && Plain(s.labels) {
      var q :| q in ss && s.labels == Retained(q.labels, m);
      KeptPlain(q.labels, m);
    }
  }

  lemma {:induction false} TopKGood(lt: LabelOrder, st: StringOrder, ss: seq<RangePoints>, n: nat, top: bool, m: LabelModifier)
    requires StrictTotal(lt) && StrictTotal(st) && GoodVector(ss)
    ensures GoodVector(TopKRangeVector(lt, st, ss, n, top, m))
  {
    hide StrictTotal, Collect, WellFormed, Plain, TimesAscend;
    TopKRangeShape(lt, st, ss, n, top, m);
  }

  lemma {:induction false} QuantileGood(cx: Ctx, ss: seq<RangePoints>, q: real)
    requires Orderly(cx) && GoodVector(ss)
    ensures GoodVector(FiniteRange(cx, ss, q))
  {
    hide StrictTotal, HistRange, WellFormed, WithoutLe, FiniteValues;
    var hs := HistRange(cx.parse, cx.lt, ss, q);
    HistWellFormed(cx.parse, cx.lt, ss, q);
    FiniteWellFormed(hs);
    forall i | 0 <= i < |hs| ensures '{' !in hs[i].metric && Plain(hs[i].labels) {
      assert hs[i] in hs;
      var r :| r in ss && hs[i].labels == WithoutLe(r.labels);
      WithoutLePlain(r.labels);
    }
  }

  lemma WithoutLePlain(labels: Labels)
    requires Plain(labels)
    ensures Plain(WithoutLe(labels))
  {
  }

  lemma ThinnedGood(ss: seq<RangePoints>, out: seq<RangePoints>)
    requires GoodVector(ss) && Thinned(ss, out)
    ensures GoodVector(out)
  {
    hide WellFormed, Plain;
  }

  /** Distinct labels, distinct timestamps and telling keys survive every tree. */
  lemma {:induction false} TreeGood(cx: Ctx, env: seq<seq<RangePoints>>, e: Expr)
    requires Orderly(cx) && GoodInput(env)
    ensures GoodVector(EvalRange(cx, env, e))
  {
    hide GoodVector, AggregateRange, TopKRangeVector, FiniteRange, ScalarVectorRange, VectorVectorRange, StrictTotal;
    match e
    case Leaf(i) => EmptyGood();
    case AggregateOf(op, m, inner) =>
      TreeGood(cx, env, inner);
      AggregateGood(cx.lt, EvalRange(cx, env, inner), op, m);
    case TopKOf(n, top, m, inner) =>
      TreeGood(cx, env, inner);
      TopKGood(cx.lt, cx.st, EvalRange(cx, env, inner), n, top, m);
    case QuantileOf(q, inner) =>
      TreeGood(cx, env, inner);
      QuantileGood(cx, EvalRange(cx, env, inner), q);
    case ScalarOf(sp, c, left, inner) =>
      TreeGood(cx, env, inner);
      ScalarThins(sp, c, left, EvalRange(cx, env, inner));
      ThinnedGood(EvalRange(cx, env, inner), EvalRange(cx, env, e));
    case VectorOf(sp, lhs, rhs) =>
      TreeGood(cx, env, lhs);
      VectorThins(sp, EvalRange(cx, env, lhs), EvalRange(cx, env, rhs));
      ThinnedGood(EvalRange(cx, env, lhs), EvalRange(cx, env, e));
  }

  lemma VectorThins(sp: BinSpec, lhs: seq<RangePoints>, rhs: seq<RangePoints>)
    ensures Thinned(lhs, VectorVectorRange(sp, lhs, rhs))
  {
    MatchThins(sp, lhs, IndexSeries(rhs));
  }

  // ---------- the lifting, operator by operator ----------

  /** The range result at `t` and the instant result agree, in the same order if
      `ordered`. */
  ghost predicate Agree(rs: seq<RangePoints>, t: int, pts: seq<InstantPoint>, ordered: bool)
  {
    multiset(Slice(rs, t)) == multiset(pts) && (ordered ==> Slice(rs, t) == pts)
  }

  lemma {:induction false} AggregateStep(cx: Ctx, rs: seq<RangePoints>, pts: seq<InstantPoint>, op: AggOp, m: LabelModifier, t: int, ordered: bool)
    requires Orderly(cx) && Agree(rs, t, pts, ordered)
    ensures Agree(AggregateRange(cx.lt, rs, op, m), t, AggregateInstant(cx.lt, pts, op, m, t), true)
  {
    hide AggregateRange, AggregateInstant, StrictTotal, Slice;
    AggregateLifts(cx.lt, rs, op, m, t);
    AggregatePermutes(cx.lt, Slice(rs, t), pts, op, m, t);
  }

  lemma {:induction false} TopKStep(cx: Ctx, rs: seq<RangePoints>, pts: seq<InstantPoint>, n: nat, top: bool, m: LabelModifier, t: int, ordered: bool)
    requires Orderly(cx) && GoodVector(rs) && Agree(rs, t, pts, ordered)
    requires ordered || CleanCuts(pts, n, top, m)
    ensures Agree(TopKRangeVector(cx.lt, cx.st, rs, n, top, m), t, TopKInstant(cx.lt, pts, n, top, m), false)
  {
    hide TopKRangeVector, TopKInstant, StrictTotal, Slice, CleanCuts;
    TopKLifts(cx.lt, cx.st, rs, n, top, m, t);
    if !ordered {
      TopKPermutes(cx.lt, pts, Slice(rs, t), n, top, m);
    }
  }

  lemma {:induction false} QuantileStep(cx: Ctx, rs: seq<RangePoints>, pts: seq<InstantPoint>, q: real, t: int, ordered: bool)
    requires Orderly(cx) && Agree(rs, t, pts, ordered)
    requires ordered || DistinctEdges(cx.parse, pts)
    ensures Agree(FiniteRange(cx, rs, q), t, FiniteInstant(cx, pts, q, t), true)
  {
    hide HistRange, HistInstant, StrictTotal, Slice, DistinctEdges;
    HistLifts(cx.parse, cx.lt, rs, q, t);
    SliceFinite(HistRange(cx.parse, cx.lt, rs, q), t);
    if !ordered {
      HistPermutes(cx.parse, cx.lt, pts, Slice(rs, t), q, t);
    }
  }

  lemma ScalarStep(sp: BinSpec, c: real, left: bool, rs: seq<RangePoints>, pts: seq<InstantPoint>, t: int, ordered: bool)
    requires Agree(rs, t, pts, ordered)
    ensures Agree(ScalarVectorRange(sp, c, left, rs), t, ScalarVectorInstant(sp, c, left, pts), ordered)
  {
    hide ScalarVectorRange, Slice;
    ScalarLifts(sp, c, left, rs, t);
    ScalarPermutes(sp, c, left, Slice(rs, t), pts);
  }

  lemma VectorStep(sp: BinSpec, ls: seq<RangePoints>, l: seq<InstantPoint>, rs: seq<RangePoints>, r: seq<InstantPoint>,
                   t: int, ordered: bool, rightOrdered: bool)
    requires GoodVector(rs) && Agree(ls, t, l, ordered) && Agree(rs, t, r, rightOrdered)
    ensures Agree(VectorVectorRange(sp, ls, rs), t, VectorVectorInstant(sp, l, r), ordered)
  {
    hide VectorVectorRange, Slice, WellFormed, PlainSeries, MatchPoints, IndexPoints;
    VectorLifts(sp, ls, rs, t);
    SliceDistinct(rs, t);
    VectorPermutes(sp, Slice(ls, t), l, Slice(rs, t), r);
    IndexPermutes(Slice(rs, t), r);
  }

  /** Range evaluation is instant evaluation lifted pointwise. For any tree over series
      with distinct label sets and distinct timestamps, what the range result shows at
      `t` is what the instant operators give on the slices at `t`: the same points, and
      in the same order unless `topk` decides the order. */
  lemma {:induction false} RangeIsInstantLifted(cx: Ctx, env: seq<seq<RangePoints>>, e: Expr, t: int)
    requires Orderly(cx) && GoodInput(env) && OrderFree(cx, SliceAll(env, t), e, t)
    ensures Agree(EvalRange(cx, env, e), t, EvalInstant(cx, SliceAll(env, t), e, t), SameOrder(e))
  {
    hide GoodInput, Agree, GoodVector, AggregateRange, AggregateInstant, TopKRangeVector, TopKInstant, FiniteRange,
         FiniteInstant, ScalarVectorRange, ScalarVectorInstant, VectorVectorRange, VectorVectorInstant, StrictTotal,
         CleanCuts, DistinctEdges;
    var ins := SliceAll(env, t);
    match e
    case Leaf(i) => LeafAgrees(cx, env, i, t);
    case AggregateOf(op, m, inner) =>
      RangeIsInstantLifted(cx, env, inner, t);
      AggregateStep(cx, EvalRange(cx, env, inner), EvalInstant(cx, ins, inner, t), op, m, t, SameOrder(inner));
    case TopKOf(n, top, m, inner) =>
      RangeIsInstantLifted(cx, env, inner, t);
      TreeGood(cx, env, inner);
      TopKStep(cx, EvalRange(cx, env, inner), EvalInstant(cx, ins, inner, t), n, top, m, t, SameOrder(inner));
    case QuantileOf(q, inner) =>
      RangeIsInstantLifted(cx, env, inner, t);
      QuantileStep(cx, EvalRange(cx, env, inner), EvalInstant(cx, ins, inner, t), q, t, SameOrder(inner));
    case ScalarOf(sp, c, left, inner) =>
      RangeIsInstantLifted(cx, env, inner, t);
      ScalarStep(sp, c, left, EvalRange(cx, env, inner), EvalInstant(cx, ins, inner, t), t, SameOrder(inner));
    case VectorOf(sp, lhs, rhs) =>
      RangeIsInstantLifted(cx, env, lhs, t);
      RangeIsInstantLifted(cx, env, rhs, t);
      TreeGood(cx, env, rhs);
      VectorStep(sp, EvalRange(cx, env, lhs), EvalInstant(cx, ins, lhs, t),
                 EvalRange(cx, env, rhs), EvalInstant(cx, ins, rhs, t), t, SameOrder(lhs), SameOrder(rhs));
  }

  lemma LeafAgrees(cx: Ctx, env: seq<seq<RangePoints>>, i: nat, t: int)
    requires Orderly(cx)
    ensures Agree(EvalRange(cx, env, Leaf(i)), t, EvalInstant(cx, SliceAll(env, t), Leaf(i), t), true)
  {
    SliceNone<real>(t);
  }
}

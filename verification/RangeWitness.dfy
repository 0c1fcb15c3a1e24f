/** Two equal values under two nested `topk` operators: the range query and the instant
    query keep different series, so the condition on ties is needed. */
module RangeWitness {
  import opened Orders
  import opened Sorting
  import opened Vectors
  import opened Aggregate
  import opened StringKeys
  import opened TopK
  import opened TopKOrder
  import opened TopKRange
  import opened RangeLifting

  const X_LABELS: Labels := map["a" := "1", "g" := "2"]
  const Y_LABELS: Labels := map["a" := "2", "g" := "1"]
  const G1: Labels := map["g" := "1"]
  const G2: Labels := map["g" := "2"]

  function X(t: int, v: real): InstantPoint { InstantPoint("", X_LABELS, t, v) }

  function Y(t: int, v: real): InstantPoint { InstantPoint("", Y_LABELS, t, v) }

  function AsRange(p: InstantPoint): RangePoints { RangePoints(p.metric, p.labels, [(p.ts, p.value)]) }

  const BY_G: LabelModifier := Include(["g"])

  /** `topk(1, topk by (g) (1, m * 1))` over the points of `m * 1`. */
  const NESTED: Expr := TopKOf(1, true, NoModifier, TopKOf(1, true, BY_G, Leaf(0)))

  /** The label sets sort as their values do, and so do the series keys. */
  ghost predicate Usual(cx: Ctx)
  {
    Orderly(cx) && cx.lt(G1, G2) && cx.st(SeriesKey(cx.st, "", X_LABELS), SeriesKey(cx.st, "", Y_LABELS))
  }

  lemma CutSingle(p: InstantPoint, n: nat)
    requires n > 0
    ensures Cut([p], n, true) == [p]
  {
    assert [p][..0] == [];
    assert StableSort([p], Ranks(true)) == Insert(p, [], Ranks(true));
  }

  lemma CutTied(p: InstantPoint, q: InstantPoint)
    requires p.value == q.value
    ensures Cut([p, q], 1, true) == [p]
  {
    SortOfSorted([p, q], Ranks(true));
    RankedIsSort([p, q], true);
  }

  lemma MembersOfTwo(p: InstantPoint, q: InstantPoint, m: LabelModifier, k: Labels)
    ensures Members([p, q], m, k) == PointIn(p, m, k) + PointIn(q, m, k)
  {
    hide PointIn;
    assert [p, q][1..] == [q] && |[q][1..]| == 0;
    assert Members([q], m, k) == PointIn(q, m, k) + [];
  }

  lemma GroupsOfG(t: int, v: real)
    ensures GroupKeys([X(t, v), Y(t, v)], BY_G) == {G1, G2}
    ensures Members([X(t, v), Y(t, v)], BY_G, G1) == [Y(t, v)]
    ensures Members([X(t, v), Y(t, v)], BY_G, G2) == [X(t, v)]
  {
    var x, y := X(t, v), Y(t, v);
    assert Retained(X_LABELS, BY_G) == G2 && Retained(Y_LABELS, BY_G) == G1;
    assert G1["g"] != G2["g"];
    MembersOfTwo(x, y, BY_G, G1);
    MembersOfTwo(x, y, BY_G, G2);
    hide Retained, Members;
    assert x in [x, y] && y in [x, y];
  }

  lemma TopKOfOneGroup(pts: seq<InstantPoint>, n: nat, top: bool, m: LabelModifier, a: Labels)
    ensures TopKOver(pts, n, top, m, [a]) == Cut(Members(pts, m, a), n, top)
  {
    hide *;
    TopKUnfold(pts, n, top, m, [a]);
    TopKUnfold(pts, n, top, m, []);
    assert [a][1..] == [];
  }

  lemma TopKOfTwoGroups(pts: seq<InstantPoint>, n: nat, m: LabelModifier, a: Labels, b: Labels)
    ensures TopKOver(pts, n, true, m, [a, b]) == Cut(Members(pts, m, a), n, true) + Cut(Members(pts, m, b), n, true)
  {
    hide *;
    TopKUnfold(pts, n, true, m, [a, b]);
    TopKOfOneGroup(pts, n, true, m, b);
    assert [a, b][1..] == [b];
  }

  lemma UsualOrderly(cx: Ctx)
    requires Usual(cx)
    ensures StrictTotal(cx.lt) && StrictTotal(cx.st) && Orderly(cx) && cx.lt(G1, G2)
  {
    hide StrictTotal;
  }

  lemma TopKInstantIs(cx: Ctx, pts: seq<InstantPoint>, n: nat, top: bool, m: LabelModifier)
    requires StrictTotal(cx.lt)
    ensures TopKInstant(cx.lt, pts, n, top, m) == TopKOver(pts, n, top, m, Sorted(GroupKeys(pts, m), cx.lt))
  {
  }

  /** The inner operator over the leaf, instant form: group 1 first. */
  lemma InnerInstant(cx: Ctx, t: int, v: real)
    requires Usual(cx)
    ensures TopKInstant(cx.lt, [X(t, v), Y(t, v)], 1, true, BY_G) == [Y(t, v), X(t, v)]
  {
    hide *;
    UsualOrderly(cx);
    SortedTwo(cx.lt, G1, G2);
    GroupsOfG(t, v);
    TopKInstantIs(cx, [X(t, v), Y(t, v)], 1, true, BY_G);
    TopKOfTwoGroups([X(t, v), Y(t, v)], 1, BY_G, G1, G2);
    CutSingle(X(t, v), 1);
    CutSingle(Y(t, v), 1);
  }

  lemma OrderlyTotal(cx: Ctx)
    requires Orderly(cx)
    ensures StrictTotal(cx.lt) && StrictTotal(cx.st)
  {
    hide StrictTotal;
  }

  lemma WholeGroup(p: InstantPoint, q: InstantPoint)
    ensures GroupKeys([p, q], NoModifier) == {map[]}
    ensures Members([p, q], NoModifier, map[]) == [p, q]
  {
    assert p in [p, q] && q in [p, q];
    MembersOfTwo(p, q, NoModifier, map[]);
    hide Members;
  }

  lemma OneGroupOfTwo(cx: Ctx, p: InstantPoint, q: InstantPoint)
    requires Orderly(cx) && p.value == q.value
    ensures TopKInstant(cx.lt, [p, q], 1, true, NoModifier) == [p]
  {
    hide *;
    WholeGroup(p, q);
    OrderlyTotal(cx);
    SortedOne<Labels>(cx.lt, map[]);
    CutTied(p, q);
    TopKInstantIs(cx, [p, q], 1, true, NoModifier);
    TopKOfOneGroup([p, q], 1, true, NoModifier, map[]);
  }

  function Input(t: int, v: real): seq<RangePoints> { [AsRange(X(t, v)), AsRange(Y(t, v))] }

  lemma InputSlice(t: int, v: real)
    ensures Slice(Input(t, v), t) == [X(t, v), Y(t, v)]
  {
    var ss := Input(t, v);
    assert ss[1..] == [AsRange(Y(t, v))];
    SliceOne(AsRange(Y(t, v)), t);
    assert [(t, v)][1..] == [];
    assert At([(t, v)], t) == [v];
  }

  lemma InputGood(t: int, v: real)
    ensures GoodVector(Input(t, v))
  {
    assert X_LABELS["a"] != Y_LABELS["a"];
  }

  /** Every point of the series is at `t`, and each series has one. */
  ghost predicate OneTime(ss: seq<RangePoints>, t: int)
  {
    forall s :: s in ss ==> |s.points| == 1 && s.points[0].0 == t
  }

  /** The survivors of the range form over one timestamp, before they are collected,
      are those of the instant form. */
  lemma {:induction false} PushesShow(cx: Ctx, ss: seq<RangePoints>, n: nat, top: bool, m: LabelModifier, t: int)
    requires StrictTotal(cx.lt) && OneTime(ss, t)
    ensures Pushes(ss, n, top, m, Sorted(SeriesKeys(ss, m), cx.lt)) == TopKInstant(cx.lt, Slice(ss, t), n, top, m)
  {
    hide *;
    OneTimeDistinct(ss, t);
    var ks := Sorted(SeriesKeys(ss, m), cx.lt);
    PushesAt(ss, n, top, m, ks, t);
    SliceKeys(cx.lt, ss, m, t);
    TopKInstantIs(cx, Slice(ss, t), n, top, m);
    PushesTimes(ss, n, top, m, ks, t);
    TsFilterUniform(Pushes(ss, n, top, m, ks), t, t);
  }

  lemma OneTimeDistinct(ss: seq<RangePoints>, t: int)
    requires OneTime(ss, t)
    ensures forall i :: 0 <= i < |ss| ==> DistinctTimes(ss[i].points)
  {
  }

  lemma {:induction false} PushesTimes(ss: seq<RangePoints>, n: nat, top: bool, m: LabelModifier, ks: seq<Labels>, t: int)
    requires OneTime(ss, t)
    ensures forall p :: p in Pushes(ss, n, top, m, ks) ==> p.ts == t
  {
    hide Pushes, Retained;
    PushesFrom(ss, n, top, m, ks);
  }

  lemma InputTimes(t: int, v: real)
    ensures OneTime(Input(t, v), t)
  {
  }

  lemma InnerPushes(cx: Ctx, t: int, v: real)
    requires Usual(cx)
    ensures var ss := Input(t, v);
      Pushes(ss, 1, true, BY_G, Sorted(SeriesKeys(ss, BY_G), cx.lt)) == [Y(t, v), X(t, v)]
  {
    hide *;
    UsualOrderly(cx);
    InputSlice(t, v);
    InputTimes(t, v);
    InnerInstant(cx, t, v);
    PushesShow(cx, Input(t, v), 1, true, BY_G, t);
  }

  /** Collected by series key the survivors change places. */
  lemma InnerRangeShows(cx: Ctx, t: int, v: real)
    requires Usual(cx)
    ensures Slice(TopKRangeVector(cx.lt, cx.st, Input(t, v), 1, true, BY_G), t) == [X(t, v), Y(t, v)]
  {
    InnerPushes(cx, t, v);
    UsualOrderly(cx);
    hide StrictTotal, Pushes, SeriesKey, Collect, Slice;
    CollectSwaps(cx.st, X(t, v), Y(t, v));
  }

  lemma CollectSwaps(st: StringOrder, x: InstantPoint, y: InstantPoint)
    requires StrictTotal(st) && st(KeyOf(st, x), KeyOf(st, y)) && x.ts == y.ts
    ensures Slice(Collect(st, [y, x]), x.ts) == [x, y]
  {
    hide *;
    var kx, ky := KeyOf(st, x), KeyOf(st, y);
    Irreflexive(st, kx, ky);
    SortedTwo(st, kx, ky);
    KeysOfTwo(st, y, x);
    assert {ky, kx} == {kx, ky};
    WithKeyOfTwo(st, y, x);
    CollectIs(st, [y, x]);
    CollectUnfold(st, [y, x], [kx, ky]);
    CollectUnfold(st, [y, x], [ky]);
    CollectUnfold(st, [y, x], []);
    assert [kx, ky][1..] == [ky] && [ky][1..] == [];
    CollectedOne(st, [y, x], kx, x);
    CollectedOne(st, [y, x], ky, y);
    assert [AsSeries([y])] + [] == [AsSeries([y])];
    SliceConcat([AsSeries([x])], [AsSeries([y])], x.ts);
    ShownOne(x);
    ShownOne(y);
  }

  lemma CollectedOne(st: StringOrder, ps: seq<InstantPoint>, k: string, p: InstantPoint)
    requires StrictTotal(st) && WithKey(st, ps, k) == [p]
    ensures OneCollected(st, ps, k) == [AsSeries([p])]
  {
    hide StrictTotal, WithKey, AsSeries;
  }

  lemma CollectIs(st: StringOrder, ps: seq<InstantPoint>)
    requires StrictTotal(st)
    ensures Collect(st, ps) == CollectOver(st, ps, Sorted(KeysOf(st, ps), st))
  {
  }

  lemma Irreflexive(st: StringOrder, a: string, b: string)
    requires StrictTotal(st) && st(a, b)
    ensures a != b
  {
  }

  lemma KeysOfTwo(st: StringOrder, p: InstantPoint, q: InstantPoint)
    requires StrictTotal(st)
    ensures KeysOf(st, [p, q]) == {KeyOf(st, p), KeyOf(st, q)}
  {
    hide KeyOf, StrictTotal;
    assert p in [p, q] && q in [p, q];
  }

  lemma WithKeyOfTwo(st: StringOrder, p: InstantPoint, q: InstantPoint)
    requires StrictTotal(st) && KeyOf(st, p) != KeyOf(st, q)
    ensures WithKey(st, [p, q], KeyOf(st, p)) == [p] && WithKey(st, [p, q], KeyOf(st, q)) == [q]
  {
    hide KeyOf, StrictTotal;
    assert [p, q][1..] == [q] && |[q][1..]| == 0;
    assert WithKey(st, [q], KeyOf(st, p)) == [] && WithKey(st, [q], KeyOf(st, q)) == [q];
  }

  lemma ShownOne(p: InstantPoint)
    ensures Slice([AsSeries([p])], p.ts) == [p]
  {
    SliceOne(AsSeries([p]), p.ts);
    assert TimesAndValues([p]) == [(p.ts, p.value)];
    assert [(p.ts, p.value)][1..] == [];
    assert At([(p.ts, p.value)], p.ts) == [p.value];
  }

  /** The range query keeps X, the instant query keeps Y. */
  lemma NestedTiesDiverge(cx: Ctx, t: int, v: real)
    requires Usual(cx)
    ensures Orderly(cx) && GoodInput([Input(t, v)])
    ensures multiset(Slice(EvalRange(cx, [Input(t, v)], NESTED), t)) == multiset{X(t, v)}
    ensures EvalInstant(cx, SliceAll([Input(t, v)], t), NESTED, t) == [Y(t, v)]
    ensures X(t, v) != Y(t, v)
  {
    hide *;
    UsualOrderly(cx);
    InputGood(t, v);
    InputSlice(t, v);
    InnerInstant(cx, t, v);
    InnerRangeShows(cx, t, v);
    TopKGood(cx.lt, cx.st, Input(t, v), 1, true, BY_G);
    TopKLiftsGood(cx, TopKRangeVector(cx.lt, cx.st, Input(t, v), 1, true, BY_G), t);
    SameValue(t, v);
    OneGroupOfTwo(cx, X(t, v), Y(t, v));
    OneGroupOfTwo(cx, Y(t, v), X(t, v));
    Unfolded(cx, Input(t, v), t);
    XIsNotY(t, v);
    OneGood(Input(t, v));
  }

  lemma XIsNotY(t: int, v: real)
    ensures X(t, v) != Y(t, v)
  {
    assert X_LABELS["a"] != Y_LABELS["a"];
  }

  lemma SameValue(t: int, v: real)
    ensures X(t, v).value == Y(t, v).value
  {
  }

  lemma OneGood(ss: seq<RangePoints>)
    requires GoodVector(ss)
    ensures GoodInput([ss])
  {
    hide GoodVector;
  }

  lemma {:induction false} Unfolded(cx: Ctx, ss: seq<RangePoints>, t: int)
    requires StrictTotal(cx.lt) && StrictTotal(cx.st)
    ensures Orderly(cx)
    ensures EvalRange(cx, [ss], NESTED)
         == TopKRangeVector(cx.lt, cx.st, TopKRangeVector(cx.lt, cx.st, ss, 1, true, BY_G), 1, true, NoModifier)
    ensures EvalInstant(cx, SliceAll([ss], t), NESTED, t)
         == TopKInstant(cx.lt, TopKInstant(cx.lt, Slice(ss, t), 1, true, BY_G), 1, true, NoModifier)
  {
    hide StrictTotal, TopKRangeVector, TopKInstant, Slice;
    var ins := SliceAll([ss], t);
    assert ins[0] == Slice(ss, t);
    assert EvalRange(cx, [ss], Leaf(0)) == ss && EvalInstant(cx, ins, Leaf(0), t) == Slice(ss, t);
    var inner := TopKOf(1, true, BY_G, Leaf(0));
    assert EvalRange(cx, [ss], inner) == TopKRangeVector(cx.lt, cx.st, ss, 1, true, BY_G);
    assert EvalInstant(cx, ins, inner, t) == TopKInstant(cx.lt, Slice(ss, t), 1, true, BY_G);
  }

  lemma {:induction false} TopKLiftsGood(cx: Ctx, rs: seq<RangePoints>, t: int)
    requires Orderly(cx) && GoodVector(rs)
    ensures multiset(Slice(TopKRangeVector(cx.lt, cx.st, rs, 1, true, NoModifier), t))
         == multiset(TopKInstant(cx.lt, Slice(rs, t), 1, true, NoModifier))
  {
    hide WellFormed, PlainSeries, StrictTotal;
    TopKLifts(cx.lt, cx.st, rs, 1, true, NoModifier, t);
  }
}

/** The relational plan for `histogram_quantile` over a whole vector: partitions by a
    string key, one row for each. */
module HistogramPushdown {
  import opened Orders
  import opened Wrappers
  import opened Sorting
  import opened Vectors
  import opened Quantile
  import opened Aggregate
  import opened StringKeys
  import opened Histogram
  import opened HistogramPlan
  import opened FiniteAnswers

  /** The key of a bucket series: its other labels, or '' when it has none. */
  function BucketKey(st: StringOrder, labels: Labels): string
    requires StrictTotal(st)
  {
    PairList(st, WithoutLe(labels))
  }

  function KeyedBucket(st: StringOrder, parse: ParseLe, p: InstantPoint, key: string): seq<Bucket>
    requires StrictTotal(st)
  {
    var e := EdgeOf(parse, p.labels);
    if e.Some? && BucketKey(st, p.labels) == key then [(e.value, p.value)] else []
  }

  /** The buckets of one partition. */
  function KeyedBuckets(st: StringOrder, parse: ParseLe, pts: seq<InstantPoint>, key: string): seq<Bucket>
    requires StrictTotal(st)
  {
    if pts == [] then [] else KeyedBucket(st, parse, pts[0], key) + KeyedBuckets(st, parse, pts[1..], key)
  }

  function BucketKeys(st: StringOrder, parse: ParseLe, pts: seq<InstantPoint>): set<string>
    requires StrictTotal(st)
  {
    set p | p in pts && EdgeOf(parse, p.labels).Some? :: BucketKey(st, p.labels)
  }

  /** The labels of a representative of a partition. */
  function Representative(st: StringOrder, parse: ParseLe, pts: seq<InstantPoint>, key: string): Option<Labels>
    requires StrictTotal(st)
  {
    if pts == [] then None
    else if EdgeOf(parse, pts[0].labels).Some? && BucketKey(st, pts[0].labels) == key then Some(pts[0].labels)
    else Representative(st, parse, pts[1..], key)
  }

  /** How the window orders a partition: by edge, tied rows in any order. */
  type Arrangement = seq<Bucket> -> seq<Bucket>

  ghost predicate Arranges(arrange: Arrangement)
  {
    forall bs :: multiset(arrange(bs)) == multiset(bs) && EdgesSorted(arrange(bs))
  }

  /** The row of one partition, under the representative's labels without `le`; an
      infinite value is dropped. */
  function PlanRow(st: StringOrder, parse: ParseLe, arrange: Arrangement, pts: seq<InstantPoint>, q: real, t: int, key: string)
    : seq<InstantPoint>
    requires StrictTotal(st)
  {
    match Representative(st, parse, pts, key)
    case None => []
    case Some(rep) =>
      FinitePoints(Answered(WithoutLe(rep), t, PlanQuantile(arrange(KeyedBuckets(st, parse, pts, key)), q)))
  }

  function PlanRows(st: StringOrder, parse: ParseLe, arrange: Arrangement, pts: seq<InstantPoint>, q: real, t: int,
                    keys: seq<string>): seq<InstantPoint>
    requires StrictTotal(st)
  {
    if keys == [] then []
    else PlanRow(st, parse, arrange, pts, q, t, keys[0]) + PlanRows(st, parse, arrange, pts, q, t, keys[1..])
  }

  /** The plan over the bucket series `pts`, one row per group key. */
  function HistogramSql(st: StringOrder, parse: ParseLe, arrange: Arrangement, pts: seq<InstantPoint>, q: real, t: int)
    : seq<InstantPoint>
    requires StrictTotal(st)
  {
    PlanRows(st, parse, arrange, pts, q, t, Sorted(BucketKeys(st, parse, pts), st))
  }

  ghost predicate PlainBuckets(pts: seq<InstantPoint>) { forall p :: p in pts ==> Plain(p.labels) }

  lemma KeyTellsGroup(st: StringOrder, a: Labels, b: Labels)
    requires StrictTotal(st) && Plain(a) && Plain(b)
    ensures BucketKey(st, a) == BucketKey(st, b) <==> WithoutLe(a) == WithoutLe(b)
  {
    hide StrictTotal, PairList;
    assert Plain(WithoutLe(a)) && Plain(WithoutLe(b));
    PairListInjective(st, WithoutLe(a), WithoutLe(b));
  }

  /** Partitioning by key is grouping by the labels without `le`. */
  lemma {:induction false} SameBuckets(st: StringOrder, parse: ParseLe, pts: seq<InstantPoint>, rep: Labels)
    requires StrictTotal(st) && PlainBuckets(pts) && Plain(rep)
    ensures KeyedBuckets(st, parse, pts, BucketKey(st, rep)) == Buckets(parse, pts, WithoutLe(rep))
  {
    hide StrictTotal, BucketKey, WithoutLe, EdgeOf, Plain;
    if pts != [] {
      assert pts == [pts[0]] + pts[1..] && pts[0] in pts;
      KeyTellsGroup(st, pts[0].labels, rep);
      SameBuckets(st, parse, pts[1..], rep);
    }
  }

  lemma {:induction false} RepresentativeOf(st: StringOrder, parse: ParseLe, pts: seq<InstantPoint>, key: string)
    requires StrictTotal(st) && key in BucketKeys(st, parse, pts)
    ensures var r := Representative(st, parse, pts, key);
      r.Some? && BucketKey(st, r.value) == key && EdgeOf(parse, r.value).Some?
      && exists p :: p in pts && p.labels == r.value
  {
    hide StrictTotal, BucketKey, EdgeOf;
    assert pts == [pts[0]] + pts[1..];
    if EdgeOf(parse, pts[0].labels).Some? && BucketKey(st, pts[0].labels) == key {
      assert pts[0] in pts;
    } else {
      RepresentativeOf(st, parse, pts[1..], key);
    }
  }

  lemma {:induction false} KeyOfGroup(st: StringOrder, parse: ParseLe, pts: seq<InstantPoint>, k: Labels) returns (key: string)
    requires StrictTotal(st) && PlainBuckets(pts) && k in HistKeys(parse, pts)
    ensures key in BucketKeys(st, parse, pts) && Representative(st, parse, pts, key).Some?
    ensures WithoutLe(Representative(st, parse, pts, key).value) == k
  {
    hide StrictTotal, BucketKey, WithoutLe, EdgeOf, Plain;
    var x :| x in pts && EdgeOf(parse, x.labels).Some? && WithoutLe(x.labels) == k;
    key := BucketKey(st, x.labels);
    RepresentativeOf(st, parse, pts, key);
    KeyTellsGroup(st, Representative(st, parse, pts, key).value, x.labels);
  }

  // ---------- what either side returns, group by group ----------

  /** `o` is the answer of group `k`, and `p` its point. */
  predicate PointOfGroup(t: int, k: Labels, o: Option<Le>, p: InstantPoint)
  {
    p.metric == "" && p.ts == t && p.labels == k && o == Some(Fin(p.value))
  }

  function PlanAnswer(parse: ParseLe, arrange: Arrangement, pts: seq<InstantPoint>, q: real, k: Labels): Option<Le>
  {
    PlanQuantile(arrange(Buckets(parse, pts, k)), q)
  }

  lemma FiniteAnswered(k: Labels, t: int, o: Option<Le>, p: InstantPoint)
    ensures p in FinitePoints(Answered(k, t, o)) <==> PointOfGroup(t, k, o, p)
  {
    FinitePointsHave(Answered(k, t, o), p);
  }

  lemma {:induction false} PlanRowsHave(st: StringOrder, parse: ParseLe, arrange: Arrangement, pts: seq<InstantPoint>, q: real, t: int,
                                       keys: seq<string>)
    requires StrictTotal(st)
    ensures forall p :: p in PlanRows(st, parse, arrange, pts, q, t, keys) <==>
      exists key :: key in keys && p in PlanRow(st, parse, arrange, pts, q, t, key)
  {
    hide StrictTotal, PlanRow;
    if keys != [] {
      assert keys == [keys[0]] + keys[1..];
      PlanRowsHave(st, parse, arrange, pts, q, t, keys[1..]);
    }
  }

  lemma {:induction false} PlanRowHas(st: StringOrder, parse: ParseLe, arrange: Arrangement, pts: seq<InstantPoint>, q: real, t: int,
                                     key: string, p: InstantPoint) returns (k: Labels)
    requires StrictTotal(st) && PlainBuckets(pts) && key in BucketKeys(st, parse, pts)
    ensures Representative(st, parse, pts, key).Some? && k == WithoutLe(Representative(st, parse, pts, key).value)
    ensures k in HistKeys(parse, pts)
    ensures p in PlanRow(st, parse, arrange, pts, q, t, key) <==> PointOfGroup(t, k, PlanAnswer(parse, arrange, pts, q, k), p)
  {
    hide StrictTotal, BucketKey, WithoutLe, EdgeOf, Plain, PlanQuantile, PointOfGroup;
    RepresentativeOf(st, parse, pts, key);
    var rep := Representative(st, parse, pts, key).value;
    k := WithoutLe(rep);
    SameBuckets(st, parse, pts, rep);
    FiniteAnswered(k, t, PlanAnswer(parse, arrange, pts, q, k), p);
  }

  /** The plan returns the finite answers of the arranged groups. */
  lemma {:induction false} PlanHas(st: StringOrder, parse: ParseLe, arrange: Arrangement, pts: seq<InstantPoint>, q: real, t: int,
                                  p: InstantPoint)
    requires StrictTotal(st) && PlainBuckets(pts)
    ensures p in HistogramSql(st, parse, arrange, pts, q, t) <==>
      p.labels in HistKeys(parse, pts) && PointOfGroup(t, p.labels, PlanAnswer(parse, arrange, pts, q, p.labels), p)
  {
    hide StrictTotal, BucketKey, WithoutLe, EdgeOf, PlanRow, PlanRows, BucketKeys, HistKeys, PlanAnswer;
    var keys := Sorted(BucketKeys(st, parse, pts), st);
    PlanRowsHave(st, parse, arrange, pts, q, t, keys);
    if p in HistogramSql(st, parse, arrange, pts, q, t) {
      var key :| key in keys && p in PlanRow(st, parse, arrange, pts, q, t, key);
      var k := PlanRowHas(st, parse, arrange, pts, q, t, key, p);
    }
    if p.labels in HistKeys(parse, pts) {
      var key := KeyOfGroup(st, parse, pts, p.labels);
      var k := PlanRowHas(st, parse, arrange, pts, q, t, key, p);
      assert key in keys;
    }
  }

  lemma {:induction false} AnswersOver(parse: ParseLe, pts: seq<InstantPoint>, q: real, t: int, ks: seq<Labels>, p: InstantPoint)
    ensures p in FinitePoints(HistInstantOver(parse, pts, q, t, ks)) <==>
      p.labels in ks && PointOfGroup(t, p.labels, GroupQuantile(Buckets(parse, pts, p.labels), q), p)
  {
    hide GroupQuantile, Answered, FinitePoints;
    FinitePointsHave(HistInstantOver(parse, pts, q, t, ks), p);
    if ks != [] {
      AnswersOver(parse, pts, q, t, ks[1..], p);
      assert ks == [ks[0]] + ks[1..];
      FinitePointsHave(HistInstantOver(parse, pts, q, t, ks[1..]), p);
      var head := Answered(ks[0], t, GroupQuantile(Buckets(parse, pts, ks[0]), q));
      FinitePointsHave(head, p);
      FiniteAnswered(ks[0], t, GroupQuantile(Buckets(parse, pts, ks[0]), q), p);
    }
  }

  /** The operator's finite answers. */
  lemma OperatorHas(parse: ParseLe, lt: LabelOrder, pts: seq<InstantPoint>, q: real, t: int, p: InstantPoint)
    requires StrictTotal(lt)
    ensures p in FinitePoints(HistInstant(parse, lt, pts, q, t)) <==>
      p.labels in HistKeys(parse, pts) && PointOfGroup(t, p.labels, GroupQuantile(Buckets(parse, pts, p.labels), q), p)
  {
    hide StrictTotal, PointOfGroup, GroupQuantile, Buckets, HistKeys, FinitePoints, HistInstantOver;
    AnswersOver(parse, pts, q, t, Sorted(HistKeys(parse, pts), lt), p);
  }

  // ---------- when both return the same points ----------

  /** Groups the plan and the operator answer alike. */
  ghost predicate AllAlike(parse: ParseLe, pts: seq<InstantPoint>)
  {
    forall k :: k in HistKeys(parse, pts) ==> Alike(SortedBuckets(Buckets(parse, pts, k)))
  }

  /** Without equal edges the window has one order left, the operator's. */
  lemma {:induction false} OneArrangement(arrange: Arrangement, bs: seq<Bucket>)
    requires Arranges(arrange) && EdgesApart(bs)
    ensures arrange(bs) == SortedBuckets(bs)
  {
    hide StableSort;
    var x, y := arrange(bs), SortedBuckets(bs);
    SortedAgain(bs);
    SortPermutes(bs, EdgeBefore);
    SortSorts(bs, EdgeBefore);
    forall u, v | u in x && v in x && u != v ensures EdgeBefore(u, v) || EdgeBefore(v, u) {
      assert u in multiset(x) && v in multiset(x);
      assert u in bs && v in bs;
    }
    SortedUnique(x, y, EdgeBefore);
  }

  /** Where no group has equal edges and every group is answered alike, the plan returns
      exactly the points of the operator, label-less group included, whatever order it
      leaves tied rows in; and all of the operator's points are finite. */
  lemma {:induction false} HistogramSqlIsHistInstant(st: StringOrder, parse: ParseLe, arrange: Arrangement, lt: LabelOrder,
                                                     pts: seq<InstantPoint>, q: real, t: int, p: InstantPoint)
    requires StrictTotal(st) && StrictTotal(lt) && Arranges(arrange) && 0.0 < q < 1.0
    requires PlainBuckets(pts) && DistinctEdges(parse, pts) && AllAlike(parse, pts)
    ensures p in HistogramSql(st, parse, arrange, pts, q, t) <==> p in FinitePoints(HistInstant(parse, lt, pts, q, t))
    ensures forall a :: a in HistInstant(parse, lt, pts, q, t) ==> a.value.Fin?
  {
    hide StrictTotal, HistogramSql, HistInstant, FinitePoints, Quantile.Quantile, PlanQuantile, Alike, HistKeys, Buckets,
         Arranges, EdgesApart;
    var bs := Buckets(parse, pts, p.labels);
    PlanHas(st, parse, arrange, pts, q, t, p);
    OperatorHas(parse, lt, pts, q, t, p);
    AnswersFinite(parse, lt, pts, q, t);
    if p.labels in HistKeys(parse, pts) {
      assert EdgesApart(bs);
      OneArrangement(arrange, bs);
      AlikeAgree(SortedBuckets(bs), q);
    }
  }

  ghost predicate StrictGroups(parse: ParseLe, pts: seq<InstantPoint>)
  {
    forall k :: k in HistKeys(parse, pts) ==> StrictEdges(SortedBuckets(Buckets(parse, pts, k)))
  }

  lemma {:induction false} StrictApart(bs: seq<Bucket>)
    requires StrictEdges(SortedBuckets(bs))
    ensures EdgesApart(bs)
  {
    hide StableSort;
    var r := SortedBuckets(bs);
    SortedAgain(bs);
    SortPermutes(bs, EdgeBefore);
    forall a, b | a in bs && b in bs && a != b ensures a.0 != b.0 {
      assert a in multiset(r) && b in multiset(r);
      var i :| 0 <= i < |r| && r[i] == a;
      var j :| 0 <= j < |r| && r[j] == b;
      assert i < j || j < i;
    }
  }

  /** The plan's answer on rising edges is finite. */
  lemma {:induction false} PlanFinite(bs: seq<Bucket>, q: real)
    requires StrictEdges(bs) && 0.0 < q < 1.0
    ensures PlanQuantile(bs, q).Some? ==> PlanQuantile(bs, q).value.Fin?
  {
    hide PlanQuantile;
    if bs == [] || MaxCum(bs) <= 0.0 {
      NoTotalNoRow(bs, q);
    } else {
      MaxCumIsMax(bs);
      var m :| 0 <= m < |bs| && bs[m].1 == MaxCum(bs);
      var c := PlanCrossing(bs, q, m);
      assert c > 0 ==> LeLess(bs[c - 1].0, bs[c].0);
    }
  }

  /** A group answered differently puts some point into one result only. */
  lemma {:induction false} DifferentPoint(st: StringOrder, parse: ParseLe, arrange: Arrangement, lt: LabelOrder,
                                          pts: seq<InstantPoint>, q: real, t: int, k: Labels) returns (p: InstantPoint)
    requires StrictTotal(st) && StrictTotal(lt) && Arranges(arrange) && 0.0 < q < 1.0
    requires PlainBuckets(pts) && k in HistKeys(parse, pts)
    requires StrictEdges(SortedBuckets(Buckets(parse, pts, k))) && !Alike(SortedBuckets(Buckets(parse, pts, k)))
    ensures p in HistogramSql(st, parse, arrange, pts, q, t) <==> p !in FinitePoints(HistInstant(parse, lt, pts, q, t))
  {
    hide StrictTotal, HistogramSql, HistInstant, FinitePoints, Quantile.Quantile, PlanQuantile, Alike, HistKeys, Buckets,
         Arranges, EdgesApart, SortedBuckets, StrictEdges;
    var bs := Buckets(parse, pts, k);
    StrictApart(bs);
    OneArrangement(arrange, bs);
    PlanAgreesIff(SortedBuckets(bs), q);
    PlanFinite(SortedBuckets(bs), q);
    AnswerFinite(bs, q);
    var o := if PlanQuantile(SortedBuckets(bs), q).Some? then PlanQuantile(SortedBuckets(bs), q) else GroupQuantile(bs, q);
    p := InstantPoint("", k, t, o.value.r);
    PlanHas(st, parse, arrange, pts, q, t, p);
    OperatorHas(parse, lt, pts, q, t, p);
  }

  /** Where the edges of every group rise from above zero, plan and operator return the
      same points exactly when every group is answered alike. */
  lemma {:induction false} HistogramSqlIff(st: StringOrder, parse: ParseLe, arrange: Arrangement, lt: LabelOrder,
                                           pts: seq<InstantPoint>, q: real, t: int)
    requires StrictTotal(st) && StrictTotal(lt) && Arranges(arrange) && 0.0 < q < 1.0
    requires PlainBuckets(pts) && StrictGroups(parse, pts)
    ensures AllAlike(parse, pts) <==>
      forall p :: p in HistogramSql(st, parse, arrange, pts, q, t) <==> p in FinitePoints(HistInstant(parse, lt, pts, q, t))
  {
    hide StrictTotal, HistogramSql, HistInstant, FinitePoints, Alike, HistKeys, Arranges, EdgesApart, SortedBuckets, StrictEdges;
    if AllAlike(parse, pts) {
      forall k ensures EdgesApart(Buckets(parse, pts, k)) {
        NoBuckets(parse, pts, k);
        if k in HistKeys(parse, pts) {
          StrictApart(Buckets(parse, pts, k));
        } else {
          NothingApart();
        }
      }
      forall p
        ensures p in HistogramSql(st, parse, arrange, pts, q, t) <==> p in FinitePoints(HistInstant(parse, lt, pts, q, t))
      {
        HistogramSqlIsHistInstant(st, parse, arrange, lt, pts, q, t, p);
      }
    } else {
      var k :| k in HistKeys(parse, pts) && !Alike(SortedBuckets(Buckets(parse, pts, k)));
      var p := DifferentPoint(st, parse, arrange, lt, pts, q, t, k);
    }
  }

  lemma NothingApart()
    ensures EdgesApart([])
  {
  }
}

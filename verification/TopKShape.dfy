/** The series `topk` and `bottomk` give over range vectors: series of the input with
    some of their points, in strictly ascending time. */
module TopKShape {
  import opened Orders
  import opened Vectors
  import opened Aggregate
  import opened StringKeys
  import opened TopK
  import opened TopKRange

  ghost predicate StrictTimes(ps: seq<InstantPoint>)
  {
    forall i, j :: 0 <= i < j < |ps| ==> ps[i].ts < ps[j].ts
  }

  ghost predicate TimesAscend(points: seq<(int, real)>)
  {
    forall i, j :: 0 <= i < j < |points| ==> points[i].0 < points[j].0
  }

  lemma {:induction false} KeyOnce(st: StringOrder, ss: seq<RangePoints>, t: int, k: string)
    requires StrictTotal(st) && DistinctLabels(ss) && PlainSeries(ss)
    ensures |WithKey(st, MembersAt(ss, t), k)| <= 1
  {
    if ss != [] {
      hide StrictTotal, ToMap, SeriesKey, Plain;
      assert ss == [ss[0]] + ss[1..];
      var head, rest := MemberAt(ss[0], t), MembersAt(ss[1..], t);
      KeyOnce(st, ss[1..], t, k);
      WithKeyConcat(st, head, rest, k);
      WithKeyIn(st, rest, k);
      MembersAtTimes(ss[1..], t);
      hide MembersAt;
      forall p | p in rest && head != [] ensures KeyOf(st, p) != KeyOf(st, head[0]) {
        var i :| FromSeries(ss[1..], i, p);
        assert ss[1..][i] == ss[i + 1] && ss[i + 1] in ss && ss[0] in ss;
        SeriesKeyInjective(st, p.metric, p.labels, ss[0].metric, ss[0].labels);
      }
      assert |WithKey(st, head, k)| <= 1 by {
        WithKeyCut(st, head, head, k);
      }
      if WithKey(st, head, k) != [] {
        WithKeyIn(st, head, k);
        assert WithKey(st, head, k)[0] in WithKey(st, head, k);
        SomeElement(WithKey(st, rest, k));
      }
    }
  }

  lemma SomeElement<T>(s: seq<T>)
    ensures s == [] || exists x :: x in s
  {
    if s != [] {
      assert s[0] in s;
    }
  }

  lemma SubSize<T>(a: seq<T>, b: seq<T>)
    requires multiset(a) <= multiset(b)
    ensures |a| <= |b|
  {
    var d := multiset(b) - multiset(a);
    assert multiset(b) == multiset(a) + d;
    assert |multiset(b)| == |multiset(a)| + |d|;
  }

  lemma {:induction false} WithKeySize(st: StringOrder, ps: seq<InstantPoint>, k: string)
    requires StrictTotal(st)
    ensures |WithKey(st, ps, k)| <= |ps|
  {
    hide StrictTotal, KeyOf;
    if ps != [] {
      WithKeySize(st, ps[1..], k);
    }
  }

  lemma {:induction false} WithKeyCut(st: StringOrder, a: seq<InstantPoint>, b: seq<InstantPoint>, k: string)
    requires StrictTotal(st) && multiset(a) <= multiset(b)
    ensures |WithKey(st, a, k)| <= |WithKey(st, b, k)| <= |b|
  {
    hide StrictTotal, KeyOf, WithKey;
    forall p ensures multiset(WithKey(st, a, k))[p] <= multiset(WithKey(st, b, k))[p] {
      WithKeyCount(st, a, k, p);
      WithKeyCount(st, b, k, p);
    }
    SubSize(WithKey(st, a, k), WithKey(st, b, k));
    WithKeySize(st, b, k);
  }

  /** In one group the survivors of one series come in strictly ascending time. */
  lemma {:induction false} GroupStrict(st: StringOrder, members: seq<RangePoints>, n: nat, top: bool, ts: seq<int>, k: string)
    requires StrictTotal(st) && DistinctLabels(members) && PlainSeries(members) && Ascending(ts, IntLess)
    ensures StrictTimes(WithKey(st, GroupPushes(members, n, top, ts), k))
  {
    hide StrictTotal, KeyOf, Cut, MembersAt, GroupPushes, PlainSeries, DistinctLabels, FromSeries;
    GroupPushesUnfold(members, n, top, ts);
    if ts == [] {
      WithKeyNone(st, k);
    } else {
      var head, rest := Cut(MembersAt(members, ts[0]), n, top), GroupPushes(members, n, top, ts[1..]);
      GroupStrict(st, members, n, top, ts[1..], k);
      WithKeyConcat(st, head, rest, k);
      KeyOnce(st, members, ts[0], k);
      CutIsTop(MembersAt(members, ts[0]), n, top);
      WithKeyCut(st, head, MembersAt(members, ts[0]), k);
      CutAtOneTime(members, n, top, ts[0]);
      GroupPushesFrom(members, n, top, ts[1..]);
      WithKeyIn(st, head, k);
      WithKeyIn(st, rest, k);
      HeadLeast(ts, IntLess);
      hide WithKey;
      StrictJoin(WithKey(st, head, k), WithKey(st, rest, k));
    }
  }

  lemma WithKeyNone(st: StringOrder, k: string)
    requires StrictTotal(st)
    ensures WithKey(st, [], k) == []
  {
  }

  lemma StrictJoin(a: seq<InstantPoint>, b: seq<InstantPoint>)
    requires |a| <= 1 && StrictTimes(b) && forall p, q :: p in a && q in b ==> p.ts < q.ts
    ensures StrictTimes(a + b)
  {
    forall i, j | 0 <= i < j < |a + b| ensures (a + b)[i].ts < (a + b)[j].ts {
      if i < |a| {
        assert a[i] in a && b[j - |a|] in b;
      }
    }
  }

  lemma GroupSeriesUnfold(ss: seq<RangePoints>, m: LabelModifier, k: Labels)
    requires ss != []
    ensures GroupSeries(ss, m, k) == (if Retained(ss[0].labels, m) == k then [ss[0]] else []) + GroupSeries(ss[1..], m, k)
  {
    hide Retained;
  }

  lemma {:induction false} GroupDistinct(ss: seq<RangePoints>, m: LabelModifier, k: Labels)
    requires DistinctLabels(ss)
    ensures DistinctLabels(GroupSeries(ss, m, k))
  {
    if ss != [] {
      GroupDistinct(ss[1..], m, k);
      GroupSeriesIn(ss[1..], m, k);
      var rest := GroupSeries(ss[1..], m, k);
      GroupSeriesUnfold(ss, m, k);
      hide GroupSeries;
      forall s | s in rest ensures s.labels != ss[0].labels {
        var i :| 0 <= i < |ss[1..]| && ss[1..][i] == s;
        assert ss[i + 1] == s;
      }
      assert forall i :: 0 <= i < |rest| ==> rest[i] in rest;
    }
  }

  /** Over all groups: a series belongs to one group only. */
  lemma {:induction false} PushesStrict(lt: LabelOrder, st: StringOrder, ss: seq<RangePoints>, n: nat, top: bool,
                                        m: LabelModifier, ks: seq<Labels>, k: string)
    requires StrictTotal(lt) && StrictTotal(st) && DistinctLabels(ss) && PlainSeries(ss) && Ascending(ks, lt)
    ensures StrictTimes(WithKey(st, Pushes(ss, n, top, m, ks), k))
  {
    hide StrictTotal, KeyOf, Pushes, PushesOf, PlainSeries, DistinctLabels, Retained, Ascending, IsPointOf;
    PushesUnfold(ss, n, top, m, ks);
    if ks == [] {
      WithKeyNone(st, k);
    } else {
      var head, rest := PushesOf(GroupSeries(ss, m, ks[0]), n, top), Pushes(ss, n, top, m, ks[1..]);
      HeadDistinct(lt, ks);
      PushesStrict(lt, st, ss, n, top, m, ks[1..], k);
      WithKeyConcat(st, head, rest, k);
      GroupPushesStrict(st, ss, n, top, m, ks[0], k);
      WithKeyIn(st, head, k);
      WithKeyIn(st, rest, k);
      hide WithKey, GroupSeries;
      if WithKey(st, head, k) != [] {
        var p := WithKey(st, head, k)[0];
        assert p in WithKey(st, head, k);
        PushesOfFrom(ss, n, top, m, ks[0], p);
        forall q | q in WithKey(st, rest, k) ensures false {
          PushesFrom(ss, n, top, m, ks[1..]);
          KeysOfPoints(st, ss, p, q);
        }
        SomeElement(WithKey(st, rest, k));
      } else {
        assert [] + WithKey(st, rest, k) == WithKey(st, rest, k);
      }
    }
  }

  lemma KeysOfPoints(st: StringOrder, ss: seq<RangePoints>, p: InstantPoint, q: InstantPoint)
    requires StrictTotal(st) && PlainSeries(ss) && KeyOf(st, p) == KeyOf(st, q)
    requires exists s :: s in ss && IsPointOf(s, p)
    requires exists s :: s in ss && IsPointOf(s, q)
    ensures p.labels == q.labels && p.metric == q.metric
  {
    hide StrictTotal, Plain, SeriesKey;
    var s :| s in ss && IsPointOf(s, p);
    var r :| r in ss && IsPointOf(r, q);
    SeriesKeyInjective(st, p.metric, p.labels, q.metric, q.labels);
  }

  lemma {:induction false} GroupPushesStrict(st: StringOrder, ss: seq<RangePoints>, n: nat, top: bool, m: LabelModifier, g: Labels, k: string)
    requires StrictTotal(st) && DistinctLabels(ss) && PlainSeries(ss)
    ensures StrictTimes(WithKey(st, PushesOf(GroupSeries(ss, m, g), n, top), k))
  {
    var members := GroupSeries(ss, m, g);
    GroupDistinct(ss, m, g);
    GroupSeriesIn(ss, m, g);
    hide StrictTotal, GroupSeries, DistinctLabels, Plain, Retained, WithKey, GroupPushes, StrictTimes;
    assert PlainSeries(members);
    GroupStrict(st, members, n, top, Ascend(AllTimes(members)), k);
  }

  // ---------- the collected series ----------

  /** A series with the name and labels of a series of `ss` and some of its points. */
  ghost predicate PartOf(ss: seq<RangePoints>, r: RangePoints)
  {
    exists s :: s in ss && s.metric == r.metric && s.labels == r.labels && forall p :: p in r.points ==> p in s.points
  }

  lemma OneCollectedShape(st: StringOrder, ss: seq<RangePoints>, ps: seq<InstantPoint>, k: string)
    requires StrictTotal(st) && PlainSeries(ss) && DistinctLabels(ss)
    requires forall p :: p in ps ==> exists s :: s in ss && IsPointOf(s, p)
    requires StrictTimes(WithKey(st, ps, k))
    ensures var c := OneCollected(st, ps, k);
      |c| <= 1 && (c != [] ==>
        PartOf(ss, c[0]) && TimesAscend(c[0].points) && SeriesKey(st, c[0].metric, c[0].labels) == k)
  {
    hide StrictTotal, Plain, SeriesKey, WithKey;
    var mine := WithKey(st, ps, k);
    WithKeyIn(st, ps, k);
    if mine != [] {
      assert mine[0] in mine;
      var s :| s in ss && IsPointOf(s, mine[0]);
      forall q | q in AsSeries(mine).points ensures q in s.points {
        var i :| 0 <= i < |mine| && AsSeries(mine).points[i] == q;
        assert mine[i] in mine;
        var r :| r in ss && IsPointOf(r, mine[i]);
        KeysOfPoints(st, ss, mine[0], mine[i]);
        SameSeries(ss, r, s);
      }
    }
  }

  lemma SameSeries(ss: seq<RangePoints>, r: RangePoints, s: RangePoints)
    requires DistinctLabels(ss) && r in ss && s in ss && r.labels == s.labels
    ensures r == s
  {
  }

  lemma {:induction false} CollectShape(st: StringOrder, ss: seq<RangePoints>, ps: seq<InstantPoint>, ks: seq<string>)
    requires StrictTotal(st) && PlainSeries(ss) && DistinctLabels(ss) && Ascending(ks, st)
    requires forall p :: p in ps ==> exists s :: s in ss && IsPointOf(s, p)
    requires forall k :: StrictTimes(WithKey(st, ps, k))
    ensures var c := CollectOver(st, ps, ks);
      && WellFormed(c)
      && forall r :: r in c ==> PartOf(ss, r) && TimesAscend(r.points) && SeriesKey(st, r.metric, r.labels) in ks
  {
    hide StrictTotal, SeriesKey, WithKey, Ascending, PlainSeries, IsPointOf, PartOf, OneCollected, CollectOver;
    CollectUnfold(st, ps, ks);
    if ks != [] {
      StringHeadDistinct(st, ks);
      assert ks == [ks[0]] + ks[1..];
      var head, rest := OneCollected(st, ps, ks[0]), CollectOver(st, ps, ks[1..]);
      CollectShape(st, ss, ps, ks[1..]);
      OneCollectedShape(st, ss, ps, ks[0]);
      hide TimesAscend, StrictTimes, DistinctLabels;
      forall s, q | s in head && q in rest ensures s.labels != q.labels {
        PartsApart(st, ss, s, q);
      }
      OneWellFormed(head);
      hide WellFormed;
      WellFormedJoin(head, rest);
    }
  }

  lemma OneWellFormed(c: seq<RangePoints>)
    requires |c| <= 1 && (c != [] ==> TimesAscend(c[0].points))
    ensures WellFormed(c)
  {
  }

  lemma PartsApart(st: StringOrder, ss: seq<RangePoints>, s: RangePoints, q: RangePoints)
    requires StrictTotal(st) && DistinctLabels(ss) && PartOf(ss, s) && PartOf(ss, q)
    requires SeriesKey(st, s.metric, s.labels) != SeriesKey(st, q.metric, q.labels)
    ensures s.labels != q.labels
  {
  }

  /** Every output series is part of an input series, in strictly ascending time, one
      for each label set. */
  lemma {:induction false} TopKRangeShape(lt: LabelOrder, st: StringOrder, ss: seq<RangePoints>, n: nat, top: bool, m: LabelModifier)
    requires StrictTotal(lt) && StrictTotal(st) && WellFormed(ss) && PlainSeries(ss)
    ensures var c := TopKRangeVector(lt, st, ss, n, top, m);
      && WellFormed(c)
      && forall r :: r in c ==> PartOf(ss, r) && TimesAscend(r.points)
  {
    hide StrictTotal, Pushes, PlainSeries, IsPointOf, PartOf, CollectOver, StrictTimes, WithKey, KeysOf;
    var ks := Sorted(SeriesKeys(ss, m), lt);
    var ps := Pushes(ss, n, top, m, ks);
    PushesFrom(ss, n, top, m, ks);
    forall k ensures StrictTimes(WithKey(st, ps, k)) {
      PushesStrict(lt, st, ss, n, top, m, ks, k);
    }
    CollectShape(st, ss, ps, Sorted(KeysOf(st, ps), st));
  }
}

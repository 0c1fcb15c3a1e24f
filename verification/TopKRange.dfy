/** `topk` and `bottomk` over range vectors: a cut at every timestamp, collected back
    into series under their series keys. */
module TopKRange {
  import opened Orders
  import opened Vectors
  import opened Aggregate
  import opened StringKeys
  import opened TopK

  // ---------- the cut at one timestamp ----------

  /** A series' points as a map: the last value of a timestamp wins. */
  function ToMap(points: seq<(int, real)>): map<int, real>
  {
    if points == [] then map[] else ToMap(points[..|points| - 1])[points[|points| - 1].0 := points[|points| - 1].1]
  }

  function MemberAt(s: RangePoints, t: int): seq<InstantPoint>
  {
    if t in ToMap(s.points) then [InstantPoint(s.metric, s.labels, t, ToMap(s.points)[t])] else []
  }

  function MembersAt(ss: seq<RangePoints>, t: int): seq<InstantPoint>
  {
    if ss == [] then [] else MemberAt(ss[0], t) + MembersAt(ss[1..], t)
  }

  /** The survivors of one group, timestamp by timestamp. */
  function GroupPushes(members: seq<RangePoints>, n: nat, top: bool, ts: seq<int>): seq<InstantPoint>
  {
    if ts == [] then [] else Cut(MembersAt(members, ts[0]), n, top) + GroupPushes(members, n, top, ts[1..])
  }

  function Pushes(ss: seq<RangePoints>, n: nat, top: bool, m: LabelModifier, ks: seq<Labels>): seq<InstantPoint>
  {
    if ks == [] then [] else PushesOf(GroupSeries(ss, m, ks[0]), n, top) + Pushes(ss, n, top, m, ks[1..])
  }

  function PushesOf(members: seq<RangePoints>, n: nat, top: bool): seq<InstantPoint>
  {
    GroupPushes(members, n, top, Ascend(AllTimes(members)))
  }

  // ---------- collecting by series key ----------

  function KeyOf(st: StringOrder, p: InstantPoint): string
    requires StrictTotal(st)
  {
    SeriesKey(st, p.metric, p.labels)
  }

  function KeysOf(st: StringOrder, ps: seq<InstantPoint>): set<string>
    requires StrictTotal(st)
  {
    set p | p in ps :: KeyOf(st, p)
  }

  /** The survivors with series key `k`, in order. */
  function WithKey(st: StringOrder, ps: seq<InstantPoint>, k: string): seq<InstantPoint>
    requires StrictTotal(st)
  {
    if ps == [] then [] else PointWithKey(st, ps[0], k) + WithKey(st, ps[1..], k)
  }

  function PointWithKey(st: StringOrder, p: InstantPoint, k: string): seq<InstantPoint>
    requires StrictTotal(st)
  {
    if KeyOf(st, p) == k then [p] else []
  }

  function TimesAndValues(ps: seq<InstantPoint>): (r: seq<(int, real)>)
    ensures |r| == |ps|
    ensures forall i :: 0 <= i < |r| ==> r[i] == (ps[i].ts, ps[i].value)
  {
    seq(|ps|, i requires 0 <= i < |ps| => (ps[i].ts, ps[i].value))
  }

  /** One series: name and labels of its first point, and every point. */
  function AsSeries(ps: seq<InstantPoint>): RangePoints
    requires ps != []
  {
    RangePoints(ps[0].metric, ps[0].labels, TimesAndValues(ps))
  }

  function CollectOver(st: StringOrder, ps: seq<InstantPoint>, ks: seq<string>): seq<RangePoints>
    requires StrictTotal(st)
  {
    if ks == [] then []
    else
      var mine := WithKey(st, ps, ks[0]);
      (if mine == [] then [] else [AsSeries(mine)]) + CollectOver(st, ps, ks[1..])
  }

  function Collect(st: StringOrder, ps: seq<InstantPoint>): seq<RangePoints>
    requires StrictTotal(st)
  {
    CollectOver(st, ps, Sorted(KeysOf(st, ps), st))
  }

  /** The surviving series, in the order of their keys. */
  function TopKRangeVector(lt: LabelOrder, st: StringOrder, ss: seq<RangePoints>, n: nat, top: bool, m: LabelModifier)
    : seq<RangePoints>
    requires StrictTotal(lt) && StrictTotal(st)
  {
    Collect(st, Pushes(ss, n, top, m, Sorted(SeriesKeys(ss, m), lt)))
  }

  // ---------- points at a timestamp ----------

  lemma {:induction false} ToMapKeys(points: seq<(int, real)>)
    ensures ToMap(points).Keys == Times(points)
    ensures forall t :: t in ToMap(points) ==> (t, ToMap(points)[t]) in points
  {
    if points != [] {
      var n := |points| - 1;
      ToMapKeys(points[..n]);
      assert points == points[..n] + [points[n]];
    }
  }

  lemma OneValueAt(points: seq<(int, real)>, t: int)
    requires DistinctTimes(points)
    ensures At(points, t) == if t in ToMap(points) then [ToMap(points)[t]] else []
  {
    AtDistinct(points, t);
    AtTimes(points, t);
    ToMapKeys(points);
    if t in ToMap(points) {
      AtIn(points, t, ToMap(points)[t]);
    }
  }

  lemma {:induction false} SliceMembers(ss: seq<RangePoints>, m: LabelModifier, k: Labels, t: int)
    requires forall i :: 0 <= i < |ss| ==> DistinctTimes(ss[i].points)
    ensures MembersAt(GroupSeries(ss, m, k), t) == Members(Slice(ss, t), m, k)
  {
    hide Retained, Members, At, ToMap;
    if ss == [] {
      NoMembers(m, k);
    } else {
      var s := ss[0];
      SliceMembers(ss[1..], m, k, t);
      OneShown(s, t);
      MembersConcat(MemberAt(s, t), Slice(ss[1..], t), m, k);
      MembersUniform(MemberAt(s, t), m, Retained(s.labels, m), k);
      hide MemberAt;
      if Retained(s.labels, m) == k {
        assert GroupSeries(ss, m, k)[1..] == GroupSeries(ss[1..], m, k);
      } else {
        assert GroupSeries(ss, m, k) == GroupSeries(ss[1..], m, k);
      }
    }
  }

  lemma OneShown(s: RangePoints, t: int)
    requires DistinctTimes(s.points)
    ensures Tagged(s.metric, s.labels, t, At(s.points, t)) == MemberAt(s, t)
  {
    hide At, ToMap;
    OneValueAt(s.points, t);
  }

  lemma {:induction false} MembersAtTimes(ss: seq<RangePoints>, t: int)
    ensures MembersAt(ss, t) != [] <==> t in AllTimes(ss)
    ensures forall p :: p in MembersAt(ss, t) ==> p.ts == t && exists i :: FromSeries(ss, i, p)
  {
    if ss != [] {
      MembersAtTimes(ss[1..], t);
      ToMapKeys(ss[0].points);
      hide ToMap, Times;
      forall p | p in MembersAt(ss, t) ensures p.ts == t && exists i :: FromSeries(ss, i, p) {
        if p in MemberAt(ss[0], t) {
          assert FromSeries(ss, 0, p);
        } else {
          assert p in MembersAt(ss[1..], t);
          var i :| FromSeries(ss[1..], i, p);
          assert FromSeries(ss, i + 1, p);
        }
      }
    }
  }

  /** The points of a sequence at one timestamp. */
  function TsFilter(ps: seq<InstantPoint>, t: int): seq<InstantPoint>
  {
    if ps == [] then [] else IfAt(ps[0], t) + TsFilter(ps[1..], t)
  }

  function IfAt(p: InstantPoint, t: int): seq<InstantPoint> { if p.ts == t then [p] else [] }

  lemma {:induction false} TsFilterConcat(a: seq<InstantPoint>, b: seq<InstantPoint>, t: int)
    ensures TsFilter(a + b, t) == TsFilter(a, t) + TsFilter(b, t)
  {
    hide IfAt;
    if a == [] {
      assert a + b == b;
    } else {
      TsFilterConcat(a[1..], b, t);
      assert (a + b)[0] == a[0] && (a + b)[1..] == a[1..] + b;
      Assoc(IfAt(a[0], t), TsFilter(a[1..], t), TsFilter(b, t));
    }
  }

  lemma {:induction false} TsFilterUniform(ps: seq<InstantPoint>, u: int, t: int)
    requires forall p :: p in ps ==> p.ts == u
    ensures TsFilter(ps, t) == if u == t then ps else []
  {
    if ps != [] {
      assert ps == [ps[0]] + ps[1..];
      assert ps[0] in ps;
      TsFilterUniform(ps[1..], u, t);
    }
  }

  lemma CutAtOneTime(members: seq<RangePoints>, n: nat, top: bool, t: int)
    ensures forall p :: p in Cut(MembersAt(members, t), n, top) ==> p.ts == t && exists i :: FromSeries(members, i, p)
  {
    hide Cut, MembersAt, FromSeries;
    MembersAtTimes(members, t);
    forall p | p in Cut(MembersAt(members, t), n, top) ensures p in MembersAt(members, t) {
      CutFrom(MembersAt(members, t), n, top, p);
    }
  }

  lemma GroupPushesUnfold(members: seq<RangePoints>, n: nat, top: bool, ts: seq<int>)
    ensures GroupPushes(members, n, top, ts)
         == if ts == [] then [] else Cut(MembersAt(members, ts[0]), n, top) + GroupPushes(members, n, top, ts[1..])
  {
  }

  /** Among the survivors of a group, those at `t` are the cut at `t`. */
  lemma {:induction false} GroupPushesAt(members: seq<RangePoints>, n: nat, top: bool, ts: seq<int>, t: int)
    requires Ascending(ts, IntLess)
    ensures TsFilter(GroupPushes(members, n, top, ts), t)
         == if t in ts then Cut(MembersAt(members, t), n, top) else []
  {
    hide Cut, MembersAt, GroupPushes, FromSeries;
    GroupPushesUnfold(members, n, top, ts);
    if ts != [] {
      GroupPushesAt(members, n, top, ts[1..], t);
      HeadLeast(ts, IntLess);
      assert ts == [ts[0]] + ts[1..];
      var head := Cut(MembersAt(members, ts[0]), n, top);
      hide IntLess, Ascending;
      TsFilterConcat(head, GroupPushes(members, n, top, ts[1..]), t);
      CutAtOneTime(members, n, top, ts[0]);
      TsFilterUniform(head, ts[0], t);
    }
  }

  lemma PushesUnfold(ss: seq<RangePoints>, n: nat, top: bool, m: LabelModifier, ks: seq<Labels>)
    ensures Pushes(ss, n, top, m, ks)
         == if ks == [] then [] else PushesOf(GroupSeries(ss, m, ks[0]), n, top) + Pushes(ss, n, top, m, ks[1..])
  {
  }

  lemma {:induction false} PushesOfAt(members: seq<RangePoints>, n: nat, top: bool, t: int)
    ensures TsFilter(PushesOf(members, n, top), t) == Cut(MembersAt(members, t), n, top)
  {
    hide Cut, GroupPushes, TsFilter, FromSeries;
    GroupPushesAt(members, n, top, Ascend(AllTimes(members)), t);
    MembersAtTimes(members, t);
    CutOfNone(n, top);
  }

  lemma CutOfNone(n: nat, top: bool)
    ensures Cut([], n, top) == []
  {
  }

  lemma KeysAtUnfold(ss: seq<RangePoints>, m: LabelModifier, ks: seq<Labels>, t: int)
    ensures KeysAt(ss, m, ks, t)
         == if ks == [] then []
            else (if ValuesAt(GroupSeries(ss, m, ks[0]), t) != [] then [ks[0]] else []) + KeysAt(ss, m, ks[1..], t)
  {
  }

  /** All survivors at `t` are what the instant operator keeps of the slice at `t`. */
  lemma {:induction false} PushesAt(ss: seq<RangePoints>, n: nat, top: bool, m: LabelModifier, ks: seq<Labels>, t: int)
    requires forall i :: 0 <= i < |ss| ==> DistinctTimes(ss[i].points)
    ensures TsFilter(Pushes(ss, n, top, m, ks), t) == TopKOver(Slice(ss, t), n, top, m, KeysAt(ss, m, ks, t))
  {
    hide *;
    PushesUnfold(ss, n, top, m, ks);
    KeysAtUnfold(ss, m, ks, t);
    TopKUnfold(Slice(ss, t), n, top, m, KeysAt(ss, m, ks, t));
    if ks == [] {
      NoPushes(t);
    } else {
      var members, rest := GroupSeries(ss, m, ks[0]), KeysAt(ss, m, ks[1..], t);
      PushesAt(ss, n, top, m, ks[1..], t);
      TsFilterConcat(PushesOf(members, n, top), Pushes(ss, n, top, m, ks[1..]), t);
      PushesOfAt(members, n, top, t);
      SliceMembers(ss, m, ks[0], t);
      AllTimesValues(members, t);
      MembersAtTimes(members, t);
      CutOfNone(n, top);
      assert ([ks[0]] + rest)[0] == ks[0] && ([ks[0]] + rest)[1..] == rest;
      assert [] + rest == rest;
    }
  }

  lemma NoPushes(t: int)
    ensures TsFilter([], t) == []
  {
  }

  // ---------- the collected series show the same points ----------

  lemma {:induction false} WithKeyConcat(st: StringOrder, a: seq<InstantPoint>, b: seq<InstantPoint>, k: string)
    requires StrictTotal(st)
    ensures WithKey(st, a + b, k) == WithKey(st, a, k) + WithKey(st, b, k)
  {
    hide StrictTotal, PointWithKey;
    if a == [] {
      assert a + b == b;
    } else {
      WithKeyConcat(st, a[1..], b, k);
      assert (a + b)[0] == a[0] && (a + b)[1..] == a[1..] + b;
      Assoc(PointWithKey(st, a[0], k), WithKey(st, a[1..], k), WithKey(st, b, k));
    }
  }

  lemma {:induction false} WithKeyIn(st: StringOrder, ps: seq<InstantPoint>, k: string)
    requires StrictTotal(st)
    ensures forall p :: p in WithKey(st, ps, k) <==> p in ps && KeyOf(st, p) == k
    ensures WithKey(st, ps, k) != [] <==> k in KeysOf(st, ps)
  {
    hide StrictTotal, KeyOf;
    if ps != [] {
      WithKeyIn(st, ps[1..], k);
      assert ps == [ps[0]] + ps[1..];
    }
  }

  /** Points with one key have one name and one label set. */
  ghost predicate KeysTell(st: StringOrder, ps: seq<InstantPoint>)
    requires StrictTotal(st)
  {
    forall p, q :: p in ps && q in ps && KeyOf(st, p) == KeyOf(st, q) ==> p.metric == q.metric && p.labels == q.labels
  }

  lemma AtOfTimes(ps: seq<InstantPoint>, t: int)
    requires forall p, q :: p in ps && q in ps ==> p.metric == q.metric && p.labels == q.labels
    ensures ps != [] ==>
      Tagged(ps[0].metric, ps[0].labels, t, At(TimesAndValues(ps), t)) == TsFilter(ps, t)
  {
    if ps != [] {
      AtOfUniform(ps, ps[0].metric, ps[0].labels, t);
    }
  }

  lemma {:induction false} AtOfUniform(ps: seq<InstantPoint>, metric: string, labels: Labels, t: int)
    requires forall p :: p in ps ==> p.metric == metric && p.labels == labels
    ensures Tagged(metric, labels, t, At(TimesAndValues(ps), t)) == TsFilter(ps, t)
  {
    hide At, Tagged, IfAt, TimesAndValues;
    if ps == [] {
      NonePoints();
      AtNone<real>(t);
    } else {
      var head, rest := [(ps[0].ts, ps[0].value)], TimesAndValues(ps[1..]);
      assert ps == [ps[0]] + ps[1..] && ps[0] in ps;
      AtOfUniform(ps[1..], metric, labels, t);
      HeadAndRest(ps);
      AtConcat(head, rest, t);
      HeadShown(ps[0], t);
      TaggedConcat(metric, labels, t, At(head, t), At(rest, t));
    }
  }

  lemma NonePoints()
    ensures TimesAndValues([]) == []
  {
  }

  lemma HeadAndRest(ps: seq<InstantPoint>)
    requires ps != []
    ensures TimesAndValues(ps) == [(ps[0].ts, ps[0].value)] + TimesAndValues(ps[1..])
  {
  }

  lemma HeadShown(p: InstantPoint, t: int)
    ensures Tagged(p.metric, p.labels, t, At([(p.ts, p.value)], t)) == IfAt(p, t)
  {
    assert |[(p.ts, p.value)][1..]| == 0;
    assert At([(p.ts, p.value)], t) == if p.ts == t then [p.value] else [];
    hide At;
  }

  lemma {:induction false} TsFilterIn(ps: seq<InstantPoint>, t: int, p: InstantPoint)
    ensures multiset(TsFilter(ps, t))[p] == if p.ts == t then multiset(ps)[p] else 0
  {
    if ps != [] {
      TsFilterIn(ps[1..], t, p);
      assert ps == [ps[0]] + ps[1..];
    }
  }

  lemma {:induction false} WithKeyCount(st: StringOrder, ps: seq<InstantPoint>, k: string, p: InstantPoint)
    requires StrictTotal(st)
    ensures multiset(WithKey(st, ps, k))[p] == if KeyOf(st, p) == k then multiset(ps)[p] else 0
  {
    hide StrictTotal, KeyOf;
    if ps != [] {
      WithKeyCount(st, ps[1..], k, p);
      assert ps == [ps[0]] + ps[1..];
    }
  }

  function OneCollected(st: StringOrder, ps: seq<InstantPoint>, k: string): seq<RangePoints>
    requires StrictTotal(st)
  {
    var mine := WithKey(st, ps, k);
    if mine == [] then [] else [AsSeries(mine)]
  }

  lemma CollectUnfold(st: StringOrder, ps: seq<InstantPoint>, ks: seq<string>)
    requires StrictTotal(st)
    ensures CollectOver(st, ps, ks) == if ks == [] then [] else OneCollected(st, ps, ks[0]) + CollectOver(st, ps, ks[1..])
  {
  }

  lemma {:induction false} OneCollectedAt(st: StringOrder, ps: seq<InstantPoint>, k: string, t: int, p: InstantPoint)
    requires StrictTotal(st) && KeysTell(st, ps)
    ensures multiset(Slice(OneCollected(st, ps, k), t))[p]
         == if KeyOf(st, p) == k && p.ts == t then multiset(ps)[p] else 0
  {
    hide StrictTotal, KeyOf, WithKey;
    var mine := WithKey(st, ps, k);
    WithKeyIn(st, ps, k);
    WithKeyCount(st, ps, k, p);
    AtOfTimes(mine, t);
    TsFilterIn(mine, t, p);
    SliceNone<real>(t);
    if mine != [] {
      SliceOne(AsSeries(mine), t);
    }
  }

  lemma {:induction false} CollectAt(st: StringOrder, ps: seq<InstantPoint>, ks: seq<string>, t: int, p: InstantPoint)
    requires StrictTotal(st) && KeysTell(st, ps) && Ascending(ks, st)
    ensures multiset(Slice(CollectOver(st, ps, ks), t))[p]
         == if KeyOf(st, p) in ks && p.ts == t then multiset(ps)[p] else 0
  {
    hide StrictTotal, KeyOf, Slice, KeysTell, CollectOver, OneCollected, Ascending;
    CollectUnfold(st, ps, ks);
    if ks == [] {
      SliceNone<real>(t);
    } else {
      StringHeadDistinct(st, ks);
      assert ks == [ks[0]] + ks[1..];
      CollectAt(st, ps, ks[1..], t, p);
      OneCollectedAt(st, ps, ks[0], t, p);
      SliceConcat(OneCollected(st, ps, ks[0]), CollectOver(st, ps, ks[1..]), t);
    }
  }

  lemma StringHeadDistinct(st: StringOrder, ks: seq<string>)
    requires StrictTotal(st) && Ascending(ks, st) && ks != []
    ensures Ascending(ks[1..], st) && ks[0] !in ks[1..]
  {
    HeadLeast(ks, st);
  }

  lemma {:induction false} CollectShows(st: StringOrder, ps: seq<InstantPoint>, t: int)
    requires StrictTotal(st) && KeysTell(st, ps)
    ensures multiset(Slice(Collect(st, ps), t)) == multiset(TsFilter(ps, t))
  {
    hide StrictTotal, KeyOf, KeysTell, CollectOver;
    var ks := Sorted(KeysOf(st, ps), st);
    forall p ensures multiset(Slice(Collect(st, ps), t))[p] == multiset(TsFilter(ps, t))[p] {
      CollectAt(st, ps, ks, t, p);
      TsFilterIn(ps, t, p);
      assert p in multiset(ps) ==> p in ps;
    }
  }

  // ---------- range evaluation is instant evaluation, timestamp by timestamp ----------

  /** Series whose keys identify them. */
  ghost predicate PlainSeries(ss: seq<RangePoints>)
  {
    forall s :: s in ss ==> '{' !in s.metric && Plain(s.labels)
  }

  lemma {:induction false} GroupPushesFrom(members: seq<RangePoints>, n: nat, top: bool, ts: seq<int>)
    ensures forall p :: p in GroupPushes(members, n, top, ts) ==> p.ts in ts && exists i :: FromSeries(members, i, p)
  {
    hide Cut, MembersAt, GroupPushes, FromSeries;
    GroupPushesUnfold(members, n, top, ts);
    if ts != [] {
      GroupPushesFrom(members, n, top, ts[1..]);
      CutAtOneTime(members, n, top, ts[0]);
      assert ts == [ts[0]] + ts[1..];
    }
  }

  lemma {:induction false} GroupSeriesIn(ss: seq<RangePoints>, m: LabelModifier, k: Labels)
    ensures forall s :: s in GroupSeries(ss, m, k) <==> s in ss && Retained(s.labels, m) == k
  {
    if ss != [] {
      GroupSeriesIn(ss[1..], m, k);
      hide Retained;
      assert ss == [ss[0]] + ss[1..];
    }
  }

  /** A survivor is a point of a series of its group. */
  predicate IsPointOf(s: RangePoints, p: InstantPoint)
  {
    s.metric == p.metric && s.labels == p.labels && (p.ts, p.value) in s.points
  }

  lemma {:induction false} PushesOfFrom(ss: seq<RangePoints>, n: nat, top: bool, m: LabelModifier, k: Labels, p: InstantPoint)
    requires p in PushesOf(GroupSeries(ss, m, k), n, top)
    ensures Retained(p.labels, m) == k && exists s :: s in ss && IsPointOf(s, p)
  {
    hide GroupPushes, GroupSeries, Retained;
    var members := GroupSeries(ss, m, k);
    GroupPushesFrom(members, n, top, Ascend(AllTimes(members)));
    var i :| FromSeries(members, i, p);
    GroupSeriesIn(ss, m, k);
    assert members[i] in members && IsPointOf(members[i], p);
  }

  lemma {:induction false} PushesFrom(ss: seq<RangePoints>, n: nat, top: bool, m: LabelModifier, ks: seq<Labels>)
    ensures forall p :: p in Pushes(ss, n, top, m, ks) ==>
      Retained(p.labels, m) in ks && exists s :: s in ss && IsPointOf(s, p)
  {
    hide Pushes, PushesOf, Retained, IsPointOf, GroupSeries;
    PushesUnfold(ss, n, top, m, ks);
    if ks != [] {
      PushesFrom(ss, n, top, m, ks[1..]);
      assert ks == [ks[0]] + ks[1..];
      forall p | p in PushesOf(GroupSeries(ss, m, ks[0]), n, top)
        ensures Retained(p.labels, m) == ks[0] && exists s :: s in ss && IsPointOf(s, p)
      {
        PushesOfFrom(ss, n, top, m, ks[0], p);
      }
    }
  }

  lemma PushesKeysTell(st: StringOrder, ss: seq<RangePoints>, ps: seq<InstantPoint>)
    requires StrictTotal(st) && PlainSeries(ss)
    requires forall p :: p in ps ==> exists s :: s in ss && IsPointOf(s, p)
    ensures KeysTell(st, ps)
  {
    hide StrictTotal, Plain, SeriesKey;
    forall p, q | p in ps && q in ps && KeyOf(st, p) == KeyOf(st, q) ensures p.metric == q.metric && p.labels == q.labels {
      var s :| s in ss && IsPointOf(s, p);
      var r :| r in ss && IsPointOf(r, q);
      SeriesKeyInjective(st, p.metric, p.labels, q.metric, q.labels);
    }
  }

  /** The n best at every timestamp of a range vector are the n best of what the
      vector shows there. */
  lemma {:induction false} TopKLifts(lt: LabelOrder, st: StringOrder, ss: seq<RangePoints>, n: nat, top: bool, m: LabelModifier, t: int)
    requires StrictTotal(lt) && StrictTotal(st) && WellFormed(ss) && PlainSeries(ss)
    ensures multiset(Slice(TopKRangeVector(lt, st, ss, n, top, m), t)) == multiset(TopKInstant(lt, Slice(ss, t), n, top, m))
  {
    hide StrictTotal, Pushes, TopKOver, Slice, Collect, KeysAt, PlainSeries, IsPointOf;
    var ks := Sorted(SeriesKeys(ss, m), lt);
    PushesAt(ss, n, top, m, ks, t);
    SliceKeys(lt, ss, m, t);
    PushesFrom(ss, n, top, m, ks);
    PushesKeysTell(st, ss, Pushes(ss, n, top, m, ks));
    CollectShows(st, Pushes(ss, n, top, m, ks), t);
  }
}

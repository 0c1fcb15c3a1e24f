/** `topk_range_points` as it runs: per group and timestamp a sorted list of member
    indices, and a map of output series that grows point by point. */
module TopKLoops {
  import opened Orders
  import opened Sorting
  import opened Vectors
  import opened Aggregate
  import opened StringKeys
  import opened TopK
  import opened TopKRange

  /** The output map after the survivors `ps`. */
  ghost predicate Tracks(st: StringOrder, om: map<string, RangePoints>, ps: seq<InstantPoint>)
    requires StrictTotal(st)
  {
    && om.Keys == KeysOf(st, ps)
    && forall k :: k in om ==> WithKey(st, ps, k) != [] && om[k] == AsSeries(WithKey(st, ps, k))
  }

  function Pushed(s: RangePoints, t: int, v: real): RangePoints { s.(points := s.points + [(t, v)]) }

  method Push(st: StringOrder, om: map<string, RangePoints>, metric: string, labels: Labels, t: int, v: real,
              ghost ps: seq<InstantPoint>)
    returns (om': map<string, RangePoints>)
    requires StrictTotal(st) && Tracks(st, om, ps)
    ensures Tracks(st, om', ps + [InstantPoint(metric, labels, t, v)])
  {
    hide StrictTotal, WithKey, SeriesKey;
    var key := SeriesKey(st, metric, labels);
    ghost var p := InstantPoint(metric, labels, t, v);
    var entry := if key in om then om[key] else RangePoints(metric, labels, []);
    om' := om[key := Pushed(entry, t, v)];
    WithKeyIn(st, ps, key);
    KeysOfPlus(st, ps, p);
    forall k | k in om' ensures WithKey(st, ps + [p], k) != [] && om'[k] == AsSeries(WithKey(st, ps + [p], k)) {
      WithKeyConcat(st, ps, [p], k);
      WithKeyOne(st, p, k);
      if k == key {
        assert TimesAndValues(WithKey(st, ps, k) + [p]) == TimesAndValues(WithKey(st, ps, k)) + [(t, v)];
      } else {
        assert WithKey(st, ps + [p], k) == WithKey(st, ps, k);
      }
    }
  }

  lemma KeysOfPlus(st: StringOrder, ps: seq<InstantPoint>, p: InstantPoint)
    requires StrictTotal(st)
    ensures KeysOf(st, ps + [p]) == KeysOf(st, ps) + {KeyOf(st, p)}
  {
    hide StrictTotal, KeyOf;
    assert forall q :: q in ps + [p] <==> q in ps || q == p;
    assert p in ps + [p];
  }

  lemma WithKeyOne(st: StringOrder, p: InstantPoint, k: string)
    requires StrictTotal(st)
    ensures WithKey(st, [p], k) == if KeyOf(st, p) == k then [p] else []
  {
    assert |[p][1..]| == 0;
  }

  // ---------- one timestamp ----------

  predicate PairHigher(a: (nat, real), b: (nat, real)) { a.1 > b.1 }

  predicate PairLower(a: (nat, real), b: (nat, real)) { a.1 < b.1 }

  function PairRanks(top: bool): ((nat, real), (nat, real)) -> bool { if top then PairHigher else PairLower }

  /** The point an index and a value stand for. */
  function PointOf(members: seq<RangePoints>, t: int): ((nat, real)) -> InstantPoint
  {
    (x: (nat, real)) =>
      if x.0 < |members| then InstantPoint(members[x.0].metric, members[x.0].labels, t, x.1)
      else InstantPoint("", map[], t, x.1)
  }

  lemma {:induction false} MembersAtConcat(a: seq<RangePoints>, b: seq<RangePoints>, t: int)
    ensures MembersAt(a + b, t) == MembersAt(a, t) + MembersAt(b, t)
  {
    hide MemberAt;
    if a == [] {
      assert a + b == b;
    } else {
      MembersAtConcat(a[1..], b, t);
      assert (a + b)[0] == a[0] && (a + b)[1..] == a[1..] + b;
      Assoc(MemberAt(a[0], t), MembersAt(a[1..], t), MembersAt(b, t));
    }
  }

  lemma MembersAtStep(ss: seq<RangePoints>, i: nat, t: int)
    requires i < |ss|
    ensures MembersAt(ss[..i + 1], t) == MembersAt(ss[..i], t) + MemberAt(ss[i], t)
  {
    assert ss[..i + 1] == ss[..i] + [ss[i]];
    MembersAtConcat(ss[..i], [ss[i]], t);
    assert |[ss[i]][1..]| == 0;
    hide MemberAt;
    assert MembersAt([ss[i]], t) == MemberAt(ss[i], t) + [];
  }

  method MembersWithValue(members: seq<RangePoints>, byTs: seq<map<int, real>>, t: int) returns (atTs: seq<(nat, real)>)
    requires |byTs| == |members| && forall i :: 0 <= i < |members| ==> byTs[i] == ToMap(members[i].points)
    ensures MapSeq(atTs, PointOf(members, t)) == MembersAt(members, t)
    ensures forall i :: 0 <= i < |atTs| ==> atTs[i].0 < |members|
  {
    hide ToMap, MembersAt;
    atTs := [];
    NoneAt(members, t);
    for idx := 0 to |members|
      invariant MapSeq(atTs, PointOf(members, t)) == MembersAt(members[..idx], t)
      invariant forall i :: 0 <= i < |atTs| ==> atTs[i].0 < |members|
    {
      MembersAtStep(members, idx, t);
      if t in byTs[idx] {
        MapConcat(atTs, [(idx as nat, byTs[idx][t])], PointOf(members, t));
        atTs := atTs + [(idx, byTs[idx][t])];
      }
    }
    assert members[..|members|] == members;
  }

  lemma NoneAt(ss: seq<RangePoints>, t: int)
    ensures MembersAt(ss[..0], t) == []
  {
  }

  lemma TakeMap<T, U>(s: seq<T>, f: T -> U, n: nat)
    ensures MapSeq(Take(s, n), f) == Take(MapSeq(s, f), n)
  {
  }

  /** The indices and values of the survivors at `t`, best first. */
  method BestAt(members: seq<RangePoints>, byTs: seq<map<int, real>>, n: nat, top: bool, t: int)
    returns (taken: seq<(nat, real)>)
    requires |byTs| == |members| && forall i :: 0 <= i < |members| ==> byTs[i] == ToMap(members[i].points)
    ensures MapSeq(taken, PointOf(members, t)) == Cut(MembersAt(members, t), n, top)
    ensures forall i :: 0 <= i < |taken| ==> taken[i].0 < |members|
  {
    hide ToMap, MembersAt, StableSort;
    var atTs := MembersWithValue(members, byTs, t);
    var sorted := SortBy(atTs, PairRanks(top));
    taken := Take(sorted, n);
    ghost var f := PointOf(members, t);
    RanksAgree(atTs, members, t, top);
    SortMap(atTs, f, PairRanks(top), Ranks(top));
    TakeMap(sorted, f, n);
    RankedIsSort(MembersAt(members, t), top);
    FromSorted(atTs, sorted, n, |members|, top);
  }

  lemma RanksAgree(s: seq<(nat, real)>, members: seq<RangePoints>, t: int, top: bool)
    ensures forall a, b :: a in s && b in s ==>
      Ranks(top)(PointOf(members, t)(a), PointOf(members, t)(b)) == PairRanks(top)(a, b)
  {
  }

  method PushTimestamp(st: StringOrder, members: seq<RangePoints>, byTs: seq<map<int, real>>, n: nat, top: bool, t: int,
                       om: map<string, RangePoints>, ghost ps: seq<InstantPoint>)
    returns (om': map<string, RangePoints>)
    requires StrictTotal(st) && Tracks(st, om, ps)
    requires |byTs| == |members| && forall i :: 0 <= i < |members| ==> byTs[i] == ToMap(members[i].points)
    ensures Tracks(st, om', ps + Cut(MembersAt(members, t), n, top))
  {
    hide StrictTotal, Tracks, ToMap, MembersAt, Cut;
    var taken := BestAt(members, byTs, n, top, t);
    ghost var f := PointOf(members, t);
    om' := om;
    assert ps + MapSeq(taken[..0], f) == ps;
    for i := 0 to |taken|
      invariant Tracks(st, om', ps + MapSeq(taken[..i], f))
    {
      var m := members[taken[i].0];
      om' := Push(st, om', m.metric, m.labels, t, taken[i].1, ps + MapSeq(taken[..i], f));
      PushedSoFar(ps, taken, i, f);
    }
    assert taken[..|taken|] == taken;
  }

  lemma PushedSoFar(ps: seq<InstantPoint>, taken: seq<(nat, real)>, i: nat, f: ((nat, real)) -> InstantPoint)
    requires i < |taken|
    ensures ps + MapSeq(taken[..i + 1], f) == ps + MapSeq(taken[..i], f) + [f(taken[i])]
  {
    assert taken[..i + 1] == taken[..i] + [taken[i]];
    MapConcat(taken[..i], [taken[i]], f);
  }

  lemma {:induction false} FromSorted(s: seq<(nat, real)>, sorted: seq<(nat, real)>, n: nat, limit: nat, top: bool)
    requires sorted == StableSort(s, PairRanks(top)) && forall i :: 0 <= i < |s| ==> s[i].0 < limit
    ensures forall i :: 0 <= i < |Take(sorted, n)| ==> Take(sorted, n)[i].0 < limit
  {
    SortPermutes(s, PairRanks(top));
    forall i | 0 <= i < |Take(sorted, n)| ensures Take(sorted, n)[i].0 < limit {
      assert sorted[i] in multiset(sorted);
      assert sorted[i] in s;
    }
  }

  // ---------- one group, all groups ----------

  method AllTimestamps(members: seq<RangePoints>) returns (allTs: set<int>)
    ensures allTs == AllTimes(members)
  {
    hide ValuesAt, AllTimes, UpTo;
    allTs := {};
    NoTimesYet(members);
    for i := 0 to |members|
      invariant allTs == AllTimes(members[..i])
    {
      UpToEdges(members, i);
      for j := 0 to |members[i].points|
        invariant allTs == AllTimes(UpTo(members, i, j))
      {
        UpToStep(members, i, j);
        allTs := allTs + {members[i].points[j].0};
      }
    }
    assert members[..|members|] == members;
  }

  method PushGroup(st: StringOrder, members: seq<RangePoints>, n: nat, top: bool, om: map<string, RangePoints>,
                   ghost ps: seq<InstantPoint>)
    returns (om': map<string, RangePoints>)
    requires StrictTotal(st) && Tracks(st, om, ps)
    ensures Tracks(st, om', ps + PushesOf(members, n, top))
  {
    hide StrictTotal, Tracks, ToMap, Cut, MembersAt, AllTimes;
    var byTs: seq<map<int, real>> := [];
    for i := 0 to |members|
      invariant |byTs| == i && forall j :: 0 <= j < i ==> byTs[j] == ToMap(members[j].points)
    {
      byTs := byTs + [ToMap(members[i].points)];
    }
    var allTs := AllTimestamps(members);
    var ts := Ascend(allTs);
    ghost var done := ps;
    om' := om;
    ghost var whole := ps + PushesOf(members, n, top);
    while ts != []
      invariant Tracks(st, om', done) && done + GroupPushes(members, n, top, ts) == whole
    {
      om' := PushTimestamp(st, members, byTs, n, top, ts[0], om', done);
      GroupPushesUnfold(members, n, top, ts);
      Assoc(done, Cut(MembersAt(members, ts[0]), n, top), GroupPushes(members, n, top, ts[1..]));
      done := done + Cut(MembersAt(members, ts[0]), n, top);
      ts := ts[1..];
    }
    assert done + [] == done;
  }

  lemma {:induction false} NothingPushed(ss: seq<RangePoints>, top: bool, m: LabelModifier, ks: seq<Labels>)
    ensures Pushes(ss, 0, top, m, ks) == []
  {
    if ks != [] {
      NothingPushed(ss, top, m, ks[1..]);
      var members := GroupSeries(ss, m, ks[0]);
      NothingInGroup(members, top, Ascend(AllTimes(members)));
    }
  }

  lemma {:induction false} NothingInGroup(members: seq<RangePoints>, top: bool, ts: seq<int>)
    ensures GroupPushes(members, 0, top, ts) == []
  {
    if ts != [] {
      NothingInGroup(members, top, ts[1..]);
    }
  }

  method TopKRangePoints(lt: LabelOrder, st: StringOrder, inner: seq<RangePoints>, n: nat, top: bool, m: LabelModifier)
    returns (out: seq<RangePoints>)
    requires StrictTotal(lt) && StrictTotal(st)
    ensures out == TopKRangeVector(lt, st, inner, n, top, m)
  {
    hide StrictTotal, Tracks, PushesOf, GroupSeries, SeriesKeys, Pushes, Retained, WithKey, SeriesKey;
    ghost var all := Pushes(inner, n, top, m, Sorted(SeriesKeys(inner, m), lt));
    if n == 0 {
      NothingPushed(inner, top, m, Sorted(SeriesKeys(inner, m), lt));
      assert all == [];
      return [];
    }
    var groups := GroupRangePoints(inner, m);
    var ks := Sorted(groups.Keys, lt);
    var om: map<string, RangePoints> := map[];
    ghost var done: seq<InstantPoint> := [];
    NothingTracked(st);
    while ks != []
      invariant forall k :: k in ks ==> k in groups
      invariant Tracks(st, om, done) && done + Pushes(inner, n, top, m, ks) == all
    {
      assert ks[0] in ks;
      om := PushGroup(st, groups[ks[0]], n, top, om, done);
      PushesUnfold(inner, n, top, m, ks);
      Assoc(done, PushesOf(groups[ks[0]], n, top), Pushes(inner, n, top, m, ks[1..]));
      done := done + PushesOf(groups[ks[0]], n, top);
      ks := ks[1..];
    }
    PushesUnfold(inner, n, top, m, ks);
    assert done == all;
    out := IntoValues(st, om, all);
  }

  lemma NothingTracked(st: StringOrder)
    requires StrictTotal(st)
    ensures Tracks(st, map[], [])
  {
  }

  method IntoValues(st: StringOrder, om: map<string, RangePoints>, ghost ps: seq<InstantPoint>) returns (out: seq<RangePoints>)
    requires StrictTotal(st) && Tracks(st, om, ps)
    ensures out == Collect(st, ps)
  {
    hide StrictTotal, WithKey, SeriesKey;
    var keys := Sorted(om.Keys, st);
    out := [];
    while keys != []
      invariant forall k :: k in keys ==> k in om
      invariant out + CollectOver(st, ps, keys) == Collect(st, ps)
    {
      assert keys[0] in keys;
      out := out + [om[keys[0]]];
      keys := keys[1..];
    }
  }
}

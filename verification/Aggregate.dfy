/** `sum`, `avg`, `min`, `max` and `count` over instant and range vectors. */
module Aggregate {
  import opened Orders
  import opened Sorting
  import opened Vectors

  datatype AggOp = Sum | Avg | Min | Max | Count

  type LabelOrder = (Labels, Labels) -> bool

  // ---------- one group ----------

  function SumOf(vs: seq<real>): real
  {
    if vs == [] then 0.0 else vs[0] + SumOf(vs[1..])
  }

  function MinOf(vs: seq<real>): real
  {
    if vs == [] then 0.0
    else if |vs| == 1 then vs[0]
    else
      var rest := MinOf(vs[1..]);
      if rest < vs[0] then rest else vs[0]
  }

  function MaxOf(vs: seq<real>): real
  {
    if vs == [] then 0.0
    else if |vs| == 1 then vs[0]
    else
      var rest := MaxOf(vs[1..]);
      if rest > vs[0] then rest else vs[0]
  }

  /** `apply_agg` over the values of a group, which is never empty. */
  function ApplyAgg(op: AggOp, vs: seq<real>): real
  {
    match op
    case Sum => SumOf(vs)
    case Avg => if vs == [] then 0.0 else SumOf(vs) / |vs| as real
    case Min => MinOf(vs)
    case Max => MaxOf(vs)
    case Count => |vs| as real
  }

  lemma {:induction false} SumConcat(a: seq<real>, b: seq<real>)
    ensures SumOf(a + b) == SumOf(a) + SumOf(b)
  {
    if a == [] {
      assert a + b == b;
    } else {
      SumConcat(a[1..], b);
      assert (a + b)[1..] == a[1..] + b;
    }
  }

  lemma {:induction false} SumPermutes(a: seq<real>, b: seq<real>)
    requires multiset(a) == multiset(b)
    ensures SumOf(a) == SumOf(b)
  {
    if a == [] {
      assert |multiset(b)| == 0;
    } else {
      var i := TakeOut(a, b);
      SumConcat(b[..i], [b[i]] + b[i + 1..]);
      SumConcat(b[..i], b[i + 1..]);
      SumConcat([b[i]], b[i + 1..]);
      SumPermutes(a[1..], b[..i] + b[i + 1..]);
    }
  }

  lemma {:induction false} MinIsLeast(vs: seq<real>)
    requires vs != []
    ensures MinOf(vs) in vs && forall v :: v in vs ==> MinOf(vs) <= v
  {
    if |vs| > 1 {
      MinIsLeast(vs[1..]);
      assert vs == [vs[0]] + vs[1..];
    }
  }

  lemma {:induction false} MaxIsGreatest(vs: seq<real>)
    requires vs != []
    ensures MaxOf(vs) in vs && forall v :: v in vs ==> v <= MaxOf(vs)
  {
    if |vs| > 1 {
      MaxIsGreatest(vs[1..]);
      assert vs == [vs[0]] + vs[1..];
    }
  }

  /** The order of a group's values does not matter. */
  lemma AggPermutes(op: AggOp, a: seq<real>, b: seq<real>)
    requires multiset(a) == multiset(b)
    ensures ApplyAgg(op, a) == ApplyAgg(op, b)
  {
    SumPermutes(a, b);
    assert |multiset(a)| == |a| && |multiset(b)| == |b|;
    if a != [] {
      MinIsLeast(a);
      MinIsLeast(b);
      MaxIsGreatest(a);
      MaxIsGreatest(b);
      assert forall v :: v in a <==> v in multiset(a);
      assert forall v :: v in b <==> v in multiset(b);
      assert MinOf(a) in b && MinOf(b) in a && MaxOf(a) in b && MaxOf(b) in a;
    }
  }

  // ---------- instant vectors ----------

  function GroupKeys(pts: seq<InstantPoint>, m: LabelModifier): set<Labels>
  {
    set p | p in pts :: Retained(p.labels, m)
  }

  /** The values of the group with key `k`, in order. */
  function GroupValues(pts: seq<InstantPoint>, m: LabelModifier, k: Labels): seq<real>
  {
    if pts == [] then [] else ValueIn(pts[0], m, k) + GroupValues(pts[1..], m, k)
  }

  function ValueIn(p: InstantPoint, m: LabelModifier, k: Labels): seq<real>
  {
    if Retained(p.labels, m) == k then [p.value] else []
  }

  function AggInstantOver(pts: seq<InstantPoint>, op: AggOp, m: LabelModifier, t: int, ks: seq<Labels>)
    : (r: seq<InstantPoint>)
    ensures |r| == |ks|
    ensures forall i :: 0 <= i < |ks| ==> r[i] == InstantPoint("", ks[i], t, ApplyAgg(op, GroupValues(pts, m, ks[i])))
  {
    seq(|ks|, i requires 0 <= i < |ks| => InstantPoint("", ks[i], t, ApplyAgg(op, GroupValues(pts, m, ks[i]))))
  }

  /** One nameless point per group, groups in the order of their labels. */
  function AggregateInstant(lt: LabelOrder, pts: seq<InstantPoint>, op: AggOp, m: LabelModifier, t: int): seq<InstantPoint>
    requires StrictTotal(lt)
  {
    AggInstantOver(pts, op, m, t, Sorted(GroupKeys(pts, m), lt))
  }

  lemma {:induction false} GroupValuesConcat(a: seq<InstantPoint>, b: seq<InstantPoint>, m: LabelModifier, k: Labels)
    ensures GroupValues(a + b, m, k) == GroupValues(a, m, k) + GroupValues(b, m, k)
  {
    if a == [] {
      assert a + b == b;
    } else {
      GroupValuesConcat(a[1..], b, m, k);
      assert (a + b)[0] == a[0] && (a + b)[1..] == a[1..] + b;
      hide Retained;
      Assoc(ValueIn(a[0], m, k), GroupValues(a[1..], m, k), GroupValues(b, m, k));
    }
  }

  lemma {:induction false} GroupValuesEmpty(pts: seq<InstantPoint>, m: LabelModifier, k: Labels)
    ensures GroupValues(pts, m, k) == [] <==> k !in GroupKeys(pts, m)
  {
    if pts != [] {
      GroupValuesEmpty(pts[1..], m, k);
      assert pts == [pts[0]] + pts[1..];
    }
  }

  lemma GroupKeysStep(pts: seq<InstantPoint>, m: LabelModifier, i: nat)
    requires i < |pts|
    ensures GroupKeys(pts[..i + 1], m) == GroupKeys(pts[..i], m) + {Retained(pts[i].labels, m)}
  {
    assert pts[..i + 1] == pts[..i] + [pts[i]];
  }

  lemma GroupValuesStep(pts: seq<InstantPoint>, m: LabelModifier, i: nat, k: Labels)
    requires i < |pts|
    ensures GroupValues(pts[..i + 1], m, k)
         == GroupValues(pts[..i], m, k) + ValueIn(pts[i], m, k)
  {
    assert pts[..i + 1] == pts[..i] + [pts[i]];
    GroupValuesConcat(pts[..i], [pts[i]], m, k);
  }

  method AggregateInstantPoints(lt: LabelOrder, inner: seq<InstantPoint>, op: AggOp, m: LabelModifier, timeUs: int)
    returns (out: seq<InstantPoint>)
    requires StrictTotal(lt)
    ensures out == AggregateInstant(lt, inner, op, m, timeUs)
  {
    hide StrictTotal, Retained, ApplyAgg, GroupValues, GroupKeys;
    var groups := GroupInstantValues(inner, m);
    var ks := Sorted(groups.Keys, lt);
    out := [];
    for i := 0 to |ks|
      invariant |out| == i
      invariant forall j :: 0 <= j < i ==>
        out[j] == InstantPoint("", ks[j], timeUs, ApplyAgg(op, GroupValues(inner, m, ks[j])))
    {
      assert ks[i] in ks;
      out := out + [InstantPoint("", ks[i], timeUs, ApplyAgg(op, groups[ks[i]]))];
    }
  }

  method GroupInstantValues(inner: seq<InstantPoint>, m: LabelModifier) returns (groups: map<Labels, seq<real>>)
    ensures groups.Keys == GroupKeys(inner, m)
    ensures forall k :: k in groups ==> groups[k] == GroupValues(inner, m, k)
  {
    hide Retained, GroupValues, GroupKeys;
    groups := map[];
    NoGroups(inner, m);
    for i := 0 to |inner|
      invariant groups.Keys == GroupKeys(inner[..i], m)
      invariant forall k :: k in groups ==> groups[k] == GroupValues(inner[..i], m, k)
    {
      var p := inner[i];
      var key := Retained(p.labels, m);
      ghost var before := groups;
      groups := groups[key := (if key in groups then groups[key] else []) + [p.value]];
      GroupKeysStep(inner, m, i);
      forall k | k in groups ensures groups[k] == GroupValues(inner[..i + 1], m, k) {
        GroupValuesStep(inner, m, i, k);
        GroupValuesEmpty(inner[..i], m, k);
      }
    }
    assert inner[..|inner|] == inner;
  }

  lemma NoGroups(pts: seq<InstantPoint>, m: LabelModifier)
    ensures GroupKeys(pts[..0], m) == {}
  {
  }

  // ---------- range vectors ----------

  function SeriesKeys(ss: seq<RangePoints>, m: LabelModifier): set<Labels>
  {
    set s | s in ss :: Retained(s.labels, m)
  }

  /** The series of the group with key `k`, in order. */
  function GroupSeries(ss: seq<RangePoints>, m: LabelModifier, k: Labels): seq<RangePoints>
  {
    if ss == [] then [] else SeriesIn(ss[0], m, k) + GroupSeries(ss[1..], m, k)
  }

  function SeriesIn(s: RangePoints, m: LabelModifier, k: Labels): seq<RangePoints>
  {
    if Retained(s.labels, m) == k then [s] else []
  }

  /** Every timestamp some of the series has. */
  function AllTimes(ss: seq<RangePoints>): set<int>
  {
    if ss == [] then {} else Times(ss[0].points) + AllTimes(ss[1..])
  }

  /** Every value the series have at `t`, in order. */
  function ValuesAt(ss: seq<RangePoints>, t: int): seq<real>
  {
    if ss == [] then [] else At(ss[0].points, t) + ValuesAt(ss[1..], t)
  }

  function AggAt(op: AggOp, ss: seq<RangePoints>): int -> real
  {
    t => ApplyAgg(op, ValuesAt(ss, t))
  }

  function AggSeries(op: AggOp, ss: seq<RangePoints>): seq<(int, real)>
  {
    PointsOver(Ascend(AllTimes(ss)), AggAt(op, ss))
  }

  function AggRangeOver(ss: seq<RangePoints>, op: AggOp, m: LabelModifier, ks: seq<Labels>): seq<RangePoints>
  {
    if ks == [] then []
    else GroupOutput(op, GroupSeries(ss, m, ks[0]), ks[0]) + AggRangeOver(ss, op, m, ks[1..])
  }

  /** The series of one group, unless it has no points. */
  function GroupOutput(op: AggOp, members: seq<RangePoints>, k: Labels): seq<RangePoints>
  {
    var points := AggSeries(op, members);
    if points == [] then [] else [RangePoints("", k, points)]
  }

  /** One nameless series per group that has points, aligned by timestamp. */
  function AggregateRange(lt: LabelOrder, ss: seq<RangePoints>, op: AggOp, m: LabelModifier): seq<RangePoints>
    requires StrictTotal(lt)
  {
    AggRangeOver(ss, op, m, Sorted(SeriesKeys(ss, m), lt))
  }

  lemma {:induction false} GroupSeriesConcat(a: seq<RangePoints>, b: seq<RangePoints>, m: LabelModifier, k: Labels)
    ensures GroupSeries(a + b, m, k) == GroupSeries(a, m, k) + GroupSeries(b, m, k)
  {
    hide SeriesIn;
    if a == [] {
      assert a + b == b;
    } else {
      GroupSeriesConcat(a[1..], b, m, k);
      assert (a + b)[0] == a[0] && (a + b)[1..] == a[1..] + b;
      Assoc(SeriesIn(a[0], m, k), GroupSeries(a[1..], m, k), GroupSeries(b, m, k));
    }
  }

  lemma {:induction false} GroupSeriesEmpty(ss: seq<RangePoints>, m: LabelModifier, k: Labels)
    ensures GroupSeries(ss, m, k) == [] <==> k !in SeriesKeys(ss, m)
  {
    hide Retained;
    if ss != [] {
      GroupSeriesEmpty(ss[1..], m, k);
      assert ss == [ss[0]] + ss[1..];
    }
  }

  lemma SeriesStep(ss: seq<RangePoints>, m: LabelModifier, i: nat)
    requires i < |ss|
    ensures SeriesKeys(ss[..i + 1], m) == SeriesKeys(ss[..i], m) + {Retained(ss[i].labels, m)}
    ensures forall k :: GroupSeries(ss[..i + 1], m, k)
                     == GroupSeries(ss[..i], m, k) + if Retained(ss[i].labels, m) == k then [ss[i]] else []
  {
    assert ss[..i + 1] == ss[..i] + [ss[i]];
    forall k ensures GroupSeries(ss[..i + 1], m, k)
                  == GroupSeries(ss[..i], m, k) + if Retained(ss[i].labels, m) == k then [ss[i]] else []
    {
      GroupSeriesConcat(ss[..i], [ss[i]], m, k);
    }
  }

  method GroupRangePoints(inner: seq<RangePoints>, m: LabelModifier) returns (groups: map<Labels, seq<RangePoints>>)
    ensures groups.Keys == SeriesKeys(inner, m)
    ensures forall k :: k in groups ==> groups[k] == GroupSeries(inner, m, k)
  {
    hide Retained, GroupSeries, SeriesKeys;
    groups := map[];
    NoSeries(inner, m);
    for i := 0 to |inner|
      invariant groups.Keys == SeriesKeys(inner[..i], m)
      invariant forall k :: k in groups ==> groups[k] == GroupSeries(inner[..i], m, k)
    {
      var key := Retained(inner[i].labels, m);
      GroupSeriesEmpty(inner[..i], m, key);
      SeriesStep(inner, m, i);
      groups := groups[key := (if key in groups then groups[key] else []) + [inner[i]]];
    }
    assert inner[..|inner|] == inner;
  }

  lemma NoSeries(ss: seq<RangePoints>, m: LabelModifier)
    ensures SeriesKeys(ss[..0], m) == {}
  {
  }

  /** What `by_ts` holds: the values of each timestamp. */
  ghost predicate Aligned(byTs: map<int, seq<real>>, ss: seq<RangePoints>)
  {
    && byTs.Keys == AllTimes(ss)
    && forall t :: t in byTs ==> byTs[t] == ValuesAt(ss, t)
  }

  lemma {:induction false} ValuesAtConcat(a: seq<RangePoints>, b: seq<RangePoints>, t: int)
    ensures ValuesAt(a + b, t) == ValuesAt(a, t) + ValuesAt(b, t)
    ensures AllTimes(a + b) == AllTimes(a) + AllTimes(b)
  {
    hide At, Times;
    if a == [] {
      assert a + b == b;
    } else {
      ValuesAtConcat(a[1..], b, t);
      assert (a + b)[0] == a[0] && (a + b)[1..] == a[1..] + b;
      Assoc(At(a[0].points, t), ValuesAt(a[1..], t), ValuesAt(b, t));
    }
  }

  lemma {:induction false} AllTimesValues(ss: seq<RangePoints>, t: int)
    ensures t in AllTimes(ss) <==> ValuesAt(ss, t) != []
  {
    if ss != [] {
      AtTimes(ss[0].points, t);
      AllTimesValues(ss[1..], t);
    }
  }

  /** The members seen so far, the last of them up to its point `j`. */
  function UpTo(ss: seq<RangePoints>, i: nat, j: nat): seq<RangePoints>
    requires i < |ss| && j <= |ss[i].points|
  {
    ss[..i] + [ss[i].(points := ss[i].points[..j])]
  }

  lemma UpToStep(ss: seq<RangePoints>, i: nat, j: nat)
    requires i < |ss| && j < |ss[i].points|
    ensures var p := ss[i].points[j];
      && AllTimes(UpTo(ss, i, j + 1)) == AllTimes(UpTo(ss, i, j)) + {p.0}
      && forall t :: ValuesAt(UpTo(ss, i, j + 1), t) == ValuesAt(UpTo(ss, i, j), t) + if t == p.0 then [p.1] else []
  {
    var p, ps := ss[i].points[j], ss[i].points;
    assert ps[..j + 1] == ps[..j] + [p];
    var a, b := ss[i].(points := ps[..j]), ss[i].(points := ps[..j + 1]);
    assert Times(b.points) == Times(a.points) + {p.0};
    ValuesAtConcat(ss[..i], [a], p.0);
    ValuesAtConcat(ss[..i], [b], p.0);
    OneSeries(a);
    OneSeries(b);
    forall t ensures ValuesAt(UpTo(ss, i, j + 1), t) == ValuesAt(UpTo(ss, i, j), t) + if t == p.0 then [p.1] else [] {
      ValuesAtConcat(ss[..i], [a], t);
      ValuesAtConcat(ss[..i], [b], t);
      AtConcat(ps[..j], [p], t);
    }
  }

  lemma OneSeries(s: RangePoints)
    ensures AllTimes([s]) == Times(s.points)
    ensures forall t :: ValuesAt([s], t) == At(s.points, t)
  {
    assert |[s][1..]| == 0;
  }

  lemma UpToEdges(ss: seq<RangePoints>, i: nat)
    requires i < |ss|
    ensures UpTo(ss, i, |ss[i].points|) == ss[..i + 1]
    ensures AllTimes(UpTo(ss, i, 0)) == AllTimes(ss[..i])
    ensures forall t :: ValuesAt(UpTo(ss, i, 0), t) == ValuesAt(ss[..i], t)
  {
    assert ss[i].points[..|ss[i].points|] == ss[i].points;
    var none := ss[i].(points := ss[i].points[..0]);
    OneSeries(none);
    forall t ensures ValuesAt(UpTo(ss, i, 0), t) == ValuesAt(ss[..i], t) {
      ValuesAtConcat(ss[..i], [none], t);
    }
    ValuesAtConcat(ss[..i], [none], 0);
  }

  method AlignByTimestamp(members: seq<RangePoints>) returns (byTs: map<int, seq<real>>)
    ensures Aligned(byTs, members)
  {
    hide ValuesAt, AllTimes, UpTo;
    byTs := map[];
    NoTimesYet(members);
    for i := 0 to |members|
      invariant Aligned(byTs, members[..i])
    {
      UpToEdges(members, i);
      for j := 0 to |members[i].points|
        invariant Aligned(byTs, UpTo(members, i, j))
      {
        var p := members[i].points[j];
        UpToStep(members, i, j);
        AllTimesValues(UpTo(members, i, j), p.0);
        byTs := byTs[p.0 := (if p.0 in byTs then byTs[p.0] else []) + [p.1]];
      }
    }
    assert members[..|members|] == members;
  }

  lemma NoTimesYet(ss: seq<RangePoints>)
    ensures AllTimes(ss[..0]) == {}
  {
  }

  method AggregateGroup(op: AggOp, members: seq<RangePoints>) returns (points: seq<(int, real)>)
    ensures points == AggSeries(op, members)
  {
    hide ApplyAgg, ValuesAt, AllTimes;
    var byTs := AlignByTimestamp(members);
    var times := Ascend(byTs.Keys);
    points := [];
    for i := 0 to |times|
      invariant |points| == i
      invariant forall j :: 0 <= j < i ==> points[j] == (times[j], ApplyAgg(op, ValuesAt(members, times[j])))
    {
      assert times[i] in times;
      points := points + [(times[i], ApplyAgg(op, byTs[times[i]]))];
    }
  }

  method AggregateRangePoints(lt: LabelOrder, inner: seq<RangePoints>, op: AggOp, m: LabelModifier)
    returns (out: seq<RangePoints>)
    requires StrictTotal(lt)
    ensures out == AggregateRange(lt, inner, op, m)
  {
    hide StrictTotal, Retained, AggSeries, GroupSeries, SeriesKeys;
    var groups := GroupRangePoints(inner, m);
    var ks := Sorted(groups.Keys, lt);
    out := [];
    while ks != []
      invariant forall k :: k in ks ==> k in groups
      invariant out + AggRangeOver(inner, op, m, ks) == AggregateRange(lt, inner, op, m)
    {
      var k := ks[0];
      assert k in ks;
      var points := AggregateGroup(op, groups[k]);
      ghost var before := out;
      if points != [] {
        out := out + [RangePoints("", k, points)];
      }
      assert out == before + GroupOutput(op, groups[k], k);
      hide GroupOutput;
      Assoc(before, GroupOutput(op, groups[k], k), AggRangeOver(inner, op, m, ks[1..]));
      ks := ks[1..];
    }
  }

  // ---------- range evaluation is instant evaluation, timestamp by timestamp ----------

  lemma {:induction false} TaggedValues(metric: string, labels: Labels, t: int, vs: seq<real>, m: LabelModifier, k: Labels)
    ensures GroupValues(Tagged(metric, labels, t, vs), m, k) == if Retained(labels, m) == k then vs else []
  {
    hide Retained;
    var pts := Tagged(metric, labels, t, vs);
    if vs != [] {
      TaggedValues(metric, labels, t, vs[1..], m, k);
      assert pts[1..] == Tagged(metric, labels, t, vs[1..]);
      assert vs == [vs[0]] + vs[1..];
    }
  }

  lemma {:induction false} SliceValues(ss: seq<RangePoints>, m: LabelModifier, k: Labels, t: int)
    ensures GroupValues(Slice(ss, t), m, k) == ValuesAt(GroupSeries(ss, m, k), t)
  {
    if ss != [] {
      var s := ss[0];
      var head := Tagged(s.metric, s.labels, t, At(s.points, t));
      SliceValues(ss[1..], m, k, t);
      GroupValuesConcat(head, Slice(ss[1..], t), m, k);
      TaggedValues(s.metric, s.labels, t, At(s.points, t), m, k);
      if Retained(s.labels, m) == k {
        assert GroupSeries(ss, m, k)[1..] == GroupSeries(ss[1..], m, k);
      } else {
        assert GroupSeries(ss, m, k) == GroupSeries(ss[1..], m, k);
      }
    }
  }

  /** The keys, in order, of the groups with a value at `t`. */
  function KeysAt(ss: seq<RangePoints>, m: LabelModifier, ks: seq<Labels>, t: int): seq<Labels>
  {
    if ks == [] then []
    else (if ValuesAt(GroupSeries(ss, m, ks[0]), t) != [] then [ks[0]] else []) + KeysAt(ss, m, ks[1..], t)
  }

  lemma {:induction false} KeysAtAscend(lt: LabelOrder, ss: seq<RangePoints>, m: LabelModifier, ks: seq<Labels>, t: int)
    requires Ascending(ks, lt)
    ensures Ascending(KeysAt(ss, m, ks, t), lt)
    ensures forall k :: k in KeysAt(ss, m, ks, t) <==> k in ks && ValuesAt(GroupSeries(ss, m, k), t) != []
  {
    hide ValuesAt, GroupSeries;
    if ks != [] {
      KeysAtAscend(lt, ss, m, ks[1..], t);
      assert ks == [ks[0]] + ks[1..];
      var rest := KeysAt(ss, m, ks[1..], t);
      HeadLeast(ks, lt);
      assert forall j :: 0 <= j < |rest| ==> rest[j] in rest && rest[j] in ks[1..];
    }
  }

  /** The groups of the slice are the groups that have a value there. */
  lemma {:induction false} SliceKeys(lt: LabelOrder, ss: seq<RangePoints>, m: LabelModifier, t: int)
    requires StrictTotal(lt)
    ensures KeysAt(ss, m, Sorted(SeriesKeys(ss, m), lt), t) == Sorted(GroupKeys(Slice(ss, t), m), lt)
  {
    hide ValuesAt, GroupSeries, KeysAt, Slice, GroupValues, GroupKeys, SeriesKeys;
    var ks := Sorted(SeriesKeys(ss, m), lt);
    KeysAtAscend(lt, ss, m, ks, t);
    forall k ensures k in KeysAt(ss, m, ks, t) <==> k in GroupKeys(Slice(ss, t), m) {
      SliceValues(ss, m, k, t);
      GroupValuesEmpty(Slice(ss, t), m, k);
      GroupSeriesEmpty(ss, m, k);
      NoValues(t);
    }
    AscendingUnique(KeysAt(ss, m, ks, t), Sorted(GroupKeys(Slice(ss, t), m), lt), lt);
  }

  lemma NoValues(t: int)
    ensures ValuesAt([], t) == []
  {
  }

  /** A group's series at `t`: the aggregate of its values there, if it has any. */
  lemma {:induction false} GroupOutputAt(op: AggOp, members: seq<RangePoints>, k: Labels, t: int)
    ensures Slice(GroupOutput(op, members, k), t)
         == if ValuesAt(members, t) == [] then [] else [InstantPoint("", k, t, ApplyAgg(op, ValuesAt(members, t)))]
  {
    var points := AggSeries(op, members);
    AtAscending(Ascend(AllTimes(members)), AggAt(op, members), t);
    AllTimesValues(members, t);
    SliceOne(RangePoints("", k, points), t);
    SliceNone<real>(t);
    AtNone<real>(t);
    hide Slice, ValuesAt, AllTimes, At, ApplyAgg;
  }

  lemma {:induction false} AggOverLifts(ss: seq<RangePoints>, op: AggOp, m: LabelModifier, ks: seq<Labels>, t: int)
    ensures Slice(AggRangeOver(ss, op, m, ks), t) == AggInstantOver(Slice(ss, t), op, m, t, KeysAt(ss, m, ks, t))
  {
    hide ValuesAt, GroupSeries, GroupValues, ApplyAgg, GroupOutput;
    if ks != [] {
      var k, members := ks[0], GroupSeries(ss, m, ks[0]);
      AggOverLifts(ss, op, m, ks[1..], t);
      SliceConcat(GroupOutput(op, members, k), AggRangeOver(ss, op, m, ks[1..]), t);
      GroupOutputAt(op, members, k, t);
      SliceValues(ss, m, k, t);
      hide Slice;
    }
  }

  /** Aggregating a range vector and looking at one timestamp is aggregating what the
      range vector shows at that timestamp. */
  lemma AggregateLifts(lt: LabelOrder, ss: seq<RangePoints>, op: AggOp, m: LabelModifier, t: int)
    requires StrictTotal(lt)
    ensures Slice(AggregateRange(lt, ss, op, m), t) == AggregateInstant(lt, Slice(ss, t), op, m, t)
  {
    AggOverLifts(ss, op, m, Sorted(SeriesKeys(ss, m), lt), t);
    SliceKeys(lt, ss, m, t);
  }

  lemma {:induction false} AggOverShape(lt: LabelOrder, ss: seq<RangePoints>, op: AggOp, m: LabelModifier, ks: seq<Labels>)
    requires StrictTotal(lt) && Ascending(ks, lt)
    ensures WellFormed(AggRangeOver(ss, op, m, ks))
    ensures forall s :: s in AggRangeOver(ss, op, m, ks) ==> s.metric == "" && s.labels in ks
  {
    AggRangeUnfold(ss, op, m, ks);
    if ks == [] {
      NoSeriesWellFormed();
    } else {
      HeadDistinct(lt, ks);
      hide *;
      AggOverShape(lt, ss, op, m, ks[1..]);
      GroupOutputShape(op, GroupSeries(ss, m, ks[0]), ks[0]);
      assert ks == [ks[0]] + ks[1..];
      WellFormedJoin(GroupOutput(op, GroupSeries(ss, m, ks[0]), ks[0]), AggRangeOver(ss, op, m, ks[1..]));
    }
  }

  lemma AggRangeUnfold(ss: seq<RangePoints>, op: AggOp, m: LabelModifier, ks: seq<Labels>)
    ensures AggRangeOver(ss, op, m, ks)
         == if ks == [] then [] else GroupOutput(op, GroupSeries(ss, m, ks[0]), ks[0]) + AggRangeOver(ss, op, m, ks[1..])
  {
  }

  lemma NoSeriesWellFormed()
    ensures WellFormed<real>([])
  {
  }

  lemma HeadDistinct(lt: LabelOrder, ks: seq<Labels>)
    requires StrictTotal(lt) && Ascending(ks, lt) && ks != []
    ensures Ascending(ks[1..], lt) && ks[0] !in ks[1..]
  {
    HeadLeast(ks, lt);
  }

  lemma GroupOutputShape(op: AggOp, members: seq<RangePoints>, k: Labels)
    ensures var g := GroupOutput(op, members, k);
      WellFormed(g) && forall s :: s in g ==> s.metric == "" && s.labels == k
  {
    hide AggAt, AllTimes;
    PointsOverDistinct(Ascend(AllTimes(members)), AggAt(op, members));
  }

  /** The output has one series per label set and one value per timestamp. */
  lemma {:induction false} AggregateWellFormed(lt: LabelOrder, ss: seq<RangePoints>, op: AggOp, m: LabelModifier)
    requires StrictTotal(lt)
    ensures WellFormed(AggregateRange(lt, ss, op, m))
    ensures forall s :: s in AggregateRange(lt, ss, op, m) ==>
      s.metric == "" && exists q :: q in ss && s.labels == Retained(q.labels, m)
  {
    var ks := Sorted(SeriesKeys(ss, m), lt);
    AggOverShape(lt, ss, op, m, ks);
  }

  // ---------- the order of the input does not matter ----------

  lemma {:induction false} GroupValuesPermute(a: seq<InstantPoint>, b: seq<InstantPoint>, m: LabelModifier, k: Labels)
    requires multiset(a) == multiset(b)
    ensures multiset(GroupValues(a, m, k)) == multiset(GroupValues(b, m, k))
  {
    hide ValueIn;
    if a == [] {
      assert |multiset(b)| == 0;
    } else {
      var i := TakeOut(a, b);
      GroupValuesConcat(b[..i], [b[i]] + b[i + 1..], m, k);
      GroupValuesConcat([b[i]], b[i + 1..], m, k);
      GroupValuesConcat(b[..i], b[i + 1..], m, k);
      assert [b[i]][1..] == [];
      GroupValuesPermute(a[1..], b[..i] + b[i + 1..], m, k);
    }
  }

  lemma {:induction false} AggregatePermutes(lt: LabelOrder, a: seq<InstantPoint>, b: seq<InstantPoint>, op: AggOp, m: LabelModifier, t: int)
    requires StrictTotal(lt) && multiset(a) == multiset(b)
    ensures AggregateInstant(lt, a, op, m, t) == AggregateInstant(lt, b, op, m, t)
  {
    hide StrictTotal, Retained, ApplyAgg, GroupValues;
    assert GroupKeys(a, m) == GroupKeys(b, m) by {
      assert forall p :: p in a <==> p in multiset(a);
      assert forall p :: p in b <==> p in multiset(b);
    }
    var ks := Sorted(GroupKeys(a, m), lt);
    forall i | 0 <= i < |ks|
      ensures ApplyAgg(op, GroupValues(a, m, ks[i])) == ApplyAgg(op, GroupValues(b, m, ks[i]))
    {
      GroupValuesPermute(a, b, m, ks[i]);
      AggPermutes(op, GroupValues(a, m, ks[i]), GroupValues(b, m, ks[i]));
    }
  }
}

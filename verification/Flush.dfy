/** Turning a snapshot into the record batches of the samples table, one per day
    partition. */
module Flush {
  import opened Orders
  import opened Sorting
  import opened IngestBuffer

  // ---------- specification ----------

  predicate EarlierPoint(p: (int, real), q: (int, real)) { p.0 < q.0 }

  /** A series' points by time, points of one time in the order they came. */
  function SortByTs(ps: seq<(int, real)>): seq<(int, real)>
  {
    StableSort(ps, EarlierPoint)
  }

  function SeriesRows(id: int, ps: seq<(int, real)>): (r: seq<Row>)
    ensures |r| == |ps|
  {
    seq(|ps|, i requires 0 <= i < |ps| => Row(id, ps[i].0, ps[i].1))
  }

  function SamplesBatch(m: map<int, seq<(int, real)>>, ids: seq<int>): seq<Row>
    requires forall id :: id in ids ==> id in m
  {
    if ids == [] then [] else SeriesRows(ids[0], SortByTs(m[ids[0]])) + SamplesBatch(m, ids[1..])
  }

  /** `build_samples_batch`: the rows of one day. */
  function DayBatch(m: map<int, seq<(int, real)>>): seq<Row>
  {
    SamplesBatch(m, Ascend(m.Keys))
  }

  /** The rows written to one partition of the samples table. */
  datatype DayFile = DayFile(partition: int, rows: seq<Row>)

  function DayFiles(m: ByDay, days: seq<int>): seq<DayFile>
    requires forall d :: d in days ==> d in m
  {
    if days == [] then []
    else
      var d := days[0];
      assert d in days && d in m;
      [DayFile(d, DayBatch(m[d]))] + DayFiles(m, days[1..])
  }

  /** What `flush_samples` writes: one file per day, days ascending. */
  function FlushFiles(m: ByDay): seq<DayFile>
  {
    DayFiles(m, Ascend(m.Keys))
  }

  function AllRows(fs: seq<DayFile>): seq<Row>
  {
    if fs == [] then [] else fs[0].rows + AllRows(fs[1..])
  }

  /** Rows in the order a batch has them: by series, and by time within one. */
  predicate RowOrder(a: Row, b: Row)
  {
    a.seriesId < b.seriesId || (a.seriesId == b.seriesId && a.tsUs <= b.tsUs)
  }

  predicate RowsSorted(rs: seq<Row>)
  {
    forall i, j :: 0 <= i < j < |rs| ==> RowOrder(rs[i], rs[j])
  }

  // ---------- the sort ----------

  predicate TsSorted(ps: seq<(int, real)>)
  {
    forall i, j :: 0 <= i < j < |ps| ==> ps[i].0 <= ps[j].0
  }

  lemma SortByTsSorts(ps: seq<(int, real)>)
    ensures TsSorted(SortByTs(ps)) && multiset(SortByTs(ps)) == multiset(ps)
  {
    SortSorts(ps, EarlierPoint);
    SortPermutes(ps, EarlierPoint);
    var r := SortByTs(ps);
    forall i, j | 0 <= i < j < |r| ensures r[i].0 <= r[j].0 {
      assert !EarlierPoint(r[j], r[i]);
    }
  }

  // ---------- every row, once, in its partition ----------

  lemma {:induction false} SeriesRowsCount(id: int, ps: seq<(int, real)>, r: Row)
    ensures multiset(SeriesRows(id, ps))[r]
         == if r.seriesId == id then multiset(ps)[(r.tsUs, r.value)] else 0
  {
    if ps == [] {
      assert SeriesRows(id, ps) == [];
    } else {
      var n := |ps| - 1;
      SeriesRowsCount(id, ps[..n], r);
      assert ps == ps[..n] + [ps[n]];
      assert SeriesRows(id, ps) == SeriesRows(id, ps[..n]) + [Row(id, ps[n].0, ps[n].1)];
    }
  }

  /** How often the listed series hold the point of a row. */
  function PointCount(m: map<int, seq<(int, real)>>, ids: seq<int>, r: Row): nat
    requires forall id :: id in ids ==> id in m
  {
    if r.seriesId in ids then multiset(m[r.seriesId])[(r.tsUs, r.value)] else 0
  }

  lemma {:induction false} SamplesBatchExact(m: map<int, seq<(int, real)>>, ids: seq<int>)
    requires Ascending(ids, IntLess) && forall id :: id in ids ==> id in m
    ensures RowsSorted(SamplesBatch(m, ids))
    ensures forall r :: multiset(SamplesBatch(m, ids))[r] == PointCount(m, ids, r)
  {
    if ids != [] {
      var id, rest := ids[0], ids[1..];
      var head, tail := SeriesRows(id, SortByTs(m[id])), SamplesBatch(m, rest);
      SamplesBatchExact(m, rest);
      SortByTsSorts(m[id]);
      SeriesRowsSorted(id, SortByTs(m[id]));
      assert ids == [id] + rest;
      HeadLeast(ids, IntLess);
      hide SortByTs, SeriesRows, RowsSorted, Ascending;
      forall r: Row ensures multiset(head + tail)[r] == PointCount(m, ids, r) {
        SeriesRowsCount(id, SortByTs(m[id]), r);
      }
      forall x | x in tail ensures id < x.seriesId {
        assert multiset(tail)[x] > 0;
        assert IntLess(id, x.seriesId);
      }
      RowsSortedJoin(id, head, tail);
    }
  }

  lemma SeriesRowsSorted(id: int, ps: seq<(int, real)>)
    requires TsSorted(ps)
    ensures RowsSorted(SeriesRows(id, ps)) && forall x :: x in SeriesRows(id, ps) ==> x.seriesId == id
  {
  }

  lemma RowsSortedJoin(id: int, a: seq<Row>, b: seq<Row>)
    requires RowsSorted(a) && RowsSorted(b)
    requires (forall x :: x in a ==> x.seriesId == id) && forall x :: x in b ==> id < x.seriesId
    ensures RowsSorted(a + b)
  {
    forall i, j | 0 <= i < j < |a + b| ensures RowOrder((a + b)[i], (a + b)[j]) {
      if i < |a| <= j {
        assert a[i] in a && b[j - |a|] in b;
      }
    }
  }

  /** The file of one day holds exactly the rows the snapshot has for that day. */
  lemma DayFileExact(m: ByDay, d: int, r: Row)
    requires WellPlaced(m) && d in m
    ensures multiset(DayBatch(m[d]))[r] == if DayOf(r.tsUs) == d then CountRow(m, r) else 0
  {
    var ids := Ascend(m[d].Keys);
    SamplesBatchExact(m[d], ids);
    assert multiset(DayBatch(m[d]))[r] == PointCount(m[d], ids, r);
    if r.seriesId in m[d] {
      var ps := m[d][r.seriesId];
      assert forall i :: 0 <= i < |ps| ==> DayOf(ps[i].0) == d;
      assert (r.tsUs, r.value) in multiset(ps) ==> (r.tsUs, r.value) in ps;
    }
  }

  lemma {:induction false} DayFilesExact(m: ByDay, days: seq<int>, r: Row)
    requires WellPlaced(m) && Ascending(days, IntLess) && forall d :: d in days ==> d in m
    ensures multiset(AllRows(DayFiles(m, days)))[r]
         == if DayOf(r.tsUs) in days then CountRow(m, r) else 0
  {
    hide DayBatch, CountRow, WellPlaced;
    if days != [] {
      DayFilesExact(m, days[1..], r);
      DayFileExact(m, days[0], r);
      HeadLeast(days, IntLess);
      assert days == [days[0]] + days[1..];
      var fs := DayFiles(m, days);
      assert fs[1..] == DayFiles(m, days[1..]);
    }
  }

  /** The flush writes each row of the snapshot exactly as often as the snapshot
      holds it. */
  lemma {:induction false} FlushWritesSnapshot(m: ByDay, r: Row)
    requires WellPlaced(m)
    ensures multiset(AllRows(FlushFiles(m)))[r] == CountRow(m, r)
  {
    DayFilesExact(m, Ascend(m.Keys), r);
  }

  lemma {:induction false} DayFilesShape(m: ByDay, days: seq<int>)
    requires forall d :: d in days ==> d in m
    ensures |DayFiles(m, days)| == |days|
    ensures forall i :: 0 <= i < |days| ==>
      DayFiles(m, days)[i] == DayFile(days[i], DayBatch(m[days[i]]))
  {
    if days != [] {
      DayFilesShape(m, days[1..]);
    }
  }

  /** Every file is sorted by series and time, files have ascending partitions,
      and a row's partition is the day of its timestamp: for every timestamp chrono
      can represent, the floor of the timestamp over one day. */
  lemma {:induction false} FlushPartitions(m: ByDay, i: nat)
    requires WellPlaced(m) && i < |FlushFiles(m)|
    ensures var fs := FlushFiles(m);
      && RowsSorted(fs[i].rows)
      && (forall j :: 0 <= j < i ==> fs[j].partition < fs[i].partition)
      && (forall r :: r in fs[i].rows ==> fs[i].partition == DayOf(r.tsUs))
      && (forall r :: r in fs[i].rows && Representable(r.tsUs) ==>
            fs[i].partition * US_PER_DAY <= r.tsUs < (fs[i].partition + 1) * US_PER_DAY)
  {
    var days := Ascend(m.Keys);
    var fs := FlushFiles(m);
    DayFilesShape(m, days);
    var d := days[i];
    assert d in days;
    SamplesBatchExact(m[d], Ascend(m[d].Keys));
    hide SamplesBatch, DayFiles, WellPlaced, CountRow;
    forall j | 0 <= j < i ensures fs[j].partition < fs[i].partition {
      assert IntLess(days[j], days[i]);
    }
    forall r | r in fs[i].rows ensures fs[i].partition == DayOf(r.tsUs) {
      DayFileExact(m, d, r);
      assert r in multiset(fs[i].rows);
    }
    forall r | r in fs[i].rows && Representable(r.tsUs)
      ensures d * US_PER_DAY <= r.tsUs < (d + 1) * US_PER_DAY
    {
      DayIsFloor(r.tsUs);
    }
  }

  // ---------- the loops ----------

  /** The rows that three parallel columns spell out. */
  function Columns(ids: seq<int>, tss: seq<int>, vs: seq<real>): (r: seq<Row>)
    requires |ids| == |tss| == |vs|
    ensures |r| == |ids|
  {
    seq(|ids|, i requires 0 <= i < |ids| => Row(ids[i], tss[i], vs[i]))
  }

  method BuildSamplesBatch(bySeries: map<int, seq<(int, real)>>)
    returns (seriesIds: seq<int>, timestamps: seq<int>, values: seq<real>)
    ensures |seriesIds| == |timestamps| == |values|
    ensures Columns(seriesIds, timestamps, values) == DayBatch(bySeries)
  {
    hide SamplesBatch, StableSort, Ascend;
    seriesIds, timestamps, values := [], [], [];
    var sids := Ascend(bySeries.Keys);
    while sids != []
      invariant |seriesIds| == |timestamps| == |values|
      invariant forall id :: id in sids ==> id in bySeries
      invariant Columns(seriesIds, timestamps, values) + SamplesBatch(bySeries, sids) == DayBatch(bySeries)
    {
      assert sids[0] in sids;
      BatchCases(bySeries, sids);
      var points := SortBy(bySeries[sids[0]], EarlierPoint);
      seriesIds, timestamps, values := PushPoints(sids[0], points, seriesIds, timestamps, values);
      sids := sids[1..];
    }
    BatchCases(bySeries, sids);
  }

  lemma BatchCases(m: map<int, seq<(int, real)>>, ids: seq<int>)
    requires forall id :: id in ids ==> id in m
    ensures ids == [] ==> SamplesBatch(m, ids) == []
    ensures ids != [] ==> ids[0] in ids
    ensures ids != [] ==>
      SamplesBatch(m, ids) == SeriesRows(ids[0], SortByTs(m[ids[0]])) + SamplesBatch(m, ids[1..])
  {
  }

  /** The inner loop: the points of one series go to the end of the columns. */
  method PushPoints(sid: int, points: seq<(int, real)>, ids: seq<int>, tss: seq<int>, vs: seq<real>)
    returns (seriesIds: seq<int>, timestamps: seq<int>, values: seq<real>)
    requires |ids| == |tss| == |vs|
    ensures |seriesIds| == |timestamps| == |values|
    ensures Columns(seriesIds, timestamps, values) == Columns(ids, tss, vs) + SeriesRows(sid, points)
  {
    seriesIds, timestamps, values := ids, tss, vs;
    assert SeriesRows(sid, points[..0]) == [];
    for i := 0 to |points|
      invariant |seriesIds| == |timestamps| == |values|
      invariant Columns(seriesIds, timestamps, values) == Columns(ids, tss, vs) + SeriesRows(sid, points[..i])
    {
      ghost var before := Columns(seriesIds, timestamps, values);
      ghost var row := Row(sid, points[i].0, points[i].1);
      seriesIds := seriesIds + [sid];
      timestamps := timestamps + [points[i].0];
      values := values + [points[i].1];
      assert Columns(seriesIds, timestamps, values) == before + [row];
      assert SeriesRows(sid, points[..i + 1]) == SeriesRows(sid, points[..i]) + [row];
    }
    assert points[..|points|] == points;
  }

  method FlushSamples(byDay: ByDay) returns (files: seq<DayFile>)
    ensures files == FlushFiles(byDay)
  {
    hide DayBatch, Ascend;
    files := [];
    var days := Ascend(byDay.Keys);
    while days != []
      invariant forall d :: d in days ==> d in byDay
      invariant files + DayFiles(byDay, days) == FlushFiles(byDay)
    {
      var day := days[0];
      assert day in days;
      var ids, tss, vs := BuildSamplesBatch(byDay[day]);
      DayFilesCons(byDay, days, files);
      files := files + [DayFile(day, Columns(ids, tss, vs))];
      days := days[1..];
    }
  }

  lemma DayFilesCons(m: ByDay, days: seq<int>, files: seq<DayFile>)
    requires days != [] && forall d :: d in days ==> d in m
    ensures days[0] in days
    ensures files + DayFiles(m, days) == files + [DayFile(days[0], DayBatch(m[days[0]]))] + DayFiles(m, days[1..])
  {
    hide DayBatch;
  }
}

/** Selecting the latest sample of every matching series: by the loop over joined rows,
    and by row numbers per series id. */
module Selector {
  import opened Orders
  import opened Sorting
  import opened Wrappers
  import opened IngestBuffer
  import opened Vectors
  import opened StringKeys
  import opened TopKRange

  const LOOKBACK_US: int := 5 * 60 * 1_000_000

  /** A row of the series table. */
  datatype SeriesEntry = SeriesEntry(id: int, metric: string, labels: Vectors.Labels)

  /** The two tables; rows in whatever order a scan yields them. */
  datatype Db = Db(samples: seq<Row>, series: seq<SeriesEntry>)

  datatype Matcher = Equal(name: string, value: string) | NotEqual(name: string, value: string)

  /** A selector without regular expressions. */
  datatype Selection = Selection(metric: Option<string>, matchers: seq<Matcher>)

  /** `element_at(labels, key)[1]`, NULL when the key is missing. */
  function ElementAt(labels: Vectors.Labels, k: string): Option<string>
  {
    if k in labels then Some(labels[k]) else None
  }

  /** The predicate a matcher becomes in SQL; comparing NULL is not true. */
  predicate SqlMatches(labels: Vectors.Labels, mt: Matcher)
  {
    match mt
    case Equal(k, v) => ElementAt(labels, k) == Some(v)
    case NotEqual(k, v) => (if ElementAt(labels, k).Some? then ElementAt(labels, k).value else "") != v
  }

  /** `match_label`: a missing label reads as the empty string. */
  predicate MatchLabel(labels: Vectors.Labels, mt: Matcher)
  {
    var v := if mt.name in labels then labels[mt.name] else "";
    match mt
    case Equal(_, w) => v == w
    case NotEqual(_, w) => v != w
  }

  /** The two readings of a matcher differ exactly for `=""` on a missing label. */
  lemma MatchersAgreeIff(labels: Vectors.Labels, mt: Matcher)
    ensures SqlMatches(labels, mt) == MatchLabel(labels, mt) <==> !(mt.Equal? && mt.value == "" && mt.name !in labels)
  {
  }

  predicate Selects(sel: Selection, e: SeriesEntry)
  {
    && (sel.metric.Some? ==> e.metric == sel.metric.value)
    && forall mt :: mt in sel.matchers ==> SqlMatches(e.labels, mt)
  }

  predicate InWindow(r: Row, t: int) { t - LOOKBACK_US <= r.tsUs <= t }

  // ---------- the joined rows and the loop over them ----------

  function JoinedRow(e: SeriesEntry, r: Row): InstantPoint { InstantPoint(e.metric, e.labels, r.tsUs, r.value) }

  function JoinOne(series: seq<SeriesEntry>, sel: Selection, r: Row): seq<InstantPoint>
  {
    if series == [] then []
    else
      (if series[0].id == r.seriesId && Selects(sel, series[0]) then [JoinedRow(series[0], r)] else [])
      + JoinOne(series[1..], sel, r)
  }

  /** Samples in the window joined with their selected series. */
  function SelectorRows(samples: seq<Row>, series: seq<SeriesEntry>, sel: Selection, t: int): seq<InstantPoint>
  {
    if samples == [] then []
    else
      (if InWindow(samples[0], t) then JoinOne(series, sel, samples[0]) else [])
      + SelectorRows(samples[1..], series, sel, t)
  }

  /** The first of the points with the latest timestamp. */
  function FirstLatest(ps: seq<InstantPoint>): InstantPoint
    requires ps != []
  {
    if |ps| == 1 then ps[0]
    else
      var prev := FirstLatest(ps[..|ps| - 1]);
      if prev.ts >= ps[|ps| - 1].ts then prev else ps[|ps| - 1]
  }

  function LatestOver(st: StringOrder, rows: seq<InstantPoint>, ks: seq<string>): seq<InstantPoint>
    requires StrictTotal(st)
  {
    if ks == [] then []
    else
      var mine := WithKey(st, rows, ks[0]);
      (if mine == [] then [] else [FirstLatest(mine)]) + LatestOver(st, rows, ks[1..])
  }

  /** `instant_selector` over its rows: the latest of each series key, keys ascending. */
  function LatestByKey(st: StringOrder, rows: seq<InstantPoint>): seq<InstantPoint>
    requires StrictTotal(st)
  {
    LatestOver(st, rows, Sorted(KeysOf(st, rows), st))
  }

  lemma {:induction false} WithKeyLast(st: StringOrder, rows: seq<InstantPoint>, i: nat, k: string)
    requires StrictTotal(st) && i < |rows|
    ensures WithKey(st, rows[..i + 1], k)
         == WithKey(st, rows[..i], k) + if KeyOf(st, rows[i]) == k then [rows[i]] else []
    ensures KeysOf(st, rows[..i + 1]) == KeysOf(st, rows[..i]) + {KeyOf(st, rows[i])}
  {
    hide StrictTotal, KeyOf;
    assert rows[..i + 1] == rows[..i] + [rows[i]];
    WithKeyConcat(st, rows[..i], [rows[i]], k);
    assert |[rows[i]][1..]| == 0;
  }

  /** What one more row does to the latest row of a key. */
  lemma {:induction false} LatestAfter(st: StringOrder, rows: seq<InstantPoint>, i: nat, k: string)
    requires StrictTotal(st) && i < |rows|
    ensures var before, after := WithKey(st, rows[..i], k), WithKey(st, rows[..i + 1], k);
      && (before == [] <==> k !in KeysOf(st, rows[..i]))
      && (SeriesKey(st, rows[i].metric, rows[i].labels) != k ==> after == before)
      && (SeriesKey(st, rows[i].metric, rows[i].labels) == k ==>
            after != [] && FirstLatest(after)
              == if before != [] && FirstLatest(before).ts >= rows[i].ts then FirstLatest(before) else rows[i])
  {
    hide StrictTotal, SeriesKey, WithKey;
    WithKeyLast(st, rows, i, k);
    WithKeyIn(st, rows[..i], k);
    LatestStep(WithKey(st, rows[..i], k), rows[i]);
  }

  method LatestRows(st: StringOrder, rows: seq<InstantPoint>) returns (latest: map<string, InstantPoint>)
    requires StrictTotal(st)
    ensures latest.Keys == KeysOf(st, rows)
    ensures forall k :: k in latest ==> WithKey(st, rows, k) != [] && latest[k] == FirstLatest(WithKey(st, rows, k))
  {
    hide StrictTotal, SeriesKey, WithKey;
    latest := map[];
    assert KeysOf(st, rows[..0]) == {};
    for i := 0 to |rows|
      invariant latest.Keys == KeysOf(st, rows[..i])
      invariant forall k :: k in latest ==>
        WithKey(st, rows[..i], k) != [] && latest[k] == FirstLatest(WithKey(st, rows[..i], k))
    {
      var r := rows[i];
      var key := SeriesKey(st, r.metric, r.labels);
      ghost var before := latest;
      if !(key in latest && latest[key].ts >= r.ts) {
        latest := latest[key := r];
      }
      forall k | k in latest
        ensures WithKey(st, rows[..i + 1], k) != [] && latest[k] == FirstLatest(WithKey(st, rows[..i + 1], k))
      {
        LatestAfter(st, rows, i, k);
      }
      WithKeyLast(st, rows, i, key);
    }
    assert rows[..|rows|] == rows;
  }

  lemma LatestStep(ps: seq<InstantPoint>, r: InstantPoint)
    ensures FirstLatest(ps + [r]) == if ps != [] && FirstLatest(ps).ts >= r.ts then FirstLatest(ps) else r
    ensures ps + [] == ps
  {
    assert ps + [] == ps;
    assert ps != [] ==> (ps + [r])[..|ps|] == ps;
  }

  method InstantSelector(st: StringOrder, rows: seq<InstantPoint>) returns (out: seq<InstantPoint>)
    requires StrictTotal(st)
    ensures out == LatestByKey(st, rows)
  {
    hide StrictTotal, SeriesKey, WithKey, FirstLatest;
    var latest := LatestRows(st, rows);
    var keys := Sorted(latest.Keys, st);
    out := [];
    while keys != []
      invariant forall k :: k in keys ==> k in latest
      invariant out + LatestOver(st, rows, keys) == LatestByKey(st, rows)
    {
      assert keys[0] in keys;
      LatestUnfold(st, rows, keys);
      Assoc(out, [latest[keys[0]]], LatestOver(st, rows, keys[1..]));
      out := out + [latest[keys[0]]];
      keys := keys[1..];
    }
  }

  lemma LatestUnfold(st: StringOrder, rows: seq<InstantPoint>, ks: seq<string>)
    requires StrictTotal(st) && ks != [] && WithKey(st, rows, ks[0]) != []
    ensures LatestOver(st, rows, ks) == [FirstLatest(WithKey(st, rows, ks[0]))] + LatestOver(st, rows, ks[1..])
  {
  }

  // ---------- row numbers per series id ----------

  /** The rows of the plan's first step, once for each matching series entry. */
  function WindowOne(series: seq<SeriesEntry>, sel: Selection, r: Row): seq<Row>
  {
    if series == [] then []
    else (if series[0].id == r.seriesId && Selects(sel, series[0]) then [r] else []) + WindowOne(series[1..], sel, r)
  }

  function WindowRows(samples: seq<Row>, series: seq<SeriesEntry>, sel: Selection, t: int): seq<Row>
  {
    if samples == [] then []
    else
      (if InWindow(samples[0], t) then WindowOne(series, sel, samples[0]) else [])
      + WindowRows(samples[1..], series, sel, t)
  }

  function Partition(rows: seq<Row>, id: int): seq<Row>
  {
    if rows == [] then [] else (if rows[0].seriesId == id then [rows[0]] else []) + Partition(rows[1..], id)
  }

  predicate LaterRow(a: Row, b: Row) { a.tsUs > b.tsUs }

  /** The rows of a partition by descending timestamp; the first has row number 1. */
  function ByLatest(rows: seq<Row>, id: int): seq<Row> { StableSort(Partition(rows, id), LaterRow) }

  function Ids(rows: seq<Row>): set<int> { set r | r in rows :: r.seriesId }

  /** The second join: every series entry with the row's id. */
  function JoinBack(series: seq<SeriesEntry>, r: Row): seq<InstantPoint>
  {
    if series == [] then []
    else (if series[0].id == r.seriesId then [JoinedRow(series[0], r)] else []) + JoinBack(series[1..], r)
  }

  function RowNumberOne(rows: seq<Row>, series: seq<SeriesEntry>, ids: seq<int>): seq<InstantPoint>
  {
    if ids == [] then []
    else
      var ranked := ByLatest(rows, ids[0]);
      (if ranked == [] then [] else JoinBack(series, ranked[0])) + RowNumberOne(rows, series, ids[1..])
  }

  /** `WHERE rn = 1`, joined with `series`. */
  function LatestById(db: Db, sel: Selection, t: int): seq<InstantPoint>
  {
    var rows := WindowRows(db.samples, db.series, sel, t);
    RowNumberOne(rows, db.series, Ascend(Ids(rows)))
  }

  // ---------- both are the latest sample of every selected series ----------

  /** Ids name series both ways, keys tell them apart, and a series has one value at a
      time; the same sample may be stored more than once. */
  ghost predicate GoodDb(db: Db)
  {
    && (forall i, j :: 0 <= i < j < |db.series| ==> db.series[i].id != db.series[j].id)
    && (forall e, f :: e in db.series && f in db.series && e.metric == f.metric && e.labels == f.labels ==> e == f)
    && (forall e :: e in db.series ==> '{' !in e.metric && Plain(e.labels))
    && (forall r, q :: r in db.samples && q in db.samples && r.seriesId == q.seriesId && r.tsUs == q.tsUs ==> r == q)
  }

  /** Sample `r` of entry `e` is selected. */
  ghost predicate Chosen(db: Db, sel: Selection, t: int, e: SeriesEntry, r: Row)
  {
    e in db.series && r in db.samples && e.id == r.seriesId && Selects(sel, e) && InWindow(r, t)
  }

  /** ... and no selected sample of the series is later. */
  ghost predicate ChosenLast(db: Db, sel: Selection, t: int, e: SeriesEntry, r: Row)
  {
    Chosen(db, sel, t, e, r) && forall q :: Chosen(db, sel, t, e, q) ==> q.tsUs <= r.tsUs
  }

  ghost predicate IsLatest(db: Db, sel: Selection, t: int, p: InstantPoint)
  {
    exists e, r :: ChosenLast(db, sel, t, e, r) && p == JoinedRow(e, r)
  }

  lemma {:induction false} JoinOneHas(series: seq<SeriesEntry>, sel: Selection, r: Row, p: InstantPoint)
    ensures p in JoinOne(series, sel, r)
      <==> exists e :: e in series && e.id == r.seriesId && Selects(sel, e) && p == JoinedRow(e, r)
  {
    hide Selects;
    if series != [] {
      assert series == [series[0]] + series[1..];
      JoinOneHas(series[1..], sel, r, p);
    }
  }

  lemma {:induction false} SelectorRowsHave(samples: seq<Row>, series: seq<SeriesEntry>, sel: Selection, t: int, p: InstantPoint)
    ensures p in SelectorRows(samples, series, sel, t)
      <==> exists e, r :: Chosen(Db(samples, series), sel, t, e, r) && p == JoinedRow(e, r)
  {
    hide Selects, JoinOne, InWindow;
    if samples != [] {
      var db, rest := Db(samples, series), Db(samples[1..], series);
      assert samples == [samples[0]] + samples[1..];
      SelectorRowsHave(samples[1..], series, sel, t, p);
      JoinOneHas(series, sel, samples[0], p);
      if InWindow(samples[0], t) && p in JoinOne(series, sel, samples[0]) {
        var e :| e in series && e.id == samples[0].seriesId && Selects(sel, e) && p == JoinedRow(e, samples[0]);
        assert Chosen(db, sel, t, e, samples[0]);
      }
      if p in SelectorRows(samples[1..], series, sel, t) {
        var e, r :| Chosen(rest, sel, t, e, r) && p == JoinedRow(e, r);
        assert Chosen(db, sel, t, e, r);
      }
      if e, r :| Chosen(db, sel, t, e, r) && p == JoinedRow(e, r) {
        assert r != samples[0] ==> Chosen(rest, sel, t, e, r);
      }
    }
  }

  lemma {:induction false} WindowOneHas(series: seq<SeriesEntry>, sel: Selection, r: Row, q: Row)
    ensures q in WindowOne(series, sel, r)
      <==> q == r && exists e :: e in series && e.id == r.seriesId && Selects(sel, e)
  {
    hide Selects;
    if series != [] {
      assert series == [series[0]] + series[1..];
      WindowOneHas(series[1..], sel, r, q);
    }
  }

  lemma {:induction false} WindowRowsHave(samples: seq<Row>, series: seq<SeriesEntry>, sel: Selection, t: int, q: Row)
    ensures q in WindowRows(samples, series, sel, t) <==> exists e :: Chosen(Db(samples, series), sel, t, e, q)
  {
    hide Selects, WindowOne, InWindow;
    if samples != [] {
      var db, rest := Db(samples, series), Db(samples[1..], series);
      assert samples == [samples[0]] + samples[1..];
      WindowRowsHave(samples[1..], series, sel, t, q);
      WindowOneHas(series, sel, samples[0], q);
      if InWindow(samples[0], t) && q in WindowOne(series, sel, samples[0]) {
        var e :| e in series && e.id == samples[0].seriesId && Selects(sel, e);
        assert Chosen(db, sel, t, e, q);
      }
      if q in WindowRows(samples[1..], series, sel, t) {
        var e :| Chosen(rest, sel, t, e, q);
        assert Chosen(db, sel, t, e, q);
      }
      if e :| Chosen(db, sel, t, e, q) {
        assert q != samples[0] ==> Chosen(rest, sel, t, e, q);
      }
    }
  }

  lemma {:induction false} FirstLatestIn(ps: seq<InstantPoint>)
    requires ps != []
    ensures FirstLatest(ps) in ps && forall p :: p in ps ==> p.ts <= FirstLatest(ps).ts
  {
    if |ps| > 1 {
      var n := |ps| - 1;
      FirstLatestIn(ps[..n]);
      assert ps == ps[..n] + [ps[n]];
    }
  }

  /** With unique ids an entry is determined by its id, and by its series key. */
  lemma OneEntry(st: StringOrder, db: Db, e: SeriesEntry, f: SeriesEntry)
    requires StrictTotal(st) && GoodDb(db) && e in db.series && f in db.series
    ensures e.id == f.id ==> e == f
    ensures SeriesKey(st, e.metric, e.labels) == SeriesKey(st, f.metric, f.labels) ==> e == f
  {
    hide StrictTotal, Plain, SeriesKey;
    var i :| 0 <= i < |db.series| && db.series[i] == e;
    var j :| 0 <= j < |db.series| && db.series[j] == f;
    SeriesKeyInjective(st, e.metric, e.labels, f.metric, f.labels);
  }

  /** `p` is the latest row with key `k`. */
  predicate Wins(st: StringOrder, rows: seq<InstantPoint>, k: string, p: InstantPoint)
    requires StrictTotal(st)
  {
    WithKey(st, rows, k) != [] && p == FirstLatest(WithKey(st, rows, k))
  }

  lemma {:induction false} LatestOverHas(st: StringOrder, rows: seq<InstantPoint>, ks: seq<string>, p: InstantPoint)
    requires StrictTotal(st)
    ensures p in LatestOver(st, rows, ks) <==> exists k :: k in ks && Wins(st, rows, k, p)
  {
    hide StrictTotal, KeyOf;
    if ks != [] {
      assert ks == [ks[0]] + ks[1..];
      LatestOverHas(st, rows, ks[1..], p);
      assert p in LatestOver(st, rows, ks) <==> Wins(st, rows, ks[0], p) || p in LatestOver(st, rows, ks[1..]);
      hide Wins;
    }
  }

  /** The loop keeps exactly the latest sample of every selected series. */
  lemma {:induction false} LatestByKeyExact(st: StringOrder, db: Db, sel: Selection, t: int, p: InstantPoint)
    requires StrictTotal(st) && GoodDb(db)
    ensures p in LatestByKey(st, SelectorRows(db.samples, db.series, sel, t)) <==> IsLatest(db, sel, t, p)
  {
    var rows := SelectorRows(db.samples, db.series, sel, t);
    hide StrictTotal, GoodDb, SelectorRows, LatestOver, WithKey, SeriesKey, KeysOf, IsLatest;
    var ks := Sorted(KeysOf(st, rows), st);
    LatestOverHas(st, rows, ks, p);
    if p in LatestByKey(st, rows) {
      var k :| k in ks && Wins(st, rows, k, p);
      KeyLatest(st, db, sel, t, k);
    }
    if IsLatest(db, sel, t, p) {
      LatestHasKey(st, db, sel, t, p);
      assert Wins(st, rows, KeyOf(st, p), p);
    }
  }

  lemma KeyLatest(st: StringOrder, db: Db, sel: Selection, t: int, k: string)
    requires StrictTotal(st) && GoodDb(db)
    requires WithKey(st, SelectorRows(db.samples, db.series, sel, t), k) != []
    ensures IsLatest(db, sel, t, FirstLatest(WithKey(st, SelectorRows(db.samples, db.series, sel, t), k)))
  {
    var rows := SelectorRows(db.samples, db.series, sel, t);
    var mine := WithKey(st, rows, k);
    var p := FirstLatest(mine);
    hide StrictTotal, GoodDb, SelectorRows, WithKey, SeriesKey, FirstLatest, Chosen;
    FirstLatestIn(mine);
    WithKeyIn(st, rows, k);
    SelectorRowsHave(db.samples, db.series, sel, t, p);
    assert Db(db.samples, db.series) == db;
    var e, r :| Chosen(db, sel, t, e, r) && p == JoinedRow(e, r);
    forall q | Chosen(db, sel, t, e, q) ensures q.tsUs <= r.tsUs {
      SelectorRowsHave(db.samples, db.series, sel, t, JoinedRow(e, q));
      assert JoinedRow(e, q) in rows && KeyOf(st, JoinedRow(e, q)) == k;
    }
    assert ChosenLast(db, sel, t, e, r);
  }

  lemma {:induction false} LatestHasKey(st: StringOrder, db: Db, sel: Selection, t: int, p: InstantPoint)
    requires StrictTotal(st) && GoodDb(db) && IsLatest(db, sel, t, p)
    ensures var rows := SelectorRows(db.samples, db.series, sel, t);
      var k := KeyOf(st, p);
      k in KeysOf(st, rows) && WithKey(st, rows, k) != [] && p == FirstLatest(WithKey(st, rows, k))
  {
    var rows := SelectorRows(db.samples, db.series, sel, t);
    var k := KeyOf(st, p);
    var mine := WithKey(st, rows, k);
    hide StrictTotal, SelectorRows, WithKey, SeriesKey, FirstLatest, Selects, InWindow, Plain;
    assert Db(db.samples, db.series) == db;
    var e, r :| ChosenLast(db, sel, t, e, r) && p == JoinedRow(e, r);
    SelectorRowsHave(db.samples, db.series, sel, t, p);
    WithKeyIn(st, rows, k);
    assert p in mine;
    FirstLatestIn(mine);
    var x := FirstLatest(mine);
    SelectorRowsHave(db.samples, db.series, sel, t, x);
    var f, q :| Chosen(db, sel, t, f, q) && x == JoinedRow(f, q);
    OneEntry(st, db, e, f);
    assert q.tsUs == r.tsUs;
  }

  lemma {:induction false} PartitionIn(rows: seq<Row>, id: int)
    ensures forall r :: r in Partition(rows, id) <==> r in rows && r.seriesId == id
  {
    if rows != [] {
      PartitionIn(rows[1..], id);
      assert rows == [rows[0]] + rows[1..];
    }
  }

  lemma RowOne(rows: seq<Row>, id: int)
    ensures |ByLatest(rows, id)| > 0 <==> id in Ids(rows)
    ensures id in Ids(rows) ==> var r := ByLatest(rows, id)[0];
      r in rows && r.seriesId == id && forall q :: q in rows && q.seriesId == id ==> q.tsUs <= r.tsUs
  {
    var part, ranked := Partition(rows, id), ByLatest(rows, id);
    PartitionIn(rows, id);
    SortPermutes(part, LaterRow);
    SortSorts(part, LaterRow);
    hide Partition, StableSort;
    if ranked != [] {
      assert ranked[0] in multiset(ranked);
      assert ranked[0] in part;
    }
    if id in Ids(rows) {
      var x :| x in rows && x.seriesId == id;
      assert x in part;
      assert ranked[0] in multiset(ranked);
      assert ranked[0] in multiset(part);
      forall q | q in rows && q.seriesId == id ensures q.tsUs <= ranked[0].tsUs {
        assert q in multiset(part);
        assert q in ranked;
        var i :| 0 <= i < |ranked| && ranked[i] == q;
        assert i > 0 ==> !LaterRow(ranked[i], ranked[0]);
      }
    }
  }

  lemma {:induction false} JoinBackHas(series: seq<SeriesEntry>, r: Row, p: InstantPoint)
    ensures p in JoinBack(series, r) <==> exists e :: e in series && e.id == r.seriesId && p == JoinedRow(e, r)
  {
    if series != [] {
      assert series == [series[0]] + series[1..];
      JoinBackHas(series[1..], r, p);
    }
  }

  lemma {:induction false} RowNumberOneHas(rows: seq<Row>, series: seq<SeriesEntry>, ids: seq<int>, p: InstantPoint)
    ensures p in RowNumberOne(rows, series, ids)
      <==> exists id :: id in ids && ByLatest(rows, id) != [] && p in JoinBack(series, ByLatest(rows, id)[0])
  {
    hide ByLatest;
    if ids != [] {
      assert ids == [ids[0]] + ids[1..];
      RowNumberOneHas(rows, series, ids[1..], p);
    }
  }

  /** Row number one per series id is exactly that too. */
  lemma {:induction false} LatestByIdExact(st: StringOrder, db: Db, sel: Selection, t: int, p: InstantPoint)
    requires StrictTotal(st) && GoodDb(db)
    ensures p in LatestById(db, sel, t) <==> IsLatest(db, sel, t, p)
  {
    var rows := WindowRows(db.samples, db.series, sel, t);
    hide StrictTotal, GoodDb, WindowRows, ByLatest, RowNumberOne, IsLatest, JoinBack;
    RowNumberOneHas(rows, db.series, Ascend(Ids(rows)), p);
    if p in LatestById(db, sel, t) {
      var id :| id in Ids(rows) && ByLatest(rows, id) != [] && p in JoinBack(db.series, ByLatest(rows, id)[0]);
      IdLatest(st, db, sel, t, id, p);
    }
    if IsLatest(db, sel, t, p) {
      var id := LatestHasId(st, db, sel, t, p);
    }
  }

  lemma IdLatest(st: StringOrder, db: Db, sel: Selection, t: int, id: int, p: InstantPoint)
    requires StrictTotal(st) && GoodDb(db)
    requires var rows := WindowRows(db.samples, db.series, sel, t);
      id in Ids(rows) && ByLatest(rows, id) != [] && p in JoinBack(db.series, ByLatest(rows, id)[0])
    ensures IsLatest(db, sel, t, p)
  {
    var rows := WindowRows(db.samples, db.series, sel, t);
    var r := ByLatest(rows, id)[0];
    hide StrictTotal, WindowRows, ByLatest, JoinBack, Selects, InWindow, SeriesKey, GoodDb;
    assert Db(db.samples, db.series) == db;
    RowOne(rows, id);
    JoinBackHas(db.series, r, p);
    var e :| e in db.series && e.id == r.seriesId && p == JoinedRow(e, r);
    WindowRowsHave(db.samples, db.series, sel, t, r);
    var f :| Chosen(db, sel, t, f, r);
    OneEntry(st, db, e, f);
    forall q | Chosen(db, sel, t, e, q) ensures q.tsUs <= r.tsUs {
      WindowRowsHave(db.samples, db.series, sel, t, q);
    }
    assert ChosenLast(db, sel, t, e, r);
  }

  lemma {:induction false} LatestHasId(st: StringOrder, db: Db, sel: Selection, t: int, p: InstantPoint) returns (id: int)
    requires StrictTotal(st) && GoodDb(db) && IsLatest(db, sel, t, p)
    ensures var rows := WindowRows(db.samples, db.series, sel, t);
      id in Ids(rows) && ByLatest(rows, id) != [] && p in JoinBack(db.series, ByLatest(rows, id)[0])
  {
    var rows := WindowRows(db.samples, db.series, sel, t);
    hide StrictTotal, WindowRows, ByLatest, JoinBack, Selects, InWindow, SeriesKey, Plain;
    assert Db(db.samples, db.series) == db;
    var e, r :| ChosenLast(db, sel, t, e, r) && p == JoinedRow(e, r);
    id := e.id;
    WindowRowsHave(db.samples, db.series, sel, t, r);
    RowOne(rows, id);
    var x := ByLatest(rows, id)[0];
    WindowRowsHave(db.samples, db.series, sel, t, x);
    var f :| Chosen(db, sel, t, f, x);
    OneEntry(st, db, e, f);
    assert x.tsUs == r.tsUs;
    JoinBackHas(db.series, x, p);
  }
}

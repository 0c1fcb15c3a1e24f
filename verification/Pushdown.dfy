/** Aggregation pushed into the relational plan: GROUP BY over label columns for
    `by(...)` and no modifier, GROUP BY over a string key for `without(...)`. */
module Pushdown {
  import opened Orders
  import opened Sorting
  import opened Wrappers
  import opened IngestBuffer
  import opened Vectors
  import opened Aggregate
  import opened StringKeys
  import opened TopKRange
  import opened Selector

  // ---------- the two selections hold the same points ----------

  ghost predicate Once(ps: seq<InstantPoint>) { forall p :: multiset(ps)[p] <= 1 }

  lemma OnceJoin(a: seq<InstantPoint>, b: seq<InstantPoint>)
    requires Once(a) && Once(b) && forall p :: p in a ==> p !in b
    ensures Once(a + b)
  {
    forall p ensures multiset(a + b)[p] <= 1 {
      assert multiset(a + b)[p] == multiset(a)[p] + multiset(b)[p];
      assert p in multiset(a) ==> p in a;
      assert p in multiset(b) ==> p in b;
    }
  }

  lemma {:induction false} KeysOnce(st: StringOrder, rows: seq<InstantPoint>, ks: seq<string>)
    requires StrictTotal(st) && Ascending(ks, st)
    ensures Once(LatestOver(st, rows, ks))
    ensures forall p :: p in LatestOver(st, rows, ks) ==> KeyOf(st, p) in ks
  {
    if ks != [] {
      hide StrictTotal, KeyOf, FirstLatest, Ascending, WithKey;
      StringHeadDistinct(st, ks);
      assert ks == [ks[0]] + ks[1..];
      KeysOnce(st, rows, ks[1..]);
      var mine := WithKey(st, rows, ks[0]);
      if mine != [] {
        WithKeyIn(st, rows, ks[0]);
        FirstLatestIn(mine);
        OnceJoin([FirstLatest(mine)], LatestOver(st, rows, ks[1..]));
      } else {
        assert [] + LatestOver(st, rows, ks[1..]) == LatestOver(st, rows, ks[1..]);
      }
    }
  }

  lemma {:induction false} JoinBackOnce(series: seq<SeriesEntry>, r: Row)
    requires forall i, j :: 0 <= i < j < |series| ==> series[i].id != series[j].id
    ensures |JoinBack(series, r)| <= 1
  {
    if series != [] {
      JoinBackOnce(series[1..], r);
      var rest := JoinBack(series[1..], r);
      if rest != [] {
        JoinBackHas(series[1..], r, rest[0]);
        var e :| e in series[1..] && e.id == r.seriesId && rest[0] == JoinedRow(e, r);
        var i :| 0 <= i < |series[1..]| && series[1..][i] == e;
        assert series[i + 1] == e;
      }
    }
  }

  /** A joined point of an entry with one of these ids. */
  ghost predicate OfIds(series: seq<SeriesEntry>, ids: seq<int>, p: InstantPoint)
  {
    exists e :: e in series && e.id in ids && e.metric == p.metric && e.labels == p.labels
  }

  lemma {:induction false} IdsOnce(db: Db, rows: seq<Row>, ids: seq<int>)
    requires GoodDb(db) && Ascending(ids, IntLess)
    ensures Once(RowNumberOne(rows, db.series, ids))
    ensures forall p :: p in RowNumberOne(rows, db.series, ids) ==> OfIds(db.series, ids, p)
  {
    if ids != [] {
      hide ByLatest, JoinBack, OfIds, GoodDb;
      HeadLeast(ids, IntLess);
      assert ids == [ids[0]] + ids[1..];
      IdsOnce(db, rows, ids[1..]);
      var rest := RowNumberOne(rows, db.series, ids[1..]);
      forall p | p in rest ensures OfIds(db.series, ids, p) {
        WiderIds(db.series, ids, p);
      }
      if ByLatest(rows, ids[0]) != [] {
        var r := ByLatest(rows, ids[0])[0];
        RowOne(rows, ids[0]);
        HeadRow(db, ids, r, rest);
      } else {
        assert [] + rest == rest;
      }
    }
  }

  lemma WiderIds(series: seq<SeriesEntry>, ids: seq<int>, p: InstantPoint)
    requires ids != [] && OfIds(series, ids[1..], p)
    ensures OfIds(series, ids, p)
  {
    assert ids == [ids[0]] + ids[1..];
  }

  lemma HeadRow(db: Db, ids: seq<int>, r: Row, rest: seq<InstantPoint>)
    requires GoodDb(db) && ids != [] && ids[0] !in ids[1..] && r.seriesId == ids[0]
    requires Once(rest) && forall p :: p in rest ==> OfIds(db.series, ids[1..], p)
    ensures Once(JoinBack(db.series, r) + rest)
    ensures forall p :: p in JoinBack(db.series, r) ==> OfIds(db.series, ids, p)
  {
    var head := JoinBack(db.series, r);
    JoinBackOnce(db.series, r);
    hide JoinBack;
    forall p | p in head ensures p !in rest && OfIds(db.series, ids, p) {
      JoinBackHas(db.series, r, p);
      var e :| e in db.series && e.id == r.seriesId && p == JoinedRow(e, r);
      assert ids[0] in ids;
      forall f | f in db.series && f.metric == p.metric && f.labels == p.labels ensures f == e {
      }
    }
    OnceJoin(head, rest);
  }

  lemma SameOnce(a: seq<InstantPoint>, b: seq<InstantPoint>)
    requires Once(a) && Once(b) && forall p :: p in a <==> p in b
    ensures multiset(a) == multiset(b)
  {
    forall p ensures multiset(a)[p] == multiset(b)[p] {
      assert p in multiset(a) <==> p in a;
      assert p in multiset(b) <==> p in b;
    }
  }

  /** The points `instant_selector` returns. */
  function SelectedPoints(st: StringOrder, db: Db, sel: Selection, t: int): seq<InstantPoint>
    requires StrictTotal(st)
  {
    LatestByKey(st, SelectorRows(db.samples, db.series, sel, t))
  }

  /** The loop by series key and the row numbers by series id select the same points. */
  lemma {:induction false} SelectionsAgree(st: StringOrder, db: Db, sel: Selection, t: int)
    requires StrictTotal(st) && GoodDb(db)
    ensures multiset(SelectedPoints(st, db, sel, t)) == multiset(LatestById(db, sel, t))
  {
    hide StrictTotal, GoodDb, SelectorRows, WindowRows, LatestOver, RowNumberOne, IsLatest, KeysOf;
    var rows := SelectorRows(db.samples, db.series, sel, t);
    var ws := WindowRows(db.samples, db.series, sel, t);
    KeysOnce(st, rows, Sorted(KeysOf(st, rows), st));
    IdsOnce(db, ws, Ascend(Ids(ws)));
    forall p ensures p in SelectedPoints(st, db, sel, t) <==> p in LatestById(db, sel, t) {
      LatestByKeyExact(st, db, sel, t, p);
      LatestByIdExact(st, db, sel, t, p);
    }
    SameOnce(SelectedPoints(st, db, sel, t), LatestById(db, sel, t));
  }

  // ---------- GROUP BY label columns ----------

  type Tuple = seq<Option<string>>

  /** The grouping columns of a series. */
  function TupleOf(labels: Vectors.Labels, keys: seq<string>): (r: Tuple)
    ensures |r| == |keys|
  {
    seq(|keys|, i requires 0 <= i < |keys| => ElementAt(labels, keys[i]))
  }

  /** Output labels: the columns that are not NULL. */
  function LabelsOf(keys: seq<string>, tup: Tuple): Vectors.Labels
    requires |keys| == |tup|
  {
    if keys == [] then map[]
    else
      var n := |keys| - 1;
      var before := LabelsOf(keys[..n], tup[..n]);
      if tup[n].Some? then before[keys[n] := tup[n].value] else before
  }

  function TupleValues(ps: seq<InstantPoint>, keys: seq<string>, tup: Tuple): seq<real>
  {
    if ps == [] then []
    else (if TupleOf(ps[0].labels, keys) == tup then [ps[0].value] else []) + TupleValues(ps[1..], keys, tup)
  }

  function AllValues(ps: seq<InstantPoint>): seq<real>
  {
    if ps == [] then [] else [ps[0].value] + AllValues(ps[1..])
  }

  /** A SQL aggregate: NULL over no rows, except that COUNT is zero. */
  function SqlAgg(op: AggOp, vs: seq<real>): Option<real>
  {
    if vs != [] then Some(ApplyAgg(op, vs)) else if op == Count then Some(0.0) else None
  }

  /** The rows of the plan over the latest points; without grouping columns there is
      always one row, and a NULL aggregate is skipped. */
  function PlanBy(ps: seq<InstantPoint>, op: AggOp, keys: seq<string>, t: int): set<InstantPoint>
  {
    if keys == [] then
      match SqlAgg(op, AllValues(ps))
      case None => {}
      case Some(v) => {InstantPoint("", map[], t, v)}
    else set p | p in ps :: TupleRow(ps, op, keys, t, TupleOf(p.labels, keys))
  }

  function TupleRow(ps: seq<InstantPoint>, op: AggOp, keys: seq<string>, t: int, tup: Tuple): InstantPoint
    requires |keys| == |tup|
  {
    InstantPoint("", LabelsOf(keys, tup), t, ApplyAgg(op, TupleValues(ps, keys, tup)))
  }

  lemma {:induction false} TupleLabels(labels: Vectors.Labels, keys: seq<string>)
    ensures LabelsOf(keys, TupleOf(labels, keys)) == Retained(labels, Include(keys))
  {
    if keys != [] {
      var n := |keys| - 1;
      assert TupleOf(labels, keys)[..n] == TupleOf(labels, keys[..n]);
      TupleLabels(labels, keys[..n]);
      assert keys == keys[..n] + [keys[n]];
    }
  }

  lemma TupleTells(a: Vectors.Labels, b: Vectors.Labels, keys: seq<string>)
    ensures TupleOf(a, keys) == TupleOf(b, keys) <==> Retained(a, Include(keys)) == Retained(b, Include(keys))
  {
    var x, y := Retained(a, Include(keys)), Retained(b, Include(keys));
    if TupleOf(a, keys) == TupleOf(b, keys) {
      forall k | k in keys ensures ElementAt(a, k) == ElementAt(b, k) {
        var i :| 0 <= i < |keys| && keys[i] == k;
        assert TupleOf(a, keys)[i] == TupleOf(b, keys)[i];
      }
      assert x == y;
    }
    if x == y {
      forall i | 0 <= i < |keys| ensures ElementAt(a, keys[i]) == ElementAt(b, keys[i]) {
        assert keys[i] in x <==> keys[i] in y;
      }
    }
  }

  /** A group of equal columns is a group of equal retained labels. */
  lemma {:induction false} TupleGroup(ps: seq<InstantPoint>, keys: seq<string>, l: Vectors.Labels)
    ensures TupleValues(ps, keys, TupleOf(l, keys)) == GroupValues(ps, Include(keys), Retained(l, Include(keys)))
  {
    hide TupleOf, Retained;
    if ps != [] {
      TupleGroup(ps[1..], keys, l);
      TupleTells(ps[0].labels, l, keys);
    }
  }

  lemma {:induction false} NoModifierValues(ps: seq<InstantPoint>)
    ensures AllValues(ps) == GroupValues(ps, NoModifier, map[])
    ensures AllValues(ps) == [] <==> ps == []
  {
    if ps != [] {
      NoModifierValues(ps[1..]);
    }
  }

  /** `by(keys)`, or no modifier for no keys. */
  predicate Groups(m: LabelModifier, keys: seq<string>) { m == Include(keys) || (m == NoModifier && keys == []) }

  lemma AggregateHas(lt: LabelOrder, ps: seq<InstantPoint>, op: AggOp, m: LabelModifier, t: int, p: InstantPoint)
    requires StrictTotal(lt)
    ensures p in AggregateInstant(lt, ps, op, m, t) <==>
      p.labels in GroupKeys(ps, m) && p == InstantPoint("", p.labels, t, ApplyAgg(op, GroupValues(ps, m, p.labels)))
  {
    hide StrictTotal, Retained, ApplyAgg, GroupValues;
    var ks := Sorted(GroupKeys(ps, m), lt);
    var out := AggregateInstant(lt, ps, op, m, t);
    if p in out {
      var i :| 0 <= i < |out| && out[i] == p;
      assert ks[i] in ks;
    }
    if p.labels in GroupKeys(ps, m) && p == InstantPoint("", p.labels, t, ApplyAgg(op, GroupValues(ps, m, p.labels))) {
      assert p.labels in ks;
      var i :| 0 <= i < |ks| && ks[i] == p.labels;
      assert out[i] == p;
    }
  }

  /** With grouping columns, the plan's rows are the operator's points. */
  lemma ColumnsAgree(lt: LabelOrder, ps: seq<InstantPoint>, op: AggOp, keys: seq<string>, t: int, p: InstantPoint)
    requires StrictTotal(lt) && keys != []
    ensures p in PlanBy(ps, op, keys, t) <==> p in AggregateInstant(lt, ps, op, Include(keys), t)
  {
    hide StrictTotal, Retained, ApplyAgg, GroupValues, TupleOf, LabelsOf, TupleValues, AggInstantOver;
    AggregateHas(lt, ps, op, Include(keys), t, p);
    forall q | q in ps
      ensures TupleRow(ps, op, keys, t, TupleOf(q.labels, keys))
           == InstantPoint("", Retained(q.labels, Include(keys)), t,
                           ApplyAgg(op, GroupValues(ps, Include(keys), Retained(q.labels, Include(keys)))))
    {
      TupleLabels(q.labels, keys);
      TupleGroup(ps, keys, q.labels);
    }
  }

  lemma WholeKeys(ps: seq<InstantPoint>, m: LabelModifier)
    requires Groups(m, [])
    ensures GroupKeys(ps, m) == if ps == [] then {} else {map[]}
    ensures forall k :: GroupValues(ps, m, k) == GroupValues(ps, NoModifier, k)
  {
    forall l: Vectors.Labels ensures Retained(l, m) == map[] {
    }
    if ps != [] {
      assert ps[0] in ps;
    }
    forall k ensures GroupValues(ps, m, k) == GroupValues(ps, NoModifier, k) {
      SameGrouping(ps, m, k);
    }
  }

  lemma {:induction false} SameGrouping(ps: seq<InstantPoint>, m: LabelModifier, k: Vectors.Labels)
    requires Groups(m, [])
    ensures GroupValues(ps, m, k) == GroupValues(ps, NoModifier, k)
  {
    if ps != [] {
      assert Retained(ps[0].labels, m) == map[];
      hide Retained;
      SameGrouping(ps[1..], m, k);
    }
  }

  /** Without them, up to the row that COUNT gives over nothing. */
  lemma WholeAgree(lt: LabelOrder, ps: seq<InstantPoint>, op: AggOp, m: LabelModifier, t: int, p: InstantPoint)
    requires StrictTotal(lt) && Groups(m, [])
    ensures p in PlanBy(ps, op, [], t)
      <==> p in AggregateInstant(lt, ps, op, m, t) || (ps == [] && op == Count && p == InstantPoint("", map[], t, 0.0))
  {
    hide StrictTotal, ApplyAgg, GroupValues, AllValues, AggInstantOver, GroupKeys;
    AggregateHas(lt, ps, op, m, t, p);
    NoModifierValues(ps);
    WholeKeys(ps, m);
  }

  /** The plan and the operator return the same points over every database and every
      `by(...)` list, unless a count without grouping selects nothing: there the plan
      returns a zero and the operator nothing. */
  lemma AggregatePushdownIff(lt: LabelOrder, st: StringOrder, db: Db, sel: Selection, op: AggOp, m: LabelModifier,
                             keys: seq<string>, t: int)
    requires StrictTotal(lt) && StrictTotal(st) && GoodDb(db) && Groups(m, keys)
    ensures (forall p :: p in PlanBy(LatestById(db, sel, t), op, keys, t)
                    <==> p in AggregateInstant(lt, SelectedPoints(st, db, sel, t), op, m, t))
      <==> !(keys == [] && op == Count && SelectorRows(db.samples, db.series, sel, t) == [])
  {
    var ps, qs := LatestById(db, sel, t), SelectedPoints(st, db, sel, t);
    NothingSelected(st, SelectorRows(db.samples, db.series, sel, t));
    hide StrictTotal, GoodDb, PlanBy, AggregateInstant, LatestById, SelectedPoints, SelectorRows, Groups;
    SelectionsAgree(st, db, sel, t);
    AggregatePermutes(lt, qs, ps, op, m, t);
    SameLength(ps, qs);
    if ps == [] {
      NothingAggregated(lt, op, m, t);
    }
    var zero := InstantPoint("", map[], t, 0.0);
    forall p ensures p in PlanBy(ps, op, keys, t)
      <==> p in AggregateInstant(lt, ps, op, m, t) || (keys == [] && ps == [] && op == Count && p == zero)
    {
      PlanIs(lt, ps, op, m, keys, t, p);
    }
    if keys == [] && ps == [] && op == Count {
      assert zero in PlanBy(ps, op, keys, t) && zero !in AggregateInstant(lt, qs, op, m, t);
    }
  }

  /** Over any selected points: the plan is the operator, but for that one row. */
  lemma PlanIs(lt: LabelOrder, ps: seq<InstantPoint>, op: AggOp, m: LabelModifier, keys: seq<string>, t: int, p: InstantPoint)
    requires StrictTotal(lt) && Groups(m, keys)
    ensures p in PlanBy(ps, op, keys, t)
      <==> p in AggregateInstant(lt, ps, op, m, t)
           || (keys == [] && ps == [] && op == Count && p == InstantPoint("", map[], t, 0.0))
  {
    hide StrictTotal, PlanBy, AggregateInstant;
    if keys == [] {
      WholeAgree(lt, ps, op, m, t, p);
    } else {
      ColumnsAgree(lt, ps, op, keys, t, p);
    }
  }

  lemma NothingAggregated(lt: LabelOrder, op: AggOp, m: LabelModifier, t: int)
    requires StrictTotal(lt)
    ensures AggregateInstant(lt, [], op, m, t) == []
  {
  }

  lemma NothingSelected(st: StringOrder, rows: seq<InstantPoint>)
    requires StrictTotal(st)
    ensures LatestByKey(st, rows) == [] <==> rows == []
  {
    hide StrictTotal, SeriesKey, FirstLatest;
    var ks := Sorted(KeysOf(st, rows), st);
    if rows != [] {
      assert rows[0] in rows;
      assert KeyOf(st, rows[0]) in ks;
      assert ks[0] in ks;
      WithKeyIn(st, rows, ks[0]);
    } else {
      assert ks == [];
    }
  }

  // ---------- GROUP BY a string key ----------

  function KeyedValues(st: StringOrder, ps: seq<InstantPoint>, excluded: seq<string>, key: string): seq<real>
    requires StrictTotal(st)
  {
    if ps == [] then []
    else
      (if WithoutKey(st, ps[0].labels, excluded) == Some(key) then [ps[0].value] else [])
      + KeyedValues(st, ps[1..], excluded, key)
  }

  /** The representative of a key: its series with the least id, the first of the
      points in id order. */
  function FirstWithKey(st: StringOrder, ps: seq<InstantPoint>, excluded: seq<string>, key: string): Option<Vectors.Labels>
    requires StrictTotal(st)
  {
    if ps == [] then None
    else if WithoutKey(st, ps[0].labels, excluded) == Some(key) then Some(ps[0].labels)
    else FirstWithKey(st, ps[1..], excluded, key)
  }

  /** The row of one key; the excluded labels of the representative are stripped. */
  function WithoutRow(st: StringOrder, ps: seq<InstantPoint>, op: AggOp, excluded: seq<string>, t: int, key: string)
    : Option<InstantPoint>
    requires StrictTotal(st)
  {
    match FirstWithKey(st, ps, excluded, key)
    case None => None
    case Some(rep) =>
      Some(InstantPoint("", Retained(rep, Exclude(excluded)), t, ApplyAgg(op, KeyedValues(st, ps, excluded, key))))
  }

  /** The `without` plan; series that get no key are lost in its join. */
  ghost predicate InWithoutPlan(st: StringOrder, ps: seq<InstantPoint>, op: AggOp, excluded: seq<string>, t: int, p: InstantPoint)
    requires StrictTotal(st)
  {
    exists key :: WithoutRow(st, ps, op, excluded, t, key) == Some(p)
  }

  ghost predicate PlainPoints(ps: seq<InstantPoint>) { forall p :: p in ps ==> Plain(p.labels) }

  lemma {:induction false} KeyedGroup(st: StringOrder, ps: seq<InstantPoint>, excluded: seq<string>, l: Vectors.Labels, key: string)
    requires StrictTotal(st) && PlainPoints(ps) && Plain(l) && WithoutKey(st, l, excluded) == Some(key)
    ensures KeyedValues(st, ps, excluded, key) == GroupValues(ps, Exclude(excluded), Retained(l, Exclude(excluded)))
  {
    hide StrictTotal, WithoutKey, Retained, Plain;
    if ps != [] {
      assert ps == [ps[0]] + ps[1..] && ps[0] in ps;
      WithoutKeyGroups(st, ps[0].labels, l, excluded);
      KeyedGroup(st, ps[1..], excluded, l, key);
    }
  }

  lemma {:induction false} FirstHasKey(st: StringOrder, ps: seq<InstantPoint>, excluded: seq<string>, key: string)
    requires StrictTotal(st)
    ensures var r := FirstWithKey(st, ps, excluded, key);
      && (r.Some? ==> WithoutKey(st, r.value, excluded) == Some(key) && exists p :: p in ps && p.labels == r.value)
      && (r.None? ==> forall p :: p in ps ==> WithoutKey(st, p.labels, excluded) != Some(key))
  {
    hide StrictTotal, WithoutKey;
    if ps != [] {
      assert ps == [ps[0]] + ps[1..] && ps[0] in ps;
      FirstHasKey(st, ps[1..], excluded, key);
    }
  }

  lemma WithoutRowIsGroup(st: StringOrder, ps: seq<InstantPoint>, op: AggOp, excluded: seq<string>, t: int,
                          q: InstantPoint, key: string)
    requires StrictTotal(st) && PlainPoints(ps) && q in ps && WithoutKey(st, q.labels, excluded) == Some(key)
    ensures var k := Retained(q.labels, Exclude(excluded));
      WithoutRow(st, ps, op, excluded, t, key)
      == Some(InstantPoint("", k, t, ApplyAgg(op, GroupValues(ps, Exclude(excluded), k))))
  {
    hide StrictTotal, WithoutKey, Retained, Plain, ApplyAgg;
    FirstHasKey(st, ps, excluded, key);
    var rep := FirstWithKey(st, ps, excluded, key).value;
    WithoutKeyGroups(st, rep, q.labels, excluded);
    KeyedGroup(st, ps, excluded, rep, key);
  }

  /** The `without` plan returns the operator's points but for the label-less group. */
  lemma WithoutPlanIsOperator(lt: LabelOrder, st: StringOrder, ps: seq<InstantPoint>, op: AggOp, excluded: seq<string>,
                              t: int, p: InstantPoint)
    requires StrictTotal(lt) && StrictTotal(st) && PlainPoints(ps)
    ensures InWithoutPlan(st, ps, op, excluded, t, p)
      <==> p in AggregateInstant(lt, ps, op, Exclude(excluded), t) && p.labels != map[]
  {
    hide StrictTotal, WithoutKey, Retained, Plain, ApplyAgg, AggInstantOver, WithoutRow;
    var m := Exclude(excluded);
    AggregateHas(lt, ps, op, m, t, p);
    if InWithoutPlan(st, ps, op, excluded, t, p) {
      var key :| WithoutRow(st, ps, op, excluded, t, key) == Some(p);
      var q := RowFrom(st, ps, op, excluded, t, key);
      WithoutRowIsGroup(st, ps, op, excluded, t, q, key);
      WithoutKeyGroups(st, q.labels, q.labels, excluded);
    }
    if p in AggregateInstant(lt, ps, op, m, t) && p.labels != map[] {
      var q :| q in ps && Retained(q.labels, m) == p.labels;
      WithoutKeyGroups(st, q.labels, q.labels, excluded);
      WithoutRowIsGroup(st, ps, op, excluded, t, q, WithoutKey(st, q.labels, excluded).value);
    }
  }

  lemma RowFrom(st: StringOrder, ps: seq<InstantPoint>, op: AggOp, excluded: seq<string>, t: int, key: string)
    returns (q: InstantPoint)
    requires StrictTotal(st) && WithoutRow(st, ps, op, excluded, t, key).Some?
    ensures q in ps && WithoutKey(st, q.labels, excluded) == Some(key)
  {
    hide StrictTotal, WithoutKey;
    FirstHasKey(st, ps, excluded, key);
    q :| q in ps && q.labels == FirstWithKey(st, ps, excluded, key).value;
  }

  /** Over the database: the plan and the operator agree exactly when every selected
      series keeps a label. */
  lemma WithoutPushdownIff(lt: LabelOrder, st: StringOrder, db: Db, sel: Selection, op: AggOp, excluded: seq<string>, t: int)
    requires StrictTotal(lt) && StrictTotal(st) && GoodDb(db)
    ensures (forall p :: InWithoutPlan(st, LatestById(db, sel, t), op, excluded, t, p)
                    <==> p in AggregateInstant(lt, SelectedPoints(st, db, sel, t), op, Exclude(excluded), t))
      <==> forall q :: q in SelectedPoints(st, db, sel, t) ==> Retained(q.labels, Exclude(excluded)) != map[]
  {
    var ps, qs := LatestById(db, sel, t), SelectedPoints(st, db, sel, t);
    var m := Exclude(excluded);
    SelectedPlain(st, db, sel, t);
    hide StrictTotal, GoodDb, AggInstantOver, LatestById, SelectedPoints, Retained, ApplyAgg, GroupValues, InWithoutPlan;
    SelectionsAgree(st, db, sel, t);
    AggregatePermutes(lt, qs, ps, op, m, t);
    forall p ensures InWithoutPlan(st, ps, op, excluded, t, p)
      <==> p in AggregateInstant(lt, qs, op, m, t) && p.labels != map[]
    {
      WithoutPlanIsOperator(lt, st, ps, op, excluded, t, p);
    }
    if q :| q in qs && Retained(q.labels, m) == map[] {
      var p := InstantPoint("", map[], t, ApplyAgg(op, GroupValues(qs, m, map[])));
      AggregateHas(lt, qs, op, m, t, p);
      assert p in AggregateInstant(lt, qs, op, m, t);
    } else {
      forall p | p in AggregateInstant(lt, qs, op, m, t) ensures p.labels != map[] {
        AggregateHas(lt, qs, op, m, t, p);
        var q :| q in qs && Retained(q.labels, m) == p.labels;
      }
    }
  }

  lemma SelectedPlain(st: StringOrder, db: Db, sel: Selection, t: int)
    requires StrictTotal(st) && GoodDb(db)
    ensures PlainPoints(LatestById(db, sel, t))
  {
    hide StrictTotal, LatestById, Selects, InWindow, Plain;
    forall p | p in LatestById(db, sel, t) ensures Plain(p.labels) {
      LatestByIdExact(st, db, sel, t, p);
      var e, r :| ChosenLast(db, sel, t, e, r) && p == JoinedRow(e, r);
    }
  }
}

/** The in-memory accumulator between the write-ahead log and a flush: samples by
    day and series, catalogue entries for series not seen before, and counters. */
module IngestBuffer {
  type Labels = map<string, string>

  datatype Sample = Sample(seriesId: int, metric: string, labels: Labels, tsUs: int, value: real)

  /** A row of the samples table. */
  datatype Row = Row(seriesId: int, tsUs: int, value: real)

  /** What the series table holds about a series id. */
  datatype Meta = Meta(metric: string, labels: Labels)

  /** One write-ahead log record: its sequence number and its samples. */
  datatype Batch = Batch(recordSeq: nat, samples: seq<Sample>)

  const BYTES_PER_SAMPLE: nat := 32
  const US_PER_DAY: int := 86_400_000_000

  // The first and last day chrono represents, as days since 1970-01-01.
  const CHRONO_MIN_DAY: int := -96_465_292
  const CHRONO_MAX_DAY: int := 95_026_236

  /** `day_of_us`: the UTC day of a timestamp, by Euclidean division of its whole
      seconds; day zero when chrono cannot represent it. */
  function DayOf(tsUs: int): int
  {
    var day := (tsUs / 1_000_000) / 86_400;
    if CHRONO_MIN_DAY <= day <= CHRONO_MAX_DAY then day else 0
  }

  predicate Representable(tsUs: int) { CHRONO_MIN_DAY <= tsUs / US_PER_DAY <= CHRONO_MAX_DAY }

  /** The day is the floor of the timestamp over one day, negatives included. */
  lemma DayIsFloor(tsUs: int)
    requires Representable(tsUs)
    ensures DayOf(tsUs) * US_PER_DAY <= tsUs < (DayOf(tsUs) + 1) * US_PER_DAY
  {
  }

  type ByDay = map<int, map<int, seq<(int, real)>>>

  datatype BufState = BufState(byDay: ByDay, newSeries: map<int, Meta>, known: set<int>,
                               bytes: nat, count: nat, maxSeq: nat)

  // ---------- specification of the operations ----------

  function EmptyBuffer(known: set<int>): BufState
  {
    BufState(map[], map[], known, 0, 0, 0)
  }

  function AddPoint(m: ByDay, r: Row): ByDay
  {
    var day := DayOf(r.tsUs);
    var bySeries := if day in m then m[day] else map[];
    var points := if r.seriesId in bySeries then bySeries[r.seriesId] else [];
    m[day := bySeries[r.seriesId := points + [(r.tsUs, r.value)]]]
  }

  function RowOf(s: Sample): Row { Row(s.seriesId, s.tsUs, s.value) }

  function AddOne(b: BufState, s: Sample): BufState
  {
    b.(byDay := AddPoint(b.byDay, RowOf(s)),
       newSeries := if s.seriesId in b.known || s.seriesId in b.newSeries then b.newSeries
                    else b.newSeries[s.seriesId := Meta(s.metric, s.labels)],
       bytes := b.bytes + BYTES_PER_SAMPLE,
       count := b.count + 1)
  }

  function AddAll(b: BufState, ss: seq<Sample>): BufState
    decreases |ss|
  {
    if ss == [] then b else AddAll(AddOne(b, ss[0]), ss[1..])
  }

  function AddBatch(b: BufState, batch: Batch): BufState
  {
    AddAll(b.(maxSeq := if batch.recordSeq > b.maxSeq then batch.recordSeq else b.maxSeq), batch.samples)
  }

  /** The buffer a take leaves behind. */
  function AfterTake(b: BufState): BufState
  {
    EmptyBuffer(b.known + b.newSeries.Keys)
  }

  // ---------- what a buffer holds ----------

  function Flat(bs: seq<Batch>): seq<Sample>
  {
    if bs == [] then [] else Flat(bs[..|bs| - 1]) + bs[|bs| - 1].samples
  }

  function RowsOf(ss: seq<Sample>): (r: seq<Row>)
    ensures |r| == |ss|
  {
    seq(|ss|, i requires 0 <= i < |ss| => RowOf(ss[i]))
  }

  /** How often the day map holds a row. */
  function CountRow(m: ByDay, r: Row): nat
  {
    var day := DayOf(r.tsUs);
    if day in m && r.seriesId in m[day] then multiset(m[day][r.seriesId])[(r.tsUs, r.value)] else 0
  }

  /** Every point lies under its own day, and no day or series is empty. */
  ghost predicate WellPlaced(m: ByDay)
  {
    && (forall d :: d in m ==> m[d] != map[])
    && (forall d, id :: d in m && id in m[d] ==> m[d][id] != [])
    && (forall d, id, i :: d in m && id in m[d] && 0 <= i < |m[d][id]| ==> DayOf(m[d][id][i].0) == d)
  }

  /** Sample `i` is the first of its series. */
  predicate FirstOf(ss: seq<Sample>, i: int)
  {
    0 <= i < |ss| && forall j :: 0 <= j < i ==> ss[j].seriesId != ss[i].seriesId
  }

  /** The buffer holds exactly the samples `ss` on top of the known series: every
      row as often as it was inserted, exact counters, and for each unknown series
      the metadata of its first sample. */
  ghost predicate HoldsSamples(b: BufState, ss: seq<Sample>)
  {
    && WellPlaced(b.byDay)
    && (forall r :: CountRow(b.byDay, r) == multiset(RowsOf(ss))[r])
    && b.count == |ss| && b.bytes == BYTES_PER_SAMPLE * |ss|
    && b.known !! b.newSeries.Keys
    && Tracks(b, ss)
  }

  /** Every series of the samples is known or new, and a new one carries the metadata
      of its first sample. */
  ghost predicate Tracks(b: BufState, ss: seq<Sample>)
  {
    && (forall i :: 0 <= i < |ss| ==> ss[i].seriesId in b.known || ss[i].seriesId in b.newSeries)
    && (forall id :: id in b.newSeries ==> FirstMeta(ss, id, b.newSeries[id]))
  }

  /** The first sample of series `id` carries this metadata. */
  ghost predicate FirstMeta(ss: seq<Sample>, id: int, meta: Meta)
  {
    exists i :: FirstOf(ss, i) && ss[i].seriesId == id && meta == Meta(ss[i].metric, ss[i].labels)
  }

  ghost predicate IsMaxSeq(m: nat, bs: seq<Batch>)
  {
    && (forall i :: 0 <= i < |bs| ==> bs[i].recordSeq <= m)
    && (m == 0 || exists i :: 0 <= i < |bs| && bs[i].recordSeq == m)
  }

  /** The buffer holds exactly the batches inserted since the last take. */
  ghost predicate Holds(b: BufState, bs: seq<Batch>)
  {
    HoldsSamples(b, Flat(bs)) && IsMaxSeq(b.maxSeq, bs)
  }

  // ---------- each operation keeps it exact ----------

  lemma RowsOfAppend(ss: seq<Sample>, s: Sample)
    ensures RowsOf(ss + [s]) == RowsOf(ss) + [RowOf(s)]
  {
  }

  lemma CountAfterAdd(m: ByDay, r: Row, q: Row)
    ensures CountRow(AddPoint(m, r), q) == CountRow(m, q) + (if q == r then 1 else 0)
  {
  }

  lemma FirstMetaExtends(ss: seq<Sample>, more: seq<Sample>, id: int, meta: Meta)
    requires FirstMeta(ss, id, meta)
    ensures FirstMeta(ss + more, id, meta)
  {
    var i :| FirstOf(ss, i) && ss[i].seriesId == id && meta == Meta(ss[i].metric, ss[i].labels);
    assert FirstOf(ss + more, i) && (ss + more)[i] == ss[i];
  }

  lemma AddOneTracks(b: BufState, ss: seq<Sample>, s: Sample)
    requires Tracks(b, ss)
    ensures Tracks(AddOne(b, s), ss + [s])
  {
    var b' := AddOne(b, s);
    forall id | id in b'.newSeries ensures FirstMeta(ss + [s], id, b'.newSeries[id]) {
      if id in b.newSeries {
        FirstMetaExtends(ss, [s], id, b.newSeries[id]);
      } else {
        assert FirstOf(ss + [s], |ss|) && (ss + [s])[|ss|] == s;
      }
    }
  }

  lemma AddPointPlaced(m: ByDay, r: Row)
    requires WellPlaced(m)
    ensures WellPlaced(AddPoint(m, r))
  {
  }

  lemma AddOneHolds(b: BufState, ss: seq<Sample>, s: Sample)
    requires HoldsSamples(b, ss)
    ensures HoldsSamples(AddOne(b, s), ss + [s])
  {
    AddOneTracks(b, ss, s);
    AddPointPlaced(b.byDay, RowOf(s));
    hide Tracks, WellPlaced, AddPoint, CountRow;
    RowsOfAppend(ss, s);
    forall q ensures CountRow(AddOne(b, s).byDay, q) == multiset(RowsOf(ss + [s]))[q] {
      CountAfterAdd(b.byDay, RowOf(s), q);
    }
  }

  lemma {:induction false} AddAllTracks(b: BufState, ss: seq<Sample>, more: seq<Sample>)
    requires Tracks(b, ss)
    ensures Tracks(AddAll(b, more), ss + more)
    decreases more
  {
    hide Tracks, AddOne;
    if more == [] {
      assert ss + more == ss;
    } else {
      AddOneTracks(b, ss, more[0]);
      AddAllTracks(AddOne(b, more[0]), ss + [more[0]], more[1..]);
      assert ss + more == (ss + [more[0]]) + more[1..];
    }
  }

  lemma {:induction false} AddAllHolds(b: BufState, ss: seq<Sample>, more: seq<Sample>)
    requires HoldsSamples(b, ss)
    ensures HoldsSamples(AddAll(b, more), ss + more)
    ensures AddAll(b, more).known == b.known && AddAll(b, more).maxSeq == b.maxSeq
    decreases more
  {
    if more == [] {
      assert ss + more == ss;
    } else {
      AddOneHolds(b, ss, more[0]);
      AddAllHolds(AddOne(b, more[0]), ss + [more[0]], more[1..]);
      assert ss + more == (ss + [more[0]]) + more[1..];
    }
  }

  lemma EmptyHolds(known: set<int>)
    ensures Holds(EmptyBuffer(known), [])
  {
    assert RowsOf([]) == [];
  }

  lemma AddBatchHolds(b: BufState, bs: seq<Batch>, batch: Batch)
    requires Holds(b, bs)
    ensures Holds(AddBatch(b, batch), bs + [batch])
    ensures AddBatch(b, batch).known == b.known
  {
    var bs' := bs + [batch];
    assert bs'[..|bs|] == bs;
    var top := if batch.recordSeq > b.maxSeq then batch.recordSeq else b.maxSeq;
    AddAllHolds(b.(maxSeq := top), Flat(bs), batch.samples);
    if top == batch.recordSeq {
      assert bs'[|bs|].recordSeq == top;
    } else if top != 0 {
      var i :| 0 <= i < |bs| && bs[i].recordSeq == top;
      assert bs'[i].recordSeq == top;
    }
  }

  // ---------- any sequence of inserts and takes ----------

  datatype BufOp = InsertOp(batch: Batch) | TakeOp

  /** The snapshots taken, oldest first, and the buffer that remains. */
  datatype BufRun = BufRun(snaps: seq<BufState>, rest: BufState)

  function RunBuffer(known: set<int>, ops: seq<BufOp>): BufRun
  {
    if ops == [] then BufRun([], EmptyBuffer(known))
    else
      var r := RunBuffer(known, ops[..|ops| - 1]);
      match ops[|ops| - 1]
      case InsertOp(batch) => r.(rest := AddBatch(r.rest, batch))
      case TakeOp => BufRun(r.snaps + [r.rest], AfterTake(r.rest))
  }

  function Inserted(ops: seq<BufOp>): seq<Sample>
  {
    if ops == [] then []
    else
      var before := Inserted(ops[..|ops| - 1]);
      match ops[|ops| - 1]
      case InsertOp(batch) => before + batch.samples
      case TakeOp => before
  }

  /** The batches inserted before each take, oldest first, and then those since the
      last one. */
  function Intervals(ops: seq<BufOp>): (bss: seq<seq<Batch>>)
    ensures |bss| > 0
  {
    if ops == [] then [[]]
    else
      var before := Intervals(ops[..|ops| - 1]);
      match ops[|ops| - 1]
      case InsertOp(batch) => before[|before| - 1 := before[|before| - 1] + [batch]]
      case TakeOp => before + [[]]
  }

  function CountIn(snaps: seq<BufState>, r: Row): nat
  {
    if snaps == [] then 0
    else CountIn(snaps[..|snaps| - 1], r) + CountRow(snaps[|snaps| - 1].byDay, r)
  }

  /** The snapshots, and then the rest. */
  function All(r: BufRun): (a: seq<BufState>)
    ensures |a| == |r.snaps| + 1
  {
    r.snaps + [r.rest]
  }

  /** An unseeded series id is new in at most one snapshot, and known to every later one. */
  ghost predicate NewOnce(known: set<int>, a: seq<BufState>)
  {
    && (forall i :: 0 <= i < |a| ==> a[i].known !! a[i].newSeries.Keys && known <= a[i].known)
    && (forall i, j :: 0 <= i < j < |a| ==> a[i].known + a[i].newSeries.Keys <= a[j].known)
    && (forall i, id :: 0 <= i < |a| && id in a[i].known ==>
          id in known || exists j :: 0 <= j < i && id in a[j].newSeries)
  }

  /** Each snapshot, and the rest, is exact for the batches of its interval. */
  ghost predicate Exact(a: seq<BufState>, bss: seq<seq<Batch>>)
  {
    |a| == |bss| && forall i :: 0 <= i < |a| ==> Holds(a[i], bss[i])
  }

  /** Whatever is emitted as new carries the metadata of the first sample ever inserted
      for its series. */
  ghost predicate FirstEver(a: seq<BufState>, ss: seq<Sample>)
  {
    forall i, id :: 0 <= i < |a| && id in a[i].newSeries ==> FirstMeta(ss, id, a[i].newSeries[id])
  }

  /** The buffer refines a flat log. Over any sequence of inserts and takes the
      snapshots and the residue together hold every inserted row exactly as often
      as it was inserted; every snapshot and the residue is exact for the batches of
      its own interval, counters and highest number included; and each unseeded series
      is emitted in exactly one place, with the metadata first inserted for it. */
  lemma {:induction false} BufferRefinesLog(known: set<int>, ops: seq<BufOp>, row: Row)
    ensures RunHolds(known, ops, row)
  {
    if ops == [] {
      EmptyHolds(known);
      assert RowsOf([]) == [];
    } else {
      BufferRefinesLog(known, ops[..|ops| - 1], row);
      match ops[|ops| - 1]
      case InsertOp(batch) => InsertRefines(known, ops, row);
      case TakeOp => TakeRefines(known, ops, row);
    }
  }

  ghost predicate RunHolds(known: set<int>, ops: seq<BufOp>, row: Row)
  {
    var r := RunBuffer(known, ops);
    && CountIn(r.snaps, row) + CountRow(r.rest.byDay, row) == multiset(RowsOf(Inserted(ops)))[row]
    && Exact(All(r), Intervals(ops))
    && NewOnce(known, All(r))
    && Tracks(r.rest, Inserted(ops)) && FirstEver(All(r), Inserted(ops))
  }

  lemma InsertRefines(known: set<int>, ops: seq<BufOp>, row: Row)
    requires |ops| > 0 && ops[|ops| - 1].InsertOp? && RunHolds(known, ops[..|ops| - 1], row)
    ensures RunHolds(known, ops, row)
  {
    hide Holds, NewOnce, AddBatch, CountRow, FirstMeta, Tracks, RowsOf, Exact, FirstEver;
    var before := ops[..|ops| - 1];
    var batch := ops[|ops| - 1].batch;
    var r := RunBuffer(known, before);
    var rest' := AddBatch(r.rest, batch);
    var a := All(r);
    assert All(RunBuffer(known, ops)) == a[|r.snaps| := rest'];
    InsertExact(a, Intervals(before), batch);
    InsertCounts(r.rest, Intervals(before)[|r.snaps|], batch, row);
    RowsOfConcat(Inserted(before), batch.samples);
    HoldsApart(rest', Intervals(before)[|r.snaps|] + [batch]);
    NewOnceInsert(known, a, rest');
    InsertTracks(r.rest, Inserted(before), batch);
    InsertFirst(a, Inserted(before), batch.samples, rest');
  }

  lemma InsertExact(a: seq<BufState>, bss: seq<seq<Batch>>, batch: Batch)
    requires Exact(a, bss) && |a| > 0
    ensures var n := |a| - 1;
      && |bss| == |a| && Holds(a[n], bss[n])
      && Holds(AddBatch(a[n], batch), bss[n] + [batch]) && AddBatch(a[n], batch).known == a[n].known
      && Exact(a[n := AddBatch(a[n], batch)], bss[n := bss[n] + [batch]])
  {
    hide Holds, AddBatch;
    AddBatchHolds(a[|a| - 1], bss[|a| - 1], batch);
  }

  lemma InsertTracks(b: BufState, ss: seq<Sample>, batch: Batch)
    requires Tracks(b, ss)
    ensures Tracks(AddBatch(b, batch), ss + batch.samples)
  {
    AddAllTracks(b.(maxSeq := if batch.recordSeq > b.maxSeq then batch.recordSeq else b.maxSeq), ss, batch.samples);
  }

  lemma InsertFirst(a: seq<BufState>, ss: seq<Sample>, more: seq<Sample>, rest': BufState)
    requires |a| > 0 && FirstEver(a, ss) && Tracks(rest', ss + more)
    ensures FirstEver(a[|a| - 1 := rest'], ss + more)
  {
    hide FirstMeta;
    var a' := a[|a| - 1 := rest'];
    forall i, id | 0 <= i < |a'| && id in a'[i].newSeries ensures FirstMeta(ss + more, id, a'[i].newSeries[id]) {
      if i < |a| - 1 {
        FirstMetaExtends(ss, more, id, a[i].newSeries[id]);
      }
    }
  }

  lemma HoldsApart(b: BufState, bs: seq<Batch>)
    requires Holds(b, bs)
    ensures b.known !! b.newSeries.Keys
  {
  }

  lemma TakeExact(a: seq<BufState>, bss: seq<seq<Batch>>, known: set<int>)
    requires Exact(a, bss)
    ensures Exact(a + [EmptyBuffer(known)], bss + [[]])
  {
    hide Holds;
    EmptyHolds(known);
  }

  lemma TakeTracks(b: BufState, a: seq<BufState>, ss: seq<Sample>)
    requires Tracks(b, ss) && FirstEver(a, ss)
    ensures Tracks(AfterTake(b), ss) && FirstEver(a + [AfterTake(b)], ss)
  {
    hide FirstMeta;
  }

  lemma CountMore(snaps: seq<BufState>, b: BufState, row: Row)
    ensures CountIn(snaps + [b], row) == CountIn(snaps, row) + CountRow(b.byDay, row)
  {
    assert (snaps + [b])[..|snaps|] == snaps;
  }

  lemma {:induction false} TakeRefines(known: set<int>, ops: seq<BufOp>, row: Row)
    requires |ops| > 0 && ops[|ops| - 1].TakeOp? && RunHolds(known, ops[..|ops| - 1], row)
    ensures RunHolds(known, ops, row)
  {
    hide NewOnce, Exact, FirstEver, Tracks, RowsOf, CountIn;
    var before := ops[..|ops| - 1];
    var r := RunBuffer(known, before);
    assert All(RunBuffer(known, ops)) == All(r) + [AfterTake(r.rest)];
    TakeExact(All(r), Intervals(before), r.rest.known + r.rest.newSeries.Keys);
    TakeTracks(r.rest, All(r), Inserted(before));
    CountMore(r.snaps, r.rest, row);
    NewOnceTake(known, All(r));
  }

  lemma RowsOfConcat(a: seq<Sample>, b: seq<Sample>)
    ensures RowsOf(a + b) == RowsOf(a) + RowsOf(b)
  {
  }

  lemma InsertCounts(b: BufState, bs: seq<Batch>, batch: Batch, row: Row)
    requires Holds(b, bs)
    ensures CountRow(AddBatch(b, batch).byDay, row)
         == CountRow(b.byDay, row) + multiset(RowsOf(batch.samples))[row]
  {
    AddBatchHolds(b, bs, batch);
    assert (bs + [batch])[..|bs|] == bs;
    RowsOfConcat(Flat(bs), batch.samples);
  }

  lemma NewOnceInsert(known: set<int>, a: seq<BufState>, rest': BufState)
    requires |a| > 0 && NewOnce(known, a)
    requires rest'.known == a[|a| - 1].known && rest'.known !! rest'.newSeries.Keys
    ensures NewOnce(known, a[|a| - 1 := rest'])
  {
    var a' := a[|a| - 1 := rest'];
    forall i, id | 0 <= i < |a'| && id in a'[i].known && id !in known
      ensures exists j :: 0 <= j < i && id in a'[j].newSeries
    {
      assert id in a[i].known;
      var j :| 0 <= j < i && id in a[j].newSeries;
      assert a'[j] == a[j];
    }
  }

  lemma NewOnceTake(known: set<int>, a: seq<BufState>)
    requires |a| > 0 && NewOnce(known, a)
    ensures NewOnce(known, a + [AfterTake(a[|a| - 1])])
  {
    var last := a[|a| - 1];
    var a' := a + [AfterTake(last)];
    forall i, id | 0 <= i < |a'| && id in a'[i].known && id !in known
      ensures exists j :: 0 <= j < i && id in a'[j].newSeries
    {
      if i < |a| {
        assert id in a[i].known;
        var j :| 0 <= j < i && id in a[j].newSeries;
        assert a'[j] == a[j];
      } else if id in last.newSeries {
        assert id in a'[|a| - 1].newSeries;
      } else {
        assert id in a[|a| - 1].known;
        var j :| 0 <= j < |a| - 1 && id in a[j].newSeries;
        assert a'[j] == a[j];
      }
    }
  }

  // ---------- the class ----------

  class Buffer {
    var byDay: ByDay
    var newSeries: map<int, Meta>
    var knownSeries: set<int>
    var bytesEstimate: nat
    var sampleCount: nat
    var maxRecordSeq: nat

    /** The buffer's fields as a value. */
    ghost function View(): BufState
      reads this
    {
      BufState(byDay, newSeries, knownSeries, bytesEstimate, sampleCount, maxRecordSeq)
    }

    constructor WithKnownSeries(seed: set<int>)
      ensures View() == EmptyBuffer(seed)
    {
      byDay, newSeries, knownSeries := map[], map[], seed;
      bytesEstimate, sampleCount, maxRecordSeq := 0, 0, 0;
    }

    method InsertBatch(recordSeq: nat, samples: seq<Sample>)
      modifies this
      ensures View() == AddBatch(old(View()), Batch(recordSeq, samples))
    {
      if recordSeq > maxRecordSeq {
        maxRecordSeq := recordSeq;
      }
      var rest := samples;
      while rest != []
        invariant AddAll(View(), rest) == AddBatch(old(View()), Batch(recordSeq, samples))
      {
        InsertOne(rest[0]);
        rest := rest[1..];
      }
    }

    method InsertOne(s: Sample)
      modifies this
      ensures View() == AddOne(old(View()), s)
    {
      var day := DayOf(s.tsUs);
      if s.seriesId !in knownSeries && s.seriesId !in newSeries {
        newSeries := newSeries[s.seriesId := Meta(s.metric, s.labels)];
      }
      var seriesMap := if day in byDay then byDay[day] else map[];
      var points := if s.seriesId in seriesMap then seriesMap[s.seriesId] else [];
      seriesMap := seriesMap[s.seriesId := points + [(s.tsUs, s.value)]];
      byDay := byDay[day := seriesMap];
      bytesEstimate := bytesEstimate + BYTES_PER_SAMPLE;
      sampleCount := sampleCount + 1;
    }

    method Take() returns (snap: BufState)
      modifies this
      ensures snap == old(View())
      ensures View() == AfterTake(old(View()))
    {
      snap := BufState(byDay, newSeries, knownSeries, bytesEstimate, sampleCount, maxRecordSeq);
      knownSeries := knownSeries + newSeries.Keys;
      byDay, newSeries := map[], map[];
      bytesEstimate, sampleCount, maxRecordSeq := 0, 0, 0;
    }
  }
}

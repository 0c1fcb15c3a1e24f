/** The series catalogue over a run: never two rows for one id, and no committed
    sample without a row unless its row is on the way. */
module ProtocolCatalogue {
  import opened WalFormat
  import opened WalLog
  import opened IngestBuffer
  import opened Protocol
  import opened ProtocolLog
  import opened ProtocolTables
  import opened ProtocolDurability

  // ---------- at most one row per series ----------

  ghost predicate HasRow(series: multiset<(int, Meta)>, id: int)
  {
    exists r :: r in series && r.0 == id
  }

  ghost predicate OneRowEach(series: multiset<(int, Meta)>)
  {
    && (forall r :: r in series ==> series[r] == 1)
    && (forall r, q :: r in series && q in series && r.0 == q.0 ==> r == q)
  }

  /** The flight's new series have not reached the table yet. */
  predicate RowsToCome(fl: Flight) { fl.phase != SeriesDone }

  ghost predicate UniqueInv(s: State)
  {
    && OneRowEach(s.series)
    && (s.up ==> forall r :: r in s.series ==> r.0 in s.buf.known)
    && (forall f :: f in s.flights && RowsToCome(s.flights[f]) ==> s.flights[f].snap.newSeries.Keys <= s.buf.known)
    && (forall f, r :: f in s.flights && RowsToCome(s.flights[f]) && r in s.series ==>
          r.0 !in s.flights[f].snap.newSeries)
    && (forall f, g :: f in s.flights && g in s.flights && f != g && RowsToCome(s.flights[f]) && RowsToCome(s.flights[g]) ==>
          s.flights[f].snap.newSeries.Keys !! s.flights[g].snap.newSeries.Keys)
    && (!s.up ==> s.flights == map[])
  }

  lemma CommitRows(series: multiset<(int, Meta)>, m: map<int, Meta>)
    requires OneRowEach(series) && forall r :: r in series ==> r.0 !in m
    ensures OneRowEach(series + multiset(m.Items))
    ensures forall r :: r in series + multiset(m.Items) <==> r in series || (r.0 in m && m[r.0] == r.1)
  {
  }

  lemma NewApartFromKnown(b: BufState, es: seq<Entry>)
    requires Holds(b, Batches(es))
    ensures b.known !! b.newSeries.Keys
  {
  }

  lemma InsertKnown(b: BufState, batch: Batch)
    ensures AddBatch(b, batch).known == b.known
  {
    AddAllKnown(b.(maxSeq := Max(b.maxSeq, batch.recordSeq)), batch.samples);
  }

  lemma {:induction false} AddAllKnown(b: BufState, ss: seq<Sample>)
    ensures AddAll(b, ss).known == b.known
    decreases |ss|
  {
    if ss != [] {
      AddAllKnown(AddOne(b, ss[0]), ss[1..]);
    }
  }

  lemma {:induction false} AddEntriesKnown(b: BufState, es: seq<Entry>)
    ensures AddEntries(b, es).known == b.known
    decreases |es|
  {
    if es != [] {
      InsertKnown(b, es[0].batch);
      AddEntriesKnown(AddBatch(b, es[0].batch), es[1..]);
    }
  }

  lemma CommitSeriesUnique(s: State, f: nat)
    requires UniqueInv(s) && f in s.flights && s.flights[f].phase == SamplesDone && s.up
    ensures UniqueInv(DoCommitSeries(s, f))
  {
    hide OneRowEach;
    CommitRows(s.series, s.flights[f].snap.newSeries);
    var s' := DoCommitSeries(s, f);
    assert forall g :: g in s'.flights && g != f ==> s'.flights[g] == s.flights[g];
    assert !RowsToCome(s'.flights[f]);
  }

  lemma TakeUnique(s: State, f: nat)
    requires UniqueInv(s) && TableInv(s) && s.up && f !in s.flights
    ensures UniqueInv(DoTake(s, f))
  {
    hide OneRowEach, Holds;
    NewApartFromKnown(s.buf, s.buffered);
  }

  lemma {:induction false} ReopenUnique(cfg: Config, s: State)
    requires UniqueInv(s) && !s.up
    ensures UniqueInv(DoReopen(cfg, s, true))
  {
    hide OneRowEach, Recovered, OpenWal;
    AddEntriesKnown(EmptyBuffer(set r | r in s.series :: r.0), Recovered(cfg, s));
  }

  /** Steps that leave the table and the known series alone. */
  lemma FrameUnique(s: State, s': State)
    requires UniqueInv(s) && s'.series == s.series
    requires s'.up ==> s.up && s'.buf.known == s.buf.known
    requires !s'.up ==> s'.flights == map[]
    requires forall f :: f in s'.flights ==> f in s.flights && s'.flights[f].snap == s.flights[f].snap
    requires forall f :: f in s'.flights ==> (RowsToCome(s'.flights[f]) <==> RowsToCome(s.flights[f]))
    ensures UniqueInv(s')
  {
    hide OneRowEach;
  }

  lemma {:induction false} StepUnique(cfg: Config, s: State, ev: Event)
    requires UniqueInv(s) && TableInv(s) && SeedSafe(ev)
    ensures UniqueInv(Step(cfg, s, ev))
  {
    hide UniqueInv, AppendWal, TruncateWal, CrashInAppend, Recovered, OpenWal, TableInv, AddBatch;
    if Enabled(cfg, s, ev) {
      match ev {
        case Append(ss) => FrameUnique(s, DoAppend(cfg, s, ss));
        case Insert(e) =>
          InsertKnown(s.buf, e.batch);
          FrameUnique(s, DoInsert(s, e));
        case Take(f) => TakeUnique(s, f);
        case CommitSamples(f) => FrameUnique(s, DoCommitSamples(s, f));
        case CommitSeries(f) => CommitSeriesUnique(s, f);
        case FlushFails(f) => FrameUnique(s, DoFlushFails(s, f));
        case Truncate(f, stop) => FrameUnique(s, DoTruncate(s, f, stop));
        case Crash(ss, cut) => FrameUnique(s, DoCrash(cfg, s, ss, cut));
        case Reopen(seeded) => ReopenUnique(cfg, s);
      }
    }
  }

  lemma {:induction false} UniqueInvAlways(cfg: Config, evs: seq<Event>)
    requires AllSeedSafe(evs)
    ensures UniqueInv(After(cfg, evs))
  {
    if evs == [] {
    } else {
      var n := |evs| - 1;
      SplitRun(cfg, evs);
      UniqueInvAlways(cfg, evs[..n]);
      TableInvAlways(cfg, evs[..n]);
      StepUnique(cfg, After(cfg, evs[..n]), evs[n]);
    }
  }

  /** When every reopen reads the catalogue, no run leaves two rows for one series
      id in the series table: not with failed flushes, not with overlapping ones,
      not with crashes between the two commits. */
  lemma {:induction false} NoDuplicateSeries(cfg: Config, evs: seq<Event>)
    requires AllSeedSafe(evs)
    ensures OneRowEach(After(cfg, evs).series)
  {
    UniqueInvAlways(cfg, evs);
  }

  // ---------- no committed sample without a row for long ----------

  ghost predicate HasSeries(e: Entry, id: int)
  {
    exists i :: 0 <= i < |e.batch.samples| && e.batch.samples[i].seriesId == id
  }

  /** A flight will still commit a row for the series. */
  ghost predicate FlightRow(s: State, id: int)
  {
    exists f :: f in s.flights && RowsToCome(s.flights[f]) && id in s.flights[f].snap.newSeries
  }

  /** A row for the series waits in the buffer or in the flush in progress. */
  ghost predicate RowPending(s: State, id: int)
  {
    id in s.buf.newSeries || FlightRow(s, id)
  }

  /** A log record that replay recovers carries a sample of the series. */
  ghost predicate LiveRecord(s: State, id: int)
  {
    exists e :: Live(s.log, e) && HasSeries(e, id)
  }

  ghost predicate Sound(s: State) { s.up && !s.failed }

  ghost predicate CatInv(s: State)
  {
    && (Sound(s) ==> forall id :: id in s.buf.known ==> HasRow(s.series, id) || FlightRow(s, id))
    && (forall f, id :: f in s.flights && id in s.flights[f].snap.known ==> HasRow(s.series, id))
    && (forall f, id :: f in s.flights && !RowsToCome(s.flights[f]) && id in s.flights[f].snap.newSeries ==>
          HasRow(s.series, id))
    && (forall e, id :: e in s.commits && HasSeries(e, id) ==> Catalogued(s, id))
  }

  /** The series has a row; or one is pending; or, after a failure or a crash, its
      record is still in the log. */
  ghost predicate Catalogued(s: State, id: int)
  {
    || HasRow(s.series, id)
    || (Sound(s) && RowPending(s, id))
    || (!Sound(s) && LiveRecord(s, id))
  }

  /** Every series of the entries is known to the buffer or new in it. */
  lemma {:induction false} SeriesCovered(b: BufState, es: seq<Entry>, e: Entry, id: int)
    requires Holds(b, Batches(es)) && e in es && HasSeries(e, id)
    ensures id in b.known || id in b.newSeries
  {
    var n := |es| - 1;
    var ss := Flat(Batches(es));
    InFlat(es, e, id);
    var i :| 0 <= i < |ss| && ss[i].seriesId == id;
  }

  lemma {:induction false} InFlat(es: seq<Entry>, e: Entry, id: int)
    requires e in es && HasSeries(e, id)
    ensures exists i :: 0 <= i < |Flat(Batches(es))| && Flat(Batches(es))[i].seriesId == id
  {
    var n := |es| - 1;
    var ss := Flat(Batches(es));
    assert Batches(es)[..n] == Batches(es[..n]);
    var before := Flat(Batches(es[..n]));
    assert ss == before + es[n].batch.samples;
    if e == es[n] {
      var i :| 0 <= i < |e.batch.samples| && e.batch.samples[i].seriesId == id;
      assert ss[|before| + i].seriesId == id;
    } else {
      InFlat(es[..n], e, id);
      var i :| 0 <= i < |before| && before[i].seriesId == id;
      assert ss[i].seriesId == id;
    }
  }

  /** A new series of a buffer comes from one of its entries. */
  lemma NewFromEntry(b: BufState, es: seq<Entry>, id: int)
    requires Holds(b, Batches(es)) && id in b.newSeries
    ensures exists e :: e in es && HasSeries(e, id)
  {
    var ss := Flat(Batches(es));
    assert FirstMeta(ss, id, b.newSeries[id]);
    var i :| FirstOf(ss, i) && ss[i].seriesId == id;
    FromFlat(es, i);
  }

  lemma {:induction false} FromFlat(es: seq<Entry>, i: nat)
    requires i < |Flat(Batches(es))|
    ensures exists e :: e in es && HasSeries(e, Flat(Batches(es))[i].seriesId)
  {
    var n := |es| - 1;
    assert Batches(es)[..n] == Batches(es[..n]);
    var before := Flat(Batches(es[..n]));
    if i < |before| {
      FromFlat(es[..n], i);
      var e :| e in es[..n] && HasSeries(e, before[i].seriesId);
      assert e in es && before[i] == Flat(Batches(es))[i];
    } else {
      assert es[n].batch.samples[i - |before|] == Flat(Batches(es))[i];
      assert es[n] in es;
    }
  }

  /** Whatever has a pending row is still in the log. */
  lemma PendingIsLive(s: State, id: int)
    requires TableInv(s) && MemInv(s) && RowPending(s, id)
    ensures LiveRecord(s, id)
  {
    hide Live, Holds;
    if id in s.buf.newSeries {
      NewFromEntry(s.buf, s.buffered, id);
      var e :| e in s.buffered && HasSeries(e, id);
      assert InMemory(s, e);
    } else {
      var f :| f in s.flights && RowsToCome(s.flights[f]) && id in s.flights[f].snap.newSeries;
      NewFromEntry(s.flights[f].snap, s.flights[f].entries, id);
      var e :| e in s.flights[f].entries && HasSeries(e, id);
      assert InFlight(s, e);
      assert InMemory(s, e);
    }
  }

  /** Steps that leave tables and flights alone and lose no record. */
  lemma QuietStep(s: State, s': State)
    requires CatInv(s)
    requires s'.series == s.series && s'.flights == s.flights && s'.commits == s.commits
    requires s'.up == s.up && s'.failed == s.failed
    requires s'.buf.known == s.buf.known && s.buf.newSeries.Keys <= s'.buf.newSeries.Keys
    requires forall e :: Live(s.log, e) ==> Live(s'.log, e)
    ensures CatInv(s')
  {
    hide Live, HasRow, HasSeries;
    assert forall id :: FlightRow(s', id) <==> FlightRow(s, id);
    assert forall id :: RowPending(s, id) ==> RowPending(s', id);
    forall id | LiveRecord(s, id) ensures LiveRecord(s', id) {
      var e :| Live(s.log, e) && HasSeries(e, id);
    }
  }

  lemma {:induction false} AddAllGrows(b: BufState, ss: seq<Sample>)
    ensures b.newSeries.Keys <= AddAll(b, ss).newSeries.Keys
    decreases |ss|
  {
    if ss != [] {
      AddAllGrows(AddOne(b, ss[0]), ss[1..]);
    }
  }

  lemma TakeCat(s: State, f: nat)
    requires CatInv(s) && TakeSafe(s, Take(f)) && s.up
    ensures CatInv(DoTake(s, f))
  {
    hide HasRow, HasSeries;
    var s' := DoTake(s, f);
    assert s'.flights == map[f := Flight(s.buffered, s.buf, Taken)];
    assert forall id :: !FlightRow(s, id);
    forall id ensures FlightRow(s', id) <==> id in s.buf.newSeries {
      if id in s.buf.newSeries {
        assert f in s'.flights && RowsToCome(s'.flights[f]) && id in s'.flights[f].snap.newSeries;
      }
    }
    assert forall id :: RowPending(s', id) <==> RowPending(s, id);
  }

  lemma {:induction false} CommitSamplesCat(s: State, f: nat)
    requires CatInv(s) && TableInv(s) && MemInv(s) && s.up
    requires f in s.flights && s.flights[f].phase == Taken
    ensures CatInv(DoCommitSamples(s, f))
  {
    hide HasRow, Live, Holds, HasSeries, LiveRecord;
    var s' := DoCommitSamples(s, f);
    assert !s.failed;
    forall id ensures FlightRow(s, id) ==> FlightRow(s', id) {
      if FlightRow(s, id) {
        var g :| g in s.flights && RowsToCome(s.flights[g]) && id in s.flights[g].snap.newSeries;
        assert g in s'.flights && RowsToCome(s'.flights[g]) && id in s'.flights[g].snap.newSeries;
      }
    }
    hide FlightRow;
    forall e, id | e in s'.commits && HasSeries(e, id) ensures Catalogued(s', id) {
      if e in s.commits {
        assert Catalogued(s, id);
      } else {
        assert e in s.flights[f].entries;
        SeriesCovered(s.flights[f].snap, s.flights[f].entries, e, id);
        if id in s.flights[f].snap.newSeries {
          assert FlightRow(s, id);
        }
      }
    }
  }

  lemma CommitSeriesCat(s: State, f: nat)
    requires CatInv(s) && MemInv(s) && s.up
    requires f in s.flights && s.flights[f].phase == SamplesDone
    ensures CatInv(DoCommitSeries(s, f))
  {
    hide HasSeries, Live;
    var s' := DoCommitSeries(s, f);
    var m := s.flights[f].snap.newSeries;
    forall id ensures HasRow(s.series, id) || id in m ==> HasRow(s'.series, id) {
      if HasRow(s.series, id) {
        var r :| r in s.series && r.0 == id;
        assert r in s'.series;
      } else if id in m {
        assert (id, m[id]) in m.Items;
        assert (id, m[id]) in s'.series;
      }
    }
    forall id | FlightRow(s, id) ensures HasRow(s'.series, id) {
      var g :| g in s.flights && RowsToCome(s.flights[g]) && id in s.flights[g].snap.newSeries;
      assert g == f;
    }
    hide HasRow;
    assert forall g :: g in s'.flights ==> s'.flights[g].snap == s.flights[g].snap;
    forall e, id | e in s'.commits && HasSeries(e, id) ensures Catalogued(s', id) {
      assert Catalogued(s, id);
    }
  }

  lemma FlushFailsCat(s: State, f: nat)
    requires CatInv(s) && TableInv(s) && MemInv(s) && s.up && f in s.flights
    ensures CatInv(DoFlushFails(s, f))
  {
    hide HasRow, HasSeries, Live, TableInv;
    var s' := DoFlushFails(s, f);
    assert !s.failed;
    forall e, id | e in s'.commits && HasSeries(e, id) ensures Catalogued(s', id) {
      assert Catalogued(s, id);
      if RowPending(s, id) {
        PendingIsLive(s, id);
        var x :| Live(s.log, x) && HasSeries(x, id);
        assert LiveRecord(s', id);
      }
    }
  }

  /** A truncation runs only in a sound process, where no series relies on the log. */
  lemma TruncateCat(s: State, f: nat, stop: nat)
    requires CatInv(s) && MemInv(s) && s.up && f in s.flights && s.flights[f].phase == SeriesDone
    ensures CatInv(DoTruncate(s, f, stop))
  {
    hide HasRow, HasSeries, Live, TruncateWal;
    var s' := DoTruncate(s, f, stop);
    assert !s.failed;
    assert s'.flights == map[];
    assert forall id :: !FlightRow(s, id);
    forall e, id | e in s'.commits && HasSeries(e, id) ensures Catalogued(s', id) {
      assert Catalogued(s, id);
    }
  }

  lemma CrashCat(cfg: Config, s: State, s': State)
    requires CatInv(s) && TableInv(s) && (s.up ==> MemInv(s))
    requires s'.series == s.series && s'.commits == s.commits && !s'.up && s'.flights == map[]
    requires forall e :: Live(s.log, e) ==> Live(s'.log, e)
    ensures CatInv(s')
  {
    hide HasRow, HasSeries, Live, TableInv, MemInv;
    forall e, id | e in s'.commits && HasSeries(e, id) ensures Catalogued(s', id) {
      assert Catalogued(s, id);
      if Sound(s) && RowPending(s, id) {
        PendingIsLive(s, id);
      }
      if LiveRecord(s, id) {
        var x :| Live(s.log, x) && HasSeries(x, id);
        assert LiveRecord(s', id);
      }
    }
  }

  /** Reopening re-emits the row of every series that has a record and no row. */
  lemma ReopenCat(s: State, s': State)
    requires CatInv(s) && !s.up && TableInv(s')
    requires s'.series == s.series && s'.commits == s.commits && s'.flights == map[] && Sound(s')
    requires s'.buf.known == set r | r in s.series :: r.0
    requires forall e :: e in s'.buffered <==> Live(s.log, e)
    ensures CatInv(s')
  {
    hide Live, Holds;
    forall id | id in s'.buf.known ensures HasRow(s'.series, id) {
      var r :| r in s.series && r.0 == id;
    }
    forall e, id | e in s'.commits && HasSeries(e, id) ensures Catalogued(s', id) {
      assert Catalogued(s, id);
      if LiveRecord(s, id) {
        var x :| Live(s.log, x) && HasSeries(x, id);
        SeriesCovered(s'.buf, s'.buffered, x, id);
      }
    }
  }

  lemma {:induction false} StepCat(cfg: Config, s: State, ev: Event)
    requires LogInv(cfg, s) && TableInv(s) && DurInv(s) && CatInv(s)
    requires Enabled(cfg, s, ev) ==> TornSafe(cfg, s, ev) && TakeSafe(s, ev) && SeedSafe(ev)
    ensures CatInv(Step(cfg, s, ev))
  {
    hide LogInv, TableInv, MemInv, CatInv, Live, AppendWal, CrashInAppend, TruncateWal, Recovered, OpenWal;
    if Enabled(cfg, s, ev) {
      match ev {
        case Append(ss) =>
          AppendLog(cfg, s, ss);
          QuietStep(s, DoAppend(cfg, s, ss));
        case Insert(e) =>
          InsertKnown(s.buf, e.batch);
          AddAllGrows(s.buf.(maxSeq := Max(s.buf.maxSeq, e.batch.recordSeq)), e.batch.samples);
          QuietStep(s, DoInsert(s, e));
        case Take(f) => TakeCat(s, f);
        case CommitSamples(f) => CommitSamplesCat(s, f);
        case CommitSeries(f) => CommitSeriesCat(s, f);
        case FlushFails(f) => FlushFailsCat(s, f);
        case Truncate(f, stop) => TruncateCat(s, f, stop);
        case Crash(ss, cut) =>
          CrashLog(cfg, s, ss, cut);
          CrashCat(cfg, s, DoCrash(cfg, s, ss, cut));
        case Reopen(seeded) =>
          RecoveredIsLive(cfg, s);
          StepTable(cfg, s, ev);
          AddEntriesKnown(EmptyBuffer(set r | r in s.series :: r.0), Recovered(cfg, s));
          ReopenCat(s, DoReopen(cfg, s, seeded));
      }
    }
  }

  lemma {:induction false} CatInvAlways(cfg: Config, evs: seq<Event>)
    requires AllTornSafe(cfg, evs) && AllTakeSafe(cfg, evs) && AllSeedSafe(evs)
    ensures CatInv(After(cfg, evs))
  {
    if evs != [] {
      var n := |evs| - 1;
      SplitRun(cfg, evs);
      DurInvAlways(cfg, evs[..n]);
      CatInvAlways(cfg, evs[..n]);
      StepCat(cfg, After(cfg, evs[..n]), evs[n]);
    }
  }

  /** Catalogue integrity. Under the hypotheses of crash durability, and when every
      reopen reads the catalogue: the series of every committed sample has a row,
      or its row is pending in the buffer or the flush in progress, or, after a
      failed flush or a crash, replay of the log will emit it again. */
  lemma {:induction false} CommittedSamplesCatalogued(cfg: Config, evs: seq<Event>, e: Entry, i: nat)
    requires AllTornSafe(cfg, evs) && AllTakeSafe(cfg, evs) && AllSeedSafe(evs)
    requires e in After(cfg, evs).commits && i < |e.batch.samples|
    ensures var s := After(cfg, evs);
      var id := e.batch.samples[i].seriesId;
      || HasRow(s.series, id)
      || (Sound(s) && RowPending(s, id))
      || (!Sound(s) && exists x :: x in Recovered(cfg, s) && HasSeries(x, id))
  {
    var s := After(cfg, evs);
    CatInvAlways(cfg, evs);
    LogInvAlways(cfg, evs);
    RecoveredIsLive(cfg, s);
    hide Live, After, Recovered, AllTornSafe, AllTakeSafe, LogInv;
    var id := e.batch.samples[i].seriesId;
    assert HasSeries(e, id);
    assert Catalogued(s, id);
    if LiveRecord(s, id) {
      var x :| Live(s.log, x) && HasSeries(x, id);
      assert x in Recovered(cfg, s);
    }
  }
}

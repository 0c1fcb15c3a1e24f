/** Why the catalogue must be readable at a reopen: a run that seeds nothing writes a
    second row for a series, with no overlap and no failed flush. */
module ProtocolSeedWitness {
  import opened WalLog
  import opened IngestBuffer
  import opened Protocol
  import opened ProtocolLog
  import opened ProtocolTables
  import opened ProtocolCatalogue
  import opened ProtocolWitness

  lemma FirstIsNew(batch: Batch)
    requires batch.samples != []
    ensures batch.samples[0].seriesId in AddBatch(EmptyBuffer({}), batch).newSeries
  {
    EmptyHolds({});
    AddBatchHolds(EmptyBuffer({}), [], batch);
    var b := AddBatch(EmptyBuffer({}), batch);
    assert Flat([] + [batch]) == batch.samples;
    assert HoldsSamples(b, batch.samples);
    hide AddBatch;
    assert batch.samples[0].seriesId in b.known || batch.samples[0].seriesId in b.newSeries;
  }

  lemma ItemsHaveRow(series: multiset<(int, Meta)>, m: map<int, Meta>, id: int)
    requires id in m
    ensures HasRow(series + multiset(m.Items), id)
  {
    assert (id, m[id]) in m.Items;
    assert (id, m[id]) in series + multiset(m.Items);
  }

  /** One more row for a series that has one is one too many. */
  lemma SecondRow(series: multiset<(int, Meta)>, m: map<int, Meta>, id: int)
    requires HasRow(series, id) && id in m
    ensures !OneRowEach(series + multiset(m.Items))
  {
    var r :| r in series && r.0 == id;
    var q := (id, m[id]);
    assert q in m.Items;
    var all := series + multiset(m.Items);
    assert r in all && q in all;
    assert r == q ==> all[r] >= 2;
  }

  /** What a reopen without a seed buffers: every live entry, its series all new. */
  lemma {:induction false} UnseededBuffer(cfg: Config, s: State, e: Entry, id: int)
    requires LogInv(cfg, s) && !s.up && Live(s.log, e) && HasSeries(e, id)
    requires TableInv(DoReopen(cfg, s, false))
    ensures var s' := DoReopen(cfg, s, false); id in s'.buf.newSeries && s'.buf.count > 0
  {
    hide LogInv, Live, Recovered, Holds, HasSeries;
    var s' := DoReopen(cfg, s, false);
    RecoveredIsLive(cfg, s);
    AddEntriesKnown(EmptyBuffer({}), s'.buffered);
    SeriesCovered(s'.buf, s'.buffered, e, id);
    InFlat(s'.buffered, e, id);
    CountedAll(s'.buf, s'.buffered);
  }

  lemma CountedAll(b: BufState, es: seq<Entry>)
    requires Holds(b, Batches(es))
    ensures b.count == |Flat(Batches(es))|
  {
  }

  lemma {:induction false} UnseededReopenDuplicates(cfg: Config, a: seq<Sample>) returns (evs: seq<Event>)
    requires TwoBatches(cfg, a, a)
    ensures Run(cfg, evs, NoOverlap, NoFailure)
    ensures !OneRowEach(After(cfg, evs).series)
  {
    hide Run, FreshFile, LogInv, Live, Recovered, After, AddBatch, OneRowEach, HasRow, Holds, DoReopen, TornSafe;
    var h, k := NoOverlap, NoFailure;
    var id, e := a[0].seriesId, NthEntry(1, a);
    var evs1 := TakeFirst(cfg, a, a, h, k);
    FreshUp(cfg, After(cfg, evs1));
    var evs3 := GoCommit(cfg, evs1, 0, h, k);
    var s1, s3 := After(cfg, evs1), After(cfg, evs3);
    FirstIsNew(e.batch);
    ItemsHaveRow(s1.series, s1.flights[0].snap.newSeries, id);
    var evs5 := GoRestart(cfg, evs3, a, e, id, h, k);
    var s5 := After(cfg, evs5);
    GoTake(cfg, evs5, 0, h, k);
    evs := GoCommit(cfg, evs5 + [Take(0)], 0, h, k);
    SecondRow(s5.series, s5.buf.newSeries, id);
  }

  /** Flush `f` commits both tables. */
  lemma {:induction false} GoCommit(cfg: Config, evs: seq<Event>, f: nat, h: State -> bool, k: State -> bool) returns (evs': seq<Event>)
    requires Run(cfg, evs, h, k)
    requires var s := After(cfg, evs); s.up && f in s.flights && s.flights[f].phase == Taken
    ensures Run(cfg, evs', h, k)
    ensures var s, s' := After(cfg, evs), After(cfg, evs');
      && s'.up && s'.wal == s.wal && s'.log == s.log && s'.failed == s.failed
      && s'.series == s.series + multiset(s.flights[f].snap.newSeries.Items)
  {
    hide Run;
    Go(cfg, evs, CommitSamples(f), h, k);
    var evs1 := evs + [CommitSamples(f)];
    Go(cfg, evs1, CommitSeries(f), h, k);
    evs' := evs1 + [CommitSeries(f)];
  }

  /** A crash and a reopen that cannot read the catalogue. */
  lemma {:induction false} GoRestart(cfg: Config, evs: seq<Event>, ss: seq<Sample>, e: Entry, id: int, h: State -> bool, k: State -> bool)
    returns (evs': seq<Event>)
    requires Run(cfg, evs, h, k) && Storable(cfg.codec, ss)
    requires After(cfg, evs).up && Live(After(cfg, evs).log, e) && HasSeries(e, id)
    ensures Run(cfg, evs', h, k)
    ensures var s' := After(cfg, evs');
      && s'.up && s'.flights == map[] && !s'.failed && s'.series == After(cfg, evs).series
      && s'.buf.count > 0 && id in s'.buf.newSeries
  {
    hide Run, Live, HasSeries, Recovered, AddEntries, OpenWal, CrashInAppend, TableInv, LogInv, After;
    var s := After(cfg, evs);
    RunLog(cfg, evs, h, k);
    var crash := Crash(ss, 0);
    OpenLog(cfg, s);
    CrashLog(cfg, s, ss, 0);
    Go(cfg, evs, crash, h, k);
    var evs1 := evs + [crash];
    var s1 := After(cfg, evs1);
    Go(cfg, evs1, Reopen(false), h, k);
    evs' := evs1 + [Reopen(false)];
    TableInvAlways(cfg, evs');
    UnseededBuffer(cfg, s1, e, id);
  }

  lemma {:induction false} RunLog(cfg: Config, evs: seq<Event>, h: State -> bool, k: State -> bool)
    requires Run(cfg, evs, h, k)
    ensures LogInv(cfg, After(cfg, evs))
  {
    LogInvAlways(cfg, evs);
  }

  lemma OpenLog(cfg: Config, s: State)
    requires LogInv(cfg, s)
    ensures Open(s.wal)
  {
  }
}

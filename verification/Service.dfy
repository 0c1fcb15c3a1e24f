/** The ingest service: one writer, one buffer and two tables, driven by calls that
    run to their end. Each call is proved against a function of the service's
    state, and each function against the steps of the protocol it stands for. */
module Service {
  import opened Bytes
  import opened Wrappers
  import opened WalFormat
  import opened WalLog
  import opened WalWriter
  import opened IngestBuffer
  import opened Flush
  import opened Protocol

  const FLUSH_SIZE_BYTES: nat := 64 * 1024 * 1024

  datatype ServiceState = ServiceState(wal: Wal, buf: BufState, table: multiset<Row>, series: multiset<(int, Meta)>)

  datatype FlushOutcome = BothCommit | SamplesFail | SeriesFail

  datatype ServiceError = WalAppend(error: WalError) | FlushSamplesFailed | FlushSeriesFailed

  // ---------- specification of the calls ----------

  /** Inserting the replayed records; a payload that does not decode is skipped. */
  function AddRecords(c: Codec, b: BufState, rs: seq<WalRecord>): BufState
    decreases |rs|
  {
    if rs == [] then b
    else
      match c.dec(rs[0].payload)
      case None => AddRecords(c, b, rs[1..])
      case Some(ss) => AddRecords(c, AddBatch(b, Batch(rs[0].recordSeq, ss)), rs[1..])
  }

  function Decoded(c: Codec, rs: seq<WalRecord>): nat
    decreases |rs|
  {
    if rs == [] then 0 else (if c.dec(rs[0].payload).Some? then 1 else 0) + Decoded(c, rs[1..])
  }

  /** The seed: the ids in the catalogue, or none when it cannot be read. */
  function Seed(series: multiset<(int, Meta)>, readable: bool): set<int>
  {
    if readable then set r | r in series :: r.0 else {}
  }

  function OpenService(cfg: Config, files: map<nat, seq<byte>>, table: multiset<Row>,
                       series: multiset<(int, Meta)>, readable: bool): ServiceState
  {
    var w := OpenWal(files, cfg.rotation);
    ServiceState(w, AddRecords(cfg.codec, EmptyBuffer(Seed(series, readable)), ReplayWal(cfg.crc, w)), table, series)
  }

  function AppendService(cfg: Config, v: ServiceState, ss: seq<Sample>): ServiceState
    requires Open(v.wal)
  {
    v.(wal := AppendWal(cfg.crc, v.wal, cfg.codec.enc(ss)), buf := AddBatch(v.buf, Batch(v.wal.nextSeq, ss)))
  }

  function FlushService(v: ServiceState, o: FlushOutcome): ServiceState
  {
    var taken := v.(buf := AfterTake(v.buf));
    if o == SamplesFail then taken
    else
      var written := taken.(table := v.table + multiset(AllRows(FlushFiles(v.buf.byDay))));
      if o == SeriesFail then written
      else written.(series := v.series + multiset(v.buf.newSeries.Items),
                    wal := if v.buf.maxSeq > 0 then TruncateAll(v.wal, v.buf.maxSeq) else v.wal)
  }

  // ---------- the calls are runs of the protocol ----------

  function StateView(s: State): ServiceState { ServiceState(s.wal, s.buf, s.table, s.series) }

  /** `evs` one after another, each of them enabled. */
  ghost predicate Steps(cfg: Config, s: State, evs: seq<Event>, s': State)
    decreases |evs|
  {
    if evs == [] then s' == s else Enabled(cfg, s, evs[0]) && Steps(cfg, Step(cfg, s, evs[0]), evs[1..], s')
  }

  /** An append call is an append step and the insert step of the same batch. */
  lemma AppendIsSteps(cfg: Config, s: State, ss: seq<Sample>) returns (s': State)
    requires Enabled(cfg, s, Append(ss))
    ensures Steps(cfg, s, [Append(ss), Insert(Entry(s.nextId, Batch(s.wal.nextSeq, ss)))], s')
    ensures StateView(s') == AppendService(cfg, StateView(s), ss)
  {
    hide AppendWal, AddBatch;
    var e := Entry(s.nextId, Batch(s.wal.nextSeq, ss));
    var evs := [Append(ss), Insert(e)];
    var s1 := Step(cfg, s, evs[0]);
    s' := Step(cfg, s1, evs[1]);
    assert evs[1..] == [Insert(e)];
    assert Steps(cfg, s1, [Insert(e)], s') by {
      assert [Insert(e)][1..] == [];
    }
  }

  /** The steps of a flush call by how it ends. */
  function FlushEvents(s: State, f: nat, o: FlushOutcome): seq<Event>
  {
    match o
    case SamplesFail => [Take(f), FlushFails(f)]
    case SeriesFail => [Take(f), CommitSamples(f), FlushFails(f)]
    case BothCommit => [Take(f), CommitSamples(f), CommitSeries(f), Truncate(f, s.wal.fileSeq)]
  }

  lemma {:induction false} StepsFirst(cfg: Config, s: State, ev: Event, rest: seq<Event>, s': State)
    requires Enabled(cfg, s, ev) && Steps(cfg, Step(cfg, s, ev), rest, s')
    ensures Steps(cfg, s, [ev] + rest, s')
  {
    assert ([ev] + rest)[1..] == rest;
  }

  lemma TruncateBelowCurrent(w: Wal, through: nat)
    requires forall f :: f in w.files ==> f <= w.fileSeq
    ensures TruncateWal(w, through, w.fileSeq) == TruncateAll(w, through)
  {
  }

  /** A flush call is take, the commits that succeed, and truncation or failure. */
  lemma FlushIsSteps(cfg: Config, s: State, f: nat, o: FlushOutcome) returns (s': State)
    requires s.up && s.buf.count > 0 && f !in s.flights
    requires forall g :: g in s.wal.files ==> g <= s.wal.fileSeq
    ensures Steps(cfg, s, FlushEvents(s, f, o), s')
    ensures StateView(s') == FlushService(StateView(s), o)
  {
    hide Step, Steps, FlushService, StateView, DoTake;
    var s1 := Step(cfg, s, Take(f));
    TakeStep(cfg, s, f);
    match o {
      case SamplesFail =>
        s' := FailStep(cfg, s1, f);
        StepsFirst(cfg, s, Take(f), [FlushFails(f)], s');
        assert [Take(f)] + [FlushFails(f)] == FlushEvents(s, f, o);
        SamplesFailView(s, s', f);
      case SeriesFail =>
        var s2 := SamplesStep(cfg, s1, f);
        s' := FailStep(cfg, s2, f);
        StepsFirst(cfg, s1, CommitSamples(f), [FlushFails(f)], s');
        StepsFirst(cfg, s, Take(f), [CommitSamples(f)] + [FlushFails(f)], s');
        assert [Take(f)] + ([CommitSamples(f)] + [FlushFails(f)]) == FlushEvents(s, f, o);
        SeriesFailView(s, s', f);
      case BothCommit =>
        s' := BothCommitSteps(cfg, s, s1, f);
        TruncateBelowCurrent(s.wal, s.buf.maxSeq);
        BothCommitView(s, s', f);
    }
  }

  lemma BothCommitSteps(cfg: Config, s: State, s1: State, f: nat) returns (s': State)
    requires Enabled(cfg, s, Take(f)) && s1 == Step(cfg, s, Take(f)) == DoTake(s, f)
    requires s1.up && f in s1.flights && s1.flights[f].phase == Taken
    ensures Steps(cfg, s, FlushEvents(s, f, BothCommit), s')
    ensures s' == DoTruncate(DoCommitSeries(DoCommitSamples(s1, f), f), f, s.wal.fileSeq)
  {
    hide Enabled, Step, Steps, DoTake, DoCommitSamples, DoCommitSeries, DoTruncate;
    var last := Truncate(f, s.wal.fileSeq);
    var s2 := SamplesStep(cfg, s1, f);
    var s3 := SeriesStep(cfg, s2, f);
    s' := TruncateStep(cfg, s3, f, s.wal.fileSeq);
    StepsFirst(cfg, s2, CommitSeries(f), [last], s');
    StepsFirst(cfg, s1, CommitSamples(f), [CommitSeries(f)] + [last], s');
    StepsFirst(cfg, s, Take(f), [CommitSamples(f)] + ([CommitSeries(f)] + [last]), s');
    assert [Take(f)] + ([CommitSamples(f)] + ([CommitSeries(f)] + [last])) == FlushEvents(s, f, BothCommit);
  }

  lemma TakeStep(cfg: Config, s: State, f: nat)
    requires s.up && s.buf.count > 0 && f !in s.flights
    ensures Enabled(cfg, s, Take(f)) && Step(cfg, s, Take(f)) == DoTake(s, f)
    ensures var s1 := DoTake(s, f);
      s1.up && f in s1.flights && s1.flights[f].phase == Taken && s1.flights[f].snap == s.buf && s1.wal == s.wal
  {
  }

  lemma OneStep(cfg: Config, s: State, ev: Event)
    requires Enabled(cfg, s, ev)
    ensures Steps(cfg, s, [ev], Step(cfg, s, ev))
  {
    assert [ev][1..] == [];
  }

  lemma FailStep(cfg: Config, s: State, f: nat) returns (s': State)
    requires s.up && f in s.flights && s.flights[f].phase != SeriesDone
    ensures s' == DoFlushFails(s, f) && Steps(cfg, s, [FlushFails(f)], s')
  {
    s' := DoFlushFails(s, f);
    OneStep(cfg, s, FlushFails(f));
  }

  lemma SamplesStep(cfg: Config, s: State, f: nat) returns (s': State)
    requires s.up && f in s.flights && s.flights[f].phase == Taken
    ensures Enabled(cfg, s, CommitSamples(f)) && s' == Step(cfg, s, CommitSamples(f)) == DoCommitSamples(s, f)
    ensures s'.up && f in s'.flights && s'.flights[f] == s.flights[f].(phase := SamplesDone) && s'.wal == s.wal
  {
    s' := DoCommitSamples(s, f);
  }

  lemma SeriesStep(cfg: Config, s: State, f: nat) returns (s': State)
    requires s.up && f in s.flights && s.flights[f].phase == SamplesDone
    ensures Enabled(cfg, s, CommitSeries(f)) && s' == Step(cfg, s, CommitSeries(f)) == DoCommitSeries(s, f)
    ensures s'.up && f in s'.flights && s'.flights[f] == s.flights[f].(phase := SeriesDone) && s'.wal == s.wal
  {
    s' := DoCommitSeries(s, f);
  }

  lemma TruncateStep(cfg: Config, s: State, f: nat, stop: nat) returns (s': State)
    requires s.up && f in s.flights && s.flights[f].phase == SeriesDone
    ensures s' == DoTruncate(s, f, stop) && Steps(cfg, s, [Truncate(f, stop)], s')
  {
    s' := DoTruncate(s, f, stop);
    OneStep(cfg, s, Truncate(f, stop));
  }

  lemma SamplesFailView(s: State, s': State, f: nat)
    requires s' == DoFlushFails(DoTake(s, f), f)
    ensures StateView(s') == FlushService(StateView(s), SamplesFail)
  {
  }

  lemma SeriesFailView(s: State, s': State, f: nat)
    requires s' == DoFlushFails(DoCommitSamples(DoTake(s, f), f), f)
    ensures StateView(s') == FlushService(StateView(s), SeriesFail)
  {
    hide FlushFiles, AllRows;
  }

  lemma {:induction false} BothCommitView(s: State, s': State, f: nat)
    requires TruncateWal(s.wal, s.buf.maxSeq, s.wal.fileSeq) == TruncateAll(s.wal, s.buf.maxSeq)
    requires s' == DoTruncate(DoCommitSeries(DoCommitSamples(DoTake(s, f), f), f), f, s.wal.fileSeq)
    ensures StateView(s') == FlushService(StateView(s), BothCommit)
  {
    hide FlushFiles, AllRows, TruncateWal, TruncateAll;
  }

  /** Tagging records with ids does not change what replay puts into the buffer. */
  lemma {:induction false} TagAdds(c: Codec, b: BufState, rs: seq<WalRecord>, es: seq<Entry>)
    ensures AddEntries(b, Tag(c, rs, es)) == AddRecords(c, b, rs)
    decreases |rs|
  {
    hide AddBatch;
    if rs != [] {
      var es' := if es == [] then [] else es[1..];
      match c.dec(rs[0].payload)
      case None => TagAdds(c, b, rs[1..], es');
      case Some(ss) =>
        TagAdds(c, AddBatch(b, Batch(rs[0].recordSeq, ss)), rs[1..], es');
        assert Tag(c, rs, es)[1..] == Tag(c, rs[1..], es');
    }
  }

  lemma {:induction false} AddEntriesConcat(b: BufState, a: seq<Entry>, d: seq<Entry>)
    ensures AddEntries(b, a + d) == AddEntries(AddEntries(b, a), d)
    decreases |a|
  {
    hide AddBatch;
    if a == [] {
      assert a + d == d;
    } else {
      AddEntriesConcat(AddBatch(b, a[0].batch), a[1..], d);
      assert (a + d)[1..] == a[1..] + d;
    }
  }

  lemma {:induction false} AddRecordsConcat(c: Codec, b: BufState, a: seq<WalRecord>, d: seq<WalRecord>)
    ensures AddRecords(c, b, a + d) == AddRecords(c, AddRecords(c, b, a), d)
    decreases |a|
  {
    hide AddBatch;
    if a == [] {
      assert a + d == d;
    } else {
      assert (a + d)[1..] == a[1..] + d;
      match c.dec(a[0].payload)
      case None => AddRecordsConcat(c, b, a[1..], d);
      case Some(ss) => AddRecordsConcat(c, AddBatch(b, Batch(a[0].recordSeq, ss)), a[1..], d);
    }
  }

  lemma {:induction false} TagFilesAdds(cfg: Config, b: BufState, files: map<nat, seq<byte>>,
                                        log: map<nat, seq<Entry>>, ks: seq<nat>)
    requires forall f :: f in ks ==> f in files
    ensures AddEntries(b, TagFiles(cfg, files, log, ks)) == AddRecords(cfg.codec, b, Replay(cfg.crc, files, ks))
    decreases |ks|
  {
    if ks != [] {
      hide Parse, AddBatch, AddRecords, AddEntries, Tag;
      var es := if ks[0] in log then log[ks[0]] else [];
      var rs := Recs(cfg.crc, files, ks[0]);
      TagAdds(cfg.codec, b, rs, es);
      var b' := AddRecords(cfg.codec, b, rs);
      TagFilesAdds(cfg, b', files, log, ks[1..]);
      AddEntriesConcat(b, Tag(cfg.codec, rs, es), TagFiles(cfg, files, log, ks[1..]));
      AddRecordsConcat(cfg.codec, b, rs, Replay(cfg.crc, files, ks[1..]));
    }
  }

  /** Opening the log creates at most one empty file, which replay reads as nothing. */
  lemma OpenKeepsReplay(crc: Crc, files: map<nat, seq<byte>>, rotation: nat)
    ensures ReplayWal(crc, OpenWal(files, rotation)) == Replay(crc, files, FileList(files))
  {
    var w := OpenWal(files, rotation);
    if files == map[] {
      var ks := FileList(w.files);
      assert ks[0] in w.files;
      assert w.files[ks[0]] == [] && ks[1..] == [];
      ReplayNil(crc, w.files);
      ReplayCons(crc, w.files, ks);
      assert Parse(crc, []) == Parsed([], Clean);
      assert FileList(files) == [];
    } else {
      var ks := FileList(files);
      assert ks[|ks| - 1] in files;
    }
  }

  /** A restart is the reopen step: the same log, and the same buffer from the
      same records. */
  lemma OpenIsStep(cfg: Config, s: State, readable: bool)
    requires !s.up && s.wal.rotation == cfg.rotation
    ensures Enabled(cfg, s, Reopen(readable))
    ensures StateView(Step(cfg, s, Reopen(readable))) == OpenService(cfg, s.wal.files, s.table, s.series, readable)
  {
    hide OpenWal, AddEntries, AddRecords, TagFiles, Replay, FileList;
    OpenKeepsReplay(cfg.crc, s.wal.files, cfg.rotation);
    TagFilesAdds(cfg, EmptyBuffer(Seed(s.series, readable)), s.wal.files, s.log, FileList(s.wal.files));
  }

  // ---------- the class ----------

  class IngestService {
    const cfg: Config
    const wal: WalWriter
    const buffer: Buffer
    var samplesTable: multiset<Row>
    var seriesTable: multiset<(int, Meta)>
    var notified: bool

    ghost predicate Valid()
      reads this, wal, wal.dir
    {
      wal.Valid() && wal.crc == cfg.crc
    }

    /** The service as a value. */
    ghost function View(): ServiceState
      reads this, wal, wal.dir, buffer
    {
      ServiceState(wal.View(), buffer.View(), samplesTable, seriesTable)
    }

    /** Seeds the buffer from the catalogue, opens the log, replays it. */
    constructor Open(cfg: Config, dir: WalDir, table: multiset<Row>, series: multiset<(int, Meta)>, readable: bool)
      modifies dir
      ensures Valid() && this.cfg == cfg && wal.dir == dir && fresh(wal) && fresh(buffer)
      ensures View() == OpenService(cfg, old(dir.files), table, series, readable)
    {
      var w := new WalWriter.OpenWithRotation(cfg.crc, dir, cfg.rotation);
      var b := new Buffer.WithKnownSeries(Seed(series, readable));
      this.cfg, wal, buffer := cfg, w, b;
      samplesTable, seriesTable, notified := table, series, false;
      new;
      var _ := ReplayLog();
    }

    method ReplayLog() returns (n: nat)
      requires Valid()
      modifies buffer
      ensures Valid() && wal.View() == old(wal.View())
      ensures buffer.View() == AddRecords(cfg.codec, old(buffer.View()), ReplayWal(cfg.crc, wal.View()))
      ensures n == Decoded(cfg.codec, ReplayWal(cfg.crc, wal.View()))
    {
      hide AddBatch, Parse, Replay, FileList;
      var iter := new WalIter.Open(wal.crc, wal.dir);
      n := 0;
      while true
        invariant iter.Valid() && fresh(iter) && wal.View() == old(wal.View())
        invariant AddRecords(cfg.codec, buffer.View(), iter.Rest())
               == AddRecords(cfg.codec, old(buffer.View()), ReplayWal(cfg.crc, wal.View()))
        invariant n + Decoded(cfg.codec, iter.Rest()) == Decoded(cfg.codec, ReplayWal(cfg.crc, wal.View()))
        decreases |iter.Rest()|
      {
        ghost var rest := iter.Rest();
        var rec := iter.Next();
        match rec
        case None => break;
        case Some(Failure(_)) => break;
        case Some(Success(r)) =>
          assert rest[1..] == iter.Rest();
          match cfg.codec.dec(r.payload)
          case None =>
          case Some(samples) =>
            buffer.InsertBatch(r.recordSeq, samples);
            n := n + 1;
      }
    }

    method AppendValidated(samples: seq<Sample>) returns (r: Result<nat, ServiceError>)
      requires Valid()
      modifies this, wal, wal.dir, buffer
      ensures Valid()
      ensures |cfg.codec.enc(samples)| >= U32_LIMIT ==> r.Failure? && View() == old(View())
      ensures |cfg.codec.enc(samples)| < U32_LIMIT ==>
        r == Success(old(wal.nextRecordSeq)) && View() == AppendService(cfg, old(View()), samples)
      ensures notified == (old(notified) || (r.Success? && buffer.bytesEstimate >= FLUSH_SIZE_BYTES))
    {
      hide AppendWal, AddBatch;
      var payload := cfg.codec.enc(samples);
      var appended := wal.Append(payload);
      if appended.Failure? {
        return Failure(WalAppend(appended.error));
      }
      buffer.InsertBatch(appended.value, samples);
      if buffer.bytesEstimate >= FLUSH_SIZE_BYTES {
        notified := true;
      }
      r := Success(appended.value);
    }

    /** The two commits, samples first; the parameters say whether the tables
        accept them. A commit with nothing to write is not attempted. */
    method FlushTables(snap: BufState, samplesAccepted: bool, seriesAccepted: bool) returns (r: Result<(), ServiceError>)
      modifies this`samplesTable, this`seriesTable
      ensures r == FlushResult(snap, samplesAccepted, seriesAccepted)
      ensures samplesTable == old(samplesTable)
                            + if r == Failure(FlushSamplesFailed) then multiset{} else multiset(AllRows(FlushFiles(snap.byDay)))
      ensures seriesTable == old(seriesTable) + if r.Success? then multiset(snap.newSeries.Items) else multiset{}
    {
      hide DayFiles;
      if snap.byDay != map[] {
        var files := FlushSamples(snap.byDay);
        if !samplesAccepted {
          return Failure(FlushSamplesFailed);
        }
        samplesTable := samplesTable + multiset(AllRows(files));
      } else {
        NoDays(snap.byDay);
      }
      if snap.newSeries != map[] {
        if !seriesAccepted {
          return Failure(FlushSeriesFailed);
        }
        seriesTable := seriesTable + multiset(snap.newSeries.Items);
      }
      r := Success(());
    }

    /** Whether data was written; the parameters say whether the tables accept the
        commits. */
    method FlushOnce(samplesAccepted: bool, seriesAccepted: bool) returns (r: Result<bool, ServiceError>)
      requires Valid()
      modifies this, buffer, wal.dir
      ensures Valid() && notified == old(notified)
      ensures old(buffer.sampleCount) == 0 ==> r == Success(false) && View() == old(View())
      ensures old(buffer.sampleCount) > 0 ==>
        var o := FlushResult(old(buffer.View()), samplesAccepted, seriesAccepted);
        && (r == if o.Success? then Success(true) else Failure(o.error))
        && View() == FlushService(old(View()), OutcomeOf(o))
    {
      hide FlushFiles, AllRows, TruncateAll;
      if buffer.sampleCount == 0 {
        return Success(false);
      }
      var snap := buffer.Take();
      var maxSeq := snap.maxSeq;
      var res := FlushTables(snap, samplesAccepted, seriesAccepted);
      if res.Failure? {
        return Failure(res.error);
      }
      if maxSeq > 0 {
        wal.TruncateThrough(maxSeq);
      }
      r := Success(true);
    }
  }

  function FlushResult(snap: BufState, samplesAccepted: bool, seriesAccepted: bool): Result<(), ServiceError>
  {
    if snap.byDay != map[] && !samplesAccepted then Failure(FlushSamplesFailed)
    else if snap.newSeries != map[] && !seriesAccepted then Failure(FlushSeriesFailed)
    else Success(())
  }

  function OutcomeOf(r: Result<(), ServiceError>): FlushOutcome
  {
    match r
    case Success(_) => BothCommit
    case Failure(FlushSamplesFailed) => SamplesFail
    case Failure(_) => SeriesFail
  }

  lemma NoDays(m: ByDay)
    requires m == map[]
    ensures AllRows(FlushFiles(m)) == []
  {
  }
}

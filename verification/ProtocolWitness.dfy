/** Runs that lose an acknowledged batch, one for each hypothesis of crash
    durability: every other hypothesis holds along the run. They exist for any
    checksum and any round-tripping codec. */
module ProtocolWitness {
  import opened Bytes
  import opened Orders
  import opened WalFormat
  import opened WalLog
  import opened IngestBuffer
  import opened Protocol
  import opened ProtocolLog

  /** Acknowledged, not committed, and not recovered by a replay of the bytes on disk. */
  ghost predicate Lost(cfg: Config, s: State, e: Entry)
  {
    e in s.acked && e !in s.commits && e !in Recovered(cfg, s)
  }

  /** A process whose current log file is empty, as after each append that fills a
      file. */
  ghost predicate FreshFile(cfg: Config, s: State)
  {
    && LogInv(cfg, s) && s.up
    && s.wal.rotation == cfg.rotation && s.wal.fileBytes == 0
    && CleanTail(cfg.crc, s.wal)
    && s.wal.fileSeq in s.log && s.log[s.wal.fileSeq] == []
    && s.nextId == s.wal.nextSeq
  }

  /** Two batches that fit a log record and fill a log file each, whatever the
      rotation size is. */
  ghost predicate TwoBatches(cfg: Config, a: seq<Sample>, b: seq<Sample>)
  {
    && a != [] && b != []
    && Fills(cfg, a) && Fills(cfg, b)
  }

  predicate Fills(cfg: Config, ss: seq<Sample>)
  {
    Storable(cfg.codec, ss) && cfg.rotation <= HEADER_BYTES + |cfg.codec.enc(ss)|
  }

  function NthEntry(n: nat, ss: seq<Sample>): Entry { Entry(n, Batch(n, ss)) }

  lemma FreshStart(cfg: Config)
    ensures FreshFile(cfg, Init(cfg)) && Init(cfg).wal.nextSeq == 1
    ensures forall e :: !Live(Init(cfg).log, e)
  {
    InitLog(cfg);
    var none: map<nat, seq<byte>> := map[];
    assert FileList(none) == [];
    EmptyFile(cfg.crc);
    hide Parse;
    assert Init(cfg).wal == Wal(map[0 := []], 0, 0, 1, cfg.rotation);
  }

  lemma {:induction false} FreshAppend(cfg: Config, s: State, ss: seq<Sample>)
    requires FreshFile(cfg, s) && Fills(cfg, ss) && s.nextId < 1000
    ensures var s' := DoAppend(cfg, s, ss);
      && Enabled(cfg, s, Append(ss)) && TornSafe(cfg, s, Append(ss))
      && FreshFile(cfg, s') && s'.nextId == s.nextId + 1
      && s'.pending == s.pending + {NthEntry(s.nextId, ss)}
      && (forall x :: Live(s'.log, x) <==> Live(s.log, x) || x == NthEntry(s.nextId, ss))
  {
    var payload := cfg.codec.enc(ss);
    LogGivesWal(cfg, s);
    hide LogInv, Live, Parse, Frame, WalOk, AppendWal, WriteFrame, Contents, CleanTail, IdsDistinct;
    AppendLog(cfg, s, ss);
    AppendContents(cfg.crc, s.wal, payload);
    AppendOk(cfg.crc, s.wal, payload);
    FullRotates(cfg.crc, s.wal, payload);
    SameKeys(cfg, s);
  }

  lemma LogGivesWal(cfg: Config, s: State)
    requires LogInv(cfg, s)
    ensures WalOk(cfg.crc, s.wal) && Open(s.wal)
  {
    hide AllStorable, IdsDistinct;
  }

  /** A frame that fills a fresh file makes the writer rotate. */
  lemma FullRotates(crc: Crc, w: Wal, payload: seq<byte>)
    requires Open(w) && w.fileBytes == 0 && w.rotation <= HEADER_BYTES + |payload|
    ensures var w' := AppendWal(crc, w, payload);
      w'.fileSeq == w.fileSeq + 1 && w'.fileBytes == 0 && w'.rotation == w.rotation && w'.fileSeq in w'.files
  {
    hide Frame;
  }

  /** A full truncation through the highest number leaves an empty log. */
  lemma {:induction false} TruncateEmpties(cfg: Config, s: State, f: nat)
    requires FreshFile(cfg, s) && f in s.flights && s.flights[f].snap.maxSeq > 0
    requires forall e :: Live(s.log, e) ==> e.batch.recordSeq <= s.flights[f].snap.maxSeq
    ensures var s' := DoTruncate(s, f, s.wal.fileSeq);
      LogInv(cfg, s') && forall e :: !Live(s'.log, e)
  {
    var through := s.flights[f].snap.maxSeq;
    var s' := DoTruncate(s, f, s.wal.fileSeq);
    TruncateLog(cfg, s, f, s.wal.fileSeq);
    SameKeys(cfg, s);
    forall e ensures !Live(s'.log, e) {
      if Live(s'.log, e) {
        var g :| g in s'.log && e in s'.log[g];
        assert g != s.wal.fileSeq && g < s.wal.fileSeq;
        LowFile(cfg, s, g, through);
      }
    }
  }

  lemma LowFile(cfg: Config, s: State, g: nat, through: nat)
    requires LogInv(cfg, s) && g in s.log && g != s.wal.fileSeq
    requires forall e :: e in s.log[g] ==> e.batch.recordSeq <= through
    ensures g in s.wal.files && Deletable(s.wal, through, g)
  {
    SameKeys(cfg, s);
    hide Parse, ScanMax;
    var rs := RecordsOf(cfg.codec, s.log[g]);
    assert LogRecords(cfg.codec, s.log)[g] == rs;
    assert Contents(cfg.crc, s.wal.files)[g] == rs;
    MaxSeqBound(rs);
    if MaxSeq(rs) > 0 {
      var i :| 0 <= i < |rs| && rs[i].recordSeq == MaxSeq(rs);
      assert rs[i] == RecordOf(cfg.codec, s.log[g][i]);
      assert s.log[g][i] in s.log[g];
    }
  }

  // ---------- building runs ----------

  /** A run that is torn-safe, with two of the three conditions at every take. */
  ghost predicate Run(cfg: Config, evs: seq<Event>, h: State -> bool, k: State -> bool)
  {
    AllTornSafe(cfg, evs) && EveryTake(cfg, evs, h) && EveryTake(cfg, evs, k)
  }

  lemma {:induction false} Go(cfg: Config, evs: seq<Event>, ev: Event, h: State -> bool, k: State -> bool)
    requires Run(cfg, evs, h, k) && Enabled(cfg, After(cfg, evs), ev) && TornSafe(cfg, After(cfg, evs), ev)
    requires ev.Take? ==> h(After(cfg, evs)) && k(After(cfg, evs))
    ensures Run(cfg, evs + [ev], h, k)
    ensures After(cfg, evs + [ev]) == Step(cfg, After(cfg, evs), ev)
  {
    ExtendRun(cfg, evs, ev, h);
    ExtendRun(cfg, evs, ev, k);
  }

  lemma StartRun(cfg: Config, h: State -> bool, k: State -> bool)
    ensures Run(cfg, [], h, k) && After(cfg, []) == Init(cfg)
  {
  }

  /** Appends a batch and leaves it waiting. */
  lemma {:induction false} GoAppend(cfg: Config, evs: seq<Event>, ss: seq<Sample>, h: State -> bool, k: State -> bool)
    requires Run(cfg, evs, h, k) && FreshFile(cfg, After(cfg, evs))
    requires Fills(cfg, ss) && After(cfg, evs).nextId < 1000
    ensures var s := After(cfg, evs);
      var s' := After(cfg, evs + [Append(ss)]);
      && Run(cfg, evs + [Append(ss)], h, k)
      && FreshFile(cfg, s') && s'.nextId == s.nextId + 1
      && s' == s.(wal := s'.wal, log := s'.log, nextId := s'.nextId, pending := s.pending + {NthEntry(s.nextId, ss)})
      && (forall x :: Live(s'.log, x) <==> Live(s.log, x) || x == NthEntry(s.nextId, ss))
  {
    var s := After(cfg, evs);
    FreshAppend(cfg, s, ss);
    hide FreshFile, Live, Run, TornSafe, AppendWal;
    Go(cfg, evs, Append(ss), h, k);
    assert After(cfg, evs + [Append(ss)]) == DoAppend(cfg, s, ss);
  }

  /** Inserts a waiting entry into an empty buffer. */
  lemma {:induction false} GoInsert(cfg: Config, evs: seq<Event>, e: Entry, h: State -> bool, k: State -> bool)
    requires Run(cfg, evs, h, k) && After(cfg, evs).up && e in After(cfg, evs).pending
    ensures var s := After(cfg, evs);
      && Run(cfg, evs + [Insert(e)], h, k)
      && After(cfg, evs + [Insert(e)]) == DoInsert(s, e)
  {
    hide Run;
    Go(cfg, evs, Insert(e), h, k);
  }

  lemma FirstInsert(known: set<int>, batch: Batch)
    requires batch.samples != []
    ensures var b := AddBatch(EmptyBuffer(known), batch);
      b.count > 0 && b.maxSeq == batch.recordSeq
  {
    EmptyHolds(known);
    AddBatchHolds(EmptyBuffer(known), [], batch);
    assert Flat([batch]) == batch.samples;
    assert [] + [batch] == [batch];
  }

  /** Flush `f` takes the buffer. */
  lemma {:induction false} GoTake(cfg: Config, evs: seq<Event>, f: nat, h: State -> bool, k: State -> bool)
    requires Run(cfg, evs, h, k)
    requires var s := After(cfg, evs); s.up && s.buf.count > 0 && f !in s.flights && h(s) && k(s)
    ensures Run(cfg, evs + [Take(f)], h, k)
    ensures After(cfg, evs + [Take(f)]) == DoTake(After(cfg, evs), f)
  {
    hide Run;
    Go(cfg, evs, Take(f), h, k);
  }

  /** Flush `f` commits both tables and truncates the whole finished log. */
  lemma {:induction false} GoFinish(cfg: Config, evs: seq<Event>, f: nat, h: State -> bool, k: State -> bool)
    returns (evs': seq<Event>)
    requires Run(cfg, evs, h, k) && FreshFile(cfg, After(cfg, evs))
    requires var s := After(cfg, evs); f in s.flights && s.flights[f].phase == Taken && s.flights[f].snap.maxSeq > 0
    requires forall e :: Live(After(cfg, evs).log, e) ==> e.batch.recordSeq <= After(cfg, evs).flights[f].snap.maxSeq
    ensures var s := After(cfg, evs);
      var s' := After(cfg, evs');
      && Run(cfg, evs', h, k)
      && LogInv(cfg, s') && (forall e :: !Live(s'.log, e))
      && s'.up && s'.pending == s.pending && s'.acked == s.acked
      && s'.commits == s.commits + s.flights[f].entries
  {
    hide Run, FreshFile, LogInv, Live, TruncateWal;
    var s := After(cfg, evs);
    assert s.up by { FreshUp(cfg, s); }
    var evs1 := evs + [CommitSamples(f)];
    Go(cfg, evs, CommitSamples(f), h, k);
    var evs2 := evs1 + [CommitSeries(f)];
    Go(cfg, evs1, CommitSeries(f), h, k);
    var s2 := After(cfg, evs2);
    assert s2.wal == s.wal && s2.log == s.log && s2.nextId == s.nextId && s2.up;
    FreshSame(cfg, s, s2);
    TruncateEmpties(cfg, s2, f);
    evs' := evs2 + [Truncate(f, s2.wal.fileSeq)];
    Go(cfg, evs2, Truncate(f, s2.wal.fileSeq), h, k);
  }

  lemma FreshUp(cfg: Config, s: State)
    requires FreshFile(cfg, s)
    ensures s.up && LogInv(cfg, s)
  {
  }

  lemma FreshSame(cfg: Config, s: State, s': State)
    requires FreshFile(cfg, s) && s'.wal == s.wal && s'.log == s.log && s'.nextId == s.nextId && s'.up
    ensures FreshFile(cfg, s')
  {
  }

  // ---------- the witnesses ----------

  /** A record that waits with a lower number than the snapshot's highest is
      truncated away while its batch is only in memory. */
  lemma {:induction false} WaitingBelowLoses(cfg: Config, a: seq<Sample>, b: seq<Sample>)
    returns (evs: seq<Event>)
    requires TwoBatches(cfg, a, b)
    ensures Run(cfg, evs, NoOverlap, NoFailure)
    ensures Lost(cfg, After(cfg, evs), NthEntry(1, a))
  {
    hide Run, FreshFile, LogInv, Live, Recovered, After, AddBatch;
    var h, k := NoOverlap, NoFailure;
    var e1, e2 := NthEntry(1, a), NthEntry(2, b);
    FreshStart(cfg);
    StartRun(cfg, h, k);
    FreshNext(cfg, Init(cfg));
    GoAppend(cfg, [], a, h, k);
    var evs1 := [] + [Append(a)];
    GoAppend(cfg, evs1, b, h, k);
    var evs2 := evs1 + [Append(b)];
    FreshUp(cfg, After(cfg, evs2));
    GoInsert(cfg, evs2, e2, h, k);
    FirstInsert({}, e2.batch);
    var evs3 := evs2 + [Insert(e2)];
    GoTake(cfg, evs3, 0, h, k);
    var evs4 := evs3 + [Take(0)];
    FreshSame(cfg, After(cfg, evs2), After(cfg, evs4));
    var evs5 := GoFinish(cfg, evs4, 0, h, k);
    GoInsert(cfg, evs5, e1, h, k);
    evs := evs5 + [Insert(e1)];
    NothingRecovered(cfg, After(cfg, evs5), After(cfg, evs), e1);
  }

  lemma FreshNext(cfg: Config, s: State)
    requires FreshFile(cfg, s) && s.wal.nextSeq == 1
    ensures s.nextId == 1
  {
  }

  lemma NothingRecovered(cfg: Config, s: State, s': State, e: Entry)
    requires LogInv(cfg, s) && !Live(s.log, e)
    requires s'.wal == s.wal && s'.log == s.log
    ensures e !in Recovered(cfg, s')
  {
    RecoveredIsLive(cfg, s);
  }

  /** Two flushes in flight: the later one truncates what the earlier one took
      and has not committed. */
  lemma {:induction false} OverlapLoses(cfg: Config, a: seq<Sample>, b: seq<Sample>)
    returns (evs: seq<Event>)
    requires TwoBatches(cfg, a, b)
    ensures Run(cfg, evs, NoFailure, NoneWaitsBelow)
    ensures Lost(cfg, After(cfg, evs), NthEntry(1, a))
  {
    hide Run, FreshFile, LogInv, Live, Recovered, After, AddBatch;
    var h, k := NoFailure, NoneWaitsBelow;
    var evs3 := TakeFirst(cfg, a, b, h, k);
    evs := FlushSecond(cfg, evs3, a, b, 1, h, k);
  }

  /** A flush fails after it took the buffer; the next one truncates its records. */
  lemma {:induction false} FailureLoses(cfg: Config, a: seq<Sample>, b: seq<Sample>)
    returns (evs: seq<Event>)
    requires TwoBatches(cfg, a, b)
    ensures Run(cfg, evs, NoOverlap, NoneWaitsBelow)
    ensures Lost(cfg, After(cfg, evs), NthEntry(1, a))
  {
    hide Run, FreshFile, LogInv, Live, Recovered, After, AddBatch;
    var h, k := NoOverlap, NoneWaitsBelow;
    var evs3 := TakeFirst(cfg, a, b, h, k);
    var s3 := After(cfg, evs3);
    FreshUp(cfg, s3);
    Go(cfg, evs3, FlushFails(0), h, k);
    FreshSame(cfg, s3, After(cfg, evs3 + [FlushFails(0)]));
    assert After(cfg, evs3 + [FlushFails(0)]).flights == map[];
    evs := FlushSecond(cfg, evs3 + [FlushFails(0)], a, b, 1, h, k);
  }

  /** The first batch is appended, inserted, acknowledged and taken by flush 0. */
  lemma {:induction false} TakeFirst(cfg: Config, a: seq<Sample>, b: seq<Sample>, h: State -> bool, k: State -> bool)
    returns (evs: seq<Event>)
    requires TwoBatches(cfg, a, b)
    requires forall s: State :: s.flights == map[] && !s.failed && s.pending == {} ==> h(s) && k(s)
    ensures var s := After(cfg, evs);
      var e1 := NthEntry(1, a);
      && Run(cfg, evs, h, k) && FreshFile(cfg, s) && s.nextId == 2
      && (forall x :: Live(s.log, x) <==> x == e1)
      && s.pending == {} && s.buffered == [] && s.acked == {e1} && s.commits == []
      && s.buf.count == 0 && s.buf == EmptyBuffer(s.buf.known)
      && s.flights.Keys == {0} && s.flights[0].phase == Taken && !s.failed
      && s.flights[0].snap == AddBatch(EmptyBuffer({}), e1.batch) && s.series == multiset{}
  {
    hide Run, FreshFile, LogInv, Live, Recovered, After, AddBatch;
    var e1 := NthEntry(1, a);
    FreshStart(cfg);
    StartRun(cfg, h, k);
    FreshNext(cfg, Init(cfg));
    GoAppend(cfg, [], a, h, k);
    var evs1 := [] + [Append(a)];
    FreshUp(cfg, After(cfg, evs1));
    GoInsert(cfg, evs1, e1, h, k);
    FirstInsert({}, e1.batch);
    var evs2 := evs1 + [Insert(e1)];
    GoTake(cfg, evs2, 0, h, k);
    evs := evs2 + [Take(0)];
    FreshSame(cfg, After(cfg, evs1), After(cfg, evs));
  }

  /** The second batch is appended, inserted and flushed to the end by flush `f`. */
  lemma {:induction false} FlushSecond(cfg: Config, evs: seq<Event>, a: seq<Sample>, b: seq<Sample>, f: nat,
                    h: State -> bool, k: State -> bool)
    returns (evs': seq<Event>)
    requires TwoBatches(cfg, a, b) && Run(cfg, evs, h, k) && FreshFile(cfg, After(cfg, evs))
    requires var s := After(cfg, evs);
      && s.nextId == 2 && (forall x :: Live(s.log, x) <==> x == NthEntry(1, a))
      && s.pending == {} && s.buffered == [] && s.acked == {NthEntry(1, a)} && s.commits == []
      && s.buf == EmptyBuffer(s.buf.known) && f !in s.flights
    requires forall s: State ::
      s.pending == {} && s.flights == After(cfg, evs).flights && s.failed == After(cfg, evs).failed ==> h(s) && k(s)
    ensures Run(cfg, evs', h, k) && Lost(cfg, After(cfg, evs'), NthEntry(1, a))
  {
    hide Run, FreshFile, LogInv, Live, Recovered, After, AddBatch;
    var e1, e2 := NthEntry(1, a), NthEntry(2, b);
    GoAppend(cfg, evs, b, h, k);
    var evs1 := evs + [Append(b)];
    FreshUp(cfg, After(cfg, evs1));
    GoInsert(cfg, evs1, e2, h, k);
    FirstInsert(After(cfg, evs).buf.known, e2.batch);
    var evs2 := evs1 + [Insert(e2)];
    GoTake(cfg, evs2, f, h, k);
    var evs3 := evs2 + [Take(f)];
    FreshSame(cfg, After(cfg, evs1), After(cfg, evs3));
    evs' := GoFinish(cfg, evs3, f, h, k);
    NothingRecovered(cfg, After(cfg, evs'), After(cfg, evs'), e1);
  }

  /** A frame torn behind its header promises more bytes than the next append
      writes, so the reader takes the acknowledged batch for a torn payload. */
  lemma {:induction false} TornTailLoses(cfg: Config, x: seq<Sample>, b: seq<Sample>)
    requires Storable(cfg.codec, x) && Storable(cfg.codec, b)
    requires HEADER_BYTES + |cfg.codec.enc(b)| < |cfg.codec.enc(x)|
    ensures var e := Entry(2, Batch(1, b));
      var evs := [Crash(x, HEADER_BYTES), Reopen(true), Append(b), Insert(e)];
      AllTakeSafe(cfg, evs) && AllSeedSafe(evs) && Lost(cfg, After(cfg, evs), e)
  {
    hide *;
    var e := Entry(2, Batch(1, b));
    var evs := [Crash(x, HEADER_BYTES), Reopen(true), Append(b), Insert(e)];
    var s := TornRun(cfg, x, b);
    FourSteps(cfg, Crash(x, HEADER_BYTES), Reopen(true), Append(b), Insert(e));
    StorableFits(cfg.codec, x);
    TornFileUnread(cfg.crc, cfg.codec.enc(x), cfg.codec.enc(b));
    StopsAtFirst(cfg, s);
    NoTakeSafe(cfg, evs);
    LostWhen(cfg, s, e);
  }

  lemma LostWhen(cfg: Config, s: State, e: Entry)
    requires e in s.acked && s.commits == [] && Recovered(cfg, s) == []
    ensures Lost(cfg, s, e)
  {
    hide Recovered;
  }

  lemma NoTakeSafe(cfg: Config, evs: seq<Event>)
    requires forall i :: 0 <= i < |evs| ==> !evs[i].Take? && evs[i] != Reopen(false)
    ensures AllTakeSafe(cfg, evs) && AllSeedSafe(evs)
  {
    hide After, Enabled;
  }

  lemma {:induction false} TornRun(cfg: Config, x: seq<Sample>, b: seq<Sample>) returns (s: State)
    requires Storable(cfg.codec, x) && Storable(cfg.codec, b)
    requires HEADER_BYTES + |cfg.codec.enc(b)| < |cfg.codec.enc(x)|
    ensures var e := Entry(2, Batch(1, b));
      && s == Step(cfg, Step(cfg, Step(cfg, Step(cfg, Init(cfg), Crash(x, HEADER_BYTES)), Reopen(true)), Append(b)),
                   Insert(e))
      && e in s.acked && s.commits == [] && 0 in s.wal.files
      && s.wal.files[0] == Frame(cfg.crc, WalRecord(1, cfg.codec.enc(x)))[..HEADER_BYTES]
                           + Frame(cfg.crc, WalRecord(1, cfg.codec.enc(b)))
  {
    hide Recovered, Frame, Parse, Step, Init, AddBatch;
    var torn := Frame(cfg.crc, WalRecord(1, cfg.codec.enc(x)))[..HEADER_BYTES];
    var s1 := TornCrash(cfg, x, torn);
    TornHeader(cfg.crc, cfg.codec.enc(x));
    var s2 := TornReopen(cfg, s1, torn);
    s := TornAppend(cfg, s2, torn, b);
  }

  lemma TornAppend(cfg: Config, s: State, torn: seq<byte>, b: seq<Sample>) returns (s': State)
    requires s.up && 0 in s.wal.files && s.wal.files[0] == torn && s.wal.fileSeq == 0 && s.wal.nextSeq == 1
    requires s.nextId == 2 && s.pending == {} && s.acked == {} && s.commits == []
    requires Storable(cfg.codec, b)
    ensures var e := Entry(2, Batch(1, b));
      && s' == Step(cfg, Step(cfg, s, Append(b)), Insert(e))
      && e in s'.acked && s'.commits == []
      && 0 in s'.wal.files && s'.wal.files[0] == torn + Frame(cfg.crc, WalRecord(1, cfg.codec.enc(b)))
  {
    hide Frame, AddBatch;
    s' := DoInsert(DoAppend(cfg, s, b), Entry(2, Batch(1, b)));
  }

  lemma FourSteps(cfg: Config, a: Event, b: Event, c: Event, d: Event)
    ensures After(cfg, [a, b, c, d]) == Step(cfg, Step(cfg, Step(cfg, Step(cfg, Init(cfg), a), b), c), d)
  {
    hide Step, Init;
    var evs := [a, b, c, d];
    assert evs[..3] == [a, b, c] && [a, b, c][..2] == [a, b] && [a, b][..1] == [a] && [a][..0] == [];
    assert After(cfg, [a]) == Step(cfg, Init(cfg), a);
    assert After(cfg, [a, b]) == Step(cfg, After(cfg, [a]), b);
    assert After(cfg, [a, b, c]) == Step(cfg, After(cfg, [a, b]), c);
  }

  lemma InitState(cfg: Config)
    ensures Init(cfg).wal == Wal(map[0 := []], 0, 0, 1, cfg.rotation) && Init(cfg).log == map[0 := []]
  {
    var none: map<nat, seq<byte>> := map[];
    assert FileList(none) == [];
  }

  lemma TornCrash(cfg: Config, x: seq<Sample>, torn: seq<byte>) returns (s: State)
    requires torn == Frame(cfg.crc, WalRecord(1, cfg.codec.enc(x)))[..HEADER_BYTES]
    requires Storable(cfg.codec, x) && |cfg.codec.enc(x)| > 0
    ensures s == Step(cfg, Init(cfg), Crash(x, HEADER_BYTES))
    ensures s.wal.files == map[0 := torn] && s.log == map[0 := []] && s.nextId == 2 && !s.up
    ensures s.pending == {} && s.acked == {} && s.commits == []
  {
    InitState(cfg);
    s := DoCrash(cfg, Init(cfg), x, HEADER_BYTES);
    hide Frame;
    assert [] + torn == torn;
  }

  lemma TornReopen(cfg: Config, s: State, torn: seq<byte>) returns (s': State)
    requires s.wal.files == map[0 := torn] && s.log == map[0 := []] && !s.up && |torn| == HEADER_BYTES
    requires HeaderLen(torn) > 0
    ensures s' == Step(cfg, s, Reopen(true))
    ensures s'.up && s'.log == s.log && s'.nextId == s.nextId && s'.pending == s.pending
    ensures s'.acked == s.acked && s'.commits == s.commits
    ensures s'.wal.files == s.wal.files && s'.wal.fileSeq == 0 && s'.wal.nextSeq == 1
  {
    s' := DoReopen(cfg, s, true);
    var ks := FileList(s.wal.files);
    assert ks[0] in s.wal.files;
    assert ks == [0];
    hide Recovered, AddEntries;
    assert ScanMax(torn) == 0;
    assert ks[1..] == [];
    assert NextAfter(s.wal.files, ks, 1) == 1;
  }

  lemma TornHeader(crc: Crc, x: seq<byte>)
    requires |x| < U32_LIMIT
    ensures HeaderLen(Frame(crc, WalRecord(1, x))[..HEADER_BYTES]) == |x|
  {
    var torn := Frame(crc, WalRecord(1, x))[..HEADER_BYTES];
    HeaderOfFrame(crc, WalRecord(1, x), HEADER_BYTES, []);
    assert torn + [] == torn;
  }

  lemma StorableFits(c: Codec, ss: seq<Sample>)
    requires Storable(c, ss)
    ensures |c.enc(ss)| < U32_LIMIT
  {
  }

  lemma TornFileUnread(crc: Crc, x: seq<byte>, b: seq<byte>)
    requires HEADER_BYTES + |b| < |x| < U32_LIMIT
    ensures var torn := Frame(crc, WalRecord(1, x))[..HEADER_BYTES];
      Parse(crc, torn + Frame(crc, WalRecord(1, b))) == Parsed([], Truncated)
  {
    HeaderOfFrame(crc, WalRecord(1, x), HEADER_BYTES, Frame(crc, WalRecord(1, b)));
  }

  lemma StopsAtFirst(cfg: Config, s: State)
    requires 0 in s.wal.files && Parse(cfg.crc, s.wal.files[0]) == Parsed([], Truncated)
    ensures Recovered(cfg, s) == []
  {
    var ks := FileList(s.wal.files);
    assert 0 in ks;
    var i :| 0 <= i < |ks| && ks[i] == 0;
    assert i > 0 ==> NatLess(ks[0], ks[i]);
    hide Parse;
  }
}

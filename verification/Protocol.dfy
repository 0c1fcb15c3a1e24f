/** The ingest protocol as a step machine: handlers append to the log and then
    insert into the buffer, flushes take the buffer and commit it to two tables
    before they truncate the log, and the process may crash and reopen at any step. */
module Protocol {
  import opened Bytes
  import opened Wrappers
  import opened WalFormat
  import opened WalLog
  import opened IngestBuffer
  import opened Flush

  /** How a batch of samples becomes a log payload and back. */
  datatype Codec = Codec(enc: seq<Sample> -> seq<byte>, dec: seq<byte> -> Option<seq<Sample>>)

  datatype Config = Config(crc: Crc, codec: Codec, rotation: nat)

  /** The batch fits a log record, and its payload reads back as the batch. */
  predicate Storable(c: Codec, ss: seq<Sample>)
  {
    |c.enc(ss)| < U32_LIMIT && c.dec(c.enc(ss)) == Some(ss)
  }

  /** An appended batch. The id tells appends apart for good; the sequence number
      on disk does not, because numbering may start over after a reopen. Id 0 is
      a record that no append wrote. */
  datatype Entry = Entry(id: nat, batch: Batch)

  datatype Phase = Taken | SamplesDone | SeriesDone

  /** A flush in progress: what it took, and how far it is. */
  datatype Flight = Flight(entries: seq<Entry>, snap: BufState, phase: Phase)

  /** `log` mirrors the files with the entries appended to them. */
  datatype State = State(
    wal: Wal,
    log: map<nat, seq<Entry>>,
    nextId: nat,
    up: bool,
    failed: bool,
    pending: set<Entry>,
    buffered: seq<Entry>,
    buf: BufState,
    flights: map<nat, Flight>,
    acked: set<Entry>,
    commits: seq<Entry>,
    table: multiset<Row>,
    series: multiset<(int, Meta)>,
    crashes: nat)

  datatype Event =
    | Append(samples: seq<Sample>)          // WAL lock: frame written and synced
    | Insert(entry: Entry)                  // buffer lock, then the acknowledgement
    | Take(f: nat)                          // buffer lock: a flush takes the snapshot
    | CommitSamples(f: nat)
    | CommitSeries(f: nat)
    | FlushFails(f: nat)                    // either commit returns an error
    | Truncate(f: nat, stop: nat)           // WAL lock: finished files below `stop` go
    | Crash(samples: seq<Sample>, cut: nat) // `cut` bytes of one more frame got out
    | Reopen(seeded: bool)                  // seeded: the catalogue could be read

  // ---------- replay ----------

  /** What replay makes of the records of one file: the entry appended at that
      position where it is what the record says, a stranger otherwise. */
  function Tag(c: Codec, rs: seq<WalRecord>, es: seq<Entry>): seq<Entry>
    decreases |rs|
  {
    if rs == [] then []
    else
      var rest := Tag(c, rs[1..], if es == [] then [] else es[1..]);
      match c.dec(rs[0].payload)
      case None => rest
      case Some(ss) =>
        var batch := Batch(rs[0].recordSeq, ss);
        [if es != [] && es[0].batch == batch then es[0] else Entry(0, batch)] + rest
  }

  function TagFiles(cfg: Config, files: map<nat, seq<byte>>, log: map<nat, seq<Entry>>, ks: seq<nat>): seq<Entry>
    requires forall f :: f in ks ==> f in files
  {
    if ks == [] then []
    else
      var es := if ks[0] in log then log[ks[0]] else [];
      var here := Tag(cfg.codec, Recs(cfg.crc, files, ks[0]), es);
      if StopsReplay(Parse(cfg.crc, files[ks[0]]).tail) then here
      else here + TagFiles(cfg, files, log, ks[1..])
  }

  /** The entries replay recovers from the bytes on disk. */
  function Recovered(cfg: Config, s: State): seq<Entry>
  {
    TagFiles(cfg, s.wal.files, s.log, FileList(s.wal.files))
  }

  function AddEntries(b: BufState, es: seq<Entry>): BufState
    decreases |es|
  {
    if es == [] then b else AddEntries(AddBatch(b, es[0].batch), es[1..])
  }

  // ---------- the steps ----------

  function Init(cfg: Config): State
  {
    State(OpenWal(map[], cfg.rotation), map[0 := []], 1, true, false, {}, [], EmptyBuffer({}),
          map[], {}, [], multiset{}, multiset{}, 0)
  }

  predicate Enabled(cfg: Config, s: State, ev: Event)
  {
    match ev
    case Append(ss) => s.up && Open(s.wal) && Storable(cfg.codec, ss)
    case Insert(e) => s.up && e in s.pending
    case Take(f) => s.up && s.buf.count > 0 && f !in s.flights
    case CommitSamples(f) => s.up && f in s.flights && s.flights[f].phase == Taken
    case CommitSeries(f) => s.up && f in s.flights && s.flights[f].phase == SamplesDone
    case FlushFails(f) => s.up && f in s.flights && s.flights[f].phase != SeriesDone
    case Truncate(f, stop) => s.up && f in s.flights && s.flights[f].phase == SeriesDone
    case Crash(ss, cut) =>
      s.up && Open(s.wal) && Storable(cfg.codec, ss) && cut <= HEADER_BYTES + |cfg.codec.enc(ss)|
    case Reopen(_) => !s.up
  }

  function AddToLog(log: map<nat, seq<Entry>>, f: nat, e: Entry): map<nat, seq<Entry>>
  {
    log[f := (if f in log then log[f] else []) + [e]]
  }

  function DoAppend(cfg: Config, s: State, ss: seq<Sample>): State
    requires Open(s.wal)
  {
    var e := Entry(s.nextId, Batch(s.wal.nextSeq, ss));
    var wal' := AppendWal(cfg.crc, s.wal, cfg.codec.enc(ss));
    var log' := AddToLog(s.log, s.wal.fileSeq, e);
    s.(wal := wal',
       log := if wal'.fileSeq in log' then log' else log'[wal'.fileSeq := []],
       nextId := s.nextId + 1,
       pending := s.pending + {e})
  }

  function DoInsert(s: State, e: Entry): State
  {
    s.(pending := s.pending - {e},
       buffered := s.buffered + [e],
       buf := AddBatch(s.buf, e.batch),
       acked := s.acked + {e})
  }

  function DoTake(s: State, f: nat): State
  {
    s.(flights := s.flights[f := Flight(s.buffered, s.buf, Taken)],
       buffered := [],
       buf := AfterTake(s.buf))
  }

  function DoCommitSamples(s: State, f: nat): State
    requires f in s.flights
  {
    var fl := s.flights[f];
    s.(flights := s.flights[f := fl.(phase := SamplesDone)],
       commits := s.commits + fl.entries,
       table := s.table + multiset(AllRows(FlushFiles(fl.snap.byDay))))
  }

  function DoCommitSeries(s: State, f: nat): State
    requires f in s.flights
  {
    var fl := s.flights[f];
    s.(flights := s.flights[f := fl.(phase := SeriesDone)],
       series := s.series + multiset(fl.snap.newSeries.Items))
  }

  function DoFlushFails(s: State, f: nat): State
  {
    s.(flights := s.flights - {f}, failed := true)
  }

  function DoTruncate(s: State, f: nat, stop: nat): State
    requires f in s.flights
  {
    var through := s.flights[f].snap.maxSeq;
    var wal' := if through > 0 then TruncateWal(s.wal, through, stop) else s.wal;
    s.(wal := wal',
       log := map g | g in s.log && g in wal'.files :: s.log[g],
       flights := s.flights - {f})
  }

  function DoCrash(cfg: Config, s: State, ss: seq<Sample>, cut: nat): State
    requires Open(s.wal) && cut <= HEADER_BYTES + |cfg.codec.enc(ss)|
  {
    var payload := cfg.codec.enc(ss);
    var whole := cut == HEADER_BYTES + |payload|;
    s.(wal := s.wal.(files := CrashInAppend(cfg.crc, s.wal, payload, cut),
                     nextSeq := if cut == 0 then s.wal.nextSeq else s.wal.nextSeq + 1),
       log := if whole then AddToLog(s.log, s.wal.fileSeq, Entry(s.nextId, Batch(s.wal.nextSeq, ss))) else s.log,
       nextId := s.nextId + 1,
       up := false, pending := {}, buffered := [], buf := EmptyBuffer({}), flights := map[],
       crashes := s.crashes + 1)
  }

  function DoReopen(cfg: Config, s: State, seeded: bool): State
  {
    var wal' := OpenWal(s.wal.files, s.wal.rotation);
    var es := Recovered(cfg, s);
    var known := if seeded then set r | r in s.series :: r.0 else {};
    s.(wal := wal',
       log := if wal'.fileSeq in s.log then s.log else s.log[wal'.fileSeq := []],
       up := true, failed := false,
       buffered := es, buf := AddEntries(EmptyBuffer(known), es))
  }

  /** One step; an event that is not enabled changes nothing. */
  function Step(cfg: Config, s: State, ev: Event): State
  {
    if !Enabled(cfg, s, ev) then s
    else
      match ev
      case Append(ss) => DoAppend(cfg, s, ss)
      case Insert(e) => DoInsert(s, e)
      case Take(f) => DoTake(s, f)
      case CommitSamples(f) => DoCommitSamples(s, f)
      case CommitSeries(f) => DoCommitSeries(s, f)
      case FlushFails(f) => DoFlushFails(s, f)
      case Truncate(f, stop) => DoTruncate(s, f, stop)
      case Crash(ss, cut) => DoCrash(cfg, s, ss, cut)
      case Reopen(seeded) => DoReopen(cfg, s, seeded)
  }

  lemma StepRests(cfg: Config, s: State, ev: Event)
    requires !Enabled(cfg, s, ev)
    ensures Step(cfg, s, ev) == s
  {
  }

  lemma StepDoes(cfg: Config, s: State, ev: Event)
    requires Enabled(cfg, s, ev)
    ensures match ev
      case Append(ss) => Open(s.wal) && Step(cfg, s, ev) == DoAppend(cfg, s, ss)
      case Insert(e) => Step(cfg, s, ev) == DoInsert(s, e)
      case Take(f) => Step(cfg, s, ev) == DoTake(s, f)
      case CommitSamples(f) => f in s.flights && Step(cfg, s, ev) == DoCommitSamples(s, f)
      case CommitSeries(f) => f in s.flights && Step(cfg, s, ev) == DoCommitSeries(s, f)
      case FlushFails(f) => Step(cfg, s, ev) == DoFlushFails(s, f)
      case Truncate(f, stop) => f in s.flights && Step(cfg, s, ev) == DoTruncate(s, f, stop)
      case Crash(ss, cut) =>
        Open(s.wal) && cut <= HEADER_BYTES + |cfg.codec.enc(ss)| && Step(cfg, s, ev) == DoCrash(cfg, s, ss, cut)
      case Reopen(seeded) => Step(cfg, s, ev) == DoReopen(cfg, s, seeded)
  {
  }

  /** The state after a run of events from the start. */
  function After(cfg: Config, evs: seq<Event>): State
  {
    if evs == [] then Init(cfg) else Step(cfg, After(cfg, evs[..|evs| - 1]), evs[|evs| - 1])
  }

  // ---------- hypotheses on a run ----------

  /** Nothing is written behind torn bytes, and the 64-bit record numbers do not
      run out. */
  predicate TornSafe(cfg: Config, s: State, ev: Event)
  {
    match ev
    case Append(_) => Open(s.wal) ==> CleanTail(cfg.crc, s.wal) && s.wal.nextSeq + 1 < U64_LIMIT
    case Crash(_, cut) => cut > 0 && Open(s.wal) ==> CleanTail(cfg.crc, s.wal) && s.wal.nextSeq + 1 < U64_LIMIT
    case _ => true
  }

  /** A flush starts only when no other is in flight, none has failed since the
      last reopen, and no appended record numbered at or below the snapshot's
      highest waits to be inserted. */
  predicate TakeSafe(s: State, ev: Event)
  {
    match ev
    case Take(_) => NoOverlap(s) && NoFailure(s) && NoneWaitsBelow(s)
    case _ => true
  }

  predicate NoOverlap(s: State) { s.flights == map[] }

  predicate NoFailure(s: State) { !s.failed }

  predicate NoneWaitsBelow(s: State)
  {
    forall e :: e in s.pending ==> e.batch.recordSeq > s.buf.maxSeq
  }

  predicate SeedSafe(ev: Event) { ev.Reopen? ==> ev.seeded }

  ghost predicate AllTornSafe(cfg: Config, evs: seq<Event>)
  {
    forall i :: 0 <= i < |evs| && Enabled(cfg, After(cfg, evs[..i]), evs[i])
      ==> TornSafe(cfg, After(cfg, evs[..i]), evs[i])
  }

  /** Condition `h` holds whenever a flush takes the buffer. */
  ghost predicate EveryTake(cfg: Config, evs: seq<Event>, h: State -> bool)
  {
    forall i :: 0 <= i < |evs| && evs[i].Take? && Enabled(cfg, After(cfg, evs[..i]), evs[i])
      ==> h(After(cfg, evs[..i]))
  }

  ghost predicate AllTakeSafe(cfg: Config, evs: seq<Event>)
  {
    EveryTake(cfg, evs, NoOverlap) && EveryTake(cfg, evs, NoFailure) && EveryTake(cfg, evs, NoneWaitsBelow)
  }

  predicate AllSeedSafe(evs: seq<Event>)
  {
    forall i :: 0 <= i < |evs| ==> SeedSafe(evs[i])
  }

  /** What a hypothesis gives at the last event of a run. */
  lemma {:induction false} SplitRun(cfg: Config, evs: seq<Event>)
    requires evs != []
    ensures var n := |evs| - 1;
      && After(cfg, evs) == Step(cfg, After(cfg, evs[..n]), evs[n])
      && (AllTornSafe(cfg, evs) ==> AllTornSafe(cfg, evs[..n]))
      && (AllTornSafe(cfg, evs) && Enabled(cfg, After(cfg, evs[..n]), evs[n])
          ==> TornSafe(cfg, After(cfg, evs[..n]), evs[n]))
      && (AllTakeSafe(cfg, evs) ==> AllTakeSafe(cfg, evs[..n]))
      && (AllTakeSafe(cfg, evs) && Enabled(cfg, After(cfg, evs[..n]), evs[n])
          ==> TakeSafe(After(cfg, evs[..n]), evs[n]))
      && (AllSeedSafe(evs) ==> AllSeedSafe(evs[..n]) && SeedSafe(evs[n]))
  {
    var n := |evs| - 1;
    assert forall i :: 0 <= i < n ==> evs[..n][..i] == evs[..i];
  }

  /** One more event keeps a hypothesis when it holds there. */
  lemma {:induction false} ExtendRun(cfg: Config, evs: seq<Event>, ev: Event, h: State -> bool)
    ensures After(cfg, evs + [ev]) == Step(cfg, After(cfg, evs), ev)
    ensures AllTornSafe(cfg, evs) && TornSafe(cfg, After(cfg, evs), ev) ==> AllTornSafe(cfg, evs + [ev])
    ensures EveryTake(cfg, evs, h) && (ev.Take? ==> h(After(cfg, evs))) ==> EveryTake(cfg, evs + [ev], h)
  {
    var evs' := evs + [ev];
    assert evs'[..|evs|] == evs;
    assert forall i :: 0 <= i < |evs| ==> evs'[..i] == evs[..i];
  }
}

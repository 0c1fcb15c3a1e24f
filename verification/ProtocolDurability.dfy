/** Crash durability: over every run that meets the stated hypotheses, each
    acknowledged batch is committed or still readable in the log. */
module ProtocolDurability {
  import opened WalFormat
  import opened WalLog
  import opened IngestBuffer
  import opened Protocol
  import opened ProtocolLog
  import opened ProtocolTables

  /** The batch is in the samples table, or the bytes on disk still give it back. */
  ghost predicate Safe(s: State, e: Entry)
  {
    e in s.commits || Live(s.log, e)
  }

  /** What the process holds in memory. */
  ghost predicate InMemory(s: State, e: Entry)
  {
    e in s.pending || e in s.buffered || InFlight(s, e)
  }

  ghost predicate InFlight(s: State, e: Entry)
  {
    exists f :: f in s.flights && e in s.flights[f].entries
  }

  /** While the process is up: everything in memory is live; nothing outside the
      one flight in progress is numbered below what that flight will truncate; and
      unless a flush has failed, every live entry is committed or in memory. */
  ghost predicate MemInv(s: State)
  {
    && (forall e :: InMemory(s, e) ==> Live(s.log, e))
    && (forall f, g :: f in s.flights && g in s.flights ==> f == g)
    && (forall f, e :: f in s.flights && (e in s.pending || e in s.buffered)
          ==> e.batch.recordSeq > s.flights[f].snap.maxSeq)
    && (forall f :: f in s.flights ==> s.flights[f].snap.maxSeq < s.wal.nextSeq)
    && s.buf.maxSeq < s.wal.nextSeq
    && (forall f, e :: f in s.flights && e in s.flights[f].entries && s.flights[f].phase != Taken ==> e in s.commits)
    && (s.failed ==> s.flights == map[])
    && (!s.failed ==> forall e :: Live(s.log, e) ==> e in s.commits || InMemory(s, e))
  }

  ghost predicate DurInv(s: State)
  {
    && (forall e :: e in s.acked ==> Safe(s, e))
    && (s.up ==> MemInv(s))
    && (!s.up ==> s.pending == {} && s.buffered == [] && s.flights == map[])
  }

  // ---------- sequence numbers in the buffer ----------

  /** The buffer's highest number is the number of something in it. */
  lemma MaxSeqBelow(b: BufState, es: seq<Entry>, next: nat)
    requires Holds(b, Batches(es)) && next >= 1
    requires forall e :: e in es ==> e.batch.recordSeq < next
    ensures b.maxSeq < next
  {
    hide HoldsSamples;
    if b.maxSeq != 0 {
      var i :| 0 <= i < |es| && Batches(es)[i].recordSeq == b.maxSeq;
      assert es[i] in es;
    }
  }

  // ---------- the steps ----------

  lemma AppendDur(cfg: Config, s: State, ss: seq<Sample>)
    requires LogInv(cfg, s) && DurInv(s)
    requires Enabled(cfg, s, Append(ss)) && TornSafe(cfg, s, Append(ss))
    ensures DurInv(DoAppend(cfg, s, ss))
  {
    AppendLog(cfg, s, ss);
    AppendContents(cfg.crc, s.wal, cfg.codec.enc(ss));
    hide LogInv, Live, AppendWal, WalOk, CleanTail, Contents;
    var s' := DoAppend(cfg, s, ss);
    AppendMem(s, s', Entry(s.nextId, Batch(s.wal.nextSeq, ss)));
    hide MemInv;
  }

  lemma AppendMem(s: State, s': State, e: Entry)
    requires MemInv(s) && e.batch.recordSeq == s.wal.nextSeq && s'.wal.nextSeq == s.wal.nextSeq + 1
    requires s'.pending == s.pending + {e}
    requires s'.flights == s.flights && s'.commits == s.commits && s'.failed == s.failed
    requires s'.buffered == s.buffered && s'.buf == s.buf
    requires forall x :: Live(s'.log, x) <==> Live(s.log, x) || x == e
    ensures MemInv(s')
  {
    hide Live;
    forall x ensures InMemory(s', x) <==> InMemory(s, x) || x == e {
      SameFlightEntries(s, s', x);
    }
  }

  lemma InsertDur(cfg: Config, s: State, e: Entry)
    requires LogInv(cfg, s) && DurInv(s) && TableInv(s) && Enabled(cfg, s, Insert(e))
    ensures DurInv(DoInsert(s, e))
  {
    hide Live, Holds, AddBatch;
    var s' := DoInsert(s, e);
    InsertMaxSeq(s.buf, e.batch);
    assert InMemory(s, e);
    LiveBounds(cfg, s, e);
    hide LogInv, TableInv;
    assert forall x :: InFlight(s', x) <==> InFlight(s, x);
    assert forall x :: InMemory(s', x) <==> InMemory(s, x);
    InsertMem(s, s', e);
  }

  lemma InsertMem(s: State, s': State, e: Entry)
    requires DurInv(s) && s.up && s'.up && e in s.pending && Live(s.log, e) && e.batch.recordSeq < s.wal.nextSeq
    requires s'.log == s.log && s'.wal == s.wal && s'.flights == s.flights && s'.failed == s.failed
    requires s'.commits == s.commits && s'.acked == s.acked + {e}
    requires s'.pending == s.pending - {e} && s'.buffered == s.buffered + [e]
    requires s'.buf.maxSeq == Max(s.buf.maxSeq, e.batch.recordSeq)
    requires forall x :: InMemory(s', x) <==> InMemory(s, x)
    ensures DurInv(s')
  {
    hide Live, InMemory;
  }

  lemma InsertMaxSeq(b: BufState, batch: Batch)
    ensures AddBatch(b, batch).maxSeq == Max(b.maxSeq, batch.recordSeq)
  {
    AddAllMaxSeq(b.(maxSeq := Max(b.maxSeq, batch.recordSeq)), batch.samples);
  }

  lemma {:induction false} AddAllMaxSeq(b: BufState, ss: seq<Sample>)
    ensures AddAll(b, ss).maxSeq == b.maxSeq
    decreases |ss|
  {
    if ss != [] {
      AddAllMaxSeq(AddOne(b, ss[0]), ss[1..]);
    }
  }

  lemma TakeDur(cfg: Config, s: State, f: nat)
    requires DurInv(s) && TableInv(s)
    requires Enabled(cfg, s, Take(f)) && TakeSafe(s, Take(f))
    ensures DurInv(DoTake(s, f))
  {
    hide Live, Holds;
    var s' := DoTake(s, f);
    assert s'.flights[f] == Flight(s.buffered, s.buf, Taken);
    assert forall x :: InFlight(s', x) <==> x in s.buffered;
    assert forall x :: InMemory(s', x) <==> InMemory(s, x);
  }

  /** A commit moves the flight to its next phase and adds to the commits. */
  lemma CommitMem(s: State, s': State, f: nat)
    requires MemInv(s) && f in s.flights && f in s'.flights
    requires s'.flights == s.flights[f := s.flights[f].(phase := s'.flights[f].phase)]
    requires s'.log == s.log && s'.wal == s.wal && s'.failed == s.failed
    requires s'.pending == s.pending && s'.buffered == s.buffered && s'.buf == s.buf
    requires forall e :: e in s.commits ==> e in s'.commits
    requires forall e :: e in s.flights[f].entries ==> e in s'.commits
    ensures MemInv(s')
  {
    hide Live;
    forall e ensures InMemory(s', e) <==> InMemory(s, e) {
      SameFlightEntries(s, s', e);
    }
  }

  lemma SameFlightEntries(s: State, s': State, e: Entry)
    requires s'.flights.Keys == s.flights.Keys
    requires forall f :: f in s.flights ==> s'.flights[f].entries == s.flights[f].entries
    ensures InFlight(s', e) <==> InFlight(s, e)
  {
    if InFlight(s, e) {
      var f :| f in s.flights && e in s.flights[f].entries;
      assert e in s'.flights[f].entries;
    }
  }

  lemma CommitSamplesDur(cfg: Config, s: State, f: nat)
    requires DurInv(s) && Enabled(cfg, s, CommitSamples(f))
    ensures DurInv(DoCommitSamples(s, f))
  {
    hide Live;
    CommitMem(s, DoCommitSamples(s, f), f);
    hide MemInv;
  }

  lemma CommitSeriesDur(cfg: Config, s: State, f: nat)
    requires DurInv(s) && Enabled(cfg, s, CommitSeries(f))
    ensures DurInv(DoCommitSeries(s, f))
  {
    hide Live;
    assert s.flights[f].phase != Taken;
    CommitMem(s, DoCommitSeries(s, f), f);
    hide MemInv;
  }

  lemma FlushFailsDur(cfg: Config, s: State, f: nat)
    requires DurInv(s) && Enabled(cfg, s, FlushFails(f))
    ensures DurInv(DoFlushFails(s, f))
  {
    hide Live;
    var s' := DoFlushFails(s, f);
    assert s'.flights == map[];
    assert forall x :: InMemory(s', x) ==> InMemory(s, x);
  }

  /** The heart of the matter: a truncation deletes only committed entries. */
  lemma TruncateDur(cfg: Config, s: State, f: nat, stop: nat)
    requires LogInv(cfg, s) && DurInv(s) && Enabled(cfg, s, Truncate(f, stop))
    ensures DurInv(DoTruncate(s, f, stop))
  {
    assert s.up && MemInv(s);
    TruncateShape(s, f, stop);
    hide *;
    TruncateLog(cfg, s, f, stop);
    TruncateMem(s, DoTruncate(s, f, stop), f);
    StaySafe(s, DoTruncate(s, f, stop));
  }

  /** A truncation touches the log and drops its flight. */
  lemma TruncateShape(s: State, f: nat, stop: nat)
    requires f in s.flights
    ensures var s' := DoTruncate(s, f, stop);
      && s'.flights == s.flights - {f} && s'.pending == s.pending && s'.buffered == s.buffered
      && s'.buf == s.buf && s'.commits == s.commits && s'.failed == s.failed && s'.acked == s.acked
      && s'.up == s.up && s'.wal.nextSeq == s.wal.nextSeq
  {
    TruncateFiles(s.wal, s.flights[f].snap.maxSeq, stop);
    hide TruncateWal;
  }

  lemma StaySafe(s: State, s': State)
    requires DurInv(s) && MemInv(s') && s.up && s'.up && s'.acked == s.acked && s'.commits == s.commits
    requires forall e :: Live(s.log, e) && !Live(s'.log, e) ==> e in s.commits
    ensures DurInv(s')
  {
    hide MemInv, Live;
  }

  lemma TruncateMem(s: State, s': State, f: nat)
    requires MemInv(s) && f in s.flights && s.flights[f].phase == SeriesDone
    requires s'.flights == s.flights - {f} && s'.pending == s.pending && s'.buffered == s.buffered
    requires s'.buf == s.buf && s'.commits == s.commits && s'.failed == s.failed
    requires s'.wal.nextSeq == s.wal.nextSeq
    requires forall x :: Live(s'.log, x) ==> Live(s.log, x)
    requires forall x :: Live(s.log, x) && x.batch.recordSeq > s.flights[f].snap.maxSeq ==> Live(s'.log, x)
    ensures MemInv(s')
    ensures forall e :: Live(s.log, e) && !Live(s'.log, e) ==> e in s.commits
  {
    hide Live;
    assert s'.flights == map[];
    forall e | InFlight(s, e) ensures e in s.commits {
      var g :| g in s.flights && e in s.flights[g].entries;
      assert g == f;
    }
    forall e ensures InMemory(s', e) <==> e in s.pending || e in s.buffered {
    }
    forall e | Live(s.log, e) && e !in s.commits
      ensures InMemory(s', e) && e.batch.recordSeq > s.flights[f].snap.maxSeq
    {
      assert InMemory(s, e);
    }
    forall e | InMemory(s', e) ensures Live(s'.log, e) {
      assert InMemory(s, e);
    }
  }

  lemma CrashDur(cfg: Config, s: State, ss: seq<Sample>, cut: nat)
    requires LogInv(cfg, s) && DurInv(s)
    requires Enabled(cfg, s, Crash(ss, cut)) && TornSafe(cfg, s, Crash(ss, cut))
    ensures DurInv(DoCrash(cfg, s, ss, cut))
  {
    CrashLog(cfg, s, ss, cut);
    hide LogInv, Live, CrashInAppend, MemInv;
  }

  lemma ReopenShape(cfg: Config, s: State, seeded: bool)
    requires LogInv(cfg, s)
    ensures var s' := DoReopen(cfg, s, seeded);
      && LogInv(cfg, s') && s'.log == s.log
      && s'.up && !s'.failed && s'.buffered == Recovered(cfg, s)
      && s'.pending == s.pending && s'.flights == s.flights
      && s'.acked == s.acked && s'.commits == s.commits
      && s'.wal.nextSeq >= 1
  {
    ReopenLog(cfg, s, seeded);
    hide LogRecords, Contents, Parse, ScanMax, SeqsAscend, SeqsBelow, IdsDistinct, Recovered, OpenWal, AddEntries;
  }

  lemma {:induction false} ReopenDur(cfg: Config, s: State, seeded: bool)
    requires LogInv(cfg, s) && DurInv(s) && TableInv(DoReopen(cfg, s, seeded))
    requires Enabled(cfg, s, Reopen(seeded))
    ensures DurInv(DoReopen(cfg, s, seeded))
  {
    hide LogInv, Live, Recovered, DoReopen, Holds, MemInv;
    ReopenShape(cfg, s, seeded);
    RecoveredIsLive(cfg, s);
    var s' := DoReopen(cfg, s, seeded);
    RecoveredIsLive(cfg, s');
    ReopenMem(s');
  }

  lemma ReopenMem(s: State)
    requires Holds(s.buf, Batches(s.buffered)) && s.wal.nextSeq >= 1
    requires s.pending == {} && s.flights == map[] && !s.failed
    requires forall e :: e in s.buffered <==> Live(s.log, e)
    requires forall e :: Live(s.log, e) ==> e.batch.recordSeq < s.wal.nextSeq
    ensures MemInv(s)
  {
    hide Live, Holds;
    MaxSeqBelow(s.buf, s.buffered, s.wal.nextSeq);
    assert forall e :: InMemory(s, e) <==> e in s.buffered;
  }

  lemma {:induction false} StepDur(cfg: Config, s: State, ev: Event)
    requires LogInv(cfg, s) && TableInv(s) && DurInv(s)
    requires Enabled(cfg, s, ev) ==> TornSafe(cfg, s, ev) && TakeSafe(s, ev)
    ensures DurInv(Step(cfg, s, ev))
  {
    hide *;
    if Enabled(cfg, s, ev) {
      StepDoes(cfg, s, ev);
      match ev {
        case Append(ss) => AppendDur(cfg, s, ss);
        case Insert(e) => InsertDur(cfg, s, e);
        case Take(f) => TakeDur(cfg, s, f);
        case CommitSamples(f) => CommitSamplesDur(cfg, s, f);
        case CommitSeries(f) => CommitSeriesDur(cfg, s, f);
        case FlushFails(f) => FlushFailsDur(cfg, s, f);
        case Truncate(f, stop) => TruncateDur(cfg, s, f, stop);
        case Crash(ss, cut) => CrashDur(cfg, s, ss, cut);
        case Reopen(seeded) =>
          StepTable(cfg, s, ev);
          ReopenDur(cfg, s, seeded);
      }
    } else {
      StepRests(cfg, s, ev);
    }
  }

  lemma StartDur(cfg: Config)
    ensures DurInv(Init(cfg))
  {
    var s := Init(cfg);
    assert s.log == map[0 := []] && s.wal.nextSeq == 1 by {
      assert FileList(map[]) == [];
    }
    hide OpenWal;
    forall e ensures !Live(s.log, e) && !InMemory(s, e) {
    }
  }

  lemma {:induction false} DurInvAlways(cfg: Config, evs: seq<Event>)
    requires AllTornSafe(cfg, evs) && AllTakeSafe(cfg, evs)
    ensures LogInv(cfg, After(cfg, evs)) && TableInv(After(cfg, evs)) && DurInv(After(cfg, evs))
  {
    hide LogInv, TableInv, DurInv, Init, Step, Enabled, TornSafe, TakeSafe, AllTornSafe, AllTakeSafe;
    LogInvAlways(cfg, evs);
    TableInvAlways(cfg, evs);
    if evs == [] {
      StartDur(cfg);
    } else {
      var n := |evs| - 1;
      SplitRun(cfg, evs);
      DurInvAlways(cfg, evs[..n]);
      StepDur(cfg, After(cfg, evs[..n]), evs[n]);
    }
  }

  /** Crash durability. After every run in which nothing is written behind torn
      bytes and every take is quiet, alone and not after a failure, each
      acknowledged batch either has all its rows in the samples table or is among
      the entries that replay recovers from the bytes on disk. */
  lemma {:induction false} CrashDurability(cfg: Config, evs: seq<Event>, e: Entry)
    requires AllTornSafe(cfg, evs) && AllTakeSafe(cfg, evs)
    requires e in After(cfg, evs).acked
    ensures var s := After(cfg, evs);
      || (e in s.commits && multiset(RowsOf(e.batch.samples)) <= s.table)
      || e in Recovered(cfg, s)
  {
    DurInvAlways(cfg, evs);
    RecoveredIsLive(cfg, After(cfg, evs));
    if e in After(cfg, evs).commits {
      EntryRowsInTable(After(cfg, evs).commits, e);
    }
  }

  /** So a crash at any step, followed by reopen and replay, loses nothing: every
      batch acknowledged before is committed or back in the buffer. */
  lemma {:induction false} CrashAndReplayLoseNothing(cfg: Config, evs: seq<Event>, e: Entry,
                                                     ss: seq<Sample>, cut: nat, seeded: bool)
    requires AllTornSafe(cfg, evs) && AllTakeSafe(cfg, evs)
    requires After(cfg, evs).up && e in After(cfg, evs).acked
    requires Enabled(cfg, After(cfg, evs), Crash(ss, cut)) && TornSafe(cfg, After(cfg, evs), Crash(ss, cut))
    ensures var s := Step(cfg, Step(cfg, After(cfg, evs), Crash(ss, cut)), Reopen(seeded));
      s.up && (e in s.commits || e in s.buffered)
  {
    hide LogInv, DurInv, TableInv, TornSafe, DoCrash, DoReopen;
    DurInvAlways(cfg, evs);
    var s := After(cfg, evs);
    CrashShape(cfg, s, ss, cut);
    CrashReplay(cfg, s, e, ss, cut, seeded);
    assert Step(cfg, s, Crash(ss, cut)) == DoCrash(cfg, s, ss, cut);
  }

  lemma CrashShape(cfg: Config, s: State, ss: seq<Sample>, cut: nat)
    requires Enabled(cfg, s, Crash(ss, cut))
    ensures var s' := DoCrash(cfg, s, ss, cut);
      !s'.up && s'.acked == s.acked && s'.commits == s.commits
  {
  }

  lemma {:induction false} CrashReplay(cfg: Config, s: State, e: Entry, ss: seq<Sample>, cut: nat, seeded: bool)
    requires LogInv(cfg, s) && DurInv(s) && e in s.acked
    requires Enabled(cfg, s, Crash(ss, cut)) && TornSafe(cfg, s, Crash(ss, cut))
    ensures var s' := DoReopen(cfg, DoCrash(cfg, s, ss, cut), seeded);
      s'.up && (e in s'.commits || e in s'.buffered)
  {
    hide LogInv, Live, Recovered, MemInv, TornSafe, DoCrash, DoReopen;
    CrashDur(cfg, s, ss, cut);
    CrashLog(cfg, s, ss, cut);
    CrashShape(cfg, s, ss, cut);
    RecoveredIsLive(cfg, DoCrash(cfg, s, ss, cut));
    ReopenShape(cfg, DoCrash(cfg, s, ss, cut), seeded);
  }
}

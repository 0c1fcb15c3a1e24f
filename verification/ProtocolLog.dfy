/** What the log holds over a run: the bytes of every file are the frames of the
    entries appended to it, so replay recovers exactly the live entries. */
module ProtocolLog {
  import opened Bytes
  import opened Orders
  import opened Wrappers
  import opened WalFormat
  import opened WalLog
  import opened IngestBuffer
  import opened Protocol

  type Log = map<nat, seq<Entry>>

  /** An entry is live when some log file has it. */
  ghost predicate Live(log: Log, e: Entry)
  {
    exists f :: f in log && e in log[f]
  }

  function RecordOf(c: Codec, e: Entry): WalRecord
  {
    WalRecord(e.batch.recordSeq, c.enc(e.batch.samples))
  }

  function RecordsOf(c: Codec, es: seq<Entry>): (rs: seq<WalRecord>)
    ensures |rs| == |es|
  {
    seq(|es|, i requires 0 <= i < |es| => RecordOf(c, es[i]))
  }

  function LogRecords(c: Codec, log: Log): map<nat, seq<WalRecord>>
  {
    map f | f in log :: RecordsOf(c, log[f])
  }

  /** Ids are positive, below the next one, and no two places in the log share one. */
  ghost predicate IdsDistinct(log: Log, nextId: nat)
  {
    && (forall f, i :: f in log && 0 <= i < |log[f]| ==> 1 <= log[f][i].id < nextId)
    && (forall f, g, i, j :: f in log && g in log && 0 <= i < |log[f]| && 0 <= j < |log[g]| ==>
          (log[f][i].id == log[g][j].id ==> f == g && i == j))
  }

  /** Every entry's payload reads back as the entry's batch. */
  ghost predicate AllStorable(c: Codec, log: Log)
  {
    forall f, e :: f in log && e in log[f] ==> Storable(c, e.batch.samples)
  }

  ghost predicate LogInv(cfg: Config, s: State)
  {
    && AllStorable(cfg.codec, s.log)
    && WalOk(cfg.crc, s.wal)
    && Contents(cfg.crc, s.wal.files) == LogRecords(cfg.codec, s.log)
    && s.nextId >= 1
    && IdsDistinct(s.log, s.nextId)
  }

  lemma SameKeys(cfg: Config, s: State)
    requires LogInv(cfg, s)
    ensures s.log.Keys == s.wal.files.Keys
  {
    hide WalOk, IdsDistinct, Parse;
    assert Contents(cfg.crc, s.wal.files).Keys == s.wal.files.Keys;
    assert LogRecords(cfg.codec, s.log).Keys == s.log.Keys;
  }

  // ---------- one more entry ----------

  lemma AddToLogRecords(c: Codec, log: Log, f: nat, e: Entry)
    requires f in log
    ensures LogRecords(c, AddToLog(log, f, e))
         == LogRecords(c, log)[f := LogRecords(c, log)[f] + [RecordOf(c, e)]]
  {
    assert RecordsOf(c, log[f] + [e]) == RecordsOf(c, log[f]) + [RecordOf(c, e)];
  }

  /** Position `i` of file `g` holds what it held, or it is the added entry. */
  lemma AddedAt(log: Log, f: nat, e: Entry, g: nat, i: nat)
    requires g in AddToLog(log, f, e) && i < |AddToLog(log, f, e)[g]|
    ensures var x := AddToLog(log, f, e)[g][i];
      if g in log && i < |log[g]| then x == log[g][i] else g == f && i == (if f in log then |log[f]| else 0) && x == e
  {
  }

  lemma AddToLogIds(log: Log, f: nat, e: Entry)
    requires e.id >= 1 && IdsDistinct(log, e.id)
    ensures IdsDistinct(AddToLog(log, f, e), e.id + 1)
  {
    var log': Log := AddToLog(log, f, e);
    hide AddToLog;
    forall g, i | g in log' && 0 <= i < |log'[g]| ensures 1 <= log'[g][i].id < e.id + 1 {
      AddedAt(log, f, e, g, i);
    }
    forall g, h, i, j | g in log' && h in log' && 0 <= i < |log'[g]| && 0 <= j < |log'[h]| && log'[g][i].id == log'[h][j].id
      ensures g == h && i == j
    {
      AddedAt(log, f, e, g, i);
      AddedAt(log, f, e, h, j);
    }
  }

  lemma AddToLogStorable(c: Codec, log: Log, f: nat, e: Entry)
    requires f in log && AllStorable(c, log) && Storable(c, e.batch.samples)
    ensures AllStorable(c, AddToLog(log, f, e))
  {
    hide Storable;
  }

  lemma AddToLogLive(log: Log, f: nat, e: Entry)
    requires f in log
    ensures forall x :: Live(AddToLog(log, f, e), x) <==> Live(log, x) || x == e
  {
    var log' := AddToLog(log, f, e);
    forall x ensures Live(log', x) <==> Live(log, x) || x == e {
      if x == e {
        assert log'[f][|log[f]|] == e;
        assert e in log'[f];
      } else {
        if Live(log', x) {
          var g :| g in log' && x in log'[g];
          assert x in log[g];
        }
        if Live(log, x) {
          var g :| g in log && x in log[g];
          assert x in log'[g];
        }
      }
    }
  }

  lemma TouchIds(log: Log, f: nat, nextId: nat)
    requires f !in log && IdsDistinct(log, nextId)
    ensures IdsDistinct(log[f := []], nextId)
  {
  }

  lemma TouchLog(c: Codec, log: Log, f: nat, nextId: nat)
    requires f !in log
    ensures LogRecords(c, log[f := []]) == LogRecords(c, log)[f := []]
    ensures forall x :: Live(log[f := []], x) <==> Live(log, x)
    ensures IdsDistinct(log, nextId) ==> IdsDistinct(log[f := []], nextId)
    ensures AllStorable(c, log) ==> AllStorable(c, log[f := []])
  {
    forall x ensures Live(log[f := []], x) <==> Live(log, x) {
      if Live(log, x) {
        var g :| g in log && x in log[g];
        assert x in log[f := []][g];
      }
    }
    assert RecordsOf(c, []) == [];
  }

  // ---------- every step ----------

  lemma {:induction false} AppendLog(cfg: Config, s: State, ss: seq<Sample>)
    requires LogInv(cfg, s) && Enabled(cfg, s, Append(ss)) && TornSafe(cfg, s, Append(ss))
    ensures LogInv(cfg, DoAppend(cfg, s, ss))
    ensures var e := Entry(s.nextId, Batch(s.wal.nextSeq, ss));
      forall x :: Live(DoAppend(cfg, s, ss).log, x) <==> Live(s.log, x) || x == e
  {
    hide WalOk, AppendWal, CleanTail, IdsDistinct, Parse, Frame;
    SameKeys(cfg, s);
    var e := Entry(s.nextId, Batch(s.wal.nextSeq, ss));
    var cur := s.wal.fileSeq;
    assert RecordOf(cfg.codec, e) == WalRecord(s.wal.nextSeq, cfg.codec.enc(ss));
    AppendContents(cfg.crc, s.wal, cfg.codec.enc(ss));
    AddToLogRecords(cfg.codec, s.log, cur, e);
    AddToLogIds(s.log, cur, e);
    AddToLogStorable(cfg.codec, s.log, cur, e);
    AddToLogLive(s.log, cur, e);
    TouchLog(cfg.codec, AddToLog(s.log, cur, e), cur + 1, s.nextId + 1);
  }

  /** An append adds its record to the current file and opens at most the next one. */
  lemma {:induction false} AppendContents(crc: Crc, w: Wal, payload: seq<byte>)
    requires WalOk(crc, w) && CleanTail(crc, w) && |payload| < U32_LIMIT
    requires w.nextSeq + 1 < U64_LIMIT
    ensures var w' := AppendWal(crc, w, payload);
      var rm := Contents(crc, w.files);
      var rm1 := rm[w.fileSeq := rm[w.fileSeq] + [WalRecord(w.nextSeq, payload)]];
      && WalOk(crc, w')
      && (w'.fileSeq == w.fileSeq || w'.fileSeq == w.fileSeq + 1)
      && w.fileSeq + 1 !in w.files
      && Contents(crc, w'.files) == (if w'.fileSeq == w.fileSeq then rm1 else rm1[w.fileSeq + 1 := []])
      && w'.nextSeq == w.nextSeq + 1
  {
    AppendShape(crc, w, payload);
    hide *;
    WriteFrameOk(crc, w, payload);
    var w1 := WriteFrame(crc, w, payload);
    RotateOk(crc, w1);
    if AppendWal(crc, w, payload) != w1 {
      assert AppendWal(crc, w, payload) == RotateWal(w1);
    }
  }

  lemma AppendShape(crc: Crc, w: Wal, payload: seq<byte>)
    requires Open(w) && w.nextSeq + 1 < U64_LIMIT
    ensures var w1 := WriteFrame(crc, w, payload);
      && w1.fileSeq == w.fileSeq && w1.files.Keys == w.files.Keys && w1.nextSeq == w.nextSeq + 1
      && RotateWal(w1).fileSeq == w1.fileSeq + 1 && RotateWal(w1).nextSeq == w1.nextSeq
      && (AppendWal(crc, w, payload) == w1 || AppendWal(crc, w, payload) == RotateWal(w1))
  {
    hide Frame;
  }

  lemma {:induction false} CrashLog(cfg: Config, s: State, ss: seq<Sample>, cut: nat)
    requires LogInv(cfg, s) && Enabled(cfg, s, Crash(ss, cut)) && TornSafe(cfg, s, Crash(ss, cut))
    ensures LogInv(cfg, DoCrash(cfg, s, ss, cut))
    ensures forall x :: Live(s.log, x) ==> Live(DoCrash(cfg, s, ss, cut).log, x)
    ensures forall x :: Live(DoCrash(cfg, s, ss, cut).log, x) ==> Live(s.log, x) || x.id == s.nextId
  {
    hide WalOk, CrashInAppend, CleanTail, IdsDistinct, Parse, Frame;
    SameKeys(cfg, s);
    var e := Entry(s.nextId, Batch(s.wal.nextSeq, ss));
    CrashOk(cfg.crc, s.wal, cfg.codec.enc(ss), cut);
    AddToLogRecords(cfg.codec, s.log, s.wal.fileSeq, e);
    AddToLogIds(s.log, s.wal.fileSeq, e);
    AddToLogStorable(cfg.codec, s.log, s.wal.fileSeq, e);
    AddToLogLive(s.log, s.wal.fileSeq, e);
    IdsWiden(s.log, s.nextId);
  }

  lemma IdsWiden(log: Log, nextId: nat)
    ensures IdsDistinct(log, nextId) ==> IdsDistinct(log, nextId + 1)
  {
  }

  lemma {:induction false} TruncateLog(cfg: Config, s: State, f: nat, stop: nat)
    requires LogInv(cfg, s) && f in s.flights
    ensures LogInv(cfg, DoTruncate(s, f, stop))
    ensures forall x :: Live(DoTruncate(s, f, stop).log, x) ==> Live(s.log, x)
    ensures var through := s.flights[f].snap.maxSeq;
      forall x :: Live(s.log, x) && x.batch.recordSeq > through ==> Live(DoTruncate(s, f, stop).log, x)
  {
    hide WalOk, Parse, ScanMax, TruncateWal, IdsDistinct;
    SameKeys(cfg, s);
    var s' := DoTruncate(s, f, stop);
    var through := s.flights[f].snap.maxSeq;
    TruncateOk(cfg.crc, s.wal, through, stop);
    TruncateFiles(s.wal, through, stop);
    SubLog(cfg, s, s');
    forall x | Live(s.log, x) && x.batch.recordSeq > through ensures Live(s'.log, x) {
      var g :| g in s.log && x in s.log[g];
      KeptFile(cfg, s, g, x, through, stop);
      assert g in s'.log && x in s'.log[g];
    }
  }

  lemma TruncateFiles(w: Wal, through: nat, stop: nat)
    ensures var files := TruncateWal(w, through, stop).files;
      && (forall g :: g in files ==> g in w.files && files[g] == w.files[g])
      && (forall g :: g in w.files && !Deletable(w, through, g) ==> g in files)
      && TruncateWal(w, through, stop) == w.(files := files)
  {
  }

  /** Dropping whole files from both sides keeps bytes and entries together. */
  lemma {:induction false} SubLog(cfg: Config, s: State, s': State)
    requires LogInv(cfg, s) && WalOk(cfg.crc, s'.wal) && s'.nextId == s.nextId
    requires forall g :: g in s'.wal.files ==> g in s.wal.files && s'.wal.files[g] == s.wal.files[g]
    requires s'.log == map g | g in s.log && g in s'.wal.files :: s.log[g]
    ensures LogInv(cfg, s')
    ensures forall x :: Live(s'.log, x) ==> Live(s.log, x)
  {
    hide WalOk, Parse;
    SameKeys(cfg, s);
    var rm, rm' := Contents(cfg.crc, s.wal.files), Contents(cfg.crc, s'.wal.files);
    var lr, lr' := LogRecords(cfg.codec, s.log), LogRecords(cfg.codec, s'.log);
    assert rm'.Keys == lr'.Keys;
    forall g | g in rm' ensures rm'[g] == lr'[g] {
      assert rm[g] == lr[g];
    }
    assert rm' == lr';
    forall x | Live(s'.log, x) ensures Live(s.log, x) {
      var g :| g in s'.log && x in s'.log[g];
      assert x in s.log[g];
    }
  }

  /** A file with an entry numbered above `through` is not deleted. */
  lemma KeptFile(cfg: Config, s: State, g: nat, x: Entry, through: nat, stop: nat)
    requires LogInv(cfg, s) && g in s.log && x in s.log[g] && x.batch.recordSeq > through
    ensures g in s.wal.files && !Deletable(s.wal, through, g)
  {
    hide Parse, ScanMax, IdsDistinct;
    SameKeys(cfg, s);
    var i :| 0 <= i < |s.log[g]| && s.log[g][i] == x;
    var rs := RecordsOf(cfg.codec, s.log[g]);
    assert LogRecords(cfg.codec, s.log)[g] == rs;
    assert Contents(cfg.crc, s.wal.files)[g] == rs;
    assert rs[i] == RecordOf(cfg.codec, x);
    MaxSeqBound(rs);
  }

  lemma ReopenLog(cfg: Config, s: State, seeded: bool)
    requires LogInv(cfg, s)
    ensures LogInv(cfg, DoReopen(cfg, s, seeded))
    ensures DoReopen(cfg, s, seeded).log == s.log
  {
    hide Recovered;
    SameKeys(cfg, s);
    ReopenOk(cfg.crc, s.wal);
  }

  lemma InitLog(cfg: Config)
    ensures LogInv(cfg, Init(cfg))
  {
    var s := Init(cfg);
    var none: map<nat, seq<byte>> := map[];
    assert FileList(none) == [];
    assert s.wal == Wal(map[0 := []], 0, 0, 1, cfg.rotation);
    EmptyFile(cfg.crc);
    hide Parse, ScanMax;
    assert RecordsOf(cfg.codec, []) == [];
    assert Contents(cfg.crc, s.wal.files) == map[0 := []];
    assert LogRecords(cfg.codec, s.log) == map[0 := []];
  }

  /** The log invariant holds after every run that writes nothing behind torn bytes. */
  lemma {:induction false} LogInvAlways(cfg: Config, evs: seq<Event>)
    requires AllTornSafe(cfg, evs)
    ensures LogInv(cfg, After(cfg, evs))
  {
    if evs == [] {
      InitLog(cfg);
    } else {
      var n := |evs| - 1;
      SplitRun(cfg, evs);
      LogInvAlways(cfg, evs[..n]);
      StepLog(cfg, After(cfg, evs[..n]), evs[n]);
    }
  }

  lemma {:induction false} StepLog(cfg: Config, s: State, ev: Event)
    requires LogInv(cfg, s) && (Enabled(cfg, s, ev) ==> TornSafe(cfg, s, ev))
    ensures LogInv(cfg, Step(cfg, s, ev))
  {
    if Enabled(cfg, s, ev) {
      match ev {
        case Append(ss) => AppendLog(cfg, s, ss);
        case Crash(ss, cut) => CrashLog(cfg, s, ss, cut);
        case Truncate(f, stop) => TruncateLog(cfg, s, f, stop);
        case Reopen(seeded) => ReopenLog(cfg, s, seeded);
        case _ =>
      }
    }
  }

  // ---------- what replay recovers ----------

  lemma {:induction false} TagExact(c: Codec, es: seq<Entry>)
    requires forall e :: e in es ==> Storable(c, e.batch.samples)
    ensures Tag(c, RecordsOf(c, es), es) == es
  {
    if es == [] {
    } else {
      assert es == [es[0]] + es[1..];
      TagExact(c, es[1..]);
      assert RecordsOf(c, es)[1..] == RecordsOf(c, es[1..]);
      assert c.dec(c.enc(es[0].batch.samples)) == Some(es[0].batch.samples);
    }
  }

  function LogChain(log: Log, ks: seq<nat>): seq<Entry>
  {
    if ks == [] then [] else (if ks[0] in log then log[ks[0]] else []) + LogChain(log, ks[1..])
  }

  lemma {:induction false} TagFilesExact(cfg: Config, s: State, ks: seq<nat>)
    requires LogInv(cfg, s) && Ascending(ks, NatLess)
    requires forall f :: f in ks ==> f in s.wal.files
    ensures TagFiles(cfg, s.wal.files, s.log, ks) == LogChain(s.log, ks)
  {
    if ks != [] {
      TagFilesExact(cfg, s, ks[1..]);
      SameKeys(cfg, s);
      assert ks[0] in ks;
      assert LogRecords(cfg.codec, s.log)[ks[0]] == RecordsOf(cfg.codec, s.log[ks[0]]);
      assert Recs(cfg.crc, s.wal.files, ks[0]) == Contents(cfg.crc, s.wal.files)[ks[0]];
      TagExact(cfg.codec, s.log[ks[0]]);
      if |ks| > 1 {
        assert NatLess(ks[0], ks[1]) && ks[1] in ks;
      }
    }
  }

  ghost predicate InChain(log: Log, ks: seq<nat>, e: Entry)
  {
    exists f :: f in ks && f in log && e in log[f]
  }

  lemma {:induction false} LogChainMembers(log: Log, ks: seq<nat>)
    ensures forall e :: e in LogChain(log, ks) <==> InChain(log, ks, e)
  {
    if ks != [] {
      LogChainMembers(log, ks[1..]);
      assert ks == [ks[0]] + ks[1..];
      forall e ensures e in LogChain(log, ks) <==> InChain(log, ks, e) {
        if e in LogChain(log, ks[1..]) {
          var f :| f in ks[1..] && f in log && e in log[f];
          assert f in ks;
        }
        if InChain(log, ks, e) {
          var f :| f in ks && f in log && e in log[f];
          assert f == ks[0] || InChain(log, ks[1..], e);
        }
      }
    }
  }

  ghost predicate NoDupIds(es: seq<Entry>)
  {
    forall i, j :: 0 <= i < j < |es| ==> es[i].id != es[j].id
  }

  lemma {:induction false} LogChainDistinct(log: Log, ks: seq<nat>, nextId: nat)
    requires IdsDistinct(log, nextId) && Ascending(ks, NatLess)
    ensures NoDupIds(LogChain(log, ks))
  {
    if ks != [] {
      LogChainDistinct(log, ks[1..], nextId);
      LogChainMembers(log, ks[1..]);
      HeadLeast(ks, NatLess);
      var a := if ks[0] in log then log[ks[0]] else [];
      var b := LogChain(log, ks[1..]);
      forall i, j | 0 <= i < |a| && 0 <= j < |b| ensures a[i].id != b[j].id {
        assert b[j] in b;
        var f :| f in ks[1..] && f in log && b[j] in log[f];
        var j' :| 0 <= j' < |log[f]| && log[f][j'] == b[j];
        assert NatLess(ks[0], f);
      }
    }
  }

  /** Replay recovers exactly the live entries, each once. */
  lemma {:induction false} RecoveredIsLive(cfg: Config, s: State)
    requires LogInv(cfg, s)
    ensures forall e :: e in Recovered(cfg, s) <==> Live(s.log, e)
    ensures NoDupIds(Recovered(cfg, s))
    ensures forall e :: e in Recovered(cfg, s) ==> 1 <= e.id < s.nextId && 1 <= e.batch.recordSeq < s.wal.nextSeq
  {
    var ks := FileList(s.wal.files);
    SameKeys(cfg, s);
    TagFilesExact(cfg, s, ks);
    LogChainMembers(s.log, ks);
    LogChainDistinct(s.log, ks, s.nextId);
    hide WalOk, Parse, TagFiles, LogChain;
    forall e ensures e in Recovered(cfg, s) <==> Live(s.log, e) {
      if Live(s.log, e) {
        var f :| f in s.log && e in s.log[f];
        assert f in ks;
      }
    }
    forall e | Live(s.log, e) ensures 1 <= e.id < s.nextId && 1 <= e.batch.recordSeq < s.wal.nextSeq {
      LiveBounds(cfg, s, e);
    }
  }

  lemma LiveBounds(cfg: Config, s: State, e: Entry)
    requires LogInv(cfg, s) && Live(s.log, e)
    ensures 1 <= e.id < s.nextId && 1 <= e.batch.recordSeq < s.wal.nextSeq
  {
    hide Parse, ScanMax;
    var f :| f in s.log && e in s.log[f];
    var i :| 0 <= i < |s.log[f]| && s.log[f][i] == e;
    var rm := LogRecords(cfg.codec, s.log);
    assert rm[f][i] == RecordOf(cfg.codec, e);
  }
}

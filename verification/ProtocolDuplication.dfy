/** How often a batch can be committed: once per life of the process at most. No
    hypothesis on the run is needed: torn tails, overlaps and failures included,
    because replay matches records to appended entries position by position. */
module ProtocolDuplication {
  import opened Bytes
  import opened Orders
  import opened WalFormat
  import opened WalLog
  import opened IngestBuffer
  import opened Protocol
  import opened ProtocolLog

  function CountId(es: seq<Entry>, id: nat): nat
  {
    if es == [] then 0 else CountId(es[..|es| - 1], id) + (if es[|es| - 1].id == id then 1 else 0)
  }

  /** The ids of appended entries; 0 is the id of a record no append wrote. */
  function Ids(es: seq<Entry>): set<nat>
  {
    set i | 0 <= i < |es| && es[i].id >= 1 :: es[i].id
  }

  /** No appended entry occurs twice. */
  ghost predicate Once(es: seq<Entry>)
  {
    forall i, j :: 0 <= i < j < |es| && es[i].id >= 1 ==> es[i].id != es[j].id
  }

  // ---------- replay yields an appended entry once at most ----------

  ghost predicate IdInv(s: State)
  {
    s.nextId >= 1 && IdsDistinct(s.log, s.nextId)
  }

  /** Every step keeps the ids of the log apart, whatever the bytes are. */
  lemma {:induction false} StepIds(cfg: Config, s: State, ev: Event)
    requires IdInv(s)
    ensures IdInv(Step(cfg, s, ev))
  {
    hide IdsDistinct, AppendWal, TruncateWal, CrashInAppend, OpenWal, Recovered, AddEntries, AddBatch;
    if Enabled(cfg, s, ev) {
      match ev {
        case Append(ss) =>
          var e := Entry(s.nextId, Batch(s.wal.nextSeq, ss));
          var f := AppendWal(cfg.crc, s.wal, cfg.codec.enc(ss)).fileSeq;
          AddToLogIds(s.log, s.wal.fileSeq, e);
          var log' := AddToLog(s.log, s.wal.fileSeq, e);
          if f !in log' {
            TouchIds(log', f, s.nextId + 1);
          }
        case Crash(ss, cut) =>
          AddToLogIds(s.log, s.wal.fileSeq, Entry(s.nextId, Batch(s.wal.nextSeq, ss)));
          IdsWiden(s.log, s.nextId);
        case Truncate(f, stop) =>
          SubIds(s.log, DoTruncate(s, f, stop).log, s.nextId);
        case Reopen(_) =>
          var f := OpenWal(s.wal.files, s.wal.rotation).fileSeq;
          if f !in s.log {
            TouchIds(s.log, f, s.nextId);
          }
        case _ =>
      }
    }
  }

  lemma SubIds(log: Log, log': Log, nextId: nat)
    requires IdsDistinct(log, nextId) && forall g :: g in log' ==> g in log && log'[g] == log[g]
    ensures IdsDistinct(log', nextId)
  {
  }

  /** Distinct entries by position, and every one of them from `es`. */
  lemma {:induction false} TagOnce(c: Codec, rs: seq<WalRecord>, es: seq<Entry>)
    requires NoDupIds(es)
    ensures Once(Tag(c, rs, es))
    ensures forall x :: x in Tag(c, rs, es) ==> x.id == 0 || x in es
    decreases |rs|
  {
    if rs != [] {
      var es' := if es == [] then [] else es[1..];
      var x0 := TagStep(c, rs, es);
      hide Once, Tag;
      TagOnce(c, rs[1..], es');
      assert es != [] ==> es == [es[0]] + es';
      forall x | es != [] && x in es' ensures x.id != es[0].id {
        var i :| 0 <= i < |es'| && es'[i] == x;
        assert es[i + 1] == x;
      }
      OnceCons(x0, Tag(c, rs[1..], es'));
    }
  }

  /** One record adds nothing, the entry at its position, or a stranger. */
  lemma TagStep(c: Codec, rs: seq<WalRecord>, es: seq<Entry>) returns (x: Entry)
    requires rs != []
    ensures var rest := Tag(c, rs[1..], if es == [] then [] else es[1..]);
      Tag(c, rs, es) == rest || Tag(c, rs, es) == [x] + rest
    ensures x.id == 0 || (es != [] && x == es[0])
  {
    var o := c.dec(rs[0].payload);
    var batch := Batch(rs[0].recordSeq, if o.Some? then o.value else []);
    x := if es != [] && es[0].batch == batch then es[0] else Entry(0, batch);
  }

  lemma OnceCons(x: Entry, es: seq<Entry>)
    requires Once(es) && (x.id >= 1 ==> forall y :: y in es ==> y.id != x.id)
    ensures Once([x] + es)
  {
    assert forall i :: 0 <= i < |es| ==> es[i] in es;
  }

  lemma FileOnce(log: Log, f: nat, nextId: nat)
    requires IdsDistinct(log, nextId) && f in log
    ensures NoDupIds(log[f])
  {
  }

  /** What replay takes from the listed files lies in the log of those files. */
  ghost predicate FromFiles(log: Log, ks: seq<nat>, x: Entry)
  {
    x.id == 0 || exists f :: f in ks && f in log && x in log[f]
  }

  lemma {:induction false} TagFilesOnce(cfg: Config, files: map<nat, seq<byte>>, log: Log, ks: seq<nat>, nextId: nat)
    requires IdsDistinct(log, nextId) && Ascending(ks, NatLess) && forall f :: f in ks ==> f in files
    ensures Once(TagFiles(cfg, files, log, ks))
    ensures forall x :: x in TagFiles(cfg, files, log, ks) ==> FromFiles(log, ks, x)
  {
    if ks != [] {
      hide Tag, Parse, IdsDistinct;
      var es := if ks[0] in log then log[ks[0]] else [];
      var here, rest := Tag(cfg.codec, Recs(cfg.crc, files, ks[0]), es), TagFiles(cfg, files, log, ks[1..]);
      assert NoDupIds(es) by {
        if ks[0] in log {
          FileOnce(log, ks[0], nextId);
        }
      }
      TagOnce(cfg.codec, Recs(cfg.crc, files, ks[0]), es);
      HeadLeast(ks, NatLess);
      assert ks == [ks[0]] + ks[1..];
      TagFilesOnce(cfg, files, log, ks[1..], nextId);
      forall x | x in rest ensures FromFiles(log, ks, x) {
        assert FromFiles(log, ks[1..], x);
      }
      forall x | x in here ensures FromFiles(log, ks, x) {
      }
      forall x, y | x in here && y in rest && x.id >= 1 ensures x.id != y.id {
        if y.id >= 1 {
          var f :| f in ks[1..] && f in log && y in log[f];
          assert NatLess(ks[0], f);
          OtherFile(log, nextId, ks[0], f, x, y);
        }
      }
      OnceJoin(here, rest);
    }
  }

  lemma OtherFile(log: Log, nextId: nat, f: nat, g: nat, x: Entry, y: Entry)
    requires IdsDistinct(log, nextId) && f != g && f in log && g in log && x in log[f] && y in log[g]
    ensures x.id != y.id
  {
    var i :| 0 <= i < |log[f]| && log[f][i] == x;
    var j :| 0 <= j < |log[g]| && log[g][j] == y;
  }

  lemma OnceJoin(a: seq<Entry>, b: seq<Entry>)
    requires Once(a) && Once(b) && forall x, y :: x in a && y in b && x.id >= 1 ==> x.id != y.id
    ensures Once(a + b)
  {
    forall i, j | 0 <= i < j < |a + b| && (a + b)[i].id >= 1 ensures (a + b)[i].id != (a + b)[j].id {
      if i < |a| <= j {
        assert a[i] in a && b[j - |a|] in b;
      }
    }
  }

  lemma RecoveredOnce(cfg: Config, s: State)
    requires IdInv(s)
    ensures Once(Recovered(cfg, s))
    ensures forall x :: x in Recovered(cfg, s) ==> x.id < s.nextId
  {
    hide TagFiles;
    var ks := FileList(s.wal.files);
    TagFilesOnce(cfg, s.wal.files, s.log, ks, s.nextId);
    forall x | x in Recovered(cfg, s) && x.id >= 1 ensures x.id < s.nextId {
      var f :| f in ks && f in s.log && x in s.log[f];
      var i :| 0 <= i < |s.log[f]| && s.log[f][i] == x;
    }
  }

  // ---------- counting ----------

  lemma {:induction false} CountConcat(a: seq<Entry>, b: seq<Entry>, id: nat)
    ensures CountId(a + b, id) == CountId(a, id) + CountId(b, id)
  {
    if b == [] {
      assert a + b == a;
    } else {
      var n := |b| - 1;
      assert (a + b)[..|a + b| - 1] == a + b[..n];
      CountConcat(a, b[..n], id);
    }
  }

  lemma {:induction false} CountDistinct(es: seq<Entry>, id: nat)
    requires Once(es) && id >= 1
    ensures CountId(es, id) == if id in Ids(es) then 1 else 0
  {
    if es != [] {
      var n := |es| - 1;
      CountDistinct(es[..n], id);
      assert es == es[..n] + [es[n]];
      IdsAppend(es[..n], es[n]);
      forall i | 0 <= i < n && es[n].id == id ensures es[..n][i].id != id {
        assert es[..n][i] == es[i];
      }
    }
  }

  function PendingIds(p: set<Entry>): set<nat>
  {
    set e | e in p :: e.id
  }

  /** The ids of the flight that no commit of this process has seen yet. */
  function UncommittedIds(fl: Flight): set<nat>
  {
    if fl.phase == Taken then Ids(fl.entries) else {}
  }

  /** Ids held in memory and not committed by this process. */
  ghost predicate Held(s: State, id: nat)
  {
    || id in PendingIds(s.pending)
    || id in Ids(s.buffered)
    || exists f :: f in s.flights && id in UncommittedIds(s.flights[f])
  }

  ghost predicate PendingDistinct(p: set<Entry>)
  {
    forall a, b :: a in p && b in p && a.id == b.id ==> a == b
  }

  /** No id is in memory twice. */
  ghost predicate HeldOnce(s: State)
  {
    && PendingDistinct(s.pending)
    && Once(s.buffered)
    && PendingIds(s.pending) !! Ids(s.buffered)
    && (forall f :: f in s.flights ==> Once(s.flights[f].entries))
    && (forall f :: f in s.flights ==> UncommittedIds(s.flights[f]) !! PendingIds(s.pending) + Ids(s.buffered))
    && (forall f, g :: f in s.flights && g in s.flights && f != g ==>
          UncommittedIds(s.flights[f]) !! UncommittedIds(s.flights[g]))
  }

  ghost predicate DupInv(s: State)
  {
    && HeldOnce(s) && s.nextId >= 1
    && (forall e :: e in s.pending ==> e.id >= 1)
    && (forall id: nat :: Held(s, id) ==> 1 <= id < s.nextId && CountId(s.commits, id) <= s.crashes)
    && (forall id: nat :: id >= s.nextId ==> CountId(s.commits, id) == 0)
    && (forall id: nat :: id >= 1 ==> CountId(s.commits, id) <= if s.up then s.crashes + 1 else s.crashes)
    && (!s.up ==> s.pending == {} && s.buffered == [] && s.flights == map[])
  }

  lemma AppendDup(cfg: Config, s: State, ss: seq<Sample>)
    requires DupInv(s) && s.up && Open(s.wal)
    ensures DupInv(DoAppend(cfg, s, ss))
  {
    hide AppendWal;
    var s' := DoAppend(cfg, s, ss);
    var e := Entry(s.nextId, Batch(s.wal.nextSeq, ss));
    assert PendingIds(s'.pending) == PendingIds(s.pending) + {s.nextId};
    assert !Held(s, s.nextId);
    forall id: nat | Held(s', id) ensures Held(s, id) || id == s.nextId {
    }
    forall a | a in s.pending ensures a.id != s.nextId {
      assert a.id in PendingIds(s.pending);
    }
  }

  lemma IdsAppend(es: seq<Entry>, e: Entry)
    ensures Ids(es + [e]) == Ids(es) + if e.id >= 1 then {e.id} else {}
  {
    forall id | id in Ids(es) + if e.id >= 1 then {e.id} else {} ensures id in Ids(es + [e]) {
      if id in Ids(es) {
        var i :| 0 <= i < |es| && es[i].id == id;
        assert (es + [e])[i].id == id;
      } else {
        assert (es + [e])[|es|].id == id;
      }
    }
  }

  lemma InsertDup(s: State, e: Entry)
    requires DupInv(s) && s.up && e in s.pending
    ensures DupInv(DoInsert(s, e))
  {
    var s' := DoInsert(s, e);
    assert e.id in PendingIds(s.pending);
    assert PendingIds(s'.pending) == PendingIds(s.pending) - {e.id};
    IdsAppend(s.buffered, e);
    forall i | 0 <= i < |s.buffered| && s.buffered[i].id >= 1 ensures s.buffered[i].id != e.id {
      assert s.buffered[i].id in Ids(s.buffered);
    }
    assert forall id: nat :: Held(s', id) ==> Held(s, id);
  }

  lemma TakeDup(s: State, f: nat)
    requires DupInv(s) && s.up && f !in s.flights
    ensures DupInv(DoTake(s, f))
  {
    var s' := DoTake(s, f);
    assert Ids(s'.buffered) == {};
    assert UncommittedIds(s'.flights[f]) == Ids(s.buffered);
    forall id: nat | Held(s', id) ensures Held(s, id) {
      if id !in PendingIds(s.pending) && id !in Ids(s.buffered) {
        var g :| g in s'.flights && id in UncommittedIds(s'.flights[g]);
        assert g != f && g in s.flights && id in UncommittedIds(s.flights[g]);
      }
    }
  }

  lemma CommitDup(s: State, f: nat)
    requires DupInv(s) && s.up && f in s.flights && s.flights[f].phase == Taken
    ensures DupInv(DoCommitSamples(s, f))
  {
    hide CountId, Once, PendingIds, Ids;
    var s' := DoCommitSamples(s, f);
    var es := s.flights[f].entries;
    assert UncommittedIds(s'.flights[f]) == {};
    forall id: nat | id >= 1
      ensures CountId(s'.commits, id) == CountId(s.commits, id) + if id in Ids(es) then 1 else 0
    {
      CountConcat(s.commits, es, id);
      CountDistinct(es, id);
    }
    forall id | id in Ids(es) ensures Held(s, id) {
      assert id in UncommittedIds(s.flights[f]);
    }
    forall id: nat | Held(s', id) ensures Held(s, id) && id !in Ids(es) {
      assert UncommittedIds(s.flights[f]) == Ids(es);
      if id !in PendingIds(s.pending) && id !in Ids(s.buffered) {
        var g :| g in s'.flights && id in UncommittedIds(s'.flights[g]);
        assert g != f && g in s.flights && id in UncommittedIds(s.flights[g]);
      }
    }
  }

  /** Steps that only remove flights, or move them past their samples commit. */
  lemma FewerFlights(s: State, s': State)
    requires DupInv(s) && s.up && s'.up
    requires s'.pending == s.pending && s'.buffered == s.buffered && s'.commits == s.commits
    requires s'.nextId == s.nextId && s'.crashes == s.crashes
    requires forall f :: f in s'.flights ==> f in s.flights && s'.flights[f].entries == s.flights[f].entries
    requires forall f :: f in s'.flights && s'.flights[f].phase == Taken ==> s.flights[f].phase == Taken
    ensures DupInv(s')
  {
    hide CountId, Once;
    assert forall f :: f in s'.flights ==> UncommittedIds(s'.flights[f]) <= UncommittedIds(s.flights[f]);
    forall id: nat | Held(s', id) ensures Held(s, id) {
      if id !in PendingIds(s.pending) && id !in Ids(s.buffered) {
        var g :| g in s'.flights && id in UncommittedIds(s'.flights[g]);
        assert g in s.flights && id in UncommittedIds(s.flights[g]);
      }
    }
  }

  lemma CrashDup(s: State, s': State)
    requires DupInv(s) && s.up && !s'.up && s'.commits == s.commits && s'.crashes == s.crashes + 1
    requires s'.nextId >= s.nextId
    requires s'.pending == {} && s'.buffered == [] && s'.flights == map[]
    ensures DupInv(s')
  {
    hide CountId;
    assert Ids([]) == {} && PendingIds({}) == {};
    assert forall id: nat :: !Held(s', id);
  }

  lemma ReopenDup(s: State, s': State)
    requires DupInv(s) && !s.up && s'.up && s'.commits == s.commits && s'.crashes == s.crashes
    requires s'.nextId == s.nextId
    requires s'.pending == {} && s'.flights == map[] && Once(s'.buffered)
    requires forall e :: e in s'.buffered ==> e.id < s.nextId
    ensures DupInv(s')
  {
    hide CountId;
    assert PendingIds({}) == {};
    forall id: nat | Held(s', id) ensures id < s.nextId {
      var i :| 0 <= i < |s'.buffered| && s'.buffered[i].id == id;
      assert s'.buffered[i] in s'.buffered;
    }
  }

  lemma {:induction false} StepDup(cfg: Config, s: State, ev: Event)
    requires IdInv(s) && DupInv(s)
    ensures DupInv(Step(cfg, s, ev))
  {
    hide DupInv, IdInv, AppendWal, TruncateWal, CrashInAppend, Recovered, OpenWal, AddEntries, AddBatch;
    if Enabled(cfg, s, ev) {
      match ev {
        case Append(ss) => AppendDup(cfg, s, ss);
        case Insert(e) => InsertDup(s, e);
        case Take(f) => TakeDup(s, f);
        case CommitSamples(f) => CommitDup(s, f);
        case CommitSeries(f) => FewerFlights(s, DoCommitSeries(s, f));
        case FlushFails(f) => FewerFlights(s, DoFlushFails(s, f));
        case Truncate(f, stop) => FewerFlights(s, DoTruncate(s, f, stop));
        case Crash(ss, cut) => CrashDup(s, DoCrash(cfg, s, ss, cut));
        case Reopen(seeded) =>
          RecoveredOnce(cfg, s);
          DownIsEmpty(s);
          ReopenDup(s, DoReopen(cfg, s, seeded));
      }
    }
  }

  lemma DownIsEmpty(s: State)
    requires DupInv(s) && !s.up
    ensures s.pending == {} && s.flights == map[]
  {
  }

  lemma {:induction false} DupInvAlways(cfg: Config, evs: seq<Event>)
    ensures IdInv(After(cfg, evs)) && DupInv(After(cfg, evs))
  {
    if evs == [] {
      assert Ids([]) == {} && PendingIds({}) == {};
    } else {
      var n := |evs| - 1;
      DupInvAlways(cfg, evs[..n]);
      StepIds(cfg, After(cfg, evs[..n]), evs[n]);
      StepDup(cfg, After(cfg, evs[..n]), evs[n]);
    }
  }

  /** Duplication bound: over every run, with c crashes, however many flushes overlap
      or fail and whatever is written behind torn bytes, no append has its samples
      committed more than c + 1 times. */
  lemma {:induction false} DuplicationBound(cfg: Config, evs: seq<Event>, id: nat)
    requires id >= 1
    ensures CountId(After(cfg, evs).commits, id) <= After(cfg, evs).crashes + 1
  {
    DupInvAlways(cfg, evs);
  }
}

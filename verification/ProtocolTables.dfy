/** What reaches the samples table: over every run, with no hypothesis at all, its
    rows are exactly the rows of the entries committed, commit by commit. */
module ProtocolTables {
  import opened WalLog
  import opened IngestBuffer
  import opened Flush
  import opened Protocol

  function Batches(es: seq<Entry>): (bs: seq<Batch>)
    ensures |bs| == |es|
  {
    seq(|es|, i requires 0 <= i < |es| => es[i].batch)
  }

  function RowsOfEntries(es: seq<Entry>): seq<Row>
  {
    RowsOf(Flat(Batches(es)))
  }

  ghost predicate TableInv(s: State)
  {
    && Holds(s.buf, Batches(s.buffered))
    && (forall f :: f in s.flights ==> Holds(s.flights[f].snap, Batches(s.flights[f].entries)))
    && s.table == multiset(RowsOfEntries(s.commits))
  }

  lemma {:induction false} FlatConcat(a: seq<Batch>, b: seq<Batch>)
    ensures Flat(a + b) == Flat(a) + Flat(b)
  {
    if b == [] {
      assert a + b == a;
    } else {
      var n := |b| - 1;
      FlatConcat(a, b[..n]);
      assert (a + b)[..|a + b| - 1] == a + b[..n];
    }
  }

  lemma RowsOfEntriesConcat(a: seq<Entry>, b: seq<Entry>)
    ensures RowsOfEntries(a + b) == RowsOfEntries(a) + RowsOfEntries(b)
  {
    assert Batches(a + b) == Batches(a) + Batches(b);
    FlatConcat(Batches(a), Batches(b));
    RowsOfConcat(Flat(Batches(a)), Flat(Batches(b)));
  }

  /** Flushing a snapshot writes exactly the rows of the entries it holds. */
  lemma {:induction false} SnapshotRows(snap: BufState, es: seq<Entry>)
    requires Holds(snap, Batches(es))
    ensures multiset(AllRows(FlushFiles(snap.byDay))) == multiset(RowsOfEntries(es))
  {
    forall r ensures multiset(AllRows(FlushFiles(snap.byDay)))[r] == multiset(RowsOfEntries(es))[r] {
      FlushWritesSnapshot(snap.byDay, r);
    }
  }

  lemma {:induction false} AddEntriesHolds(b: BufState, es: seq<Entry>, more: seq<Entry>)
    requires Holds(b, Batches(es))
    ensures Holds(AddEntries(b, more), Batches(es + more))
    ensures AddEntries(b, more).known == b.known
    decreases |more|
  {
    hide Holds, AddBatch;
    if more == [] {
      assert es + more == es;
    } else {
      AddBatchHolds(b, Batches(es), more[0].batch);
      assert Batches(es + [more[0]]) == Batches(es) + [more[0].batch];
      AddEntriesHolds(AddBatch(b, more[0].batch), es + [more[0]], more[1..]);
      assert es + more == (es + [more[0]]) + more[1..];
    }
  }

  lemma InsertTable(s: State, e: Entry)
    requires TableInv(s)
    ensures TableInv(DoInsert(s, e))
  {
    AddBatchHolds(s.buf, Batches(s.buffered), e.batch);
    assert Batches(s.buffered + [e]) == Batches(s.buffered) + [e.batch];
    hide Holds, AddBatch;
  }

  lemma TakeTable(s: State, f: nat)
    requires TableInv(s)
    ensures TableInv(DoTake(s, f))
  {
    EmptyHolds(s.buf.known + s.buf.newSeries.Keys);
    assert Batches([]) == [];
    hide Holds;
  }

  lemma {:induction false} CommitTable(s: State, f: nat)
    requires TableInv(s) && f in s.flights
    ensures TableInv(DoCommitSamples(s, f))
  {
    hide Holds, RowsOfEntries, FlushFiles;
    SnapshotRows(s.flights[f].snap, s.flights[f].entries);
    RowsOfEntriesConcat(s.commits, s.flights[f].entries);
  }

  lemma CrashTable(cfg: Config, s: State, ss: seq<Sample>, cut: nat)
    requires TableInv(s) && Enabled(cfg, s, Crash(ss, cut))
    ensures TableInv(DoCrash(cfg, s, ss, cut))
  {
    EmptyHolds({});
    assert Batches([]) == [];
    hide Holds, CrashInAppend;
  }

  lemma {:induction false} ReopenTable(cfg: Config, s: State, seeded: bool)
    requires TableInv(s)
    ensures TableInv(DoReopen(cfg, s, seeded))
  {
    hide Holds, Recovered, OpenWal;
    var known := if seeded then set r | r in s.series :: r.0 else {};
    var es := Recovered(cfg, s);
    EmptyHolds(known);
    assert Batches([]) == [];
    AddEntriesHolds(EmptyBuffer(known), [], es);
    assert [] + es == es;
  }

  lemma {:induction false} StepTable(cfg: Config, s: State, ev: Event)
    requires TableInv(s)
    ensures TableInv(Step(cfg, s, ev))
  {
    hide Holds, RowsOfEntries, AppendWal, TruncateWal, Recovered, CrashInAppend, OpenWal;
    if Enabled(cfg, s, ev) {
      match ev {
        case Insert(e) => InsertTable(s, e);
        case Take(f) => TakeTable(s, f);
        case CommitSamples(f) => CommitTable(s, f);
        case Crash(ss, cut) => CrashTable(cfg, s, ss, cut);
        case Reopen(seeded) => ReopenTable(cfg, s, seeded);
        case _ =>
      }
    }
  }

  /** Conservation: after any run the samples table holds exactly the rows of the
      committed entries, each as often as it was committed. */
  lemma {:induction false} TableInvAlways(cfg: Config, evs: seq<Event>)
    ensures TableInv(After(cfg, evs))
  {
    if evs == [] {
      EmptyHolds({});
      assert Batches([]) == [];
      assert RowsOf([]) == [];
    } else {
      TableInvAlways(cfg, evs[..|evs| - 1]);
      StepTable(cfg, After(cfg, evs[..|evs| - 1]), evs[|evs| - 1]);
    }
  }

  lemma {:induction false} EntryRowsInTable(es: seq<Entry>, e: Entry)
    requires e in es
    ensures multiset(RowsOf(e.batch.samples)) <= multiset(RowsOfEntries(es))
  {
    var n := |es| - 1;
    RowsOfEntriesConcat(es[..n], [es[n]]);
    assert es == es[..n] + [es[n]];
    if e == es[n] {
      assert Batches([e]) == [e.batch];
      assert Flat([e.batch]) == e.batch.samples;
    } else {
      EntryRowsInTable(es[..n], e);
    }
  }
}

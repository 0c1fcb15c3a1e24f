/** The write-ahead log as a whole: numbered files of bytes and the writer's
    position in them. The functions here specify `WalWriter`; the lemmas say what
    every operation keeps. */
module WalLog {
  import opened Bytes
  import opened Orders
  import opened WalFormat

  /** The directory's files by number, and the fields of an open writer. */
  datatype Wal = Wal(files: map<nat, seq<byte>>, fileSeq: nat, fileBytes: nat,
                     nextSeq: nat, rotation: nat)

  /** u64 addition of one, as a release build computes it. */
  function Inc(n: nat): nat { (n + 1) % U64_LIMIT }

  /** The numbers of the log files, ascending. */
  function FileList(files: map<nat, seq<byte>>): (ks: seq<nat>)
    ensures Ascending(ks, NatLess)
    ensures forall f :: f in ks <==> f in files
    ensures |ks| == |files.Keys|
  {
    NatLessTotal();
    Sorted(files.Keys, NatLess)
  }

  // ---------- open ----------

  /** `next_record_seq` after scanning the listed files, starting from `acc`. */
  function NextAfter(files: map<nat, seq<byte>>, ks: seq<nat>, acc: nat): nat
    requires forall f :: f in ks ==> f in files
  {
    if ks == [] then acc
    else
      var n := Inc(ScanMax(files[ks[0]]));
      NextAfter(files, ks[1..], if n > acc then n else acc)
  }

  function LastFile(files: map<nat, seq<byte>>): nat
  {
    var ks := FileList(files);
    if ks == [] then 0 else ks[|ks| - 1]
  }

  /** Creates the file if it is not there; keeps its bytes if it is. */
  function Touch(files: map<nat, seq<byte>>, f: nat): map<nat, seq<byte>>
  {
    if f in files then files else files[f := []]
  }

  function OpenWal(files: map<nat, seq<byte>>, rotation: nat): Wal
  {
    var cur := LastFile(files);
    var fs := Touch(files, cur);
    Wal(fs, cur, |fs[cur]|, NextAfter(files, FileList(files), 1), rotation)
  }

  // ---------- append, rotate, truncate ----------

  predicate Open(w: Wal) { w.fileSeq in w.files }

  /** The bytes of one append, before any rotation. */
  function WriteFrame(crc: Crc, w: Wal, payload: seq<byte>): Wal
    requires Open(w)
  {
    var frame := Frame(crc, WalRecord(w.nextSeq, payload));
    w.(files := w.files[w.fileSeq := w.files[w.fileSeq] + frame],
       fileBytes := w.fileBytes + |frame|,
       nextSeq := Inc(w.nextSeq))
  }

  function RotateWal(w: Wal): Wal
  {
    w.(files := Touch(w.files, w.fileSeq + 1), fileSeq := w.fileSeq + 1, fileBytes := 0)
  }

  function AppendWal(crc: Crc, w: Wal, payload: seq<byte>): Wal
    requires Open(w)
  {
    var w' := WriteFrame(crc, w, payload);
    if w'.fileBytes >= w'.rotation then RotateWal(w') else w'
  }

  predicate Deletable(w: Wal, through: nat, f: nat)
  {
    f in w.files && f != w.fileSeq && ScanMax(w.files[f]) <= through
  }

  /** `truncate_through`, carried out in full. */
  function TruncateAll(w: Wal, through: nat): Wal
  {
    w.(files := map f | f in w.files && !Deletable(w, through, f) :: w.files[f])
  }

  /** `truncate_through`, interrupted before it reaches file `stop`: files are
      deleted in ascending order, so an error or a crash leaves the rest. */
  function TruncateWal(w: Wal, through: nat, stop: nat): Wal
  {
    w.(files := map f | f in w.files && !(f < stop && Deletable(w, through, f)) :: w.files[f])
  }

  /** A crash while a frame is being written: its first `cut` bytes are there. */
  function CrashInAppend(crc: Crc, w: Wal, payload: seq<byte>, cut: nat): map<nat, seq<byte>>
    requires Open(w) && cut <= HEADER_BYTES + |payload|
  {
    w.files[w.fileSeq := w.files[w.fileSeq] + Frame(crc, WalRecord(w.nextSeq, payload))[..cut]]
  }

  // ---------- replay ----------

  function Recs(crc: Crc, files: map<nat, seq<byte>>, f: nat): seq<WalRecord>
    requires f in files
  {
    Parse(crc, files[f]).records
  }

  /** The iterator gives up at these; at the others it goes on to the next file. */
  predicate StopsReplay(t: Tail) { t == Truncated || t == CrcMismatch }

  function Replay(crc: Crc, files: map<nat, seq<byte>>, ks: seq<nat>): seq<WalRecord>
    requires forall f :: f in ks ==> f in files
  {
    if ks == [] then []
    else if StopsReplay(Parse(crc, files[ks[0]]).tail) then Recs(crc, files, ks[0])
    else Recs(crc, files, ks[0]) + Replay(crc, files, ks[1..])
  }

  function ReplayWal(crc: Crc, w: Wal): seq<WalRecord>
  {
    Replay(crc, w.files, FileList(w.files))
  }

  // ---------- the log invariant ----------

  /** Record `i` of file `f` is read before record `j` of file `g`. */
  predicate Before(f: nat, i: nat, g: nat, j: nat) { f < g || (f == g && i < j) }

  /** The records of every file. */
  function Contents(crc: Crc, files: map<nat, seq<byte>>): map<nat, seq<WalRecord>>
  {
    map f | f in files :: Recs(crc, files, f)
  }

  ghost predicate SeqsAscend(rm: map<nat, seq<WalRecord>>)
  {
    forall f, g, i: nat, j: nat :: f in rm && g in rm && i < |rm[f]| && j < |rm[g]| && Before(f, i, g, j)
      ==> rm[f][i].recordSeq < rm[g][j].recordSeq
  }

  ghost predicate SeqsBelow(rm: map<nat, seq<WalRecord>>, next: nat)
  {
    forall f, i: nat :: f in rm && i < |rm[f]| ==> 1 <= rm[f][i].recordSeq < next
  }

  /** A new record at the end of the last file keeps the numbers ascending. */
  lemma AscendAppend(rm: map<nat, seq<WalRecord>>, cur: nat, r: WalRecord)
    requires SeqsAscend(rm) && SeqsBelow(rm, r.recordSeq) && cur in rm && 1 <= r.recordSeq
    requires forall f :: f in rm ==> f <= cur
    ensures SeqsAscend(rm[cur := rm[cur] + [r]])
    ensures SeqsBelow(rm[cur := rm[cur] + [r]], r.recordSeq + 1)
  {
    var rm': map<nat, seq<WalRecord>> := rm[cur := rm[cur] + [r]];
    forall f, g, i: nat, j: nat | f in rm' && g in rm' && i < |rm'[f]| && j < |rm'[g]| && Before(f, i, g, j)
      ensures rm'[f][i].recordSeq < rm'[g][j].recordSeq
    {
      assert i < |rm[f]|;
      assert rm'[f][i] == rm[f][i];
      if j < |rm[g]| {
        assert rm'[g][j] == rm[g][j];
      }
    }
  }

  /** What a writer that never appends behind torn bytes keeps: the current file
      is the last one and the only one that may be torn; record numbers ascend in
      reading order and lie below the next; scanning agrees with reading. */
  ghost predicate WalOk(crc: Crc, w: Wal)
  {
    && Open(w)
    && 1 <= w.nextSeq < U64_LIMIT
    && (forall f :: f in w.files ==> f <= w.fileSeq)
    && (forall f :: f in w.files && f != w.fileSeq ==> Parse(crc, w.files[f]).tail == Clean)
    && Parse(crc, w.files[w.fileSeq]).tail != CrcMismatch
    && (forall f :: f in w.files ==> ScanMax(w.files[f]) == MaxSeq(Recs(crc, w.files, f)))
    && SeqsAscend(Contents(crc, w.files))
    && SeqsBelow(Contents(crc, w.files), w.nextSeq)
  }

  predicate CleanTail(crc: Crc, w: Wal)
    requires Open(w)
  {
    Parse(crc, w.files[w.fileSeq]).tail == Clean
  }

  lemma {:induction false} MaxSeqAppend(rs: seq<WalRecord>, r: WalRecord)
    ensures MaxSeq(rs + [r]) == Max(MaxSeq(rs), r.recordSeq)
  {
    if rs == [] {
      assert rs + [r] == [r];
    } else {
      assert (rs + [r])[1..] == rs[1..] + [r];
      MaxSeqAppend(rs[1..], r);
    }
  }

  lemma {:induction false} WriteFrameOk(crc: Crc, w: Wal, payload: seq<byte>)
    requires WalOk(crc, w) && CleanTail(crc, w) && |payload| < U32_LIMIT
    requires w.nextSeq + 1 < U64_LIMIT
    ensures var w' := WriteFrame(crc, w, payload);
      var rm: map<nat, seq<WalRecord>> := Contents(crc, w.files);
      && WalOk(crc, w') && CleanTail(crc, w')
      && Contents(crc, w'.files) == rm[w.fileSeq := rm[w.fileSeq] + [WalRecord(w.nextSeq, payload)]]
  {
    hide Parse, ScanMax, Frame;
    var r := WalRecord(w.nextSeq, payload);
    var rm: map<nat, seq<WalRecord>> := Contents(crc, w.files);
    var w' := WriteFrame(crc, w, payload);
    AppendReadWhenClean(crc, w.files[w.fileSeq], r);
    MaxSeqAppend(rm[w.fileSeq], r);
    assert Contents(crc, w'.files) == rm[w.fileSeq := rm[w.fileSeq] + [r]];
    AscendAppend(rm, w.fileSeq, r);
  }

  lemma EmptyFile(crc: Crc)
    ensures Parse(crc, []) == Parsed([], Clean) && ScanMax([]) == 0
  {
  }

  lemma {:induction false} RotateOk(crc: Crc, w: Wal)
    requires WalOk(crc, w) && CleanTail(crc, w)
    ensures WalOk(crc, RotateWal(w)) && CleanTail(crc, RotateWal(w))
    ensures w.fileSeq + 1 !in w.files
    ensures Contents(crc, RotateWal(w).files) == Contents(crc, w.files)[w.fileSeq + 1 := []]
  {
    hide Parse, ScanMax, Frame;
    EmptyFile(crc);
    var rm: map<nat, seq<WalRecord>> := Contents(crc, w.files);
    assert Contents(crc, RotateWal(w).files) == rm[w.fileSeq + 1 := []];
  }

  /** Append keeps the log invariant when the file it writes to has a clean tail. */
  lemma {:induction false} AppendOk(crc: Crc, w: Wal, payload: seq<byte>)
    requires WalOk(crc, w) && CleanTail(crc, w) && |payload| < U32_LIMIT
    requires w.nextSeq + 1 < U64_LIMIT
    ensures WalOk(crc, AppendWal(crc, w, payload)) && CleanTail(crc, AppendWal(crc, w, payload))
  {
    hide Parse, ScanMax, Frame;
    WriteFrameOk(crc, w, payload);
    RotateOk(crc, WriteFrame(crc, w, payload));
  }

  lemma {:induction false} TruncateOk(crc: Crc, w: Wal, through: nat, stop: nat)
    requires WalOk(crc, w)
    ensures WalOk(crc, TruncateWal(w, through, stop))
  {
    hide Parse, ScanMax, Frame;
    var rm, rm' := Contents(crc, w.files), Contents(crc, TruncateWal(w, through, stop).files);
    assert forall f :: f in rm' ==> f in rm && rm'[f] == rm[f];
  }

  lemma {:induction false} NextAfterBounds(files: map<nat, seq<byte>>, ks: seq<nat>, acc: nat)
    requires forall f :: f in ks ==> f in files
    ensures NextAfter(files, ks, acc) >= acc
    ensures forall f :: f in ks ==> NextAfter(files, ks, acc) >= Inc(ScanMax(files[f]))
    ensures NextAfter(files, ks, acc) == acc
         || exists f :: f in ks && NextAfter(files, ks, acc) == Inc(ScanMax(files[f]))
  {
    if ks != [] {
      var n := Inc(ScanMax(files[ks[0]]));
      NextAfterBounds(files, ks[1..], if n > acc then n else acc);
      assert ks == [ks[0]] + ks[1..];
    }
  }

  lemma {:induction false} MaxSeqBound(rs: seq<WalRecord>)
    ensures forall i :: 0 <= i < |rs| ==> rs[i].recordSeq <= MaxSeq(rs)
    ensures MaxSeq(rs) > 0 ==> exists i :: 0 <= i < |rs| && rs[i].recordSeq == MaxSeq(rs)
  {
    if rs != [] {
      MaxSeqBound(rs[1..]);
      if rs[0].recordSeq < MaxSeq(rs[1..]) {
        var i :| 0 <= i < |rs[1..]| && rs[1..][i].recordSeq == MaxSeq(rs[1..]);
        assert rs[i + 1].recordSeq == MaxSeq(rs);
      }
    }
  }

  /** Reopening keeps the log invariant, and the writer goes on in the same file.
      The next number may be lower than before: it is 1 again once every file
      that held a record is gone. */
  lemma ReopenOk(crc: Crc, w: Wal)
    requires WalOk(crc, w)
    ensures var w' := OpenWal(w.files, w.rotation);
      && WalOk(crc, w') && w'.files == w.files && w'.fileSeq == w.fileSeq
      && w'.nextSeq <= w.nextSeq
  {
    hide Parse, ScanMax, Frame, FileList, NextAfter, SeqsAscend, SeqsBelow, Contents;
    LastIsCurrent(crc, w);
    OpenNext(crc, w);
    assert Touch(w.files, w.fileSeq) == w.files;
  }

  lemma OpenNext(crc: Crc, w: Wal)
    requires WalOk(crc, w)
    ensures var next := NextAfter(w.files, FileList(w.files), 1);
      1 <= next <= w.nextSeq && SeqsBelow(Contents(crc, w.files), next)
  {
    hide Parse, ScanMax, Frame, FileList, NextAfter;
    var ks := FileList(w.files);
    var rm: map<nat, seq<WalRecord>> := Contents(crc, w.files);
    forall f | f in w.files
      ensures Inc(ScanMax(w.files[f])) == ScanMax(w.files[f]) + 1 <= w.nextSeq
    {
      MaxSeqBound(rm[f]);
    }
    NextAfterBounds(w.files, ks, 1);
    forall f, i: nat | f in rm && i < |rm[f]|
      ensures 1 <= rm[f][i].recordSeq < NextAfter(w.files, ks, 1)
    {
      MaxSeqBound(rm[f]);
      assert f in ks;
    }
  }

  lemma LastIsCurrent(crc: Crc, w: Wal)
    requires WalOk(crc, w)
    ensures LastFile(w.files) == w.fileSeq
  {
    var ks := FileList(w.files);
    assert w.fileSeq in ks;
    assert ks[|ks| - 1] in ks;
    LastGreatest(ks, w.fileSeq);
  }

  lemma LastGreatest(ks: seq<nat>, f: nat)
    requires Ascending(ks, NatLess) && f in ks
    ensures f <= ks[|ks| - 1]
  {
    var i :| 0 <= i < |ks| && ks[i] == f;
    if i < |ks| - 1 {
      assert NatLess(ks[i], ks[|ks| - 1]);
    }
  }

  /** A crash inside an append behind a clean tail keeps everything that was
      readable; the record being written is readable only if all of it got out. */
  lemma CrashOk(crc: Crc, w: Wal, payload: seq<byte>, cut: nat)
    requires WalOk(crc, w)
    requires |payload| < U32_LIMIT && cut <= HEADER_BYTES + |payload|
    requires cut == 0 || (CleanTail(crc, w) && w.nextSeq + 1 < U64_LIMIT)
    ensures var fs := CrashInAppend(crc, w, payload, cut);
      var w' := w.(files := fs, nextSeq := if cut == 0 then w.nextSeq else w.nextSeq + 1);
      var rm: map<nat, seq<WalRecord>> := Contents(crc, w.files);
      && WalOk(crc, w')
      && Contents(crc, fs) ==
           if cut == HEADER_BYTES + |payload|
           then rm[w.fileSeq := rm[w.fileSeq] + [WalRecord(w.nextSeq, payload)]] else rm
  {
    hide Parse, ScanMax, Frame;
    var r := WalRecord(w.nextSeq, payload);
    var b := w.files[w.fileSeq];
    var frame := Frame(crc, r);
    var fs := CrashInAppend(crc, w, payload, cut);
    var rm: map<nat, seq<WalRecord>> := Contents(crc, w.files);
    if cut == 0 {
      assert b + frame[..0] == b;
      assert fs == w.files;
    } else if cut == |frame| {
      assert frame[..cut] == frame;
      assert fs == WriteFrame(crc, w, payload).files;
      WriteFrameOk(crc, w, payload);
    } else {
      TornWriteOk(crc, w, payload, cut);
    }
  }

  lemma TornWriteOk(crc: Crc, w: Wal, payload: seq<byte>, cut: nat)
    requires WalOk(crc, w) && CleanTail(crc, w) && w.nextSeq + 1 < U64_LIMIT
    requires |payload| < U32_LIMIT && 0 < cut < HEADER_BYTES + |payload|
    ensures var fs := CrashInAppend(crc, w, payload, cut);
      && WalOk(crc, w.(files := fs, nextSeq := w.nextSeq + 1))
      && Contents(crc, fs) == Contents(crc, w.files)
  {
    hide Parse, ScanMax, Frame;
    var torn := Frame(crc, WalRecord(w.nextSeq, payload))[..cut];
    ParseCutFrame(crc, WalRecord(w.nextSeq, payload), cut);
    ParseAppend(crc, w.files[w.fileSeq], torn);
    var fs := CrashInAppend(crc, w, payload, cut);
    var rs := Recs(crc, w.files, w.fileSeq);
    assert Recs(crc, fs, w.fileSeq) == rs + [] == rs;
    assert forall f :: f in w.files && f != w.fileSeq ==> fs[f] == w.files[f];
    assert Contents(crc, fs) == Contents(crc, w.files);
  }

  // ---------- what replay reads ----------

  predicate Increasing(rs: seq<WalRecord>)
  {
    forall i, j :: 0 <= i < j < |rs| ==> rs[i].recordSeq < rs[j].recordSeq
  }

  function At(rm: map<nat, seq<WalRecord>>, f: nat): seq<WalRecord>
  {
    if f in rm then rm[f] else []
  }

  /** All records of the listed files, one file after the other. */
  function Chain(rm: map<nat, seq<WalRecord>>, ks: seq<nat>): seq<WalRecord>
  {
    if ks == [] then [] else At(rm, ks[0]) + Chain(rm, ks[1..])
  }

  lemma {:induction false} ReplayIsChain(crc: Crc, w: Wal, ks: seq<nat>)
    requires WalOk(crc, w) && Ascending(ks, NatLess)
    requires forall f :: f in ks ==> f in w.files
    ensures Replay(crc, w.files, ks) == Chain(Contents(crc, w.files), ks)
  {
    if ks != [] {
      ReplayIsChain(crc, w, ks[1..]);
      if |ks| > 1 {
        assert NatLess(ks[0], ks[1]) && ks[1] <= w.fileSeq;
      }
    }
  }

  ghost predicate InSome(r: WalRecord, rm: map<nat, seq<WalRecord>>, ks: seq<nat>)
  {
    exists f, i :: f in ks && f in rm && 0 <= i < |rm[f]| && rm[f][i] == r
  }

  lemma {:induction false} ChainMembers(rm: map<nat, seq<WalRecord>>, ks: seq<nat>)
    requires forall f :: f in ks ==> f in rm
    ensures forall r :: r in Chain(rm, ks) <==> InSome(r, rm, ks)
  {
    if ks != [] {
      ChainMembers(rm, ks[1..]);
      assert ks == [ks[0]] + ks[1..];
      forall r ensures r in Chain(rm, ks) <==> InSome(r, rm, ks) {
        if r in rm[ks[0]] {
          var i :| 0 <= i < |rm[ks[0]]| && rm[ks[0]][i] == r;
          assert ks[0] in ks;
        }
        if InSome(r, rm, ks) {
          var f, i :| f in ks && f in rm && 0 <= i < |rm[f]| && rm[f][i] == r;
          if f in ks[1..] {
            assert InSome(r, rm, ks[1..]);
          }
        }
      }
    }
  }

  lemma {:induction false} ChainIncreasing(rm: map<nat, seq<WalRecord>>, ks: seq<nat>)
    requires SeqsAscend(rm) && Ascending(ks, NatLess)
    requires forall f :: f in ks ==> f in rm
    ensures Increasing(Chain(rm, ks))
  {
    if ks != [] {
      ChainIncreasing(rm, ks[1..]);
      ChainMembers(rm, ks[1..]);
      var a, b := rm[ks[0]], Chain(rm, ks[1..]);
      forall i, j | 0 <= i < |a| && 0 <= j < |b| ensures a[i].recordSeq < b[j].recordSeq {
        assert b[j] in b;
        var g, j' :| g in ks[1..] && g in rm && 0 <= j' < |rm[g]| && rm[g][j'] == b[j];
        assert Before(ks[0], i, g, j');
      }
      assert forall i, j :: 0 <= i < j < |a| ==> Before(ks[0], i, ks[0], j);
    }
  }

  /** Log order: reading the live files yields exactly the records the files
      hold, with strictly increasing numbers below the writer's next one. */
  lemma LogOrder(crc: Crc, w: Wal)
    requires WalOk(crc, w)
    ensures Increasing(ReplayWal(crc, w))
    ensures forall r :: r in ReplayWal(crc, w) ==> 1 <= r.recordSeq < w.nextSeq
    ensures forall r :: r in ReplayWal(crc, w) <==> exists f :: f in w.files && r in Recs(crc, w.files, f)
  {
    hide Parse, ScanMax, Frame;
    var ks := FileList(w.files);
    var rm := Contents(crc, w.files);
    ReplayIsChain(crc, w, ks);
    ChainMembers(rm, ks);
    ChainIncreasing(rm, ks);
    forall r ensures InSome(r, rm, ks) <==> exists f :: f in w.files && r in Recs(crc, w.files, f) {
      if f :| f in w.files && r in Recs(crc, w.files, f) {
        var i :| 0 <= i < |rm[f]| && rm[f][i] == r;
        assert f in ks;
      }
    }
  }

  /** Truncation, complete or interrupted, takes away a prefix of what replay
      reads, nothing numbered above `through`, and never the current file. */
  lemma TruncateRemovesPrefix(crc: Crc, w: Wal, through: nat, stop: nat)
    requires WalOk(crc, w)
    ensures var w' := TruncateWal(w, through, stop);
      && w.fileSeq in w'.files
      && exists gone ::
           ReplayWal(crc, w) == gone + ReplayWal(crc, w') && forall r :: r in gone ==> r.recordSeq <= through
  {
    hide Parse, ScanMax, Frame, Chain, Lost, Kept, Replay;
    TruncatedReplay(crc, w, through, stop);
    LostBelow(crc, w, through, stop);
  }

  lemma {:induction false} LostBelow(crc: Crc, w: Wal, through: nat, stop: nat)
    requires WalOk(crc, w)
    ensures var w' := TruncateWal(w, through, stop);
      forall r :: r in Chain(Contents(crc, w.files), Lost(FileList(w.files), w'.files)) ==> r.recordSeq <= through
  {
    hide Parse, ScanMax, Frame, Chain, Lost, Kept, FileList;
    var rm := Contents(crc, w.files);
    var ks := FileList(w.files);
    var w' := TruncateWal(w, through, stop);
    SplitMembers(ks, w'.files);
    ChainMembers(rm, Lost(ks, w'.files));
    forall r | r in Chain(rm, Lost(ks, w'.files)) ensures r.recordSeq <= through {
      assert InSome(r, rm, Lost(ks, w'.files));
      var f, i :| f in Lost(ks, w'.files) && f in rm && 0 <= i < |rm[f]| && rm[f][i] == r;
      MaxSeqBound(rm[f]);
    }
  }

  lemma TruncatedReplay(crc: Crc, w: Wal, through: nat, stop: nat)
    requires WalOk(crc, w)
    ensures var w' := TruncateWal(w, through, stop);
      ReplayWal(crc, w)
        == Chain(Contents(crc, w.files), Lost(FileList(w.files), w'.files)) + ReplayWal(crc, w')
  {
    hide Parse, ScanMax, Frame, Chain, Lost, Kept, Replay, WalOk, FileList, Deletable;
    var w' := TruncateWal(w, through, stop);
    var ks, ks' := FileList(w.files), FileList(w'.files);
    var rm, rm' := Contents(crc, w.files), Contents(crc, w'.files);
    TruncateOk(crc, w, through, stop);
    ReplayIsChain(crc, w, ks);
    ReplayIsChain(crc, w', ks');
    KeptIsList(ks, w.files, w'.files);
    forall i, j | 0 <= i < j < |ks| && ks[i] in w'.files && ks[j] !in w'.files ensures At(rm, ks[j]) == [] {
      assert NatLess(ks[i], ks[j]);
      LaterDeletedIsEmpty(crc, w, through, stop, ks[i], ks[j]);
    }
    ChainSplits(rm, w'.files, ks);
    SameChain(rm, rm', ks');
  }

  lemma KeptIsList(ks: seq<nat>, files: map<nat, seq<byte>>, files': map<nat, seq<byte>>)
    requires ks == FileList(files) && forall f :: f in files' ==> f in files
    ensures Kept(ks, files') == FileList(files')
  {
    hide Kept, Lost, FileList;
    SplitMembers(ks, files');
    KeptAscending(ks, files');
    NatLessTotal();
    AscendingUnique(Kept(ks, files'), FileList(files'), NatLess);
  }

  function Kept(ks: seq<nat>, files: map<nat, seq<byte>>): seq<nat>
  {
    if ks == [] then [] else (if ks[0] in files then [ks[0]] else []) + Kept(ks[1..], files)
  }

  function Lost(ks: seq<nat>, files: map<nat, seq<byte>>): seq<nat>
  {
    if ks == [] then [] else (if ks[0] in files then [] else [ks[0]]) + Lost(ks[1..], files)
  }

  lemma {:induction false} SplitMembers(ks: seq<nat>, files: map<nat, seq<byte>>)
    ensures forall f :: f in Kept(ks, files) <==> f in ks && f in files
    ensures forall f :: f in Lost(ks, files) <==> f in ks && f !in files
  {
    if ks != [] {
      SplitMembers(ks[1..], files);
      assert ks == [ks[0]] + ks[1..];
    }
  }

  lemma {:induction false} KeptAscending(ks: seq<nat>, files: map<nat, seq<byte>>)
    requires Ascending(ks, NatLess)
    ensures Ascending(Kept(ks, files), NatLess)
  {
    if ks != [] {
      KeptAscending(ks[1..], files);
      SplitMembers(ks[1..], files);
      var r := Kept(ks[1..], files);
      forall i | 0 <= i < |r| ensures NatLess(ks[0], r[i]) {
        assert r[i] in ks[1..];
      }
    }
  }

  lemma {:induction false} SameChain(rm: map<nat, seq<WalRecord>>, rm': map<nat, seq<WalRecord>>, ks: seq<nat>)
    requires forall i :: 0 <= i < |ks| ==> At(rm, ks[i]) == At(rm', ks[i])
    ensures Chain(rm, ks) == Chain(rm', ks)
  {
    if ks != [] {
      SameChain(rm, rm', ks[1..]);
    }
  }

  /** Every lost file behind a kept one holds nothing. */
  ghost predicate LostFirst(rm: map<nat, seq<WalRecord>>, ks: seq<nat>, files: map<nat, seq<byte>>)
  {
    forall i, j :: 0 <= i < j < |ks| && ks[i] in files && ks[j] !in files ==> At(rm, ks[j]) == []
  }

  lemma {:induction false} ChainSplits(rm: map<nat, seq<WalRecord>>, files: map<nat, seq<byte>>, ks: seq<nat>)
    requires LostFirst(rm, ks, files)
    ensures Chain(rm, ks) == Chain(rm, Lost(ks, files)) + Chain(rm, Kept(ks, files))
  {
    if ks != [] {
      var rest := ks[1..];
      assert LostFirst(rm, rest, files);
      if ks[0] in files {
        assert forall i :: 0 <= i < |rest| ==> rest[i] == ks[i + 1];
        NothingLost(rm, files, rest);
      }
      SplitsOne(ks, files);
      hide LostFirst, Lost, Kept, At, Chain;
      ChainSplits(rm, files, rest);
      ChainUncons(rm, ks);
      ChainCons(rm, ks[0], Lost(rest, files));
      ChainCons(rm, ks[0], Kept(rest, files));
      AssocRecords(At(rm, ks[0]), Chain(rm, Lost(rest, files)), Chain(rm, Kept(rest, files)));
    }
  }

  lemma SplitsOne(ks: seq<nat>, files: map<nat, seq<byte>>)
    requires ks != []
    ensures Lost(ks, files) == (if ks[0] in files then [] else [ks[0]]) + Lost(ks[1..], files)
    ensures Kept(ks, files) == (if ks[0] in files then [ks[0]] else []) + Kept(ks[1..], files)
  {
  }

  lemma AssocRecords(x: seq<WalRecord>, y: seq<WalRecord>, z: seq<WalRecord>)
    ensures x + (y + z) == x + y + z
    ensures [] + (x + z) == x + z
  {
  }

  lemma ChainUncons(rm: map<nat, seq<WalRecord>>, ks: seq<nat>)
    requires ks != []
    ensures Chain(rm, ks) == At(rm, ks[0]) + Chain(rm, ks[1..])
  {
    hide At;
  }

  lemma {:induction false} NothingLost(rm: map<nat, seq<WalRecord>>, files: map<nat, seq<byte>>, ks: seq<nat>)
    requires forall i :: 0 <= i < |ks| && ks[i] !in files ==> At(rm, ks[i]) == []
    ensures Chain(rm, Lost(ks, files)) == []
  {
    if ks != [] {
      NothingLost(rm, files, ks[1..]);
      ChainCons(rm, ks[0], Lost(ks[1..], files));
    }
  }

  lemma ChainCons(rm: map<nat, seq<WalRecord>>, k: nat, ks: seq<nat>)
    ensures Chain(rm, [k] + ks) == At(rm, k) + Chain(rm, ks)
    ensures Chain(rm, [] + ks) == Chain(rm, ks)
  {
    assert ([k] + ks)[1..] == ks && [] + ks == ks;
  }

  lemma LaterDeletedIsEmpty(crc: Crc, w: Wal, through: nat, stop: nat, f: nat, g: nat)
    requires WalOk(crc, w) && f in w.files && g in w.files && f < g
    requires f in TruncateWal(w, through, stop).files && g !in TruncateWal(w, through, stop).files
    ensures Recs(crc, w.files, g) == []
  {
    hide Parse, ScanMax, Frame;
    var rm := Contents(crc, w.files);
    MaxSeqBound(rm[f]);
    MaxSeqBound(rm[g]);
    var i :| 0 <= i < |rm[f]| && rm[f][i].recordSeq == MaxSeq(rm[f]);
    assert |rm[g]| > 0 ==> Before(f, i, g, 0);
  }
}

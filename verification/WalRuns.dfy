/** A whole log of several files cut at any byte: replay gives the records before the
    cut, and the reopened writer goes on behind them. */
module WalRuns {
  import opened Bytes
  import opened Orders
  import opened WalFormat
  import opened WalLog

  /** The log after appending the payloads in a directory without log files. */
  function Written(crc: Crc, rotation: nat, ps: seq<seq<byte>>): (w: Wal)
    ensures Open(w)
  {
    if ps == [] then OpenWal(map[], rotation)
    else AppendWal(crc, Written(crc, rotation, ps[..|ps| - 1]), ps[|ps| - 1])
  }

  /** The payloads with their record numbers, which start at 1. */
  function Numbered(ps: seq<seq<byte>>): (rs: seq<WalRecord>)
    ensures |rs| == |ps|
  {
    seq(|ps|, i requires 0 <= i < |ps| => WalRecord(i + 1, ps[i]))
  }

  predicate Writable(ps: seq<seq<byte>>)
  {
    (forall p :: p in ps ==> |p| < U32_LIMIT) && |ps| + 1 < U64_LIMIT
  }

  ghost predicate Listed(files: map<nat, seq<byte>>, ks: seq<nat>)
  {
    forall f :: f in ks ==> f in files
  }

  /** The listed files, read one after the other, are cut after `cut` bytes: whole files
      before the cut, a prefix of the file it falls into, nothing behind it. */
  ghost predicate CutTo(fs: map<nat, seq<byte>>, files: map<nat, seq<byte>>, ks: seq<nat>, cut: nat)
    requires Listed(files, ks) && Listed(fs, ks)
  {
    ks == []
    || (var n := if cut < |files[ks[0]]| then cut else |files[ks[0]]|;
        fs[ks[0]] == files[ks[0]][..n] && CutTo(fs, files, ks[1..], cut - n))
  }

  // ---------- what the appends leave in the files ----------

  lemma FramesStep(crc: Crc, rs: seq<WalRecord>)
    requires rs != []
    ensures Frames(crc, rs) == Frame(crc, rs[0]) + Frames(crc, rs[1..])
  {
    hide Frame;
  }

  lemma {:induction false} FramesConcat(crc: Crc, a: seq<WalRecord>, b: seq<WalRecord>)
    ensures Frames(crc, a + b) == Frames(crc, a) + Frames(crc, b)
  {
    hide Frame;
    if a == [] {
      assert a + b == b;
    } else {
      hide Frames;
      FramesConcat(crc, a[1..], b);
      assert (a + b)[0] == a[0] && (a + b)[1..] == a[1..] + b;
      FramesStep(crc, a);
      FramesStep(crc, a + b);
      Assoc(Frame(crc, a[0]), Frames(crc, a[1..]), Frames(crc, b));
    }
  }

  lemma {:induction false} ChainConcat(rm: map<nat, seq<WalRecord>>, a: seq<nat>, b: seq<nat>)
    ensures Chain(rm, a + b) == Chain(rm, a) + Chain(rm, b)
  {
    hide At;
    if a == [] {
      assert a + b == b;
    } else {
      ChainConcat(rm, a[1..], b);
      assert (a + b)[0] == a[0] && (a + b)[1..] == a[1..] + b;
      AssocRecords(At(rm, a[0]), Chain(rm, a[1..]), Chain(rm, b));
    }
  }

  lemma ChainOne(rm: map<nat, seq<WalRecord>>, f: nat)
    ensures Chain(rm, [f]) == At(rm, f)
  {
    assert Chain(rm, [f]) == At(rm, f) + Chain(rm, [f][1..]);
    assert |[f][1..]| == 0;
  }

  /** One more record in the last file is one more record of the chain. */
  lemma {:induction false} ChainGrows(rm: map<nat, seq<WalRecord>>, ks: seq<nat>, f: nat, r: WalRecord)
    requires f in rm && ks != [] && ks[|ks| - 1] == f && Ascending(ks, NatLess)
    ensures Chain(rm[f := rm[f] + [r]], ks) == Chain(rm, ks) + [r]
  {
    var n := |ks| - 1;
    var rm' := rm[f := rm[f] + [r]];
    assert ks == ks[..n] + [f];
    forall i | 0 <= i < n ensures At(rm', ks[..n][i]) == At(rm, ks[..n][i]) {
      assert NatLess(ks[i], ks[n]);
    }
    SameChain(rm', rm, ks[..n]);
    ChainConcat(rm, ks[..n], [f]);
    ChainConcat(rm', ks[..n], [f]);
    ChainOne(rm, f);
    ChainOne(rm', f);
  }

  /** The files are frames and nothing else, and chained they are the records. */
  ghost predicate Holds(crc: Crc, w: Wal, rs: seq<WalRecord>)
  {
    && WalOk(crc, w) && CleanTail(crc, w)
    && w.nextSeq == |rs| + 1
    && (forall f :: f in w.files ==> w.files[f] == Frames(crc, Recs(crc, w.files, f)))
    && Chain(Contents(crc, w.files), FileList(w.files)) == rs
  }

  lemma NumberedStep(ps: seq<seq<byte>>)
    requires ps != []
    ensures Numbered(ps) == Numbered(ps[..|ps| - 1]) + [WalRecord(|ps|, ps[|ps| - 1])]
  {
  }

  lemma {:induction false} WriteHolds(crc: Crc, w: Wal, rs: seq<WalRecord>, payload: seq<byte>)
    requires Holds(crc, w, rs) && |payload| < U32_LIMIT && |rs| + 2 < U64_LIMIT
    ensures Holds(crc, WriteFrame(crc, w, payload), rs + [WalRecord(w.nextSeq, payload)])
  {
    hide Parse, ScanMax, Frame, Chain, SeqsAscend, SeqsBelow, FileList, Frames;
    var r := WalRecord(w.nextSeq, payload);
    var w' := WriteFrame(crc, w, payload);
    var rm := Contents(crc, w.files);
    WriteFrameOk(crc, w, payload);
    OneFrame(crc, r);
    FramesConcat(crc, rm[w.fileSeq], [r]);
    assert Recs(crc, w'.files, w.fileSeq) == Contents(crc, w'.files)[w.fileSeq];
    SameFiles(w.files, w'.files);
    CurrentIsLast(crc, w);
    ChainGrows(rm, FileList(w.files), w.fileSeq, r);
  }

  lemma OneFrame(crc: Crc, r: WalRecord)
    ensures Frames(crc, [r]) == Frame(crc, r)
  {
    assert Frames(crc, [r]) == Frame(crc, r) + Frames(crc, [r][1..]);
    assert |[r][1..]| == 0;
  }

  lemma SameFiles(files: map<nat, seq<byte>>, files': map<nat, seq<byte>>)
    requires files.Keys == files'.Keys
    ensures FileList(files) == FileList(files')
  {
  }

  lemma CurrentIsLast(crc: Crc, w: Wal)
    requires WalOk(crc, w)
    ensures var ks := FileList(w.files);
      ks != [] && ks[|ks| - 1] == w.fileSeq
  {
    hide WalOk, FileList;
    LastIsCurrent(crc, w);
    CurrentListed(crc, w);
  }

  lemma CurrentListed(crc: Crc, w: Wal)
    requires WalOk(crc, w)
    ensures w.fileSeq in FileList(w.files)
  {
  }

  lemma ListGrows(files: map<nat, seq<byte>>, g: nat)
    requires forall f :: f in files ==> f < g
    ensures FileList(files[g := []]) == FileList(files) + [g]
  {
    hide FileList;
    var ks := FileList(files);
    NatLessTotal();
    assert forall i :: 0 <= i < |ks| ==> ks[i] in files;
    assert forall i, j :: 0 <= i < j < |ks| ==> NatLess(ks[i], ks[j]);
    assert Ascending(ks + [g], NatLess);
    AscendingUnique(FileList(files[g := []]), ks + [g], NatLess);
  }

  /** A new empty file adds nothing to the chain. */
  lemma ChainEmpty(rm: map<nat, seq<WalRecord>>, ks: seq<nat>, g: nat)
    requires g !in rm
    ensures Chain(rm[g := []], ks + [g]) == Chain(rm, ks)
  {
    ChainConcat(rm[g := []], ks, [g]);
    ChainOne(rm[g := []], g);
    SameChain(rm, rm[g := []], ks);
  }

  lemma {:induction false} RotateHolds(crc: Crc, w: Wal, rs: seq<WalRecord>)
    requires Holds(crc, w, rs)
    ensures Holds(crc, RotateWal(w), rs)
  {
    RotateOk(crc, w);
    RotateFrames(crc, w);
    hide *;
    RotateFiles(crc, w);
    ListGrows(w.files, w.fileSeq + 1);
    ChainEmpty(Contents(crc, w.files), FileList(w.files), w.fileSeq + 1);
    RotateJoin(crc, w, rs);
  }

  /** Every file of the rotated log is its frames. */
  lemma RotateFrames(crc: Crc, w: Wal)
    requires WalOk(crc, w) && forall f :: f in w.files ==> w.files[f] == Frames(crc, Recs(crc, w.files, f))
    ensures var files := RotateWal(w).files;
      forall f :: f in files ==> files[f] == Frames(crc, Recs(crc, files, f))
  {
    hide Parse, ScanMax, Frame, SeqsAscend, SeqsBelow;
    EmptyFile(crc);
  }

  lemma RotateJoin(crc: Crc, w: Wal, rs: seq<WalRecord>)
    requires var w' := RotateWal(w);
      && WalOk(crc, w') && CleanTail(crc, w') && w'.nextSeq == |rs| + 1
      && (forall f :: f in w'.files ==> w'.files[f] == Frames(crc, Recs(crc, w'.files, f)))
      && Chain(Contents(crc, w'.files), FileList(w'.files)) == rs
    ensures Holds(crc, RotateWal(w), rs)
  {
  }

  lemma RotateFiles(crc: Crc, w: Wal)
    requires WalOk(crc, w)
    ensures forall f :: f in w.files ==> f < w.fileSeq + 1
    ensures w.fileSeq + 1 !in Contents(crc, w.files)
    ensures RotateWal(w).files == w.files[w.fileSeq + 1 := []] && RotateWal(w).nextSeq == w.nextSeq
  {
    hide Parse, ScanMax, SeqsAscend, SeqsBelow;
  }

  lemma {:induction false} StartHolds(crc: Crc, rotation: nat)
    ensures Holds(crc, OpenWal(map[], rotation), [])
  {
    hide Parse, ScanMax, Frames, Chain, FileList;
    var w := OpenWal(map[], rotation);
    StartFiles(rotation);
    EmptyFile(crc);
    NoFrames(crc);
    assert Contents(crc, w.files) == map[0 := []];
    ChainOne(map[0 := []], 0);
  }

  lemma StartFiles(rotation: nat)
    ensures var w := OpenWal(map[], rotation);
      w.files == map[0 := []] && w.fileSeq == 0 && w.nextSeq == 1 && FileList(w.files) == [0]
  {
    assert FileList(map[]) == [];
    var ks := FileList(map[0 := []]);
    assert 0 in ks && |ks| == |{0}|;
    assert ks == [0];
  }

  lemma NoFrames(crc: Crc)
    ensures Frames(crc, []) == []
  {
  }

  lemma {:induction false} WrittenHolds(crc: Crc, rotation: nat, ps: seq<seq<byte>>)
    requires Writable(ps)
    ensures Holds(crc, Written(crc, rotation, ps), Numbered(ps))
  {
    hide Holds;
    if ps == [] {
      StartHolds(crc, rotation);
    } else {
      var n := |ps| - 1;
      var w := Written(crc, rotation, ps[..n]);
      WrittenHolds(crc, rotation, ps[..n]);
      NextIs(crc, w, Numbered(ps[..n]));
      WriteHolds(crc, w, Numbered(ps[..n]), ps[n]);
      NumberedStep(ps);
      RotateHolds(crc, WriteFrame(crc, w, ps[n]), Numbered(ps));
    }
  }

  lemma NextIs(crc: Crc, w: Wal, rs: seq<WalRecord>)
    requires Holds(crc, w, rs)
    ensures w.nextSeq == |rs| + 1
  {
  }

  // ---------- the cut ----------

  lemma {:induction false} WholeFramesConcat(crc: Crc, a: seq<WalRecord>, b: seq<WalRecord>, cut: nat)
    ensures WholeFrames(a + b, cut)
         == if cut < |Frames(crc, a)| then WholeFrames(a, cut) else |a| + WholeFrames(b, cut - |Frames(crc, a)|)
  {
    hide Frame;
    if a == [] {
      assert a + b == b;
    } else {
      assert (a + b)[0] == a[0] && (a + b)[1..] == a[1..] + b;
      if cut >= HEADER_BYTES + |a[0].payload| {
        WholeFramesConcat(crc, a[1..], b, cut - HEADER_BYTES - |a[0].payload|);
      }
    }
  }

  lemma {:induction false} MaxSeqConcat(a: seq<WalRecord>, b: seq<WalRecord>)
    ensures MaxSeq(a + b) == Max(MaxSeq(a), MaxSeq(b))
  {
    if a == [] {
      assert a + b == b;
    } else {
      MaxSeqConcat(a[1..], b);
      assert (a + b)[0] == a[0] && (a + b)[1..] == a[1..] + b;
    }
  }

  /** Files of frames, as read from disk. */
  ghost predicate FrameFiles(crc: Crc, files: map<nat, seq<byte>>, ks: seq<nat>)
  {
    forall f :: f in ks ==> f in files && IsFrames(crc, files[f])
  }

  ghost predicate Roomy(r: WalRecord) { Encodable(r) && r.recordSeq + 1 < U64_LIMIT }

  ghost predicate IsFrames(crc: Crc, b: seq<byte>)
  {
    var rs := Parse(crc, b).records;
    b == Frames(crc, rs) && forall r :: r in rs ==> Roomy(r)
  }

  /** The largest number among records whose numbers leave room for one more. */
  lemma {:induction false} MaxSeqRoom(rs: seq<WalRecord>)
    requires forall r :: r in rs ==> Roomy(r)
    ensures MaxSeq(rs) + 1 < U64_LIMIT
  {
    if rs != [] {
      MaxSeqRoom(rs[1..]);
      assert Roomy(rs[0]);
    }
  }

  /** One file cut at `n`: its records, what scanning it finds, and whether replay
      goes on. */
  lemma {:induction false} CutFile(crc: Crc, b: seq<byte>, n: nat)
    requires IsFrames(crc, b) && n <= |b|
    ensures var rs := Parse(crc, b).records;
      var m := WholeFrames(rs, n);
      && Parse(crc, b[..n]).records == rs[..m]
      && Inc(ScanMax(b[..n])) == MaxSeq(rs[..m]) + 1
      && (n == |b| ==> m == |rs| && Parse(crc, b[..n]).tail == Clean)
  {
    hide Parse, ScanMax, Frame, Frames;
    var rs := Parse(crc, b).records;
    TornTailRecovery(crc, rs, n);
    AllFramesWhole(crc, rs);
    MaxSeqRoom(rs[..WholeFrames(rs, n)]);
    if n == |b| {
      RoundTrip(crc, rs);
      assert b[..n] == b;
    }
  }

  lemma {:induction false} NothingBehind(crc: Crc, fs: map<nat, seq<byte>>, files: map<nat, seq<byte>>, ks: seq<nat>, acc: nat)
    requires Listed(files, ks) && Listed(fs, ks)
    requires CutTo(fs, files, ks, 0) && acc >= 1
    ensures Replay(crc, fs, ks) == [] && NextAfter(fs, ks, acc) == acc
  {
    if ks != [] {
      EmptyFile(crc);
      assert fs[ks[0]] == [];
      NothingBehind(crc, fs, files, ks[1..], acc);
    }
  }

  lemma ReplayStep(crc: Crc, fs: map<nat, seq<byte>>, ks: seq<nat>, acc: nat)
    requires ks != [] && Listed(fs, ks)
    ensures Replay(crc, fs, ks) == Parse(crc, fs[ks[0]]).records
              + if StopsReplay(Parse(crc, fs[ks[0]]).tail) then [] else Replay(crc, fs, ks[1..])
    ensures NextAfter(fs, ks, acc) == NextAfter(fs, ks[1..], Max(acc, Inc(ScanMax(fs[ks[0]]))))
  {
    hide Parse, ScanMax;
  }

  /** Replay and scanning find the records before the cut. */
  ghost predicate Finds(crc: Crc, fs: map<nat, seq<byte>>, ks: seq<nat>, rs: seq<WalRecord>, cut: nat, acc: nat)
    requires Listed(fs, ks)
  {
    var m := WholeFrames(rs, cut);
    Replay(crc, fs, ks) == rs[..m] && NextAfter(fs, ks, acc) == Max(acc, MaxSeq(rs[..m]) + 1)
  }

  /** What replay and scanning find in the first file when it is cut at `n`. */
  lemma CutHead(crc: Crc, fs: map<nat, seq<byte>>, b: seq<byte>, n: nat, ks: seq<nat>, acc: nat)
    requires ks != [] && Listed(fs, ks)
    requires IsFrames(crc, b) && n <= |b| && fs[ks[0]] == b[..n]
    ensures var here := Parse(crc, b).records;
      var m := WholeFrames(here, n);
      && (Replay(crc, fs, ks) == here[..m] || Replay(crc, fs, ks) == here[..m] + Replay(crc, fs, ks[1..]))
      && (n == |b| ==> m == |here| && Replay(crc, fs, ks) == here + Replay(crc, fs, ks[1..]))
      && NextAfter(fs, ks, acc) == NextAfter(fs, ks[1..], Max(acc, MaxSeq(here[..m]) + 1))
  {
    hide Parse, ScanMax, Frame, Frames, IsFrames, WholeFrames, Replay, NextAfter;
    CutFile(crc, b, n);
    ReplayStep(crc, fs, ks, acc);
    var here := Parse(crc, b).records;
    assert here[..|here|] == here;
  }

  /** The cut falls into the first file. */
  lemma {:induction false} CutInside(crc: Crc, fs: map<nat, seq<byte>>, b: seq<byte>, rest: seq<WalRecord>, files: map<nat, seq<byte>>,
                                     ks: seq<nat>, cut: nat, acc: nat)
    requires ks != [] && Listed(files, ks) && Listed(fs, ks)
    requires IsFrames(crc, b) && cut < |b| && fs[ks[0]] == b[..cut] && CutTo(fs, files, ks[1..], 0) && acc >= 1
    ensures Finds(crc, fs, ks, Parse(crc, b).records + rest, cut, acc)
  {
    hide Parse, ScanMax, Frame, Frames, IsFrames, WholeFrames, Replay, NextAfter, CutTo;
    var here := Parse(crc, b).records;
    var m := WholeFrames(here, cut);
    CutHead(crc, fs, b, cut, ks, acc);
    FramesOf(crc, b);
    WholeFramesConcat(crc, here, rest, cut);
    NothingBehind(crc, fs, files, ks[1..], Max(acc, MaxSeq(here[..m]) + 1));
    assert (here + rest)[..m] == here[..m];
  }

  /** The cut falls behind the first file. */
  lemma {:induction false} CutBehind(crc: Crc, fs: map<nat, seq<byte>>, b: seq<byte>, rest: seq<WalRecord>, ks: seq<nat>,
                                     cut: nat, acc: nat)
    requires ks != [] && Listed(fs, ks)
    requires IsFrames(crc, b) && cut >= |b| && fs[ks[0]] == b
    requires Finds(crc, fs, ks[1..], rest, cut - |b|, Max(acc, MaxSeq(Parse(crc, b).records) + 1))
    ensures Finds(crc, fs, ks, Parse(crc, b).records + rest, cut, acc)
  {
    hide Parse, ScanMax, Frame, Frames, IsFrames, WholeFrames, Replay, NextAfter, Max, MaxSeq;
    var here := Parse(crc, b).records;
    assert b[..|b|] == b && here[..|here|] == here;
    CutHead(crc, fs, b, |b|, ks, acc);
    FramesOf(crc, b);
    WholeFramesConcat(crc, here, rest, cut);
    CutJoin(here, rest, WholeFrames(rest, cut - |b|), acc);
  }

  lemma {:induction false} CutChain(crc: Crc, fs: map<nat, seq<byte>>, files: map<nat, seq<byte>>, ks: seq<nat>, cut: nat, acc: nat)
    requires Listed(files, ks) && Listed(fs, ks)
    requires FrameFiles(crc, files, ks) && CutTo(fs, files, ks, cut) && acc >= 1
    ensures Finds(crc, fs, ks, Chain(Contents(crc, files), ks), cut, acc)
  {
    if ks == [] {
      assert Chain(Contents(crc, files), ks) == [];
    } else {
      var b := files[ks[0]];
      FramesTail(crc, files, ks);
      ListedTail(fs, ks);
      ListedTail(files, ks);
      hide *;
      assert b[..|b|] == b;
      ChainHead(crc, files, ks);
      CutToHead(fs, files, ks, cut);
      if cut < |b| {
        CutInside(crc, fs, b, Chain(Contents(crc, files), ks[1..]), files, ks, cut, acc);
      } else {
        var acc' := Max(acc, MaxSeq(Parse(crc, b).records) + 1);
        MaxAtLeast(acc, MaxSeq(Parse(crc, b).records) + 1);
        CutChain(crc, fs, files, ks[1..], cut - |b|, acc');
        CutBehind(crc, fs, b, Chain(Contents(crc, files), ks[1..]), ks, cut, acc);
      }
    }
  }

  lemma ListedTail(files: map<nat, seq<byte>>, ks: seq<nat>)
    requires Listed(files, ks) && ks != []
    ensures ks[0] in files && Listed(files, ks[1..])
  {
    assert ks[0] in ks;
  }

  lemma FramesTail(crc: Crc, files: map<nat, seq<byte>>, ks: seq<nat>)
    requires FrameFiles(crc, files, ks) && ks != []
    ensures ks[0] in files && IsFrames(crc, files[ks[0]]) && FrameFiles(crc, files, ks[1..])
  {
    hide IsFrames;
    assert ks[0] in ks;
  }

  lemma ChainHead(crc: Crc, files: map<nat, seq<byte>>, ks: seq<nat>)
    requires ks != [] && ks[0] in files
    ensures Chain(Contents(crc, files), ks) == Parse(crc, files[ks[0]]).records + Chain(Contents(crc, files), ks[1..])
  {
    hide Parse;
  }

  lemma CutToHead(fs: map<nat, seq<byte>>, files: map<nat, seq<byte>>, ks: seq<nat>, cut: nat)
    requires ks != [] && Listed(files, ks) && Listed(fs, ks) && CutTo(fs, files, ks, cut)
    ensures var b := files[ks[0]];
      if cut < |b| then fs[ks[0]] == b[..cut] && CutTo(fs, files, ks[1..], 0)
      else fs[ks[0]] == b[..|b|] && CutTo(fs, files, ks[1..], cut - |b|)
  {
  }

  lemma MaxAtLeast(a: nat, b: nat)
    requires a >= 1
    ensures Max(a, b) >= 1
  {
  }

  /** What the cut head and the cut rest give together. */
  lemma CutJoin(here: seq<WalRecord>, rest: seq<WalRecord>, k: nat, acc: nat)
    requires k <= |rest|
    ensures (here + rest)[..|here| + k] == here[..|here|] + rest[..k]
    ensures Max(Max(acc, MaxSeq(here[..|here|]) + 1), MaxSeq(rest[..k]) + 1)
         == Max(acc, MaxSeq((here + rest)[..|here| + k]) + 1)
  {
    assert here[..|here|] == here;
    assert (here + rest)[..|here| + k] == here + rest[..k];
    MaxSeqConcat(here, rest[..k]);
  }

  lemma FramesOf(crc: Crc, b: seq<byte>)
    requires IsFrames(crc, b)
    ensures b == Frames(crc, Parse(crc, b).records)
  {
  }

  lemma {:induction false} NumberedMax(ps: seq<seq<byte>>, m: nat)
    requires m <= |ps|
    ensures MaxSeq(Numbered(ps)[..m]) == m
  {
    if m > 0 {
      NumberedMax(ps, m - 1);
      assert Numbered(ps)[..m] == Numbered(ps)[..m - 1] + [WalRecord(m, ps[m - 1])];
      MaxSeqAppend(Numbered(ps)[..m - 1], WalRecord(m, ps[m - 1]));
    }
  }

  /** Torn-tail recovery of a whole log: append payloads to an empty directory under any
      rotation threshold and cut what the files hold at any byte. Replay gives exactly
      the payloads whose frames end at or before the cut, numbered from 1, and the
      reopened writer numbers the next record behind them. */
  lemma {:induction false} LogRecovery(crc: Crc, rotation: nat, ps: seq<seq<byte>>, fs: map<nat, seq<byte>>, cut: nat)
    requires Writable(ps)
    requires var files := Written(crc, rotation, ps).files;
      fs.Keys == files.Keys && CutTo(fs, files, FileList(files), cut)
    ensures var m := WholeFrames(Numbered(ps), cut);
      && Replay(crc, fs, FileList(fs)) == Numbered(ps[..m])
      && OpenWal(fs, rotation).nextSeq == m + 1
  {
    hide Written, WholeFrames, Replay, NextAfter, FileList, CutTo, OpenWal, Chain, Numbered, Writable;
    var w := Written(crc, rotation, ps);
    var m := WholeFrames(Numbered(ps), cut);
    WrittenHolds(crc, rotation, ps);
    SameFiles(fs, w.files);
    HeldFrames(crc, w, ps);
    HeldChain(crc, w, Numbered(ps));
    CutChain(crc, fs, w.files, FileList(fs), cut, 1);
    hide Holds, Contents, FrameFiles;
    assert Replay(crc, fs, FileList(fs)) == Numbered(ps)[..m];
    NumberedMax(ps, m);
    NumberedPrefix(ps, m);
    OpenNumbers(fs, rotation);
  }

  lemma HeldChain(crc: Crc, w: Wal, rs: seq<WalRecord>)
    requires Holds(crc, w, rs)
    ensures Chain(Contents(crc, w.files), FileList(w.files)) == rs
  {
  }

  lemma NumberedPrefix(ps: seq<seq<byte>>, m: nat)
    requires m <= |ps|
    ensures Numbered(ps)[..m] == Numbered(ps[..m])
  {
  }

  lemma OpenNumbers(fs: map<nat, seq<byte>>, rotation: nat)
    ensures OpenWal(fs, rotation).nextSeq == NextAfter(fs, FileList(fs), 1)
  {
    hide NextAfter, FileList, LastFile;
  }

  lemma NumberedRoomy(ps: seq<seq<byte>>)
    requires Writable(ps)
    ensures forall r :: r in Numbered(ps) ==> Roomy(r)
  {
  }

  /** A record of a listed file is in the chain. */
  lemma InChain(rm: map<nat, seq<WalRecord>>, ks: seq<nat>, f: nat, r: WalRecord)
    requires (forall g :: g in ks ==> g in rm) && f in ks && r in rm[f]
    ensures r in Chain(rm, ks)
  {
    ChainMembers(rm, ks);
    hide Chain;
    var i :| 0 <= i < |rm[f]| && rm[f][i] == r;
    assert InSome(r, rm, ks);
  }

  lemma {:induction false} HeldFrames(crc: Crc, w: Wal, ps: seq<seq<byte>>)
    requires Holds(crc, w, Numbered(ps)) && Writable(ps)
    ensures FrameFiles(crc, w.files, FileList(w.files))
  {
    hide Parse, Frames, Chain, FileList, WalOk, Roomy, Numbered;
    NumberedRoomy(ps);
    var ks := FileList(w.files);
    var rm := Contents(crc, w.files);
    forall f | f in ks ensures IsFrames(crc, w.files[f]) {
      forall r | r in rm[f] ensures Roomy(r) {
        InChain(rm, ks, f, r);
      }
      RoomyFrames(crc, w.files[f]);
    }
  }

  lemma RoomyFrames(crc: Crc, b: seq<byte>)
    requires b == Frames(crc, Parse(crc, b).records) && forall r :: r in Parse(crc, b).records ==> Roomy(r)
    ensures IsFrames(crc, b)
  {
  }
}

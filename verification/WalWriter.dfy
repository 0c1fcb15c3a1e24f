/** The appender and the replay iterator over a directory of log files, proved
    against the functions of `WalLog` and `WalFormat`. */
module WalWriter {
  import opened Bytes
  import opened Orders
  import opened Wrappers
  import opened WalFormat
  import opened WalLog

  datatype WalError = PayloadTooLarge(len: nat)

  datatype WalReadError = TruncatedRecord(recordSeq: nat) | CrcError(recordSeq: nat)

  /** The log directory: file contents by file number. */
  class WalDir {
    var files: map<nat, seq<byte>>

    constructor ()
      ensures files == map[]
    {
      files := map[];
    }
  }

  method ScanMaxRecordSeq(bytes: seq<byte>) returns (maxSeq: nat)
    ensures maxSeq == ScanMax(bytes)
  {
    maxSeq := 0;
    var rest := bytes;
    while HasFrame(rest)
      invariant Max(maxSeq, ScanMax(rest)) == ScanMax(bytes)
      decreases |rest|
    {
      if HeaderSeq(rest) > maxSeq {
        maxSeq := HeaderSeq(rest);
      }
      rest := rest[FrameSize(rest)..];
    }
  }

  class WalWriter {
    const crc: Crc
    const dir: WalDir
    const rotationBytes: nat
    var fileSeq: nat
    var fileBytes: nat
    var nextRecordSeq: nat

    ghost predicate Valid()
      reads this, dir
    {
      fileSeq in dir.files
    }

    /** The writer and its directory as a value. */
    ghost function View(): Wal
      reads this, dir
    {
      Wal(dir.files, fileSeq, fileBytes, nextRecordSeq, rotationBytes)
    }

    constructor OpenWithRotation(crc: Crc, dir: WalDir, rotationBytes: nat)
      modifies dir
      ensures this.crc == crc && this.dir == dir && Valid()
      ensures View() == OpenWal(old(dir.files), rotationBytes)
    {
      this.crc, this.dir, this.rotationBytes := crc, dir, rotationBytes;
      var entries := FileList(dir.files);
      fileSeq := if entries == [] then 0 else entries[|entries| - 1];
      nextRecordSeq := 1;
      fileBytes := 0;
      new;
      assert fileSeq == LastFile(dir.files);
      hide ScanMax, FileList, LastFile;
      var rest := entries;
      while rest != []
        invariant forall f :: f in rest ==> f in dir.files
        invariant dir.files == old(dir.files) && fileSeq == LastFile(dir.files)
        invariant NextAfter(dir.files, rest, nextRecordSeq) == NextAfter(dir.files, FileList(dir.files), 1)
      {
        var m := ScanMaxRecordSeq(dir.files[rest[0]]);
        if Inc(m) > nextRecordSeq {
          nextRecordSeq := Inc(m);
        }
        rest := rest[1..];
      }
      dir.files := Touch(dir.files, fileSeq);
      fileBytes := |dir.files[fileSeq]|;
    }

    method Append(payload: seq<byte>) returns (r: Result<nat, WalError>)
      requires Valid()
      modifies this, dir
      ensures Valid()
      ensures |payload| >= U32_LIMIT ==>
        r == Failure(PayloadTooLarge(|payload|)) && View() == old(View())
      ensures |payload| < U32_LIMIT ==>
        r == Success(old(nextRecordSeq)) && View() == AppendWal(crc, old(View()), payload)
    {
      if |payload| >= U32_LIMIT {
        return Failure(PayloadTooLarge(|payload|));
      }
      var recordSeq := nextRecordSeq;
      var frame := Frame(crc, WalRecord(recordSeq, payload));
      dir.files := dir.files[fileSeq := dir.files[fileSeq] + frame];
      fileBytes := fileBytes + |frame|;
      nextRecordSeq := Inc(nextRecordSeq);
      if fileBytes >= rotationBytes {
        Rotate();
      }
      r := Success(recordSeq);
    }

    method Rotate()
      modifies this, dir
      ensures Valid() && View() == RotateWal(old(View()))
    {
      fileSeq := fileSeq + 1;
      dir.files := Touch(dir.files, fileSeq);
      fileBytes := 0;
    }

    method TruncateThrough(flushedThrough: nat)
      requires Valid()
      modifies dir
      ensures Valid()
      ensures View() == TruncateAll(old(View()), flushedThrough)
    {
      var rest := FileList(dir.files);
      hide ScanMax, FileList, Ascending, TruncateAll;
      while rest != []
        invariant Ascending(rest, NatLess) && fileSeq in dir.files
        invariant forall f :: f in rest ==> f in dir.files
        invariant forall f :: f in dir.files ==> f in old(dir.files) && dir.files[f] == old(dir.files)[f]
        invariant forall f :: f in old(dir.files) && f !in rest ==>
          (f in dir.files <==> !Deletable(old(View()), flushedThrough, f))
      {
        var f := rest[0];
        ListHead(rest);
        if f != fileSeq {
          var m := ScanMaxRecordSeq(dir.files[f]);
          if m <= flushedThrough {
            dir.files := dir.files - {f};
          }
        }
        rest := rest[1..];
      }
      TruncatedIs(old(View()), flushedThrough, dir.files);
    }
  }

  lemma TruncatedIs(w: Wal, through: nat, files: map<nat, seq<byte>>)
    requires forall f :: f in files ==> f in w.files && files[f] == w.files[f]
    requires forall f :: f in w.files ==> (f in files <==> !Deletable(w, through, f))
    ensures TruncateAll(w, through) == w.(files := files)
  {
    hide ScanMax;
  }

  lemma ListHead(ks: seq<nat>)
    requires ks != [] && Ascending(ks, NatLess)
    ensures Ascending(ks[1..], NatLess) && ks[0] !in ks[1..]
    ensures forall f :: f in ks <==> f == ks[0] || f in ks[1..]
  {
    HeadLeast(ks, NatLess);
    assert ks == [ks[0]] + ks[1..];
  }

  lemma ReplayNil(crc: Crc, files: map<nat, seq<byte>>)
    ensures Replay(crc, files, []) == []
  {
  }

  lemma ReplayCons(crc: Crc, files: map<nat, seq<byte>>, ks: seq<nat>)
    requires ks != [] && forall f :: f in ks ==> f in files
    ensures var p := Parse(crc, files[ks[0]]);
      Replay(crc, files, ks) ==
        if StopsReplay(p.tail) then p.records else p.records + Replay(crc, files, ks[1..])
  {
  }

  lemma ParseCases(crc: Crc, b: seq<byte>)
    ensures |b| < HEADER_BYTES ==> Parse(crc, b).records == [] && !StopsReplay(Parse(crc, b).tail)
    ensures |b| >= HEADER_BYTES && (!HasFrame(b) || !CrcMatches(crc, b)) ==>
      Parse(crc, b).records == [] && StopsReplay(Parse(crc, b).tail)
    ensures HasFrame(b) && CrcMatches(crc, b) ==>
      var rest := Parse(crc, b[FrameSize(b)..]);
      Parse(crc, b).records == [FirstRecord(b)] + rest.records && Parse(crc, b).tail == rest.tail
  {
  }

  /** Yields the records of the files in order. */
  class WalIter {
    const crc: Crc
    const files: map<nat, seq<byte>>
    var pending: seq<nat>
    var current: Option<seq<byte>>

    ghost predicate Valid()
      reads this
    {
      forall f :: f in pending ==> f in files
    }

    /** The records still to come. */
    ghost function Rest(): seq<WalRecord>
      requires Valid()
      reads this
    {
      match current
      case None => Replay(crc, files, pending)
      case Some(b) =>
        if StopsReplay(Parse(crc, b).tail) then Parse(crc, b).records
        else Parse(crc, b).records + Replay(crc, files, pending)
    }

    /** Whether the iteration will end in an error rather than at the last file. */
    ghost predicate EndsInError()
      requires Valid()
      reads this
    {
      (current.Some? && StopsReplay(Parse(crc, current.value).tail)) || SomeStops(pending)
    }

    ghost predicate SomeStops(ks: seq<nat>)
      requires forall f :: f in ks ==> f in files
    {
      exists f :: f in ks && StopsReplay(Parse(crc, files[f]).tail)
    }

    constructor Open(crc: Crc, dir: WalDir)
      ensures this.crc == crc && files == dir.files && Valid()
      ensures Rest() == Replay(crc, dir.files, FileList(dir.files))
      ensures EndsInError() <==> exists f :: f in dir.files && StopsReplay(Parse(crc, dir.files[f]).tail)
    {
      this.crc, this.files := crc, dir.files;
      pending := FileList(dir.files);
      current := None;
    }

    method Next() returns (r: Option<Result<WalRecord, WalReadError>>)
      requires Valid()
      modifies this
      ensures Valid()
      ensures r.Some? && r.value.Success? ==>
        old(Rest()) == [r.value.value] + Rest() && (EndsInError() <==> old(EndsInError()))
      ensures r.Some? && r.value.Failure? ==> old(Rest()) == [] && old(EndsInError())
      ensures r.None? ==> old(Rest()) == [] && !old(EndsInError())
      ensures r.Some? && r.value.Success? ==> |Rest()| < |old(Rest())|
    {
      hide Parse, Replay, ScanMax;
      while true
        invariant Valid()
        invariant Rest() == old(Rest()) && (EndsInError() <==> old(EndsInError()))
        decreases |pending|, current.Some?
      {
        if current.None? {
          if pending == [] {
            ReplayNil(crc, files);
            return None;
          }
          ReplayCons(crc, files, pending);
          current, pending := Some(files[pending[0]]), pending[1..];
        }
        var b := current.value;
        ParseCases(crc, b);
        if |b| < HEADER_BYTES {
          current := None;
          continue;
        }
        var recordSeq := HeaderSeq(b);
        if !HasFrame(b) {
          return Some(Failure(TruncatedRecord(recordSeq)));
        }
        if !CrcMatches(crc, b) {
          return Some(Failure(CrcError(recordSeq)));
        }
        current := Some(b[FrameSize(b)..]);
        return Some(Success(FirstRecord(b)));
      }
    }
  }
}

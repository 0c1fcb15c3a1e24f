/** The on-disk frame format of one write-ahead log file and what a reader makes
    of any bytes it finds there. The checksum is an arbitrary function `crc`, so
    every result holds for CRC-32 and for any other. */
module WalFormat {
  import opened Bytes

  type Crc = seq<byte> -> U32

  const HEADER_BYTES: nat := 16

  datatype WalRecord = WalRecord(recordSeq: nat, payload: seq<byte>)

  /** A record `append` can write: the payload length and the sequence number fit
      their header fields. */
  predicate Encodable(r: WalRecord)
  {
    |r.payload| < U32_LIMIT && r.recordSeq < U64_LIMIT
  }

  function Frame(crc: Crc, r: WalRecord): (f: seq<byte>)
    ensures |f| == HEADER_BYTES + |r.payload|
  {
    var s := ToLE(r.recordSeq, 8);
    ToLE(|r.payload|, 4) + ToLE(crc(s + r.payload), 4) + s + r.payload
  }

  function Frames(crc: Crc, rs: seq<WalRecord>): seq<byte>
  {
    if rs == [] then [] else Frame(crc, rs[0]) + Frames(crc, rs[1..])
  }

  /** Why a reader came to the end of a file: nothing left, fewer bytes than a
      header (which it takes for the end as well), a payload cut short, or a
      checksum that does not match. */
  datatype Tail = Clean | ShortHeader | Truncated | CrcMismatch

  datatype Parsed = Parsed(records: seq<WalRecord>, tail: Tail)

  function HeaderLen(b: seq<byte>): nat
    requires |b| >= HEADER_BYTES
  {
    FromLE(b[..4])
  }

  function HeaderSeq(b: seq<byte>): nat
    requires |b| >= HEADER_BYTES
  {
    FromLE(b[8..16])
  }

  /** A header and the whole payload it declares are there. */
  predicate HasFrame(b: seq<byte>)
  {
    |b| >= HEADER_BYTES && |b| >= HEADER_BYTES + HeaderLen(b)
  }

  function FrameSize(b: seq<byte>): (n: nat)
    requires HasFrame(b)
    ensures HEADER_BYTES <= n <= |b|
  {
    HEADER_BYTES + HeaderLen(b)
  }

  predicate CrcMatches(crc: Crc, b: seq<byte>)
    requires HasFrame(b)
  {
    crc(b[8..16] + b[16..FrameSize(b)]) == FromLE(b[4..8])
  }

  function FirstRecord(b: seq<byte>): WalRecord
    requires HasFrame(b)
  {
    WalRecord(HeaderSeq(b), b[16..FrameSize(b)])
  }

  /** Everything the replay iterator reads from one file. */
  function Parse(crc: Crc, b: seq<byte>): Parsed
    decreases |b|
  {
    if b == [] then Parsed([], Clean)
    else if |b| < HEADER_BYTES then Parsed([], ShortHeader)
    else if !HasFrame(b) then Parsed([], Truncated)
    else if !CrcMatches(crc, b) then Parsed([], CrcMismatch)
    else
      var rest := Parse(crc, b[FrameSize(b)..]);
      Parsed([FirstRecord(b)] + rest.records, rest.tail)
  }

  function Max(a: nat, b: nat): nat { if a < b then b else a }

  /** `scan_max_record_seq`: the largest sequence number among whole frames; it
      does not look at checksums. */
  function ScanMax(b: seq<byte>): nat
    decreases |b|
  {
    if !HasFrame(b) then 0 else Max(HeaderSeq(b), ScanMax(b[FrameSize(b)..]))
  }

  function MaxSeq(rs: seq<WalRecord>): nat
  {
    if rs == [] then 0 else Max(rs[0].recordSeq, MaxSeq(rs[1..]))
  }

  // ---------- one frame ----------

  lemma HeaderOfFrame(crc: Crc, r: WalRecord, k: nat, after: seq<byte>)
    requires Encodable(r) && HEADER_BYTES <= k <= |Frame(crc, r)|
    ensures var b := Frame(crc, r)[..k] + after;
      && HeaderLen(b) == |r.payload|
      && HeaderSeq(b) == r.recordSeq
      && FromLE(b[4..8]) == crc(ToLE(r.recordSeq, 8) + r.payload)
      && b[8..16] == ToLE(r.recordSeq, 8)
  {
    var s := ToLE(r.recordSeq, 8);
    FourParts(ToLE(|r.payload|, 4), ToLE(crc(s + r.payload), 4), s, r.payload, k, after);
    Widths();
    FromLEToLE(|r.payload|, 4);
    FromLEToLE(crc(s + r.payload), 4);
    FromLEToLE(r.recordSeq, 8);
    hide ToLE, FromLE;
  }

  /** The three fields of a header, whatever part of the payload follows. */
  lemma FourParts(a: seq<byte>, c: seq<byte>, s: seq<byte>, p: seq<byte>, k: nat, after: seq<byte>)
    requires |a| == 4 && |c| == 4 && |s| == 8 && HEADER_BYTES <= k <= HEADER_BYTES + |p|
    ensures var b := (a + c + s + p)[..k] + after;
      |b| >= HEADER_BYTES && b[..4] == a && b[4..8] == c && b[8..16] == s
  {
    var b := (a + c + s + p)[..k] + after;
    assert forall i :: 0 <= i < HEADER_BYTES ==> b[i] == (a + c + s)[i];
    assert b[..4] == a;
    assert b[4..8] == c;
    assert b[8..16] == s;
  }

  /** The first frame of a file does not depend on what follows it. */
  lemma FirstFrameStable(crc: Crc, a: seq<byte>, b: seq<byte>)
    requires HasFrame(a)
    ensures HasFrame(a + b) && FrameSize(a + b) == FrameSize(a)
    ensures FirstRecord(a + b) == FirstRecord(a)
    ensures CrcMatches(crc, a + b) == CrcMatches(crc, a)
    ensures (a + b)[FrameSize(a)..] == a[FrameSize(a)..] + b
  {
    var ab := a + b;
    assert ab[..4] == a[..4] && ab[4..8] == a[4..8] && ab[8..16] == a[8..16];
    assert ab[16..FrameSize(a)] == a[16..FrameSize(a)];
  }

  lemma FirstFrameOf(crc: Crc, r: WalRecord)
    requires Encodable(r)
    ensures var f := Frame(crc, r);
      HasFrame(f) && FrameSize(f) == |f| && FirstRecord(f) == r && CrcMatches(crc, f)
  {
    var f := Frame(crc, r);
    HeaderOfFrame(crc, r, |f|, []);
    assert f[..|f|] + [] == f;
    assert f[16..16 + |r.payload|] == r.payload;
  }

  /** A whole frame at the front of a file is read back as the record written. */
  lemma ParseFrame(crc: Crc, r: WalRecord, after: seq<byte>)
    requires Encodable(r)
    ensures Parse(crc, Frame(crc, r) + after)
         == Parsed([r] + Parse(crc, after).records, Parse(crc, after).tail)
    ensures ScanMax(Frame(crc, r) + after) == Max(r.recordSeq, ScanMax(after))
  {
    var f := Frame(crc, r);
    FirstFrameOf(crc, r);
    FirstFrameStable(crc, f, after);
    assert f[|f|..] + after == after;
  }

  /** A frame cut anywhere before its end yields nothing. */
  lemma ParseCutFrame(crc: Crc, r: WalRecord, k: nat)
    requires Encodable(r) && k < |Frame(crc, r)|
    ensures var p := Parse(crc, Frame(crc, r)[..k]);
      && p.records == []
      && p.tail == (if k == 0 then Clean else if k < HEADER_BYTES then ShortHeader else Truncated)
    ensures ScanMax(Frame(crc, r)[..k]) == 0
  {
    if k >= HEADER_BYTES {
      HeaderOfFrame(crc, r, k, []);
      assert Frame(crc, r)[..k] + [] == Frame(crc, r)[..k];
    }
  }

  // ---------- whole files ----------

  /** Bytes added behind a clean tail are read as if they stood alone. */
  lemma {:induction false} ParseAppend(crc: Crc, a: seq<byte>, b: seq<byte>)
    requires Parse(crc, a).tail == Clean
    ensures Parse(crc, a + b)
         == Parsed(Parse(crc, a).records + Parse(crc, b).records, Parse(crc, b).tail)
    ensures ScanMax(a + b) == Max(ScanMax(a), ScanMax(b))
    decreases |a|
  {
    if a == [] {
      assert a + b == b;
    } else {
      ParseStep(crc, a);
      HeaderStable(a, b);
      FirstFrameStable(crc, a, b);
      ParseStep(crc, a + b);
      hide *;
      var a' := a[FrameSize(a)..];
      ParseAppend(crc, a', b);
      Assoc([FirstRecord(a)], Parse(crc, a').records, Parse(crc, b).records);
      MaxAssoc(HeaderSeq(a), ScanMax(a'), ScanMax(b));
    }
  }

  lemma HeaderStable(a: seq<byte>, b: seq<byte>)
    requires HasFrame(a)
    ensures HeaderSeq(a + b) == HeaderSeq(a)
  {
    assert (a + b)[8..16] == a[8..16];
  }

  lemma Assoc<T>(x: seq<T>, y: seq<T>, z: seq<T>)
    ensures x + (y + z) == x + y + z
  {
  }

  lemma MaxAssoc(x: nat, y: nat, z: nat)
    ensures Max(x, Max(y, z)) == Max(Max(x, y), z)
  {
  }

  /** How the first frame of a file is read. */
  lemma ParseStep(crc: Crc, b: seq<byte>)
    ensures HasFrame(b) && CrcMatches(crc, b) ==>
      var rest := Parse(crc, b[FrameSize(b)..]);
      Parse(crc, b) == Parsed([FirstRecord(b)] + rest.records, rest.tail)
    ensures b != [] && Parse(crc, b).tail == Clean ==> HasFrame(b) && CrcMatches(crc, b)
    ensures HasFrame(b) ==> ScanMax(b) == Max(HeaderSeq(b), ScanMax(b[FrameSize(b)..]))
  {
    hide CrcMatches;
  }

  /** The scan never reports less than a sequence number the iterator yields,
      whatever the bytes are. */
  lemma {:induction false} ScanCoversParse(crc: Crc, b: seq<byte>)
    ensures MaxSeq(Parse(crc, b).records) <= ScanMax(b)
    decreases |b|
  {
    if HasFrame(b) {
      ScanCoversParse(crc, b[FrameSize(b)..]);
    }
  }

  /** How many of the frames of `rs` end at or before byte `cut`. */
  function WholeFrames(rs: seq<WalRecord>, cut: nat): (m: nat)
    ensures m <= |rs|
  {
    if rs == [] || cut < HEADER_BYTES + |rs[0].payload| then 0
    else 1 + WholeFrames(rs[1..], cut - HEADER_BYTES - |rs[0].payload|)
  }

  /** Torn-tail recovery: cut the file of `rs` at any byte, and reading it gives
      exactly the records whose frames end at or before the cut, in order; the
      tail is never a checksum error, and is clean exactly when the cut falls
      between two frames. The scan agrees with the iterator. */
  lemma {:induction false} TornTailRecovery(crc: Crc, rs: seq<WalRecord>, cut: nat)
    requires forall r :: r in rs ==> Encodable(r)
    requires cut <= |Frames(crc, rs)|
    ensures var m := WholeFrames(rs, cut);
      var p := Parse(crc, Frames(crc, rs)[..cut]);
      && p.records == rs[..m]
      && p.tail != CrcMismatch
      && (p.tail == Clean <==> cut == |Frames(crc, rs[..m])|)
      && ScanMax(Frames(crc, rs)[..cut]) == MaxSeq(rs[..m])
    decreases rs
  {
    if rs != [] {
      var size := |Frame(crc, rs[0])|;
      CutFrames(crc, rs, cut);
      if cut < size {
        ParseCutFrame(crc, rs[0], cut);
      } else {
        TornTailRecovery(crc, rs[1..], cut - size);
        ParseFrame(crc, rs[0], Frames(crc, rs[1..])[..cut - size]);
        PrefixOfRecords(crc, rs, WholeFrames(rs, cut));
      }
    }
  }

  lemma CutFrames(crc: Crc, rs: seq<WalRecord>, cut: nat)
    requires rs != [] && cut <= |Frames(crc, rs)|
    ensures var f := Frame(crc, rs[0]);
      Frames(crc, rs)[..cut]
        == if cut < |f| then f[..cut] else f + Frames(crc, rs[1..])[..cut - |f|]
  {
  }

  lemma PrefixOfRecords(crc: Crc, rs: seq<WalRecord>, m: nat)
    requires 0 < m <= |rs|
    ensures rs[..m] == [rs[0]] + rs[1..][..m - 1]
    ensures MaxSeq(rs[..m]) == Max(rs[0].recordSeq, MaxSeq(rs[1..][..m - 1]))
    ensures Frames(crc, rs[..m]) == Frame(crc, rs[0]) + Frames(crc, rs[1..][..m - 1])
  {
    assert rs[..m][1..] == rs[1..][..m - 1];
  }

  /** Round trip: an untorn file gives back every record. */
  lemma {:induction false} RoundTrip(crc: Crc, rs: seq<WalRecord>)
    requires forall r :: r in rs ==> Encodable(r)
    ensures Parse(crc, Frames(crc, rs)) == Parsed(rs, Clean)
    ensures ScanMax(Frames(crc, rs)) == MaxSeq(rs)
  {
    var b := Frames(crc, rs);
    TornTailRecovery(crc, rs, |b|);
    assert b[..|b|] == b;
    AllFramesWhole(crc, rs);
    assert rs[..|rs|] == rs;
  }

  lemma {:induction false} AllFramesWhole(crc: Crc, rs: seq<WalRecord>)
    ensures WholeFrames(rs, |Frames(crc, rs)|) == |rs|
  {
    if rs != [] {
      AllFramesWhole(crc, rs[1..]);
    }
  }

  // ---------- appending behind a torn tail ----------

  /** The next append to these bytes, whatever its payload, is read back. */
  ghost predicate AppendIsRead(crc: Crc, b: seq<byte>, recordSeq: nat)
  {
    forall p: seq<byte> :: |p| < U32_LIMIT ==>
      Parse(crc, b + Frame(crc, WalRecord(recordSeq, p))).records
        == Parse(crc, b).records + [WalRecord(recordSeq, p)]
  }

  /** What is left of a file behind its last whole record. */
  function Leftover(crc: Crc, b: seq<byte>): seq<byte>
    decreases |b|
  {
    if !HasFrame(b) || !CrcMatches(crc, b) then b
    else Leftover(crc, b[FrameSize(b)..])
  }

  lemma {:induction false} ParseLeftover(crc: Crc, b: seq<byte>, after: seq<byte>)
    ensures Parse(crc, b + after).records
         == Parse(crc, b).records + Parse(crc, Leftover(crc, b) + after).records
    ensures Parse(crc, Leftover(crc, b)) == Parsed([], Parse(crc, b).tail)
    decreases |b|
  {
    if HasFrame(b) && CrcMatches(crc, b) {
      FirstFrameStable(crc, b, after);
      ParseStep(crc, b);
      ParseStep(crc, b + after);
      hide HasFrame, CrcMatches, FrameSize, FirstRecord, Parse;
      var b' := b[FrameSize(b)..];
      ParseLeftover(crc, b', after);
      Assoc([FirstRecord(b)], Parse(crc, b').records, Parse(crc, Leftover(crc, b') + after).records);
    }
  }

  lemma FromLEPositive(s: seq<byte>, i: nat)
    requires i < |s| && s[i] > 0
    ensures FromLE(s) >= Pow256(i)
    decreases i
  {
    if i > 0 {
      FromLEPositive(s[1..], i - 1);
    }
  }

  /** A payload no reader recovers behind the torn bytes `t`: the empty one, or a
      single byte where `t` would pass for the start of an empty frame. */
  function LostPayload(t: seq<byte>): (p: seq<byte>)
    ensures |p| < U32_LIMIT
  {
    if FromLE(if |t| < 4 then t else t[..4]) == 0 then [0] else []
  }

  /** Behind `t`, the length field is misread. */
  lemma LengthMisread(crc: Crc, t: seq<byte>, recordSeq: nat)
    requires t != []
    ensures var p := LostPayload(t);
      HeaderLen(t + Frame(crc, WalRecord(recordSeq, p))) != |p|
  {
    var p := LostPayload(t);
    var f := Frame(crc, WalRecord(recordSeq, p));
    var field := (t + f)[..4];
    if |t| >= 4 {
      assert field == t[..4];
    } else if p == [] {
      NonZeroByte(t);
      var i :| 0 <= i < |t| && t[i] > 0;
      assert field[i] == t[i];
      FromLEPositive(field, i);
    } else {
      assert ToLE(1, 4)[0] == 1;
      assert f[0] == 1;
      assert field[|t|] == f[0];
      FromLEPositive(field, |t|);
      assert Pow256(|t|) == 256 * Pow256(|t| - 1);
    }
  }

  lemma {:induction false} NonZeroByte(s: seq<byte>)
    requires FromLE(s) > 0
    ensures exists i :: 0 <= i < |s| && s[i] > 0
  {
    if s[0] == 0 {
      NonZeroByte(s[1..]);
      var i :| 0 <= i < |s[1..]| && s[1..][i] > 0;
      assert s[i + 1] > 0;
    }
  }

  lemma AppendReadWhenClean(crc: Crc, b: seq<byte>, r: WalRecord)
    requires Encodable(r) && Parse(crc, b).tail == Clean
    ensures Parse(crc, b + Frame(crc, r)) == Parsed(Parse(crc, b).records + [r], Clean)
    ensures ScanMax(b + Frame(crc, r)) == Max(ScanMax(b), r.recordSeq)
  {
    ParseAppend(crc, b, Frame(crc, r));
    ParseFrame(crc, r, []);
    assert Frame(crc, r) + [] == Frame(crc, r);
  }

  lemma AppendLostWhenTorn(crc: Crc, b: seq<byte>, recordSeq: nat)
    requires recordSeq < U64_LIMIT && Parse(crc, b).tail != Clean
    ensures var r := WalRecord(recordSeq, LostPayload(Leftover(crc, b)));
      Parse(crc, b + Frame(crc, r)).records != Parse(crc, b).records + [r]
  {
    var t := Leftover(crc, b);
    var r := WalRecord(recordSeq, LostPayload(t));
    ParseLeftover(crc, b, []);
    ParseLeftover(crc, b, Frame(crc, r));
    LengthMisread(crc, t, recordSeq);
    var b' := t + Frame(crc, r);
    SingleRecordLength(crc, b');
    assert Parse(crc, b').records != [r];
    CancelPrefix(Parse(crc, b).records, Parse(crc, b').records, [r]);
  }

  lemma CancelPrefix<T>(a: seq<T>, b: seq<T>, c: seq<T>)
    requires b != c
    ensures a + b != a + c
  {
    assert (a + b)[|a|..] == b && (a + c)[|a|..] == c;
  }

  lemma SingleRecordLength(crc: Crc, b: seq<byte>)
    requires |b| >= HEADER_BYTES
    ensures |Parse(crc, b).records| == 1 ==> |Parse(crc, b).records[0].payload| == HeaderLen(b)
  {
  }

  /** An append is sure to be readable if and only if the file it goes to has a
      clean tail. The writer does not check this: it opens the last file in
      append mode whatever it ends with. */
  lemma {:induction false} AppendIsReadIffClean(crc: Crc, b: seq<byte>, recordSeq: nat)
    requires recordSeq < U64_LIMIT
    ensures AppendIsRead(crc, b, recordSeq) <==> Parse(crc, b).tail == Clean
  {
    if Parse(crc, b).tail == Clean {
      forall p: seq<byte> | |p| < U32_LIMIT
        ensures Parse(crc, b + Frame(crc, WalRecord(recordSeq, p))).records
             == Parse(crc, b).records + [WalRecord(recordSeq, p)]
      {
        AppendReadWhenClean(crc, b, WalRecord(recordSeq, p));
      }
    } else {
      AppendLostWhenTorn(crc, b, recordSeq);
    }
  }
}

/** Validation of a raw sample, and the byte string its series id is hashed from. */
module Validate {
  import opened Bytes
  import opened Orders
  import opened Wrappers
  import opened Delimited
  import opened IngestBuffer

  const GRACE_PAST_MS: int := 60 * 60 * 1000
  const GRACE_FUTURE_MS: int := 5 * 60 * 1000
  const I64_MIN: int := -0x8000_0000_0000_0000
  const I64_MAX: int := 0x7fff_ffff_ffff_ffff

  datatype Float = Finite(r: real) | NotANumber | PosInfinity | NegInfinity

  datatype RawSample = RawSample(metric: string, labels: Labels, ts: int, value: Float)

  datatype ValidationError =
    | EmptyMetricName
    | InvalidMetricName(name: string)
    | InvalidLabelName(name: string)
    | ReservedLabelName(name: string)
    | NonFiniteValue(shown: string)
    | TimestampTooOld(ts: int, now: int, grace: int)
    | TimestampTooNew(ts: int, now: int, grace: int)

  // ---------- names ----------

  predicate IsAlpha(c: char) { 'a' <= c <= 'z' || 'A' <= c <= 'Z' }

  predicate IsDigit(c: char) { '0' <= c <= '9' }

  predicate IsValidName(name: string)
  {
    && name != [] && (IsAlpha(name[0]) || name[0] == '_')
    && forall i :: 1 <= i < |name| ==> IsAlpha(name[i]) || IsDigit(name[i]) || name[i] == '_'
  }

  predicate Reserved(name: string) { |name| >= 2 && name[0] == '_' && name[1] == '_' }

  predicate ValidLabelName(name: string) { IsValidName(name) && !Reserved(name) }

  // ---------- the series id ----------

  /** xxh3 of the preimage, as any function to 64-bit values. */
  type Hash = seq<byte> -> U64

  /** What UTF-8 does: it is injective, encodes character by character, writes ASCII
      as it is, and writes a zero byte for the zero character only. */
  ghost predicate Utf8Like(u: string -> seq<byte>)
  {
    && (forall a, b :: u(a) == u(b) ==> a == b)
    && (forall a, b :: u(a + b) == u(a) + u(b))
    && (forall c: char :: c as int < 128 ==> u([c]) == [c as int])
    && (forall s :: 0 in u(s) ==> '\0' in s)
  }

  const EQ: byte := 61

  lemma {:induction false} AsciiWithoutEq(u: string -> seq<byte>, s: string)
    requires Utf8Like(u) && forall i :: 0 <= i < |s| ==> s[i] as int < 128 && s[i] != '='
    ensures EQ !in u(s)
  {
    if s == [] {
      assert u("" + "") == u("") + u("");
      assert "" + "" == "";
      assert |u("")| == |u("")| + |u("")|;
    } else {
      AsciiWithoutEq(u, s[1..]);
      assert s == [s[0]] + s[1..];
      var c := s[0];
      assert u(s) == u([c]) + u(s[1..]);
      assert c as int < 128 && c != '=';
      assert u([c]) == [c as int];
    }
  }

  function LabelParts(u: string -> seq<byte>, labels: Labels, ks: seq<string>): (r: seq<seq<byte>>)
    requires forall k :: k in ks ==> k in labels
    ensures |r| == |ks|
  {
    if ks == [] then [] else [u(ks[0]) + [EQ] + u(labels[ks[0]])] + LabelParts(u, labels, ks[1..])
  }

  function Preimage(u: string -> seq<byte>, lt: (string, string) -> bool, metric: string, labels: Labels): seq<byte>
    requires StrictTotal(lt)
  {
    Terminated(AllParts(u, lt, metric, labels), 0)
  }

  function AllParts(u: string -> seq<byte>, lt: (string, string) -> bool, metric: string, labels: Labels): seq<seq<byte>>
    requires StrictTotal(lt)
  {
    [u(metric)] + LabelParts(u, labels, Sorted(labels.Keys, lt))
  }

  function SeriesId(hash: Hash, u: string -> seq<byte>, lt: (string, string) -> bool, metric: string, labels: Labels): int
    requires StrictTotal(lt)
  {
    hash(Preimage(u, lt, metric, labels)) / 2
  }

  method DeriveSeriesId(hash: Hash, u: string -> seq<byte>, lt: (string, string) -> bool, metric: string, labels: Labels)
    returns (id: int)
    requires StrictTotal(lt)
    ensures id == SeriesId(hash, u, lt, metric, labels)
    ensures 0 <= id <= I64_MAX
  {
    hide Terminated, LabelParts, StrictTotal, Preimage;
    var buf := u(metric) + [0];
    var keys := Sorted(labels.Keys, lt);
    PreimageStart(u, lt, metric, labels);
    while keys != []
      invariant forall k :: k in keys ==> k in labels
      invariant buf + Terminated(LabelParts(u, labels, keys), 0) == Preimage(u, lt, metric, labels)
    {
      var k := keys[0];
      PreimageStep(u, labels, keys, buf);
      buf := buf + u(k) + [EQ] + u(labels[k]) + [0];
      keys := keys[1..];
    }
    PreimageEnd(u, labels, buf);
    id := hash(buf) / 2;
  }

  lemma PreimageStart(u: string -> seq<byte>, lt: (string, string) -> bool, metric: string, labels: Labels)
    requires StrictTotal(lt)
    ensures u(metric) + [0] + Terminated(LabelParts(u, labels, Sorted(labels.Keys, lt)), 0)
         == Preimage(u, lt, metric, labels)
  {
    hide StrictTotal;
    var parts := LabelParts(u, labels, Sorted(labels.Keys, lt));
    assert ([u(metric)] + parts)[1..] == parts;
  }

  lemma PreimageStep(u: string -> seq<byte>, labels: Labels, keys: seq<string>, buf: seq<byte>)
    requires keys != [] && forall k :: k in keys ==> k in labels
    ensures buf + Terminated(LabelParts(u, labels, keys), 0)
         == buf + u(keys[0]) + [EQ] + u(labels[keys[0]]) + [0] + Terminated(LabelParts(u, labels, keys[1..]), 0)
  {
    var parts := LabelParts(u, labels, keys);
    assert parts[1..] == LabelParts(u, labels, keys[1..]);
    assert parts[0] == u(keys[0]) + [EQ] + u(labels[keys[0]]);
    var rest := Terminated(parts[1..], 0);
    assert Terminated(parts, 0) == parts[0] + [0] + rest;
    hide *;
    Regroup(buf, u(keys[0]), [EQ], u(labels[keys[0]]), [0], rest);
  }

  lemma Regroup(a: seq<byte>, b: seq<byte>, c: seq<byte>, d: seq<byte>, e: seq<byte>, f: seq<byte>)
    ensures a + (b + c + d + e + f) == a + b + c + d + e + f
  {
    assert a + (b + c + d + e + f) == a + (b + c + d + e) + f;
    assert a + (b + c + d + e) == a + (b + c + d) + e;
    assert a + (b + c + d) == a + (b + c) + d;
    assert a + (b + c) == a + b + c;
  }

  lemma PreimageEnd(u: string -> seq<byte>, labels: Labels, buf: seq<byte>)
    ensures buf + Terminated(LabelParts(u, labels, []), 0) == buf
  {
  }

  lemma {:induction false} LabelPartsAt(u: string -> seq<byte>, labels: Labels, ks: seq<string>, i: nat)
    requires (forall k :: k in ks ==> k in labels) && i < |ks|
    ensures LabelParts(u, labels, ks)[i] == u(ks[i]) + [EQ] + u(labels[ks[i]])
  {
    if i > 0 {
      LabelPartsAt(u, labels, ks[1..], i - 1);
    }
  }

  /** No zero character: what validation enforces of names and does not of values. */
  ghost predicate ZeroFree(metric: string, labels: Labels)
  {
    '\0' !in metric && forall k :: k in labels ==> '\0' !in k && '\0' !in labels[k]
  }

  ghost predicate ValidNames(labels: Labels) { forall k :: k in labels ==> IsValidName(k) }

  lemma PartsZeroFree(u: string -> seq<byte>, labels: Labels, ks: seq<string>)
    requires Utf8Like(u) && forall k :: k in ks ==> k in labels && '\0' !in k && '\0' !in labels[k]
    ensures Without(LabelParts(u, labels, ks), 0)
  {
    forall i | 0 <= i < |ks| ensures 0 !in LabelParts(u, labels, ks)[i] {
      LabelPartsAt(u, labels, ks, i);
      assert ks[i] in ks;
    }
  }

  lemma {:induction false} LabelPartsInjective(u: string -> seq<byte>, a: Labels, ks: seq<string>, b: Labels, ls: seq<string>)
    requires Utf8Like(u) && ValidNames(a) && ValidNames(b)
    requires (forall k :: k in ks ==> k in a) && (forall k :: k in ls ==> k in b)
    requires LabelParts(u, a, ks) == LabelParts(u, b, ls)
    ensures ks == ls && forall k :: k in ks ==> a[k] == b[k]
  {
    assert |ks| == |ls|;
    forall i | 0 <= i < |ks| ensures ks[i] == ls[i] && a[ks[i]] == b[ls[i]] {
      LabelPartsAt(u, a, ks, i);
      LabelPartsAt(u, b, ls, i);
      assert ks[i] in ks && ls[i] in ls;
      AsciiWithoutEq(u, ks[i]);
      AsciiWithoutEq(u, ls[i]);
      SplitUnique(u(ks[i]), u(a[ks[i]]), u(ls[i]), u(b[ls[i]]), EQ);
    }
  }

  /** The preimage can be decoded: two series without zero characters share it only
      when they are the same series. */
  lemma PreimageInjective(u: string -> seq<byte>, lt: (string, string) -> bool, m: string, a: Labels, n: string, b: Labels)
    requires StrictTotal(lt) && Utf8Like(u)
    requires ZeroFree(m, a) && ZeroFree(n, b) && ValidNames(a) && ValidNames(b)
    ensures Preimage(u, lt, m, a) == Preimage(u, lt, n, b) <==> m == n && a == b
  {
    hide StrictTotal, Terminated, AllParts, Utf8Like, ZeroFree, ValidNames;
    if Preimage(u, lt, m, a) == Preimage(u, lt, n, b) {
      AllPartsZeroFree(u, lt, m, a);
      AllPartsZeroFree(u, lt, n, b);
      TerminatedInjective(AllParts(u, lt, m, a), AllParts(u, lt, n, b), 0);
      AllPartsInjective(u, lt, m, a, n, b);
    }
  }

  lemma {:induction false} AllPartsZeroFree(u: string -> seq<byte>, lt: (string, string) -> bool, m: string, a: Labels)
    requires StrictTotal(lt) && Utf8Like(u) && ZeroFree(m, a)
    ensures Without(AllParts(u, lt, m, a), 0)
  {
    hide StrictTotal, Utf8Like, LabelParts;
    NameZeroFree(u, m);
    PartsZeroFree(u, a, Sorted(a.Keys, lt));
  }

  lemma {:induction false} AllPartsInjective(u: string -> seq<byte>, lt: (string, string) -> bool, m: string, a: Labels, n: string, b: Labels)
    requires StrictTotal(lt) && Utf8Like(u) && ValidNames(a) && ValidNames(b)
    requires AllParts(u, lt, m, a) == AllParts(u, lt, n, b)
    ensures m == n && a == b
  {
    hide StrictTotal, Utf8Like, LabelParts, ValidNames;
    var ks, ls := Sorted(a.Keys, lt), Sorted(b.Keys, lt);
    var pa, pb := AllParts(u, lt, m, a), AllParts(u, lt, n, b);
    assert pa[0] == u(m) && pb[0] == u(n);
    assert pa[1..] == LabelParts(u, a, ks) && pb[1..] == LabelParts(u, b, ls);
    SameName(u, m, n);
    LabelPartsInjective(u, a, ks, b, ls);
    assert forall k :: k in a <==> k in ks;
    assert forall k :: k in b <==> k in ls;
  }

  lemma NameZeroFree(u: string -> seq<byte>, m: string)
    requires Utf8Like(u) && '\0' !in m
    ensures 0 !in u(m)
  {
  }

  lemma SameName(u: string -> seq<byte>, m: string, n: string)
    requires Utf8Like(u) && u(m) == u(n)
    ensures m == n
  {
  }

  /** A series: its metric name and its labels. */
  type Series = (string, Labels)

  function Preimages(u: string -> seq<byte>, lt: (string, string) -> bool, stored: set<Series>): set<seq<byte>>
    requires StrictTotal(lt)
  {
    set x | x in stored :: Preimage(u, lt, x.0, x.1)
  }

  /** The upper 63 bits of the hash tell these byte strings apart. */
  ghost predicate Separates(hash: Hash, ps: set<seq<byte>>)
  {
    forall p, q :: p in ps && q in ps && hash(p) / 2 == hash(q) / 2 ==> p == q
  }

  ghost predicate DistinctIds(hash: Hash, u: string -> seq<byte>, lt: (string, string) -> bool, stored: set<Series>)
    requires StrictTotal(lt)
  {
    forall x, y :: x in stored && y in stored && SeriesId(hash, u, lt, x.0, x.1) == SeriesId(hash, u, lt, y.0, y.1)
      ==> x == y
  }

  /** In any finite set of series without zero characters, ids identify the series
      exactly when no two of the byte strings they hash share their upper 63 bits. */
  lemma {:induction false} SeriesIdIdentifies(hash: Hash, u: string -> seq<byte>, lt: (string, string) -> bool,
                           stored: set<Series>)
    requires StrictTotal(lt) && Utf8Like(u)
    requires forall x :: x in stored ==> ZeroFree(x.0, x.1) && ValidNames(x.1)
    ensures DistinctIds(hash, u, lt, stored) <==> Separates(hash, Preimages(u, lt, stored))
  {
    hide StrictTotal, Utf8Like, ZeroFree, ValidNames, Preimage;
    forall x, y | x in stored && y in stored
      ensures Preimage(u, lt, x.0, x.1) == Preimage(u, lt, y.0, y.1) <==> x == y
    {
      PreimageInjective(u, lt, x.0, x.1, y.0, y.1);
    }
    forall x | x in stored ensures Preimage(u, lt, x.0, x.1) in Preimages(u, lt, stored) {
    }
  }

  // ---------- validation ----------

  function Wrap64(x: int): int { (x - I64_MIN) % 0x1_0000_0000_0000_0000 + I64_MIN }

  function Saturate(x: int): int { if x < I64_MIN then I64_MIN else if x > I64_MAX then I64_MAX else x }

  /** Some order in which a hash map yields its keys. */
  ghost predicate IterationOf(keys: seq<string>, labels: Labels)
  {
    && (forall k :: k in keys <==> k in labels)
    && (forall i, j :: 0 <= i < j < |keys| ==> keys[i] != keys[j])
  }

  /** The error of the first offending label. */
  function LabelError(keys: seq<string>): Option<ValidationError>
  {
    if keys == [] then None
    else if Reserved(keys[0]) then Some(ReservedLabelName(keys[0]))
    else if !IsValidName(keys[0]) then Some(InvalidLabelName(keys[0]))
    else LabelError(keys[1..])
  }

  predicate InWindow(ts: int, now: int) { Wrap64(now - GRACE_PAST_MS) <= ts <= Wrap64(now + GRACE_FUTURE_MS) }

  predicate Acceptable(raw: RawSample, now: int)
  {
    && IsValidName(raw.metric)
    && (forall k :: k in raw.labels ==> ValidLabelName(k))
    && raw.value.Finite?
    && InWindow(raw.ts, now)
  }

  function Shown(v: Float): string
    requires !v.Finite?
  {
    match v
    case NotANumber => "NaN"
    case PosInfinity => "Infinity"
    case NegInfinity => "-Infinity"
  }

  /** The error reported for a sample whose names are fine. */
  function ValueError(raw: RawSample, now: int): Option<ValidationError>
  {
    if !raw.value.Finite? then Some(NonFiniteValue(Shown(raw.value)))
    else if raw.ts < Wrap64(now - GRACE_PAST_MS) then Some(TimestampTooOld(raw.ts, now, GRACE_PAST_MS))
    else if raw.ts > Wrap64(now + GRACE_FUTURE_MS) then Some(TimestampTooNew(raw.ts, now, GRACE_FUTURE_MS))
    else None
  }

  function FirstError(raw: RawSample, keys: seq<string>, now: int): Option<ValidationError>
  {
    if raw.metric == [] then Some(EmptyMetricName)
    else if !IsValidName(raw.metric) then Some(InvalidMetricName(raw.metric))
    else if LabelError(keys).Some? then LabelError(keys)
    else ValueError(raw, now)
  }

  /** The label loop: the first bad name, or the labels in a sorted map. */
  method CheckLabels(labels: Labels, keys: seq<string>) returns (r: Result<Labels, ValidationError>)
    requires IterationOf(keys, labels)
    ensures r.Success? <==> forall k :: k in labels ==> ValidLabelName(k)
    ensures r.Success? ==> r.value == labels && LabelError(keys) == None
    ensures r.Failure? ==> LabelError(keys) == Some(r.error)
  {
    hide IsValidName, Reserved;
    var sorted: Labels := map[];
    for i := 0 to |keys|
      invariant forall k :: k in sorted <==> k in keys[..i]
      invariant forall k :: k in sorted ==> k in labels && sorted[k] == labels[k]
      invariant forall k :: k in keys[..i] ==> ValidLabelName(k)
      invariant LabelError(keys) == LabelError(keys[i..])
    {
      var k := keys[i];
      assert k in keys;
      if Reserved(k) {
        return Failure(ReservedLabelName(k));
      }
      if !IsValidName(k) {
        return Failure(InvalidLabelName(k));
      }
      sorted := sorted[k := labels[k]];
      assert keys[..i + 1] == keys[..i] + [k] && keys[i..][1..] == keys[i + 1..];
    }
    assert keys[..|keys|] == keys;
    r := Success(sorted);
  }

  lemma EmptyInvalid()
    ensures !IsValidName("")
  {
  }

  method ValidateSample(raw: RawSample, keys: seq<string>, now: int, hash: Hash, u: string -> seq<byte>,
                        lt: (string, string) -> bool)
    returns (r: Result<Sample, ValidationError>)
    requires StrictTotal(lt) && IterationOf(keys, raw.labels)
    ensures r.Success? <==> Acceptable(raw, now)
    ensures r.Failure? ==> Some(r.error) == FirstError(raw, keys, now)
    ensures r.Success? ==>
      r.value == Sample(SeriesId(hash, u, lt, raw.metric, raw.labels), raw.metric, raw.labels,
                        Saturate(raw.ts * 1000), raw.value.r)
  {
    hide StrictTotal, SeriesId, Wrap64, LabelError, ValidLabelName, IsValidName;
    if raw.metric == [] {
      EmptyInvalid();
      return Failure(EmptyMetricName);
    }
    if !IsValidName(raw.metric) {
      return Failure(InvalidMetricName(raw.metric));
    }
    var sorted := CheckLabels(raw.labels, keys);
    if sorted.Failure? {
      return Failure(sorted.error);
    }
    if !raw.value.Finite? {
      return Failure(NonFiniteValue(Shown(raw.value)));
    }
    if raw.ts < Wrap64(now - GRACE_PAST_MS) {
      return Failure(TimestampTooOld(raw.ts, now, GRACE_PAST_MS));
    }
    if raw.ts > Wrap64(now + GRACE_FUTURE_MS) {
      return Failure(TimestampTooNew(raw.ts, now, GRACE_FUTURE_MS));
    }
    var id := DeriveSeriesId(hash, u, lt, raw.metric, sorted.value);
    r := Success(Sample(id, raw.metric, sorted.value, Saturate(raw.ts * 1000), raw.value.r));
  }

  /** A clock for which neither grace bound nor an accepted timestamp overflows:
      all of chrono's years are such. */
  predicate SaneClock(now: int) { -9_000_000_000_000_000 <= now <= 9_000_000_000_000_000 }

  /** What acceptance means under such a clock, in source terms: the timestamp is at
      most an hour old and at most five minutes ahead, and becomes exact
      microseconds. */
  lemma AcceptedWindow(raw: RawSample, now: int)
    requires SaneClock(now)
    ensures InWindow(raw.ts, now) <==> now - 3_600_000 <= raw.ts <= now + 300_000
    ensures InWindow(raw.ts, now) ==> Saturate(raw.ts * 1000) == raw.ts * 1000
  {
  }

  /** Accepted samples meet what the id needs, except that a value may hold a zero
      character. */
  lemma AcceptedNames(raw: RawSample, now: int)
    requires Acceptable(raw, now)
    ensures ValidNames(raw.labels) && '\0' !in raw.metric
    ensures (forall k :: k in raw.labels ==> '\0' !in raw.labels[k]) ==> ZeroFree(raw.metric, raw.labels)
  {
  }

  /** A value that holds a zero character can make two accepted series share their
      preimage, and so their id, whatever the hash. */
  lemma ZeroInValueCollides(u: string -> seq<byte>, lt: (string, string) -> bool, ts: int, now: int)
    requires StrictTotal(lt) && lt("a", "b") && InWindow(ts, now) && Utf8Like(u)
    ensures var one, two := map["a" := "1\0b=2"], map["a" := "1", "b" := "2"];
      && Acceptable(RawSample("m", one, ts, Finite(1.0)), now)
      && Acceptable(RawSample("m", two, ts, Finite(1.0)), now)
      && one != two && Preimage(u, lt, "m", one) == Preimage(u, lt, "m", two)
  {
    hide Preimage, StrictTotal, Utf8Like, InWindow;
    var one, two := map["a" := "1\0b=2"], map["a" := "1", "b" := "2"];
    assert "b" in two && "b" !in one;
    SamePreimage(u, lt, one, two);
  }

  lemma {:induction false} SamePreimage(u: string -> seq<byte>, lt: (string, string) -> bool, one: Labels, two: Labels)
    requires StrictTotal(lt) && lt("a", "b") && Utf8Like(u)
    requires one == map["a" := "1\0b=2"] && two == map["a" := "1", "b" := "2"]
    ensures Preimage(u, lt, "m", one) == Preimage(u, lt, "m", two)
  {
    SortedPair(lt);
    hide StrictTotal, Utf8Like, LabelParts, Terminated;
    assert one.Keys == {"a"} && two.Keys == {"a", "b"};
    TwoParts(u, one, two);
    SameBytes(u, [u("m")]);
  }

  lemma SameBytes(u: string -> seq<byte>, before: seq<seq<byte>>)
    requires Utf8Like(u) && |before| == 1
    ensures Terminated(before + [u("a") + [EQ] + u("1\0b=2")], 0)
         == Terminated(before + [u("a") + [EQ] + u("1"), u("b") + [EQ] + u("2")], 0)
  {
    CollidingValue(u);
    hide *;
    var x, y := u("a") + [EQ] + u("1"), u("b") + [EQ] + u("2");
    Regroup(u("a") + [EQ], u("1"), [0], u("b"), [EQ], u("2"));
    assert u("a") + [EQ] + u("1\0b=2") == x + [0] + y;
    SplitPart(before, x, y);
  }

  lemma SortedPair(lt: (string, string) -> bool)
    requires StrictTotal(lt) && lt("a", "b")
    ensures Sorted({"a"}, lt) == ["a"] && Sorted({"a", "b"}, lt) == ["a", "b"]
  {
    SortedOne(lt, "a");
    SortedTwo(lt, "a", "b");
  }

  lemma TwoParts(u: string -> seq<byte>, one: Labels, two: Labels)
    requires "a" in one && "a" in two && "b" in two
    ensures LabelParts(u, one, ["a"]) == [u("a") + [EQ] + u(one["a"])]
    ensures LabelParts(u, two, ["a", "b"]) == [u("a") + [EQ] + u(two["a"]), u("b") + [EQ] + u(two["b"])]
  {
    assert ["a", "b"][1..] == ["b"];
    assert LabelParts(u, two, ["b"]) == [u("b") + [EQ] + u(two["b"])];
  }

  lemma CollidingValue(u: string -> seq<byte>)
    requires Utf8Like(u)
    ensures u("1\0b=2") == u("1") + [0] + u("b") + [EQ] + u("2")
  {
    var a, b, c, d, e := "1", ['\0'], "b", ['='], "2";
    assert u(b) == [0] && u(d) == [EQ];
    Concats(u, a, b);
    Concats(u, a + b, c);
    Concats(u, a + b + c, d);
    Concats(u, a + b + c + d, e);
    hide Utf8Like;
    assert a + b + c + d + e == "1\0b=2";
  }

  lemma Concats(u: string -> seq<byte>, a: string, b: string)
    requires Utf8Like(u)
    ensures u(a + b) == u(a) + u(b)
  {
  }

  lemma SplitPart(before: seq<seq<byte>>, x: seq<byte>, y: seq<byte>)
    requires |before| == 1
    ensures Terminated(before + [x + [0] + y], 0) == Terminated(before + [x, y], 0)
  {
    var z: seq<byte> := x + [0] + y;
    var one: seq<seq<byte>> := before + [z];
    var two: seq<seq<byte>> := before + [x, y];
    var last: seq<seq<byte>> := [y];
    assert one[1..] == [z] && two[1..] == [x] + last;
    assert Terminated(last, 0) == y + [0];
    assert ([x] + last)[1..] == last;
    assert Terminated([x] + last, 0) == x + [0] + (y + [0]);
    assert Terminated([z], 0) == z + [0];
    assert x + [0] + (y + [0]) == z + [0];
  }
}

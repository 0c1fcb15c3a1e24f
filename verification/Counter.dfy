/** The arithmetic of `increase`, `rate`, `irate` and `delta` over one series' samples
    in a window: LAG for the previous value, a CASE for counter resets, SUM. */
module Counter {
  import opened Wrappers

  type Points = seq<(int, real)>

  datatype RangeFnOp = Rate | Increase | Irate | Delta

  /** A row of `adjusted`: a sample and the value before it. */
  datatype LagRow = LagRow(ts: int, value: real, prev: Option<real>)

  function LagRows(s: Points): (r: seq<LagRow>)
    ensures |r| == |s|
  {
    seq(|s|, i requires 0 <= i < |s| => LagRow(s[i].0, s[i].1, if i == 0 then None else Some(s[i - 1].1)))
  }

  /** The CASE: a drop counts as the value itself, the counter having restarted. */
  function Adjusted(r: LagRow): real
  {
    match r.prev
    case None => 0.0
    case Some(p) => if r.value >= p then r.value - p else r.value
  }

  function SumAdjusted(rows: seq<LagRow>): real
  {
    if rows == [] then 0.0 else SumAdjusted(rows[..|rows| - 1]) + Adjusted(rows[|rows| - 1])
  }

  function TotalDelta(s: Points): real { SumAdjusted(LagRows(s)) }

  function PerSecond(delta: real, spanUs: int): real
    requires spanUs != 0
  {
    delta * 1_000_000.0 / spanUs as real
  }

  predicate SpansTime(s: Points) { |s| >= 2 && s[|s| - 1].0 > s[0].0 }

  function Span(s: Points): int
    requires s != []
  {
    s[|s| - 1].0 - s[0].0
  }

  /** The value of a range function over the window's samples in time order. */
  function RangeFn(op: RangeFnOp, s: Points): Option<real>
  {
    var n := |s|;
    match op
    case Increase => if SpansTime(s) then Some(TotalDelta(s)) else None
    case Rate => if SpansTime(s) then Some(PerSecond(TotalDelta(s), Span(s))) else None
    case Irate =>
      if n >= 2 && s[n - 1].0 > s[n - 2].0 then
        Some(PerSecond(Adjusted(LagRows(s)[n - 1]), s[n - 1].0 - s[n - 2].0))
      else None
    case Delta => if n >= 2 then Some(s[n - 1].1 - s[0].1) else None
  }

  // ---------- what the sum is ----------

  lemma TotalDeltaStep(s: Points)
    requires |s| >= 2
    ensures var n := |s| - 1;
      TotalDelta(s) == TotalDelta(s[..n]) + if s[n].1 >= s[n - 1].1 then s[n].1 - s[n - 1].1 else s[n].1
  {
    var n := |s| - 1;
    assert LagRows(s)[..n] == LagRows(s[..n]);
  }

  lemma TotalDeltaOne(s: Points)
    requires |s| == 1
    ensures TotalDelta(s) == 0.0
  {
    assert SumAdjusted(LagRows(s)[..0]) == 0.0;
  }

  /** The values lost at the resets the samples show. */
  function Dropped(s: Points): real
  {
    if |s| < 2 then 0.0
    else
      var n := |s| - 1;
      Dropped(s[..n]) + if s[n].1 < s[n - 1].1 then s[n - 1].1 else 0.0
  }

  /** The increase is last minus first plus what was dropped at each detected reset. */
  lemma {:induction false} IncreaseIsNetPlusDropped(s: Points)
    requires s != []
    ensures TotalDelta(s) == s[|s| - 1].1 - s[0].1 + Dropped(s)
  {
    if |s| == 1 {
      TotalDeltaOne(s);
    } else {
      TotalDeltaStep(s);
      IncreaseIsNetPlusDropped(s[..|s| - 1]);
    }
  }

  lemma {:induction false} IncreaseNonNegative(s: Points)
    requires forall i :: 0 <= i < |s| ==> s[i].1 >= 0.0
    ensures TotalDelta(s) >= 0.0
  {
    if |s| == 1 {
      TotalDeltaOne(s);
    } else if |s| >= 2 {
      TotalDeltaStep(s);
      IncreaseNonNegative(s[..|s| - 1]);
    }
  }

  /** A window split at a shared sample: the increases of the parts add up. */
  lemma {:induction false} IncreaseSplits(s: Points, i: nat)
    requires i < |s|
    ensures TotalDelta(s) == TotalDelta(s[..i + 1]) + TotalDelta(s[i..])
  {
    hide TotalDelta;
    var n := |s| - 1;
    if i == n {
      assert s[..n + 1] == s;
      TotalDeltaOne(s[n..]);
    } else {
      IncreaseSplits(s[..n], i);
      assert s[..n][..i + 1] == s[..i + 1];
      assert s[i..][..n - i] == s[..n][i..];
      assert s[i..][n - i] == s[n] && s[i..][n - i - 1] == s[n - 1];
      TotalDeltaStep(s);
      TotalDeltaStep(s[i..]);
    }
  }

  lemma PerSecondTimesSpan(delta: real, span: int)
    requires span > 0
    ensures PerSecond(delta, span) * (span as real / 1_000_000.0) == delta
  {
    var x := span as real;
    assert delta * 1_000_000.0 / x * x == delta * 1_000_000.0;
  }

  /** Rate times the observed span in seconds is the increase; they are answered for the
      same windows. */
  lemma RateTimesSpan(s: Points)
    ensures RangeFn(Rate, s).Some? <==> RangeFn(Increase, s).Some?
    ensures RangeFn(Rate, s).Some? ==>
      RangeFn(Rate, s).value * (Span(s) as real / 1_000_000.0) == RangeFn(Increase, s).value
  {
    if SpansTime(s) {
      PerSecondTimesSpan(TotalDelta(s), Span(s));
    }
  }

  // ---------- against the true history of a counter ----------

  /** What happens to a counter: it counts up, or its process restarts. */
  datatype CounterEvent = Count(amount: real) | Restart

  ghost predicate CountsUp(h: seq<CounterEvent>)
  {
    forall i :: 0 <= i < |h| && h[i].Count? ==> h[i].amount >= 0.0
  }

  /** The counter's value after the first `n` events. */
  function ValueAfter(h: seq<CounterEvent>, n: nat): real
    requires n <= |h|
  {
    if n == 0 then 0.0
    else
      match h[n - 1]
      case Count(amount) => ValueAfter(h, n - 1) + amount
      case Restart => 0.0
  }

  /** All that was counted between two moments, restarts or not. */
  function Counted(h: seq<CounterEvent>, a: nat, b: nat): real
    requires a <= b <= |h|
    decreases b
  {
    if a == b then 0.0 else Counted(h, a, b - 1) + if h[b - 1].Count? then h[b - 1].amount else 0.0
  }

  predicate RestartsIn(h: seq<CounterEvent>, a: nat, b: nat)
    requires a <= b <= |h|
  {
    exists i :: a <= i < b && h[i] == Restart
  }

  lemma {:induction false} ValueBounds(h: seq<CounterEvent>, a: nat, b: nat)
    requires a <= b <= |h| && CountsUp(h)
    ensures ValueAfter(h, a) >= 0.0 && ValueAfter(h, b) >= 0.0 && Counted(h, a, b) >= 0.0
    ensures if RestartsIn(h, a, b) then ValueAfter(h, b) <= Counted(h, a, b)
            else ValueAfter(h, b) == ValueAfter(h, a) + Counted(h, a, b)
    decreases b
  {
    if a == b {
      if a > 0 {
        ValueBounds(h, a - 1, b - 1);
      }
    } else {
      ValueBounds(h, a, b - 1);
      assert h[b - 1] == Restart ==> RestartsIn(h, a, b);
      assert RestartsIn(h, a, b - 1) ==> RestartsIn(h, a, b);
    }
  }

  /** The samples show the counter at ascending moments of its history. */
  ghost predicate SamplesOf(h: seq<CounterEvent>, at: seq<nat>, s: Points)
  {
    && |at| == |s|
    && (forall i :: 0 <= i < |at| ==> at[i] <= |h|)
    && (forall i, j :: 0 <= i < j < |at| ==> at[i] <= at[j])
    && (forall i :: 0 <= i < |at| ==> s[i].1 == ValueAfter(h, at[i]))
  }

  lemma {:induction false} CountedSplits(h: seq<CounterEvent>, a: nat, b: nat, c: nat)
    requires a <= b <= c <= |h|
    ensures Counted(h, a, c) == Counted(h, a, b) + Counted(h, b, c)
    decreases c
  {
    if b < c {
      CountedSplits(h, a, b, c - 1);
    }
  }

  /** The computed increase never exceeds what was really counted between the first and
      the last sample, however many restarts the samples miss. */
  lemma {:induction false} NeverOvercounts(h: seq<CounterEvent>, at: seq<nat>, s: Points)
    requires CountsUp(h) && SamplesOf(h, at, s) && s != []
    ensures TotalDelta(s) <= Counted(h, at[0], at[|at| - 1])
  {
    var n := |s| - 1;
    if n == 0 {
      TotalDeltaOne(s);
    } else {
      assert at[n - 1] <= at[n] && at[0] <= at[n - 1];
      NeverOvercounts(h, at[..n], s[..n]);
      TotalDeltaStep(s);
      ValueBounds(h, at[n - 1], at[n]);
      hide TotalDelta, ValueAfter, RestartsIn, Counted, CountsUp;
      CountedSplits(h, at[0], at[n - 1], at[n]);
    }
  }

  /** It is exact when the counter did not restart in between. */
  lemma {:induction false} ExactWithoutRestart(h: seq<CounterEvent>, at: seq<nat>, s: Points)
    requires CountsUp(h) && SamplesOf(h, at, s) && s != [] && !RestartsIn(h, at[0], at[|at| - 1])
    ensures TotalDelta(s) == Counted(h, at[0], at[|at| - 1])
  {
    var n := |s| - 1;
    if n == 0 {
      TotalDeltaOne(s);
    } else {
      assert !RestartsIn(h, at[0], at[n - 1]) && !RestartsIn(h, at[n - 1], at[n]);
      ExactWithoutRestart(h, at[..n], s[..n]);
      TotalDeltaStep(s);
      ValueBounds(h, at[n - 1], at[n]);
      CountedSplits(h, at[0], at[n - 1], at[n]);
    }
  }
}

/** The grid of evaluation timestamps of a range query. */
module EvalGrid {
  import opened Wrappers
  import Validate

  const MAX_RANGE_EVALS: nat := 11_000
  const MAX_I64: int := Validate.I64_MAX

  datatype GridError = TooManyEvals

  predicate IsI64(x: int) { Validate.I64_MIN <= x <= Validate.I64_MAX }

  function SaturatingAdd(a: int, b: int): int { Validate.Saturate(a + b) }

  function SaturatingSub(a: int, b: int): int { Validate.Saturate(a - b) }

  /** How many points start, start + step, ... lie at or below end. */
  function GridCount(start: int, end: int, step: int): nat
    requires step > 0
  {
    if start > end then 0 else (end - start) / step + 1
  }

  function GridPoint(start: int, step: int, k: nat): int { start + k * step }

  function GridPoints(start: int, step: int, n: nat): (r: seq<int>)
    ensures |r| == n
  {
    seq(n, k requires 0 <= k < n => GridPoint(start, step, k))
  }

  /** Whether the request is answered: no start beyond the end asks for nothing; else
      the step must lead past an end below the largest number, within the cap. */
  predicate GridFits(start: int, end: int, step: int)
  {
    start > end || (step > 0 && end < MAX_I64 && GridCount(start, end, step) <= MAX_RANGE_EVALS)
  }

  lemma {:induction false} CountAtMost(start: int, end: int, step: int, k: nat)
    requires step > 0 && start <= end
    ensures GridPoint(start, step, k) <= end <==> k < GridCount(start, end, step)
  {
    var n := (end - start) / step;
    assert end - start == n * step + (end - start) % step;
    if k <= n {
      assert k * step <= n * step;
    } else {
      assert (n + 1) * step <= k * step;
    }
  }

  /** The loop: it ends for every start, end and step, because its list is capped, and
      it answers exactly the requests that fit, with exactly the grid. */
  method EvalTimes(start: int, end: int, step: int) returns (r: Result<seq<int>, GridError>)
    requires IsI64(start) && IsI64(end) && IsI64(step)
    ensures r.Success? <==> GridFits(start, end, step)
    ensures r.Success? ==> r.value == if start > end then [] else GridPoints(start, step, GridCount(start, end, step))
  {
    var evals: seq<int> := [];
    var t := start;
    while t <= end
      invariant |evals| <= MAX_RANGE_EVALS && IsI64(t)
      invariant start > end ==> t == start && evals == []
      invariant start <= end && step > 0 ==> OnGrid(start, end, step, evals, t)
      invariant start <= end && step <= 0 ==> t <= end
      decreases MAX_RANGE_EVALS - |evals|
    {
      ghost var before, t0 := evals, t;
      evals := evals + [t];
      if |evals| > MAX_RANGE_EVALS {
        if step > 0 {
          CapExceeded(start, end, step, before, t0);
        }
        return Failure(TooManyEvals);
      }
      t := SaturatingAdd(t, step);
      if step > 0 {
        GridStep(start, end, step, before, t0);
      }
    }
    if start <= end && step > 0 {
      assert evals != [] by {
        assert GridPoint(start, step, 0) == start;
      }
      GridDone(start, end, step, evals, t);
    }
    r := Success(evals);
  }

  /** The points so far are grid points and `t` is the next, until addition saturates;
      with the end at the largest number saturation repeats that number. */
  ghost predicate OnGrid(start: int, end: int, step: int, evals: seq<int>, t: int)
  {
    var n := |evals|;
    var exact := evals == GridPoints(start, step, n);
    && (evals != [] ==> evals[n - 1] <= end)
    && ((t == GridPoint(start, step, n) && exact)
        || (t == MAX_I64 && (end < MAX_I64 ==> exact && GridPoint(start, step, n) > MAX_I64)))
  }

  lemma GridStep(start: int, end: int, step: int, evals: seq<int>, t: int)
    requires step > 0 && IsI64(t) && t <= end <= MAX_I64 && OnGrid(start, end, step, evals, t)
    ensures OnGrid(start, end, step, evals + [t], SaturatingAdd(t, step))
  {
    var n := |evals|;
    assert GridPoint(start, step, n + 1) == GridPoint(start, step, n) + step by {
      assert (n + 1) * step == n * step + step;
    }
    hide GridPoint;
    if t == GridPoint(start, step, n) && evals == GridPoints(start, step, n) {
      assert evals + [t] == GridPoints(start, step, n + 1);
    }
  }

  lemma CapExceeded(start: int, end: int, step: int, evals: seq<int>, t: int)
    requires step > 0 && start <= end <= MAX_I64 && t <= end && OnGrid(start, end, step, evals, t)
    requires |evals| == MAX_RANGE_EVALS
    ensures !GridFits(start, end, step)
  {
    CountAtMost(start, end, step, MAX_RANGE_EVALS);
    hide GridPoint, GridCount;
  }

  lemma {:induction false} GridDone(start: int, end: int, step: int, evals: seq<int>, t: int)
    requires step > 0 && start <= end < t <= MAX_I64 && OnGrid(start, end, step, evals, t) && evals != []
    ensures |evals| == GridCount(start, end, step) && evals == GridPoints(start, step, |evals|)
  {
    var n := |evals|;
    CountAtMost(start, end, step, n);
    CountAtMost(start, end, step, n - 1);
    hide GridPoint, GridCount;
    assert evals[n - 1] == GridPoint(start, step, n - 1);
  }
}

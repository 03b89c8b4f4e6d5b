/**
  The two ways the scripts walk a time axis: the animation's
  `while t <= end: ...; t += interval` loop and the forecast script's
  `range(start, stop, step)`.  Times are whole minutes (or forecast hours);
  calendar arithmetic is not part of this module.
*/
module Timeline {
  import opened Outcomes

  /**
    The values `t` visits in `t = ini; while t <= end: ...; t += interval`.
  */
  function TimeSteps(ini: int, end: int, interval: int): (r: seq<int>)
    requires interval > 0
    ensures forall k :: 0 <= k < |r| ==> r[k] == ini + k * interval && r[k] <= end
    ensures ini + |r| * interval > end
    decreases if ini <= end then end - ini + 1 else 0
  {
    if ini > end then []
    else
      var rest := TimeSteps(ini + interval, end, interval);
      assert forall k :: 0 <= k < |rest| ==> rest[k] == ini + (k + 1) * interval by {
        forall k | 0 <= k < |rest| {
          MulSucc(k, interval);
        }
      }
      MulSucc(|rest|, interval);
      [ini] + rest
  }

  /** The loop runs `floor((end - ini) / interval) + 1` times, or not at all. */
  lemma TimeStepsCount(ini: int, end: int, interval: int)
    requires interval > 0
    ensures |TimeSteps(ini, end, interval)| == if ini > end then 0 else (end - ini) / interval + 1
  {
    var r := TimeSteps(ini, end, interval);
    var n := |r|;
    if n > 0 {
      assert r[n - 1] == ini + (n - 1) * interval <= end;
      assert (end - ini) == (n - 1) * interval + (end - ini - (n - 1) * interval);
      DivOfRemainder(end - ini, n - 1, interval);
    }
  }

  /** `a == q * d + e` with `0 <= e < d` forces `a / d == q`. */
  lemma DivOfRemainder(a: int, q: int, d: int)
    requires d > 0 && 0 <= a - q * d < d
    ensures a / d == q
  {
    var e := a % d;
    var x := a / d - q;
    assert a == d * (a / d) + e;
    assert x * d == (a - q * d) - e;
    if x > 0 {
      ProductAtLeast(x, d);
    } else if x < 0 {
      ProductAtLeast(-x, d);
    }
  }

  lemma MulSucc(k: int, d: int)
    ensures (k + 1) * d == k * d + d
  {
  }

  lemma ProductAtLeast(x: int, d: int)
    requires x >= 1 && d > 0
    ensures x * d >= d
  {
  }

  /** When `interval` divides the span, the last step lands exactly on `end`. */
  lemma TimeStepsReachEnd(ini: int, end: int, interval: int)
    requires interval > 0 && ini <= end && (end - ini) % interval == 0
    ensures TimeSteps(ini, end, interval) != []
    ensures TimeSteps(ini, end, interval)[|TimeSteps(ini, end, interval)| - 1] == end
  {
    TimeStepsCount(ini, end, interval);
    var r := TimeSteps(ini, end, interval);
    assert end - ini == (end - ini) / interval * interval;
  }

  /** `range(start, stop, step)`; a zero step raises ValueError. */
  function PyRange(start: int, stop: int, step: int): (r: Result<seq<int>>)
    ensures r.Err? <==> step == 0
    ensures r.Err? ==> r.error == ValueError
    ensures r.Ok? ==> forall k :: 0 <= k < |r.value| ==> r.value[k] == start + k * step
    ensures r.Ok? && step > 0 ==>
              (forall k :: 0 <= k < |r.value| ==> r.value[k] < stop) && start + |r.value| * step >= stop
    ensures r.Ok? && step < 0 ==>
              (forall k :: 0 <= k < |r.value| ==> r.value[k] > stop) && start + |r.value| * step <= stop
  {
    if step == 0 then Err(ValueError)
    else if step > 0 then Ok(RangeUp(start, stop, step))
    else Ok(RangeDown(start, stop, step))
  }

  function RangeUp(start: int, stop: int, step: int): (r: seq<int>)
    requires step > 0
    ensures forall k :: 0 <= k < |r| ==> r[k] == start + k * step && r[k] < stop
    ensures start + |r| * step >= stop
    decreases if start < stop then stop - start else 0
  {
    if start >= stop then []
    else
      var rest := RangeUp(start + step, stop, step);
      assert forall k :: 0 <= k < |rest| ==> rest[k] == start + (k + 1) * step by {
        forall k | 0 <= k < |rest| {
          MulSucc(k, step);
        }
      }
      MulSucc(|rest|, step);
      [start] + rest
  }

  function RangeDown(start: int, stop: int, step: int): (r: seq<int>)
    requires step < 0
    ensures forall k :: 0 <= k < |r| ==> r[k] == start + k * step && r[k] > stop
    ensures start + |r| * step <= stop
    decreases if start > stop then start - stop else 0
  {
    if start <= stop then []
    else
      var rest := RangeDown(start + step, stop, step);
      assert forall k :: 0 <= k < |rest| ==> rest[k] == start + (k + 1) * step by {
        forall k | 0 <= k < |rest| {
          MulSucc(k, step);
        }
      }
      MulSucc(|rest|, step);
      [start] + rest
  }

  /**
    With a positive step, `range(ini, end + 1, step)` visits exactly what the
    `while t <= end` loop visits: both forms of the loop agree.
  */
  lemma {:induction false} RangeIsInclusiveLoop(ini: int, end: int, step: int)
    requires step > 0
    ensures PyRange(ini, end + 1, step) == Ok(TimeSteps(ini, end, step))
    decreases if ini <= end then end - ini + 1 else 0
  {
    if ini <= end {
      RangeIsInclusiveLoop(ini + step, end, step);
    }
  }

  /** Both loops visit strictly increasing values. */
  lemma TimeStepsIncreasing(ini: int, end: int, interval: int, a: int, b: int)
    requires interval > 0
    requires 0 <= a < b < |TimeSteps(ini, end, interval)|
    ensures TimeSteps(ini, end, interval)[a] < TimeSteps(ini, end, interval)[b]
  {
    var r := TimeSteps(ini, end, interval);
    assert r[b] - r[a] == (b - a) * interval;
    ProductAtLeast(b - a, interval);
  }
}

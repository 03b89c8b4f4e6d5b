/**
  The GFS forecast loop: which forecast hours are visited, which GRIB file
  name each hour maps to, which of those files are processed, and the name
  of the image saved for each.
*/
module Forecast {
  import opened Outcomes
  import opened Decimal
  import opened Timeline

  /** `range(hour_ini, hour_end + 1, hour_int)`: the end hour is included. */
  function ForecastHours(ini: int, end: int, step: int): (r: Result<seq<int>>)
    ensures step > 0 ==> r == Ok(TimeSteps(ini, end, step))
    ensures step == 0 ==> r == Err(ValueError)
    ensures step < 0 ==> && r.Ok?
                         && (forall k :: 0 <= k < |r.value| ==> r.value[k] == ini + k * step && r.value[k] > end + 1)
                         && ini + |r.value| * step <= end + 1
  {
    if step > 0 then
      RangeIsInclusiveLoop(ini, end, step);
      PyRange(ini, end + 1, step)
    else PyRange(ini, end + 1, step)
  }

  /** The hours the script is configured with: 0 to 24 every 3 hours. */
  lemma ConfiguredHours()
    ensures ForecastHours(0, 24, 3) == Ok([0, 3, 6, 9, 12, 15, 18, 21, 24])
  {
    TimeStepsCount(0, 24, 3);
    var r := TimeSteps(0, 24, 3);
    assert |r| == 9;
    assert r == [r[0], r[1], r[2], r[3], r[4], r[5], r[6], r[7], r[8]];
  }

  /** `path + str(hour).zfill(3)`: the GRIB file of one forecast hour. */
  function GribName(path: string, hour: int): (s: string)
    ensures |s| == |path| + (if |IntToString(hour)| >= 3 then |IntToString(hour)| else 3)
    ensures s[..|path|] == path
    ensures ParseInt(s[|path|..]) == Ok(hour)
  {
    ParseZFilled(hour, 3);
    var s := path + ZFill(IntToString(hour), 3);
    assert s[|path|..] == ZFill(IntToString(hour), 3);
    s
  }

  /** Different hours never share a GRIB file name. */
  lemma GribNameInjective(path: string, a: int, b: int)
    requires GribName(path, a) == GribName(path, b)
    ensures a == b
  {
  }

  /** Hours below 1000 get exactly three digits: `f000`, `f003`, `f024`. */
  lemma GribNameThreeDigits(path: string, hour: nat)
    requires hour < 1000
    ensures GribName(path, hour) == path + Padded(hour, 3)
  {
    NatToStringLength(hour, 3);
  }

  lemma ConfiguredNames()
    ensures GribName("gfs.t00z.pgrb2full.0p50.f", 0) == "gfs.t00z.pgrb2full.0p50.f000"
    ensures GribName("gfs.t00z.pgrb2full.0p50.f", 3) == "gfs.t00z.pgrb2full.0p50.f003"
    ensures GribName("gfs.t00z.pgrb2full.0p50.f", 24) == "gfs.t00z.pgrb2full.0p50.f024"
  {
    assert NatToString(24) == "24";
  }

  /** `f'{dir}\image_loop_{str(hour)}.png'` (the backslash is literal). */
  function ImageName(dir: string, hour: int): (s: string)
    ensures |s| == |dir| + 12 + |IntToString(hour)| + 4
    ensures s[|dir| + 12..|s| - 4] == IntToString(hour)
  {
    var s := dir + "\\image_loop_" + IntToString(hour) + ".png";
    assert s[|dir| + 12..|s| - 4] == IntToString(hour);
    s
  }

  /** Each hour's image gets its own file. */
  lemma ImageNameInjective(dir: string, a: int, b: int)
    requires ImageName(dir, a) == ImageName(dir, b)
    ensures a == b
  {
    var s := ImageName(dir, a);
    assert IntToString(a) == s[|dir| + 12..|s| - 4] == IntToString(b);
    ParseIntToString(a);
    ParseIntToString(b);
  }

  /** The elements of `s` that satisfy `keep`, in their original order. */
  function Filter(s: seq<int>, keep: int -> bool): (r: seq<int>)
    ensures |r| <= |s|
    ensures forall x :: x in r <==> x in s && keep(x)
  {
    if s == [] then []
    else
      var rest := Filter(s[1..], keep);
      assert forall x :: x in s <==> x == s[0] || x in s[1..];
      if keep(s[0]) then [s[0]] + rest else rest
  }

  predicate Increasing(s: seq<int>) {
    forall a, b :: 0 <= a < b < |s| ==> s[a] < s[b]
  }

  /** Dropping elements keeps the survivors in ascending order. */
  lemma {:induction false} FilterIncreasing(s: seq<int>, keep: int -> bool)
    requires Increasing(s)
    ensures Increasing(Filter(s, keep))
    decreases |s|
  {
    if s != [] {
      var tail := s[1..];
      assert Increasing(tail) by {
        forall a, b | 0 <= a < b < |tail|
          ensures tail[a] < tail[b]
        {
          assert tail[a] == s[a + 1] && tail[b] == s[b + 1];
        }
      }
      FilterIncreasing(tail, keep);
      var rest := Filter(tail, keep);
      forall x | x in rest
        ensures s[0] < x
      {
        var k :| 0 <= k < |tail| && tail[k] == x;
        assert s[k + 1] == x;
      }
      if keep(s[0]) {
        var r := [s[0]] + rest;
        forall a, b | 0 <= a < b < |r|
          ensures r[a] < r[b]
        {
          assert r[b] == rest[b - 1] && rest[b - 1] in rest;
          if a > 0 {
            assert r[a] == rest[a - 1];
          }
        }
      }
    }
  }

  /**
    The hours actually processed: those whose GRIB file exists, in loop
    order; the others are skipped without a message. `onDisk` stands for
    `os.path.exists`.
  */
  function Processed(path: string, hours: seq<int>, onDisk: string -> bool): (r: seq<int>)
    ensures |r| <= |hours|
    ensures forall h :: h in r <==> h in hours && onDisk(GribName(path, h))
    ensures Increasing(hours) ==> Increasing(r)
  {
    var keep := h => onDisk(GribName(path, h));
    if Increasing(hours) then
      FilterIncreasing(hours, keep);
      Filter(hours, keep)
    else Filter(hours, keep)
  }

  /** A positive step visits the hours in ascending order. */
  lemma ForecastHoursIncreasing(ini: int, end: int, step: int)
    requires step > 0
    ensures Increasing(ForecastHours(ini, end, step).value)
  {
    forall a, b | 0 <= a < b < |TimeSteps(ini, end, step)|
      ensures TimeSteps(ini, end, step)[a] < TimeSteps(ini, end, step)[b]
    {
      TimeStepsIncreasing(ini, end, step, a, b);
    }
  }
}

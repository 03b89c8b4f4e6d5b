/**
  Cutting a regional window out of a gridded field: for each bound of the
  extent, the index of the nearest coordinate (`np.argmin(np.abs(c - t))`),
  then half-open slices of the rows and columns, with the variants the
  scripts add on top (an antimeridian wrap, a leading time axis, `squeeze`,
  zero-as-missing).
*/
module Subset {
  import opened Outcomes
  import opened PySeq
  import opened PyNum

  /** `abs(a - t)` */
  function Dist(a: real, t: real): (d: real)
    ensures d >= 0.0 && (d == a - t || d == t - a)
  {
    if a >= t then a - t else t - a
  }

  /**
    Among the first `n` coordinates, index `i` is nearest to `t` and no
    earlier index is as near (`argmin` returns the first minimum).
  */
  predicate NearestUpTo(c: seq<real>, t: real, n: nat, i: nat) {
    && i < n <= |c|
    && (forall k :: 0 <= k < n ==> Dist(c[i], t) <= Dist(c[k], t))
    && (forall k :: 0 <= k < i ==> Dist(c[k], t) > Dist(c[i], t))
  }

  predicate IsNearest(c: seq<real>, t: real, i: nat) {
    NearestUpTo(c, t, |c|, i)
  }

  /** `np.argmin(np.abs(c - t))`; on an empty array numpy raises ValueError. */
  function NearestIndex(c: seq<real>, t: real): (r: Result<nat>)
    ensures r.Err? <==> c == []
    ensures r.Err? ==> r.error == ValueError
    ensures r.Ok? ==> IsNearest(c, t, r.value)
  {
    if c == [] then Err(ValueError) else Ok(NearestFrom(c, t, 1, 0))
  }

  /** The scan behind `argmin`: `best` is the answer for the first `n` entries. */
  function NearestFrom(c: seq<real>, t: real, n: nat, best: nat): (r: nat)
    requires NearestUpTo(c, t, n, best)
    ensures IsNearest(c, t, r)
    decreases |c| - n
  {
    if n == |c| then best
    else if Dist(c[n], t) < Dist(c[best], t) then NearestFrom(c, t, n + 1, n)
    else NearestFrom(c, t, n + 1, best)
  }

  /** The first minimiser is unique, so the contract pins `argmin` down. */
  lemma NearestUnique(c: seq<real>, t: real, i: nat, j: nat)
    requires IsNearest(c, t, i) && IsNearest(c, t, j)
    ensures i == j
  {
    var di, dj := Dist(c[i], t), Dist(c[j], t);
    assert di <= dj && dj <= di;
  }

  /** `[min. lon, min. lat, max. lon, max. lat]` */
  datatype Extent = Extent(lonMin: real, latMin: real, lonMax: real, latMax: real)

  /** The four indices every subsetting script computes. */
  datatype Window = Window(latli: nat, latui: nat, lonli: nat, lonui: nat)

  /** The nearest index to each bound of the extent. */
  function Locate(lats: seq<real>, lons: seq<real>, e: Extent): (r: Result<Window>)
    ensures r.Err? <==> lats == [] || lons == []
    ensures r.Err? ==> r.error == ValueError
    ensures r.Ok? ==> && IsNearest(lats, e.latMin, r.value.latli) && IsNearest(lats, e.latMax, r.value.latui)
                      && IsNearest(lons, e.lonMin, r.value.lonli) && IsNearest(lons, e.lonMax, r.value.lonui)
  {
    if lats == [] || lons == [] then Err(ValueError)
    else
      Ok(Window(NearestIndex(lats, e.latMin).value, NearestIndex(lats, e.latMax).value,
                NearestIndex(lons, e.lonMin).value, NearestIndex(lons, e.lonMax).value))
  }

  /** How many entries `s[lo:hi]` keeps from a sequence of length `n`. */
  function SliceLen(n: nat, lo: int, hi: int): (k: nat)
    ensures k <= n
    ensures 0 <= lo <= n && 0 <= hi <= n ==> k == if lo <= hi then hi - lo else 0
  {
    if Bound(lo, n) <= Bound(hi, n) then Bound(hi, n) - Bound(lo, n) else 0
  }

  /**
    `r` is the window `m[r0:r1, c0:c1]` of the `rows` x `cols` array `m`:
    its shape is what the two slices keep, and each of its cells is the cell
    of `m` at the clipped offsets.
  */
  ghost predicate Cuts<T>(r: seq<seq<T>>, m: seq<seq<T>>, rows: nat, cols: nat, r0: int, r1: int, c0: int, c1: int)
    requires IsMatrix(m, rows, cols)
  {
    && IsMatrix(r, SliceLen(rows, r0, r1), SliceLen(cols, c0, c1))
    && forall a, b :: 0 <= a < |r| && 0 <= b < |r[a]| ==> r[a][b] == m[Bound(r0, rows) + a][Bound(c0, cols) + b]
  }

  /** `m[r0:r1, c0:c1]` on a 2-D array. */
  function Slice2<T>(m: seq<seq<T>>, rows: nat, cols: nat, r0: int, r1: int, c0: int, c1: int): (r: seq<seq<T>>)
    requires IsMatrix(m, rows, cols)
    ensures Cuts(r, m, rows, cols, r0, r1, c0, c1)
  {
    var sel := Slice(m, r0, r1);
    var r := seq(|sel|, a requires 0 <= a < |sel| => Slice(sel[a], c0, c1));
    assert Cuts(r, m, rows, cols, r0, r1, c0, c1) by {
      assert |r| == SliceLen(rows, r0, r1);
      forall a | 0 <= a < |r|
        ensures |r[a]| == SliceLen(cols, c0, c1)
        ensures forall b :: 0 <= b < |r[a]| ==> r[a][b] == m[Bound(r0, rows) + a][Bound(c0, cols) + b]
      {
        assert sel[a] == m[Bound(r0, rows) + a];
        assert r[a] == Slice(sel[a], c0, c1);
      }
    }
    r
  }

  /** With in-range bounds the window is `max(0, r1-r0)` by `max(0, c1-c0)`; reversed bounds give an empty window, not an error. */
  lemma Slice2Shape<T>(m: seq<seq<T>>, rows: nat, cols: nat, r0: nat, r1: nat, c0: nat, c1: nat)
    requires IsMatrix(m, rows, cols)
    requires r0 <= rows && r1 <= rows && c0 <= cols && c1 <= cols
    ensures |Slice2(m, rows, cols, r0, r1, c0, c1)| == if r0 <= r1 then r1 - r0 else 0
    ensures r0 < r1 ==> |Slice2(m, rows, cols, r0, r1, c0, c1)[0]| == if c0 <= c1 then c1 - c0 else 0
    ensures forall a, b :: 0 <= a < r1 - r0 && 0 <= b < c1 - c0 ==>
              Slice2(m, rows, cols, r0, r1, c0, c1)[a][b] == m[r0 + a][c0 + b]
  {
  }

  /** `np.hstack((a, b))` on 2-D arrays; numpy rejects a row-count mismatch. */
  function HStack<T>(a: seq<seq<T>>, b: seq<seq<T>>): (r: Result<seq<seq<T>>>)
    ensures r.Err? <==> |a| != |b|
    ensures r.Err? ==> r.error == ValueError
    ensures r.Ok? ==> |r.value| == |a| && forall k :: 0 <= k < |a| ==>
              |r.value[k]| == |a[k]| + |b[k]| && r.value[k][..|a[k]|] == a[k] && r.value[k][|a[k]|..] == b[k]
  {
    if |a| != |b| then Err(ValueError)
    else
      var r := seq(|a|, k requires 0 <= k < |a| => a[k] + b[k]);
      assert forall k :: 0 <= k < |a| ==> r[k][..|a[k]|] == a[k] && r[k][|a[k]|..] == b[k];
      Ok(r)
  }

  /** The last column the wrapped ALPW subset reads before starting again at column 0. */
  const AlpwEdge := 2499

  /**
    `np.hstack((m[r0:r1, c0:2499], m[r0:r1, 0:c1]))`, the antimeridian wrap.
    Both halves take the same rows, so the stacking never fails; inside the
    grid each row is the row's columns `c0..2498` followed by its columns
    `0..c1-1`, `(2499 - c0) + c1` values.
  */
  function WrapWindow(m: seq<seq<real>>, rows: nat, cols: nat, r0: int, r1: int, c0: int, c1: int)
    : (r: Result<seq<seq<real>>>)
    requires IsMatrix(m, rows, cols)
    ensures r.Ok? && |r.value| == SliceLen(rows, r0, r1)
    ensures cols >= AlpwEdge && 0 <= c0 <= AlpwEdge && 0 <= c1 <= cols ==>
              forall a :: 0 <= a < |r.value| ==>
                var row := m[Bound(r0, rows) + a];
                r.value[a] == row[c0..AlpwEdge] + row[..c1] && |r.value[a]| == (AlpwEdge - c0) + c1
  {
    var left := Slice2(m, rows, cols, r0, r1, c0, AlpwEdge);
    var right := Slice2(m, rows, cols, r0, r1, 0, c1);
    var r := HStack(left, right);
    if cols >= AlpwEdge && 0 <= c0 <= AlpwEdge && 0 <= c1 <= cols then
      assert forall a :: 0 <= a < |left| ==> left[a] == m[Bound(r0, rows) + a][c0..AlpwEdge];
      assert forall a :: 0 <= a < |right| ==> right[a] == m[Bound(r0, rows) + a][..c1];
      r
    else r
  }

  /**
    The ALPW subset: rows `latui:latli`; when the east bound is beyond 20
    degrees the columns wrap (`WrapWindow`), otherwise they are
    `lonli:lonui`.
  */
  function AlpwSubset(data: seq<seq<real>>, rows: nat, cols: nat, lats: seq<real>, lons: seq<real>, e: Extent)
    : (r: Result<seq<seq<real>>>)
    requires IsMatrix(data, rows, cols)
    ensures r.Err? <==> lats == [] || lons == []
    ensures r.Err? ==> r.error == ValueError
    ensures r.Ok? ==> var w := Locate(lats, lons, e).value;
              && |r.value| == SliceLen(rows, w.latui, w.latli)
              && (e.lonMax <= 20.0 ==> Cuts(r.value, data, rows, cols, w.latui, w.latli, w.lonli, w.lonui))
              && (e.lonMax > 20.0 ==> r.value == WrapWindow(data, rows, cols, w.latui, w.latli, w.lonli, w.lonui).value)
  {
    var w :- Locate(lats, lons, e);
    if e.lonMax > 20.0 then WrapWindow(data, rows, cols, w.latui, w.latli, w.lonli, w.lonui)
    else Ok(Slice2(data, rows, cols, w.latui, w.latli, w.lonli, w.lonui))
  }

  /** `cube` is a `|cube|` x `rows` x `cols` array. */
  predicate IsCube<T>(cube: seq<seq<seq<T>>>, rows: nat, cols: nat) {
    forall t :: 0 <= t < |cube| ==> IsMatrix(cube[t], rows, cols)
  }

  /** The SST anomaly subset: time step 0, rows `latui:latli`, columns `lonli:lonui`. */
  function AnomalySubset(cube: seq<seq<seq<real>>>, rows: nat, cols: nat, lats: seq<real>, lons: seq<real>, e: Extent)
    : (r: Result<seq<seq<real>>>)
    requires IsCube(cube, rows, cols)
    ensures r.Err? <==> lats == [] || lons == [] || cube == []
    ensures lats != [] && lons != [] && cube == [] ==> r == Err(IndexError)
    ensures r.Ok? ==> var w := Locate(lats, lons, e).value;
              IsMatrix(cube[0], rows, cols) && Cuts(r.value, cube[0], rows, cols, w.latui, w.latli, w.lonli, w.lonui)
  {
    var w :- Locate(lats, lons, e);
    if cube == [] then Err(IndexError)
    else
      assert IsMatrix(cube[0], rows, cols);
      Ok(Slice2(cube[0], rows, cols, w.latui, w.latli, w.lonli, w.lonui))
  }

  /** The subset of scripts 05 and 06: rows `latli:latui` (latitudes ascend), columns `lonli:lonui`. */
  function AscendingSubset<T>(data: seq<seq<T>>, rows: nat, cols: nat, lats: seq<real>, lons: seq<real>, e: Extent)
    : (r: Result<seq<seq<T>>>)
    requires IsMatrix(data, rows, cols)
    ensures r.Err? <==> lats == [] || lons == []
    ensures r.Ok? ==> var w := Locate(lats, lons, e).value;
              Cuts(r.value, data, rows, cols, w.latli, w.latui, w.lonli, w.lonui)
  {
    var w :- Locate(lats, lons, e);
    Ok(Slice2(data, rows, cols, w.latli, w.latui, w.lonli, w.lonui))
  }

  /** An n-dimensional array: its shape and its elements in row-major order. */
  datatype NdArray = NdArray(shape: seq<nat>, data: seq<real>)

  function Product(s: seq<nat>): nat {
    if s == [] then 1 else s[0] * Product(s[1..])
  }

  predicate WellFormed(a: NdArray) {
    |a.data| == Product(a.shape)
  }

  /** The axes that are not of length 1, in order. */
  function DropOnes(s: seq<nat>): (r: seq<nat>)
    ensures |r| <= |s|
    ensures forall k :: 0 <= k < |r| ==> r[k] != 1
    ensures forall x :: x in r <==> x in s && x != 1
    ensures Product(r) == Product(s)
  {
    if s == [] then []
    else
      var rest := DropOnes(s[1..]);
      assert forall x :: x in s <==> x == s[0] || x in s[1..];
      if s[0] == 1 then rest else [s[0]] + rest
  }

  /** `a.squeeze()`: length-1 axes disappear; the elements and their order do not change. */
  function Squeeze(a: NdArray): (r: NdArray)
    ensures r.data == a.data
    ensures WellFormed(a) ==> WellFormed(r)
    ensures forall k :: 0 <= k < |r.shape| ==> r.shape[k] != 1
    ensures forall x :: x in r.shape <==> x in a.shape && x != 1
  {
    NdArray(DropOnes(a.shape), a.data)
  }

  /** Squeezing an already squeezed array changes nothing. */
  lemma {:induction false} SqueezeIdempotent(a: NdArray)
    ensures Squeeze(Squeeze(a)) == Squeeze(a)
  {
    DropOnesFixed(DropOnes(a.shape));
  }

  lemma {:induction false} DropOnesFixed(s: seq<nat>)
    requires forall k :: 0 <= k < |s| ==> s[k] != 1
    ensures DropOnes(s) == s
  {
    if s != [] {
      assert forall k :: 0 <= k < |s[1..]| ==> s[1..][k] == s[k + 1];
      DropOnesFixed(s[1..]);
    }
  }

  /** Dropping unit axes works axis by axis: a length-1 axis vanishes and any other stays. */
  lemma DropOnesSingle(x: nat)
    ensures DropOnes([x]) == if x == 1 then [] else [x]
  {
    assert [x][1..] == [];
  }

  /**
    Dropping unit axes from a concatenation drops them from each part and
    keeps the parts in order; with `DropOnesSingle` this fixes the order and
    the repetitions of the remaining axes.
  */
  lemma {:induction false} DropOnesConcat(s: seq<nat>, t: seq<nat>)
    ensures DropOnes(s + t) == DropOnes(s) + DropOnes(t)
    decreases |s|
  {
    if s != [] {
      assert (s + t)[0] == s[0];
      assert (s + t)[1..] == s[1..] + t;
      DropOnesConcat(s[1..], t);
    } else {
      assert s + t == t;
    }
  }

  /** Squeezing an array whose shape is `s + t` keeps the non-unit axes of `s`, then those of `t`. */
  lemma SqueezeAxes(a: NdArray, s: seq<nat>, t: seq<nat>)
    requires a.shape == s + t
    ensures Squeeze(a).shape == DropOnes(s) + DropOnes(t)
  {
    DropOnesConcat(s, t);
  }

  /** The rows of a 2-D array laid end to end. */
  function Flatten2(m: seq<seq<real>>): seq<real> {
    if m == [] then [] else m[0] + Flatten2(m[1..])
  }

  /** The 2-D slices of a 3-D array laid end to end. */
  function Flatten3(c: seq<seq<seq<real>>>): seq<real> {
    if c == [] then [] else Flatten2(c[0]) + Flatten3(c[1..])
  }

  lemma {:induction false} Flatten2Length(m: seq<seq<real>>, cols: nat)
    requires IsMatrix(m, |m|, cols)
    ensures |Flatten2(m)| == |m| * cols
  {
    if m != [] {
      Flatten2Length(m[1..], cols);
    }
  }

  lemma {:induction false} Flatten3Length(c: seq<seq<seq<real>>>, rows: nat, cols: nat)
    requires IsCube(c, rows, cols)
    ensures |Flatten3(c)| == |c| * (rows * cols)
  {
    if c != [] {
      var p := rows * cols;
      assert IsMatrix(c[0], rows, cols);
      Flatten2Length(c[0], cols);
      assert IsCube(c[1..], rows, cols) by {
        forall t | 0 <= t < |c[1..]|
          ensures IsMatrix(c[1..][t], rows, cols)
        {
          assert c[1..][t] == c[t + 1];
        }
      }
      Flatten3Length(c[1..], rows, cols);
      assert |c| * p == (|c| - 1) * p + p;
    }
  }

  /** A `|c|` x `rows` x `cols` array as an n-dimensional array, elements in row-major order. */
  function FromCube(c: seq<seq<seq<real>>>, rows: nat, cols: nat): (a: NdArray)
    requires IsCube(c, rows, cols)
    ensures WellFormed(a) && a.shape == [|c|, rows, cols]
  {
    Flatten3Length(c, rows, cols);
    var shape: seq<nat> := [|c|, rows, cols];
    assert shape[1..][1..] == [cols] && Product([cols]) == cols;
    assert shape[1..] == [rows, cols] && Product([rows, cols]) == rows * cols;
    NdArray(shape, Flatten3(c))
  }

  /**
    The 7-day SST trend subset: every time step, rows `latui:latli`,
    columns `lonli:lonui`, then `squeeze`: the elements are those of the
    cut windows in row-major order, and only the axes longer or shorter
    than 1 remain.
  */
  function TrendSubset(cube: seq<seq<seq<real>>>, rows: nat, cols: nat, lats: seq<real>, lons: seq<real>, e: Extent)
    : (r: Result<NdArray>)
    requires IsCube(cube, rows, cols)
    ensures r.Err? <==> lats == [] || lons == []
    ensures r.Ok? ==> WellFormed(r.value) && forall k :: 0 <= k < |r.value.shape| ==> r.value.shape[k] != 1
    ensures r.Ok? ==> var w := Locate(lats, lons, e).value;
              var h, v := SliceLen(rows, w.latui, w.latli), SliceLen(cols, w.lonli, w.lonui);
              && r.value.data == Flatten3(Window3(cube, rows, cols, w.latui, w.latli, w.lonli, w.lonui))
              && r.value.shape == (if |cube| == 1 then [] else [|cube|]) + (if h == 1 then [] else [h])
                                  + (if v == 1 then [] else [v])
              && forall x :: x in r.value.shape <==> x in [|cube|, h, v] && x != 1
  {
    var w :- Locate(lats, lons, e);
    var h, v := SliceLen(rows, w.latui, w.latli), SliceLen(cols, w.lonli, w.lonui);
    var a := FromCube(Window3(cube, rows, cols, w.latui, w.latli, w.lonli, w.lonui), h, v);
    assert a.shape == [|cube|] + [h] + [v];
    DropOnesConcat([|cube|] + [h], [v]);
    DropOnesConcat([|cube|], [h]);
    DropOnesSingle(|cube|);
    DropOnesSingle(h);
    DropOnesSingle(v);
    Ok(Squeeze(a))
  }

  /** `cube[:, r0:r1, c0:c1]` */
  function Window3(cube: seq<seq<seq<real>>>, rows: nat, cols: nat, r0: int, r1: int, c0: int, c1: int)
    : (r: seq<seq<seq<real>>>)
    requires IsCube(cube, rows, cols)
    ensures |r| == |cube| && IsCube(r, SliceLen(rows, r0, r1), SliceLen(cols, c0, c1))
    ensures forall t :: 0 <= t < |r| ==> IsMatrix(cube[t], rows, cols) && Cuts(r[t], cube[t], rows, cols, r0, r1, c0, c1)
  {
    seq(|cube|, t requires 0 <= t < |cube| => Slice2(cube[t], rows, cols, r0, r1, c0, c1))
  }

  /** A grid value or a missing one (NaN). */
  datatype Sample = Missing | Value(v: real)

  function Samples(m: seq<seq<real>>): (r: seq<seq<Sample>>)
    ensures |r| == |m| && forall a :: 0 <= a < |m| ==> |r[a]| == |m[a]|
    ensures forall a, b :: 0 <= a < |m| && 0 <= b < |m[a]| ==> r[a][b] == Value(m[a][b])
  {
    seq(|m|, a requires 0 <= a < |m| => seq(|m[a]|, b requires 0 <= b < |m[a]| => Value(m[a][b])))
  }

  /** `data[data == 0] = np.nan`. NaN never equals 0, so a missing cell stays missing. */
  function MaskZeros(m: seq<seq<Sample>>): (r: seq<seq<Sample>>)
    ensures |r| == |m| && forall a :: 0 <= a < |m| ==> |r[a]| == |m[a]|
    ensures forall a, b :: 0 <= a < |r| && 0 <= b < |r[a]| ==> r[a][b] != Value(0.0)
    ensures forall a, b :: 0 <= a < |m| && 0 <= b < |m[a]| ==>
              (r[a][b] == m[a][b] <==> m[a][b] != Value(0.0))
    ensures forall a, b :: 0 <= a < |m| && 0 <= b < |m[a]| && r[a][b] != m[a][b] ==> r[a][b] == Missing
  {
    seq(|m|, a requires 0 <= a < |m| =>
      seq(|m[a]|, b requires 0 <= b < |m[a]| => if m[a][b] == Value(0.0) then Missing else m[a][b]))
  }

  /** Masking twice is masking once. */
  lemma MaskZerosIdempotent(m: seq<seq<Sample>>)
    ensures MaskZeros(MaskZeros(m)) == MaskZeros(m)
  {
    var once := MaskZeros(m);
    var twice := MaskZeros(once);
    assert forall a :: 0 <= a < |once| ==> twice[a] == once[a];
  }

  /**
    Script 06's rain-rate field: the ascending window `RR[latli:latui,
    lonli:lonui]`, then `data[data == 0] = np.nan`. Each cell of the result is
    missing exactly when the raw value it comes from is zero, and otherwise
    holds that raw value.
  */
  function RainRateSubset(data: seq<seq<real>>, rows: nat, cols: nat, lats: seq<real>, lons: seq<real>, e: Extent)
    : (r: Result<seq<seq<Sample>>>)
    requires IsMatrix(data, rows, cols)
    ensures r.Err? <==> lats == [] || lons == []
    ensures r.Err? ==> r.error == ValueError
    ensures r.Ok? ==> var w := Locate(lats, lons, e).value;
              && IsMatrix(r.value, SliceLen(rows, w.latli, w.latui), SliceLen(cols, w.lonli, w.lonui))
              && forall a, b :: 0 <= a < |r.value| && 0 <= b < |r.value[a]| ==>
                   var raw := data[Bound(w.latli, rows) + a][Bound(w.lonli, cols) + b];
                   && (r.value[a][b] == Missing <==> raw == 0.0)
                   && (raw != 0.0 ==> r.value[a][b] == Value(raw))
  {
    var window :- AscendingSubset(data, rows, cols, lats, lons, e);
    Ok(MaskZeros(Samples(window)))
  }

  /**
    `int(time[0])`: the first time value truncated toward zero to whole
    seconds; an empty time axis raises IndexError.
  */
  function WholeSeconds(times: seq<real>): (r: Result<int>)
    ensures r.Err? <==> times == []
    ensures r.Err? ==> r.error == IndexError
    ensures r.Ok? ==> var t := times[0];
              && (t >= 0.0 ==> 0 <= r.value && r.value as real <= t < r.value as real + 1.0)
              && (t < 0.0 ==> r.value <= 0 && r.value as real - 1.0 < t <= r.value as real)
  {
    if times == [] then Err(IndexError) else Ok(Trunc(times[0]))
  }
}

/**
  The `Streamlines` tracer: covers a gridded 2-D velocity field with
  streamlines, seeding each one at the first grid cell no earlier streamline
  has claimed and marching it forward and backward with bilinearly
  interpolated headings.

  The trigonometry and square roots are not modelled: the heading
  `(cos(atan2(v, u)), sin(atan2(v, u)))`, `sqrt` and `hypot` are supplied as a
  `Geometry` value, and nothing below depends on what they compute.
*/
module Streamlines {
  import opened Outcomes
  import opened PySeq
  import opened PyNum
  import opened OccupancyMask

  /** Velocity samples `u[j][i]`, `v[j][i]` at the grid point `(x[i], y[j])`. */
  datatype Field = Field(x: seq<real>, y: seq<real>, u: seq<seq<real>>, v: seq<seq<real>>)

  predicate WellShaped(f: Field) {
    IsMatrix(f.u, |f.y|, |f.x|) && IsMatrix(f.v, |f.y|, |f.x|)
  }

  /** `X` and `Y` are given either as 1-D axes or as 2-D meshes. */
  datatype Coords = Axis(values: seq<real>) | Mesh(rows: seq<seq<real>>)

  /** `xa if xa.ndim == 1 else xa[0]`: a mesh contributes its first row. */
  function XAxis(c: Coords): (r: Result<seq<real>>)
    ensures c.Axis? ==> r == Ok(c.values)
    ensures c.Mesh? ==> (r.Ok? <==> |c.rows| > 0)
    ensures c.Mesh? && r.Ok? ==> r.value == c.rows[0]
    ensures r.Err? ==> r.error == IndexError
  {
    match c
    case Axis(a) => Ok(a)
    case Mesh(rows) => if |rows| == 0 then Err(IndexError) else Ok(rows[0])
  }

  /** `ya if ya.ndim == 1 else ya[:,0]`: a mesh contributes its first column. */
  function YAxis(c: Coords): (r: Result<seq<real>>)
    ensures c.Axis? ==> r == Ok(c.values)
    ensures c.Mesh? ==> (r.Ok? <==> forall k :: 0 <= k < |c.rows| ==> |c.rows[k]| > 0)
    ensures r.Err? ==> r.error == IndexError
    ensures c.Mesh? && r.Ok? ==>
              |r.value| == |c.rows| && forall k :: 0 <= k < |c.rows| ==> r.value[k] == c.rows[k][0]
  {
    match c
    case Axis(a) => Ok(a)
    case Mesh(rows) =>
      if forall k :: 0 <= k < |rows| ==> |rows[k]| > 0
      then Ok(seq(|rows|, k requires 0 <= k < |rows| && |rows[k]| > 0 => rows[k][0]))
      else Err(IndexError)
  }

  /** The constructor's tuning parameters `res`, `spacing`, `maxLen`, `detectLoops`. */
  datatype Config = Config(res: real, spacing: int, maxLen: int, detectLoops: bool)

  const Defaults := Config(1.0, 4, 1000, false)

  /**
    The transcendental functions the tracer calls: `heading(u, v)` is
    `(cos(atan2(v, u)), sin(atan2(v, u)))`, then `sqrt` and `hypot`.
  */
  datatype Geometry = Geometry(heading: (real, real) -> (real, real), sqrt: real -> real, hypot: (real, real) -> real)

  /**
    `np.meshgrid(x, y)`: two meshes of `|y|` rows and `|x|` columns, the
    first repeating `x` in every row, the second holding `y[j]` across row `j`.
  */
  function Meshgrid(x: seq<real>, y: seq<real>): (c: (Coords, Coords))
    ensures c.0.Mesh? && c.1.Mesh?
    ensures IsMatrix(c.0.rows, |y|, |x|) && IsMatrix(c.1.rows, |y|, |x|)
    ensures forall j, i :: 0 <= j < |y| && 0 <= i < |x| ==> c.0.rows[j][i] == x[i] && c.1.rows[j][i] == y[j]
  {
    (Mesh(seq(|y|, j => x)), Mesh(seq(|y|, j requires 0 <= j < |y| => seq(|x|, i => y[j]))))
  }

  /**
    Taking the axes of a meshgrid gives the original axes back: the first row
    of `X` is `x` and the first column of `Y` is `y`. A mesh with no rows has
    no first row, and one with empty rows no first column.
  */
  lemma MeshgridAxes(x: seq<real>, y: seq<real>)
    ensures |y| > 0 ==> XAxis(Meshgrid(x, y).0) == Ok(x)
    ensures |y| == 0 ==> XAxis(Meshgrid(x, y).0) == Err(IndexError)
    ensures |x| > 0 ==> YAxis(Meshgrid(x, y).1) == Ok(y)
    ensures |x| == 0 && |y| > 0 ==> YAxis(Meshgrid(x, y).1) == Err(IndexError)
  {
    var c := Meshgrid(x, y);
    if |x| > 0 {
      var r := YAxis(c.1);
      assert r.Ok?;
      assert |r.value| == |y|;
      forall j | 0 <= j < |y|
        ensures r.value[j] == y[j]
      {
        assert c.1.rows[j][0] == y[j];
      }
      assert r.value == y;
    }
    if |x| == 0 && |y| > 0 {
      assert |c.1.rows[0]| == 0;
    }
  }

  /** `(a[-1] - a[0]) / (a.size - 1)`: the grid spacing of a regular axis. */
  function Step(a: seq<real>): real
    requires |a| >= 2
  {
    (a[|a| - 1] - a[0]) / (|a| - 1) as real
  }

  lemma StepSpan(a: seq<real>)
    requires |a| >= 2
    ensures Step(a) * (|a| - 1) as real == a[|a| - 1] - a[0]
    ensures a[0] < a[|a| - 1] ==> Step(a) > 0.0
  {
  }

  /** The grid the source assumes: strictly increasing and equally spaced. */
  predicate Regular(a: seq<real>) {
    |a| >= 2 ==> Step(a) > 0.0 && forall k :: 0 <= k < |a| ==> a[k] == a[0] + k as real * Step(a)
  }

  /** The open domain box `xmin < x < xmax and ymin < y < ymax`. */
  predicate InBox(f: Field, x: real, y: real) {
    |f.x| >= 2 && |f.y| >= 2 && f.x[0] < x < f.x[|f.x| - 1] && f.y[0] < y < f.y[|f.y| - 1]
  }

  lemma ScaleBetween(t: real, s: real, k: int)
    requires s > 0.0 && k as real <= t < (k + 1) as real
    ensures k as real * s <= t * s < (k + 1) as real * s
  {
    assert (t - k as real) * s >= 0.0;
    assert ((k + 1) as real - t) * s > 0.0;
  }

  lemma CancelPositive(t: real, n: real, s: real)
    requires s > 0.0 && t * s < n * s
    ensures t < n
  {
  }

  /**
    `int((p - a[0]) / dx)`: the index of the grid cell holding `p`. Inside the
    open box it is at most `|a| - 2`, so both corners `k` and `k + 1` exist.
  */
  function Corner(a: seq<real>, p: real): (k: nat)
    requires |a| >= 2 && a[0] < p < a[|a| - 1]
    ensures k <= |a| - 2
    ensures a[0] + k as real * Step(a) <= p < a[0] + (k + 1) as real * Step(a)
  {
    StepSpan(a);
    var s := Step(a);
    var t := (p - a[0]) / s;
    var k := Trunc(t);
    assert t * s == p - a[0];
    assert (|a| - 1) as real * s == a[|a| - 1] - a[0];
    CellOf(a[0], a[|a| - 1], |a| - 1, s, p, t, k);
    k
  }

  /** The cell arithmetic of `Corner` over plain reals: `t = (p - lo) / s` truncated to `k`. */
  lemma CellOf(lo: real, hi: real, n: nat, s: real, p: real, t: real, k: int)
    requires n >= 1 && s > 0.0 && lo < p < hi
    requires n as real * s == hi - lo && t * s == p - lo
    requires t >= 0.0 ==> k as real <= t < k as real + 1.0
    requires t < 0.0 ==> k as real - 1.0 < t <= k as real
    ensures 0 <= k <= n - 1
    ensures lo + k as real * s <= p < lo + (k + 1) as real * s
  {
    assert 0.0 * s == 0.0;
    CancelPositive(0.0, t, s);
    CancelPositive(t, n as real, s);
    ScaleBetween(t, s, k);
  }

  /** At a grid node of a regular axis the cell index is the node's own index. */
  lemma NodeCorner(a: seq<real>, k: nat)
    requires |a| >= 2 && Regular(a) && 0 < k < |a| - 1
    ensures a[0] < a[k] < a[|a| - 1]
    ensures Corner(a, a[k]) == k
    ensures Mod1((a[k] - a[0]) / Step(a)) == 0.0
  {
    var s := Step(a);
    assert a[k] == a[0] + k as real * s;
    assert a[|a| - 1] == a[0] + (|a| - 1) as real * s;
    assert 0.0 < k as real * s < (|a| - 1) as real * s;
    assert (a[k] - a[0]) / s == k as real;
  }

  function Min4(a: real, b: real, c: real, d: real): real {
    var ab := if a <= b then a else b;
    var cd := if c <= d then c else d;
    if ab <= cd then ab else cd
  }

  function Max4(a: real, b: real, c: real, d: real): real {
    var ab := if a >= b then a else b;
    var cd := if c >= d then c else d;
    if ab >= cd then ab else cd
  }

  lemma WeightedAbove(w: real, c: real, lo: real)
    requires w >= 0.0 && lo <= c
    ensures w * lo <= w * c
  {
    assert w * (c - lo) >= 0.0;
  }

  /** Four non-negative weights summing to one keep a weighted sum at or above a common lower bound. */
  lemma ConvexAbove(w0: real, w1: real, w2: real, w3: real, c0: real, c1: real, c2: real, c3: real, lo: real)
    requires w0 >= 0.0 && w1 >= 0.0 && w2 >= 0.0 && w3 >= 0.0 && w0 + w1 + w2 + w3 == 1.0
    requires lo <= c0 && lo <= c1 && lo <= c2 && lo <= c3
    ensures lo <= w0 * c0 + w1 * c1 + w2 * c2 + w3 * c3
  {
    WeightedAbove(w0, c0, lo);
    WeightedAbove(w1, c1, lo);
    WeightedAbove(w2, c2, lo);
    WeightedAbove(w3, c3, lo);
    SplitUnit(w0, w1, w2, w3, lo);
    var p0, p1, p2, p3 := w0 * c0, w1 * c1, w2 * c2, w3 * c3;
    var l0, l1, l2, l3 := w0 * lo, w1 * lo, w2 * lo, w3 * lo;
    assert l0 <= p0 && l1 <= p1 && l2 <= p2 && l3 <= p3;
    assert l0 + l1 + l2 + l3 == lo;
  }

  /** A convex combination of four values lies between any common bounds of them. */
  lemma ConvexBetween(w0: real, w1: real, w2: real, w3: real,
                      c0: real, c1: real, c2: real, c3: real, lo: real, hi: real)
    requires w0 >= 0.0 && w1 >= 0.0 && w2 >= 0.0 && w3 >= 0.0 && w0 + w1 + w2 + w3 == 1.0
    requires lo <= c0 <= hi && lo <= c1 <= hi && lo <= c2 <= hi && lo <= c3 <= hi
    ensures lo <= w0 * c0 + w1 * c1 + w2 * c2 + w3 * c3 <= hi
  {
    ConvexAbove(w0, w1, w2, w3, c0, c1, c2, c3, lo);
    ConvexAbove(w0, w1, w2, w3, -c0, -c1, -c2, -c3, -hi);
    assert w0 * -c0 + w1 * -c1 + w2 * -c2 + w3 * -c3 == -(w0 * c0 + w1 * c1 + w2 * c2 + w3 * c3);
  }

  lemma SplitUnit(w0: real, w1: real, w2: real, w3: real, c: real)
    requires w0 + w1 + w2 + w3 == 1.0
    ensures w0 * c + w1 * c + w2 * c + w3 * c == c
  {
    calc {
      w0 * c + w1 * c + w2 * c + w3 * c;
      (w0 + w1 + w2 + w3) * c;
      1.0 * c;
    }
  }

  lemma ProductNonNegative(a: real, b: real)
    requires a >= 0.0 && b >= 0.0
    ensures a * b >= 0.0
  {
  }

  /**
    Bilinear interpolation inside one cell. With weights in [0, 1] the result
    is a convex combination of the four corners, so it lies between their
    minimum and maximum (a constant field interpolates to the constant), and at
    zero offsets it is the lower-left corner itself.
  */
  function Bilinear(lowLeft: real, lowRight: real, upLeft: real, upRight: real, ai: real, aj: real): (r: real)
    ensures 0.0 <= ai <= 1.0 && 0.0 <= aj <= 1.0 ==>
              Min4(lowLeft, lowRight, upLeft, upRight) <= r <= Max4(lowLeft, lowRight, upLeft, upRight)
    ensures ai == 0.0 && aj == 0.0 ==> r == lowLeft
  {
    var r := lowLeft * (1.0 - ai) * (1.0 - aj) + lowRight * ai * (1.0 - aj)
             + upLeft * (1.0 - ai) * aj + upRight * ai * aj;
    if 0.0 <= ai <= 1.0 && 0.0 <= aj <= 1.0 then
      var w0, w1, w2, w3 := (1.0 - ai) * (1.0 - aj), ai * (1.0 - aj), (1.0 - ai) * aj, ai * aj;
      ProductNonNegative(1.0 - ai, 1.0 - aj);
      ProductNonNegative(ai, 1.0 - aj);
      ProductNonNegative(1.0 - ai, aj);
      ProductNonNegative(ai, aj);
      assert w0 + w1 + w2 + w3 == 1.0;
      assert r == w0 * lowLeft + w1 * lowRight + w2 * upLeft + w3 * upRight;
      ConvexBetween(w0, w1, w2, w3, lowLeft, lowRight, upLeft, upRight,
                    Min4(lowLeft, lowRight, upLeft, upRight), Max4(lowLeft, lowRight, upLeft, upRight));
      r
    else r
  }

  /** The velocity `_interp` computes at `(x, y)`; the four corner reads are in bounds. */
  function Velocity(f: Field, x: real, y: real): (uv: (real, real))
    requires WellShaped(f) && InBox(f, x, y)
    ensures var i, j := Corner(f.x, x), Corner(f.y, y);
      && Min4(f.u[j][i], f.u[j][i + 1], f.u[j + 1][i], f.u[j + 1][i + 1]) <= uv.0
      && uv.0 <= Max4(f.u[j][i], f.u[j][i + 1], f.u[j + 1][i], f.u[j + 1][i + 1])
      && Min4(f.v[j][i], f.v[j][i + 1], f.v[j + 1][i], f.v[j + 1][i + 1]) <= uv.1
      && uv.1 <= Max4(f.v[j][i], f.v[j][i + 1], f.v[j + 1][i], f.v[j + 1][i + 1])
  {
    var i := Corner(f.x, x);
    var j := Corner(f.y, y);
    var ai := Mod1((x - f.x[0]) / Step(f.x));
    var aj := Mod1((y - f.y[0]) / Step(f.y));
    (Bilinear(f.u[j][i], f.u[j][i + 1], f.u[j + 1][i], f.u[j + 1][i + 1], ai, aj),
     Bilinear(f.v[j][i], f.v[j][i + 1], f.v[j + 1][i], f.v[j + 1][i + 1], ai, aj))
  }

  /** On a regular grid the interpolated velocity at an interior node is that node's sample. */
  lemma VelocityAtNode(f: Field, j: nat, i: nat)
    requires WellShaped(f) && Regular(f.x) && Regular(f.y)
    requires 0 < i < |f.x| - 1 && 0 < j < |f.y| - 1
    ensures InBox(f, f.x[i], f.y[j])
    ensures Velocity(f, f.x[i], f.y[j]) == (f.u[j][i], f.v[j][i])
  {
    NodeCorner(f.x, i);
    NodeCorner(f.y, j);
  }

  /** A uniform field interpolates to its constant everywhere in the box. */
  lemma UniformVelocity(f: Field, cu: real, cv: real, x: real, y: real)
    requires WellShaped(f) && InBox(f, x, y)
    requires forall j, i :: 0 <= j < |f.y| && 0 <= i < |f.x| ==> f.u[j][i] == cu && f.v[j][i] == cv
    ensures Velocity(f, x, y) == (cu, cv)
  {
    var i, j := Corner(f.x, x), Corner(f.y, y);
    assert f.u[j][i] == cu && f.u[j][i + 1] == cu && f.u[j + 1][i] == cu && f.u[j + 1][i + 1] == cu;
    assert f.v[j][i] == cv && f.v[j][i + 1] == cv && f.v[j + 1][i] == cv && f.v[j + 1][i + 1] == cv;
  }

  /** One integration step from `(x, y)`: move `dr` along the interpolated heading, times `sign`. */
  function Advance(f: Field, g: Geometry, dr: real, sign: int, x: real, y: real): (real, real)
    requires WellShaped(f) && InBox(f, x, y)
  {
    var uv := Velocity(f, x, y);
    var cs := g.heading(uv.0, uv.1);
    (x + sign as real * dr * cs.0, y + sign as real * dr * cs.1)
  }

  /** The mask update `_interp` makes at `(x, y)`: the spacing-wide block at the point's cell. */
  function StampAt(f: Field, m: Mask, spacing: int, x: real, y: real): (r: Mask)
    requires WellShaped(f) && IsMatrix(m, |f.y|, |f.x|) && InBox(f, x, y)
    ensures IsMatrix(r, |f.y|, |f.x|) && Grows(m, r)
    ensures spacing >= 1 ==> r[Corner(f.y, y)][Corner(f.x, x)]
  {
    Stamp(m, |f.x|, Corner(f.y, y), Corner(f.x, x), spacing)
  }

  /** `hypot(x - xj, y - yj) < 0.9 * dr` */
  predicate Close(g: Geometry, dr: real, x: real, y: real, xj: real, yj: real) {
    g.hypot(x - xj, y - yj) < 0.9 * dr
  }

  function AnyCloseBefore(g: Geometry, dr: real, xs: seq<real>, ys: seq<real>, n: nat): (r: bool)
    requires |xs| == |ys| >= 1 && n <= |xs| - 1
    ensures r <==> exists k :: 0 <= k < n && Close(g, dr, xs[|xs| - 1], ys[|ys| - 1], xs[k], ys[k])
  {
    if n == 0 then false
    else AnyCloseBefore(g, dr, xs, ys, n - 1) || Close(g, dr, xs[|xs| - 1], ys[|ys| - 1], xs[n - 1], ys[n - 1])
  }

  /**
    `_detectLoop`: the newest point comes within `0.9 * dr` of an earlier
    point of the same half-branch.
  */
  function DetectLoop(g: Geometry, dr: real, xs: seq<real>, ys: seq<real>): (r: bool)
    requires |xs| == |ys| >= 1
    ensures r <==> exists k :: 0 <= k < |xs| - 1 && Close(g, dr, xs[|xs| - 1], ys[|ys| - 1], xs[k], ys[k])
  {
    AnyCloseBefore(g, dr, xs, ys, |xs| - 1)
  }

  /**
    Whether a half-branch of `n = |xs|` points breaks out of its loop: a loop
    check every tenth point when enabled, or more than `maxLen / 2` points
    (`i > maxLen / 2` in true division is `2 * i > maxLen`).
  */
  predicate Stops(cfg: Config, g: Geometry, dr: real, xs: seq<real>, ys: seq<real>)
    requires |xs| == |ys| >= 1
  {
    (cfg.detectLoops && |xs| % 10 == 0 && DetectLoop(g, dr, xs, ys)) || 2 * |xs| > cfg.maxLen
  }

  /** The most points a half-branch can hold: `floor(maxLen / 2) + 1`, and at least one. */
  function MaxHalfPoints(maxLen: int): nat {
    if maxLen < 0 then 1 else maxLen / 2 + 1
  }

  /** The point the `k`-th step starts from: the seed for the first step, the point before it after that. */
  function Prev(x0: real, xs: seq<real>, k: nat): real
    requires k < |xs|
  {
    if k == 0 then x0 else xs[k - 1]
  }

  /** The current position of a march: the last point, or the seed before the first step. */
  function Last(x0: real, xs: seq<real>): real {
    if xs == [] then x0 else xs[|xs| - 1]
  }

  /** The `k`-th point is one step from the point before it (the seed for `k == 0`). */
  predicate StepAt(f: Field, g: Geometry, dr: real, sign: int, x0: real, y0: real, xs: seq<real>, ys: seq<real>, k: nat)
    requires WellShaped(f) && k < |xs| == |ys| && InBox(f, Prev(x0, xs, k), Prev(y0, ys, k))
  {
    && xs[k] == Advance(f, g, dr, sign, Prev(x0, xs, k), Prev(y0, ys, k)).0
    && ys[k] == Advance(f, g, dr, sign, Prev(x0, xs, k), Prev(y0, ys, k)).1
  }

  /**
    `xs`, `ys` are successive integration steps from `(x0, y0)`: every point
    a step was taken from lies strictly inside the box, and each point is
    `Advance` of the point before it.
  */
  predicate Steps(f: Field, g: Geometry, dr: real, sign: int, x0: real, y0: real, xs: seq<real>, ys: seq<real>)
    requires WellShaped(f)
  {
    && |xs| == |ys|
    && (forall k {:trigger Prev(x0, xs, k)} :: 0 <= k < |xs| ==> InBox(f, Prev(x0, xs, k), Prev(y0, ys, k)))
    && (forall k {:trigger StepAt(f, g, dr, sign, x0, y0, xs, ys, k)} :: 0 <= k < |xs| ==> StepAt(f, g, dr, sign, x0, y0, xs, ys, k))
  }

  /** One more step of the march from inside the box keeps `Steps`. */
  lemma StepsSnoc(f: Field, g: Geometry, dr: real, sign: int, x0: real, y0: real, xs: seq<real>, ys: seq<real>)
    requires WellShaped(f) && Steps(f, g, dr, sign, x0, y0, xs, ys)
    requires InBox(f, Last(x0, xs), Last(y0, ys))
    ensures var p := Advance(f, g, dr, sign, Last(x0, xs), Last(y0, ys));
      Steps(f, g, dr, sign, x0, y0, xs + [p.0], ys + [p.1])
  {
    var p := Advance(f, g, dr, sign, Last(x0, xs), Last(y0, ys));
    var xs', ys' := xs + [p.0], ys + [p.1];
    forall k | 0 <= k < |xs'|
      ensures InBox(f, Prev(x0, xs', k), Prev(y0, ys', k))
    {
      assert Prev(x0, xs', k) == (if k < |xs| then Prev(x0, xs, k) else Last(x0, xs));
      assert Prev(y0, ys', k) == (if k < |ys| then Prev(y0, ys, k) else Last(y0, ys));
    }
    forall k | 0 <= k < |xs'|
      ensures StepAt(f, g, dr, sign, x0, y0, xs', ys', k)
    {
      assert Prev(x0, xs', k) == (if k < |xs| then Prev(x0, xs, k) else Last(x0, xs));
      assert Prev(y0, ys', k) == (if k < |ys| then Prev(y0, ys, k) else Last(y0, ys));
      if k < |xs| {
        assert StepAt(f, g, dr, sign, x0, y0, xs, ys, k);
      }
    }
  }

  /**
    `xs`, `ys` are what `_makeHalfStreamline(x0, y0, sign)` returns: a march
    of `Steps` that is empty exactly when the seed is outside the box, that
    did not stop at any earlier point, and that ends outside the box or where
    a stop rule fires.
  */
  predicate IsHalfBranch(f: Field, cfg: Config, g: Geometry, dr: real, x0: real, y0: real, sign: int, xs: seq<real>, ys: seq<real>)
    requires WellShaped(f)
  {
    && |xs| == |ys|
    && (|xs| == 0 <==> !InBox(f, x0, y0))
    && Steps(f, g, dr, sign, x0, y0, xs, ys)
    && NoEarlyStop(cfg, g, dr, xs, ys)
    && (|xs| > 0 ==> !InBox(f, xs[|xs| - 1], ys[|ys| - 1]) || Stops(cfg, g, dr, xs, ys))
  }

  /** No proper, non-empty prefix of the trajectory met a stop condition. */
  predicate NoEarlyStop(cfg: Config, g: Geometry, dr: real, xs: seq<real>, ys: seq<real>)
    requires |xs| == |ys|
  {
    forall n :: 1 <= n < |xs| ==> !Stops(cfg, g, dr, xs[..n], ys[..n])
  }

  /** Appending a point to a trajectory that has not stopped makes its whole self a proper prefix. */
  lemma {:induction false} NoEarlyStopSnoc(cfg: Config, g: Geometry, dr: real, xs: seq<real>, ys: seq<real>, x: real, y: real)
    requires |xs| == |ys|
    requires NoEarlyStop(cfg, g, dr, xs, ys)
    requires xs != [] ==> !Stops(cfg, g, dr, xs, ys)
    ensures NoEarlyStop(cfg, g, dr, xs + [x], ys + [y])
  {
    forall n | 1 <= n < |xs| + 1
      ensures !Stops(cfg, g, dr, (xs + [x])[..n], (ys + [y])[..n])
    {
      assert (xs + [x])[..n] == xs[..n] && (ys + [y])[..n] == ys[..n];
      if n == |xs| {
        assert xs[..n] == xs && ys[..n] == ys;
      }
    }
  }

  /**
    `_makeHalfStreamline(x0, y0, sign)`: march from `(x0, y0)` while inside
    the open box, stopping early on a detected loop or on reaching the point
    cap. The stamps `_interp` makes along the way are `BranchCells`.
  */
  method HalfStreamline(f: Field, cfg: Config, g: Geometry, dr: real, x0: real, y0: real, sign: int)
    returns (xs: seq<real>, ys: seq<real>)
    requires WellShaped(f)
    ensures IsHalfBranch(f, cfg, g, dr, x0, y0, sign, xs, ys)
    ensures |xs| <= MaxHalfPoints(cfg.maxLen)
  {
    xs, ys := [], [];
    var x, y := x0, y0;
    var i := 0;
    while InBox(f, x, y)
      invariant i == |xs| == |ys|
      invariant i == 0 || 2 * i <= cfg.maxLen
      invariant x == Last(x0, xs) && y == Last(y0, ys)
      invariant i > 0 ==> InBox(f, x0, y0)
      invariant Steps(f, g, dr, sign, x0, y0, xs, ys)
      invariant NoEarlyStop(cfg, g, dr, xs, ys)
      invariant i > 0 ==> !Stops(cfg, g, dr, xs, ys)
      decreases MaxHalfPoints(cfg.maxLen) - i
    {
      // `_interp` samples the velocity at (x, y); the heading and the step
      // of length `dr` follow.
      var next := Advance(f, g, dr, sign, x, y);
      StepsSnoc(f, g, dr, sign, x0, y0, xs, ys);
      NoEarlyStopSnoc(cfg, g, dr, xs, ys, next.0, next.1);
      xs, ys := xs + [next.0], ys + [next.1];
      x, y := next.0, next.1;
      i := i + 1;
      if cfg.detectLoops && i % 10 == 0 && DetectLoop(g, dr, xs, ys) {
        break;
      }
      if 2 * i > cfg.maxLen {
        break;
      }
    }
  }

  /**
    The cells `_interp` stamps along a half-branch: the cell of every point a
    step was taken from, in order.
  */
  function BranchCells(f: Field, g: Geometry, dr: real, sign: int, x0: real, y0: real, xs: seq<real>, ys: seq<real>): (cs: seq<Cell>)
    requires WellShaped(f) && Steps(f, g, dr, sign, x0, y0, xs, ys)
    ensures |cs| == |xs|
    ensures forall k :: 0 <= k < |cs| ==> cs[k].row < |f.y| - 1 && cs[k].col < |f.x| - 1
  {
    seq(|xs|, k requires 0 <= k < |xs| =>
      var px, py := Prev(x0, xs, k), Prev(y0, ys, k);
      Cell(Corner(f.y, py), Corner(f.x, px)))
  }

  /** A polyline: the points `(xs[k], ys[k])`. */
  datatype Line = Line(xs: seq<real>, ys: seq<real>)

  /** `rx.reverse(); rx + [x0] + sx`: the backward branch reversed, the seed, the forward branch. */
  function Join<T>(back: seq<T>, seed: T, fwd: seq<T>): (r: seq<T>)
    ensures |r| == |back| + 1 + |fwd|
    ensures r[|back|] == seed
    ensures forall k :: 0 <= k < |back| ==> r[k] == back[|back| - 1 - k]
    ensures forall k :: 0 <= k < |fwd| ==> r[|back| + 1 + k] == fwd[k]
  {
    Reverse(back) + [seed] + fwd
  }

  /** The joined line splits back into its two branches and the seed. */
  lemma JoinSplit<T>(back: seq<T>, seed: T, fwd: seq<T>)
    ensures Reverse(Join(back, seed, fwd)[..|back|]) == back
    ensures Join(back, seed, fwd)[|back| + 1..] == fwd
  {
    var r := Join(back, seed, fwd);
    assert r[..|back|] == Reverse(back);
    ReverseInvolution(back);
  }

  /**
    Read outward from the seed, a joined line is its two marches again: the
    points after the seed step forward from it, and the points before it,
    taken right to left, step backward from it.
  */
  lemma JoinedBranches(f: Field, g: Geometry, dr: real, x0: real, y0: real,
                       backX: seq<real>, backY: seq<real>, fwdX: seq<real>, fwdY: seq<real>)
    requires WellShaped(f)
    requires Steps(f, g, dr, 1, x0, y0, fwdX, fwdY) && Steps(f, g, dr, -1, x0, y0, backX, backY)
    ensures var lx, ly, b := Join(backX, x0, fwdX), Join(backY, y0, fwdY), |backX|;
      && lx[b] == x0 && ly[b] == y0
      && Steps(f, g, dr, 1, lx[b], ly[b], lx[b + 1..], ly[b + 1..])
      && Steps(f, g, dr, -1, lx[b], ly[b], Reverse(lx[..b]), Reverse(ly[..b]))
  {
    JoinSplit(backX, x0, fwdX);
    JoinSplit(backY, y0, fwdY);
  }

  /** `_makeStreamline(x0, y0)`: both half-branches from the seed, joined through it. */
  method MakeStreamline(f: Field, cfg: Config, g: Geometry, dr: real, x0: real, y0: real)
    returns (back: Line, fwd: Line, line: Line)
    requires WellShaped(f)
    ensures IsHalfBranch(f, cfg, g, dr, x0, y0, 1, fwd.xs, fwd.ys)
    ensures IsHalfBranch(f, cfg, g, dr, x0, y0, -1, back.xs, back.ys)
    ensures |fwd.xs| <= MaxHalfPoints(cfg.maxLen) && |back.xs| <= MaxHalfPoints(cfg.maxLen)
    ensures line == Line(Join(back.xs, x0, fwd.xs), Join(back.ys, y0, fwd.ys))
  {
    var sx, sy := HalfStreamline(f, cfg, g, dr, x0, y0, 1);
    var rx, ry := HalfStreamline(f, cfg, g, dr, x0, y0, -1);
    fwd, back := Line(sx, sy), Line(rx, ry);
    line := Line(Reverse(rx) + [x0] + sx, Reverse(ry) + [y0] + sy);
  }

  /** Whether `Cell(j, i)` lies on the first or last row or column. */
  predicate OnBoundary(f: Field, c: Cell) {
    c.row == 0 || c.row == |f.y| - 1 || c.col == 0 || c.col == |f.x| - 1
  }

  /** Both velocity components are exactly zero at the grid point `(x[i], y[j])`. */
  predicate Calm(f: Field, j: nat, i: nat)
    requires WellShaped(f) && j < |f.y| && i < |f.x|
  {
    f.u[j][i] == 0.0 && f.v[j][i] == 0.0
  }

  /**
    `used = np.zeros(u.shape)` followed by `used[0] = True`, `used[-1] = True`,
    `used[:,0] = True` and `used[:,-1] = True`. Each assignment is written as
    the slice it covers (`used[-1]` is `used[-1:]` on a non-empty grid); on an
    empty grid the source has already failed on `x[-1]`.
  */
  function BorderMask(f: Field): (m: Mask)
    requires WellShaped(f)
    ensures IsMatrix(m, |f.y|, |f.x|)
    ensures forall j, i :: 0 <= j < |f.y| && 0 <= i < |f.x| ==> (m[j][i] <==> OnBoundary(f, Cell(j, i)))
  {
    var rows, cols := |f.y|, |f.x|;
    var zeros := Blank(rows, cols);
    var top := Fill(zeros, cols, 0, 1, 0, cols);
    var bottom := Fill(top, cols, -1, rows, 0, cols);
    var left := Fill(bottom, cols, 0, rows, 0, 1);
    Fill(left, cols, 0, rows, -1, cols)
  }

  /**
    The inner loop `for j in range(ny)` for column `i`, over its first `n`
    rows: each calm point is set, in row order.
  */
  function MarkColumn(f: Field, m: Mask, i: nat, n: nat): (r: Mask)
    requires WellShaped(f) && IsMatrix(m, |f.y|, |f.x|) && i < |f.x| && n <= |f.y|
    ensures IsMatrix(r, |f.y|, |f.x|)
    ensures forall j, c :: 0 <= j < |f.y| && 0 <= c < |f.x| ==>
              (r[j][c] <==> m[j][c] || (c == i && j < n && Calm(f, j, c)))
  {
    if n == 0 then m
    else
      var prev := MarkColumn(f, m, i, n - 1);
      if Calm(f, n - 1, i) then SetCell(prev, |f.x|, n - 1, i) else prev
  }

  /**
    The loop `for i in range(nx): for j in range(ny): if u[j,i] == 0.0 and
    v[j,i] == 0.0: used[j,i] = True`, over its first `n` columns.
  */
  function MarkCalm(f: Field, m: Mask, n: nat): (r: Mask)
    requires WellShaped(f) && IsMatrix(m, |f.y|, |f.x|) && n <= |f.x|
    ensures IsMatrix(r, |f.y|, |f.x|)
    ensures forall j, c :: 0 <= j < |f.y| && 0 <= c < |f.x| ==>
              (r[j][c] <==> m[j][c] || (c < n && Calm(f, j, c)))
  {
    if n == 0 then m else MarkColumn(f, MarkCalm(f, m, n - 1), n - 1, |f.y|)
  }

  /**
    The mask before any streamline, built as the constructor builds it: the
    border assignments, then the calm-point loop. A cell starts used exactly
    when it is on the outer rows or columns or both velocity components
    there are zero.
  */
  function InitialMask(f: Field): (m: Mask)
    requires WellShaped(f)
    ensures IsMatrix(m, |f.y|, |f.x|)
    ensures forall j, i :: 0 <= j < |f.y| && 0 <= i < |f.x| ==>
              (m[j][i] <==> OnBoundary(f, Cell(j, i)) || (f.u[j][i] == 0.0 && f.v[j][i] == 0.0))
  {
    MarkCalm(f, BorderMask(f), |f.x|)
  }

  /** Every cell on the outer rows and columns of `m` is used, as in the initial mask. */
  predicate BorderUsed(f: Field, m: Mask)
    requires IsMatrix(m, |f.y|, |f.x|)
  {
    forall j, i :: 0 <= j < |f.y| && 0 <= i < |f.x| && OnBoundary(f, Cell(j, i)) ==> m[j][i]
  }

  /** A calm field, zero everywhere, leaves nothing to trace. */
  lemma CalmFieldAllUsed(f: Field)
    requires WellShaped(f)
    requires forall j, i :: 0 <= j < |f.y| && 0 <= i < |f.x| ==> f.u[j][i] == 0.0 && f.v[j][i] == 0.0
    ensures AllUsed(InitialMask(f))
  {
  }

  /** `dr = res * sqrt(dx * dy)`; with a one-point axis every cell is a boundary cell and no step is taken. */
  function StepLength(f: Field, cfg: Config, g: Geometry): real {
    if |f.x| >= 2 && |f.y| >= 2 then cfg.res * g.sqrt(Step(f.x) * Step(f.y)) else 0.0
  }

  /** The two branches of one streamline, traced from the grid point of the cell `seed`. */
  datatype Streamline = Streamline(seed: Cell, back: Line, fwd: Line)

  /** The grid point `(x[i], y[j])` of the cell `Cell(j, i)`. */
  function SeedPoint(f: Field, c: Cell): (real, real)
    requires c.row < |f.y| && c.col < |f.x|
  {
    (f.x[c.col], f.y[c.row])
  }

  /** The points of a streamline as `_makeStreamline` returns them. */
  function Points(f: Field, s: Streamline): (l: Line)
    requires s.seed.row < |f.y| && s.seed.col < |f.x|
    ensures |l.xs| == |s.back.xs| + 1 + |s.fwd.xs| && |l.ys| == |s.back.ys| + 1 + |s.fwd.ys|
    ensures (l.xs[|s.back.xs|], l.ys[|s.back.ys|]) == SeedPoint(f, s.seed)
  {
    var p := SeedPoint(f, s.seed);
    Line(Join(s.back.xs, p.0, s.fwd.xs), Join(s.back.ys, p.1, s.fwd.ys))
  }

  /**
    `s` is the streamline the constructor's loop draws next from the mask
    `m0`: its seed is the first unused cell, and its branches are the two
    half-streamlines from that cell's grid point.
  */
  predicate NextStreamline(f: Field, cfg: Config, g: Geometry, dr: real, m0: Mask, s: Streamline)
    requires WellShaped(f) && IsMatrix(m0, |f.y|, |f.x|)
  {
    && FirstFree(m0) == Some(s.seed)
    && var p := SeedPoint(f, s.seed);
    && IsHalfBranch(f, cfg, g, dr, p.0, p.1, 1, s.fwd.xs, s.fwd.ys)
    && IsHalfBranch(f, cfg, g, dr, p.0, p.1, -1, s.back.xs, s.back.ys)
  }

  /**
    The mask once `s` is drawn from `m0`: the forward branch's stamps, then
    the backward branch's.
  */
  function After(f: Field, cfg: Config, g: Geometry, dr: real, m0: Mask, s: Streamline): (m: Mask)
    requires WellShaped(f) && IsMatrix(m0, |f.y|, |f.x|) && NextStreamline(f, cfg, g, dr, m0, s)
    ensures IsMatrix(m, |f.y|, |f.x|) && Grows(m0, m)
  {
    var p := SeedPoint(f, s.seed);
    var cells := BranchCells(f, g, dr, 1, p.0, p.1, s.fwd.xs, s.fwd.ys)
                 + BranchCells(f, g, dr, -1, p.0, p.1, s.back.xs, s.back.ys);
    StampAll(m0, |f.x|, cells, cfg.spacing)
  }

  /**
    On a regular grid, drawing a streamline from an interior seed uses the
    seed's own cell: the first forward step starts there.
  */
  lemma AfterCoversSeed(f: Field, cfg: Config, g: Geometry, dr: real, m0: Mask, s: Streamline)
    requires WellShaped(f) && IsMatrix(m0, |f.y|, |f.x|) && NextStreamline(f, cfg, g, dr, m0, s)
    requires Regular(f.x) && Regular(f.y) && cfg.spacing >= 1
    requires 0 < s.seed.row < |f.y| - 1 && 0 < s.seed.col < |f.x| - 1
    ensures After(f, cfg, g, dr, m0, s)[s.seed.row][s.seed.col]
  {
    var p := SeedPoint(f, s.seed);
    NodeCorner(f.x, s.seed.col);
    NodeCorner(f.y, s.seed.row);
    var cells := BranchCells(f, g, dr, 1, p.0, p.1, s.fwd.xs, s.fwd.ys)
                 + BranchCells(f, g, dr, -1, p.0, p.1, s.back.xs, s.back.ys);
    assert cells[0] == s.seed;
  }

  /**
    Starting from the mask `m0`, the constructor's loop draws the streamlines
    `ss` in order and leaves the mask `m`.
  */
  predicate Replays(f: Field, cfg: Config, g: Geometry, dr: real, m0: Mask, ss: seq<Streamline>, m: Mask)
    requires WellShaped(f) && IsMatrix(m0, |f.y|, |f.x|)
    decreases |ss|
  {
    if ss == [] then m == m0
    else NextStreamline(f, cfg, g, dr, m0, ss[0]) && Replays(f, cfg, g, dr, After(f, cfg, g, dr, m0, ss[0]), ss[1..], m)
  }

  lemma SnocTail<T>(ss: seq<T>, s: T)
    requires ss != []
    ensures (ss + [s])[0] == ss[0] && (ss + [s])[1..] == ss[1..] + [s]
  {
  }

  /** One more round of the loop extends a replay. */
  lemma {:induction false} ReplaysSnoc(f: Field, cfg: Config, g: Geometry, dr: real, m0: Mask, ss: seq<Streamline>, m: Mask, s: Streamline)
    requires WellShaped(f) && IsMatrix(m0, |f.y|, |f.x|) && IsMatrix(m, |f.y|, |f.x|)
    requires Replays(f, cfg, g, dr, m0, ss, m) && NextStreamline(f, cfg, g, dr, m, s)
    ensures Replays(f, cfg, g, dr, m0, ss + [s], After(f, cfg, g, dr, m, s))
    decreases |ss|
  {
    if ss != [] {
      var m1 := After(f, cfg, g, dr, m0, ss[0]);
      ReplaysSnoc(f, cfg, g, dr, m1, ss[1..], m, s);
      SnocTail(ss, s);
    }
  }

  /**
    On a regular grid, a streamline drawn from a mask whose border is used
    starts at an unused interior cell and uses it.
  */
  lemma SeedUsed(f: Field, cfg: Config, g: Geometry, dr: real, m: Mask, s: Streamline)
    requires WellShaped(f) && Regular(f.x) && Regular(f.y) && cfg.spacing >= 1
    requires IsMatrix(m, |f.y|, |f.x|) && BorderUsed(f, m) && NextStreamline(f, cfg, g, dr, m, s)
    ensures s.seed.row < |f.y| && s.seed.col < |f.x| && !m[s.seed.row][s.seed.col]
    ensures BorderUsed(f, After(f, cfg, g, dr, m, s))
    ensures After(f, cfg, g, dr, m, s)[s.seed.row][s.seed.col]
  {
    var c, m1 := s.seed, After(f, cfg, g, dr, m, s);
    assert !OnBoundary(f, c);
    AfterCoversSeed(f, cfg, g, dr, m, s);
    forall j, i | 0 <= j < |f.y| && 0 <= i < |f.x| && OnBoundary(f, Cell(j, i))
      ensures m1[j][i]
    {
      assert RowGrows(m[j], m1[j]);
    }
  }

  /**
    One round of the constructor's loop on a regular grid: the seed is an
    interior cell, it ends up used, so the replay grows by one streamline and
    the number of unused cells strictly drops.
  */
  lemma Round(f: Field, cfg: Config, g: Geometry, dr: real, m0: Mask, ss: seq<Streamline>, m: Mask, s: Streamline)
    requires WellShaped(f) && Regular(f.x) && Regular(f.y) && cfg.spacing >= 1
    requires IsMatrix(m0, |f.y|, |f.x|) && IsMatrix(m, |f.y|, |f.x|) && BorderUsed(f, m)
    requires Replays(f, cfg, g, dr, m0, ss, m) && NextStreamline(f, cfg, g, dr, m, s)
    ensures Replays(f, cfg, g, dr, m0, ss + [s], After(f, cfg, g, dr, m, s))
    ensures BorderUsed(f, After(f, cfg, g, dr, m, s))
    ensures Unused(After(f, cfg, g, dr, m, s)) < Unused(m)
  {
    SeedUsed(f, cfg, g, dr, m, s);
    ReplaysSnoc(f, cfg, g, dr, m0, ss, m, s);
    UnusedShrinks(m, After(f, cfg, g, dr, m, s), s.seed);
  }

  /** A mask with nothing left unused draws no streamline. */
  lemma ReplaysFromFull(f: Field, cfg: Config, g: Geometry, dr: real, m0: Mask, ss: seq<Streamline>, m: Mask)
    requires WellShaped(f) && IsMatrix(m0, |f.y|, |f.x|) && Replays(f, cfg, g, dr, m0, ss, m)
    requires AllUsed(m0)
    ensures ss == [] && m == m0
  {
  }

  /** On a regular grid the seeds of a replay from a mask with a used border are cells that were unused at its start. */
  lemma {:induction false} SeedsUnused(f: Field, cfg: Config, g: Geometry, dr: real, m0: Mask, ss: seq<Streamline>, m: Mask)
    requires WellShaped(f) && Regular(f.x) && Regular(f.y) && cfg.spacing >= 1
    requires IsMatrix(m0, |f.y|, |f.x|) && BorderUsed(f, m0)
    requires Replays(f, cfg, g, dr, m0, ss, m)
    ensures forall k :: 0 <= k < |ss| ==>
              ss[k].seed.row < |f.y| && ss[k].seed.col < |f.x| && !m0[ss[k].seed.row][ss[k].seed.col]
    decreases |ss|
  {
    if ss != [] {
      var c, m1 := ss[0].seed, After(f, cfg, g, dr, m0, ss[0]);
      SeedUsed(f, cfg, g, dr, m0, ss[0]);
      SeedsUnused(f, cfg, g, dr, m1, ss[1..], m);
      forall k | 0 <= k < |ss|
        ensures ss[k].seed.row < |f.y| && ss[k].seed.col < |f.x| && !m0[ss[k].seed.row][ss[k].seed.col]
      {
        if k > 0 {
          assert ss[1..][k - 1] == ss[k];
          FreeAfterFirst(m0, m1, c, ss[k].seed);
        }
      }
    }
  }

  /**
    On a regular grid the seeds of a replay come in strictly increasing
    row-major order: each streamline uses its own seed, and every cell
    before that seed was already used.
  */
  lemma {:induction false} SeedsInOrder(f: Field, cfg: Config, g: Geometry, dr: real, m0: Mask, ss: seq<Streamline>, m: Mask)
    requires WellShaped(f) && Regular(f.x) && Regular(f.y) && cfg.spacing >= 1
    requires IsMatrix(m0, |f.y|, |f.x|) && BorderUsed(f, m0)
    requires Replays(f, cfg, g, dr, m0, ss, m)
    ensures forall i, j :: 0 <= i < j < |ss| ==> Before(ss[i].seed, ss[j].seed)
    decreases |ss|
  {
    if ss != [] {
      var c, m1 := ss[0].seed, After(f, cfg, g, dr, m0, ss[0]);
      SeedUsed(f, cfg, g, dr, m0, ss[0]);
      SeedsUnused(f, cfg, g, dr, m1, ss[1..], m);
      SeedsInOrder(f, cfg, g, dr, m1, ss[1..], m);
      forall k | 1 <= k < |ss|
        ensures Before(c, ss[k].seed)
      {
        assert ss[1..][k - 1] == ss[k];
        FreeAfterFirst(m0, m1, c, ss[k].seed);
      }
      InOrderCons(ss);
    }
  }

  /** Seeds in order: the first comes before all the others, and the rest are in order. */
  lemma InOrderCons(ss: seq<Streamline>)
    requires ss != []
    requires forall k :: 1 <= k < |ss| ==> Before(ss[0].seed, ss[k].seed)
    requires forall i, j :: 0 <= i < j < |ss[1..]| ==> Before(ss[1..][i].seed, ss[1..][j].seed)
    ensures forall i, j :: 0 <= i < j < |ss| ==> Before(ss[i].seed, ss[j].seed)
  {
    forall i, j | 1 <= i < j < |ss|
      ensures Before(ss[i].seed, ss[j].seed)
    {
      assert ss[1..][i - 1] == ss[i] && ss[1..][j - 1] == ss[j];
    }
  }

  /**
    What the tracer needs of its field: velocity arrays of the grid's shape
    and evenly spaced, ascending axes (the source assumes a uniform mesh).
  */
  predicate Traceable(f: Field) {
    WellShaped(f) && Regular(f.x) && Regular(f.y)
  }

  /**
    The constructor's `while True` loop from the mask `m0`: draw a streamline
    from the first unused cell until none is left. It ends because each
    round uses its seed.
  */
  method DrawAll(f: Field, cfg: Config, g: Geometry, dr: real, m0: Mask) returns (ss: seq<Streamline>, m: Mask)
    requires Traceable(f) && cfg.spacing >= 1
    requires IsMatrix(m0, |f.y|, |f.x|) && BorderUsed(f, m0)
    ensures IsMatrix(m, |f.y|, |f.x|) && Grows(m0, m) && AllUsed(m)
    ensures Replays(f, cfg, g, dr, m0, ss, m)
    ensures AllUsed(m0) ==> ss == []
  {
    m, ss := m0, [];
    while !AllUsed(m)
      invariant IsMatrix(m, |f.y|, |f.x|) && Grows(m0, m) && BorderUsed(f, m)
      invariant Replays(f, cfg, g, dr, m0, ss, m)
      decreases Unused(m)
    {
      var c := FirstFree(m).value;
      var p := SeedPoint(f, c);
      var back, fwd, line := MakeStreamline(f, cfg, g, dr, p.0, p.1);
      var s := Streamline(c, back, fwd);
      var m1 := After(f, cfg, g, dr, m, s);
      Round(f, cfg, g, dr, m0, ss, m, s);
      GrowsTransitive(m0, m, m1);
      ss, m := ss + [s], m1;
    }
    if AllUsed(m0) {
      ReplaysFromFull(f, cfg, g, dr, m0, ss, m);
    }
  }

  /** The result of the constructor: the streamlines drawn and the final mask. */
  datatype Traced = Traced(streamlines: seq<Streamline>, used: Mask)

  /**
    `Streamlines(X, Y, U, V, res, spacing, maxLen, detectLoops)` on 1-D axes:
    start from the initial mask and draw a streamline from the first unused
    grid point until every cell is used. An empty axis fails on `x[-1]`.
  */
  method Trace(f: Field, cfg: Config, g: Geometry) returns (r: Result<Traced>)
    requires Traceable(f) && cfg.spacing >= 1
    ensures r.Err? <==> |f.x| == 0 || |f.y| == 0
    ensures r.Err? ==> r.error == IndexError
    ensures r.Ok? ==> AllUsed(r.value.used)
    ensures r.Ok? ==> Replays(f, cfg, g, StepLength(f, cfg, g), InitialMask(f), r.value.streamlines, r.value.used)
    ensures r.Ok? && AllUsed(InitialMask(f)) ==> r.value.streamlines == []
  {
    if |f.x| == 0 || |f.y| == 0 {
      return Err(IndexError);
    }
    var ss, m := DrawAll(f, cfg, g, StepLength(f, cfg, g), InitialMask(f));
    return Ok(Traced(ss, m));
  }

  /**
    The constructor as called, with `X` and `Y` given either as 1-D axes or
    as meshes: the axes are taken first (`xa[0]`, `ya[:,0]`), then the
    streamlines are traced on them. Every failure is an IndexError.
  */
  method TraceCoords(xc: Coords, yc: Coords, u: seq<seq<real>>, v: seq<seq<real>>, cfg: Config, g: Geometry)
    returns (r: Result<Traced>)
    requires cfg.spacing >= 1
    requires XAxis(xc).Ok? && YAxis(yc).Ok? ==> Traceable(Field(XAxis(xc).value, YAxis(yc).value, u, v))
    ensures r.Err? <==> XAxis(xc).Err? || YAxis(yc).Err? || XAxis(xc).value == [] || YAxis(yc).value == []
    ensures r.Err? ==> r.error == IndexError
    ensures r.Ok? ==> var f := Field(XAxis(xc).value, YAxis(yc).value, u, v);
              && AllUsed(r.value.used)
              && Replays(f, cfg, g, StepLength(f, cfg, g), InitialMask(f), r.value.streamlines, r.value.used)
  {
    var x :- XAxis(xc);
    var y :- YAxis(yc);
    r := Trace(Field(x, y, u, v), cfg, g);
  }
}

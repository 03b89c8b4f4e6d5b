/**
  The occupancy mask of the streamline tracer: a boolean grid whose true
  cells are "used" (boundary, no velocity, or already near a streamline).
  Cells are only ever set, never cleared.
*/
module OccupancyMask {
  import opened Outcomes
  import opened PySeq

  type Mask = seq<seq<bool>>

  /** A grid position: row `row` (the y index), column `col` (the x index). */
  datatype Cell = Cell(row: nat, col: nat)

  predicate RowGrows(a: seq<bool>, b: seq<bool>) {
    |a| == |b| && forall k :: 0 <= k < |a| ==> a[k] ==> b[k]
  }

  /** `m2` has the shape of `m1` and every cell used in `m1` is used in `m2`. */
  predicate Grows(m1: Mask, m2: Mask) {
    |m1| == |m2| && forall r :: 0 <= r < |m1| ==> RowGrows(m1[r], m2[r])
  }

  predicate AllUsed(m: Mask) {
    forall r, c :: 0 <= r < |m| && 0 <= c < |m[r]| ==> m[r][c]
  }

  /** Row `r` of `m` with columns `lo..hi-1` set. */
  function SetColumns(row: seq<bool>, lo: nat, hi: nat): (r: seq<bool>)
    ensures |r| == |row|
    ensures forall c :: 0 <= c < |row| ==> r[c] == (row[c] || lo <= c < hi)
  {
    seq(|row|, c requires 0 <= c < |row| => row[c] || lo <= c < hi)
  }

  /** `np.zeros((rows, cols), dtype=bool)`: a mask with no cell used. */
  function Blank(rows: nat, cols: nat): (m: Mask)
    ensures IsMatrix(m, rows, cols)
    ensures forall a, b :: 0 <= a < rows && 0 <= b < cols ==> !m[a][b]
    ensures Unused(m) == rows * cols
  {
    var m := seq(rows, a requires 0 <= a < rows => seq(cols, b requires 0 <= b < cols => false));
    BlankUnused(m, rows, cols);
    m
  }

  lemma {:induction false} BlankUnused(m: Mask, rows: nat, cols: nat)
    requires IsMatrix(m, rows, cols)
    requires forall a, b :: 0 <= a < rows && 0 <= b < cols ==> !m[a][b]
    ensures Unused(m) == rows * cols
    decreases rows
  {
    if rows > 0 {
      BlankRow(m[0]);
      BlankUnused(m[1..], rows - 1, cols);
      assert rows * cols == cols + (rows - 1) * cols;
    }
  }

  lemma {:induction false} BlankRow(row: seq<bool>)
    requires forall b :: 0 <= b < |row| ==> !row[b]
    ensures CountFree(row) == |row|
    decreases |row|
  {
    if row != [] {
      BlankRow(row[1..]);
    }
  }

  /**
    The slice assignment `m[r0:r1, c0:c1] = True` on a mask with `cols`
    columns: the block is clipped to the grid as a NumPy slice is, and
    negative bounds count from the end.
  */
  function Fill(m: Mask, cols: nat, r0: int, r1: int, c0: int, c1: int): (r: Mask)
    requires IsMatrix(m, |m|, cols)
    ensures IsMatrix(r, |m|, cols)
    ensures Grows(m, r)
    ensures forall a, b :: 0 <= a < |m| && 0 <= b < cols ==>
              r[a][b] == (m[a][b] || (Bound(r0, |m|) <= a < Bound(r1, |m|)
                                      && Bound(c0, cols) <= b < Bound(c1, cols)))
  {
    var lo, hi := Bound(r0, |m|), Bound(r1, |m|);
    seq(|m|, a requires 0 <= a < |m| =>
      if lo <= a < hi then SetColumns(m[a], Bound(c0, cols), Bound(c1, cols)) else m[a])
  }

  /** `m[j, i] = True` for an index inside the grid. */
  function SetCell(m: Mask, cols: nat, j: nat, i: nat): (r: Mask)
    requires IsMatrix(m, |m|, cols) && j < |m| && i < cols
    ensures IsMatrix(r, |m|, cols)
    ensures forall a, b :: 0 <= a < |m| && 0 <= b < cols ==> (r[a][b] <==> m[a][b] || (a == j && b == i))
  {
    m[j := m[j][i := true]]
  }

  /**
    `used[j:j+s, i:i+s] = True`: the `s` x `s` block whose corner is
    (j, i), clipped to the grid as a NumPy slice assignment clips it.
  */
  function Stamp(m: Mask, cols: nat, j: int, i: int, s: int): (r: Mask)
    requires IsMatrix(m, |m|, cols)
    ensures IsMatrix(r, |m|, cols)
    ensures Grows(m, r)
    ensures forall a, b :: 0 <= a < |m| && 0 <= b < cols ==>
              r[a][b] == (m[a][b] || (Bound(j, |m|) <= a < Bound(j + s, |m|)
                                      && Bound(i, cols) <= b < Bound(i + s, cols)))
    ensures 0 <= j < |m| && 0 <= i < cols && s >= 1 ==> r[j][i]
    ensures 0 <= j && 0 <= i && 0 <= s ==>
              forall a, b :: 0 <= a < |m| && 0 <= b < cols ==>
                (r[a][b] <==> m[a][b] || (j <= a < j + s && i <= b < i + s))
  {
    Fill(m, cols, j, j + s, i, i + s)
  }

  /** Whether `(a, b)` falls in the `s` x `s` stamp whose corner is `c`, clipped to the grid. */
  predicate InStamp(rows: nat, cols: nat, c: Cell, s: int, a: int, b: int) {
    && Bound(c.row, rows) <= a < Bound(c.row + s, rows)
    && Bound(c.col, cols) <= b < Bound(c.col + s, cols)
  }

  /**
    The mask after stamping at every corner in `cs`. Stamps only ever set
    cells, so the order does not matter; `StampAllSnoc` shows the result is
    the one `Stamp` gives applied corner by corner.
  */
  function StampAll(m: Mask, cols: nat, cs: seq<Cell>, s: int): (r: Mask)
    requires IsMatrix(m, |m|, cols)
    ensures IsMatrix(r, |m|, cols) && Grows(m, r)
    ensures s >= 1 ==> forall k :: 0 <= k < |cs| && cs[k].row < |m| && cs[k].col < cols ==> r[cs[k].row][cs[k].col]
  {
    seq(|m|, a requires 0 <= a < |m| =>
      seq(cols, b requires 0 <= b < cols =>
        m[a][b] || exists k :: 0 <= k < |cs| && InStamp(|m|, cols, cs[k], s, a, b)))
  }

  lemma StampAllNone(m: Mask, cols: nat, s: int)
    requires IsMatrix(m, |m|, cols)
    ensures StampAll(m, cols, [], s) == m
  {
    var r := StampAll(m, cols, [], s);
    forall a | 0 <= a < |m|
      ensures r[a] == m[a]
    {
    }
  }

  /** Stamping one more corner is one more `used[j:j+s, i:i+s] = True`. */
  lemma StampAllSnoc(m: Mask, cols: nat, cs: seq<Cell>, c: Cell, s: int)
    requires IsMatrix(m, |m|, cols)
    ensures StampAll(m, cols, cs + [c], s) == Stamp(StampAll(m, cols, cs, s), cols, c.row, c.col, s)
  {
    var before := StampAll(m, cols, cs, s);
    var l, r := StampAll(m, cols, cs + [c], s), Stamp(before, cols, c.row, c.col, s);
    forall a | 0 <= a < |m|
      ensures l[a] == r[a]
    {
      forall b | 0 <= b < cols
        ensures l[a][b] == r[a][b]
      {
        if exists k :: 0 <= k < |cs| && InStamp(|m|, cols, cs[k], s, a, b) {
          var k :| 0 <= k < |cs| && InStamp(|m|, cols, cs[k], s, a, b);
          assert (cs + [c])[k] == cs[k];
        } else if InStamp(|m|, cols, c, s, a, b) {
          assert (cs + [c])[|cs|] == c;
        } else {
          assert forall k :: 0 <= k < |cs| + 1 ==> (cs + [c])[k] == if k < |cs| then cs[k] else c;
        }
      }
    }
  }

  /** Number of unused cells in one row. */
  function CountFree(row: seq<bool>): nat {
    if row == [] then 0 else (if row[0] then 0 else 1) + CountFree(row[1..])
  }

  /** Number of unused cells in the mask. */
  function Unused(m: Mask): nat {
    if m == [] then 0 else CountFree(m[0]) + Unused(m[1..])
  }

  lemma {:induction false} CountFreeGrows(a: seq<bool>, b: seq<bool>)
    requires RowGrows(a, b)
    ensures CountFree(b) <= CountFree(a)
    decreases |a|
  {
    if a != [] {
      CountFreeGrows(a[1..], b[1..]);
    }
  }

  lemma {:induction false} CountFreeShrinks(a: seq<bool>, b: seq<bool>, k: nat)
    requires RowGrows(a, b)
    requires k < |a| && !a[k] && b[k]
    ensures CountFree(b) < CountFree(a)
    decreases |a|
  {
    if k == 0 {
      CountFreeGrows(a[1..], b[1..]);
    } else {
      CountFreeShrinks(a[1..], b[1..], k - 1);
    }
  }

  /** Growing the mask never adds unused cells. */
  lemma {:induction false} UnusedGrows(m1: Mask, m2: Mask)
    requires Grows(m1, m2)
    ensures Unused(m2) <= Unused(m1)
    decreases |m1|
  {
    if m1 != [] {
      CountFreeGrows(m1[0], m2[0]);
      UnusedGrows(m1[1..], m2[1..]);
    }
  }

  /** Using a previously unused cell strictly lowers the unused count. */
  lemma {:induction false} UnusedShrinks(m1: Mask, m2: Mask, c: Cell)
    requires Grows(m1, m2)
    requires c.row < |m1| && c.col < |m1[c.row]|
    requires !m1[c.row][c.col] && m2[c.row][c.col]
    ensures Unused(m2) < Unused(m1)
    decreases |m1|
  {
    if c.row == 0 {
      CountFreeShrinks(m1[0], m2[0], c.col);
      UnusedGrows(m1[1..], m2[1..]);
    } else {
      CountFreeGrows(m1[0], m2[0]);
      UnusedShrinks(m1[1..], m2[1..], Cell(c.row - 1, c.col));
    }
  }

  /** `Grows` is transitive. */
  lemma GrowsTransitive(m1: Mask, m2: Mask, m3: Mask)
    requires Grows(m1, m2) && Grows(m2, m3)
    ensures Grows(m1, m3)
  {
  }

  /** Row-major order: earlier row, or same row and earlier column. */
  predicate Before(a: Cell, b: Cell) {
    a.row < b.row || (a.row == b.row && a.col < b.col)
  }

  function FirstFreeInRow(row: seq<bool>, from: nat): (k: int)
    requires from <= |row|
    ensures k == -1 || from <= k < |row|
    ensures k == -1 ==> forall c :: from <= c < |row| ==> row[c]
    ensures k >= 0 ==> !row[k] && forall c :: from <= c < k ==> row[c]
    decreases |row| - from
  {
    if from == |row| then -1
    else if !row[from] then from
    else FirstFreeInRow(row, from + 1)
  }

  function FirstFreeFrom(m: Mask, from: nat): (r: Option<Cell>)
    requires from <= |m|
    ensures r.None? ==> forall a, b :: from <= a < |m| && 0 <= b < |m[a]| ==> m[a][b]
    ensures r.Some? ==> from <= r.value.row < |m| && r.value.col < |m[r.value.row]|
    ensures r.Some? ==> !m[r.value.row][r.value.col]
    ensures r.Some? ==> forall a, b :: from <= a < |m| && 0 <= b < |m[a]| && Before(Cell(a, b), r.value) ==> m[a][b]
    decreases |m| - from
  {
    if from == |m| then None
    else
      var k := FirstFreeInRow(m[from], 0);
      if k >= 0 then Some(Cell(from, k)) else FirstFreeFrom(m, from + 1)
  }

  /**
    `np.transpose(np.logical_not(used).nonzero())[0]`: the first unused
    cell in row-major order, or nothing when every cell is used.
  */
  function FirstFree(m: Mask): (r: Option<Cell>)
    ensures r.None? <==> AllUsed(m)
    ensures r.Some? ==> r.value.row < |m| && r.value.col < |m[r.value.row]|
    ensures r.Some? ==> !m[r.value.row][r.value.col]
    ensures r.Some? ==> forall a, b :: 0 <= a < |m| && 0 <= b < |m[a]| && Before(Cell(a, b), r.value) ==> m[a][b]
  {
    FirstFreeFrom(m, 0)
  }

  /**
    Once the first unused cell `c` of `m0` becomes used, every cell still
    unused in a later mask was unused in `m0` too and comes after `c`.
  */
  lemma FreeAfterFirst(m0: Mask, m1: Mask, c: Cell, d: Cell)
    requires Grows(m0, m1) && FirstFree(m0) == Some(c)
    requires c.row < |m1| && c.col < |m1[c.row]| && m1[c.row][c.col]
    requires d.row < |m1| && d.col < |m1[d.row]| && !m1[d.row][d.col]
    ensures !m0[d.row][d.col] && Before(c, d)
  {
    assert RowGrows(m0[d.row], m1[d.row]);
    assert d != c;
  }
}

/** Coordinates, the board as a value, single-cell updates and piece counting.
    Everything here is shared by the rules (rules.dfy), the board object
    (board.dfy) and the session (server.dfy). */
module Geometry {

  /** Side of the square board. */
  const Size: int := 8

  /** Value of a cell that holds no piece; 1 and 2 are the two players' pieces. */
  const Empty: int := 0

  /** A board coordinate: column `x`, row `y`. */
  datatype Point = Point(x: int, y: int)

  /** The board as a value, indexed `g[y][x]` like the source's `board[y][x]`. */
  type Grid = seq<seq<int>>

  predicate IsGrid(g: Grid) {
    |g| == Size && forall y :: 0 <= y < Size ==> |g[y]| == Size
  }

  predicate InBounds(x: int, y: int) {
    0 <= x < Size && 0 <= y < Size
  }

  function At(g: Grid, x: int, y: int): int
    requires IsGrid(g) && InBounds(x, y)
  {
    g[y][x]
  }

  /** The grid with one cell replaced; every other cell keeps its value. */
  function Set(g: Grid, x: int, y: int, v: int): (r: Grid)
    requires IsGrid(g) && InBounds(x, y)
    ensures IsGrid(r)
    ensures At(r, x, y) == v
    ensures forall yy, xx :: InBounds(xx, yy) && (xx != x || yy != y) ==> At(r, xx, yy) == At(g, xx, yy)
  {
    g[y := g[y][x := v]]
  }

  /** Two grids are equal when they agree on every cell. */
  lemma {:induction false} GridExt(g: Grid, h: Grid)
    requires IsGrid(g) && IsGrid(h)
    requires forall y, x :: InBounds(x, y) ==> At(g, x, y) == At(h, x, y)
    ensures g == h
  {
    forall y | 0 <= y < Size
      ensures g[y] == h[y]
    {
      assert |g[y]| == |h[y]| == Size;
      forall x | 0 <= x < Size
        ensures g[y][x] == h[y][x]
      {
        assert InBounds(x, y);
        assert At(g, x, y) == At(h, x, y);
      }
    }
    assert |g| == |h|;
  }

  // ---------------------------------------------------------------------------
  // Counting the cells that hold a given value

  /** Number of cells of `row` holding `v`. */
  function CountRow(row: seq<int>, v: int): nat
  {
    if row == [] then 0
    else CountRow(row[..|row| - 1], v) + (if row[|row| - 1] == v then 1 else 0)
  }

  /** Number of cells of the whole grid holding `v`. */
  function Count(g: Grid, v: int): nat
  {
    if g == [] then 0
    else Count(g[..|g| - 1], v) + CountRow(g[|g| - 1], v)
  }

  function Indicator(b: bool): nat { if b then 1 else 0 }

  /** Replacing one cell of a row moves the count of `v` by at most one,
      exactly as the old and new values of that cell say. */
  lemma {:induction false} CountRowUpdate(row: seq<int>, i: nat, w: int, v: int)
    requires i < |row|
    ensures CountRow(row[i := w], v) + Indicator(row[i] == v)
         == CountRow(row, v) + Indicator(w == v)
  {
    var n := |row|;
    if i == n - 1 {
      assert row[i := w][..n - 1] == row[..n - 1];
    } else {
      assert row[i := w][..n - 1] == row[..n - 1][i := w];
      CountRowUpdate(row[..n - 1], i, w, v);
    }
  }

  /** Replacing one row of a grid changes its count by the difference of the two rows' counts. */
  lemma {:induction false} CountRowReplaced(g: Grid, y: nat, r: seq<int>, v: int)
    requires y < |g|
    ensures Count(g[y := r], v) + CountRow(g[y], v) == Count(g, v) + CountRow(r, v)
  {
    var n := |g|;
    if y == n - 1 {
      assert g[y := r][..n - 1] == g[..n - 1];
    } else {
      assert g[y := r][..n - 1] == g[..n - 1][y := r];
      CountRowReplaced(g[..n - 1], y, r, v);
    }
  }

  /** Setting one cell changes the count of `v` only through that cell. */
  lemma CountSet(g: Grid, x: int, y: int, w: int, v: int)
    requires IsGrid(g) && InBounds(x, y)
    ensures Count(Set(g, x, y, w), v) + Indicator(At(g, x, y) == v)
         == Count(g, v) + Indicator(w == v)
  {
    CountRowUpdate(g[y], x, w, v);
    CountRowReplaced(g, y, g[y][x := w], v);
  }

  /** A row whose cells holding `v` are exactly the columns lo..hi-1 counts hi - lo of them. */
  lemma {:induction false} CountRowSpan(row: seq<int>, v: int, lo: int, hi: int)
    requires 0 <= lo <= hi <= |row|
    requires forall x :: 0 <= x < |row| ==> (row[x] == v <==> lo <= x < hi)
    ensures CountRow(row, v) == hi - lo
  {
    var n := |row|;
    if n > 0 {
      var r := row[..n - 1];
      if hi < n {
        CountRowSpan(r, v, lo, hi);
      } else if lo < n {
        CountRowSpan(r, v, lo, n - 1);
      } else {
        CountRowSpan(r, v, n - 1, n - 1);
      }
    }
  }

  /** Sum of the first n entries of k. */
  function Sum(k: seq<int>, n: nat): int
    requires n <= |k|
  {
    if n == 0 then 0 else Sum(k, n - 1) + k[n - 1]
  }

  lemma {:induction false} SumPrefix(k: seq<int>, m: nat, n: nat)
    requires n <= m <= |k|
    ensures Sum(k[..m], n) == Sum(k, n)
  {
    if n > 0 {
      SumPrefix(k, m, n - 1);
    }
  }

  /** The count of a grid is the sum of its rows' counts. */
  lemma {:induction false} CountByRows(g: Grid, v: int, k: seq<int>)
    requires |k| == |g|
    requires forall y :: 0 <= y < |g| ==> CountRow(g[y], v) == k[y]
    ensures Count(g, v) == Sum(k, |k|)
  {
    if g != [] {
      var n := |k| - 1;
      CountByRows(g[..n], v, k[..n]);
      SumPrefix(k, n, n);
    }
  }
}

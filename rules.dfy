/** The rules of the board stated on grid values: the starting layout, the
    one-hop rule that both destination listing and move validation apply,
    chained move sequences, and the win test. The board object (board.dfy)
    is proved to compute exactly what these definitions say. */
module Rules {
  import opened Geometry

  function Abs(n: int): nat { if n < 0 then -n else n }

  function Max(a: int, b: int): int { if a < b then b else a }

  // ---------------------------------------------------------------------------
  // Bases and the starting layout

  /** Player 1's starting corner: rows 0..3, row y holding columns 0..3-y. */
  predicate InTopLeftBase(x: int, y: int) {
    0 <= y < 4 && 0 <= x < 4 - y
  }

  /** Player 2's starting corner: the point mirror of the top-left base. */
  predicate InBottomRightBase(x: int, y: int) {
    InTopLeftBase(Size - 1 - x, Size - 1 - y)
  }

  /** A base: the bottom-right one or the top-left one. */
  predicate InBase(x: int, y: int, bottomRight: bool) {
    if bottomRight then InBottomRightBase(x, y) else InTopLeftBase(x, y)
  }

  function InitialCell(x: int, y: int): int {
    if InTopLeftBase(x, y) then 1 else if InBottomRightBase(x, y) then 2 else Empty
  }

  /** The board of a new game: each player's ten pieces fill that player's base. */
  function InitialGrid(): (g: Grid)
    ensures IsGrid(g)
  {
    seq(Size, y => seq(Size, x => InitialCell(x, y)))
  }

  /** Each player starts with ten pieces. */
  lemma InitialPieceCounts()
    ensures Count(InitialGrid(), 1) == 10 && Count(InitialGrid(), 2) == 10
  {
    var g := InitialGrid();
    var k1 := seq(Size, y => if y < 4 then 4 - y else 0);
    var k2 := seq(Size, y => if y < 4 then 0 else y - 3);
    forall y | 0 <= y < Size
      ensures CountRow(g[y], 1) == k1[y] && CountRow(g[y], 2) == k2[y]
    {
      CountRowSpan(g[y], 1, 0, k1[y]);
      CountRowSpan(g[y], 2, Size - k2[y], Size);
    }
    CountByRows(g, 1, k1);
    CountByRows(g, 2, k2);
    assert k1 == [4, 3, 2, 1, 0, 0, 0, 0];
    assert k2 == [0, 0, 0, 0, 1, 2, 3, 4];
    assert Sum([4, 3, 2, 1, 0, 0, 0, 0], 8) == 10;
    assert Sum([0, 0, 0, 0, 1, 2, 3, 4], 8) == 10;
  }

  // ---------------------------------------------------------------------------
  // One hop

  /** Offset of a jump: two cells along a row, a column or a diagonal. */
  predicate JumpOffset(dx: int, dy: int) {
    (Abs(dx) == 2 && dy == 0) || (dx == 0 && Abs(dy) == 2) || (Abs(dx) == 2 && Abs(dy) == 2)
  }

  /** (nx, ny) is one hop away from (x, y): an empty board cell that is a
      neighbour (Chebyshev distance 1), or the landing cell of a jump whose
      midpoint is a board cell holding a piece of either player. The content
      of (x, y) itself is never consulted. */
  predicate Hop(g: Grid, x: int, y: int, nx: int, ny: int)
    requires IsGrid(g)
  {
    InBounds(nx, ny) && At(g, nx, ny) == Empty &&
    (Max(Abs(nx - x), Abs(ny - y)) == 1 ||
     (JumpOffset(nx - x, ny - y) &&
      InBounds(x + (nx - x) / 2, y + (ny - y) / 2) &&
      At(g, x + (nx - x) / 2, y + (ny - y) / 2) != Empty))
  }

  lemma HopIsNear(g: Grid, x: int, y: int, nx: int, ny: int)
    requires IsGrid(g) && Hop(g, x, y, nx, ny)
    ensures Abs(nx - x) <= 2 && Abs(ny - y) <= 2 && (nx != x || ny != y)
  {
  }

  // ---------------------------------------------------------------------------
  // Listing destinations

  /** Row `ny` of the 5x5 window centred on column x, left to right. */
  function WindowRow(x: int, ny: int): (r: seq<Point>)
  {
    seq(5, k => Point(x - 2 + k, ny))
  }

  lemma WindowRowPrefix(x: int, ny: int, k: nat)
    requires k < 5
    ensures WindowRow(x, ny)[..k + 1] == WindowRow(x, ny)[..k] + [Point(x - 2 + k, ny)]
  {
  }

  /** The first `rows` rows of the 5x5 window centred on (x, y), top to bottom. */
  function Window(x: int, y: int, rows: nat): seq<Point>
    requires rows <= 5
  {
    if rows == 0 then [] else Window(x, y, rows - 1) + WindowRow(x, y - 3 + rows)
  }

  /** The points of `s` that are one hop from (x, y), in the order of `s`. */
  function Hops(g: Grid, x: int, y: int, s: seq<Point>): seq<Point>
    requires IsGrid(g)
  {
    if s == [] then []
    else
      var p := s[|s| - 1];
      Hops(g, x, y, s[..|s| - 1]) + (if Hop(g, x, y, p.x, p.y) then [p] else [])
  }

  /** Extending the scanned points by one adds that point exactly when it is a hop. */
  lemma HopsSnoc(g: Grid, x: int, y: int, s: seq<Point>, p: Point)
    requires IsGrid(g)
    ensures Hops(g, x, y, s + [p]) == Hops(g, x, y, s) + (if Hop(g, x, y, p.x, p.y) then [p] else [])
  {
    assert (s + [p])[..|s|] == s;
  }

  /** The hops among the first k points of the window row at height ny. */
  function RowHops(g: Grid, x: int, y: int, ny: int, k: nat): seq<Point>
    requires IsGrid(g) && k <= 5
  {
    if k == 0 then []
    else RowHops(g, x, y, ny, k - 1) + (if Hop(g, x, y, x - 3 + k, ny) then [Point(x - 3 + k, ny)] else [])
  }

  /** RowHops is the scan of the first k points of the window row. */
  lemma {:induction false} RowHopsScan(g: Grid, x: int, y: int, ny: int, k: nat)
    requires IsGrid(g) && k <= 5
    ensures RowHops(g, x, y, ny, k) == Hops(g, x, y, WindowRow(x, ny)[..k])
  {
    if k == 0 {
      assert WindowRow(x, ny)[..0] == [];
    } else {
      RowHopsScan(g, x, y, ny, k - 1);
      WindowRowPrefix(x, ny, k - 1);
      HopsSnoc(g, x, y, WindowRow(x, ny)[..k - 1], Point(x - 3 + k, ny));
    }
  }

  /** Scanning two stretches of points one after the other lists the hops of
      the first, then those of the second. */
  lemma {:induction false} HopsAppend(g: Grid, x: int, y: int, s: seq<Point>, t: seq<Point>)
    requires IsGrid(g)
    ensures Hops(g, x, y, s + t) == Hops(g, x, y, s) + Hops(g, x, y, t)
    decreases |t|
  {
    if t == [] {
      assert s + t == s;
    } else {
      var q, p := t[..|t| - 1], t[|t| - 1];
      assert t == q + [p];
      assert s + t == (s + q) + [p];
      HopsAppend(g, x, y, s, q);
      HopsSnoc(g, x, y, s + q, p);
      HopsSnoc(g, x, y, q, p);
    }
  }

  /** The destinations of the piece at (x, y): the one-hop cells, scanned row by
      row and left to right within a row. */
  function ValidMoves(g: Grid, x: int, y: int): seq<Point>
    requires IsGrid(g)
  {
    Hops(g, x, y, Window(x, y, 5))
  }

  /** Row-major order: strictly earlier row, or same row and strictly earlier column. */
  predicate Before(p: Point, q: Point) {
    p.y < q.y || (p.y == q.y && p.x < q.x)
  }

  predicate RowMajor(s: seq<Point>) {
    forall i, j :: 0 <= i < j < |s| ==> Before(s[i], s[j])
  }

  lemma {:induction false} HopsMembers(g: Grid, x: int, y: int, s: seq<Point>, p: Point)
    requires IsGrid(g)
    ensures p in Hops(g, x, y, s) <==> p in s && Hop(g, x, y, p.x, p.y)
  {
    if s != [] {
      HopsMembers(g, x, y, s[..|s| - 1], p);
      assert s == s[..|s| - 1] + [s[|s| - 1]];
    }
  }

  lemma {:induction false} WindowRowsSpan(x: int, y: int, rows: nat, p: Point)
    requires rows <= 5 && p in Window(x, y, rows)
    ensures y - 2 <= p.y < y - 2 + rows && Abs(p.x - x) <= 2
  {
    if rows > 0 && p !in WindowRow(x, y - 3 + rows) {
      WindowRowsSpan(x, y, rows - 1, p);
    }
  }

  lemma {:induction false} InWindow(x: int, y: int, rows: nat, nx: int, ny: int)
    requires rows <= 5 && Abs(nx - x) <= 2 && y - 2 <= ny < y - 2 + rows
    ensures Point(nx, ny) in Window(x, y, rows)
  {
    if ny == y - 3 + rows {
      assert WindowRow(x, ny)[nx - x + 2] == Point(nx, ny);
    } else {
      InWindow(x, y, rows - 1, nx, ny);
    }
  }

  /** Soundness and completeness of the listing: a point is listed exactly when
      it is one hop away. */
  lemma ValidMovesExact(g: Grid, x: int, y: int, nx: int, ny: int)
    requires IsGrid(g)
    ensures Point(nx, ny) in ValidMoves(g, x, y) <==> Hop(g, x, y, nx, ny)
  {
    HopsMembers(g, x, y, Window(x, y, 5), Point(nx, ny));
    if Hop(g, x, y, nx, ny) {
      HopIsNear(g, x, y, nx, ny);
      InWindow(x, y, 5, nx, ny);
    }
  }

  lemma {:induction false} WindowRowMajor(x: int, y: int, rows: nat)
    requires rows <= 5
    ensures RowMajor(Window(x, y, rows))
  {
    if rows > 0 {
      WindowRowMajor(x, y, rows - 1);
      var a, b := Window(x, y, rows - 1), WindowRow(x, y - 3 + rows);
      forall i | 0 <= i < |a|
        ensures a[i].y < y - 3 + rows
      {
        WindowRowsSpan(x, y, rows - 1, a[i]);
      }
      assert RowMajor(a + b);
    }
  }

  lemma {:induction false} HopsRowMajor(g: Grid, x: int, y: int, s: seq<Point>)
    requires IsGrid(g) && RowMajor(s)
    ensures RowMajor(Hops(g, x, y, s))
  {
    if s != [] {
      var n := |s| - 1;
      var init := s[..n];
      assert RowMajor(init);
      HopsRowMajor(g, x, y, init);
      var h := Hops(g, x, y, init);
      forall i | 0 <= i < |h|
        ensures Before(h[i], s[n])
      {
        HopsMembers(g, x, y, init, h[i]);
      }
    }
  }

  /** The listing is in row-major order, so no destination appears twice. */
  lemma ValidMovesInOrder(g: Grid, x: int, y: int)
    requires IsGrid(g)
    ensures RowMajor(ValidMoves(g, x, y))
    ensures forall i, j :: 0 <= i < j < |ValidMoves(g, x, y)| ==> ValidMoves(g, x, y)[i] != ValidMoves(g, x, y)[j]
  {
    WindowRowMajor(x, y, 5);
    HopsRowMajor(g, x, y, Window(x, y, 5));
  }

  lemma {:induction false} HopsAgree(g: Grid, h: Grid, x: int, y: int, s: seq<Point>)
    requires IsGrid(g) && IsGrid(h)
    requires forall i :: 0 <= i < |s| ==> (Hop(g, x, y, s[i].x, s[i].y) <==> Hop(h, x, y, s[i].x, s[i].y))
    ensures Hops(g, x, y, s) == Hops(h, x, y, s)
  {
    if s != [] {
      HopsAgree(g, h, x, y, s[..|s| - 1]);
    }
  }

  /** The listing never looks at the piece on (x, y): whatever that cell
      holds, even nothing or the opponent's piece, the same destinations
      come back, so ownership is not checked here. */
  lemma ValidMovesIgnoreOrigin(g: Grid, x: int, y: int, v: int)
    requires IsGrid(g) && InBounds(x, y)
    ensures ValidMoves(Set(g, x, y, v), x, y) == ValidMoves(g, x, y)
  {
    var h := Set(g, x, y, v);
    var w := Window(x, y, 5);
    forall i | 0 <= i < |w|
      ensures Hop(g, x, y, w[i].x, w[i].y) <==> Hop(h, x, y, w[i].x, w[i].y)
    {
    }
    HopsAgree(g, h, x, y, w);
  }

  // ---------------------------------------------------------------------------
  // Move sequences

  /** The scratch board after the moving piece goes from (x1, y1) to (x2, y2):
      the target takes the origin's value, then the origin is emptied. */
  function Shift(g: Grid, x1: int, y1: int, x2: int, y2: int): (r: Grid)
    requires IsGrid(g) && InBounds(x1, y1) && InBounds(x2, y2)
    ensures IsGrid(r)
  {
    Set(Set(g, x2, y2, At(g, x1, y1)), x1, y1, Empty)
  }

  /** The waypoints coords[i..] (x, y pairs) are a chain of hops from (x, y)
      on the scratch board g, the piece moving along as each hop is taken. */
  predicate ChainOk(g: Grid, x: int, y: int, coords: seq<int>, i: nat)
    requires IsGrid(g) && InBounds(x, y)
    requires i <= |coords| && (|coords| - i) % 2 == 0
    decreases |coords| - i
  {
    i == |coords| ||
    (Hop(g, x, y, coords[i], coords[i + 1]) &&
     ChainOk(Shift(g, x, y, coords[i], coords[i + 1]), coords[i], coords[i + 1], coords, i + 2))
  }

  /** One step of ChainOk: the chain from coords[i..] holds iff its first hop
      is allowed and the rest holds on the board with the piece moved. */
  lemma ChainOkStep(g: Grid, x: int, y: int, coords: seq<int>, i: nat)
    requires IsGrid(g) && InBounds(x, y)
    requires i < |coords| && (|coords| - i) % 2 == 0
    ensures ChainOk(g, x, y, coords, i) <==>
              Hop(g, x, y, coords[i], coords[i + 1]) &&
              ChainOk(Shift(g, x, y, coords[i], coords[i + 1]), coords[i], coords[i + 1], coords, i + 2)
  {
  }

  /** A move sequence is accepted: at least two points, an even number of
      coordinates, a start cell on the board holding the player's piece, and
      a chain of hops from it. */
  predicate SequenceOk(g: Grid, coords: seq<int>, player: int)
    requires IsGrid(g)
  {
    |coords| >= 4 && |coords| % 2 == 0 &&
    InBounds(coords[0], coords[1]) && At(g, coords[0], coords[1]) == player &&
    ChainOk(g, coords[0], coords[1], coords, 2)
  }

  lemma {:induction false} ChainEndInBounds(g: Grid, x: int, y: int, coords: seq<int>, i: nat)
    requires IsGrid(g) && InBounds(x, y)
    requires 2 <= i <= |coords| && (|coords| - i) % 2 == 0
    requires coords[i - 2] == x && coords[i - 1] == y
    requires ChainOk(g, x, y, coords, i)
    ensures InBounds(coords[|coords| - 2], coords[|coords| - 1])
    decreases |coords| - i
  {
    if i < |coords| {
      ChainEndInBounds(Shift(g, x, y, coords[i], coords[i + 1]), coords[i], coords[i + 1], coords, i + 2);
    }
  }

  /** Commit of an accepted sequence: the start cell is emptied first, then the
      piece is put on the final cell. */
  function Commit(g: Grid, xs: int, ys: int, xf: int, yf: int): (r: Grid)
    requires IsGrid(g) && InBounds(xs, ys) && InBounds(xf, yf)
    ensures IsGrid(r)
  {
    Set(Set(g, xs, ys, Empty), xf, yf, At(g, xs, ys))
  }

  /** Outcome of a move sequence: whether it is accepted, and the board after. */
  function ApplySequence(g: Grid, coords: seq<int>, player: int): (r: (bool, Grid))
    requires IsGrid(g)
    ensures IsGrid(r.1)
  {
    if SequenceOk(g, coords, player) then
      ChainEndInBounds(g, coords[0], coords[1], coords, 2);
      (true, Commit(g, coords[0], coords[1], coords[|coords| - 2], coords[|coords| - 1]))
    else
      (false, g)
  }

  /** The rejections of a move sequence: too few or an odd number of
      coordinates, a start off the board or not holding the player's piece,
      or a first hop that is not allowed; a rejected sequence leaves the
      board as it was, and only a sequence meeting SequenceOk is accepted. */
  lemma Rejections(g: Grid, coords: seq<int>, player: int)
    requires IsGrid(g)
    ensures ApplySequence(g, coords, player).0 <==> SequenceOk(g, coords, player)
    ensures !ApplySequence(g, coords, player).0 ==> ApplySequence(g, coords, player).1 == g
    ensures |coords| < 4 || |coords| % 2 != 0 ==> ApplySequence(g, coords, player) == (false, g)
    ensures |coords| >= 4 && (!InBounds(coords[0], coords[1]) || At(g, coords[0], coords[1]) != player) ==>
              ApplySequence(g, coords, player) == (false, g)
    ensures |coords| >= 4 && |coords| % 2 == 0 && InBounds(coords[0], coords[1]) &&
            !Hop(g, coords[0], coords[1], coords[2], coords[3]) ==>
              ApplySequence(g, coords, player) == (false, g)
  {
  }

  /** The same outcome with the source's commit order: the real board is
      updated like one scratch step, the final cell first receiving the start
      cell's value and the start cell then being emptied. */
  function ApplySequenceAsWritten(g: Grid, coords: seq<int>, player: int): (r: (bool, Grid))
    requires IsGrid(g)
    ensures IsGrid(r.1)
  {
    if SequenceOk(g, coords, player) then
      ChainEndInBounds(g, coords[0], coords[1], coords, 2);
      (true, Shift(g, coords[0], coords[1], coords[|coords| - 2], coords[|coords| - 1]))
    else
      (false, g)
  }

  /** While a chain is being checked, the scratch board is the real board g0
      with the piece lifted from (xs, ys) and standing on (x, y). */
  ghost predicate Relocated(g0: Grid, t: Grid, xs: int, ys: int, x: int, y: int)
    requires IsGrid(g0) && IsGrid(t) && InBounds(xs, ys)
  {
    forall yy, xx :: InBounds(xx, yy) ==>
      At(t, xx, yy) == (if xx == x && yy == y then At(g0, xs, ys)
                        else if xx == xs && yy == ys then Empty
                        else At(g0, xx, yy))
  }

  /** The last waypoint of an accepted chain is the start cell or a cell that
      is empty on the real board. */
  lemma {:induction false} ChainLandsOnEmpty(g0: Grid, t: Grid, xs: int, ys: int, x: int, y: int, coords: seq<int>, i: nat)
    requires IsGrid(g0) && IsGrid(t) && InBounds(xs, ys) && InBounds(x, y)
    requires Relocated(g0, t, xs, ys, x, y)
    requires (x == xs && y == ys) || At(g0, x, y) == Empty
    requires 2 <= i < |coords| && (|coords| - i) % 2 == 0
    requires ChainOk(t, x, y, coords, i)
    ensures InBounds(coords[|coords| - 2], coords[|coords| - 1])
    ensures var xf, yf := coords[|coords| - 2], coords[|coords| - 1];
            (xf == xs && yf == ys) || At(g0, xf, yf) == Empty
    decreases |coords| - i
  {
    var nx, ny := coords[i], coords[i + 1];
    HopIsNear(t, x, y, nx, ny);
    if i + 2 < |coords| {
      var t' := Shift(t, x, y, nx, ny);
      assert Relocated(g0, t', xs, ys, nx, ny);
      ChainLandsOnEmpty(g0, t', xs, ys, nx, ny, coords, i + 2);
    }
  }

  /** An accepted sequence changes the board in exactly two cells: the start
      cell is emptied and the final cell, which was empty, receives the
      player's piece. A chain that ends on its start cell leaves the board as
      it was. */
  lemma ApplyChangesTwoCells(g: Grid, coords: seq<int>, player: int)
    requires IsGrid(g) && SequenceOk(g, coords, player)
    ensures InBounds(coords[|coords| - 2], coords[|coords| - 1])
    ensures var r := ApplySequence(g, coords, player);
            var xs, ys, xf, yf := coords[0], coords[1], coords[|coords| - 2], coords[|coords| - 1];
            r.0 &&
            At(r.1, xf, yf) == player &&
            (xf != xs || yf != ys ==> At(g, xf, yf) == Empty && At(r.1, xs, ys) == Empty) &&
            (forall yy, xx :: InBounds(xx, yy) && (xx != xs || yy != ys) && (xx != xf || yy != yf) ==>
               At(r.1, xx, yy) == At(g, xx, yy)) &&
            (xf == xs && yf == ys ==> r.1 == g)
  {
    var xs, ys := coords[0], coords[1];
    assert Relocated(g, g, xs, ys, xs, ys);
    ChainLandsOnEmpty(g, g, xs, ys, xs, ys, coords, 2);
    var xf, yf := coords[|coords| - 2], coords[|coords| - 1];
    var r := ApplySequence(g, coords, player);
    if xf == xs && yf == ys {
      GridExt(r.1, g);
    }
  }

  /** No capture: an application, accepted or not, keeps the number of cells
      holding each value. */
  lemma ApplyPreservesCounts(g: Grid, coords: seq<int>, player: int, v: int)
    requires IsGrid(g)
    ensures Count(ApplySequence(g, coords, player).1, v) == Count(g, v)
  {
    if SequenceOk(g, coords, player) {
      ApplyChangesTwoCells(g, coords, player);
      var xs, ys, xf, yf := coords[0], coords[1], coords[|coords| - 2], coords[|coords| - 1];
      if xf != xs || yf != ys {
        var g1 := Set(g, xs, ys, Empty);
        CountSet(g, xs, ys, Empty, v);
        CountSet(g1, xf, yf, player, v);
      }
    }
  }

  /** The source's commit order agrees with the corrected one unless the chain
      ends on its start cell; then the start cell is emptied and the piece is
      gone. */
  lemma AsWrittenDiffersOnlyOnReturn(g: Grid, coords: seq<int>, player: int)
    requires IsGrid(g) && SequenceOk(g, coords, player)
    ensures InBounds(coords[0], coords[1])
    ensures var xs, ys, xf, yf := coords[0], coords[1], coords[|coords| - 2], coords[|coords| - 1];
            (xf != xs || yf != ys ==> ApplySequenceAsWritten(g, coords, player) == ApplySequence(g, coords, player)) &&
            (xf == xs && yf == ys ==> ApplySequenceAsWritten(g, coords, player) == (true, Set(g, xs, ys, Empty)))
  {
    ChainEndInBounds(g, coords[0], coords[1], coords, 2);
    var xs, ys, xf, yf := coords[0], coords[1], coords[|coords| - 2], coords[|coords| - 1];
    var a, b := ApplySequenceAsWritten(g, coords, player).1, ApplySequence(g, coords, player).1;
    if xf != xs || yf != ys {
      GridExt(a, b);
    } else {
      GridExt(a, Set(g, xs, ys, Empty));
    }
  }

  /** On the starting board player 1 steps from (3,0) to (4,0) and back to
      (3,0). The sequence is accepted; with the source's commit order player 1
      is left with nine pieces, with the corrected order with ten. */
  lemma AsWrittenLosesPiece()
    ensures SequenceOk(InitialGrid(), [3, 0, 4, 0, 3, 0], 1)
    ensures ApplySequenceAsWritten(InitialGrid(), [3, 0, 4, 0, 3, 0], 1).0
    ensures Count(ApplySequenceAsWritten(InitialGrid(), [3, 0, 4, 0, 3, 0], 1).1, 1) == 9
    ensures Count(ApplySequence(InitialGrid(), [3, 0, 4, 0, 3, 0], 1).1, 1) == 10
  {
    var g, coords := InitialGrid(), [3, 0, 4, 0, 3, 0];
    assert Hop(g, 3, 0, 4, 0);
    var t := Shift(g, 3, 0, 4, 0);
    assert Hop(t, 4, 0, 3, 0);
    assert ChainOk(Shift(t, 4, 0, 3, 0), 3, 0, coords, 6);
    assert ChainOk(g, 3, 0, coords, 2);
    AsWrittenDiffersOnlyOnReturn(g, coords, 1);
    InitialPieceCounts();
    CountSet(g, 3, 0, Empty, 1);
    ApplyPreservesCounts(g, coords, 1, 1);
  }

  /** On the starting board, player 1's step from (3,0) to the empty (4,0) is
      accepted and moves the piece. */
  lemma FreshBoardStep()
    ensures ApplySequence(InitialGrid(), [3, 0, 4, 0], 1) == (true, Set(Set(InitialGrid(), 3, 0, Empty), 4, 0, 1))
  {
    var g := InitialGrid();
    assert Hop(g, 3, 0, 4, 0);
    assert ChainOk(Shift(g, 3, 0, 4, 0), 4, 0, [3, 0, 4, 0], 4);
  }

  /** On the starting board, (3,0) to (5,0) is rejected: the midpoint (4,0) is empty. */
  lemma FreshBoardJumpOverEmpty()
    ensures ApplySequence(InitialGrid(), [3, 0, 5, 0], 1) == (false, InitialGrid())
  {
    assert !Hop(InitialGrid(), 3, 0, 5, 0);
  }

  // ---------------------------------------------------------------------------
  // Winning

  /** Every cell of the chosen base holds `player`. */
  ghost predicate BaseFilled(g: Grid, player: int, bottomRight: bool)
    requires IsGrid(g)
  {
    forall y, x :: InBounds(x, y) && InBase(x, y, bottomRight) ==> At(g, x, y) == player
  }

  /** Player 1 wins by filling the bottom-right base; any other player value
      is checked against the top-left base. */
  ghost predicate Won(g: Grid, player: int)
    requires IsGrid(g)
  {
    if player == 1 then BaseFilled(g, 1, true) else BaseFilled(g, player, false)
  }

  /** Nobody has won on the starting board. */
  lemma InitialNotWon()
    ensures !Won(InitialGrid(), 1) && !Won(InitialGrid(), 2)
  {
    assert At(InitialGrid(), 7, 7) == 2;
    assert At(InitialGrid(), 0, 0) == 1;
  }

  /** A player's move never completes the other side's win: the only cells it
      changes end up empty or holding the mover's piece. */
  lemma MoveKeepsOpponentUnwon(g: Grid, coords: seq<int>, player: int, other: int)
    requires IsGrid(g) && other != player && other != Empty
    ensures Won(ApplySequence(g, coords, player).1, other) ==> Won(g, other)
  {
    var r := ApplySequence(g, coords, player).1;
    if SequenceOk(g, coords, player) && Won(r, other) {
      ApplyChangesTwoCells(g, coords, player);
      var bottomRight := other == 1;
      assert BaseFilled(r, other, bottomRight);
      forall y, x | InBounds(x, y) && InBase(x, y, bottomRight)
        ensures At(g, x, y) == other
      {
        assert At(r, x, y) == other;
      }
    }
  }
}

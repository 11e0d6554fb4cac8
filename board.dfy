/** The board object: an 8x8 array of cell values (0 empty, 1 and 2 the
    players' pieces) with the operations the session drives. Each method is
    proved against the rules of rules.dfy through the ghost field `cells`,
    which holds the array's contents as a grid value. */
module Board {
  import opened Geometry
  import opened Rules

  /** The array `b` holds, cell for cell, the grid value `g`. */
  ghost predicate Mirrors(b: array2<int>, g: Grid)
    reads b
  {
    b.Length0 == Size && b.Length1 == Size && IsGrid(g) &&
    forall y, x {:trigger b[y, x]} :: 0 <= y < Size && 0 <= x < Size ==> b[y, x] == g[y][x]
  }

  /** Every cell of the chosen base that comes before (x, y) in row-major
      order holds `player`. */
  ghost predicate FilledBefore(g: Grid, player: int, bottomRight: bool, y: int, x: int)
    requires IsGrid(g)
  {
    forall yy, xx :: InBounds(xx, yy) && InBase(xx, yy, bottomRight) && (yy < y || (yy == y && xx < x)) ==>
      At(g, xx, yy) == player
  }

  /** 1 + 2 + ... + n: the number of base cells in the n shortest base rows. */
  ghost function Triangle(n: nat): nat {
    if n == 0 then 0 else Triangle(n - 1) + n
  }

  class HalmaBoard {
    var grid: array2<int>
    ghost var cells: Grid

    ghost predicate Valid()
      reads this, grid
    {
      Mirrors(grid, cells)
    }

    /** A new board with the starting layout. */
    constructor ()
      ensures Valid() && fresh(grid)
      ensures cells == InitialGrid()
    {
      grid := new int[Size, Size]((y, x) => Empty);
      new;
      InitializePieces();
    }

    /** Fills both bases of an empty board. */
    method InitializePieces()
      requires grid.Length0 == Size && grid.Length1 == Size
      requires forall y, x :: 0 <= y < Size && 0 <= x < Size ==> grid[y, x] == Empty
      modifies this, grid
      ensures Valid() && grid == old(grid)
      ensures cells == InitialGrid()
    {
      // Player 1: top-left corner.
      for y := 0 to 4
        invariant forall yy, xx :: 0 <= yy < Size && 0 <= xx < Size ==>
          grid[yy, xx] == (if yy < y && InTopLeftBase(xx, yy) then 1 else Empty)
        modifies grid
      {
        for x := 0 to 4 - y
          invariant forall yy, xx :: 0 <= yy < Size && 0 <= xx < Size ==>
            grid[yy, xx] == (if (yy < y && InTopLeftBase(xx, yy)) || (yy == y && xx < x) then 1 else Empty)
          modifies grid
        {
          grid[y, x] := 1;
        }
      }
      // Player 2: bottom-right corner.
      var startRow := Size - 4;
      for y := startRow to Size
        invariant forall yy, xx :: 0 <= yy < Size && 0 <= xx < Size ==>
          grid[yy, xx] == (if InTopLeftBase(xx, yy) then 1
                           else if yy < y && InBottomRightBase(xx, yy) then 2
                           else Empty)
        modifies grid
      {
        var count := y - startRow + 1;
        var startX := Size - count;
        for x := startX to Size
          invariant forall yy, xx :: 0 <= yy < Size && 0 <= xx < Size ==>
            grid[yy, xx] == (if InTopLeftBase(xx, yy) then 1
                             else if (yy < y && InBottomRightBase(xx, yy)) || (yy == y && startX <= xx < x) then 2
                             else Empty)
          modifies grid
        {
          grid[y, x] := 2;
        }
      }
      cells := InitialGrid();
    }

    /** A board with the same cells as `original` in storage of its own. */
    constructor Copy(original: HalmaBoard)
      requires original.Valid()
      ensures Valid() && fresh(grid)
      ensures cells == original.cells
    {
      var copy := HalmaBoard.CopyGrid(original.grid, original.cells);
      grid := copy;
      cells := original.cells;
    }

    /** A fresh array with the same contents as `src`, row by row. */
    static method CopyGrid(src: array2<int>, ghost g: Grid) returns (dst: array2<int>)
      requires Mirrors(src, g)
      ensures fresh(dst) && Mirrors(dst, g)
    {
      var s := src.Length0;
      dst := new int[s, s]((y, x) => Empty);
      for i := 0 to s
        invariant forall yy, xx :: 0 <= yy < i && 0 <= xx < s ==> dst[yy, xx] == src[yy, xx]
      {
        for j := 0 to s
          invariant forall yy, xx :: 0 <= yy < i && 0 <= xx < s ==> dst[yy, xx] == src[yy, xx]
          invariant forall xx :: 0 <= xx < j ==> dst[i, xx] == src[i, xx]
        {
          dst[i, j] := src[i, j];
        }
      }
    }

    /** The board's contents as a value, row by row: what a peer receives
        when the board object is serialised into a board update. */
    method Snapshot() returns (g: Grid)
      requires Valid()
      ensures g == cells
    {
      g := [];
      for y := 0 to Size
        invariant |g| == y && forall yy :: 0 <= yy < y ==> g[yy] == cells[yy]
      {
        var row := [];
        for x := 0 to Size
          invariant row == cells[y][..x]
        {
          row := row + [grid[y, x]];
        }
        assert row == cells[y];
        g := g + [row];
      }
    }

    /** The piece at (x, y); 0 off the board. */
    function GetPieceAt(x: int, y: int): (v: int)
      reads this, grid
      requires Valid()
      ensures InBounds(x, y) ==> v == At(cells, x, y)
      ensures !InBounds(x, y) ==> v == Empty
    {
      if !InBounds(x, y) then Empty else grid[y, x]
    }

    /** The value of cell (x, y); -1 off the board. */
    function GetCell(x: int, y: int): (v: int)
      reads this, grid
      requires Valid()
      ensures InBounds(x, y) ==> v == At(cells, x, y)
      ensures !InBounds(x, y) ==> v == -1
    {
      if InBounds(x, y) then grid[y, x] else -1
    }

    /** Writes one cell; a write off the board is ignored. */
    method SetCell(x: int, y: int, value: int)
      requires Valid()
      modifies this, grid
      ensures Valid() && grid == old(grid)
      ensures InBounds(x, y) ==> cells == Set(old(cells), x, y, value)
      ensures !InBounds(x, y) ==> cells == old(cells)
    {
      if InBounds(x, y) {
        grid[y, x] := value;
        cells := Set(cells, x, y, value);
      }
    }

    /** Destinations one hop from (x, y), in row-major order. `player` is not
        consulted and the owner of (x, y) is not checked. */
    method GetValidMoves(player: int, x: int, y: int) returns (moves: seq<Point>)
      requires Valid()
      ensures moves == ValidMoves(cells, x, y)
    {
      moves := [];
      for dy := -2 to 3
        invariant moves == Hops(cells, x, y, Window(x, y, dy + 2))
      {
        var found := ScanRow(x, y, dy);
        HopsAppend(cells, x, y, Window(x, y, dy + 2), WindowRow(x, y + dy));
        moves := moves + found;
      }
    }

    /** The inner loop of getValidMoves: scans the offsets dx = -2..2 of row
        y + dy, left to right, and lists each one-hop destination. */
    method ScanRow(x: int, y: int, dy: int) returns (found: seq<Point>)
      requires Valid()
      ensures found == Hops(cells, x, y, WindowRow(x, y + dy))
    {
      found := [];
      for dx := -2 to 3
        invariant found == RowHops(cells, x, y, y + dy, dx + 2)
      {
        var hit := IsHop(x, y, dx, dy);
        if hit {
          found := found + [Point(x + dx, y + dy)];
        }
      }
      RowHopsScan(cells, x, y, y + dy, 5);
      assert WindowRow(x, y + dy)[..5] == WindowRow(x, y + dy);
    }

    /** The body of the scan in getValidMoves for the offset (dx, dy): skips
        the origin, cells off the board and occupied cells, accepts a
        neighbour, and accepts a two-cell offset along a row, column or
        diagonal whose midpoint holds a piece. */
    method IsHop(x: int, y: int, dx: int, dy: int) returns (hit: bool)
      requires Valid()
      ensures hit == Hop(cells, x, y, x + dx, y + dy)
    {
      if dx == 0 && dy == 0 {
        return false;
      }
      var nx, ny := x + dx, y + dy;
      if !InBounds(nx, ny) {
        return false;
      }
      if grid[ny, nx] != Empty {
        return false;
      }
      var max := Max(Abs(dx), Abs(dy));
      if max == 1 {
        return true;
      } else if max == 2 {
        var isJump := (Abs(dx) == 2 && Abs(dy) == 0) ||
                      (Abs(dx) == 0 && Abs(dy) == 2) ||
                      (Abs(dx) == 2 && Abs(dy) == 2);
        if !isJump {
          return false;
        }
        var mx, my := x + dx / 2, y + dy / 2;
        assert mx == x + (nx - x) / 2 && my == y + (ny - y) / 2;
        return InBounds(mx, my) && grid[my, mx] != Empty;
      }
      return false;
    }

    /** One step of a move sequence on the scratch array `b`, whose contents
        are `g`: accepted exactly when (x2, y2) is one hop from (x1, y1). */
    static method ValidStep(b: array2<int>, ghost g: Grid, x1: int, y1: int, x2: int, y2: int) returns (ok: bool)
      requires Mirrors(b, g) && InBounds(x1, y1)
      ensures ok == Hop(g, x1, y1, x2, y2)
    {
      if !InBounds(x2, y2) {
        return false;
      }
      if b[y2, x2] != Empty {
        return false;
      }
      var dx, dy := x2 - x1, y2 - y1;
      var adx, ady := Abs(dx), Abs(dy);
      if adx <= 1 && ady <= 1 && adx + ady > 0 {
        return true;
      }
      if (adx == 0 && ady == 2) || (adx == 2 && ady == 0) || (adx == 2 && ady == 2) {
        var midX, midY := x1 + dx / 2, y1 + dy / 2;
        if b[midY, midX] != Empty {
          return true;
        }
      }
      return false;
    }

    /** Plays the hops coords[2..] from (xStart, yStart) on the scratch array
        `temp`, whose contents are `g`, moving the piece after each accepted
        hop and giving up at the first hop that is not allowed. */
    static method SimulateChain(temp: array2<int>, ghost g: Grid, coords: seq<int>, xStart: int, yStart: int)
      returns (ok: bool)
      requires Mirrors(temp, g) && InBounds(xStart, yStart)
      requires |coords| >= 2 && |coords| % 2 == 0 && coords[0] == xStart && coords[1] == yStart
      modifies temp
      ensures ok == ChainOk(g, xStart, yStart, coords, 2)
    {
      var currentX, currentY := xStart, yStart;
      ghost var scratch := g;
      var i := 2;
      ghost var pairs := (|coords| - 2) / 2;
      while i < |coords|
        invariant 2 <= i <= |coords| && |coords| == i + 2 * pairs
        invariant currentX == coords[i - 2] && currentY == coords[i - 1] && InBounds(currentX, currentY)
        invariant Mirrors(temp, scratch)
        invariant ChainOk(g, xStart, yStart, coords, 2) == ChainOk(scratch, currentX, currentY, coords, i)
      {
        var stepOk;
        ghost var next;
        stepOk, next := Advance(temp, scratch, currentX, currentY, coords, i);
        if !stepOk {
          return false;
        }
        scratch := next;
        currentX, currentY := coords[i], coords[i + 1];
        i, pairs := i + 2, pairs - 1;
      }
      return true;
    }

    /** One round of the chain loop: checks the hop from (x, y) to the
        waypoint coords[i], coords[i + 1] on the scratch array and, when it is
        allowed, moves the piece there; the scratch contents become `next`. */
    static method Advance(temp: array2<int>, ghost scratch: Grid, x: int, y: int, coords: seq<int>, i: nat)
      returns (stepOk: bool, ghost next: Grid)
      requires Mirrors(temp, scratch) && InBounds(x, y)
      requires i < |coords| && (|coords| - i) % 2 == 0
      modifies temp
      ensures stepOk == Hop(scratch, x, y, coords[i], coords[i + 1])
      ensures stepOk ==> InBounds(coords[i], coords[i + 1]) && Mirrors(temp, next) &&
                         ChainOk(scratch, x, y, coords, i) == ChainOk(next, coords[i], coords[i + 1], coords, i + 2)
      ensures !stepOk ==> !ChainOk(scratch, x, y, coords, i)
    {
      next := scratch;
      var nextX, nextY := coords[i], coords[i + 1];
      stepOk := ValidStep(temp, scratch, x, y, nextX, nextY);
      ChainOkStep(scratch, x, y, coords, i);
      if stepOk {
        ShiftPiece(temp, scratch, x, y, nextX, nextY);
        next := Shift(scratch, x, y, nextX, nextY);
      }
    }

    /** Moves the piece of the scratch array from (x1, y1) to (x2, y2). */
    static method ShiftPiece(b: array2<int>, ghost g: Grid, x1: int, y1: int, x2: int, y2: int)
      requires Mirrors(b, g) && InBounds(x1, y1) && InBounds(x2, y2)
      modifies b
      ensures Mirrors(b, Shift(g, x1, y1, x2, y2))
    {
      b[y2, x2] := b[y1, x1];
      b[y1, x1] := Empty;
    }

    /** Validates the whole sequence coords = [x1, y1, x2, y2, ...] on a
        scratch copy, then moves the player's piece from the first point to
        the last; a rejected sequence leaves the board untouched. */
    method MoveSequence(coords: seq<int>, player: int) returns (ok: bool)
      requires Valid()
      modifies this, grid
      ensures Valid() && grid == old(grid)
      ensures (ok, cells) == ApplySequence(old(cells), coords, player)
    {
      if |coords| < 4 || |coords| % 2 != 0 {
        return false;
      }
      var xStart, yStart := coords[0], coords[1];
      if !InBounds(xStart, yStart) || grid[yStart, xStart] != player {
        return false;
      }
      var temp := CopyGrid(grid, cells);
      var chainOk := SimulateChain(temp, cells, coords, xStart, yStart);
      if !chainOk {
        return false;
      }
      ChainEndInBounds(cells, xStart, yStart, coords, 2);
      var xFinal, yFinal := coords[|coords| - 2], coords[|coords| - 1];
      assert SequenceOk(cells, coords, player);
      CommitMove(xStart, yStart, xFinal, yFinal);
      return true;
    }

    /** Moves the piece at (xs, ys) to (xf, yf): the start is cleared before
        the destination is written, so a chain back to its start keeps its piece. */
    method CommitMove(xs: int, ys: int, xf: int, yf: int)
      requires Valid() && InBounds(xs, ys) && InBounds(xf, yf)
      modifies this, grid
      ensures Valid() && grid == old(grid)
      ensures cells == Commit(old(cells), xs, ys, xf, yf)
    {
      var piece := grid[ys, xs];
      grid[ys, xs] := Empty;
      grid[yf, xf] := piece;
      cells := Commit(cells, xs, ys, xf, yf);
    }

    /** Whether `player` has won: player 1 must fill the bottom-right base,
        any other value the top-left base. */
    method HasWinner(player: int) returns (won: bool)
      requires Valid()
      ensures won <==> Won(cells, player)
    {
      if player == 1 {
        won := IsBaseFull(player, true);
      } else {
        won := IsBaseFull(player, false);
      }
    }

    /** Counts the cells of one base that hold `player`; full when all ten do. */
    method IsBaseFull(player: int, checkBottomRight: bool) returns (full: bool)
      requires Valid()
      ensures full <==> BaseFilled(cells, player, checkBottomRight)
    {
      var countTarget := 10;
      var count := 0;
      ghost var seen := 0;
      if checkBottomRight {
        var startRow := Size - 4;
        for y := startRow to Size
          invariant seen == Triangle(y - startRow) && count <= seen
          invariant count == seen <==> FilledBefore(cells, player, true, y, 0)
        {
          var c := y - startRow + 1;
          var startX := Size - c;
          for x := startX to Size
            invariant seen == Triangle(y - startRow) + (x - startX) && count <= seen
            invariant count == seen <==> FilledBefore(cells, player, true, y, x)
          {
            assert InBase(x, y, true);
            assert FilledBefore(cells, player, true, y, x + 1) <==>
              FilledBefore(cells, player, true, y, x) && At(cells, x, y) == player;
            if grid[y, x] == player {
              count := count + 1;
            }
            seen := seen + 1;
          }
          assert FilledBefore(cells, player, true, y, Size) == FilledBefore(cells, player, true, y + 1, 0);
        }
        assert FilledBefore(cells, player, true, Size, 0) == BaseFilled(cells, player, true);
        assert seen == Triangle(4) == 10;
      } else {
        for y := 0 to 4
          invariant seen == 10 - Triangle(4 - y) && count <= seen
          invariant count == seen <==> FilledBefore(cells, player, false, y, 0)
        {
          for x := 0 to 4 - y
            invariant seen == 10 - Triangle(4 - y) + x && count <= seen
            invariant count == seen <==> FilledBefore(cells, player, false, y, x)
          {
            assert InBase(x, y, false);
            assert FilledBefore(cells, player, false, y, x + 1) <==>
              FilledBefore(cells, player, false, y, x) && At(cells, x, y) == player;
            if grid[y, x] == player {
              count := count + 1;
            }
            seen := seen + 1;
          }
          assert FilledBefore(cells, player, false, y, 4 - y) == FilledBefore(cells, player, false, y + 1, 0);
        }
        assert FilledBefore(cells, player, false, 4, 0) == BaseFilled(cells, player, false);
        assert seen == 10 - Triangle(0) == 10;
      }
      full := count == countTarget;
    }
  }
}

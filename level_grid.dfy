/** The level grid: width, height and a row-major array of cell codes, read
    once from the level file's integer tokens and never changed afterwards. */
module LevelGrid {

  /** Cell codes (`EntityType`). The loader casts any integer to a code
      without checking it, so a cell is an `int` and may hold other values. */
  const Tunnel: int := 0
  const WallCell: int := 1
  const PacmanCell: int := 2
  const GhostCell: int := 3
  const PelletCell: int := 4

  datatype Grid = Grid(width: int, height: int, cells: seq<int>) {
    /** The grid holds exactly width * height cells. */
    ghost predicate Valid() {
      width >= 0 && height >= 0 && |cells| == width * height
    }
  }

  /** A cell's column i and row j. */
  datatype Coord = Coord(i: int, j: int)

  function Min(a: int, b: int): int { if a <= b then a else b }
  function Max(a: int, b: int): int { if a >= b then a else b }

  /** The flat index `get` reads: each coordinate is clamped with
      `max(0, min(bound, v))`, where the bound is the width or the height
      itself, not width - 1 or height - 1. */
  function RawIndex(g: Grid, x: int, y: int): int {
    Max(0, Min(g.height, y)) * g.width + Max(0, Min(g.width, x))
  }

  /** `Level::get` as written. Its clamp does not keep the index inside the
      grid, so the caller must. */
  function Get(g: Grid, x: int, y: int): int
    requires 0 <= RawIndex(g, x, y) < |g.cells|
  {
    g.cells[RawIndex(g, x, y)]
  }

  /** `Level::getSize`. */
  function GetSize(g: Grid): (int, int) { (g.width, g.height) }

  /** Inside the grid the clamp is the identity and `get` reads cell y*width + x. */
  lemma {:induction false} GetInGrid(g: Grid, x: int, y: int)
    requires g.Valid()
    requires 0 <= x < g.width && 0 <= y < g.height
    ensures RawIndex(g, x, y) == y * g.width + x
    ensures 0 <= y * g.width + x < |g.cells|
    ensures Get(g, x, y) == g.cells[y * g.width + x]
  {
    assert y * g.width + x < (y + 1) * g.width;
    assert (y + 1) * g.width <= g.height * g.width by {
      MulMonotone(y + 1, g.height, g.width);
    }
  }

  lemma MulMonotone(a: int, b: int, c: nat)
    requires a <= b
    ensures a * c <= b * c
  {
  }

  /** A negative coordinate reads column 0 or row 0. */
  lemma GetNegativeClampsToZero(g: Grid, x: int, y: int)
    requires g.Valid() && g.width > 0
    requires 0 <= RawIndex(g, x, y) < |g.cells|
    ensures x < 0 ==> RawIndex(g, x, y) == RawIndex(g, 0, y) && Get(g, x, y) == Get(g, 0, y)
    ensures y < 0 ==> RawIndex(g, x, y) == RawIndex(g, x, 0) && Get(g, x, y) == Get(g, x, 0)
  {
  }

  /** The upper clamp lets x == width through: it reads the first cell of the
      next row. */
  lemma GetWidthAliasesNextRow(g: Grid, y: int)
    requires g.Valid() && g.width > 0
    requires 0 <= y && y + 1 < g.height
    ensures RawIndex(g, g.width, y) == RawIndex(g, 0, y + 1)
    ensures 0 <= RawIndex(g, 0, y + 1) < |g.cells|
    ensures Get(g, g.width, y) == Get(g, 0, y + 1)
  {
    GetInGrid(g, 0, y + 1);
  }

  /** The upper clamp lets y == height through, and for every x >= 0 that
      reads at or past the end of the grid: no caller can meet `Get`'s
      precondition there. */
  lemma GetHeightReadsPastEnd(g: Grid, x: int)
    requires g.Valid() && 0 <= x
    ensures RawIndex(g, x, g.height) >= |g.cells|
  {
  }

  /** A concrete instance: in a 2 x 2 grid, get(0, 2) would read cell 4 of 4. */
  lemma GetPastEndExample()
    ensures RawIndex(Grid(2, 2, [1, 0, 0, 1]), 0, 2) == 4
    ensures |Grid(2, 2, [1, 0, 0, 1]).cells| == 4
  {
  }

  /** Clamping to [0, hi] with 0 <= hi. */
  function ClampTo(v: int, hi: int): (r: int)
    requires 0 <= hi
    ensures 0 <= r <= hi
    ensures 0 <= v <= hi ==> r == v
    ensures v < 0 ==> r == 0
    ensures v > hi ==> r == hi
  {
    Max(0, Min(hi, v))
  }

  /** `get` as the level's design intends it: coordinates clamped to
      [0, width - 1] x [0, height - 1], so every query reads the nearest cell
      inside the grid. */
  function ClampedGet(g: Grid, x: int, y: int): (c: int)
    requires g.Valid() && g.width > 0 && g.height > 0
    ensures 0 <= x < g.width && 0 <= y < g.height ==>
              0 <= RawIndex(g, x, y) < |g.cells| && c == Get(g, x, y)
  {
    var cx, cy := ClampTo(x, g.width - 1), ClampTo(y, g.height - 1);
    GetInGrid(g, cx, cy);
    Get(g, cx, cy)
  }

  /** Outside the grid the corrected query answers with the nearest border
      cell, and never leaves the grid. */
  lemma ClampedGetNearestCell(g: Grid, x: int, y: int)
    requires g.Valid() && g.width > 0 && g.height > 0
    ensures x >= g.width ==> ClampedGet(g, x, y) == ClampedGet(g, g.width - 1, y)
    ensures x < 0 ==> ClampedGet(g, x, y) == ClampedGet(g, 0, y)
    ensures y >= g.height ==> ClampedGet(g, x, y) == ClampedGet(g, x, g.height - 1)
    ensures y < 0 ==> ClampedGet(g, x, y) == ClampedGet(g, x, 0)
  {
  }

  /** The level file's tokens: width, height, then at least width * height
      cell codes. */
  predicate WellFormedTokens(tokens: seq<int>) {
    |tokens| >= 2 && tokens[0] >= 0 && tokens[1] >= 0 && |tokens| >= 2 + tokens[0] * tokens[1]
  }

  /** `Level::Level`: width is read before height, the grid is sized to
      width * height, and cell k is the k-th code after the two sizes; any
      later tokens are ignored and no code is range-checked. */
  method Load(tokens: seq<int>) returns (g: Grid)
    requires WellFormedTokens(tokens)
    ensures g.Valid()
    ensures g.width == tokens[0] && g.height == tokens[1]
    ensures g.cells == tokens[2..2 + tokens[0] * tokens[1]]
  {
    var width := tokens[0];
    var height := tokens[1];
    var grid := new int[width * height];
    var k := 0;
    while k < grid.Length
      invariant 0 <= k <= grid.Length
      invariant grid[..k] == tokens[2..2 + k]
    {
      grid[k] := tokens[2 + k];
      k := k + 1;
    }
    g := Grid(width, height, grid[..]);
  }

  /** How many cells of a flat grid hold a code. */
  function Count(cells: seq<int>, code: int): (n: nat)
    ensures n <= |cells|
  {
    if |cells| == 0 then 0
    else Count(cells[..|cells| - 1], code) + (if cells[|cells| - 1] == code then 1 else 0)
  }

  /** Replacing one cell that held `code` by another code lowers its count by one. */
  lemma {:induction false} CountAfterUpdate(cells: seq<int>, p: int, code: int, other: int)
    requires 0 <= p < |cells| && cells[p] == code && other != code
    ensures Count(cells[p := other], code) == Count(cells, code) - 1
  {
    var n := |cells|;
    var u := cells[p := other];
    if p == n - 1 {
      assert u[..n - 1] == cells[..n - 1];
    } else {
      assert u[..n - 1] == cells[..n - 1][p := other];
      CountAfterUpdate(cells[..n - 1], p, code, other);
    }
  }

  /** A code is counted at least once iff some cell holds it. */
  lemma {:induction false} CountPositive(cells: seq<int>, code: int)
    ensures Count(cells, code) > 0 <==> exists k :: 0 <= k < |cells| && cells[k] == code
  {
    if |cells| > 0 {
      var n := |cells|;
      var prefix := cells[..n - 1];
      CountPositive(prefix, code);
      assert forall k :: 0 <= k < n - 1 ==> prefix[k] == cells[k];
    }
  }

  /** Cell c lies inside the grid and holds `code`. */
  predicate Holds(g: Grid, c: Coord, code: int) {
    && 0 <= c.i < g.width && 0 <= c.j < g.height
    && 0 <= RawIndex(g, c.i, c.j) < |g.cells| && Get(g, c.i, c.j) == code
  }

  /** Row-major order of cells: earlier rows first, then smaller columns. */
  predicate Before(a: Coord, b: Coord) { a.j < b.j || (a.j == b.j && a.i < b.i) }

  /** The coordinates of cells 0 .. n-1 of row j that hold `code`, left to right. */
  function RowCellsWhere(g: Grid, code: int, j: int, n: int): seq<Coord>
    requires g.Valid() && 0 <= j < g.height && 0 <= n <= g.width
  {
    if n == 0 then []
    else
      GetInGrid(g, n - 1, j);
      RowCellsWhere(g, code, j, n - 1) + (if Get(g, n - 1, j) == code then [Coord(n - 1, j)] else [])
  }

  /** The coordinates of the cells of rows 0 .. m-1 that hold `code`, in the
      order of the source's nested loops (row j outer, column i inner). */
  function CellsWhere(g: Grid, code: int, m: int): seq<Coord>
    requires g.Valid() && 0 <= m <= g.height
  {
    if m == 0 then [] else CellsWhere(g, code, m - 1) + RowCellsWhere(g, code, m - 1, g.width)
  }

  /** What a row scan contains: exactly the cells of the scanned part of the
      row that hold the code, in increasing column order. */
  lemma {:induction false} RowCellsWhereSpec(g: Grid, code: int, j: int, n: int)
    requires g.Valid() && 0 <= j < g.height && 0 <= n <= g.width
    ensures forall c :: c in RowCellsWhere(g, code, j, n) <==>
              c.j == j && 0 <= c.i < n && 0 <= RawIndex(g, c.i, j) < |g.cells| && Get(g, c.i, j) == code
    ensures forall k, l :: 0 <= k < l < |RowCellsWhere(g, code, j, n)| ==>
              RowCellsWhere(g, code, j, n)[k].i < RowCellsWhere(g, code, j, n)[l].i
  {
    if n > 0 {
      RowCellsWhereSpec(g, code, j, n - 1);
      GetInGrid(g, n - 1, j);
      forall c: Coord | c.j == j && 0 <= c.i < n
        ensures 0 <= RawIndex(g, c.i, j) < |g.cells|
      {
        GetInGrid(g, c.i, j);
      }
    }
  }

  /** What a grid scan contains: exactly the in-grid cells of the scanned rows
      that hold the code, strictly increasing in row-major order. */
  lemma {:induction false} CellsWhereSpec(g: Grid, code: int, m: int)
    requires g.Valid() && 0 <= m <= g.height
    ensures forall c :: c in CellsWhere(g, code, m) <==>
              0 <= c.i < g.width && 0 <= c.j < m && 0 <= RawIndex(g, c.i, c.j) < |g.cells| &&
              Get(g, c.i, c.j) == code
    ensures forall k, l :: 0 <= k < l < |CellsWhere(g, code, m)| ==>
              Before(CellsWhere(g, code, m)[k], CellsWhere(g, code, m)[l])
  {
    if m > 0 {
      CellsWhereSpec(g, code, m - 1);
      RowCellsWhereSpec(g, code, m - 1, g.width);
      var prev, row := CellsWhere(g, code, m - 1), RowCellsWhere(g, code, m - 1, g.width);
      assert CellsWhere(g, code, m) == prev + row;
      forall k, l | 0 <= k < l < |prev + row|
        ensures Before((prev + row)[k], (prev + row)[l])
      {
        if l >= |prev| && k < |prev| {
          assert prev[k] in prev;
          assert row[l - |prev|] in row;
        }
      }
    }
  }
}

/** The simulator class of DeepSeek/script.js: a boolean grid whose edges
    wrap around, and a list of snapshots with a cursor. */
module DeepSeekScript {
  import opened Life

  /** The side of a cell in pixels. */
  const CellSize: nat := 5

  /** The offsets as (row, column) pairs: addPattern takes (dx, dy) with dx
      the column. */
  function RowMajor(offsets: seq<(int, int)>): (t: seq<(int, int)>)
    ensures |t| == |offsets|
    ensures forall k :: 0 <= k < |offsets| ==> t[k] == (offsets[k].1, offsets[k].0)
  {
    if offsets == [] then []
    else
      var last := offsets[|offsets| - 1];
      RowMajor(offsets[..|offsets| - 1]) + [(last.1, last.0)]
  }

  /** One more offset of the pattern sets one more cell, which is on the board. */
  lemma PaintStep(grid: Grid, rows: nat, cols: nat, pattern: seq<(int, int)>, k: nat, midY: int, midX: int)
    requires Shaped(grid, rows, cols) && k < |pattern|
    requires InGrid(rows, cols, midY + pattern[k].1, midX + pattern[k].0)
    ensures var p := Marked(grid, rows, cols, RowMajor(pattern[..k]), midY, midX, true);
            var y, x := midY + pattern[k].1, midX + pattern[k].0;
            Marked(grid, rows, cols, RowMajor(pattern[..k + 1]), midY, midX, true) == p[y := p[y][x := true]]
  {
    RowMajorSnoc(pattern, k);
    MarkedSnoc(grid, rows, cols, RowMajor(pattern[..k]), midY, midX, true, (pattern[k].1, pattern[k].0));
  }

  lemma RowMajorSnoc(pattern: seq<(int, int)>, k: nat)
    requires k < |pattern|
    ensures RowMajor(pattern[..k + 1]) == RowMajor(pattern[..k]) + [(pattern[k].1, pattern[k].0)]
  {
    assert pattern[..k + 1][..k] == pattern[..k];
  }

  /** The loop of addPattern: cell (midY + dy, midX + dx) set to alive for
      every offset (dx, dy), in order. */
  method Paint(grid: Grid, rows: nat, cols: nat, pattern: seq<(int, int)>, midY: int, midX: int) returns (g: Grid)
    requires Shaped(grid, rows, cols)
    requires forall k :: 0 <= k < |pattern| ==> InGrid(rows, cols, midY + pattern[k].1, midX + pattern[k].0)
    ensures g == Marked(grid, rows, cols, RowMajor(pattern), midY, midX, true)
  {
    g := grid;
    var k := 0;
    while k < |pattern|
      invariant 0 <= k <= |pattern|
      invariant g == Marked(grid, rows, cols, RowMajor(pattern[..k]), midY, midX, true)
    {
      var dx := pattern[k].0;
      var dy := pattern[k].1;
      PaintStep(grid, rows, cols, pattern, k, midY, midX);
      g := g[midY + dy := g[midY + dy][midX + dx := true]];
      k := k + 1;
    }
    assert pattern[..|pattern|] == pattern;
  }

  class GameOfLife {
    const rows: nat
    const cols: nat
    var grid: Grid
    var running: bool
    /** The snapshots; the source keeps them as JSON strings, which are
        copies of the grid. */
    var history: seq<Grid>
    var currentStep: int
    /** Whether a mouse drag that began while stopped is in progress. */
    var painting: bool

    ghost predicate Valid()
      reads this
    {
      && Shaped(grid, rows, cols)
      && (forall k :: 0 <= k < |history| ==> Shaped(history[k], rows, cols))
      && -1 <= currentStep < |history|
    }

    /** A canvas of the given pixel size holds floor(size / 5) cells per side. */
    constructor (height: nat, width: nat)
      ensures Valid() && rows == height / CellSize && cols == width / CellSize
      ensures grid == Blank(rows, cols)
      ensures history == [] && currentStep == -1 && !running && !painting
    {
      rows := height / CellSize;
      cols := width / CellSize;
      grid := Blank(height / CellSize, width / CellSize);
      running := false;
      history := [];
      currentStep := -1;
      painting := false;
    }

    /** Every cell independently alive when its coin exceeds one half. */
    method Randomize(coins: seq<seq<real>>)
      requires Valid() && Shaped(coins, rows, cols)
      modifies this
      ensures Valid() && grid == Above(coins, rows, cols, 0.5)
      ensures history == old(history) && currentStep == old(currentStep) && running == old(running)
      ensures painting == old(painting)
    {
      grid := Above(coins, rows, cols, 0.5);
    }

    /** Every cell alive when its noise sample, taken at (i / 10, j / 10), is positive. */
    method PerlinNoise(noise: seq<seq<real>>)
      requires Valid() && Shaped(noise, rows, cols)
      modifies this
      ensures Valid() && grid == Above(noise, rows, cols, 0.0)
      ensures history == old(history) && currentStep == old(currentStep) && running == old(running)
      ensures painting == old(painting)
    {
      grid := Above(noise, rows, cols, 0.0);
    }

    /** Sets the cell (midY + dy, midX + dx) of every offset (dx, dy) to alive,
        around the middle cell; no cell is cleared. */
    method AddPattern(pattern: seq<(int, int)>)
      requires Valid()
      requires forall k :: 0 <= k < |pattern| ==>
                 InGrid(rows, cols, rows / 2 + pattern[k].1, cols / 2 + pattern[k].0)
      modifies this
      ensures Valid()
      ensures grid == Marked(old(grid), rows, cols, RowMajor(pattern), rows / 2, cols / 2, true)
      ensures history == old(history) && currentStep == old(currentStep) && running == old(running)
      ensures painting == old(painting)
    {
      grid := Paint(grid, rows, cols, pattern, rows / 2, cols / 2);
    }

    /** The next grid: born with exactly three live neighbours, kept alive
        with two; the edges wrap around. */
    method ComputeNext() returns (next: Grid)
      requires Valid()
      ensures next == NextGeneration(grid, rows, cols, Wrap)
    {
      next := Blank(rows, cols);
      var i := 0;
      while i < rows
        invariant 0 <= i <= rows
        invariant Shaped(next, rows, cols)
        invariant forall r :: 0 <= r < i ==> next[r] == NextGeneration(grid, rows, cols, Wrap)[r]
      {
        var row := NextRow(next[i], i);
        next := next[i := row];
        i := i + 1;
      }
    }

    /** The inner loop of computeNext: row i of the next grid, cell by cell. */
    method NextRow(blank: seq<bool>, i: int) returns (row: seq<bool>)
      requires Valid() && 0 <= i < rows && |blank| == cols
      ensures row == NextGeneration(grid, rows, cols, Wrap)[i]
    {
      ghost var target := NextGeneration(grid, rows, cols, Wrap)[i];
      row := blank;
      var j := 0;
      while j < cols
        invariant 0 <= j <= cols && |row| == cols
        invariant forall c :: 0 <= c < j ==> row[c] == target[c]
      {
        var neighbors := CountNeighbors(i, j);
        assert target[j] == Rule(grid[i][j], neighbors);
        row := row[j := neighbors == 3 || (grid[i][j] && neighbors == 2)];
        j := j + 1;
      }
    }

    /** The eight neighbours of (x, y), each coordinate taken modulo the grid's side. */
    method CountNeighbors(x: int, y: int) returns (count: nat)
      requires Valid() && InGrid(rows, cols, x, y)
      ensures count == Neighbours(grid, rows, cols, Wrap, x, y)
      ensures count <= 8
    {
      count := 0;
      var i := -1;
      while i <= 1
        invariant -1 <= i <= 2
        invariant count == WindowSpan(grid, rows, cols, Wrap, x, y, -1, i)
      {
        var rowCount := CountRow(x, y, i);
        count := count + rowCount;
        i := i + 1;
      }
      NeighboursExpanded(grid, rows, cols, Wrap, x, y);
    }

    /** The inner loop of countNeighbors: offsets (i, -1), (i, 0) and (i, 1)
        around the torus, the centre excluded. */
    method CountRow(x: int, y: int, i: int) returns (count: nat)
      requires Valid() && InGrid(rows, cols, x, y)
      ensures count == RowSpan(grid, rows, cols, Wrap, x, y, i, -1, 2)
    {
      count := 0;
      var j := -1;
      while j <= 1
        invariant -1 <= j <= 2
        invariant count == RowSpan(grid, rows, cols, Wrap, x, y, i, -1, j)
      {
        if !(i == 0 && j == 0) {
          var xi := (x + i + rows) % rows;
          var yj := (y + j + cols) % cols;
          count := count + if grid[xi][yj] then 1 else 0;
        }
        j := j + 1;
      }
    }

    /** One generation: snapshots after the cursor are dropped, the new grid
        is recorded and shown, and the cursor ends on it. */
    method Step()
      requires Valid()
      modifies this
      ensures Valid()
      ensures grid == NextGeneration(old(grid), rows, cols, Wrap)
      ensures history == old(history)[..old(currentStep) + 1] + [grid]
      ensures currentStep == old(currentStep) + 1 == |history| - 1
      ensures running == old(running) && painting == old(painting)
    {
      if currentStep < |history| - 1 {
        history := history[..currentStep + 1];
      }
      var next := ComputeNext();
      history := history + [next];
      currentStep := currentStep + 1;
      grid := next;
    }

    method Start()
      requires Valid()
      modifies this
      ensures Valid() && running
      ensures grid == old(grid) && history == old(history) && currentStep == old(currentStep)
      ensures painting == old(painting)
    {
      running := true;
    }

    method Pause()
      requires Valid()
      modifies this
      ensures Valid() && !running
      ensures grid == old(grid) && history == old(history) && currentStep == old(currentStep)
      ensures painting == old(painting)
    {
      running := false;
    }

    /** Flips the cell under the mouse; a position off the grid does nothing. */
    method ToggleCell(row: int, col: int)
      requires Valid()
      modifies this
      ensures Valid()
      ensures history == old(history) && currentStep == old(currentStep) && running == old(running)
      ensures painting == old(painting)
      ensures InGrid(rows, cols, row, col) ==> grid[row][col] == !old(grid)[row][col]
      ensures forall r, c :: InGrid(rows, cols, r, c) && (r != row || c != col) ==> grid[r][c] == old(grid)[r][c]
    {
      if row >= 0 && row < rows && col >= 0 && col < cols {
        grid := grid[row := grid[row][col := !grid[row][col]]];
      }
    }

    /** Mouse down: starts painting and flips a cell, only while stopped. */
    method MouseDown(row: int, col: int)
      requires Valid()
      modifies this
      ensures Valid()
      ensures history == old(history) && currentStep == old(currentStep) && running == old(running)
      ensures old(running) ==> grid == old(grid) && painting == old(painting)
      ensures !old(running) ==> painting
      ensures !old(running) && InGrid(rows, cols, row, col) ==> grid[row][col] == !old(grid)[row][col]
      ensures forall r, c :: InGrid(rows, cols, r, c) && (r != row || c != col) ==> grid[r][c] == old(grid)[r][c]
    {
      if !running {
        painting := true;
        ToggleCell(row, col);
      }
    }

    /** Mouse move: flips a cell whenever a drag is in progress, even once
        the simulation has been started during it. */
    method MouseMove(row: int, col: int)
      requires Valid()
      modifies this
      ensures Valid()
      ensures history == old(history) && currentStep == old(currentStep) && running == old(running)
      ensures painting == old(painting)
      ensures !painting ==> grid == old(grid)
      ensures painting && InGrid(rows, cols, row, col) ==> grid[row][col] == !old(grid)[row][col]
      ensures forall r, c :: InGrid(rows, cols, r, c) && (r != row || c != col) ==> grid[r][c] == old(grid)[r][c]
    {
      if painting {
        ToggleCell(row, col);
      }
    }

    method MouseUp()
      requires Valid()
      modifies this
      ensures Valid() && !painting
      ensures grid == old(grid) && history == old(history) && currentStep == old(currentStep)
      ensures running == old(running)
    {
      painting := false;
    }
  }
}

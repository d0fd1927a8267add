/** The GameOfLife class of Python/OpenAI_o3_mini_high/game_of_life.py: a
    rectangular 0/1 board with a clipped boundary, a stack of past boards
    capped at 600, and a generation counter. */
module PythonGameOfLife {
  import opened Life

  /** max_history */
  const MaxHistory: nat := 600

  const GliderCoords: seq<(int, int)> := [(0, 1), (1, 2), (2, 0), (2, 1), (2, 2)]

  /** The simplified pulsar: a 6 x 6 ring of twelve cells. */
  const PulsarCoords: seq<(int, int)> := [
    (0, 2), (0, 3), (0, 4),
    (5, 2), (5, 3), (5, 4),
    (2, 0), (3, 0), (4, 0),
    (2, 5), (3, 5), (4, 5)]

  function Max(a: int, b: int): int { if a < b then b else a }
  function Min(a: int, b: int): int { if a < b then a else b }

  /** ASCII lower case: no upper-case letter is left, and every character
      that is not an upper-case letter is kept. */
  function Lower(s: string): (t: string)
    ensures |t| == |s|
    ensures forall k :: 0 <= k < |t| ==> !('A' <= t[k] <= 'Z')
    ensures forall k :: 0 <= k < |s| && !('A' <= s[k] <= 'Z') ==> t[k] == s[k]
  {
    seq(|s|, k requires 0 <= k < |s| => if 'A' <= s[k] <= 'Z' then (s[k] as int + 32) as char else s[k])
  }

  /** A name lowers to the lower-case word `lower` exactly when each of its
      characters is that word's letter in either case. */
  lemma LowerSelects(s: string, lower: string, upper: string)
    requires |upper| == |lower|
    requires forall k :: 0 <= k < |lower| ==> 'a' <= lower[k] <= 'z' && upper[k] as int == lower[k] as int - 32
    ensures Lower(s) == lower <==>
              |s| == |lower| && forall k :: 0 <= k < |s| ==> s[k] == lower[k] || s[k] == upper[k]
  {
    var t := Lower(s);
    if t == lower {
      forall k | 0 <= k < |s| ensures s[k] == lower[k] || s[k] == upper[k] {
        assert t[k] == lower[k];
      }
    }
    if |s| == |lower| && forall k :: 0 <= k < |s| ==> s[k] == lower[k] || s[k] == upper[k] {
      forall k | 0 <= k < |s| ensures t[k] == lower[k] {
        if s[k] == upper[k] {
          assert 'A' <= s[k] <= 'Z';
        }
      }
    }
  }

  /** load_pattern selects the glider for every spelling of "glider" in any
      mix of cases, and for no other name. */
  lemma LowerSelectsGlider(s: string)
    ensures Lower(s) == "glider" <==>
              |s| == 6 && forall k :: 0 <= k < 6 ==> s[k] == "glider"[k] || s[k] == "GLIDER"[k]
  {
    LowerSelects(s, "glider", "GLIDER");
  }

  /** The same for "pulsar". */
  lemma LowerSelectsPulsar(s: string)
    ensures Lower(s) == "pulsar" <==>
              |s| == 6 && forall k :: 0 <= k < 6 ==> s[k] == "pulsar"[k] || s[k] == "PULSAR"[k]
  {
    LowerSelects(s, "pulsar", "PULSAR");
  }

  /** Where a pattern's coordinates are placed: the glider at the middle cell,
      the pulsar three cells up and to the left of it. */
  function Placed(b: Board, rows: nat, cols: nat, name: string): (r: Board)
    requires Shaped(b, rows, cols)
    ensures Shaped(r, rows, cols)
    ensures forall x, y :: InGrid(rows, cols, x, y) ==> b[x][y] <= r[x][y]
    ensures Lower(name) != "glider" && Lower(name) != "pulsar" ==> r == b
  {
    if Lower(name) == "glider" then Marked(b, rows, cols, GliderCoords, rows / 2, cols / 2, 1)
    else if Lower(name) == "pulsar" then Marked(b, rows, cols, PulsarCoords, rows / 2 - 3, cols / 2 - 3, 1)
    else b
  }

  /** The for-loop of load_pattern: every coordinate that lands on the board
      becomes 1. */
  method PlaceCoords(board: Board, rows: nat, cols: nat, coords: seq<(int, int)>, midI: int, midJ: int) returns (b: Board)
    requires Shaped(board, rows, cols)
    ensures b == Marked(board, rows, cols, coords, midI, midJ, 1)
  {
    b := board;
    var k := 0;
    while k < |coords|
      invariant 0 <= k <= |coords|
      invariant b == Marked(board, rows, cols, coords[..k], midI, midJ, 1)
    {
      var dx := coords[k].0;
      var dy := coords[k].1;
      if 0 <= midI + dx < rows && 0 <= midJ + dy < cols {
        var row: seq<Bit> := b[midI + dx][midJ + dy := 1];
        b := b[midI + dx := row];
      }
      assert coords[..k + 1][..k] == coords[..k];
      k := k + 1;
    }
    assert coords[..|coords|] == coords;
  }

  /** Column offsets m..hi-1 of row offset k add nothing when that row, or
      every one of those columns, is off the board. */
  lemma {:induction false} RowSpanPad(g: Grid, rows: nat, cols: nat, r: int, c: int, k: int, lo: int, m: int, hi: int)
    requires Shaped(g, rows, cols) && lo <= m <= hi
    requires m == hi || !(0 <= r + k < rows) || c + hi <= 0 || cols <= c + m
    ensures RowSpan(g, rows, cols, Clamp, r, c, k, lo, hi) == RowSpan(g, rows, cols, Clamp, r, c, k, lo, m)
    decreases hi - m
  {
    if m < hi {
      RowSpanPad(g, rows, cols, r, c, k, lo, m, hi - 1);
    }
  }

  /** Row offsets m..hi-1 add nothing when all those rows are off the board. */
  lemma {:induction false} WindowSpanPad(g: Grid, rows: nat, cols: nat, r: int, c: int, lo: int, m: int, hi: int)
    requires Shaped(g, rows, cols) && lo <= m <= hi
    requires m == hi || r + hi <= 0 || rows <= r + m
    ensures WindowSpan(g, rows, cols, Clamp, r, c, lo, hi) == WindowSpan(g, rows, cols, Clamp, r, c, lo, m)
    decreases hi - m
  {
    if m < hi {
      RowSpanPad(g, rows, cols, r, c, hi - 1, -1, -1, 2);
      WindowSpanPad(g, rows, cols, r, c, lo, m, hi - 1);
    }
  }

  /** Where the loop over range(max(0, j - 1), min(cols, j + 2)) stops, the
      columns it covered give the whole row of offsets. */
  lemma RowSpanClipped(g: Grid, rows: nat, cols: nat, i: int, j: int, k: int, y: int)
    requires Shaped(g, rows, cols)
    requires -1 <= k <= 1 && 0 <= i + k < rows
    requires y == Max(Max(0, j - 1), Min(cols, j + 2))
    ensures RowSpan(g, rows, cols, Clamp, i, j, k, -1, y - j) == RowSpan(g, rows, cols, Clamp, i, j, k, -1, 2)
  {
    if y - j <= 2 {
      RowSpanPad(g, rows, cols, i, j, k, -1, y - j, 2);
    } else {
      RowSpanPad(g, rows, cols, i, j, k, -1, 2, y - j);
    }
  }

  /** Where the loop over range(max(0, i - 1), min(rows, i + 2)) stops, the
      rows it covered give the whole count. */
  lemma WindowSpanClipped(g: Grid, rows: nat, cols: nat, i: int, j: int, x: int)
    requires Shaped(g, rows, cols)
    requires x == Max(Max(0, i - 1), Min(rows, i + 2))
    ensures WindowSpan(g, rows, cols, Clamp, i, j, -1, x - i) == Neighbours(g, rows, cols, Clamp, i, j)
  {
    if x - i <= 2 {
      WindowSpanPad(g, rows, cols, i, j, -1, x - i, 2);
    } else {
      WindowSpanPad(g, rows, cols, i, j, -1, 2, x - i);
    }
  }

  class GameOfLife {
    const rows: nat
    const cols: nat
    var grid: Board
    /** Past boards, oldest first. */
    var history: seq<Board>
    var generation: nat

    ghost predicate Valid()
      reads this
    {
      && Shaped(grid, rows, cols)
      && |history| <= MaxHistory
      && (forall k :: 0 <= k < |history| ==> Shaped(history[k], rows, cols))
    }

    constructor (rows: nat, cols: nat)
      ensures Valid() && this.rows == rows && this.cols == cols
      ensures grid == Zeros(rows, cols) && history == [] && generation == 0
    {
      this.rows := rows;
      this.cols := cols;
      grid := Zeros(rows, cols);
      history := [];
      generation := 0;
    }

    /** The live cells among the on-board Moore neighbours of (i, j); any
        (i, j) is accepted and nothing off the board is read. */
    method CountLiveNeighbors(i: int, j: int) returns (count: nat)
      requires Valid()
      ensures count == Neighbours(ToGrid(grid), rows, cols, Clamp, i, j)
      ensures count <= 8
    {
      ghost var g := ToGrid(grid);
      count := 0;
      var xs := Max(0, i - 1);
      var xe := Min(rows, i + 2);
      var x := xs;
      WindowSpanPad(g, rows, cols, i, j, -1, -1, xs - i);
      while x < xe
        invariant xs <= x <= Max(xs, xe)
        invariant count == WindowSpan(g, rows, cols, Clamp, i, j, -1, x - i)
      {
        var rowCount := RowNeighbors(i, j, x);
        assert WindowSpan(g, rows, cols, Clamp, i, j, -1, x + 1 - i) == count + rowCount;
        count := count + rowCount;
        x := x + 1;
      }
      WindowSpanClipped(g, rows, cols, i, j, x);
      NeighboursExpanded(g, rows, cols, Clamp, i, j);
    }

    /** The inner loop of count_live_neighbors: the live cells of board row x
        next to (i, j), over the columns of range(max(0, j - 1), min(cols, j + 2)). */
    method RowNeighbors(i: int, j: int, x: int) returns (count: nat)
      requires Valid() && 0 <= x < rows && i - 1 <= x <= i + 1
      ensures count == RowSpan(ToGrid(grid), rows, cols, Clamp, i, j, x - i, -1, 2)
    {
      ghost var g := ToGrid(grid);
      count := 0;
      var ys := Max(0, j - 1);
      var ye := Min(cols, j + 2);
      var y := ys;
      RowSpanPad(g, rows, cols, i, j, x - i, -1, -1, ys - j);
      while y < ye
        invariant ys <= y <= Max(ys, ye)
        invariant count == RowSpan(g, rows, cols, Clamp, i, j, x - i, -1, y - j)
      {
        assert RowSpan(g, rows, cols, Clamp, i, j, x - i, -1, y + 1 - j)
            == RowSpan(g, rows, cols, Clamp, i, j, x - i, -1, y - j) + Term(g, rows, cols, Clamp, i, j, x - i, y - j);
        if (x, y) != (i, j) {
          assert g[x][y] == (grid[x][y] == 1);
          count := count + grid[x][y];
        }
        y := y + 1;
      }
      RowSpanClipped(g, rows, cols, i, j, x - i, y);
    }

    /** Row i of step's new grid: a live cell stays with two or three live
        neighbours, a dead one is born with exactly three. */
    method NextRow(i: int) returns (row: seq<Bit>)
      requires Valid() && 0 <= i < rows
      ensures row == FromGrid(NextGeneration(ToGrid(grid), rows, cols, Clamp))[i]
    {
      ghost var g := ToGrid(grid);
      ghost var target := FromGrid(NextGeneration(g, rows, cols, Clamp))[i];
      row := Zeros(1, cols)[0];
      var j := 0;
      while j < cols
        invariant 0 <= j <= cols && |row| == cols
        invariant forall c :: 0 <= c < j ==> row[c] == target[c]
        invariant forall c :: j <= c < cols ==> row[c] == 0
      {
        var liveNeighbors := CountLiveNeighbors(i, j);
        assert target[j] == if Rule(g[i][j], liveNeighbors) then 1 else 0;
        if grid[i][j] == 1 {
          if liveNeighbors == 2 || liveNeighbors == 3 {
            row := row[j := 1];
          } else {
            row := row[j := 0];
          }
        } else {
          if liveNeighbors == 3 {
            row := row[j := 1];
          }
        }
        j := j + 1;
      }
    }

    /** The new grid of step: a fresh board filled row by row from the
        unchanged current one. */
    method NewGrid() returns (newGrid: Board)
      requires Valid()
      ensures Shaped(newGrid, rows, cols)
      ensures ToGrid(newGrid) == NextGeneration(ToGrid(grid), rows, cols, Clamp)
    {
      ghost var spec := NextGeneration(ToGrid(grid), rows, cols, Clamp);
      newGrid := Zeros(rows, cols);
      var i := 0;
      while i < rows
        invariant 0 <= i <= rows
        invariant Shaped(newGrid, rows, cols)
        invariant forall r :: 0 <= r < i ==> newGrid[r] == FromGrid(spec)[r]
      {
        var row := NextRow(i);
        newGrid := newGrid[i := row];
        i := i + 1;
      }
      assert newGrid == FromGrid(spec);
      EncodingRoundTrip(newGrid, spec);
    }

    /** One generation: the board before the step is pushed onto the
        history, the new board replaces it and the counter goes up by one. */
    method Step()
      requires Valid()
      modifies this
      ensures Valid()
      ensures ToGrid(grid) == NextGeneration(ToGrid(old(grid)), rows, cols, Clamp)
      ensures history == Evict(old(history) + [old(grid)], MaxHistory)
      ensures generation == old(generation) + 1
    {
      var newGrid := NewGrid();
      AddHistory(grid);
      grid := newGrid;
      generation := generation + 1;
    }

    /** Pushes a board; once the history is one over the cap the oldest goes. */
    method AddHistory(state: Board)
      requires Valid() && Shaped(state, rows, cols)
      modifies this
      ensures Valid() && grid == old(grid) && generation == old(generation)
      ensures history == Evict(old(history) + [state], MaxHistory)
    {
      history := history + [state];
      if |history| > MaxHistory {
        history := history[1..];
      }
    }

    /** Each cell 1 when its coin is below density / 250; the history is
        emptied and the counter reset. */
    method Randomize(density: int, coins: seq<seq<real>>)
      requires Valid() && Shaped(coins, rows, cols)
      modifies this
      ensures Valid() && ToGrid(grid) == Below(coins, rows, cols, density as real / 250.0)
      ensures history == [] && generation == 0
    {
      var probability := density as real / 250.0;
      var g: Board := grid;
      var i := 0;
      while i < rows
        invariant 0 <= i <= rows
        invariant Shaped(g, rows, cols)
        invariant forall r, c :: 0 <= r < i && 0 <= c < cols ==> (g[r][c] == 1) == (coins[r][c] < probability)
      {
        var j := 0;
        while j < cols
          invariant 0 <= j <= cols
          invariant Shaped(g, rows, cols)
          invariant forall r, c :: 0 <= r < i && 0 <= c < cols ==> (g[r][c] == 1) == (coins[r][c] < probability)
          invariant forall c :: 0 <= c < j ==> (g[i][c] == 1) == (coins[i][c] < probability)
        {
          var cell: Bit := if coins[i][j] < probability then 1 else 0;
          var row: seq<Bit> := g[i][j := cell];
          g := g[i := row];
          j := j + 1;
        }
        i := i + 1;
      }
      ghost var h := ToGrid(g);
      ghost var spec := Below(coins, rows, cols, probability);
      assert forall r | 0 <= r < rows :: h[r] == spec[r];
      grid := g;
      history := [];
      generation := 0;
    }

    method ClearBoard()
      requires Valid()
      modifies this
      ensures Valid() && grid == Zeros(rows, cols)
      ensures history == [] && generation == 0
    {
      grid := Zeros(rows, cols);
      history := [];
      generation := 0;
    }

    /** Flips an on-board cell between 0 and 1; other positions are ignored. */
    method ToggleCell(i: int, j: int)
      requires Valid()
      modifies this
      ensures Valid() && history == old(history) && generation == old(generation)
      ensures InGrid(rows, cols, i, j) ==> grid[i][j] == 1 - old(grid)[i][j]
      ensures forall r, c :: InGrid(rows, cols, r, c) && (r != i || c != j) ==> grid[r][c] == old(grid)[r][c]
    {
      if 0 <= i < rows && 0 <= j < cols {
        var cell: Bit := if grid[i][j] == 1 then 0 else 1;
        var row: seq<Bit> := grid[i][j := cell];
        grid := grid[i := row];
      }
    }

    /** Installs a board of the same size; history and counter are reset. */
    method SetBoard(board: Board)
      requires Valid() && Shaped(board, rows, cols)
      modifies this
      ensures Valid() && grid == board && history == [] && generation == 0
    {
      grid := board;
      history := [];
      generation := 0;
    }

    /** Clears the board, then places the named pattern (case-insensitive);
        an unknown name leaves the board empty. */
    method LoadPattern(patternName: string)
      requires Valid()
      modifies this
      ensures Valid() && history == [] && generation == 0
      ensures grid == Placed(Zeros(rows, cols), rows, cols, patternName)
    {
      ClearBoard();
      if Lower(patternName) == "glider" {
        var midI := rows / 2;
        var midJ := cols / 2;
        grid := PlaceCoords(grid, rows, cols, GliderCoords, midI, midJ);
      } else if Lower(patternName) == "pulsar" {
        var midI := rows / 2 - 3;
        var midJ := cols / 2 - 3;
        grid := PlaceCoords(grid, rows, cols, PulsarCoords, midI, midJ);
      }
    }

    /** The population: the sum of all cells, which is the number of live ones. */
    function CountLiveCells(): (n: nat)
      reads this
      requires Valid()
      ensures n == LiveCells(ToGrid(grid))
      ensures n <= rows * cols
    {
      BoardSumIsLiveCells(grid);
      LiveCellsBound(ToGrid(grid), rows, cols);
      BoardSum(grid)
    }
  }
}

/** Shared specification of Conway's Game of Life as every variant of the
    simulator implements it: boards, the Moore-neighbourhood count under a
    clipped or a toroidal boundary, the B3/S23 rule and the population count. */
module Life {

  /** A board of booleans, row-major: g[row][col]. */
  type Grid = seq<seq<bool>>

  /** A cell of the boards that store 0 (dead) and 1 (alive). */
  type Bit = b: int | 0 <= b <= 1

  /** A board of 0/1 cells. */
  type Board = seq<seq<Bit>>

  /** How neighbours beyond the edge are treated: Clamp ignores them (they
      count as dead), Wrap takes coordinates modulo the board's size. */
  datatype Boundary = Clamp | Wrap

  /** g has exactly `rows` rows of exactly `cols` cells each. */
  predicate Shaped<T>(g: seq<seq<T>>, rows: nat, cols: nat)
  {
    |g| == rows && forall i :: 0 <= i < rows ==> |g[i]| == cols
  }

  predicate InGrid(rows: nat, cols: nat, r: int, c: int)
  {
    0 <= r < rows && 0 <= c < cols
  }

  /** The all-dead rows x cols board. */
  function Blank(rows: nat, cols: nat): (g: Grid)
    ensures Shaped(g, rows, cols)
    ensures forall i, j :: InGrid(rows, cols, i, j) ==> !g[i][j]
  {
    seq(rows, _ => seq(cols, _ => false))
  }

  /** The all-zero rows x cols board. */
  function Zeros(rows: nat, cols: nat): (b: Board)
    ensures Shaped(b, rows, cols)
    ensures forall i, j :: InGrid(rows, cols, i, j) ==> b[i][j] == 0
  {
    seq(rows, _ => seq(cols, _ => 0))
  }

  /** The board whose cell (r, c) is alive when sample (r, c) exceeds t;
      the samples stand for a random or noise source. */
  function Above(samples: seq<seq<real>>, rows: nat, cols: nat, t: real): (g: Grid)
    requires Shaped(samples, rows, cols)
    ensures Shaped(g, rows, cols)
  {
    seq(rows, r requires 0 <= r < rows => seq(cols, c requires 0 <= c < cols => samples[r][c] > t))
  }

  /** The board whose cell (r, c) is alive when sample (r, c) is below t. */
  function Below(samples: seq<seq<real>>, rows: nat, cols: nat, t: real): (g: Grid)
    requires Shaped(samples, rows, cols)
    ensures Shaped(g, rows, cols)
  {
    seq(rows, r requires 0 <= r < rows => seq(cols, c requires 0 <= c < cols => samples[r][c] < t))
  }

  // ---------------------------------------------------------------------
  // Neighbour count

  /** What the neighbour at offset (i, j) of cell (r, c) contributes: 0 for
      the cell itself, otherwise 1 exactly when that neighbour is alive. */
  function Term(g: Grid, rows: nat, cols: nat, p: Boundary, r: int, c: int, i: int, j: int): (t: nat)
    requires Shaped(g, rows, cols)
    requires p == Wrap ==> InGrid(rows, cols, r, c)
    ensures t <= 1
  {
    if i == 0 && j == 0 then 0
    else match p
      case Clamp => if InGrid(rows, cols, r + i, c + j) && g[r + i][c + j] then 1 else 0
      case Wrap => if g[Torus(r + i, rows)][Torus(c + j, cols)] then 1 else 0
  }

  /** A coordinate taken around the torus: (x + n) % n. */
  function Torus(x: int, n: nat): (y: int)
    requires n > 0
    ensures 0 <= y < n
  {
    (x + n) % n
  }

  /** For a coordinate at most one step off the board, going around the
      torus lands on the opposite edge, and an on-board coordinate stays put. */
  lemma TorusStep(x: int, n: nat)
    requires n > 0 && -1 <= x <= n
    ensures Torus(x, n) == if x < 0 then n - 1 else if x == n then 0 else x
  {
    if x < 0 {
      DivUnique(x + n, n, 0, n - 1);
    } else if x == n {
      DivUnique(x + n, n, 2, 0);
    } else {
      DivUnique(x + n, n, 1, x);
    }
  }

  /** Multiplying by a non-negative factor keeps the order. */
  lemma MulMono(a: nat, b: int, c: int)
    ensures b <= c ==> a * b <= a * c
  {
    if b <= c {
      assert a * c == a * b + a * (c - b);
    }
  }

  /** Euclidean division by `size` undoes row * size + col for 0 <= col < size. */
  lemma DivUnique(index: int, size: nat, row: int, col: int)
    requires 0 <= col < size && index == size * row + col
    ensures index / size == row && index % size == col
  {
    var q := index / size;
    var r := index % size;
    assert size * q + r == index;
    MulMono(size, row + 1, q);
    MulMono(size, q + 1, row);
    assert size * (row + 1) == size * row + size;
    assert size * (q + 1) == size * q + size;
  }

  /** Sum of the contributions of offsets (i, lo), ..., (i, hi - 1). */
  function RowSpan(g: Grid, rows: nat, cols: nat, p: Boundary, r: int, c: int, i: int, lo: int, hi: int): nat
    requires Shaped(g, rows, cols)
    requires p == Wrap ==> InGrid(rows, cols, r, c)
    decreases hi - lo
  {
    if hi <= lo then 0
    else RowSpan(g, rows, cols, p, r, c, i, lo, hi - 1) + Term(g, rows, cols, p, r, c, i, hi - 1)
  }

  /** Sum of the full rows of offsets lo, ..., hi - 1 (columns -1, 0 and 1). */
  function WindowSpan(g: Grid, rows: nat, cols: nat, p: Boundary, r: int, c: int, lo: int, hi: int): nat
    requires Shaped(g, rows, cols)
    requires p == Wrap ==> InGrid(rows, cols, r, c)
    decreases hi - lo
  {
    if hi <= lo then 0
    else WindowSpan(g, rows, cols, p, r, c, lo, hi - 1) + RowSpan(g, rows, cols, p, r, c, hi - 1, -1, 2)
  }

  /** A full row of offsets is the sum of its three terms. */
  lemma RowSpanFull(g: Grid, rows: nat, cols: nat, p: Boundary, r: int, c: int, i: int)
    requires Shaped(g, rows, cols)
    requires p == Wrap ==> InGrid(rows, cols, r, c)
    ensures RowSpan(g, rows, cols, p, r, c, i, -1, 2)
         == Term(g, rows, cols, p, r, c, i, -1) + Term(g, rows, cols, p, r, c, i, 0) + Term(g, rows, cols, p, r, c, i, 1)
  {
    assert RowSpan(g, rows, cols, p, r, c, i, -1, -1) == 0;
  }

  /** The number of live cells among the eight Moore neighbours of (r, c). */
  function Neighbours(g: Grid, rows: nat, cols: nat, p: Boundary, r: int, c: int): (n: nat)
    requires Shaped(g, rows, cols)
    requires p == Wrap ==> InGrid(rows, cols, r, c)
  {
    WindowSpan(g, rows, cols, p, r, c, -1, 2)
  }

  /** The count is the sum of the eight off-centre offsets, so it lies in 0..8. */
  lemma NeighboursExpanded(g: Grid, rows: nat, cols: nat, p: Boundary, r: int, c: int)
    requires Shaped(g, rows, cols)
    requires p == Wrap ==> InGrid(rows, cols, r, c)
    ensures Neighbours(g, rows, cols, p, r, c)
         == Term(g, rows, cols, p, r, c, -1, -1) + Term(g, rows, cols, p, r, c, -1, 0) + Term(g, rows, cols, p, r, c, -1, 1)
          + Term(g, rows, cols, p, r, c, 0, -1) + Term(g, rows, cols, p, r, c, 0, 1)
          + Term(g, rows, cols, p, r, c, 1, -1) + Term(g, rows, cols, p, r, c, 1, 0) + Term(g, rows, cols, p, r, c, 1, 1)
    ensures Neighbours(g, rows, cols, p, r, c) <= 8
  {
    RowSpanFull(g, rows, cols, p, r, c, -1);
    RowSpanFull(g, rows, cols, p, r, c, 0);
    RowSpanFull(g, rows, cols, p, r, c, 1);
    assert WindowSpan(g, rows, cols, p, r, c, -1, -1) == 0;
  }

  /** Live in the clipped sense: (x, y) is on the board and alive. */
  function Lit(g: Grid, rows: nat, cols: nat, x: int, y: int): (t: nat)
    requires Shaped(g, rows, cols)
  {
    if InGrid(rows, cols, x, y) && g[x][y] then 1 else 0
  }

  /** Under the clipped boundary the count examines exactly the eight cells
      around (r, c) that lie on the board; the others contribute nothing. */
  lemma ClampedNeighbours(g: Grid, rows: nat, cols: nat, r: int, c: int)
    requires Shaped(g, rows, cols)
    ensures Neighbours(g, rows, cols, Clamp, r, c)
         == Lit(g, rows, cols, r - 1, c - 1) + Lit(g, rows, cols, r - 1, c) + Lit(g, rows, cols, r - 1, c + 1)
          + Lit(g, rows, cols, r, c - 1) + Lit(g, rows, cols, r, c + 1)
          + Lit(g, rows, cols, r + 1, c - 1) + Lit(g, rows, cols, r + 1, c) + Lit(g, rows, cols, r + 1, c + 1)
  {
    NeighboursExpanded(g, rows, cols, Clamp, r, c);
    TermIsLit(g, rows, cols, r, c, -1, -1); TermIsLit(g, rows, cols, r, c, -1, 0); TermIsLit(g, rows, cols, r, c, -1, 1);
    TermIsLit(g, rows, cols, r, c, 0, -1); TermIsLit(g, rows, cols, r, c, 0, 1);
    TermIsLit(g, rows, cols, r, c, 1, -1); TermIsLit(g, rows, cols, r, c, 1, 0); TermIsLit(g, rows, cols, r, c, 1, 1);
  }

  lemma TermIsLit(g: Grid, rows: nat, cols: nat, r: int, c: int, i: int, j: int)
    requires Shaped(g, rows, cols) && !(i == 0 && j == 0)
    ensures Term(g, rows, cols, Clamp, r, c, i, j) == Lit(g, rows, cols, r + i, c + j)
  {
  }

  /** Under the toroidal boundary the eight neighbours are taken modulo the
      board's size, so on the top-left cell they include the opposite edges. */
  lemma WrappedCorner(g: Grid, rows: nat, cols: nat)
    requires Shaped(g, rows, cols) && rows >= 3 && cols >= 3
    ensures Neighbours(g, rows, cols, Wrap, 0, 0)
         == Lit(g, rows, cols, rows - 1, cols - 1) + Lit(g, rows, cols, rows - 1, 0) + Lit(g, rows, cols, rows - 1, 1)
          + Lit(g, rows, cols, 0, cols - 1) + Lit(g, rows, cols, 0, 1)
          + Lit(g, rows, cols, 1, cols - 1) + Lit(g, rows, cols, 1, 0) + Lit(g, rows, cols, 1, 1)
  {
    NeighboursExpanded(g, rows, cols, Wrap, 0, 0);
    TorusStep(-1, rows); TorusStep(0, rows); TorusStep(1, rows);
    TorusStep(-1, cols); TorusStep(0, cols); TorusStep(1, cols);
  }

  /** A coordinate at most one step off the board, moved across the edge
      to the opposite one. */
  function Across(x: int, n: nat): int
  {
    if x < 0 then n - 1 else if x == n then 0 else x
  }

  /** The live cells among the eight neighbours of (r, c) on a torus,
      where a step across an edge lands on the opposite edge. */
  function WrappedCount(g: Grid, rows: nat, cols: nat, r: int, c: int): nat
    requires Shaped(g, rows, cols)
  {
    var up, down, left, right := Across(r - 1, rows), Across(r + 1, rows), Across(c - 1, cols), Across(c + 1, cols);
    Lit(g, rows, cols, up, left) + Lit(g, rows, cols, up, c) + Lit(g, rows, cols, up, right)
    + Lit(g, rows, cols, r, left) + Lit(g, rows, cols, r, right)
    + Lit(g, rows, cols, down, left) + Lit(g, rows, cols, down, c) + Lit(g, rows, cols, down, right)
  }

  /** Under the toroidal boundary the count at any cell is the number of
      live cells among its eight neighbours, where a step across an edge
      lands on the opposite edge. */
  lemma WrappedNeighbours(g: Grid, rows: nat, cols: nat, r: int, c: int)
    requires Shaped(g, rows, cols) && InGrid(rows, cols, r, c)
    ensures Neighbours(g, rows, cols, Wrap, r, c) == WrappedCount(g, rows, cols, r, c)
  {
    assert Across(r, rows) == r && Across(c, cols) == c;
    NeighboursExpanded(g, rows, cols, Wrap, r, c);
    WrappedTerm(g, rows, cols, r, c, -1, -1); WrappedTerm(g, rows, cols, r, c, -1, 0); WrappedTerm(g, rows, cols, r, c, -1, 1);
    WrappedTerm(g, rows, cols, r, c, 0, -1); WrappedTerm(g, rows, cols, r, c, 0, 1);
    WrappedTerm(g, rows, cols, r, c, 1, -1); WrappedTerm(g, rows, cols, r, c, 1, 0); WrappedTerm(g, rows, cols, r, c, 1, 1);
  }

  /** On a torus, a board is the next generation exactly when each of its
      cells is what the rule gives for the wrapped count of that cell. */
  lemma WrappedNextGeneration(g: Grid, h: Grid, rows: nat, cols: nat)
    requires Shaped(g, rows, cols) && Shaped(h, rows, cols) && rows > 0 && cols > 0
    ensures NextGeneration(g, rows, cols, Wrap) == h <==>
              forall r, c :: InGrid(rows, cols, r, c) ==> h[r][c] == Rule(g[r][c], WrappedCount(g, rows, cols, r, c))
  {
    forall r, c | InGrid(rows, cols, r, c)
      ensures Neighbours(g, rows, cols, Wrap, r, c) == WrappedCount(g, rows, cols, r, c)
    {
      WrappedNeighbours(g, rows, cols, r, c);
    }
    NextGenerationCells(g, h, rows, cols, Wrap);
  }

  lemma WrappedTerm(g: Grid, rows: nat, cols: nat, r: int, c: int, i: int, j: int)
    requires Shaped(g, rows, cols) && InGrid(rows, cols, r, c)
    requires -1 <= i <= 1 && -1 <= j <= 1 && !(i == 0 && j == 0)
    ensures Term(g, rows, cols, Wrap, r, c, i, j) == Lit(g, rows, cols, Across(r + i, rows), Across(c + j, cols))
  {
    TorusStep(r + i, rows);
    TorusStep(c + j, cols);
  }

  /** Away from the edges the two boundary policies count the same. */
  lemma ClampWrapAgreeInside(g: Grid, rows: nat, cols: nat, r: int, c: int)
    requires Shaped(g, rows, cols)
    requires 1 <= r < rows - 1 && 1 <= c < cols - 1
    ensures Neighbours(g, rows, cols, Clamp, r, c) == Neighbours(g, rows, cols, Wrap, r, c)
  {
    NeighboursExpanded(g, rows, cols, Clamp, r, c);
    NeighboursExpanded(g, rows, cols, Wrap, r, c);
    forall i, j | -1 <= i <= 1 && -1 <= j <= 1
      ensures Term(g, rows, cols, Clamp, r, c, i, j) == Term(g, rows, cols, Wrap, r, c, i, j)
    {
      TorusStep(r + i, rows);
      TorusStep(c + j, cols);
    }
  }

  /** The count at (r, c) reads only the 3 x 3 window around (r, c): two
      boards that agree there have the same count. */
  lemma NeighboursLocal(g: Grid, h: Grid, rows: nat, cols: nat, p: Boundary, r: int, c: int)
    requires Shaped(g, rows, cols) && Shaped(h, rows, cols)
    requires p == Wrap ==> InGrid(rows, cols, r, c)
    requires forall x, y :: InGrid(rows, cols, x, y) && Near(rows, cols, p, r, c, x, y) ==> g[x][y] == h[x][y]
    ensures Neighbours(g, rows, cols, p, r, c) == Neighbours(h, rows, cols, p, r, c)
  {
    NeighboursExpanded(g, rows, cols, p, r, c);
    NeighboursExpanded(h, rows, cols, p, r, c);
    TermLocal(g, h, rows, cols, p, r, c, -1, -1);
    TermLocal(g, h, rows, cols, p, r, c, -1, 0);
    TermLocal(g, h, rows, cols, p, r, c, -1, 1);
    TermLocal(g, h, rows, cols, p, r, c, 0, -1);
    TermLocal(g, h, rows, cols, p, r, c, 0, 1);
    TermLocal(g, h, rows, cols, p, r, c, 1, -1);
    TermLocal(g, h, rows, cols, p, r, c, 1, 0);
    TermLocal(g, h, rows, cols, p, r, c, 1, 1);
  }

  lemma TermLocal(g: Grid, h: Grid, rows: nat, cols: nat, p: Boundary, r: int, c: int, i: int, j: int)
    requires Shaped(g, rows, cols) && Shaped(h, rows, cols)
    requires p == Wrap ==> InGrid(rows, cols, r, c)
    requires -1 <= i <= 1 && -1 <= j <= 1
    requires forall x, y :: InGrid(rows, cols, x, y) && Near(rows, cols, p, r, c, x, y) ==> g[x][y] == h[x][y]
    ensures Term(g, rows, cols, p, r, c, i, j) == Term(h, rows, cols, p, r, c, i, j)
  {
    if p == Wrap && !(i == 0 && j == 0) {
      var x, y := Torus(r + i, rows), Torus(c + j, cols);
      assert x == Torus(r - 1, rows) || x == Torus(r, rows) || x == Torus(r + 1, rows);
      assert y == Torus(c - 1, cols) || y == Torus(c, cols) || y == Torus(c + 1, cols);
      assert Near(rows, cols, p, r, c, x, y);
    }
  }

  /** (x, y) lies in the 3 x 3 window around (r, c) under boundary p. */
  predicate Near(rows: nat, cols: nat, p: Boundary, r: int, c: int, x: int, y: int)
  {
    match p
    case Clamp => r - 1 <= x <= r + 1 && c - 1 <= y <= c + 1
    case Wrap =>
      rows > 0 && cols > 0 &&
      (x == Torus(r - 1, rows) || x == Torus(r, rows) || x == Torus(r + 1, rows)) &&
      (y == Torus(c - 1, cols) || y == Torus(c, cols) || y == Torus(c + 1, cols))
  }

  // ---------------------------------------------------------------------
  // The rule and one generation

  /** B3/S23: a live cell survives with two or three live neighbours, a dead
      cell is born with exactly three; every other cell is dead next. */
  predicate Rule(alive: bool, n: int)
  {
    if alive then n == 2 || n == 3 else n == 3
  }

  /** The next generation, computed from the frozen board g for every cell at once. */
  function NextGeneration(g: Grid, rows: nat, cols: nat, p: Boundary): (h: Grid)
    requires Shaped(g, rows, cols)
    ensures Shaped(h, rows, cols)
  {
    seq(rows, r requires 0 <= r < rows =>
      seq(cols, c requires 0 <= c < cols => Rule(g[r][c], Neighbours(g, rows, cols, p, r, c))))
  }

  /** Simultaneous update: a cell's next state depends on nothing but its own
      state and the cells of its window in the current board. */
  lemma NextGenerationLocal(g: Grid, h: Grid, rows: nat, cols: nat, p: Boundary, r: int, c: int)
    requires Shaped(g, rows, cols) && Shaped(h, rows, cols) && InGrid(rows, cols, r, c)
    requires forall x, y :: InGrid(rows, cols, x, y) && Near(rows, cols, p, r, c, x, y) ==> g[x][y] == h[x][y]
    ensures NextGeneration(g, rows, cols, p)[r][c] == NextGeneration(h, rows, cols, p)[r][c]
  {
    NeighboursLocal(g, h, rows, cols, p, r, c);
    assert Near(rows, cols, p, r, c, r, c) by {
      if p == Wrap {
        TorusStep(r, rows);
        TorusStep(c, cols);
      }
    }
    assert g[r][c] == h[r][c];
  }

  /** A board of the right shape is the next generation exactly when each
      of its cells is what the rule gives for that cell. */
  lemma NextGenerationCells(g: Grid, h: Grid, rows: nat, cols: nat, p: Boundary)
    requires Shaped(g, rows, cols) && Shaped(h, rows, cols)
    requires p == Wrap ==> rows > 0 && cols > 0
    ensures NextGeneration(g, rows, cols, p) == h <==>
              forall r, c :: InGrid(rows, cols, r, c) ==> h[r][c] == Rule(g[r][c], Neighbours(g, rows, cols, p, r, c))
  {
    if forall r, c :: InGrid(rows, cols, r, c) ==> h[r][c] == Rule(g[r][c], Neighbours(g, rows, cols, p, r, c)) {
      NextGenerationRows(g, h, rows, cols, p);
    }
  }

  lemma NextGenerationRows(g: Grid, h: Grid, rows: nat, cols: nat, p: Boundary)
    requires Shaped(g, rows, cols) && Shaped(h, rows, cols)
    requires p == Wrap ==> rows > 0 && cols > 0
    requires forall r, c :: InGrid(rows, cols, r, c) ==> h[r][c] == Rule(g[r][c], Neighbours(g, rows, cols, p, r, c))
    ensures NextGeneration(g, rows, cols, p) == h
  {
    var n := NextGeneration(g, rows, cols, p);
    forall r | 0 <= r < rows ensures n[r] == h[r] {
      assert forall c | 0 <= c < cols :: n[r][c] == h[r][c];
    }
  }

  /** The board after k generations from g. */
  function Evolve(g: Grid, rows: nat, cols: nat, p: Boundary, k: nat): (h: Grid)
    requires Shaped(g, rows, cols)
    ensures Shaped(h, rows, cols)
  {
    if k == 0 then g else NextGeneration(Evolve(g, rows, cols, p, k - 1), rows, cols, p)
  }

  /** An all-dead board stays dead. */
  lemma BlankIsStable(rows: nat, cols: nat, p: Boundary)
    ensures NextGeneration(Blank(rows, cols), rows, cols, p) == Blank(rows, cols)
  {
    var g := Blank(rows, cols);
    var h := NextGeneration(g, rows, cols, p);
    forall r, c | InGrid(rows, cols, r, c) ensures !h[r][c] {
      BlankHasNoNeighbours(rows, cols, p, r, c);
    }
    assert forall r | 0 <= r < rows :: h[r] == g[r];
  }

  lemma BlankHasNoNeighbours(rows: nat, cols: nat, p: Boundary, r: int, c: int)
    requires InGrid(rows, cols, r, c)
    ensures Neighbours(Blank(rows, cols), rows, cols, p, r, c) == 0
  {
    var g := Blank(rows, cols);
    NeighboursExpanded(g, rows, cols, p, r, c);
    forall i, j ensures Term(g, rows, cols, p, r, c, i, j) == 0 {
      if p == Wrap && !(i == 0 && j == 0) {
        assert !g[Torus(r + i, rows)][Torus(c + j, cols)];
      }
    }
  }

  // ---------------------------------------------------------------------
  // Population

  /** Number of live cells in one row. */
  function RowLive(row: seq<bool>): (n: nat)
    ensures n <= |row|
  {
    if row == [] then 0 else RowLive(row[..|row| - 1]) + (if row[|row| - 1] then 1 else 0)
  }

  /** Number of live cells on the board, summed row by row. */
  function LiveCells(g: Grid): nat
  {
    if g == [] then 0 else LiveCells(g[..|g| - 1]) + RowLive(g[|g| - 1])
  }

  /** A rows x cols board has at most rows * cols live cells. */
  lemma {:induction false} LiveCellsBound(g: Grid, rows: nat, cols: nat)
    requires Shaped(g, rows, cols)
    ensures LiveCells(g) <= rows * cols
  {
    if rows > 0 {
      LiveCellsBound(g[..rows - 1], rows - 1, cols);
      assert LiveCells(g) <= (rows - 1) * cols + cols;
    }
  }

  /** A row has no live cell exactly when it counts zero. */
  lemma {:induction false} RowLiveZero(row: seq<bool>)
    ensures RowLive(row) == 0 <==> forall j :: 0 <= j < |row| ==> !row[j]
  {
    if row != [] {
      RowLiveZero(row[..|row| - 1]);
      assert forall j :: 0 <= j < |row| - 1 ==> row[..|row| - 1][j] == row[j];
    }
  }

  /** The population is zero exactly when every cell is dead. */
  lemma {:induction false} LiveCellsZero(g: Grid)
    ensures LiveCells(g) == 0 <==> forall i, j :: 0 <= i < |g| && 0 <= j < |g[i]| ==> !g[i][j]
  {
    if g != [] {
      LiveCellsZero(g[..|g| - 1]);
      RowLiveZero(g[|g| - 1]);
      assert forall i :: 0 <= i < |g| - 1 ==> g[..|g| - 1][i] == g[i];
    }
  }

  // ---------------------------------------------------------------------
  // 0/1 boards

  /** The 0/1 board read as booleans: 1 is alive. */
  function ToGrid(b: Board): (g: Grid)
    ensures |g| == |b| && forall i :: 0 <= i < |b| ==> |g[i]| == |b[i]|
  {
    seq(|b|, i requires 0 <= i < |b| => seq(|b[i]|, j requires 0 <= j < |b[i]| => b[i][j] == 1))
  }

  /** The boolean board written with 1 for alive and 0 for dead. */
  function FromGrid(g: Grid): (b: Board)
    ensures |b| == |g| && forall i :: 0 <= i < |g| ==> |b[i]| == |g[i]|
  {
    seq(|g|, i requires 0 <= i < |g| => seq(|g[i]|, j requires 0 <= j < |g[i]| => if g[i][j] then 1 else 0))
  }

  /** The two encodings are inverse to each other. */
  lemma EncodingRoundTrip(b: Board, g: Grid)
    ensures FromGrid(ToGrid(b)) == b
    ensures ToGrid(FromGrid(g)) == g
  {
    var b' := FromGrid(ToGrid(b));
    assert forall i | 0 <= i < |b| :: b'[i] == b[i];
    var g' := ToGrid(FromGrid(g));
    assert forall i | 0 <= i < |g| :: g'[i] == g[i];
  }

  /** Sum of a row of 0/1 cells. */
  function RowSum(row: seq<Bit>): nat
  {
    if row == [] then 0 else RowSum(row[..|row| - 1]) + row[|row| - 1]
  }

  /** Sum of all cells of a 0/1 board. */
  function BoardSum(b: Board): nat
  {
    if b == [] then 0 else BoardSum(b[..|b| - 1]) + RowSum(b[|b| - 1])
  }

  lemma {:induction false} RowSumIsRowLive(row: seq<Bit>)
    ensures RowSum(row) == RowLive(seq(|row|, j requires 0 <= j < |row| => row[j] == 1))
  {
    if row != [] {
      var n := |row|;
      var front := row[..n - 1];
      RowSumIsRowLive(front);
      var s := seq(n, j requires 0 <= j < n => row[j] == 1);
      assert s[..n - 1] == seq(n - 1, j requires 0 <= j < n - 1 => front[j] == 1);
    }
  }

  /** Summing the 0/1 cells counts the live cells. */
  lemma {:induction false} BoardSumIsLiveCells(b: Board)
    ensures BoardSum(b) == LiveCells(ToGrid(b))
  {
    if b != [] {
      var n := |b|;
      BoardSumIsLiveCells(b[..n - 1]);
      RowSumIsRowLive(b[n - 1]);
      assert ToGrid(b)[..n - 1] == ToGrid(b[..n - 1]);
    }
  }

  // ---------------------------------------------------------------------
  // Bounded histories

  /** A history that has just grown one past its cap drops its oldest entry:
      what is left is a non-empty suffix within the cap that still ends with
      the newest entry, and a history within the cap is kept whole. */
  function Evict<T>(h: seq<T>, cap: nat): (r: seq<T>)
    requires 0 < cap && 0 < |h| <= cap + 1
    ensures 0 < |r| <= cap && |r| <= |h|
    ensures r == h[|h| - |r|..]
    ensures r[|r| - 1] == h[|h| - 1]
    ensures |h| <= cap ==> r == h
    ensures |h| > cap ==> |r| == cap
  {
    if |h| > cap then h[1..] else h
  }

  // ---------------------------------------------------------------------
  // Pattern stamping

  /** The board after writing `on` into every on-board cell (ax + dx, ay + dy)
      for (dx, dy) in `offsets`, in order: such a cell ends up `on`, and every
      other cell keeps its value. */
  function Marked<T>(g: seq<seq<T>>, rows: nat, cols: nat, offsets: seq<(int, int)>, ax: int, ay: int, on: T): (r: seq<seq<T>>)
    requires Shaped(g, rows, cols)
    ensures Shaped(r, rows, cols)
    ensures forall x, y :: InGrid(rows, cols, x, y) ==>
              r[x][y] == if (x - ax, y - ay) in offsets then on else g[x][y]
    decreases |offsets|
  {
    if offsets == [] then g
    else
      var p := Marked(g, rows, cols, offsets[..|offsets| - 1], ax, ay, on);
      var x := ax + offsets[|offsets| - 1].0;
      var y := ay + offsets[|offsets| - 1].1;
      if InGrid(rows, cols, x, y) then p[x := p[x][y := on]] else p
  }

  /** Appending one offset marks one more cell, or none when it is off the board. */
  lemma MarkedSnoc<T>(g: seq<seq<T>>, rows: nat, cols: nat, offsets: seq<(int, int)>, ax: int, ay: int, on: T, d: (int, int))
    requires Shaped(g, rows, cols)
    ensures var p := Marked(g, rows, cols, offsets, ax, ay, on);
            var x := ax + d.0;
            var y := ay + d.1;
            Marked(g, rows, cols, offsets + [d], ax, ay, on)
              == if InGrid(rows, cols, x, y) then p[x := p[x][y := on]] else p
  {
    assert (offsets + [d])[..|offsets|] == offsets;
  }

  /** Stamping the same offsets twice leaves the board as stamping them once. */
  lemma MarkedTwice<T>(g: seq<seq<T>>, rows: nat, cols: nat, offsets: seq<(int, int)>, ax: int, ay: int, on: T)
    requires Shaped(g, rows, cols)
    ensures Marked(Marked(g, rows, cols, offsets, ax, ay, on), rows, cols, offsets, ax, ay, on)
         == Marked(g, rows, cols, offsets, ax, ay, on)
  {
    var once := Marked(g, rows, cols, offsets, ax, ay, on);
    var twice := Marked(once, rows, cols, offsets, ax, ay, on);
    forall x | 0 <= x < rows ensures twice[x] == once[x] {
      assert forall y | 0 <= y < cols :: twice[x][y] == once[x][y];
    }
  }
}

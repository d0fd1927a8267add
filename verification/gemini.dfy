/** The simulator of Gemini/script.js: a square board with a clipped
    boundary, a history of at most 600 boards and a cursor into it. */
module GeminiScript {
  import opened Life

  /** MAX_HISTORY_LENGTH */
  const MaxHistoryLength: nat := 600

  datatype Option<T> = None | Some(value: T)

  /** The named patterns as rectangles of cells; any other name has none. */
  function GetPattern(name: string): (p: Option<Grid>)
    ensures p.Some? <==> name == "glider" || name == "pulsar"
    ensures p.Some? ==> |p.value| > 0 && Shaped(p.value, |p.value|, |p.value[0]|)
  {
    if name == "glider" then
      Some([[false, true,  false],
            [false, false, true ],
            [true,  true,  true ]])
    else if name == "pulsar" then
      Some([[false, false, true,  true,  true,  false, false, false, true,  true,  true,  false, false],
            [false, false, false, false, false, false, false, false, false, false, false, false, false],
            [true,  false, false, false, true,  false, false, false, true,  false, false, false, true ],
            [true,  false, false, false, true,  false, false, false, true,  false, false, false, true ],
            [true,  false, false, false, true,  false, false, false, true,  false, false, false, true ],
            [false, false, false, false, false, false, false, false, false, false, false, false, false],
            [false, false, true,  true,  true,  false, false, false, true,  true,  true,  false, false]])
    else None
  }

  /** Where a pattern's top-left cell goes so that it is centred on the board. */
  function StartOffset(gridSize: nat, extent: nat): int
  {
    gridSize / 2 - extent / 2
  }

  /** Cell (r, c) lies under the pattern's footprint placed at (sr, sc). */
  predicate UnderPattern(pat: Grid, sr: int, sc: int, r: int, c: int)
    requires |pat| > 0
  {
    sr <= r < sr + |pat| && sc <= c < sc + |pat[0]|
  }

  /** The board g with the rectangle pat copied onto it at (sr, sc), live
      and dead cells alike; the part of pat that falls off the board is lost. */
  function Stamped(g: Grid, gridSize: nat, pat: Grid, sr: int, sc: int): (h: Grid)
    requires Shaped(g, gridSize, gridSize) && |pat| > 0 && Shaped(pat, |pat|, |pat[0]|)
    ensures Shaped(h, gridSize, gridSize)
  {
    seq(gridSize, r requires 0 <= r < gridSize => seq(gridSize, c requires 0 <= c < gridSize =>
      if UnderPattern(pat, sr, sc, r, c) then pat[r - sr][c - sc] else g[r][c]))
  }

  /** Copying the same pattern at the same place twice changes nothing the
      second time. */
  lemma StampedTwice(g: Grid, gridSize: nat, pat: Grid, sr: int, sc: int)
    requires Shaped(g, gridSize, gridSize) && |pat| > 0 && Shaped(pat, |pat|, |pat[0]|)
    ensures Stamped(Stamped(g, gridSize, pat, sr, sc), gridSize, pat, sr, sc) == Stamped(g, gridSize, pat, sr, sc)
  {
    var once := Stamped(g, gridSize, pat, sr, sc);
    var twice := Stamped(once, gridSize, pat, sr, sc);
    forall r | 0 <= r < gridSize ensures twice[r] == once[r] {
      assert forall c | 0 <= c < gridSize :: twice[r][c] == once[r][c];
    }
  }

  /** The nested loops of addPattern: row by row over the pattern, writing
      each of its cells that lands on the board. */
  method CopyOnto(grid: Grid, gridSize: nat, pat: Grid, startRow: int, startCol: int) returns (g: Grid)
    requires Shaped(grid, gridSize, gridSize) && |pat| > 0 && Shaped(pat, |pat|, |pat[0]|)
    ensures g == Stamped(grid, gridSize, pat, startRow, startCol)
  {
    g := grid;
    var row := 0;
    while row < |pat|
      invariant 0 <= row <= |pat|
      invariant Shaped(g, gridSize, gridSize)
      invariant forall r, c :: InGrid(gridSize, gridSize, r, c) ==>
        g[r][c] == if UnderPattern(pat, startRow, startCol, r, c) && r - startRow < row
                   then pat[r - startRow][c - startCol] else grid[r][c]
    {
      var col := 0;
      while col < |pat[0]|
        invariant 0 <= col <= |pat[0]|
        invariant Shaped(g, gridSize, gridSize)
        invariant forall r, c :: InGrid(gridSize, gridSize, r, c) ==>
          g[r][c] == if UnderPattern(pat, startRow, startCol, r, c)
                        && (r - startRow < row || (r - startRow == row && c - startCol < col))
                     then pat[r - startRow][c - startCol] else grid[r][c]
      {
        var gridRow := startRow + row;
        var gridCol := startCol + col;
        if gridRow >= 0 && gridRow < gridSize && gridCol >= 0 && gridCol < gridSize {
          g := g[gridRow := g[gridRow][gridCol := pat[row][col]]];
        }
        col := col + 1;
      }
      row := row + 1;
    }
    ghost var spec := Stamped(grid, gridSize, pat, startRow, startCol);
    assert forall r | 0 <= r < gridSize :: g[r] == spec[r];
  }

  /** The timeline's data: the population of every stored board, each at most gridSize^2. */
  lemma TimelineBound(history: seq<Grid>, gridSize: nat)
    requires forall k :: 0 <= k < |history| ==> Shaped(history[k], gridSize, gridSize)
    ensures forall k :: 0 <= k < |history| ==> LiveCells(history[k]) <= gridSize * gridSize
  {
    forall k | 0 <= k < |history| ensures LiveCells(history[k]) <= gridSize * gridSize {
      LiveCellsBound(history[k], gridSize, gridSize);
    }
  }

  /** The history after the items of a arrive one per timer tick, starting
      from a history holding a[0] alone: each tick, as StepSimulation states,
      appends the newest item and drops the oldest once past the cap. */
  function Feed<T>(a: seq<T>, cap: nat): (h: seq<T>)
    requires 0 < cap && 0 < |a|
    ensures 0 < |h| <= cap
  {
    if |a| == 1 then a else Evict(Feed(a[..|a| - 1], cap) + [a[|a| - 1]], cap)
  }

  /** Generations 0..n from g, in order. */
  function Gens(g: Grid, gridSize: nat, n: nat): (gs: seq<Grid>)
    requires Shaped(g, gridSize, gridSize)
    ensures |gs| == n + 1
  {
    if n == 0 then [g] else Gens(g, gridSize, n - 1) + [Evolve(g, gridSize, gridSize, Clamp, n)]
  }

  /** Entry k of Gens is generation k. */
  lemma {:induction false} GensAt(g: Grid, gridSize: nat, n: nat, k: nat)
    requires Shaped(g, gridSize, gridSize) && k <= n
    ensures Gens(g, gridSize, n)[k] == Evolve(g, gridSize, gridSize, Clamp, k)
  {
    if k < n {
      GensAt(g, gridSize, n - 1, k);
    }
  }

  /** The history after n timer ticks from a page whose history holds only g. */
  function Ticks(g: Grid, gridSize: nat, n: nat): (h: seq<Grid>)
    requires Shaped(g, gridSize, gridSize)
    ensures 0 < |h| <= MaxHistoryLength
  {
    Feed(Gens(g, gridSize, n), MaxHistoryLength)
  }

  /** Appending the last item of a to the window a[..|a| - 1][s..] and
      evicting gives the window of a that starts one later exactly when the
      cap is exceeded. */
  lemma EvictWindow<T>(a: seq<T>, s: nat, cap: nat)
    requires 0 < cap && 0 < |a| && s < |a| && |a| - 1 - s <= cap
    ensures Evict(a[..|a| - 1][s..] + [a[|a| - 1]], cap) == a[if |a| - s > cap then s + 1 else s..]
  {
    assert a[..|a| - 1][s..] + [a[|a| - 1]] == a[s..];
  }

  /** After the items of a have arrived the history holds the last
      min(|a|, cap) of them, oldest first. */
  lemma {:induction false} FeedWindow<T>(a: seq<T>, cap: nat)
    requires 0 < cap && 0 < |a|
    ensures Feed(a, cap) == a[if |a| <= cap then 0 else |a| - cap..]
  {
    if |a| > 1 {
      var s := if |a| - 1 <= cap then 0 else |a| - 1 - cap;
      FeedWindow(a[..|a| - 1], cap);
      EvictWindow(a, s, cap);
    }
  }

  /** After 605 ticks the 600-entry history starts at generation 6: the
      first six generations have been dropped. */
  lemma AfterSixHundredFiveTicks(g: Grid, gridSize: nat)
    requires Shaped(g, gridSize, gridSize)
    ensures |Ticks(g, gridSize, 605)| == 600
    ensures Ticks(g, gridSize, 605)[0] == Evolve(g, gridSize, gridSize, Clamp, 6)
    ensures Ticks(g, gridSize, 605)[599] == Evolve(g, gridSize, gridSize, Clamp, 605)
  {
    FeedWindow(Gens(g, gridSize, 605), MaxHistoryLength);
    GensAt(g, gridSize, 605, 6);
    GensAt(g, gridSize, 605, 605);
  }

  /** The history update of stepSimulation on plain values: drop the entries
      after the cursor, append the new board, and shift the oldest entry out
      once past the cap; the cursor ends on the new board. */
  method Push(grid: Grid, history: seq<Grid>, currentStep: int, next: Grid, n: nat) returns (h: seq<Grid>, step: int)
    requires Consistent(grid, history, currentStep, n) && Shaped(next, n, n)
    ensures h == Evict(history[..currentStep + 1] + [next], MaxHistoryLength)
    ensures step == |h| - 1 && h[step] == next
    ensures Consistent(next, h, step, n)
  {
    h := history;
    step := currentStep;
    if step < |h| - 1 {
      h := h[..step + 1];
    }
    assert h == history[..currentStep + 1];
    h := h + [next];
    step := step + 1;
    if |h| > MaxHistoryLength {
      h := h[1..];
      step := step - 1;
    }
    PushConsistent(grid, history, currentStep, next, n, h, step);
  }

  /** Every stored board has the page's shape. */
  ghost predicate AllShaped(history: seq<Grid>, n: nat)
  {
    forall k :: 0 <= k < |history| ==> Shaped(history[k], n, n)
  }

  /** The page's invariant on plain values: every board has the page's
      shape, the history respects its cap, and the cursor points into it
      whenever it is not empty. */
  ghost predicate Consistent(grid: Grid, history: seq<Grid>, currentStep: int, n: nat)
  {
    && Shaped(grid, n, n)
    && AllShaped(history, n)
    && |history| <= MaxHistoryLength
    && -1 <= currentStep < |history|
    && (history != [] ==> currentStep >= 0)
  }

  /** Trimming after the cursor and appending a board of the page's shape
      keeps every board's shape. */
  lemma TrimAppendShaped(history: seq<Grid>, currentStep: int, next: Grid, n: nat)
    requires AllShaped(history, n) && -1 <= currentStep < |history| && Shaped(next, n, n)
    ensures AllShaped(history[..currentStep + 1] + [next], n)
  {
  }

  /** So does dropping the oldest board past the cap. */
  lemma EvictAllShaped(a: seq<Grid>, n: nat)
    requires 0 < |a| <= MaxHistoryLength + 1 && AllShaped(a, n)
    ensures AllShaped(Evict(a, MaxHistoryLength), n)
  {
  }

  /** Pushing a board of the page's shape keeps the invariant, with the
      cursor on the new board. */
  lemma PushConsistent(grid: Grid, history: seq<Grid>, currentStep: int, next: Grid, n: nat, h: seq<Grid>, step: int)
    requires Consistent(grid, history, currentStep, n) && Shaped(next, n, n)
    requires h == Evict(history[..currentStep + 1] + [next], MaxHistoryLength) && step == |h| - 1
    ensures Consistent(next, h, step, n)
  {
    TrimAppendShaped(history, currentStep, next, n);
    EvictAllShaped(history[..currentStep + 1] + [next], n);
  }

  /** The page's state: the board being shown, the stored generations and the
      index of the shown one (-1 while none is stored). */
  class Simulator {
    const gridSize: nat
    var grid: Grid
    var history: seq<Grid>
    var currentStep: int
    var isRunning: bool

    ghost predicate Valid()
      reads this
    {
      Consistent(grid, history, currentStep, gridSize)
    }

    /** Page load: an empty board, then a random one that becomes history[0]. */
    constructor (size: nat, coins: seq<seq<real>>)
      requires Shaped(coins, size, size)
      ensures Valid() && gridSize == size && !isRunning
      ensures grid == Below(coins, size, size, 0.5)
      ensures history == [grid] && currentStep == 0
    {
      gridSize := size;
      grid := Blank(size, size);
      history := [];
      currentStep := -1;
      isRunning := false;
      new;
      RandomInitialization(coins);
    }

    method InitializeGrid()
      requires Valid()
      modifies this
      ensures Valid() && grid == Blank(gridSize, gridSize)
      ensures history == old(history) && currentStep == old(currentStep) && isRunning == old(isRunning)
    {
      grid := Blank(gridSize, gridSize);
    }

    /** The clipped Moore count: neighbours off the board are skipped. */
    method CountLiveNeighbors(row: int, col: int) returns (count: nat)
      requires Valid()
      ensures count == Neighbours(grid, gridSize, gridSize, Clamp, row, col)
      ensures count <= 8
    {
      count := 0;
      var i := -1;
      while i <= 1
        invariant -1 <= i <= 2
        invariant count == WindowSpan(grid, gridSize, gridSize, Clamp, row, col, -1, i)
      {
        var rowCount := CountRow(row, col, i);
        count := count + rowCount;
        i := i + 1;
      }
      NeighboursExpanded(grid, gridSize, gridSize, Clamp, row, col);
    }

    /** The inner loop of countLiveNeighbors: the live on-board cells at
        offsets (i, -1), (i, 0) and (i, 1), the centre excluded. */
    method CountRow(row: int, col: int, i: int) returns (count: nat)
      requires Valid()
      ensures count == RowSpan(grid, gridSize, gridSize, Clamp, row, col, i, -1, 2)
    {
      count := 0;
      var j := -1;
      while j <= 1
        invariant -1 <= j <= 2
        invariant count == RowSpan(grid, gridSize, gridSize, Clamp, row, col, i, -1, j)
      {
        if !(i == 0 && j == 0) {
          var neighborRow := row + i;
          var neighborCol := col + j;
          if neighborRow >= 0 && neighborRow < gridSize && neighborCol >= 0 && neighborCol < gridSize {
            count := count + if grid[neighborRow][neighborCol] then 1 else 0;
          }
        }
        j := j + 1;
      }
    }

    /** A fresh board, every cell decided from the unchanged current board. */
    method GetNextGeneration() returns (nextGrid: Grid)
      requires Valid()
      ensures nextGrid == NextGeneration(grid, gridSize, gridSize, Clamp)
    {
      nextGrid := Blank(gridSize, gridSize);
      var row := 0;
      while row < gridSize
        invariant 0 <= row <= gridSize
        invariant Shaped(nextGrid, gridSize, gridSize)
        invariant forall r :: 0 <= r < row ==> nextGrid[r] == NextGeneration(grid, gridSize, gridSize, Clamp)[r]
      {
        var line := NextRow(row);
        nextGrid := nextGrid[row := line];
        row := row + 1;
      }
    }

    /** The inner loop of getNextGeneration: row `row` of the new board. */
    method NextRow(row: int) returns (line: seq<bool>)
      requires Valid() && 0 <= row < gridSize
      ensures line == NextGeneration(grid, gridSize, gridSize, Clamp)[row]
    {
      line := Blank(1, gridSize)[0];
      var col := 0;
      while col < gridSize
        invariant 0 <= col <= gridSize && |line| == gridSize
        invariant forall c :: 0 <= c < col ==>
                    line[c] == Rule(grid[row][c], Neighbours(grid, gridSize, gridSize, Clamp, row, c))
      {
        var neighbors := CountLiveNeighbors(row, col);
        var alive: bool;
        if grid[row][col] {
          if neighbors < 2 || neighbors > 3 {
            alive := false;  // under- or overpopulation
          } else {
            alive := true;   // survives
          }
        } else {
          if neighbors == 3 {
            alive := true;   // reproduction
          } else {
            alive := false;
          }
        }
        line := line[col := alive];
        col := col + 1;
      }
    }

    /** One generation forward from the shown board: a stale future is cut
        off, the new board is appended and shown, the oldest entry goes once
        the history is over the cap. */
    method StepSimulation()
      requires Valid()
      modifies this
      ensures Valid()
      ensures grid == NextGeneration(old(grid), gridSize, gridSize, Clamp)
      ensures history == Evict(old(history)[..old(currentStep) + 1] + [grid], MaxHistoryLength)
      ensures currentStep == |history| - 1 && history[currentStep] == grid
      ensures isRunning == old(isRunning)
    {
      ghost var kept := history[..currentStep + 1];
      var next := GetNextGeneration();
      assert next == NextGeneration(old(grid), gridSize, gridSize, Clamp);
      Record(next);
      assert history == Evict(kept + [next], MaxHistoryLength);
    }

    /** The history part of stepSimulation: `next` becomes the shown board
        and the newest entry, right after the cursor. */
    method Record(next: Grid)
      requires Valid() && Shaped(next, gridSize, gridSize)
      modifies this
      ensures Valid() && grid == next
      ensures history == Evict(old(history)[..old(currentStep) + 1] + [next], MaxHistoryLength)
      ensures currentStep == |history| - 1 && history[currentStep] == next
      ensures isRunning == old(isRunning)
    {
      var h, step := Push(grid, history, currentStep, next, gridSize);
      grid := next;
      history := h;
      currentStep := step;
    }

    method StartSimulation()
      requires Valid()
      modifies this
      ensures Valid() && isRunning
      ensures grid == old(grid) && history == old(history) && currentStep == old(currentStep)
    {
      if !isRunning {
        isRunning := true;
      }
    }

    method PauseSimulation()
      requires Valid()
      modifies this
      ensures Valid() && !isRunning
      ensures grid == old(grid) && history == old(history) && currentStep == old(currentStep)
    {
      if isRunning {
        isRunning := false;
      }
    }

    /** Restart: a fresh random board and an empty history with no cursor. */
    method RestartSimulation(coins: seq<seq<real>>)
      requires Valid() && Shaped(coins, gridSize, gridSize)
      modifies this
      ensures Valid() && !isRunning
      ensures grid == Below(coins, gridSize, gridSize, 0.5)
      ensures history == [] && currentStep == -1
    {
      PauseSimulation();
      InitializeGrid();
      RandomInitialization(coins);
      history := [];
      currentStep := -1;
    }

    /** Replays a stored board when behind the newest entry, computes a new
        one at the newest entry, and does nothing with no history. */
    method StepForward()
      requires Valid()
      modifies this
      ensures Valid() && !isRunning
      ensures old(history) == [] ==>
        grid == old(grid) && history == [] && currentStep == old(currentStep)
      ensures old(history) != [] && old(currentStep) < |old(history)| - 1 ==>
        history == old(history) && currentStep == old(currentStep) + 1 && grid == history[currentStep]
      ensures old(history) != [] && old(currentStep) == |old(history)| - 1 ==>
        && grid == NextGeneration(old(grid), gridSize, gridSize, Clamp)
        && history == Evict(old(history) + [grid], MaxHistoryLength)
        && currentStep == |history| - 1
    {
      PauseSimulation();
      if |history| == 0 {
        return;
      }
      if currentStep < |history| - 1 {
        currentStep := currentStep + 1;
        grid := history[currentStep];
      } else {
        StepSimulation();
      }
    }

    /** Shows the previous stored board; nothing happens at the first entry. */
    method StepBackward()
      requires Valid()
      modifies this
      ensures Valid() && !isRunning && history == old(history)
      ensures old(currentStep) > 0 ==> currentStep == old(currentStep) - 1 && grid == history[currentStep]
      ensures old(currentStep) <= 0 ==> currentStep == old(currentStep) && grid == old(grid)
    {
      PauseSimulation();
      if |history| == 0 {
        return;
      }
      if currentStep > 0 {
        currentStep := currentStep - 1;
        grid := history[currentStep];
      }
    }

    /** A click on the timeline at entry `step`; other positions are ignored. */
    method JumpTo(step: int)
      requires Valid()
      modifies this
      ensures Valid() && !isRunning && history == old(history)
      ensures 0 <= step < |history| ==> currentStep == step && grid == history[step]
      ensures !(0 <= step < |history|) ==> currentStep == old(currentStep) && grid == old(grid)
    {
      PauseSimulation();
      if step >= 0 && step < |history| {
        currentStep := step;
        grid := history[currentStep];
      }
    }

    /** Each cell alive when its coin is below one half; the board becomes
        history[0] only when nothing is stored yet. */
    method RandomInitialization(coins: seq<seq<real>>)
      requires Valid() && Shaped(coins, gridSize, gridSize)
      modifies this
      ensures Valid() && isRunning == old(isRunning)
      ensures grid == Below(coins, gridSize, gridSize, 0.5)
      ensures old(history) == [] ==> history == [grid] && currentStep == 0
      ensures old(history) != [] ==> history == old(history) && currentStep == old(currentStep)
    {
      var g := grid;
      var row := 0;
      while row < gridSize
        invariant 0 <= row <= gridSize
        invariant Shaped(g, gridSize, gridSize)
        invariant forall r, c :: 0 <= r < row && 0 <= c < gridSize ==> g[r][c] == (coins[r][c] < 0.5)
      {
        var col := 0;
        while col < gridSize
          invariant 0 <= col <= gridSize
          invariant Shaped(g, gridSize, gridSize)
          invariant forall r, c :: 0 <= r < row && 0 <= c < gridSize ==> g[r][c] == (coins[r][c] < 0.5)
          invariant forall c :: 0 <= c < col ==> g[row][c] == (coins[row][c] < 0.5)
        {
          g := g[row := g[row][col := coins[row][col] < 0.5]];
          col := col + 1;
        }
        row := row + 1;
      }
      ghost var spec := Below(coins, gridSize, gridSize, 0.5);
      assert forall r | 0 <= r < gridSize :: g[r] == spec[r];
      grid := g;
      if |history| == 0 {
        history := history + [grid];
        currentStep := 0;
      }
    }

    /** As RandomInitialization, but alive where the noise sample exceeds one half. */
    method PerlinInitialization(noise: seq<seq<real>>)
      requires Valid() && Shaped(noise, gridSize, gridSize)
      modifies this
      ensures Valid() && isRunning == old(isRunning)
      ensures grid == Above(noise, gridSize, gridSize, 0.5)
      ensures old(history) == [] ==> history == [grid] && currentStep == 0
      ensures old(history) != [] ==> history == old(history) && currentStep == old(currentStep)
    {
      var g := grid;
      var row := 0;
      while row < gridSize
        invariant 0 <= row <= gridSize
        invariant Shaped(g, gridSize, gridSize)
        invariant forall r, c :: 0 <= r < row && 0 <= c < gridSize ==> g[r][c] == (noise[r][c] > 0.5)
      {
        var col := 0;
        while col < gridSize
          invariant 0 <= col <= gridSize
          invariant Shaped(g, gridSize, gridSize)
          invariant forall r, c :: 0 <= r < row && 0 <= c < gridSize ==> g[r][c] == (noise[r][c] > 0.5)
          invariant forall c :: 0 <= c < col ==> g[row][c] == (noise[row][c] > 0.5)
        {
          g := g[row := g[row][col := noise[row][col] > 0.5]];
          col := col + 1;
        }
        row := row + 1;
      }
      ghost var spec := Above(noise, gridSize, gridSize, 0.5);
      assert forall r | 0 <= r < gridSize :: g[r] == spec[r];
      grid := g;
      if |history| == 0 {
        history := history + [grid];
        currentStep := 0;
      }
    }

    /** Copies the named pattern, live and dead cells alike, onto the board
        centred on it; cells that fall off the board are skipped; an unknown
        name changes nothing. */
    method AddPattern(name: string)
      requires Valid()
      modifies this
      ensures Valid() && !isRunning
      ensures history == old(history) && currentStep == old(currentStep)
      ensures GetPattern(name).None? ==> grid == old(grid)
      ensures GetPattern(name).Some? ==>
        grid == Stamped(old(grid), gridSize, GetPattern(name).value,
                        StartOffset(gridSize, |GetPattern(name).value|),
                        StartOffset(gridSize, |GetPattern(name).value[0]|))
    {
      PauseSimulation();
      var pattern := GetPattern(name);
      if pattern.Some? {
        var pat := pattern.value;
        var startRow := StartOffset(gridSize, |pat|);
        var startCol := StartOffset(gridSize, |pat[0]|);
        grid := CopyOnto(grid, gridSize, pat, startRow, startCol);
      }
    }

    /** A click on cell (row, col): flips it unless the simulation runs or
        the cell is off the board. */
    method ClickCell(row: int, col: int)
      requires Valid()
      modifies this
      ensures Valid()
      ensures history == old(history) && currentStep == old(currentStep) && isRunning == old(isRunning)
      ensures !old(isRunning) && InGrid(gridSize, gridSize, row, col) ==> grid[row][col] == !old(grid)[row][col]
      ensures forall r, c :: InGrid(gridSize, gridSize, r, c) && (old(isRunning) || r != row || c != col) ==>
        grid[r][c] == old(grid)[r][c]
    {
      if isRunning {
        return;
      }
      if row >= 0 && row < gridSize && col >= 0 && col < gridSize {
        grid := grid[row := grid[row][col := !grid[row][col]]];
      }
    }

    /** The timeline's data: one population per stored board, in order. */
    function TimelineCounts(): (counts: seq<nat>)
      requires Valid()
      reads this
      ensures |counts| == |history|
      ensures forall k :: 0 <= k < |history| ==> counts[k] == LiveCells(history[k]) <= gridSize * gridSize
    {
      var h := history;
      TimelineBound(h, gridSize);
      seq(|h|, k requires 0 <= k < |h| => LiveCells(h[k]))
    }
  }
}

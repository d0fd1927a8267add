/** The simulator of JS_HTML_CSS/OpenAI_o3_mini_high/script.js: a square 0/1
    board with a clipped boundary, an append-only list of boards with a
    parallel list of their populations, and a cursor into it. */
module OpenAIScript {
  import opened Life

  /** The glider's offsets; addPattern shifts them by -1 in both directions. */
  const GliderOffsets: seq<(int, int)> := [(0, 1), (1, 2), (2, 0), (2, 1), (2, 2)]

  /** The simplified pulsar's 48 offsets around the centre. */
  const PulsarOffsets: seq<(int, int)> := [
    (-6, -4), (-6, -3), (-6, -2),
    (-1, -4), (-1, -3), (-1, -2),
    (-4, -6), (-3, -6), (-2, -6),
    (-4, -1), (-3, -1), (-2, -1),
    (1, -4), (1, -3), (1, -2),
    (6, -4), (6, -3), (6, -2),
    (4, -6), (3, -6), (2, -6),
    (4, -1), (3, -1), (2, -1),
    (-6, 2), (-6, 3), (-6, 4),
    (-1, 2), (-1, 3), (-1, 4),
    (-4, 6), (-3, 6), (-2, 6),
    (-4, 1), (-3, 1), (-2, 1),
    (1, 2), (1, 3), (1, 4),
    (6, 2), (6, 3), (6, 4),
    (4, 6), (3, 6), (2, 6),
    (4, 1), (3, 1), (2, 1)]

  /** An all-zero size x size board, built row by row. */
  method CreateEmptyBoard(size: nat) returns (arr: Board)
    ensures Shaped(arr, size, size)
    ensures ToGrid(arr) == Blank(size, size)
  {
    arr := [];
    var i := 0;
    while i < size
      invariant 0 <= i <= size
      invariant |arr| == i
      invariant forall r :: 0 <= r < i ==> |arr[r]| == size && forall c :: 0 <= c < size ==> arr[r][c] == 0
    {
      var row: seq<Bit> := [];
      var j := 0;
      while j < size
        invariant 0 <= j <= size
        invariant |row| == j && forall c :: 0 <= c < j ==> row[c] == 0
      {
        row := row + [0];
        j := j + 1;
      }
      arr := arr + [row];
      i := i + 1;
    }
    ghost var g := ToGrid(arr);
    ghost var blank := Blank(size, size);
    assert forall r | 0 <= r < size :: g[r] == blank[r];
  }

  /** The page's state. */
  class Simulator {
    var gridSize: nat
    var board: Board
    var isRunning: bool
    var currentStep: nat
    var simulationSteps: seq<Board>
    var liveCounts: seq<nat>
    /** Whether a mouse drag that began while stopped is in progress. */
    var isDrawing: bool

    /** Both lists grow together, every entry has the board's size and its
        recorded population, and the cursor is at most one past the end. */
    ghost predicate Valid()
      reads this
    {
      && Shaped(board, gridSize, gridSize)
      && |simulationSteps| == |liveCounts|
      && (forall k :: 0 <= k < |simulationSteps| ==>
            Shaped(simulationSteps[k], gridSize, gridSize) && liveCounts[k] == LiveCells(ToGrid(simulationSteps[k])))
      && currentStep <= |simulationSteps|
    }

    /** Page load: an empty board and nothing recorded. */
    constructor (size: nat)
      ensures Valid() && gridSize == size && !isRunning
      ensures ToGrid(board) == Blank(size, size)
      ensures simulationSteps == [] && liveCounts == [] && currentStep == 0 && !isDrawing
    {
      var empty := CreateEmptyBoard(size);
      gridSize := size;
      board := empty;
      isRunning := false;
      currentStep := 0;
      simulationSteps := [];
      liveCounts := [];
      isDrawing := false;
    }

    /** The number of live cells of a board. */
    method CountLiveCells(boardState: Board) returns (count: nat)
      requires Shaped(boardState, gridSize, gridSize)
      ensures count == LiveCells(ToGrid(boardState))
      ensures count <= gridSize * gridSize
    {
      ghost var g := ToGrid(boardState);
      count := 0;
      var i := 0;
      while i < gridSize
        invariant 0 <= i <= gridSize
        invariant count == LiveCells(g[..i])
      {
        var j := 0;
        while j < gridSize
          invariant 0 <= j <= gridSize
          invariant count == LiveCells(g[..i]) + RowLive(g[i][..j])
        {
          assert g[i][..j + 1][..j] == g[i][..j];
          if boardState[i][j] != 0 {
            count := count + 1;
          }
          j := j + 1;
        }
        assert g[i][..gridSize] == g[i];
        assert g[..i + 1][..i] == g[..i];
        i := i + 1;
      }
      assert g[..gridSize] == g;
      LiveCellsBound(g, gridSize, gridSize);
    }

    /** The clipped Moore count of cell (x, y). */
    method CountLiveNeighbors(boardState: Board, x: int, y: int) returns (count: nat)
      requires Shaped(boardState, gridSize, gridSize)
      ensures count == Neighbours(ToGrid(boardState), gridSize, gridSize, Clamp, x, y)
      ensures count <= 8
    {
      count := 0;
      var i := -1;
      while i <= 1
        invariant -1 <= i <= 2
        invariant count == WindowSpan(ToGrid(boardState), gridSize, gridSize, Clamp, x, y, -1, i)
      {
        var rowCount := CountRow(boardState, x, y, i);
        count := count + rowCount;
        i := i + 1;
      }
      NeighboursExpanded(ToGrid(boardState), gridSize, gridSize, Clamp, x, y);
    }

    /** The inner loop of countLiveNeighbors: the live on-board cells at
        offsets (i, -1), (i, 0) and (i, 1), the centre excluded. */
    method CountRow(boardState: Board, x: int, y: int, i: int) returns (count: nat)
      requires Shaped(boardState, gridSize, gridSize)
      ensures count == RowSpan(ToGrid(boardState), gridSize, gridSize, Clamp, x, y, i, -1, 2)
    {
      ghost var g := ToGrid(boardState);
      count := 0;
      var j := -1;
      while j <= 1
        invariant -1 <= j <= 2
        invariant count == RowSpan(g, gridSize, gridSize, Clamp, x, y, i, -1, j)
      {
        if !(i == 0 && j == 0) {
          var nx := x + i;
          var ny := y + j;
          if nx >= 0 && nx < gridSize && ny >= 0 && ny < gridSize {
            assert g[nx][ny] == (boardState[nx][ny] == 1);
            if boardState[nx][ny] != 0 {
              count := count + 1;
            }
          }
        }
        j := j + 1;
      }
    }

    /** A fresh 0/1 board by B3/S23 from the unchanged `current`. */
    method ComputeNextBoard(current: Board) returns (newBoard: Board)
      requires Shaped(current, gridSize, gridSize)
      ensures Shaped(newBoard, gridSize, gridSize)
      ensures ToGrid(newBoard) == NextGeneration(ToGrid(current), gridSize, gridSize, Clamp)
    {
      ghost var spec := NextGeneration(ToGrid(current), gridSize, gridSize, Clamp);
      newBoard := CreateEmptyBoard(gridSize);
      var i := 0;
      while i < gridSize
        invariant 0 <= i <= gridSize
        invariant Shaped(newBoard, gridSize, gridSize)
        invariant forall r :: 0 <= r < i ==> newBoard[r] == FromGrid(spec)[r]
      {
        var row := NextRow(current, newBoard[i], i);
        newBoard := newBoard[i := row];
        i := i + 1;
      }
      assert newBoard == FromGrid(spec);
      EncodingRoundTrip(newBoard, spec);
    }

    /** The inner loop of computeNextBoard: row i of the new board, cell by cell. */
    method NextRow(current: Board, blank: seq<Bit>, i: int) returns (row: seq<Bit>)
      requires Shaped(current, gridSize, gridSize) && 0 <= i < gridSize && |blank| == gridSize
      ensures row == FromGrid(NextGeneration(ToGrid(current), gridSize, gridSize, Clamp))[i]
    {
      ghost var target := FromGrid(NextGeneration(ToGrid(current), gridSize, gridSize, Clamp))[i];
      row := blank;
      var j := 0;
      while j < gridSize
        invariant 0 <= j <= gridSize && |row| == gridSize
        invariant forall c :: 0 <= c < j ==> row[c] == target[c]
      {
        var cell := NextCell(current, i, j);
        row := row[j := cell];
        j := j + 1;
      }
    }

    /** The body of computeNextBoard's loop: a live cell stays with two or
        three live neighbours, a dead one is born with exactly three. */
    method NextCell(current: Board, i: int, j: int) returns (cell: Bit)
      requires Shaped(current, gridSize, gridSize) && InGrid(gridSize, gridSize, i, j)
      ensures (cell == 1) == Rule(current[i][j] == 1, Neighbours(ToGrid(current), gridSize, gridSize, Clamp, i, j))
      ensures cell == FromGrid(NextGeneration(ToGrid(current), gridSize, gridSize, Clamp))[i][j]
    {
      var liveNeighbors := CountLiveNeighbors(current, i, j);
      if current[i][j] != 0 {
        cell := if liveNeighbors == 2 || liveNeighbors == 3 then 1 else 0;
      } else {
        cell := if liveNeighbors == 3 then 1 else 0;
      }
    }

    /** Shows a copy of the recorded board at `index`; other indices are ignored. */
    method JumpToGeneration(index: int)
      requires Valid()
      modifies this
      ensures isDrawing == old(isDrawing)
      ensures Valid()
      ensures simulationSteps == old(simulationSteps) && liveCounts == old(liveCounts)
      ensures gridSize == old(gridSize) && isRunning == old(isRunning)
      ensures 0 <= index < |simulationSteps| ==> currentStep == index && board == simulationSteps[index]
      ensures !(0 <= index < |simulationSteps|) ==> currentStep == old(currentStep) && board == old(board)
    {
      if index < 0 || index >= |simulationSteps| {
        return;
      }
      currentStep := index;
      board := simulationSteps[index];
    }

    /** One tick: the next board is shown and appended with its population;
        nothing recorded is ever removed. */
    method SimulationStep()
      requires Valid()
      modifies this
      ensures isDrawing == old(isDrawing)
      ensures Valid()
      ensures gridSize == old(gridSize) && isRunning == old(isRunning)
      ensures ToGrid(board) == NextGeneration(ToGrid(old(board)), gridSize, gridSize, Clamp)
      ensures simulationSteps == old(simulationSteps) + [board]
      ensures liveCounts == old(liveCounts) + [LiveCells(ToGrid(board))]
      ensures currentStep == old(currentStep) + 1
    {
      var next := ComputeNextBoard(board);
      Record(next);
    }

    /** The bookkeeping of simulationStep: `next` is shown and appended, and
        its population is counted and appended too. */
    method Record(next: Board)
      requires Valid() && Shaped(next, gridSize, gridSize)
      modifies this
      ensures isDrawing == old(isDrawing)
      ensures Valid()
      ensures gridSize == old(gridSize) && isRunning == old(isRunning) && board == next
      ensures simulationSteps == old(simulationSteps) + [next]
      ensures liveCounts == old(liveCounts) + [LiveCells(ToGrid(next))]
      ensures currentStep == old(currentStep) + 1
    {
      board := next;
      simulationSteps := simulationSteps + [board];
      currentStep := currentStep + 1;
      var count := CountLiveCells(board);
      liveCounts := liveCounts + [count];
    }

    /** The grid-size slider: a new empty board and both lists cleared. */
    method GridSizeChanged(newSize: nat)
      requires Valid()
      modifies this
      ensures isDrawing == old(isDrawing)
      ensures Valid() && gridSize == newSize && isRunning == old(isRunning)
      ensures ToGrid(board) == Blank(newSize, newSize)
      ensures simulationSteps == [] && liveCounts == [] && currentStep == 0
    {
      gridSize := newSize;
      board := CreateEmptyBoard(gridSize);
      simulationSteps := [];
      liveCounts := [];
      currentStep := 0;
    }

    /** Start: the shown board is recorded first when nothing is recorded yet. */
    method Start()
      requires Valid()
      modifies this
      ensures isDrawing == old(isDrawing)
      ensures Valid() && isRunning
      ensures board == old(board) && gridSize == old(gridSize) && currentStep == old(currentStep)
      ensures !old(isRunning) && old(simulationSteps) == [] ==>
        simulationSteps == [board] && liveCounts == [LiveCells(ToGrid(board))]
      ensures old(isRunning) || old(simulationSteps) != [] ==>
        simulationSteps == old(simulationSteps) && liveCounts == old(liveCounts)
    {
      if !isRunning {
        isRunning := true;
        if |simulationSteps| == 0 {
          simulationSteps := simulationSteps + [board];
          var count := CountLiveCells(board);
          liveCounts := liveCounts + [count];
        }
      }
    }

    method Pause()
      requires Valid()
      modifies this
      ensures isDrawing == old(isDrawing)
      ensures Valid() && !isRunning
      ensures board == old(board) && gridSize == old(gridSize) && currentStep == old(currentStep)
      ensures simulationSteps == old(simulationSteps) && liveCounts == old(liveCounts)
    {
      if isRunning {
        isRunning := false;
      }
    }

    /** Restart: stopped, an empty board, both lists cleared. */
    method Restart()
      requires Valid()
      modifies this
      ensures isDrawing == old(isDrawing)
      ensures Valid() && !isRunning && gridSize == old(gridSize)
      ensures ToGrid(board) == Blank(gridSize, gridSize)
      ensures simulationSteps == [] && liveCounts == [] && currentStep == 0
    {
      if isRunning {
        isRunning := false;
      }
      board := CreateEmptyBoard(gridSize);
      simulationSteps := [];
      liveCounts := [];
      currentStep := 0;
    }

    /** The step-forward button: one tick, only while paused. */
    method StepForwardClicked()
      requires Valid()
      modifies this
      ensures isDrawing == old(isDrawing)
      ensures Valid() && gridSize == old(gridSize) && isRunning == old(isRunning)
      ensures old(isRunning) ==>
        && board == old(board) && currentStep == old(currentStep)
        && simulationSteps == old(simulationSteps) && liveCounts == old(liveCounts)
      ensures !old(isRunning) ==>
        && ToGrid(board) == NextGeneration(ToGrid(old(board)), gridSize, gridSize, Clamp)
        && simulationSteps == old(simulationSteps) + [board]
        && liveCounts == old(liveCounts) + [LiveCells(ToGrid(board))]
        && currentStep == old(currentStep) + 1
    {
      if !isRunning {
        SimulationStep();
      }
    }

    /** The step-backward button: only while paused and past the first entry. */
    method StepBackwardClicked()
      requires Valid()
      modifies this
      ensures isDrawing == old(isDrawing)
      ensures Valid() && gridSize == old(gridSize) && isRunning == old(isRunning)
      ensures simulationSteps == old(simulationSteps) && liveCounts == old(liveCounts)
      ensures !old(isRunning) && old(currentStep) > 0 ==>
        currentStep == old(currentStep) - 1 && board == simulationSteps[currentStep]
      ensures old(isRunning) || old(currentStep) == 0 ==>
        currentStep == old(currentStep) && board == old(board)
    {
      if !isRunning && currentStep > 0 {
        currentStep := currentStep - 1;
        board := simulationSteps[currentStep];
      }
    }

    /** Random initialisation: a cell is 1 when its coin exceeds one half. */
    method RandomInit(coins: seq<seq<real>>)
      requires Valid() && Shaped(coins, gridSize, gridSize)
      modifies this
      ensures isDrawing == old(isDrawing)
      ensures gridSize == old(gridSize) && isRunning == old(isRunning) && currentStep == old(currentStep)
      ensures Valid() && ToGrid(board) == Above(coins, gridSize, gridSize, 0.5)
      ensures simulationSteps == old(simulationSteps) && liveCounts == old(liveCounts)
    {
      var b: Board := board;
      var i := 0;
      while i < gridSize
        invariant 0 <= i <= gridSize
        invariant Shaped(b, gridSize, gridSize)
        invariant forall r, c :: 0 <= r < i && 0 <= c < gridSize ==> (b[r][c] == 1) == (coins[r][c] > 0.5)
      {
        var j := 0;
        while j < gridSize
          invariant 0 <= j <= gridSize
          invariant Shaped(b, gridSize, gridSize)
          invariant forall r, c :: 0 <= r < i && 0 <= c < gridSize ==> (b[r][c] == 1) == (coins[r][c] > 0.5)
          invariant forall c :: 0 <= c < j ==> (b[i][c] == 1) == (coins[i][c] > 0.5)
        {
          var cell: Bit := if coins[i][j] > 0.5 then 1 else 0;
          var row: seq<Bit> := b[i][j := cell];
          b := b[i := row];
          j := j + 1;
        }
        i := i + 1;
      }
      ghost var g := ToGrid(b);
      ghost var spec := Above(coins, gridSize, gridSize, 0.5);
      assert forall r | 0 <= r < gridSize :: g[r] == spec[r];
      board := b;
    }

    /** Procedural generation: a cell is 1 when its noise sample is positive. */
    method ProceduralGen(noise: seq<seq<real>>)
      requires Valid() && Shaped(noise, gridSize, gridSize)
      modifies this
      ensures isDrawing == old(isDrawing)
      ensures gridSize == old(gridSize) && isRunning == old(isRunning) && currentStep == old(currentStep)
      ensures Valid() && ToGrid(board) == Above(noise, gridSize, gridSize, 0.0)
      ensures simulationSteps == old(simulationSteps) && liveCounts == old(liveCounts)
    {
      var b: Board := board;
      var i := 0;
      while i < gridSize
        invariant 0 <= i <= gridSize
        invariant Shaped(b, gridSize, gridSize)
        invariant forall r, c :: 0 <= r < i && 0 <= c < gridSize ==> (b[r][c] == 1) == (noise[r][c] > 0.0)
      {
        var j := 0;
        while j < gridSize
          invariant 0 <= j <= gridSize
          invariant Shaped(b, gridSize, gridSize)
          invariant forall r, c :: 0 <= r < i && 0 <= c < gridSize ==> (b[r][c] == 1) == (noise[r][c] > 0.0)
          invariant forall c :: 0 <= c < j ==> (b[i][c] == 1) == (noise[i][c] > 0.0)
        {
          var cell: Bit := if noise[i][j] > 0.0 then 1 else 0;
          var row: seq<Bit> := b[i][j := cell];
          b := b[i := row];
          j := j + 1;
        }
        i := i + 1;
      }
      ghost var g := ToGrid(b);
      ghost var spec := Above(noise, gridSize, gridSize, 0.0);
      assert forall r | 0 <= r < gridSize :: g[r] == spec[r];
      board := b;
    }

    /** The add-pattern button: any non-empty selection is stamped at the centre. */
    method AddPatternClicked(pattern: string)
      requires Valid()
      modifies this
      ensures isDrawing == old(isDrawing)
      ensures Valid() && gridSize == old(gridSize) && isRunning == old(isRunning) && currentStep == old(currentStep)
      ensures simulationSteps == old(simulationSteps) && liveCounts == old(liveCounts)
      ensures board == Stamp(old(board), gridSize, pattern, gridSize / 2, gridSize / 2)
    {
      if pattern != "" {
        var centerX := gridSize / 2;
        var centerY := gridSize / 2;
        AddPattern(pattern, centerX, centerY);
      }
    }

    /** Sets the pattern's on-board cells to 1 and clears none; an unknown
        name changes nothing. */
    method AddPattern(pattern: string, centerX: int, centerY: int)
      requires Valid()
      modifies this
      ensures isDrawing == old(isDrawing)
      ensures Valid() && gridSize == old(gridSize) && isRunning == old(isRunning) && currentStep == old(currentStep)
      ensures simulationSteps == old(simulationSteps) && liveCounts == old(liveCounts)
      ensures board == Stamp(old(board), gridSize, pattern, centerX, centerY)
    {
      if pattern == "glider" {
        board := MarkOffsets(board, gridSize, GliderOffsets, centerX - 1, centerY - 1);
      } else if pattern == "pulsar" {
        board := MarkOffsets(board, gridSize, PulsarOffsets, centerX, centerY);
      }
    }

    /** Flips cell (i, j) between 0 and 1; off-board positions are ignored. */
    method ToggleCell(i: int, j: int)
      requires Valid()
      modifies this
      ensures isDrawing == old(isDrawing)
      ensures Valid() && gridSize == old(gridSize) && isRunning == old(isRunning) && currentStep == old(currentStep)
      ensures simulationSteps == old(simulationSteps) && liveCounts == old(liveCounts)
      ensures InGrid(gridSize, gridSize, i, j) ==> board[i][j] == 1 - old(board)[i][j]
      ensures forall r, c :: InGrid(gridSize, gridSize, r, c) && (r != i || c != j) ==> board[r][c] == old(board)[r][c]
    {
      if i >= 0 && i < gridSize && j >= 0 && j < gridSize {
        var cell: Bit := if board[i][j] != 0 then 0 else 1;
        var row: seq<Bit> := board[i][j := cell];
        board := board[i := row];
      }
    }

    /** Mouse down: while stopped, a drag begins and the cell under the
        mouse flips; while running, nothing happens. */
    method MouseDown(i: int, j: int)
      requires Valid()
      modifies this
      ensures Valid() && gridSize == old(gridSize) && isRunning == old(isRunning) && currentStep == old(currentStep)
      ensures simulationSteps == old(simulationSteps) && liveCounts == old(liveCounts)
      ensures old(isRunning) ==> board == old(board) && isDrawing == old(isDrawing)
      ensures !old(isRunning) ==> isDrawing
      ensures !old(isRunning) && InGrid(gridSize, gridSize, i, j) ==> board[i][j] == 1 - old(board)[i][j]
      ensures forall r, c :: InGrid(gridSize, gridSize, r, c) && (r != i || c != j) ==> board[r][c] == old(board)[r][c]
    {
      if !isRunning {
        isDrawing := true;
        ToggleCell(i, j);
      }
    }

    /** Mouse move: flips the cell under the mouse only during a drag and
        only while stopped. */
    method MouseMove(i: int, j: int)
      requires Valid()
      modifies this
      ensures Valid() && gridSize == old(gridSize) && isRunning == old(isRunning) && currentStep == old(currentStep)
      ensures simulationSteps == old(simulationSteps) && liveCounts == old(liveCounts) && isDrawing == old(isDrawing)
      ensures !(isDrawing && !isRunning) ==> board == old(board)
      ensures isDrawing && !isRunning && InGrid(gridSize, gridSize, i, j) ==> board[i][j] == 1 - old(board)[i][j]
      ensures forall r, c :: InGrid(gridSize, gridSize, r, c) && (r != i || c != j) ==> board[r][c] == old(board)[r][c]
    {
      if isDrawing && !isRunning {
        ToggleCell(i, j);
      }
    }

    /** Mouse up: the drag ends. */
    method MouseUp()
      requires Valid()
      modifies this
      ensures Valid() && !isDrawing
      ensures board == old(board) && gridSize == old(gridSize) && isRunning == old(isRunning) && currentStep == old(currentStep)
      ensures simulationSteps == old(simulationSteps) && liveCounts == old(liveCounts)
    {
      isDrawing := false;
    }
  }

  /** The board after addPattern(pattern, cx, cy). */
  function Stamp(b: Board, size: nat, pattern: string, cx: int, cy: int): (r: Board)
    requires Shaped(b, size, size)
    ensures Shaped(r, size, size)
    ensures forall x, y :: InGrid(size, size, x, y) ==> b[x][y] <= r[x][y]
    ensures pattern != "glider" && pattern != "pulsar" ==> r == b
  {
    if pattern == "glider" then Marked(b, size, size, GliderOffsets, cx - 1, cy - 1, 1)
    else if pattern == "pulsar" then Marked(b, size, size, PulsarOffsets, cx, cy, 1)
    else b
  }

  /** Adding the same pattern at the same place twice changes nothing the
      second time. */
  lemma StampTwice(b: Board, size: nat, pattern: string, cx: int, cy: int)
    requires Shaped(b, size, size)
    ensures Stamp(Stamp(b, size, pattern, cx, cy), size, pattern, cx, cy) == Stamp(b, size, pattern, cx, cy)
  {
    if pattern == "glider" {
      MarkedTwice(b, size, size, GliderOffsets, cx - 1, cy - 1, 1);
    } else if pattern == "pulsar" {
      MarkedTwice(b, size, size, PulsarOffsets, cx, cy, 1);
    }
  }

  /** The forEach of addPattern: each offset that lands on the board sets its cell to 1. */
  method MarkOffsets(board: Board, size: nat, offsets: seq<(int, int)>, ax: int, ay: int) returns (b: Board)
    requires Shaped(board, size, size)
    ensures b == Marked(board, size, size, offsets, ax, ay, 1)
  {
    b := board;
    var k := 0;
    while k < |offsets|
      invariant 0 <= k <= |offsets|
      invariant b == Marked(board, size, size, offsets[..k], ax, ay, 1)
    {
      var x := ax + offsets[k].0;
      var y := ay + offsets[k].1;
      if x >= 0 && x < size && y >= 0 && y < size {
        var row: seq<Bit> := b[x][y := 1];
        b := b[x := row];
      }
      assert offsets[..k + 1][..k] == offsets[..k];
      k := k + 1;
    }
    assert offsets[..|offsets|] == offsets;
  }
}

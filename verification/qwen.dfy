/** The page script of JS_HTML_CSS/Qwen2.5/script.js: a square 0/1 board
    with a clipped boundary, drawn as gridSize * gridSize cells in row-major
    order, and a step-backward control over a history that nothing fills. */
module QwenScript {
  import opened Life

  /** The flat position of a cell among the board's children, row-major. */
  function CellIndex(row: nat, col: nat, size: nat): (index: nat)
    requires row < size && col < size
    ensures index < size * size
  {
    SlotBelowArea(row, col, size);
    row * size + col
  }

  lemma SlotBelowArea(row: nat, col: nat, size: nat)
    requires row < size && col < size
    ensures row * size + col < size * size
  {
    assert row * size <= (size - 1) * size;
  }

  /** toggleCellState recovers the row and the column a cell was drawn at. */
  lemma CellIndexRoundTrip(row: nat, col: nat, size: nat)
    requires row < size && col < size
    ensures CellIndex(row, col, size) / size == row
    ensures CellIndex(row, col, size) % size == col
  {
    DivUnique(row * size + col, size, row, col);
  }

  /** Every flat index in range names an on-board cell, and drawing that
      cell gives the index back. */
  lemma IndexCellRoundTrip(index: nat, size: nat)
    requires index < size * size
    ensures 0 < size
    ensures index / size < size && index % size < size
    ensures CellIndex(index / size, index % size, size) == index
  {
    var row := index / size;
    assert index == size * row + index % size;
    MulMono(size, size, row);
  }

  /** The page's state; `running` stands for a live interval timer. */
  class Simulator {
    var gridSize: nat
    var currentBoard: Board
    var history: seq<Board>
    var stepIndex: nat
    var running: bool

    ghost predicate Valid()
      reads this
    {
      && Shaped(currentBoard, gridSize, gridSize)
      && stepIndex <= |history|
      && (forall k :: 0 <= k < |history| ==> Shaped(history[k], gridSize, gridSize))
    }

    /** Page load: the board of the slider's size, nothing in the history. */
    constructor (size: nat)
      ensures Valid() && gridSize == size && currentBoard == Zeros(size, size)
      ensures history == [] && stepIndex == 0 && !running
    {
      gridSize := size;
      currentBoard := Zeros(size, size);
      history := [];
      stepIndex := 0;
      running := false;
    }

    /** A size x size board of dead cells; the history is left as it is. */
    method CreateBoard(size: nat)
      requires Valid() && (history == [] || size == gridSize)
      modifies this
      ensures Valid() && gridSize == size && currentBoard == Zeros(size, size)
      ensures history == old(history) && stepIndex == old(stepIndex) && running == old(running)
    {
      gridSize := size;
      currentBoard := Zeros(size, size);
    }

    /** The density slider: a new empty board of the chosen size. */
    method DensityChanged(size: nat)
      requires Valid() && history == []
      modifies this
      ensures Valid() && gridSize == size && currentBoard == Zeros(size, size)
      ensures history == old(history) && stepIndex == old(stepIndex) && running == old(running)
    {
      CreateBoard(size);
    }

    /** Flips the clicked cell, found from its position among the cells. */
    method ToggleCellState(index: nat)
      requires Valid() && index < gridSize * gridSize
      modifies this
      ensures Valid() && gridSize == old(gridSize)
      ensures history == old(history) && stepIndex == old(stepIndex) && running == old(running)
      ensures 0 < gridSize
      ensures currentBoard[index / gridSize][index % gridSize] == 1 - old(currentBoard)[index / gridSize][index % gridSize]
      ensures forall r, c :: InGrid(gridSize, gridSize, r, c) && CellIndex(r, c, gridSize) != index ==>
                currentBoard[r][c] == old(currentBoard)[r][c]
    {
      IndexCellRoundTrip(index, gridSize);
      var row := index / gridSize;
      var col := index % gridSize;
      var cell: Bit := if currentBoard[row][col] != 0 then 0 else 1;
      var line: seq<Bit> := currentBoard[row][col := cell];
      currentBoard := currentBoard[row := line];
      forall r, c | InGrid(gridSize, gridSize, r, c) && CellIndex(r, c, gridSize) != index
        ensures r != row || c != col
      {
        CellIndexRoundTrip(r, c, gridSize);
      }
    }

    /** The clipped Moore count of (row, col) on the current board. */
    method CountNeighbors(row: int, col: int) returns (count: nat)
      requires Shaped(currentBoard, gridSize, gridSize)
      ensures count == Neighbours(ToGrid(currentBoard), gridSize, gridSize, Clamp, row, col)
      ensures count <= 8
    {
      count := 0;
      var dr := -1;
      while dr <= 1
        invariant -1 <= dr <= 2
        invariant count == WindowSpan(ToGrid(currentBoard), gridSize, gridSize, Clamp, row, col, -1, dr)
      {
        var rowCount := CountRow(row, col, dr);
        count := count + rowCount;
        dr := dr + 1;
      }
      NeighboursExpanded(ToGrid(currentBoard), gridSize, gridSize, Clamp, row, col);
    }

    /** The inner loop of countNeighbors: the on-board cells at offsets
        (dr, -1), (dr, 0) and (dr, 1), the centre excluded, added as 0 or 1. */
    method CountRow(row: int, col: int, dr: int) returns (count: nat)
      requires Shaped(currentBoard, gridSize, gridSize)
      ensures count == RowSpan(ToGrid(currentBoard), gridSize, gridSize, Clamp, row, col, dr, -1, 2)
    {
      var board := currentBoard;
      var size := gridSize;
      ghost var g := ToGrid(board);
      count := 0;
      var dc := -1;
      while dc <= 1
        invariant -1 <= dc <= 2
        invariant count == RowSpan(g, size, size, Clamp, row, col, dr, -1, dc)
      {
        if !(dr == 0 && dc == 0) {
          var r := row + dr;
          var c := col + dc;
          if r >= 0 && r < size && c >= 0 && c < size {
            assert g[r][c] == (board[r][c] == 1);
            count := count + board[r][c];
          }
        }
        dc := dc + 1;
      }
    }

    /** One generation: a copy of the board in which only the dying cells
        (live with fewer than two or more than three neighbours) and the born
        cells (dead with exactly three) are rewritten, counted on the old board. */
    method ComputeNextGeneration()
      requires Valid()
      modifies this
      ensures Valid() && gridSize == old(gridSize)
      ensures ToGrid(currentBoard) == NextGeneration(ToGrid(old(currentBoard)), gridSize, gridSize, Clamp)
      ensures history == old(history) && stepIndex == old(stepIndex) && running == old(running)
    {
      var newBoard := NextBoard();
      currentBoard := newBoard;
    }

    /** The copy-then-patch loops of computeNextGeneration. */
    method NextBoard() returns (newBoard: Board)
      requires Valid()
      ensures Shaped(newBoard, gridSize, gridSize)
      ensures ToGrid(newBoard) == NextGeneration(ToGrid(currentBoard), gridSize, gridSize, Clamp)
    {
      ghost var spec := NextGeneration(ToGrid(currentBoard), gridSize, gridSize, Clamp);
      newBoard := currentBoard;
      var row := 0;
      while row < gridSize
        invariant 0 <= row <= gridSize
        invariant Shaped(newBoard, gridSize, gridSize)
        invariant forall r :: 0 <= r < row ==> newBoard[r] == FromGrid(spec)[r]
        invariant forall r :: row <= r < gridSize ==> newBoard[r] == currentBoard[r]
      {
        var line := PatchRow(newBoard[row], row);
        newBoard := newBoard[row := line];
        row := row + 1;
      }
      assert newBoard == FromGrid(spec);
      EncodingRoundTrip(newBoard, spec);
    }

    /** The inner loop of computeNextGeneration on row `row` of the copy: a
        cell changes only when it dies or is born. */
    method PatchRow(copy: seq<Bit>, row: int) returns (line: seq<Bit>)
      requires Valid() && 0 <= row < gridSize && copy == currentBoard[row]
      ensures line == FromGrid(NextGeneration(ToGrid(currentBoard), gridSize, gridSize, Clamp))[row]
    {
      ghost var g := ToGrid(currentBoard);
      ghost var target := FromGrid(NextGeneration(g, gridSize, gridSize, Clamp))[row];
      line := copy;
      var col := 0;
      while col < gridSize
        invariant 0 <= col <= gridSize && |line| == gridSize
        invariant forall c :: 0 <= c < col ==> line[c] == target[c]
        invariant forall c :: col <= c < gridSize ==> line[c] == currentBoard[row][c]
      {
        var neighbors := CountNeighbors(row, col);
        assert target[col] == if Rule(g[row][col], neighbors) then 1 else 0;
        if currentBoard[row][col] != 0 && (neighbors < 2 || neighbors > 3) {
          line := line[col := 0];
        } else if currentBoard[row][col] == 0 && neighbors == 3 {
          line := line[col := 1];
        }
        col := col + 1;
      }
    }

    /** The start button: the timer is created only once. */
    method Start()
      requires Valid()
      modifies this
      ensures Valid() && running
      ensures gridSize == old(gridSize) && currentBoard == old(currentBoard)
      ensures history == old(history) && stepIndex == old(stepIndex)
    {
      if !running {
        running := true;
      }
    }

    method Pause()
      requires Valid()
      modifies this
      ensures Valid() && !running
      ensures gridSize == old(gridSize) && currentBoard == old(currentBoard)
      ensures history == old(history) && stepIndex == old(stepIndex)
    {
      running := false;
    }

    /** Restart: stopped, with an empty board of the current size. */
    method Restart()
      requires Valid()
      modifies this
      ensures Valid() && !running && gridSize == old(gridSize)
      ensures currentBoard == Zeros(gridSize, gridSize)
      ensures history == old(history) && stepIndex == old(stepIndex)
    {
      running := false;
      CreateBoard(gridSize);
    }

    /** Step backward: shows the previous history entry when there is one;
        as nothing ever adds to the history, from any state the page can
        reach (stepIndex 0) it changes nothing. */
    method StepBackward()
      requires Valid()
      modifies this
      ensures Valid() && gridSize == old(gridSize) && history == old(history) && running == old(running)
      ensures old(stepIndex) > 0 ==> stepIndex == old(stepIndex) - 1 && currentBoard == history[stepIndex]
      ensures old(stepIndex) == 0 ==> stepIndex == 0 && currentBoard == old(currentBoard)
    {
      if stepIndex > 0 {
        stepIndex := stepIndex - 1;
        currentBoard := history[stepIndex];
      }
    }
  }
}

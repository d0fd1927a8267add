# Game of Life simulators, modelled in Dafny

The repository implements Conway's Game of Life five times, once per page or
program. Each copy has the same engine:

- a Moore-neighbourhood count;
- the B3/S23 rule, applied to every cell from a frozen snapshot of the board;
- a controller that keeps past generations and a cursor into them;
- pattern stamping and single-cell toggling.

The copies differ in their boundary policy, their cell encoding (booleans or
0/1 numbers) and, above all, their history controllers. This project models
each copy separately, in its own module, as a class whose fields are the
program's mutable state. Every copy is proved against one shared
specification.

- `life.dfy` (module `Life`) is the shared specification:
  - boards: `Grid` (booleans) and `Board` (0/1 cells), with the encodings `ToGrid` and `FromGrid`;
  - the neighbour count `Neighbours`, as a sum of per-offset contributions in loop order, under a clipped (`Clamp`) or toroidal (`Wrap`) boundary;
  - the rule `Rule`, the simultaneous update `NextGeneration`, and `Evolve`, which applies it k times;
  - the population `LiveCells`;
  - the bounded-history step `Evict`;
  - offset stamping `Marked`;
  - lemmas about all of these.
- `gemini.dfy` (module `GeminiScript`) models `Gemini/script.js`: a boolean square board, a history capped at 600 with a cursor, future truncation, and replay of stored boards.
- `openai.dfy` (module `OpenAIScript`) models `JS_HTML_CSS/OpenAI_o3_mini_high/script.js`: a 0/1 square board, an append-only list of boards with a parallel list of populations, jump-to-index, and offset patterns.
- `deepseek.dfy` (module `DeepSeekScript`) models `DeepSeek/script.js`: a boolean rows x cols board with a toroidal boundary, unbounded history with future truncation, and drag painting.
- `python.dfy` (module `PythonGameOfLife`) models `Python/OpenAI_o3_mini_high/game_of_life.py`: a 0/1 board, clipped neighbour ranges, a stack of past boards capped at 600, and a generation counter.
- `shapes.dfy` (module `Shapes`) checks two well-known configurations on the toroidal board of `DeepSeek/script.js`: the block, a still life, and the blinker, which has period 2.
- `qwen.dfy` (module `QwenScript`) models `JS_HTML_CSS/Qwen2.5/script.js`: a 0/1 square board, the copy-then-patch update, flat cell indices, and a step-backward handler over a history that nothing writes.

Every loop-based routine is a `method` whose loops carry invariants. Its
postcondition ties the result, or the object's new state, to the functions of
`Life`. Nested loops are split so that the inner loop is a method of its own
(`CountRow`, `NextRow`, `PatchRow`).

Inputs the programs draw from outside become parameters:
- random coins and Perlin/simplex noise samples are a `seq<seq<real>>` of the board's shape, thresholded exactly as the source thresholds them;
- a click or drag arrives as a (row, column) pair, or as the flat index of the clicked cell in the Qwen page.

## Model

| member | source | states |
|---|---|---|
| Life.Blank | DeepSeek/script.js:17-20 | `createGrid`: a rows x cols board with every cell dead |
| Life.Zeros | Python/OpenAI_o3_mini_high/game_of_life.py:9 | the initial board: rows x cols cells, all 0 |
| Life.Torus | DeepSeek/script.js:57-58 | `(x + n) % n` always lands in 0..n-1, so the toroidal count never reads off the board |
| Life.TorusStep | DeepSeek/script.js:57-58 | one step off the top or left edge wraps to the last row or column, one step past the far edge wraps to 0, and on-board coordinates are unchanged |
| Life.Term | Gemini/script.js:102-109 | each offset around the cell contributes 0 or 1 to the count |
| Life.NeighboursExpanded | Gemini/script.js:98-113 | the count is the sum of the eight off-centre offsets, so it lies in 0..8 |
| Life.ClampedNeighbours | JS_HTML_CSS/OpenAI_o3_mini_high/script.js:62-75 | under the clipped boundary the count is exactly the number of live cells among the eight surrounding on-board positions |
| Life.WrappedCorner | DeepSeek/script.js:52-63 | under the toroidal boundary the top-left cell's neighbours include the last row, the last column and the opposite corner |
| Life.ClampWrapAgreeInside | DeepSeek/script.js:52-63 | away from the edges the toroidal count equals the clipped count of the other copies |
| Life.NeighboursLocal | Gemini/script.js:98-113 | the count depends only on the 3 x 3 window around the cell |
| Life.NextGenerationLocal | Gemini/script.js:70-96 | a cell's next state depends only on its own state and its window in the unchanged board (simultaneous update) |
| Life.BlankIsStable | Gemini/script.js:70-96 | an all-dead board stays all-dead |
| Life.BlankHasNoNeighbours | Gemini/script.js:98-113 | on an all-dead board every count is 0 |
| Life.LiveCellsBound | Gemini/script.js:418-420 | a rows x cols board has at most rows * cols live cells |
| Life.LiveCellsZero | JS_HTML_CSS/OpenAI_o3_mini_high/script.js:52-60 | the population is 0 if and only if every cell is dead |
| Life.EncodingRoundTrip | JS_HTML_CSS/OpenAI_o3_mini_high/script.js:84-87 | the 0/1 encoding and the boolean encoding are inverse to each other |
| Life.BoardSumIsLiveCells | Python/OpenAI_o3_mini_high/game_of_life.py:94-95 | the sum of all 0/1 cells is the number of live cells |
| Life.Evict | Gemini/script.js:122-127 | appending to a full history and dropping the oldest entry keeps at most `cap` entries, keeps the newest entry last, and keeps a suffix of the input; a history within the cap is untouched, and one over the cap loses exactly its oldest entry |
| Life.Marked | JS_HTML_CSS/OpenAI_o3_mini_high/script.js:283-289 | after stamping offsets, each on-board cell hit by an offset holds the written value, every other cell keeps its value, and the shape is preserved |
| Life.WrappedTerm | DeepSeek/script.js:57-59 | each off-centre offset reads the cell one step away, where a step across an edge lands on the opposite edge |
| Life.WrappedNeighbours | DeepSeek/script.js:52-63 | the toroidal count is the number of live cells among the eight wrapped neighbours |
| Life.NextGenerationCells | DeepSeek/script.js:41-50 | a board is the successor exactly when every cell is what the rule gives for that cell's count |
| Life.WrappedNextGeneration | DeepSeek/script.js:41-63 | on a torus, a board is the successor exactly when every cell is what the rule gives for its wrapped neighbour count |
| Life.MarkedSnoc | DeepSeek/script.js:36-38 | one more offset writes one more cell, or none when it lands off the board |
| Life.MarkedTwice | JS_HTML_CSS/OpenAI_o3_mini_high/script.js:283-289 | writing the same offsets twice gives the board that writing them once gives |
| GeminiScript.Feed | Gemini/script.js:116-127 | the history after items arrive one per tick, each tick appending the newest and dropping the oldest past the cap, never exceeds the cap |
| GeminiScript.GensAt | Gemini/script.js:116-127 | entry k of the list of generations is generation k |
| GeminiScript.Ticks | Gemini/script.js:136-143 | the history after n timer ticks from a single stored board holds between 1 and 600 boards |
| GeminiScript.EvictWindow | Gemini/script.js:117-127 | appending the next item to a window of a sequence and evicting gives the window that starts one later exactly when the cap is exceeded |
| GeminiScript.FeedWindow | Gemini/script.js:116-127 | after any run of ticks the history holds the last min(n, cap) items, oldest first, for every item type and cap |
| GeminiScript.AfterSixHundredFiveTicks | Gemini/script.js:116-127 | after 605 ticks the history holds 600 boards, the oldest being generation 6 and the newest generation 605 |
| GeminiScript.Push | Gemini/script.js:117-127 | cutting after the cursor, appending and shifting out the oldest entry gives `Evict` of the kept prefix plus the new board, the cursor on the new board, and keeps every board's shape |
| GeminiScript.TrimAppendShaped | Gemini/script.js:117-121 | cutting the history after the cursor and appending a board of the page's shape keeps every stored board's shape |
| GeminiScript.EvictAllShaped | Gemini/script.js:122-125 | shifting out the oldest board keeps every stored board's shape |
| GeminiScript.PushConsistent | Gemini/script.js:116-127 | a step keeps the page's invariant: shapes, the 600 cap, and a cursor inside the history |
| GeminiScript.GetPattern | Gemini/script.js:247-268 | a pattern exists exactly for "glider" and "pulsar", and it is a non-empty rectangle |
| GeminiScript.Stamped | Gemini/script.js:225-244 | the stamped board keeps the board's shape |
| GeminiScript.StampedTwice | Gemini/script.js:225-244 | adding the same pattern twice leaves the board as adding it once |
| GeminiScript.CopyOnto | Gemini/script.js:232-241 | the nested loops copy the pattern's live and dead cells onto the on-board part of its footprint and leave every other cell alone |
| GeminiScript.TimelineBound | Gemini/script.js:418-420 | every timeline value is at most gridSize^2 |
| GeminiScript.Simulator.constructor | Gemini/script.js:480-487 | page load: a random board that is history[0], with cursor 0 |
| GeminiScript.Simulator.InitializeGrid | Gemini/script.js:49-51 | the board becomes all dead; history and cursor are untouched |
| GeminiScript.Simulator.CountLiveNeighbors | Gemini/script.js:98-113 | returns the clipped Moore count, in 0..8 |
| GeminiScript.Simulator.CountRow | Gemini/script.js:101-110 | the inner loop adds the contributions of column offsets -1, 0 and 1 |
| GeminiScript.Simulator.GetNextGeneration | Gemini/script.js:70-96 | returns the B3/S23 successor of the unchanged board |
| GeminiScript.Simulator.NextRow | Gemini/script.js:74-92 | the if/else chain computes row `row` of the successor |
| GeminiScript.Simulator.StepSimulation | Gemini/script.js:116-127 | the shown board becomes the successor; the history is cut after the cursor, the successor appended, the oldest entry dropped above 600; the cursor ends on the newest entry, which equals the board |
| GeminiScript.Simulator.Record | Gemini/script.js:117-127 | the history bookkeeping of a step: cut, append, evict, and the cursor still indexes the new board |
| GeminiScript.Simulator.StartSimulation | Gemini/script.js:136-143 | running; board, history and cursor unchanged |
| GeminiScript.Simulator.PauseSimulation | Gemini/script.js:145-152 | stopped; board, history and cursor unchanged |
| GeminiScript.Simulator.RestartSimulation | Gemini/script.js:154-163 | stopped, a fresh random board, history empty and cursor -1 |
| GeminiScript.Simulator.StepForward | Gemini/script.js:165-178 | no history: nothing changes; behind the newest entry: the cursor advances and the stored board is shown, history unchanged; at the newest entry: a new generation is computed and appended |
| GeminiScript.Simulator.StepBackward | Gemini/script.js:180-190 | with the cursor past 0 it moves back one and shows that entry; otherwise nothing changes; history never changes |
| GeminiScript.Simulator.JumpTo | Gemini/script.js:459-470 | an in-range timeline click moves the cursor there and shows that entry; any other position changes nothing |
| GeminiScript.Simulator.RandomInitialization | Gemini/script.js:193-205 | each cell alive iff its coin is below 0.5; the board becomes history[0] with cursor 0 only when the history was empty |
| GeminiScript.Simulator.PerlinInitialization | Gemini/script.js:207-223 | each cell alive iff its noise sample exceeds 0.5; recorded only into an empty history |
| GeminiScript.Simulator.AddPattern | Gemini/script.js:225-244 | stopped; a known pattern is copied centred at gridSize/2 with off-board cells skipped; an unknown name leaves the board unchanged |
| GeminiScript.Simulator.ClickCell | Gemini/script.js:271-283 | while stopped, an on-board click flips exactly that cell; while running, or off the board, nothing changes |
| GeminiScript.Simulator.TimelineCounts | Gemini/script.js:418-420 | one population per stored board, in order, each at most gridSize^2 |
| OpenAIScript.CreateEmptyBoard | JS_HTML_CSS/OpenAI_o3_mini_high/script.js:20-30 | a size x size board of zeros |
| OpenAIScript.Stamp | JS_HTML_CSS/OpenAI_o3_mini_high/script.js:275-318 | the board after `addPattern` keeps its shape, no cell goes from 1 to 0, and a name other than "glider" or "pulsar" leaves the board unchanged |
| OpenAIScript.StampTwice | JS_HTML_CSS/OpenAI_o3_mini_high/script.js:275-318 | adding the same pattern at the same centre twice leaves the board as adding it once |
| OpenAIScript.MarkOffsets | JS_HTML_CSS/OpenAI_o3_mini_high/script.js:283-289 | the forEach sets every on-board offset cell to 1, clears none, and skips offsets off the board |
| OpenAIScript.Simulator.constructor | JS_HTML_CSS/OpenAI_o3_mini_high/script.js:10-15 | an empty board, both lists empty, cursor 0 |
| OpenAIScript.Simulator.CountLiveCells | JS_HTML_CSS/OpenAI_o3_mini_high/script.js:52-60 | returns the number of non-zero cells, at most gridSize^2 |
| OpenAIScript.Simulator.CountLiveNeighbors | JS_HTML_CSS/OpenAI_o3_mini_high/script.js:62-75 | returns the clipped Moore count, in 0..8 |
| OpenAIScript.Simulator.CountRow | JS_HTML_CSS/OpenAI_o3_mini_high/script.js:65-72 | the inner loop adds the contributions of column offsets -1, 0 and 1 |
| OpenAIScript.Simulator.ComputeNextBoard | JS_HTML_CSS/OpenAI_o3_mini_high/script.js:77-92 | returns a fresh 0/1 board, the B3/S23 successor of `current`, which is a value and stays unchanged |
| OpenAIScript.Simulator.NextRow | JS_HTML_CSS/OpenAI_o3_mini_high/script.js:80-89 | row i of the successor |
| OpenAIScript.Simulator.NextCell | JS_HTML_CSS/OpenAI_o3_mini_high/script.js:81-88 | the two ternaries give 1 exactly when B3/S23 makes the cell alive |
| OpenAIScript.Simulator.JumpToGeneration | JS_HTML_CSS/OpenAI_o3_mini_high/script.js:133-138 | indices outside [0, length) change nothing; otherwise the cursor moves there and that board is shown; both lists unchanged |
| OpenAIScript.Simulator.SimulationStep | JS_HTML_CSS/OpenAI_o3_mini_high/script.js:142-149 | the successor is shown and appended, its population appended, the cursor incremented; nothing is removed |
| OpenAIScript.Simulator.Record | JS_HTML_CSS/OpenAI_o3_mini_high/script.js:143-146 | appends exactly one board and its population, so the lists stay parallel |
| OpenAIScript.Simulator.GridSizeChanged | JS_HTML_CSS/OpenAI_o3_mini_high/script.js:154-164 | a new empty board of the new size, both lists cleared, cursor 0 |
| OpenAIScript.Simulator.Start | JS_HTML_CSS/OpenAI_o3_mini_high/script.js:177-188 | running; the board and its population are recorded only when it was stopped and both lists were empty, otherwise the lists are unchanged |
| OpenAIScript.Simulator.Pause | JS_HTML_CSS/OpenAI_o3_mini_high/script.js:191-196 | stopped; nothing else changes |
| OpenAIScript.Simulator.Restart | JS_HTML_CSS/OpenAI_o3_mini_high/script.js:199-222 | stopped, an empty board, both lists cleared, cursor 0 |
| OpenAIScript.Simulator.StepForwardClicked | JS_HTML_CSS/OpenAI_o3_mini_high/script.js:225-229 | while paused, one simulation step; while running, nothing |
| OpenAIScript.Simulator.StepBackwardClicked | JS_HTML_CSS/OpenAI_o3_mini_high/script.js:232-238 | only while paused with cursor above 0: the cursor moves back and that board is shown |
| OpenAIScript.Simulator.RandomInit | JS_HTML_CSS/OpenAI_o3_mini_high/script.js:241-248 | each cell 1 iff its coin exceeds 0.5; lists and cursor unchanged |
| OpenAIScript.Simulator.ProceduralGen | JS_HTML_CSS/OpenAI_o3_mini_high/script.js:251-262 | each cell 1 iff its noise sample is positive; lists and cursor unchanged |
| OpenAIScript.Simulator.AddPatternClicked | JS_HTML_CSS/OpenAI_o3_mini_high/script.js:265-273 | a non-empty selection is stamped at (gridSize/2, gridSize/2) |
| OpenAIScript.Simulator.AddPattern | JS_HTML_CSS/OpenAI_o3_mini_high/script.js:275-318 | the board becomes `Stamp` of the selection at (centerX, centerY): the glider's offsets shifted by -1, or the 48 pulsar offsets, set their on-board cells to 1 |
| OpenAIScript.Simulator.ToggleCell | JS_HTML_CSS/OpenAI_o3_mini_high/script.js:337-347 | flips exactly one on-board cell between 0 and 1; off the board nothing changes; the mouse handlers below decide when it runs |
| OpenAIScript.Simulator.MouseDown | JS_HTML_CSS/OpenAI_o3_mini_high/script.js:323-328 | while running nothing changes; while stopped a drag begins and the cell under the mouse flips; no other cell changes |
| OpenAIScript.Simulator.MouseMove | JS_HTML_CSS/OpenAI_o3_mini_high/script.js:329-333 | flips the cell only during a drag and only while stopped; otherwise the board is unchanged |
| OpenAIScript.Simulator.MouseUp | JS_HTML_CSS/OpenAI_o3_mini_high/script.js:334-336 | the drag ends; nothing else changes |
| DeepSeekScript.RowMajor | DeepSeek/script.js:36-37 | the (dx, dy) offsets read as (row, column) pairs (dy, dx), element by element |
| DeepSeekScript.PaintStep | DeepSeek/script.js:36-38 | painting one more offset sets exactly the cell it lands on, on top of what the earlier offsets painted |
| DeepSeekScript.Paint | DeepSeek/script.js:36-38 | each offset sets cell (midY + dy, midX + dx) to true and nothing else changes |
| DeepSeekScript.GameOfLife.constructor | DeepSeek/script.js:2-15 | floor(height/5) x floor(width/5) dead cells, empty history, cursor -1 |
| DeepSeekScript.GameOfLife.Randomize | DeepSeek/script.js:22-25 | each cell alive iff its coin exceeds 0.5; shape and history kept |
| DeepSeekScript.GameOfLife.PerlinNoise | DeepSeek/script.js:27-31 | each cell alive iff its noise sample is positive; shape and history kept |
| DeepSeekScript.GameOfLife.AddPattern | DeepSeek/script.js:33-39 | the offsets around the middle cell become alive, and only those |
| DeepSeekScript.GameOfLife.ComputeNext | DeepSeek/script.js:41-50 | returns the B3/S23 successor under the toroidal boundary |
| DeepSeekScript.GameOfLife.NextRow | DeepSeek/script.js:44-47 | `n == 3 \|\| (alive && n == 2)` gives row i of the successor |
| DeepSeekScript.GameOfLife.CountNeighbors | DeepSeek/script.js:52-63 | returns the toroidal Moore count, in 0..8 |
| DeepSeekScript.GameOfLife.CountRow | DeepSeek/script.js:55-60 | the inner loop adds the wrapped contributions of column offsets -1, 0 and 1 |
| DeepSeekScript.GameOfLife.Step | DeepSeek/script.js:65-73 | the history is cut after the cursor, the successor appended (no bound) and shown; the cursor ends on it |
| DeepSeekScript.GameOfLife.Start | DeepSeek/script.js:126-136 | running; nothing else changes |
| DeepSeekScript.GameOfLife.Pause | DeepSeek/script.js:132-135 | stopped; nothing else changes |
| DeepSeekScript.GameOfLife.ToggleCell | DeepSeek/script.js:108-118 | flips exactly one on-board cell; off the board nothing changes |
| DeepSeekScript.GameOfLife.MouseDown | DeepSeek/script.js:94-99 | only while stopped: painting begins and the cell flips |
| DeepSeekScript.GameOfLife.MouseMove | DeepSeek/script.js:101-103 | flips the cell whenever a drag is in progress |
| DeepSeekScript.GameOfLife.MouseUp | DeepSeek/script.js:105 | ends the drag; nothing else changes |
| PythonGameOfLife.Lower | Python/OpenAI_o3_mini_high/game_of_life.py:72 | lower-casing keeps the length, leaves no upper-case ASCII letter, and keeps every character that is not one |
| PythonGameOfLife.LowerSelects | Python/OpenAI_o3_mini_high/game_of_life.py:72 | for a lower-case word, a name lowers to it exactly when it has the same length and each character is that word's letter in either case |
| PythonGameOfLife.LowerSelectsGlider | Python/OpenAI_o3_mini_high/game_of_life.py:72 | a name selects the glider exactly when it is "glider" with any mix of letter cases |
| PythonGameOfLife.LowerSelectsPulsar | Python/OpenAI_o3_mini_high/game_of_life.py:80 | a name selects the pulsar exactly when it is "pulsar" with any mix of letter cases |
| PythonGameOfLife.Placed | Python/OpenAI_o3_mini_high/game_of_life.py:69-92 | placing a named pattern keeps the board's shape and clears no cell; a name that is neither glider nor pulsar in lower case leaves the board unchanged |
| PythonGameOfLife.PlaceCoords | Python/OpenAI_o3_mini_high/game_of_life.py:77-79 | every coordinate landing on the board sets its cell to 1; the rest are skipped |
| PythonGameOfLife.RowSpanPad | Python/OpenAI_o3_mini_high/game_of_life.py:17 | column offsets that fall off the board add nothing |
| PythonGameOfLife.WindowSpanPad | Python/OpenAI_o3_mini_high/game_of_life.py:16 | row offsets that fall off the board add nothing |
| PythonGameOfLife.RowSpanClipped | Python/OpenAI_o3_mini_high/game_of_life.py:17 | `range(max(0, j - 1), min(cols, j + 2))` covers every on-board column offset |
| PythonGameOfLife.WindowSpanClipped | Python/OpenAI_o3_mini_high/game_of_life.py:16 | `range(max(0, i - 1), min(rows, i + 2))` covers every on-board row offset |
| PythonGameOfLife.GameOfLife.constructor | Python/OpenAI_o3_mini_high/game_of_life.py:6-12 | an all-zero rows x cols board, empty history, generation 0 |
| PythonGameOfLife.GameOfLife.CountLiveNeighbors | Python/OpenAI_o3_mini_high/game_of_life.py:14-20 | for any (i, j), the clipped Moore count, in 0..8, reading only on-board cells |
| PythonGameOfLife.GameOfLife.RowNeighbors | Python/OpenAI_o3_mini_high/game_of_life.py:17-19 | the inner loop sums row x's on-board cells next to (i, j), the centre excluded |
| PythonGameOfLife.GameOfLife.NextRow | Python/OpenAI_o3_mini_high/game_of_life.py:25-34 | row i of the B3/S23 successor |
| PythonGameOfLife.GameOfLife.NewGrid | Python/OpenAI_o3_mini_high/game_of_life.py:23-34 | the fresh grid is the B3/S23 successor of the unchanged board |
| PythonGameOfLife.GameOfLife.Step | Python/OpenAI_o3_mini_high/game_of_life.py:22-37 | the pre-step board is pushed (at most 600 kept, oldest dropped), the successor shown, generation + 1 |
| PythonGameOfLife.GameOfLife.AddHistory | Python/OpenAI_o3_mini_high/game_of_life.py:39-43 | append, then drop the oldest once over 600 |
| PythonGameOfLife.GameOfLife.Randomize | Python/OpenAI_o3_mini_high/game_of_life.py:45-53 | each cell 1 iff its coin is below density/250; history emptied, generation 0 |
| PythonGameOfLife.GameOfLife.ClearBoard | Python/OpenAI_o3_mini_high/game_of_life.py:55-58 | all zeros, history emptied, generation 0 |
| PythonGameOfLife.GameOfLife.ToggleCell | Python/OpenAI_o3_mini_high/game_of_life.py:60-62 | flips exactly one on-board cell between 0 and 1; off the board nothing changes |
| PythonGameOfLife.GameOfLife.SetBoard | Python/OpenAI_o3_mini_high/game_of_life.py:64-67 | the given board shown, history emptied, generation 0 |
| PythonGameOfLife.GameOfLife.LoadPattern | Python/OpenAI_o3_mini_high/game_of_life.py:69-92 | the board is cleared, then the named pattern (any letter case) placed; an unknown name leaves it all dead |
| PythonGameOfLife.GameOfLife.CountLiveCells | Python/OpenAI_o3_mini_high/game_of_life.py:94-95 | the sum of all cells, which is the number of live cells, at most rows * cols |
| Shapes.PictureCount | DeepSeek/script.js:52-63 | the wrapped count on a shape's board can be read off the shape |
| Shapes.PictureFollows | DeepSeek/script.js:41-50 | a shape whose cells all follow the rule from another shape is that shape's successor on the torus |
| Shapes.BlockIsStillLife | DeepSeek/script.js:41-63 | the 2 x 2 block on a 4 x 4 torus is its own successor |
| Shapes.HorizontalTurnsVertical | DeepSeek/script.js:41-63 | on a 5 x 5 torus the horizontal blinker's successor is the vertical blinker |
| Shapes.VerticalTurnsHorizontal | DeepSeek/script.js:41-63 | and the vertical blinker's successor is the horizontal one |
| Shapes.BlinkerPeriodTwo | DeepSeek/script.js:41-63 | the blinker returns after two generations and not after one |
| QwenScript.CellIndex | JS_HTML_CSS/Qwen2.5/script.js:28-33 | the position of cell (row, col) among the size^2 cell elements, row-major |
| QwenScript.CellIndexRoundTrip | JS_HTML_CSS/Qwen2.5/script.js:44-49 | dividing a cell's index by the size gives back its row and column |
| QwenScript.IndexCellRoundTrip | JS_HTML_CSS/Qwen2.5/script.js:44-49 | every index below size^2 names an on-board cell whose index is that index |
| QwenScript.Simulator.constructor | JS_HTML_CSS/Qwen2.5/script.js:16-36 | the slider's size of zeros, empty history, stepIndex 0 |
| QwenScript.Simulator.CreateBoard | JS_HTML_CSS/Qwen2.5/script.js:24-34 | a size x size board of zeros |
| QwenScript.Simulator.DensityChanged | JS_HTML_CSS/Qwen2.5/script.js:39-42 | a new zero board of the slider's size |
| QwenScript.Simulator.ToggleCellState | JS_HTML_CSS/Qwen2.5/script.js:44-51 | the cell at row index/size, column index%size flips between 0 and 1, and no other cell changes |
| QwenScript.Simulator.CountNeighbors | JS_HTML_CSS/Qwen2.5/script.js:69-82 | returns the clipped Moore count, in 0..8 |
| QwenScript.Simulator.CountRow | JS_HTML_CSS/Qwen2.5/script.js:72-79 | the inner loop adds the 0/1 values of column offsets -1, 0 and 1 |
| QwenScript.Simulator.ComputeNextGeneration | JS_HTML_CSS/Qwen2.5/script.js:53-67 | the board becomes its B3/S23 successor, counted on the old board |
| QwenScript.Simulator.NextBoard | JS_HTML_CSS/Qwen2.5/script.js:54-64 | the patched copy equals the B3/S23 successor |
| QwenScript.Simulator.PatchRow | JS_HTML_CSS/Qwen2.5/script.js:56-63 | rewriting only dying and newborn cells of a copied row gives the successor's row |
| QwenScript.Simulator.Start | JS_HTML_CSS/Qwen2.5/script.js:97-101 | running; the timer is created once; nothing else changes |
| QwenScript.Simulator.Pause | JS_HTML_CSS/Qwen2.5/script.js:103-106 | stopped; nothing else changes |
| QwenScript.Simulator.Restart | JS_HTML_CSS/Qwen2.5/script.js:108-112 | stopped, a zero board of the current size |
| QwenScript.Simulator.StepBackward | JS_HTML_CSS/Qwen2.5/script.js:116-122 | acts only when stepIndex > 0; from stepIndex 0, the only value the page ever has, it changes nothing |

## Left out

- Drawing is not modelled: canvas and DOM rendering, cell colours, chart and timeline drawing, and the pixel-to-cell arithmetic of click handlers. Handlers take the cell's (row, column), or its flat index in the Qwen page.
- Timers are not modelled: `setInterval`/`clearInterval` and the time-step and speed sliders. "Running" is a boolean field.
- `Math.random`, `random.random`, the Perlin noise of `Gemini/lib/perlin.js`, the simplex noise of the DeepSeek page and the `perlin2` noise of the OpenAI page are not modelled. The samples they would produce are a parameter, thresholded as the source thresholds them. The OpenAI page's seed parsing is left out with them.
- GIF export, Chart.js and matplotlib charts, and localStorage/JSON persistence are not modelled. This covers `saveSimulationToHistory`, `loadSimulation`, `loadSimulationHistory`, the OpenAI page's restart record and its reload from history, and DeepSeek's JSON strings, which are copies of the grid and are stored here as the grid itself.
- `copyGrid` and `cloneBoard` are not separate operations: boards are values, so a copy is the board itself.
- The Python pygame loop in `main.py` and `ui.py` is not modelled, including its step-backward `history.pop()`.
- `GeminiScript.Simulator`: the density slider (Gemini/script.js:285-293) is left out. It changes gridSize without touching the history, and here gridSize is fixed for the lifetime of the object.
- DeepSeekScript.GameOfLife.AddPattern: requires every offset to land on the board. The source writes `grid[midY + dy][midX + dx]` without a bounds check, and an off-board offset either throws or adds a stray property to a row.
- QwenScript.Simulator.DensityChanged: requires an empty history. Nothing in the page ever writes the history, so this holds in every reachable state. It keeps stored boards and the board size consistent.
- QwenScript.Simulator.CreateBoard: requires an empty history or an unchanged size, for the same reason.
- PythonGameOfLife.Lower: ASCII lower case only. Python's `str.lower` also folds non-ASCII letters; no such letter can turn a name into "glider" or "pulsar".
- Integers are unbounded. No counter or index in these programs comes near 2^53, so JavaScript number precision plays no part.

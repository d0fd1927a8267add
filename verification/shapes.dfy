/** Two small configurations on the toroidal board of DeepSeek/script.js
    whose behaviour under B3/S23 is well known: the block, which never
    changes, and the blinker, which returns after two generations. */
module Shapes {
  import opened Life

  datatype Shape = BlockShape | HorizontalBar | VerticalBar

  /** The live cells of each shape: a 2 x 2 block in the middle of a 4 x 4
      torus, and three cells in a row or a column across the middle of a
      5 x 5 torus. */
  predicate Live(s: Shape, r: int, c: int)
  {
    match s
    case BlockShape => 1 <= r <= 2 && 1 <= c <= 2
    case HorizontalBar => r == 2 && 1 <= c <= 3
    case VerticalBar => c == 2 && 1 <= r <= 3
  }

  /** The n x n board holding the shape. */
  function Picture(s: Shape, n: nat): (g: Grid)
    ensures Shaped(g, n, n)
    ensures forall r, c :: InGrid(n, n, r, c) ==> g[r][c] == Live(s, r, c)
  {
    seq(n, r => seq(n, c => Live(s, r, c)))
  }

  function LiveBit(s: Shape, r: int, c: int): nat
  {
    if Live(s, r, c) then 1 else 0
  }

  /** The wrapped neighbour count, read off the shape rather than the board. */
  function Around(s: Shape, n: nat, r: int, c: int): nat
  {
    var up, down, left, right := Across(r - 1, n), Across(r + 1, n), Across(c - 1, n), Across(c + 1, n);
    LiveBit(s, up, left) + LiveBit(s, up, c) + LiveBit(s, up, right)
    + LiveBit(s, r, left) + LiveBit(s, r, right)
    + LiveBit(s, down, left) + LiveBit(s, down, c) + LiveBit(s, down, right)
  }

  lemma PictureCount(s: Shape, n: nat, r: int, c: int)
    requires InGrid(n, n, r, c)
    ensures WrappedCount(Picture(s, n), n, n, r, c) == Around(s, n, r, c)
  {
  }

  /** Shape t is what the rule makes of shape s, cell by cell. */
  predicate Follows(s: Shape, t: Shape, n: nat)
  {
    forall r, c :: 0 <= r < n && 0 <= c < n ==> Live(t, r, c) == Rule(Live(s, r, c), Around(s, n, r, c))
  }

  lemma PictureFollows(s: Shape, t: Shape, n: nat)
    requires n > 0 && Follows(s, t, n)
    ensures NextGeneration(Picture(s, n), n, n, Wrap) == Picture(t, n)
  {
    var g, h := Picture(s, n), Picture(t, n);
    forall r, c | InGrid(n, n, r, c)
      ensures h[r][c] == Rule(g[r][c], WrappedCount(g, n, n, r, c))
    {
      PictureCount(s, n, r, c);
    }
    WrappedNextGeneration(g, h, n, n);
  }

  /** The block is a still life. */
  lemma BlockIsStillLife()
    ensures NextGeneration(Picture(BlockShape, 4), 4, 4, Wrap) == Picture(BlockShape, 4)
  {
    forall r, c | 0 <= r < 4 && 0 <= c < 4
      ensures Live(BlockShape, r, c) == Rule(Live(BlockShape, r, c), Around(BlockShape, 4, r, c))
    {
      // one row at a time, every cell is plain arithmetic
      if r == 0 { } else if r == 1 { } else if r == 2 { } else { }
    }
    PictureFollows(BlockShape, BlockShape, 4);
  }

  /** The horizontal blinker turns vertical ... */
  lemma HorizontalTurnsVertical()
    ensures NextGeneration(Picture(HorizontalBar, 5), 5, 5, Wrap) == Picture(VerticalBar, 5)
  {
    forall r, c | 0 <= r < 5 && 0 <= c < 5
      ensures Live(VerticalBar, r, c) == Rule(Live(HorizontalBar, r, c), Around(HorizontalBar, 5, r, c))
    {
      // one row at a time, every cell is plain arithmetic
      if r == 0 { } else if r == 1 { } else if r == 2 { } else if r == 3 { } else { }
    }
    PictureFollows(HorizontalBar, VerticalBar, 5);
  }

  /** ... and the vertical one turns horizontal again. */
  lemma VerticalTurnsHorizontal()
    ensures NextGeneration(Picture(VerticalBar, 5), 5, 5, Wrap) == Picture(HorizontalBar, 5)
  {
    forall r, c | 0 <= r < 5 && 0 <= c < 5
      ensures Live(HorizontalBar, r, c) == Rule(Live(VerticalBar, r, c), Around(VerticalBar, 5, r, c))
    {
      // one row at a time, every cell is plain arithmetic
      if r == 0 { } else if r == 1 { } else if r == 2 { } else if r == 3 { } else { }
    }
    PictureFollows(VerticalBar, HorizontalBar, 5);
  }

  /** The blinker has period 2. */
  lemma BlinkerPeriodTwo()
    ensures Evolve(Picture(HorizontalBar, 5), 5, 5, Wrap, 2) == Picture(HorizontalBar, 5)
    ensures Evolve(Picture(HorizontalBar, 5), 5, 5, Wrap, 1) != Picture(HorizontalBar, 5)
  {
    HorizontalTurnsVertical();
    VerticalTurnsHorizontal();
    assert Evolve(Picture(HorizontalBar, 5), 5, 5, Wrap, 1) == Picture(VerticalBar, 5);
    assert Picture(VerticalBar, 5)[1][2] != Picture(HorizontalBar, 5)[1][2];
  }
}

/** The pass of the level generator that breaks up diagonal pairs of full-tile walls
    (`handle_diagonal_full_tile_walls` in roguelike_engine/src/procgen.rs), over a `Map`. */
module DiagonalWalls {
  import opened Types
  import opened MapTiles
  import opened Maps

  /** The 2 by 2 window with top-left corner (x, y) lies on the grid. */
  predicate InWindowRange(t: Tiles, x: int, y: int)
    requires Valid(t)
  {
    0 <= x && x + 1 < Width(t) && 0 <= y && y + 1 < Height(t)
  }

  predicate Blk(t: Tiles, x: int, y: int)
    requires Valid(t) && InBounds(t, Pos(x, y))
  {
    At(t, Pos(x, y)).blocked
  }

  /** The window holds exactly one diagonal pair of blocked cells and nothing else. */
  predicate DiagonalPair(t: Tiles, x: int, y: int)
    requires Valid(t) && InWindowRange(t, x, y)
  {
    || (Blk(t, x, y) && Blk(t, x + 1, y + 1) && !Blk(t, x + 1, y) && !Blk(t, x, y + 1))
    || (Blk(t, x + 1, y) && Blk(t, x, y + 1) && !Blk(t, x, y) && !Blk(t, x + 1, y + 1))
  }

  /** How many of the window's four cells are blocked. */
  function WindowBlocked(t: Tiles, x: int, y: int): (n: nat)
    requires Valid(t) && InWindowRange(t, x, y)
    ensures n <= 4
  {
    (if Blk(t, x, y) then 1 else 0) + (if Blk(t, x + 1, y) then 1 else 0) +
    (if Blk(t, x, y + 1) then 1 else 0) + (if Blk(t, x + 1, y + 1) then 1 else 0)
  }

  /** The body of the inner loop at window (x, y): a pair on the main diagonal gets a
      wall to its right on the top row, a pair on the other diagonal gets one in the
      top-left corner. */
  function FixWindow(t: Tiles, x: int, y: int): (r: Tiles)
    requires Valid(t) && InWindowRange(t, x, y)
    ensures Valid(r) && Width(r) == Width(t) && Height(r) == Height(t)
  {
    if Blk(t, x, y) && Blk(t, x + 1, y + 1) && !Blk(t, x + 1, y) && !Blk(t, x, y + 1) then
      SetTile(t, Pos(x + 1, y), WallTile())
    else if Blk(t, x + 1, y) && Blk(t, x, y + 1) && !Blk(t, x, y) && !Blk(t, x + 1, y + 1) then
      SetTile(t, Pos(x, y), WallTile())
    else
      t
  }

  /** The windows (0, y) .. (n - 1, y) of row y, fixed from left to right. */
  function FixRow(t: Tiles, y: int, n: nat): (r: Tiles)
    requires Valid(t) && 0 <= y && y + 1 < Height(t) && n < Width(t)
    ensures Valid(r) && Width(r) == Width(t) && Height(r) == Height(t)
  {
    if n == 0 then t else FixWindow(FixRow(t, y, n - 1), n - 1, y)
  }

  /** Rows 0 .. n - 1 of windows, fixed from top to bottom. */
  function FixRows(t: Tiles, n: nat): (r: Tiles)
    requires Valid(t) && (n == 0 || n < Height(t))
    ensures Valid(r) && Width(r) == Width(t) && Height(r) == Height(t)
  {
    if n == 0 then t else FixRow(FixRows(t, n - 1), n - 1, Width(t) - 1)
  }

  /** The whole pass; a grid of height 0 has no rows of windows and is left as it is. */
  function FixAll(t: Tiles): (r: Tiles)
    requires Valid(t)
    ensures Valid(r) && Width(r) == Width(t) && Height(r) == Height(t)
  {
    if Height(t) == 0 then t else FixRows(t, Height(t) - 1)
  }

  /** `r` has the shape of `t`, and each of its cells is the old one or a full wall. */
  ghost predicate Grows(t: Tiles, r: Tiles)
    requires Valid(t) && Valid(r)
  {
    && Width(r) == Width(t) && Height(r) == Height(t)
    && forall p :: InBounds(t, p) ==> At(r, p) == At(t, p) || At(r, p) == WallTile()
  }

  lemma GrowsTrans(t1: Tiles, t2: Tiles, t3: Tiles)
    requires Valid(t1) && Valid(t2) && Valid(t3) && Grows(t1, t2) && Grows(t2, t3)
    ensures Grows(t1, t3)
  {
  }

  /** Growing never unblocks a cell. */
  lemma GrowsKeepsBlocked(t: Tiles, r: Tiles, p: Pos)
    requires Valid(t) && Valid(r) && Grows(t, r) && InBounds(t, p) && At(t, p).blocked
    ensures At(r, p).blocked
  {
  }

  /** One window: only a wall is written, only inside the window, and only when the
      window holds a diagonal pair; afterwards it holds no such pair, and a pair it
      held has become three blocked cells. */
  lemma FixWindowSpec(t: Tiles, x: int, y: int)
    requires Valid(t) && InWindowRange(t, x, y)
    ensures Grows(t, FixWindow(t, x, y))
    ensures !DiagonalPair(t, x, y) ==> FixWindow(t, x, y) == t
    ensures !DiagonalPair(FixWindow(t, x, y), x, y)
    ensures DiagonalPair(t, x, y) ==> WindowBlocked(FixWindow(t, x, y), x, y) == 3
    ensures forall p :: InBounds(t, p) && !(x <= p.x <= x + 1 && y <= p.y <= y + 1) ==>
      At(FixWindow(t, x, y), p) == At(t, p)
  {
  }

  lemma GrowsStep(t: Tiles, prev: Tiles, x: int, y: int)
    requires Valid(t) && Valid(prev) && Grows(t, prev) && InWindowRange(prev, x, y)
    ensures Grows(t, FixWindow(prev, x, y))
  {
    FixWindowSpec(prev, x, y);
    GrowsTrans(t, prev, FixWindow(prev, x, y));
  }

  lemma {:induction false} FixRowGrows(t: Tiles, y: int, n: nat)
    requires Valid(t) && 0 <= y && y + 1 < Height(t) && n < Width(t)
    ensures Grows(t, FixRow(t, y, n))
  {
    if n > 0 {
      FixRowGrows(t, y, n - 1);
      GrowsStep(t, FixRow(t, y, n - 1), n - 1, y);
    }
  }

  lemma RowGrows(t: Tiles, prev: Tiles, y: int)
    requires Valid(t) && Valid(prev) && Grows(t, prev) && 0 <= y && y + 1 < Height(prev)
    ensures Grows(t, FixRow(prev, y, Width(prev) - 1))
  {
    FixRowGrows(prev, y, Width(prev) - 1);
    GrowsTrans(t, prev, FixRow(prev, y, Width(prev) - 1));
  }

  lemma {:induction false} FixRowsGrows(t: Tiles, n: nat)
    requires Valid(t) && (n == 0 || n < Height(t))
    ensures Grows(t, FixRows(t, n))
  {
    if n > 0 {
      var a := FixRows(t, n - 1);
      FixRowsGrows(t, n - 1);
      RowGrows(t, a, n - 1);
      assert FixRows(t, n) == FixRow(a, n - 1, Width(t) - 1);
    } else {
      assert FixRows(t, n) == t;
    }
  }

  /** The pass only ever writes full walls: every cell ends as it was or as a wall,
      and no blocked cell becomes unblocked. */
  lemma FixAllGrows(t: Tiles)
    requires Valid(t)
    ensures Grows(t, FixAll(t))
    ensures forall p :: InBounds(t, p) && At(t, p).blocked ==> At(FixAll(t), p).blocked
  {
    if Height(t) > 0 {
      FixRowsGrows(t, Height(t) - 1);
    }
  }

  /** No window of the grid holds a diagonal pair. */
  ghost predicate NoDiagonalPairs(t: Tiles)
    requires Valid(t)
  {
    forall x, y :: InWindowRange(t, x, y) ==> !DiagonalPair(t, x, y)
  }

  lemma {:induction false} FixRowClean(t: Tiles, y: int, n: nat)
    requires Valid(t) && 0 <= y && y + 1 < Height(t) && n < Width(t) && NoDiagonalPairs(t)
    ensures FixRow(t, y, n) == t
  {
    if n > 0 {
      FixRowClean(t, y, n - 1);
      FixWindowSpec(t, n - 1, y);
    }
  }

  lemma {:induction false} FixRowsClean(t: Tiles, n: nat)
    requires Valid(t) && (n == 0 || n < Height(t)) && NoDiagonalPairs(t)
    ensures FixRows(t, n) == t
  {
    if n > 0 {
      FixRowsClean(t, n - 1);
      FixRowClean(t, n - 1, Width(t) - 1);
    }
  }

  /** A grid without diagonal pairs passes through unchanged. */
  lemma FixAllClean(t: Tiles)
    requires Valid(t) && NoDiagonalPairs(t)
    ensures FixAll(t) == t
  {
    if Height(t) > 0 {
      FixRowsClean(t, Height(t) - 1);
    }
  }

  /** `handle_diagonal_full_tile_walls`, on the map's grid in place. */
  method HandleDiagonalFullTileWalls(m: Map)
    requires m.Valid()
    modifies m
    ensures m.Valid() && m.tiles == FixAll(old(m.tiles))
    ensures m.fovPos == old(m.fovPos) && m.fovRadius == old(m.fovRadius)
  {
    var height := Height(m.tiles);
    ghost var t0 := m.tiles;
    var y := 0;
    while y + 1 < height
      invariant 0 <= y && (y == 0 || y < height)
      invariant m.Valid() && m.tiles == FixRows(t0, y)
      invariant m.fovPos == old(m.fovPos) && m.fovRadius == old(m.fovRadius)
    {
      FixRowInPlace(m, y);
      y := y + 1;
    }
  }

  /** The inner loop: the windows of row `y`, from left to right. */
  method FixRowInPlace(m: Map, y: int)
    requires m.Valid() && 0 <= y && y + 1 < Height(m.tiles)
    modifies m
    ensures m.Valid() && m.tiles == FixRow(old(m.tiles), y, Width(old(m.tiles)) - 1)
    ensures m.fovPos == old(m.fovPos) && m.fovRadius == old(m.fovRadius)
  {
    var width := Width(m.tiles);
    ghost var t0 := m.tiles;
    var x := 0;
    while x < width - 1
      invariant 0 <= x <= width - 1
      invariant m.Valid() && m.tiles == FixRow(t0, y, x)
      invariant m.fovPos == old(m.fovPos) && m.fovRadius == old(m.fovRadius)
    {
      var t := m.tiles;
      if At(t, Pos(x, y)).blocked && At(t, Pos(x + 1, y + 1)).blocked &&
         !At(t, Pos(x + 1, y)).blocked && !At(t, Pos(x, y + 1)).blocked {
        m.tiles := SetTile(t, Pos(x + 1, y), WallTile());
      } else if At(t, Pos(x + 1, y)).blocked && At(t, Pos(x, y + 1)).blocked &&
                !At(t, Pos(x, y)).blocked && !At(t, Pos(x + 1, y + 1)).blocked {
        m.tiles := SetTile(t, Pos(x, y), WallTile());
      }
      assert m.tiles == FixWindow(t, x, y);
      x := x + 1;
    }
  }
}

/** The grids of the short-wall field-of-view tests of roguelike_core/src/map.rs, and
    where the walk of `fov_line` ends on them: a row of six short walls on a 10 by 10
    grid, on the left edges of column 5 or on the bottom edges of row 5. */
module FovExamples {
  import opened Types
  import opened Lines
  import opened Utils
  import opened MapTiles
  import opened Blocking
  import opened Movement
  import opened Fov

  /** An empty tile with a short wall on its bottom edge, or on its left edge. */
  function EdgeWallTile(bottom: bool): Tile
  {
    if bottom then EmptyTile().(bottomWall := ShortWall) else EmptyTile().(leftWall := ShortWall)
  }

  /** `t` with each of `cells` replaced, in order, by an edge-wall tile. */
  function WithShortWalls(t: Tiles, cells: seq<Pos>, bottom: bool): (r: Tiles)
    requires Valid(t) && forall i :: 0 <= i < |cells| ==> InBounds(t, cells[i])
    ensures Valid(r) && Width(r) == Width(t) && Height(r) == Height(t)
    ensures forall q :: InBounds(r, q) ==> At(r, q) == if q in cells then EdgeWallTile(bottom) else At(t, q)
    decreases |cells|
  {
    if cells == [] then t
    else
      var n := |cells| - 1;
      assert cells == cells[..n] + [cells[n]];
      assert InBounds(t, cells[n]);
      SetTile(WithShortWalls(t, cells[..n], bottom), cells[n], EdgeWallTile(bottom))
  }

  /** The cells the tests' loops give a wall: (5, 2) .. (5, 7) for left walls and
      (2, 5) .. (7, 5) for bottom walls. */
  function WallCells(bottom: bool): seq<Pos>
  {
    if bottom then [Pos(2, 5), Pos(3, 5), Pos(4, 5), Pos(5, 5), Pos(6, 5), Pos(7, 5)]
    else [Pos(5, 2), Pos(5, 3), Pos(5, 4), Pos(5, 5), Pos(5, 6), Pos(5, 7)]
  }

  /** A 10 by 10 grid of open tiles whose wall cells carry a short wall on one edge:
      the grid the tests build. */
  ghost predicate WallRowGrid(t: Tiles, bottom: bool)
  {
    && Valid(t) && Width(t) == 10 && Height(t) == 10
    && (forall q :: InBounds(t, q) ==> !At(t, q).blocked)
    && (forall q :: InBounds(t, q) ==>
          At(t, q) == if q in WallCells(bottom) then EdgeWallTile(bottom) else EmptyTile())
  }

  /** The tests' grid: `Map::from_dims(10, 10)` with the loop's walls written in. */
  function FovWallGrid(bottom: bool): (r: Tiles)
    ensures WallRowGrid(r, bottom)
  {
    WithShortWalls(FromDims(10, 10), WallCells(bottom), bottom)
  }

  /** The start followed by the line, for a horizontal or vertical line. */
  lemma AxisPath(s: Pos, dx: int, dy: int)
    requires dx == 0 || dy == 0
    ensures var path := [s] + Line(s, Target(s, dx, dy));
      && |path| == Abs(dx) + Abs(dy) + 1
      && forall j :: 0 <= j < |path| ==> path[j] == Pos(Toward(s.x, Sign(dx), j), Toward(s.y, Sign(dy), j))
  {
    var e := Target(s, dx, dy);
    LineStraight(s, e);
    var path := [s] + Line(s, e);
    forall j | 0 <= j < |path|
      ensures path[j] == Pos(Toward(s.x, Sign(dx), j), Toward(s.y, Sign(dy), j))
    {
      if j > 0 {
        assert path[j] == Line(s, e)[j - 1];
      }
    }
  }

  /** A horizontal or vertical step between cells of a wall-row grid passes when the
      edge it crosses carries no wall. */
  lemma AxisStepPasses(t: Tiles, bottom: bool, a: Pos, b: Pos)
    requires WallRowGrid(t, bottom)
    requires InBounds(t, a) && InBounds(t, b)
    requires Cheb(a, b) == 1 && (a.x == b.x || a.y == b.y)
    requires CrossedEdge(t, a, b) == Empty
    ensures StepOk(t, a, b) && MoveBlocked(t, a, b).None?
  {
    AxisMoveBlocked(t, a, b);
  }

  /** The line check along a horizontal or vertical line of a wall-row grid whose
      steps before step `i` cross no wall and whose step `i` crosses a short wall. */
  lemma AxisLineStops(t: Tiles, bottom: bool, s: Pos, dx: int, dy: int, i: nat)
    requires WallRowGrid(t, bottom) && (dx == 0 || dy == 0)
    requires var path := [s] + Line(s, Target(s, dx, dy));
      && i < |path| - 1 && InBounds(t, s) && InBounds(t, Target(s, dx, dy))
      && (forall j :: 0 <= j < i ==> CrossedEdge(t, path[j], path[j + 1]) == Empty)
      && CrossedEdge(t, path[i], path[i + 1]) == ShortWall
    ensures LineStartOk(t, s, dx, dy)
    ensures var path := [s] + Line(s, Target(s, dx, dy));
      IsBlockedByWall(t, s, dx, dy) ==
        Some(Blocked(path[i], path[i + 1], DirectionFromDxy(Sign(dx), Sign(dy)), false, ShortWall))
  {
    AxisPath(s, dx, dy);
    var path := [s] + Line(s, Target(s, dx, dy));
    AxisPathInBounds(t, s, dx, dy);
    forall j | 0 <= j < i
      ensures Cheb(path[j], path[j + 1]) == 1 && StepOk(t, path[j], path[j + 1]) && MoveBlocked(t, path[j], path[j + 1]).None?
    {
      AxisStepPasses(t, bottom, path[j], path[j + 1]);
    }
    AxisMoveBlocked(t, path[i], path[i + 1]);
    IsBlockedByWallAtStep(t, s, dx, dy, i);
  }

  /** Along a horizontal or vertical line of a wall-row grid that crosses no wall, the
      line check finds nothing. */
  lemma AxisLineClear(t: Tiles, bottom: bool, s: Pos, dx: int, dy: int)
    requires WallRowGrid(t, bottom) && (dx == 0 || dy == 0)
    requires var path := [s] + Line(s, Target(s, dx, dy));
      && InBounds(t, s) && InBounds(t, Target(s, dx, dy))
      && forall j :: 0 <= j < |path| - 1 ==> CrossedEdge(t, path[j], path[j + 1]) == Empty
    ensures LineStartOk(t, s, dx, dy)
    ensures IsBlockedByWall(t, s, dx, dy).None?
  {
    AxisPath(s, dx, dy);
    var path := [s] + Line(s, Target(s, dx, dy));
    AxisPathInBounds(t, s, dx, dy);
    forall j | 0 <= j < |path| - 1
      ensures Cheb(path[j], path[j + 1]) == 1 && StepOk(t, path[j], path[j + 1]) && MoveBlocked(t, path[j], path[j + 1]).None?
    {
      AxisStepPasses(t, bottom, path[j], path[j + 1]);
    }
    IsBlockedByWallClear(t, s, dx, dy);
  }

  /** Every cell of a horizontal or vertical path between two on-grid cells is on the
      grid, and consecutive cells are one axis step apart. */
  lemma AxisPathInBounds(t: Tiles, s: Pos, dx: int, dy: int)
    requires Valid(t) && (dx == 0 || dy == 0) && InBounds(t, s) && InBounds(t, Target(s, dx, dy))
    ensures var path := [s] + Line(s, Target(s, dx, dy));
      && (forall j :: 0 <= j < |path| ==> InBounds(t, path[j]))
      && (forall j :: 0 <= j < |path| - 1 ==>
            Cheb(path[j], path[j + 1]) == 1 && (path[j].x == path[j + 1].x || path[j].y == path[j + 1].y))
  {
    AxisPath(s, dx, dy);
  }

  /** A walk whose look from `cur` meets a short wall ending at `next`, with the jump
      within budget, continues from `next`. */
  lemma WalkJumps(t: Tiles, look: Pos -> Option<Blocked>, cur: Pos, end: Pos, maxDist: int, used: int)
    requires Valid(t) && InBounds(t, cur) && Sound(t, end, look) && cur != end && used < maxDist
    requires look(cur).Some? && look(cur).value.wallType == ShortWall
    requires used + Cheb(cur, look(cur).value.endPos) + 1 <= maxDist
    ensures InBounds(t, look(cur).value.endPos)
    ensures FovWalk(t, look, cur, end, maxDist, used, false) ==
      FovWalk(t, look, look(cur).value.endPos, end, maxDist, used + Cheb(cur, look(cur).value.endPos) + 1, false)
  {
  }

  /** Along column 5 of the bottom-wall grid only (5, 5) has a wall on its bottom edge. */
  lemma ColumnEdges(t: Tiles, y: int)
    requires WallRowGrid(t, true) && 0 <= y < 10
    ensures BottomWallAt(t, Pos(5, y)) == if y == 5 then ShortWall else Empty
  {
    assert InBounds(t, Pos(5, y));
    assert Pos(5, y) in WallCells(true) <==> y == 5;
  }

  /** Along row 5 of the left-wall grid only (5, 5) has a wall on its left edge. */
  lemma RowEdges(t: Tiles, x: int)
    requires WallRowGrid(t, false) && 0 <= x < 10
    ensures LeftWallAt(t, Pos(x, 5)) == if x == 5 then ShortWall else Empty
  {
    assert InBounds(t, Pos(x, 5));
    assert Pos(x, 5) in WallCells(false) <==> x == 5;
  }

  /** On the bottom-wall grid, the line check from (5, 9) toward (5, 5) stops at the
      short wall under (5, 5), on the step from (5, 6) up into it. */
  lemma LookUp(t: Tiles)
    requires WallRowGrid(t, true)
    ensures LineStartOk(t, Pos(5, 9), 0, -4)
    ensures IsBlockedByWall(t, Pos(5, 9), 0, -4) ==
      Some(Blocked(Pos(5, 6), Pos(5, 5), Direction.Up, false, ShortWall))
  {
    var s := Pos(5, 9);
    AxisPath(s, 0, -4);
    var path := [s] + Line(s, Target(s, 0, -4));
    assert path == [Pos(5, 9), Pos(5, 8), Pos(5, 7), Pos(5, 6), Pos(5, 5)];
    ColumnEdges(t, 8);
    ColumnEdges(t, 7);
    ColumnEdges(t, 6);
    ColumnEdges(t, 5);
    AxisLineStops(t, true, s, 0, -4, 3);
  }

  /** On the bottom-wall grid, the line check from (5, 1) toward (5, 6) stops at the
      short wall under (5, 5), on the step from (5, 5) down out of it. */
  lemma LookDown(t: Tiles)
    requires WallRowGrid(t, true)
    ensures LineStartOk(t, Pos(5, 1), 0, 5)
    ensures IsBlockedByWall(t, Pos(5, 1), 0, 5) ==
      Some(Blocked(Pos(5, 5), Pos(5, 6), Direction.Down, false, ShortWall))
  {
    var s := Pos(5, 1);
    AxisPath(s, 0, 5);
    var path := [s] + Line(s, Target(s, 0, 5));
    assert path == [Pos(5, 1), Pos(5, 2), Pos(5, 3), Pos(5, 4), Pos(5, 5), Pos(5, 6)];
    ColumnEdges(t, 1);
    ColumnEdges(t, 2);
    ColumnEdges(t, 3);
    ColumnEdges(t, 4);
    ColumnEdges(t, 5);
    AxisLineStops(t, true, s, 0, 5, 4);
  }

  /** On the left-wall grid, the line check from (9, 5) toward (4, 5) stops at the
      short wall on the left edge of (5, 5), on the step from (5, 5) to (4, 5). */
  lemma LookLeft(t: Tiles)
    requires WallRowGrid(t, false)
    ensures LineStartOk(t, Pos(9, 5), -5, 0)
    ensures IsBlockedByWall(t, Pos(9, 5), -5, 0) ==
      Some(Blocked(Pos(5, 5), Pos(4, 5), Direction.Right, false, ShortWall))
  {
    var s := Pos(9, 5);
    AxisPath(s, -5, 0);
    var path := [s] + Line(s, Target(s, -5, 0));
    assert path == [Pos(9, 5), Pos(8, 5), Pos(7, 5), Pos(6, 5), Pos(5, 5), Pos(4, 5)];
    RowEdges(t, 9);
    RowEdges(t, 8);
    RowEdges(t, 7);
    RowEdges(t, 6);
    RowEdges(t, 5);
    AxisLineStops(t, false, s, -5, 0, 4);
  }

  /** On the left-wall grid, the line check from (4, 5) toward (9, 5) stops on its
      first step, into (5, 5). */
  lemma LookRight(t: Tiles)
    requires WallRowGrid(t, false)
    ensures LineStartOk(t, Pos(4, 5), 5, 0)
    ensures IsBlockedByWall(t, Pos(4, 5), 5, 0) ==
      Some(Blocked(Pos(4, 5), Pos(5, 5), Direction.Left, false, ShortWall))
  {
    var s := Pos(4, 5);
    AxisPath(s, 5, 0);
    var path := [s] + Line(s, Target(s, 5, 0));
    assert path[0] == Pos(4, 5) && path[1] == Pos(5, 5);
    RowEdges(t, 5);
    AxisLineStops(t, false, s, 5, 0, 0);
  }

  /** On the left-wall grid, past the wall, the line from (5, 5) to (9, 5) is clear. */
  lemma LookPastWallRight(t: Tiles)
    requires WallRowGrid(t, false)
    ensures LineStartOk(t, Pos(5, 5), 4, 0)
    ensures IsBlockedByWall(t, Pos(5, 5), 4, 0).None?
  {
    var m := Pos(5, 5);
    AxisPath(m, 4, 0);
    var path := [m] + Line(m, Target(m, 4, 0));
    assert path == [Pos(5, 5), Pos(6, 5), Pos(7, 5), Pos(8, 5), Pos(9, 5)];
    RowEdges(t, 6);
    RowEdges(t, 7);
    RowEdges(t, 8);
    RowEdges(t, 9);
    AxisLineClear(t, false, m, 4, 0);
  }

  /** `test_fov_blocked_by_wall_up`: looking from (5, 9) up to (5, 5), the line check
      stops at the short wall under (5, 5), and the walk looks over it at a cost of
      4 + 1, well within the radius 10, so it reaches (5, 5). */
  lemma WalkOverWallUp(t: Tiles)
    requires WallRowGrid(t, true)
    ensures Sound(t, Pos(5, 5), SightTo(t, Pos(5, 5)))
    ensures InBounds(t, Pos(5, 9))
    ensures FovWalk(t, SightTo(t, Pos(5, 5)), Pos(5, 9), Pos(5, 5), 10, 0, false) == Pos(5, 5)
  {
    var s, e := Pos(5, 9), Pos(5, 5);
    SightToSound(t, e);
    LookUp(t);
    assert SightTo(t, e)(s) == Sight(t, s, e) == IsBlockedByWall(t, s, 0, -4);
    WalkJumps(t, SightTo(t, e), s, e, 10, 0);
  }

  /** `test_fov_blocked_by_wall_down`: from (5, 1) down to (5, 6) the short wall under
      (5, 5) is looked over at a cost of 5 + 1, and the walk reaches (5, 6). */
  lemma WalkOverWallDown(t: Tiles)
    requires WallRowGrid(t, true)
    ensures Sound(t, Pos(5, 6), SightTo(t, Pos(5, 6)))
    ensures InBounds(t, Pos(5, 1))
    ensures FovWalk(t, SightTo(t, Pos(5, 6)), Pos(5, 1), Pos(5, 6), 10, 0, false) == Pos(5, 6)
  {
    var s, e := Pos(5, 1), Pos(5, 6);
    SightToSound(t, e);
    LookDown(t);
    assert SightTo(t, e)(s) == Sight(t, s, e) == IsBlockedByWall(t, s, 0, 5);
    WalkJumps(t, SightTo(t, e), s, e, 10, 0);
  }

  /** `test_fov_blocked_by_wall_left`: from (9, 5) left to (4, 5) the short wall on the
      left of (5, 5) is looked over at a cost of 5 + 1, and the walk reaches (4, 5). */
  lemma WalkOverWallLeft(t: Tiles)
    requires WallRowGrid(t, false)
    ensures Sound(t, Pos(4, 5), SightTo(t, Pos(4, 5)))
    ensures InBounds(t, Pos(9, 5))
    ensures FovWalk(t, SightTo(t, Pos(4, 5)), Pos(9, 5), Pos(4, 5), 10, 0, false) == Pos(4, 5)
  {
    var s, e := Pos(9, 5), Pos(4, 5);
    SightToSound(t, e);
    LookLeft(t);
    assert SightTo(t, e)(s) == Sight(t, s, e) == IsBlockedByWall(t, s, -5, 0);
    WalkJumps(t, SightTo(t, e), s, e, 10, 0);
  }

  /** `test_fov_blocked_by_wall_right`: from (4, 5) right to (9, 5) the first step
      meets the short wall on the left of (5, 5); the walk looks over it at a cost of
      1 + 1, then sees the clear rest of the row at a cost of 4, and reaches (9, 5). */
  lemma WalkOverWallRight(t: Tiles)
    requires WallRowGrid(t, false)
    ensures Sound(t, Pos(9, 5), SightTo(t, Pos(9, 5)))
    ensures InBounds(t, Pos(4, 5))
    ensures FovWalk(t, SightTo(t, Pos(9, 5)), Pos(4, 5), Pos(9, 5), 10, 0, false) == Pos(9, 5)
  {
    var s, m, e := Pos(4, 5), Pos(5, 5), Pos(9, 5);
    SightToSound(t, e);
    LookRight(t);
    LookPastWallRight(t);
    assert SightTo(t, e)(s) == Sight(t, s, e) == IsBlockedByWall(t, s, 5, 0);
    WalkJumps(t, SightTo(t, e), s, e, 10, 0);
    assert SightTo(t, e)(m) == Sight(t, m, e) == IsBlockedByWall(t, m, 4, 0);
    WalkSeesEnd(t, SightTo(t, e), m, e, 10, 2);
  }

  /** A walk whose look from `cur` is clear, with the rest of the line within budget,
      arrives at the end. */
  lemma WalkSeesEnd(t: Tiles, look: Pos -> Option<Blocked>, cur: Pos, end: Pos, maxDist: int, used: int)
    requires Valid(t) && InBounds(t, cur) && Sound(t, end, look) && cur != end
    requires look(cur).None? && used + Cheb(cur, end) <= maxDist && used < maxDist
    ensures FovWalk(t, look, cur, end, maxDist, used, false) == end
  {
  }
}

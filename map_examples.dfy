/** The wall and water cases from the unit tests of roguelike_core/src/map.rs, on
    a 10 by 10 grid of empty tiles. */
module MapExamples {
  import opened Types
  import opened Lines
  import opened Utils
  import opened MapTiles
  import opened Blocking

  /** A single axis step checked with `is_blocked_by_wall` is blocked exactly when the
      target is blocked or the owning edge carries a wall, and reports that wall. */
  lemma AxisStepBlocked(t: Tiles, s: Pos, dx: int, dy: int)
    requires Valid(t) && Abs(dx) + Abs(dy) == 1
    requires InBounds(t, Target(s, dx, dy))
    ensures LineStartOk(t, s, dx, dy)
    ensures IsBlockedByWall(t, s, dx, dy).Some? <==>
      At(t, Target(s, dx, dy)).blocked || CrossedEdge(t, s, Target(s, dx, dy)) != Empty
    ensures IsBlockedByWall(t, s, dx, dy).Some? ==>
      IsBlockedByWall(t, s, dx, dy).value.wallType == CrossedEdge(t, s, Target(s, dx, dy))
  {
    IsBlockedByWallStep(t, s, dx, dy);
    AxisMoveBlocked(t, s, Target(s, dx, dy));
  }

  /** A line check that passes over a blocked cell reports a block. */
  lemma BlockedCellOnLine(t: Tiles, s: Pos, dx: int, dy: int, p: Pos)
    requires Valid(t) && LineStartOk(t, s, dx, dy)
    requires p in Line(s, Target(s, dx, dy)) && InBounds(t, p) && At(t, p).blocked
    ensures IsBlockedByWall(t, s, dx, dy).Some?
  {
  }

  /** The grid with a short wall on the left edge of (5, 5). */
  function LeftWallGrid(): (r: Tiles)
    ensures Valid(r) && Width(r) == 10 && Height(r) == 10
  {
    var t := FromDims(10, 10);
    SetTile(t, Pos(5, 5), At(t, Pos(5, 5)).(leftWall := ShortWall))
  }

  /** The grid with a short wall on the bottom edge of (5, 5). */
  function BottomWallGrid(): (r: Tiles)
    ensures Valid(r) && Width(r) == 10 && Height(r) == 10
  {
    var t := FromDims(10, 10);
    SetTile(t, Pos(5, 5), At(t, Pos(5, 5)).(bottomWall := ShortWall))
  }

  /** The grid with water at (5, 5). */
  function WaterGrid(): (r: Tiles)
    ensures Valid(r) && Width(r) == 10 && Height(r) == 10
  {
    SetTile(FromDims(10, 10), Pos(5, 5), WaterTile())
  }

  lemma BlockedByWallRight()
    ensures LineStartOk(LeftWallGrid(), Pos(4, 5), 1, 0)
    ensures IsBlockedByWall(LeftWallGrid(), Pos(4, 5), 1, 0).Some?
    ensures IsBlockedByWall(LeftWallGrid(), Pos(4, 5), 1, 0).value.wallType == ShortWall
    ensures IsBlockedByWall(LeftWallGrid(), Pos(5, 5), 1, 0).None?
    ensures IsBlockedByWall(LeftWallGrid(), Pos(3, 5), 1, 0).None?
  {
    var t := LeftWallGrid();
    AxisStepBlocked(t, Pos(4, 5), 1, 0);
    AxisStepBlocked(t, Pos(5, 5), 1, 0);
    AxisStepBlocked(t, Pos(3, 5), 1, 0);
  }

  lemma BlockedByWallLeft()
    ensures LineStartOk(LeftWallGrid(), Pos(5, 5), -1, 0)
    ensures IsBlockedByWall(LeftWallGrid(), Pos(5, 5), -1, 0).Some?
    ensures IsBlockedByWall(LeftWallGrid(), Pos(5, 5), -1, 0).value.wallType == ShortWall
    ensures IsBlockedByWall(LeftWallGrid(), Pos(4, 5), -1, 0).None?
    ensures IsBlockedByWall(LeftWallGrid(), Pos(6, 5), -1, 0).None?
  {
    var t := LeftWallGrid();
    AxisStepBlocked(t, Pos(5, 5), -1, 0);
    AxisStepBlocked(t, Pos(4, 5), -1, 0);
    AxisStepBlocked(t, Pos(6, 5), -1, 0);
  }

  lemma BlockedByWallUp()
    ensures LineStartOk(BottomWallGrid(), Pos(5, 6), 0, -1)
    ensures IsBlockedByWall(BottomWallGrid(), Pos(5, 6), 0, -1).Some?
    ensures IsBlockedByWall(BottomWallGrid(), Pos(5, 6), 0, -1).value.wallType == ShortWall
    ensures IsBlockedByWall(BottomWallGrid(), Pos(5, 5), 0, -1).None?
    ensures IsBlockedByWall(BottomWallGrid(), Pos(5, 4), 0, -1).None?
  {
    var t := BottomWallGrid();
    AxisStepBlocked(t, Pos(5, 6), 0, -1);
    AxisStepBlocked(t, Pos(5, 5), 0, -1);
    AxisStepBlocked(t, Pos(5, 4), 0, -1);
  }

  lemma BlockedByWallDown()
    ensures LineStartOk(BottomWallGrid(), Pos(5, 5), 0, 1)
    ensures IsBlockedByWall(BottomWallGrid(), Pos(5, 5), 0, 1).Some?
    ensures IsBlockedByWall(BottomWallGrid(), Pos(5, 5), 0, 1).value.wallType == ShortWall
    ensures IsBlockedByWall(BottomWallGrid(), Pos(5, 6), 0, 1).None?
    ensures IsBlockedByWall(BottomWallGrid(), Pos(5, 7), 0, 1).None?
  {
    var t := BottomWallGrid();
    AxisStepBlocked(t, Pos(5, 5), 0, 1);
    AxisStepBlocked(t, Pos(5, 6), 0, 1);
    AxisStepBlocked(t, Pos(5, 7), 0, 1);
  }

  /** Water blocks every axis line that passes over it, whatever its length. */
  lemma BlockedByWaterNext()
    ensures LineStartOk(WaterGrid(), Pos(4, 5), 3, 0) && IsBlockedByWall(WaterGrid(), Pos(4, 5), 3, 0).Some?
  {
    var t := WaterGrid();
    var w := Pos(5, 5);
    assert InBounds(t, w) && At(t, w).blocked;
    LineStraight(Pos(4, 5), Pos(7, 5));
    assert Line(Pos(4, 5), Pos(7, 5))[0] == w;
    BlockedCellOnLine(t, Pos(4, 5), 3, 0, w);
  }

  lemma BlockedByWaterSecond()
    ensures LineStartOk(WaterGrid(), Pos(3, 5), 3, 0) && IsBlockedByWall(WaterGrid(), Pos(3, 5), 3, 0).Some?
  {
    var t := WaterGrid();
    var w := Pos(5, 5);
    assert InBounds(t, w) && At(t, w).blocked;
    LineStraight(Pos(3, 5), Pos(6, 5));
    assert Line(Pos(3, 5), Pos(6, 5))[1] == w;
    BlockedCellOnLine(t, Pos(3, 5), 3, 0, w);
  }

  lemma BlockedByWaterAdjacent()
    ensures LineStartOk(WaterGrid(), Pos(4, 5), 1, 0) && IsBlockedByWall(WaterGrid(), Pos(4, 5), 1, 0).Some?
    ensures LineStartOk(WaterGrid(), Pos(6, 5), -1, 0) && IsBlockedByWall(WaterGrid(), Pos(6, 5), -1, 0).Some?
    ensures LineStartOk(WaterGrid(), Pos(5, 6), 0, -1) && IsBlockedByWall(WaterGrid(), Pos(5, 6), 0, -1).Some?
    ensures LineStartOk(WaterGrid(), Pos(5, 4), 0, 1) && IsBlockedByWall(WaterGrid(), Pos(5, 4), 0, 1).Some?
  {
    var t := WaterGrid();
    AxisStepBlocked(t, Pos(4, 5), 1, 0);
    AxisStepBlocked(t, Pos(6, 5), -1, 0);
    AxisStepBlocked(t, Pos(5, 6), 0, -1);
    AxisStepBlocked(t, Pos(5, 4), 0, 1);
  }
}

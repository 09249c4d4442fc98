/** The collision outcome of a move and the decision table of `calculate_move`
    (roguelike_core/src/movement.rs). Which entity stands on a cell enters as a map;
    the decision functions take the outcome of the entity scan as a parameter. */
module MoveCalc {
  import opened Types
  import opened Lines
  import opened Utils
  import opened Movement
  import opened MapTiles
  import opened Blocking

  /** An entity the collision scan stopped at: its id, where it stands, whether it is alive. */
  datatype Entity = Entity(id: nat, pos: Pos, alive: bool)

  /** What a mover ends up doing. */
  datatype Move =
    | MoveTo(pos: Pos)
    | Pass(pos: Pos)
    | Attack(pos: Pos, target: nat)
    | Collide(pos: Pos)
    | WallKick(pos: Pos, dirX: int, dirY: int)
    | JumpWall(pos: Pos)

  /** The cell a movement is about. */
  function Xy(m: Move): (r: Pos)
    ensures m.MoveTo? || m.Pass? || m.Attack? || m.Collide? || m.WallKick? || m.JumpWall?
    ensures r == m.pos
  {
    match m
    case MoveTo(p) => p
    case Pass(p) => p
    case Attack(p, _) => p
    case Collide(p) => p
    case WallKick(p, _, _) => p
    case JumpWall(p) => p
  }

  datatype MoveResult = MoveResult(entity: Option<Entity>, blocked: Option<Blocked>, movePos: Pos)

  function WithPos(pos: Pos): (r: MoveResult)
    ensures r.entity.None? && r.blocked.None? && r.movePos == pos
  {
    MoveResult(None, None, pos)
  }

  predicate NoCollision(m: MoveResult)
  {
    m.blocked.None? && m.entity.None?
  }

  /** `check_collision`: the wall check along the move, then the outcome `hit` of the
      entity scan. A wall stops the mover at the start of the blocked step; an entity
      puts it back at `last_pos`, which the loop never advances past `pos`. */
  function CheckCollision(t: Tiles, pos: Pos, dx: int, dy: int, hit: Option<Entity>): (r: MoveResult)
    requires Valid(t) && LineStartOk(t, pos, dx, dy)
    ensures r.blocked == IsBlockedByWall(t, pos, dx, dy) && r.entity == hit
    ensures hit.Some? ==> r.movePos == pos
    ensures hit.None? && r.blocked.None? ==> r.movePos == Target(pos, dx, dy)
    ensures hit.None? && r.blocked.Some? ==> r.movePos == r.blocked.value.startPos
  {
    var wall := IsBlockedByWall(t, pos, dx, dy);
    var result := if wall.Some? then MoveResult(None, wall, wall.value.startPos)
                  else WithPos(Target(pos, dx, dy));
    if hit.Some? then result.(movePos := pos, entity := hit) else result
  }

  /** The entity scan of `check_collision` over the cells of the move's line:
      `occupant` stands for `is_blocked_tile`. The first occupied cell stops the scan
      with its entity; the cell `stop` where a wall check put the mover stops it
      after that cell has been looked at. */
  function FirstOccupant(cells: seq<Pos>, occupant: map<Pos, Entity>, stop: Option<Pos>): Option<Entity>
  {
    if cells == [] then None
    else if cells[0] in occupant then Some(occupant[cells[0]])
    else if stop == Some(cells[0]) then None
    else FirstOccupant(cells[1..], occupant, stop)
  }

  /** The cells before index `i` are all looked at and passed. */
  ghost predicate PassedBefore(cells: seq<Pos>, occupant: map<Pos, Entity>, stop: Option<Pos>, i: int)
  {
    forall j :: 0 <= j < i && j < |cells| ==> cells[j] !in occupant && stop != Some(cells[j])
  }

  /** The scan finds an entity exactly when some cell is occupied and every cell
      before it is free and is not the stop cell, and then it finds that cell's entity. */
  lemma {:induction false} FirstOccupantSpec(cells: seq<Pos>, occupant: map<Pos, Entity>, stop: Option<Pos>)
    ensures FirstOccupant(cells, occupant, stop).Some? <==>
      exists i :: 0 <= i < |cells| && cells[i] in occupant && PassedBefore(cells, occupant, stop, i)
    ensures forall i :: 0 <= i < |cells| && cells[i] in occupant && PassedBefore(cells, occupant, stop, i) ==>
      FirstOccupant(cells, occupant, stop) == Some(occupant[cells[i]])
  {
    if cells != [] {
      var rest := cells[1..];
      FirstOccupantSpec(rest, occupant, stop);
      forall i | 1 <= i < |cells|
        ensures PassedBefore(cells, occupant, stop, i) <==>
          cells[0] !in occupant && stop != Some(cells[0]) && PassedBefore(rest, occupant, stop, i - 1)
      {
        if cells[0] !in occupant && stop != Some(cells[0]) && PassedBefore(rest, occupant, stop, i - 1) {
          forall j | 0 <= j < i
            ensures cells[j] !in occupant && stop != Some(cells[j])
          {
            if j > 0 {
              assert cells[j] == rest[j - 1];
            }
          }
        }
        if PassedBefore(cells, occupant, stop, i) {
          forall j | 0 <= j < i - 1
            ensures rest[j] !in occupant && stop != Some(rest[j])
          {
            assert rest[j] == cells[j + 1];
          }
        }
      }
      if FirstOccupant(cells, occupant, stop).Some? && cells[0] !in occupant {
        var k :| 0 <= k < |rest| && rest[k] in occupant && PassedBefore(rest, occupant, stop, k);
        assert cells[k + 1] == rest[k];
      }
      forall i | 0 <= i < |cells| && cells[i] in occupant && PassedBefore(cells, occupant, stop, i)
        ensures FirstOccupant(cells, occupant, stop) == Some(occupant[cells[i]])
      {
        if i > 0 {
          assert rest[i - 1] == cells[i];
        }
      }
    }
  }

  /** The loop of `check_collision` over the move's line. */
  method ScanLine(cells: seq<Pos>, occupant: map<Pos, Entity>, stop: Option<Pos>) returns (hit: Option<Entity>)
    ensures hit == FirstOccupant(cells, occupant, stop)
  {
    hit := None;
    var i := 0;
    while i < |cells|
      invariant 0 <= i <= |cells|
      invariant FirstOccupant(cells[i..], occupant, stop) == FirstOccupant(cells, occupant, stop)
    {
      var cell := cells[i];
      if cell in occupant {
        hit := Some(occupant[cell]);
        return;
      }
      if stop == Some(cell) {
        return;
      }
      assert cells[i..][1..] == cells[i + 1..];
      i := i + 1;
    }
  }

  /** `check_collision` with its entity scan: the wall check, then the scan along the
      line, which stops after the cell where the wall check put the mover. */
  method CheckCollisionScan(t: Tiles, pos: Pos, dx: int, dy: int, occupant: map<Pos, Entity>) returns (r: MoveResult)
    requires Valid(t) && LineStartOk(t, pos, dx, dy)
    ensures var wall := IsBlockedByWall(t, pos, dx, dy);
      r == CheckCollision(t, pos, dx, dy,
        FirstOccupant(Line(pos, Target(pos, dx, dy)), occupant,
          if wall.Some? then Some(wall.value.startPos) else None))
  {
    var wall := IsBlockedByWall(t, pos, dx, dy);
    var stop := if wall.Some? then Some(wall.value.startPos) else None;
    var hit := ScanLine(Line(pos, Target(pos, dx, dy)), occupant, stop);
    r := CheckCollision(t, pos, dx, dy, hit);
  }

  /** When the wall check stops the mover at a cell of the line, the scan finds no
      entity beyond that cell. */
  lemma ScanStopsAtWall(cells: seq<Pos>, occupant: map<Pos, Entity>, k: nat)
    requires k < |cells|
    ensures FirstOccupant(cells, occupant, Some(cells[k])).Some? ==>
      exists i :: 0 <= i <= k && cells[i] in occupant &&
        FirstOccupant(cells, occupant, Some(cells[k])) == Some(occupant[cells[i]])
  {
    var stop := Some(cells[k]);
    FirstOccupantSpec(cells, occupant, stop);
    if FirstOccupant(cells, occupant, stop).Some? {
      var i :| 0 <= i < |cells| && cells[i] in occupant && PassedBefore(cells, occupant, stop, i);
      assert i <= k;
    }
  }

  /** The match in `calculate_move` on what the collision check found. */
  function Decide(m: MoveResult, mode: MoveMode): (r: Option<Move>)
    ensures r.None? <==> m.blocked.None? && m.entity.Some? && !m.entity.value.alive
  {
    match (m.blocked, m.entity)
    case (Some(b), Some(e)) =>
      if e.pos == b.startPos then Some(Attack(m.movePos, e.id)) else Some(MoveTo(m.movePos))
    case (None, Some(e)) =>
      if e.alive then Some(Attack(m.movePos, e.id)) else None
    case (Some(b), None) =>
      if mode == Run && !b.blockedTile && b.wallType == ShortWall then Some(JumpWall(b.endPos))
      else Some(MoveTo(b.startPos))
    case (None, None) =>
      Some(MoveTo(m.movePos))
  }

  /** `calculate_move` has a collision check when the reach allows the direction and
      the first step of that line can be read from the grid. */
  predicate CanCalculate(t: Tiles, pos: Pos, action: Direction, reach: Reach)
    requires Valid(t)
  {
    var delta := MoveWithReach(reach, action);
    delta.Some? ==> LineStartOk(t, pos, delta.value.x, delta.value.y)
  }

  /** `calculate_move` for a mover at `pos` moving in `mode`; `hit` is the entity scan's outcome. */
  function CalculateMove(t: Tiles, pos: Pos, action: Direction, reach: Reach, mode: MoveMode, hit: Option<Entity>): (r: Option<Move>)
    requires Valid(t) && CanCalculate(t, pos, action, reach)
    ensures MoveWithReach(reach, action).None? ==> r.None?
  {
    match MoveWithReach(reach, action)
    case None => None
    case Some(delta) => Decide(CheckCollision(t, pos, delta.x, delta.y, hit), mode)
  }

  // ---------------------------------------------------------------------------
  // Properties

  /** The decision table, row by row. */
  lemma DecideCases(m: MoveResult, mode: MoveMode)
    ensures NoCollision(m) ==> Decide(m, mode) == Some(MoveTo(m.movePos))
    ensures m.blocked.Some? && m.entity.None? ==>
      Decide(m, mode) ==
        if mode == Run && !m.blocked.value.blockedTile && m.blocked.value.wallType == ShortWall
        then Some(JumpWall(m.blocked.value.endPos))
        else Some(MoveTo(m.blocked.value.startPos))
    ensures m.blocked.None? && m.entity.Some? ==>
      (Decide(m, mode) == Some(Attack(m.movePos, m.entity.value.id)) <==> m.entity.value.alive)
    ensures m.blocked.Some? && m.entity.Some? ==>
      (Decide(m, mode).value.Attack? <==> m.entity.value.pos == m.blocked.value.startPos)
    ensures m.blocked.Some? && m.entity.Some? ==> Xy(Decide(m, mode).value) == m.movePos
  {
  }

  /** Only a runner jumps, and only over a short wall with an open cell behind it. */
  lemma JumpWallOnlyWhenRunning(m: MoveResult, mode: MoveMode)
    requires Decide(m, mode).Some? && Decide(m, mode).value.JumpWall?
    ensures mode == Run && m.entity.None? && m.blocked.Some?
    ensures m.blocked.value.wallType == ShortWall && !m.blocked.value.blockedTile
    ensures Decide(m, mode).value.pos == m.blocked.value.endPos
  {
  }

  /** With no entity in the way, a move by `(dx, dy)` goes to the target when the line is
      clear, and otherwise stops at or jumps to a cell of the line (or stays at `pos`). */
  lemma WallOnlyOutcome(t: Tiles, pos: Pos, dx: int, dy: int, mode: MoveMode)
    requires Valid(t) && LineStartOk(t, pos, dx, dy)
    ensures Decide(CheckCollision(t, pos, dx, dy, None), mode).Some?
    ensures
      var m := Decide(CheckCollision(t, pos, dx, dy, None), mode).value;
      (IsBlockedByWall(t, pos, dx, dy).None? ==> m == MoveTo(Target(pos, dx, dy))) &&
      (m.MoveTo? || m.JumpWall?) &&
      (Xy(m) == pos || Xy(m) in Line(pos, Target(pos, dx, dy)))
  {
    var target := Target(pos, dx, dy);
    if IsBlockedByWall(t, pos, dx, dy).None? && target != pos {
      LineEndsAtTarget(pos, target);
      assert Line(pos, target)[|Line(pos, target)| - 1] == target;
    }
  }

  lemma CalculateMoveWithoutEntity(t: Tiles, pos: Pos, action: Direction, reach: Reach, mode: MoveMode)
    requires Valid(t) && CanCalculate(t, pos, action, reach)
    requires MoveWithReach(reach, action).Some?
    ensures CalculateMove(t, pos, action, reach, mode, None).Some?
    ensures
      var delta := MoveWithReach(reach, action).value;
      CalculateMove(t, pos, action, reach, mode, None) == Decide(CheckCollision(t, pos, delta.x, delta.y, None), mode)
    ensures
      var delta := MoveWithReach(reach, action).value;
      var m := CalculateMove(t, pos, action, reach, mode, None).value;
      Xy(m) == pos || Xy(m) in Line(pos, Target(pos, delta.x, delta.y))
  {
    var delta := MoveWithReach(reach, action).value;
    WallOnlyOutcome(t, pos, delta.x, delta.y, mode);
  }

  /** A runner never stops short of a clear line: running and walking agree unless a
      short wall with an open cell behind it is in the way. */
  lemma RunDiffersOnlyByJump(t: Tiles, pos: Pos, action: Direction, reach: Reach, hit: Option<Entity>)
    requires Valid(t) && CanCalculate(t, pos, action, reach)
    ensures CalculateMove(t, pos, action, reach, Run, hit) != CalculateMove(t, pos, action, reach, Walk, hit) ==>
      CalculateMove(t, pos, action, reach, Run, hit).value.JumpWall?
  {
  }
}

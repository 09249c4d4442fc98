/** Whether a move between cells is blocked by walls or blocked tiles
    (roguelike_core/src/map.rs). The functions here specify the queries; the
    methods of `Maps.Map` compute them step by step. */
module Blocking {
  import opened Types
  import opened Lines
  import opened Utils
  import opened Movement
  import opened MapTiles

  /** A move from `startPos` to the adjacent `endPos` that was stopped, either by
      the target tile itself (`blockedTile`) or by a wall of kind `wallType`. */
  datatype Blocked = Blocked(
    startPos: Pos,
    endPos: Pos,
    direction: Direction,
    blockedTile: bool,
    wallType: Wall)

  /** One sub-check of a move: whether it fires, and the wall it records when it
      does (None when it fires without recording a wall). */
  datatype Check = Check(fires: bool, wall: Option<Wall>)

  /** The move can be checked without reading outside the grid: the source
      indexes `pos` for diagonal moves once the target is known to be inside. */
  predicate StepOk(t: Tiles, pos: Pos, next: Pos)
    requires |t| > 0
  {
    InBounds(t, pos) || !InBounds(t, next) || pos.x == next.x || pos.y == next.y
  }

  function LeftWallAt(t: Tiles, p: Pos): Wall
    requires Valid(t)
  {
    if InBounds(t, p) then At(t, p).leftWall else Empty
  }

  function BottomWallAt(t: Tiles, p: Pos): Wall
    requires Valid(t)
  {
    if InBounds(t, p) then At(t, p).bottomWall else Empty
  }

  /** A check that fires on a wall read from an edge that may lie off the grid. */
  function EdgeCheck(w: Wall): Check
  {
    if w != Empty then Check(true, Some(w)) else Check(false, None)
  }

  /** The wall recorded by a check guarded by a bounds test on `p`. */
  function Guarded(t: Tiles, p: Pos, bottom: bool): Option<Wall>
    requires Valid(t)
  {
    if !InBounds(t, p) then None
    else if bottom then Some(At(t, p).bottomWall) else Some(At(t, p).leftWall)
  }

  /** The sub-checks of a one-cell move into the grid, in the order the source
      runs them: one edge check for a horizontal or vertical move, four corner
      checks for a diagonal one. The offsets are those of the source, including
      the `(1, -1)` probe of DownLeft and the `move_y(pos, -1)` probe of DownRight. */
  function MoveChecks(t: Tiles, pos: Pos, next: Pos): seq<Check>
    requires Valid(t) && InBounds(t, next) && Cheb(pos, next) == 1 && StepOk(t, pos, next)
  {
    var x, y := pos.x, pos.y;
    var dx, dy := next.x - x, next.y - y;
    var xMoved, yMoved := Pos(next.x, y), Pos(x, next.y);
    var dir := DirectionFromDxy(dx, dy);
    if dir == Direction.Left || dir == Direction.Right then
      var leftWallPos := if dx >= 1 then Pos(x + dx, y) else pos;
      [EdgeCheck(LeftWallAt(t, leftWallPos))]
    else if dir == Direction.Up || dir == Direction.Down then
      var bottomWallPos := if dy >= 1 then pos else Pos(x, y + dy);
      [EdgeCheck(BottomWallAt(t, bottomWallPos))]
    else if dir == DownRight then
      [Check(BlockedRight(t, pos) && BlockedDown(t, pos), Some(At(t, pos).bottomWall)),
       Check(BlockedRight(t, MoveY(pos, -1)) && BlockedDown(t, MoveX(pos, 1)),
             Guarded(t, AddPos(pos, Pos(-1, 1)), true)),
       Check(BlockedRight(t, pos) && BlockedRight(t, yMoved), Some(At(t, MoveX(pos, 1)).leftWall)),
       Check(BlockedDown(t, pos) && BlockedDown(t, xMoved), Some(At(t, pos).bottomWall))]
    else if dir == UpRight then
      [Check(BlockedUp(t, pos) && BlockedRight(t, pos), Some(At(t, MoveY(pos, -1)).bottomWall)),
       Check(BlockedUp(t, MoveX(pos, 1)) && BlockedRight(t, MoveY(pos, -1)),
             Guarded(t, AddPos(pos, Pos(1, -1)), true)),
       Check(BlockedRight(t, pos) && BlockedRight(t, yMoved), Some(At(t, MoveX(pos, 1)).leftWall)),
       Check(BlockedUp(t, pos) && BlockedUp(t, xMoved), Some(At(t, MoveY(pos, -1)).bottomWall))]
    else if dir == DownLeft then
      [Check(BlockedLeft(t, pos) && BlockedDown(t, pos), Some(At(t, pos).leftWall)),
       Check(BlockedLeft(t, MoveY(pos, 1)) && BlockedDown(t, MoveX(pos, -1)),
             Guarded(t, AddPos(pos, Pos(1, -1)), false)),
       Check(BlockedLeft(t, pos) && BlockedLeft(t, yMoved), Some(At(t, pos).leftWall)),
       Check(BlockedDown(t, pos) && BlockedDown(t, xMoved), Some(At(t, pos).bottomWall))]
    else if dir == UpLeft then
      [Check(BlockedLeft(t, MoveY(pos, -1)) && BlockedUp(t, MoveX(pos, -1)),
             Guarded(t, AddPos(pos, Pos(-1, -1)), false)),
       Check(BlockedLeft(t, pos) && BlockedUp(t, pos), Some(At(t, pos).leftWall)),
       Check(BlockedLeft(t, pos) && BlockedLeft(t, yMoved), Some(At(t, pos).leftWall)),
       Check(BlockedUp(t, pos) && BlockedUp(t, xMoved), Guarded(t, MoveY(pos, -1), true))]
    else
      assert false; []
  }

  /** Runs the checks in order: every firing check sets the found flag, and every
      firing check that records a wall overwrites the wall found so far. */
  function RunChecks(checks: seq<Check>, wall: Wall, found: bool): (Wall, bool)
  {
    if checks == [] then (wall, found)
    else
      var c := checks[0];
      RunChecks(checks[1..], if c.fires && c.wall.Some? then c.wall.value else wall, found || c.fires)
  }

  /** The wall of the last firing check that records one, or `wall` if none does. */
  function LastWall(checks: seq<Check>, wall: Wall): Wall
  {
    if checks == [] then wall
    else
      var c := checks[|checks| - 1];
      if c.fires && c.wall.Some? then c.wall.value else LastWall(checks[..|checks| - 1], wall)
  }

  predicate AnyFires(checks: seq<Check>)
  {
    exists i :: 0 <= i < |checks| && checks[i].fires
  }

  /** Running the checks finds a blocker exactly when one was already found or some
      check fires, and leaves the wall of the last firing check that records one. */
  lemma {:induction false} RunChecksSpec(checks: seq<Check>, wall: Wall, found: bool)
    ensures RunChecks(checks, wall, found).1 == (found || AnyFires(checks))
    ensures RunChecks(checks, wall, found).0 == LastWall(checks, wall)
    decreases |checks|
  {
    if checks != [] {
      var c := checks[0];
      var w := if c.fires && c.wall.Some? then c.wall.value else wall;
      RunChecksSpec(checks[1..], w, found || c.fires);
      if AnyFires(checks) {
        var i :| 0 <= i < |checks| && checks[i].fires;
        if i > 0 {
          assert checks[1..][i - 1].fires;
        }
      }
      if AnyFires(checks[1..]) {
        var i :| 0 <= i < |checks[1..]| && checks[1..][i].fires;
        assert checks[i + 1].fires;
      }
      LastWallCons(c, checks[1..], wall);
      assert [c] + checks[1..] == checks;
    }
  }

  lemma {:induction false} LastWallCons(c: Check, rest: seq<Check>, wall: Wall)
    ensures LastWall([c] + rest, wall) ==
      LastWall(rest, if c.fires && c.wall.Some? then c.wall.value else wall)
    decreases |rest|
  {
    if rest == [] {
      assert [c] + rest == [c];
      assert ([c] + rest)[..0] == [];
    } else {
      var s := [c] + rest;
      assert s[..|s| - 1] == [c] + rest[..|rest| - 1];
      assert s[|s| - 1] == rest[|rest| - 1];
      LastWallCons(c, rest[..|rest| - 1], wall);
    }
  }

  /** The single-step rule: whether moving from `pos` to the adjacent `next` is
      blocked, and by what. */
  function MoveBlocked(t: Tiles, pos: Pos, next: Pos): (r: Option<Blocked>)
    requires Valid(t) && Cheb(pos, next) == 1 && StepOk(t, pos, next)
    ensures r.Some? ==>
      r.value.startPos == pos && r.value.endPos == next &&
      r.value.direction == DirectionFromDxy(next.x - pos.x, next.y - pos.y)
    ensures r.None? ==> InBounds(t, next) && !At(t, next).blocked
    ensures !InBounds(t, next) ==> r.Some? && r.value.blockedTile && r.value.wallType == Empty
    ensures InBounds(t, next) ==>
      (r.Some? <==> At(t, next).blocked || AnyFires(MoveChecks(t, pos, next))) &&
      (r.Some? ==> r.value.blockedTile == At(t, next).blocked &&
                   r.value.wallType == LastWall(MoveChecks(t, pos, next), Empty))
  {
    var dir := DirectionFromDxy(next.x - pos.x, next.y - pos.y);
    if !InBounds(t, next) then
      Some(Blocked(pos, next, dir, true, Empty))
    else
      var tileBlocked := At(t, next).blocked;
      var checks := MoveChecks(t, pos, next);
      RunChecksSpec(checks, Empty, tileBlocked);
      var outcome := RunChecks(checks, Empty, tileBlocked);
      if outcome.1 then Some(Blocked(pos, next, dir, tileBlocked, outcome.0)) else None
  }

  /** The wall on the edge crossed by a horizontal or vertical move, read from the
      cell that owns it: moving right, the left wall of the target; moving left,
      the left wall of `pos`; moving down, the bottom wall of `pos`; moving up, the
      bottom wall of the target. */
  function CrossedEdge(t: Tiles, pos: Pos, next: Pos): Wall
    requires Valid(t)
  {
    if next.x == pos.x + 1 then LeftWallAt(t, next)
    else if next.x == pos.x - 1 then LeftWallAt(t, pos)
    else if next.y == pos.y + 1 then BottomWallAt(t, pos)
    else BottomWallAt(t, next)
  }

  /** Horizontal and vertical moves are blocked exactly by a blocked target or a
      wall on the crossed edge, and report that wall. */
  lemma AxisMoveBlocked(t: Tiles, pos: Pos, next: Pos)
    requires Valid(t) && Cheb(pos, next) == 1 && (pos.x == next.x || pos.y == next.y)
    requires InBounds(t, next)
    ensures MoveBlocked(t, pos, next).Some? <==>
      At(t, next).blocked || CrossedEdge(t, pos, next) != Empty
    ensures MoveBlocked(t, pos, next).Some? ==>
      MoveBlocked(t, pos, next).value.wallType == CrossedEdge(t, pos, next)
  {
    var checks := MoveChecks(t, pos, next);
    assert |checks| == 1 && checks[0] == EdgeCheck(CrossedEdge(t, pos, next));
    assert checks[..0] == [];
    if checks[0].fires {
      assert AnyFires(checks);
    }
    assert LastWall(checks, Empty) == CrossedEdge(t, pos, next);
  }

  /** A diagonal move is blocked when both edges of `pos` on the sides it leaves
      through are blocked. */
  lemma DiagonalCornerBlocked(t: Tiles, pos: Pos, next: Pos)
    requires Valid(t) && Cheb(pos, next) == 1 && pos.x != next.x && pos.y != next.y
    requires InBounds(t, pos) && InBounds(t, next)
    ensures next == Pos(pos.x + 1, pos.y + 1) && BlockedRight(t, pos) && BlockedDown(t, pos) ==>
      MoveBlocked(t, pos, next).Some?
    ensures next == Pos(pos.x + 1, pos.y - 1) && BlockedUp(t, pos) && BlockedRight(t, pos) ==>
      MoveBlocked(t, pos, next).Some?
    ensures next == Pos(pos.x - 1, pos.y + 1) && BlockedLeft(t, pos) && BlockedDown(t, pos) ==>
      MoveBlocked(t, pos, next).Some?
    ensures next == Pos(pos.x - 1, pos.y - 1) && BlockedLeft(t, pos) && BlockedUp(t, pos) ==>
      MoveBlocked(t, pos, next).Some?
  {
    var checks := MoveChecks(t, pos, next);
    if next == Pos(pos.x - 1, pos.y - 1) {
      if BlockedLeft(t, pos) && BlockedUp(t, pos) {
        assert checks[1].fires;
      }
    } else if checks[0].fires {
      assert AnyFires(checks);
    }
  }

  // ---------------------------------------------------------------------------
  // Paths

  /** `b` is a step between consecutive cells of `path` and every cell before it
      after the first is inside the grid and not blocked. */
  ghost predicate FirstBlockedStep(t: Tiles, path: seq<Pos>, b: Blocked)
    requires Valid(t)
  {
    exists i :: 0 <= i < |path| - 1 && b.startPos == path[i] && b.endPos == path[i + 1] &&
      ClearUpTo(t, path, i)
  }

  /** The cells `path[1..i]` are inside the grid and not blocked. */
  ghost predicate ClearUpTo(t: Tiles, path: seq<Pos>, i: int)
    requires Valid(t)
  {
    forall j :: 1 <= j <= i && j < |path| ==> InBounds(t, path[j]) && !At(t, path[j]).blocked
  }

  /** The first `k` steps of `path` are unit steps that can be checked and that the
      single-step rule lets through. */
  ghost predicate StepsClear(t: Tiles, path: seq<Pos>, k: int)
    requires Valid(t)
  {
    forall j :: 0 <= j < k && j + 1 < |path| ==>
      Cheb(path[j], path[j + 1]) == 1 && StepOk(t, path[j], path[j + 1]) &&
      MoveBlocked(t, path[j], path[j + 1]).None?
  }

  /** Step `i` of `path` is the first whose single-step check fires, and `b` is what
      that check reports. */
  ghost predicate BlockedFirstAt(t: Tiles, path: seq<Pos>, i: int, b: Blocked)
    requires Valid(t)
  {
    && 0 <= i < |path| - 1 && StepsClear(t, path, i)
    && Cheb(path[i], path[i + 1]) == 1 && StepOk(t, path[i], path[i + 1])
    && MoveBlocked(t, path[i], path[i + 1]) == Some(b)
  }

  /** The first blocked step between consecutive cells of `path`, if any. */
  function PathBlocked(t: Tiles, path: seq<Pos>): (r: Option<Blocked>)
    requires Valid(t) && Chain(path) && (|path| >= 2 ==> StepOk(t, path[0], path[1]))
    ensures r.None? ==> ClearUpTo(t, path, |path| - 1)
    ensures r.Some? ==> FirstBlockedStep(t, path, r.value)
    ensures r.Some? ==> r.value.startPos == path[0] || InBounds(t, r.value.startPos)
    ensures r.Some? && r.value.wallType != Empty ==> InBounds(t, r.value.endPos)
    decreases |path|
  {
    if |path| < 2 then None
    else
      var b := MoveBlocked(t, path[0], path[1]);
      if b.Some? then
        assert ClearUpTo(t, path, 0);
        b
      else
        ChainTail(path);
        var rest := PathBlocked(t, path[1..]);
        PathBlockedCons(t, path, rest);
        rest
  }

  /** No result means every step passes the single-step rule, walls on edges included,
      and a result is that rule's report on the first step it stops. */
  lemma {:induction false} PathBlockedFirstStep(t: Tiles, path: seq<Pos>)
    requires Valid(t) && Chain(path) && (|path| >= 2 ==> StepOk(t, path[0], path[1]))
    ensures PathBlocked(t, path).None? ==> StepsClear(t, path, |path| - 1)
    ensures PathBlocked(t, path).Some? ==> exists i :: BlockedFirstAt(t, path, i, PathBlocked(t, path).value)
    decreases |path|
  {
    if |path| >= 2 {
      var b := MoveBlocked(t, path[0], path[1]);
      if b.Some? {
        assert BlockedFirstAt(t, path, 0, b.value);
      } else {
        ChainTail(path);
        PathBlockedFirstStep(t, path[1..]);
        StepsClearCons(t, path, PathBlocked(t, path[1..]));
      }
    }
  }

  /** A result for the tail of a path whose first step passes is the first blocked
      step of the whole path. */
  lemma StepsClearCons(t: Tiles, path: seq<Pos>, rest: Option<Blocked>)
    requires Valid(t) && |path| >= 2 && Cheb(path[0], path[1]) == 1 && StepOk(t, path[0], path[1])
    requires MoveBlocked(t, path[0], path[1]).None?
    requires rest.None? ==> StepsClear(t, path[1..], |path| - 2)
    requires rest.Some? ==> exists i :: BlockedFirstAt(t, path[1..], i, rest.value)
    ensures rest.None? ==> StepsClear(t, path, |path| - 1)
    ensures rest.Some? ==> exists i :: BlockedFirstAt(t, path, i, rest.value)
  {
    var tail := path[1..];
    if rest.None? {
      forall j | 1 <= j < |path| - 1
        ensures path[j] == tail[j - 1] && path[j + 1] == tail[j]
      {
      }
    } else {
      var i :| BlockedFirstAt(t, tail, i, rest.value);
      forall j | 1 <= j <= i + 1
        ensures path[j] == tail[j - 1] && path[j + 1] == tail[j]
      {
      }
      assert BlockedFirstAt(t, path, i + 1, rest.value);
    }
  }

  lemma ChainTail(path: seq<Pos>)
    requires Chain(path) && |path| >= 1
    ensures Chain(path[1..])
  {
  }

  /** A result for the tail of a path whose second cell is clear is a result for
      the whole path. */
  lemma PathBlockedCons(t: Tiles, path: seq<Pos>, rest: Option<Blocked>)
    requires Valid(t) && |path| >= 2 && InBounds(t, path[1]) && !At(t, path[1]).blocked
    requires rest.None? ==> ClearUpTo(t, path[1..], |path| - 2)
    requires rest.Some? ==> FirstBlockedStep(t, path[1..], rest.value)
    ensures rest.None? ==> ClearUpTo(t, path, |path| - 1)
    ensures rest.Some? ==> FirstBlockedStep(t, path, rest.value)
  {
    if rest.None? {
      forall j | 1 <= j <= |path| - 1
        ensures InBounds(t, path[j]) && !At(t, path[j]).blocked
      {
        if j > 1 {
          assert path[j] == path[1..][j - 1];
        }
      }
    } else {
      var i :| 0 <= i < |path[1..]| - 1 && rest.value.startPos == path[1..][i] &&
        rest.value.endPos == path[1..][i + 1] && ClearUpTo(t, path[1..], i);
      forall j | 1 <= j <= i + 1
        ensures InBounds(t, path[j]) && !At(t, path[j]).blocked
      {
        if j > 1 {
          assert path[j] == path[1..][j - 1];
        }
      }
      assert ClearUpTo(t, path, i + 1);
    }
  }

  /** A two-cell path is blocked exactly as its single step is. */
  lemma PathBlockedStep(t: Tiles, a: Pos, b: Pos)
    requires Valid(t) && Cheb(a, b) == 1 && StepOk(t, a, b)
    ensures PathBlocked(t, [a, b]) == MoveBlocked(t, a, b)
  {
    assert Chain([a, b]);
  }

  /** The cell `dx, dy` away from `s`. */
  function Target(s: Pos, dx: int, dy: int): Pos
  {
    Pos(s.x + dx, s.y + dy)
  }

  /** The first step of the line to the target can be checked. */
  predicate LineStartOk(t: Tiles, s: Pos, dx: int, dy: int)
    requires |t| > 0
  {
    (dx != 0 || dy != 0) ==> StepOk(t, s, LinePoint(s, Target(s, dx, dy), 1))
  }

  /** Whether the straight line from `s` to `s + (dx, dy)` is blocked: the first
      blocked step along `[s] + Line(s, s + (dx, dy))`. */
  function IsBlockedByWall(t: Tiles, s: Pos, dx: int, dy: int): (r: Option<Blocked>)
    requires Valid(t) && LineStartOk(t, s, dx, dy)
    ensures dx == 0 && dy == 0 ==> r.None?
    ensures r.None? ==> forall p :: p in Line(s, Target(s, dx, dy)) ==> InBounds(t, p) && !At(t, p).blocked
    ensures r.Some? ==>
      r.value.endPos in Line(s, Target(s, dx, dy)) &&
      (r.value.startPos == s || r.value.startPos in Line(s, Target(s, dx, dy)))
    ensures r.Some? ==> r.value.startPos == s || InBounds(t, r.value.startPos)
    ensures r.Some? && r.value.wallType != Empty ==> InBounds(t, r.value.endPos)
    ensures r.Some? ==> r.value.startPos != Target(s, dx, dy)
  {
    if dx == 0 && dy == 0 then None
    else
      var e := Target(s, dx, dy);
      var path := [s] + Line(s, e);
      LineIsChain(s, e);
      var r := PathBlocked(t, path);
      if r.Some? then
        FirstStepBeforeEnd(t, s, e, r.value);
        r
      else
        ClearLine(t, s, e);
        r
  }

  /** An unfolding step for callers, not a property: the line check is, by its
      definition, the path check on the start followed by the line, and that path
      meets the path check's precondition. */
  lemma IsBlockedByWallPath(t: Tiles, s: Pos, dx: int, dy: int)
    requires Valid(t) && LineStartOk(t, s, dx, dy) && (dx != 0 || dy != 0)
    ensures var path := [s] + Line(s, Target(s, dx, dy));
      && Chain(path) && (|path| >= 2 ==> StepOk(t, path[0], path[1]))
      && IsBlockedByWall(t, s, dx, dy) == PathBlocked(t, path)
  {
    LineIsChain(s, Target(s, dx, dy));
  }

  /** Along the start followed by the line to the target, no result means every step
      passes the single-step rule, walls on edges included, and a result is that rule's
      report on the first step it stops. */
  lemma IsBlockedByWallFirstStep(t: Tiles, s: Pos, dx: int, dy: int)
    requires Valid(t) && LineStartOk(t, s, dx, dy)
    ensures var path := [s] + Line(s, Target(s, dx, dy));
      && (IsBlockedByWall(t, s, dx, dy).None? ==> StepsClear(t, path, |path| - 1))
      && (IsBlockedByWall(t, s, dx, dy).Some? ==>
            exists i :: BlockedFirstAt(t, path, i, IsBlockedByWall(t, s, dx, dy).value))
  {
    LineIsChain(s, Target(s, dx, dy));
    if dx != 0 || dy != 0 {
      IsBlockedByWallPath(t, s, dx, dy);
    }
    PathBlockedFirstStep(t, [s] + Line(s, Target(s, dx, dy)));
  }

  /** When the first `i` steps along the start and the line pass the single-step rule
      and step `i` does not, the line check reports step `i`. */
  lemma IsBlockedByWallAtStep(t: Tiles, s: Pos, dx: int, dy: int, i: int)
    requires Valid(t) && LineStartOk(t, s, dx, dy)
    requires var path := [s] + Line(s, Target(s, dx, dy));
      && 0 <= i < |path| - 1 && StepsClear(t, path, i)
      && Cheb(path[i], path[i + 1]) == 1 && StepOk(t, path[i], path[i + 1])
      && MoveBlocked(t, path[i], path[i + 1]).Some?
    ensures var path := [s] + Line(s, Target(s, dx, dy));
      IsBlockedByWall(t, s, dx, dy) == MoveBlocked(t, path[i], path[i + 1])
  {
    var path := [s] + Line(s, Target(s, dx, dy));
    IsBlockedByWallFirstStep(t, s, dx, dy);
    var r := IsBlockedByWall(t, s, dx, dy);
    if r.Some? {
      var k :| BlockedFirstAt(t, path, k, r.value);
    }
  }

  /** When every step along the start and the line passes the single-step rule, the
      line check finds nothing. */
  lemma IsBlockedByWallClear(t: Tiles, s: Pos, dx: int, dy: int)
    requires Valid(t) && LineStartOk(t, s, dx, dy)
    requires var path := [s] + Line(s, Target(s, dx, dy)); StepsClear(t, path, |path| - 1)
    ensures IsBlockedByWall(t, s, dx, dy).None?
  {
    IsBlockedByWallFirstStep(t, s, dx, dy);
  }

  /** The step at which a line check stops lies on the line and never starts at its target. */
  lemma FirstStepBeforeEnd(t: Tiles, s: Pos, e: Pos, b: Blocked)
    requires Valid(t) && FirstBlockedStep(t, [s] + Line(s, e), b)
    ensures b.startPos != e
    ensures b.endPos in Line(s, e) && (b.startPos == s || b.startPos in Line(s, e))
  {
    var path := [s] + Line(s, e);
    var i :| 0 <= i < |path| - 1 && b.startPos == path[i] && b.endPos == path[i + 1] && ClearUpTo(t, path, i);
    LineDistances(s, e);
    assert path[i + 1] == Line(s, e)[i];
    if i > 0 {
      assert path[i] == Line(s, e)[i - 1];
    }
  }

  /** A clear path check clears every cell of the line. */
  lemma ClearLine(t: Tiles, s: Pos, e: Pos)
    requires Valid(t) && ClearUpTo(t, [s] + Line(s, e), |Line(s, e)|)
    ensures forall p :: p in Line(s, e) ==> InBounds(t, p) && !At(t, p).blocked
  {
    var path := [s] + Line(s, e);
    forall p | p in Line(s, e)
      ensures InBounds(t, p) && !At(t, p).blocked
    {
      var k :| 0 <= k < |Line(s, e)| && Line(s, e)[k] == p;
      assert path[k + 1] == p;
    }
  }

  /** A one-cell line check is the single-step rule. */
  lemma IsBlockedByWallStep(t: Tiles, s: Pos, dx: int, dy: int)
    requires Valid(t) && Cheb(s, Target(s, dx, dy)) == 1 && StepOk(t, s, Target(s, dx, dy))
    ensures LineStartOk(t, s, dx, dy)
    ensures IsBlockedByWall(t, s, dx, dy) == MoveBlocked(t, s, Target(s, dx, dy))
  {
    LineUnit(s, Target(s, dx, dy));
    assert [s] + Line(s, Target(s, dx, dy)) == [s, Target(s, dx, dy)];
    PathBlockedStep(t, s, Target(s, dx, dy));
  }

  // ---------------------------------------------------------------------------
  // Neighbours

  /** The eight neighbour offsets, in the order the source tries them. */
  function NeighborOffsets(): seq<Pos>
  {
    [Pos(1, 0), Pos(1, 1), Pos(0, 1), Pos(-1, 1), Pos(-1, 0), Pos(-1, -1), Pos(0, -1), Pos(1, -1)]
  }

  /** Every offset's line check can start from `pos`. */
  predicate OffsetsOk(t: Tiles, pos: Pos, offs: seq<Pos>)
    requires |t| > 0
  {
    forall i :: 0 <= i < |offs| ==> LineStartOk(t, pos, offs[i].x, offs[i].y)
  }

  /** The line check from `pos` by offset `d` finds nothing in the way. */
  predicate OffsetClear(t: Tiles, pos: Pos, d: Pos)
    requires Valid(t) && LineStartOk(t, pos, d.x, d.y)
  {
    IsBlockedByWall(t, pos, d.x, d.y).None?
  }

  /** Whether the line check is clear, offset by offset. */
  function ClearFlags(t: Tiles, pos: Pos, offs: seq<Pos>): (r: seq<bool>)
    requires Valid(t) && OffsetsOk(t, pos, offs)
    ensures |r| == |offs| && forall i :: 0 <= i < |offs| ==> r[i] == OffsetClear(t, pos, offs[i])
  {
    seq(|offs|, i requires 0 <= i < |offs| => OffsetClear(t, pos, offs[i]))
  }

  /** The cells `pos + offs[i]`, in order, for which `ok[i]` holds. */
  function Select(pos: Pos, offs: seq<Pos>, ok: seq<bool>): seq<Pos>
    requires |ok| == |offs|
  {
    if offs == [] then []
    else
      var n := |offs| - 1;
      Select(pos, offs[..n], ok[..n]) + (if ok[n] then [AddPos(pos, offs[n])] else [])
  }

  /** Taking one more offset appends at most its cell. */
  lemma SelectSnoc(pos: Pos, offs: seq<Pos>, ok: seq<bool>, i: nat)
    requires |ok| == |offs| && i < |offs|
    ensures Select(pos, offs[..i + 1], ok[..i + 1]) ==
      Select(pos, offs[..i], ok[..i]) + (if ok[i] then [AddPos(pos, offs[i])] else [])
  {
    assert offs[..i + 1][..i] == offs[..i] && ok[..i + 1][..i] == ok[..i];
  }

  lemma {:induction false} SelectSpec(pos: Pos, offs: seq<Pos>, ok: seq<bool>, p: Pos)
    requires |ok| == |offs|
    ensures |Select(pos, offs, ok)| <= |offs|
    ensures p in Select(pos, offs, ok) <==> exists i :: 0 <= i < |offs| && ok[i] && p == AddPos(pos, offs[i])
    decreases |offs|
  {
    if offs != [] {
      var n := |offs| - 1;
      SelectSpec(pos, offs[..n], ok[..n], p);
      if p in Select(pos, offs[..n], ok[..n]) {
        var i :| 0 <= i < n && ok[..n][i] && p == AddPos(pos, offs[..n][i]);
        assert ok[i] && offs[i] == offs[..n][i];
      }
      if exists i :: 0 <= i < |offs| && ok[i] && p == AddPos(pos, offs[i]) {
        var i :| 0 <= i < |offs| && ok[i] && p == AddPos(pos, offs[i]);
        if i < n {
          assert ok[..n][i] && offs[..n][i] == offs[i];
        }
      }
    }
  }

  /** The cells `pos + d`, for the offsets `d` in order, whose line check is clear. */
  function ReachableVia(t: Tiles, pos: Pos, offs: seq<Pos>): seq<Pos>
    requires Valid(t) && OffsetsOk(t, pos, offs)
  {
    Select(pos, offs, ClearFlags(t, pos, offs))
  }

  /** `reachable_neighbors`: at most one cell per neighbour offset. */
  function ReachableNeighbors(t: Tiles, pos: Pos): (r: seq<Pos>)
    requires Valid(t) && OffsetsOk(t, pos, NeighborOffsets())
    ensures |r| <= 8
  {
    SelectSpec(pos, NeighborOffsets(), ClearFlags(t, pos, NeighborOffsets()), pos);
    ReachableVia(t, pos, NeighborOffsets())
  }

  /** `p` is `pos + offs[i]` for an offset whose line check is clear. */
  predicate ClearOffsetTo(t: Tiles, pos: Pos, offs: seq<Pos>, p: Pos)
    requires Valid(t) && OffsetsOk(t, pos, offs)
  {
    exists i :: 0 <= i < |offs| && p == AddPos(pos, offs[i]) && OffsetClear(t, pos, offs[i])
  }

  lemma ReachableViaSpec(t: Tiles, pos: Pos, offs: seq<Pos>, p: Pos)
    requires Valid(t) && OffsetsOk(t, pos, offs)
    ensures |ReachableVia(t, pos, offs)| <= |offs|
    ensures p in ReachableVia(t, pos, offs) <==> ClearOffsetTo(t, pos, offs, p)
  {
    var ok := ClearFlags(t, pos, offs);
    SelectSpec(pos, offs, ok, p);
    if ClearOffsetTo(t, pos, offs, p) {
      var i :| 0 <= i < |offs| && p == AddPos(pos, offs[i]) && OffsetClear(t, pos, offs[i]);
      assert ok[i];
    }
  }

  /** Every neighbour offset is a single king move. */
  lemma NeighborOffsetsUnit()
    ensures |NeighborOffsets()| == 8
    ensures forall i :: 0 <= i < 8 ==> Max(Abs(NeighborOffsets()[i].x), Abs(NeighborOffsets()[i].y)) == 1
  {
  }

  /** A clear single-step offset leads to an in-bounds, unblocked, adjacent cell. */
  lemma ClearUnitOffset(t: Tiles, pos: Pos, d: Pos)
    requires Valid(t) && LineStartOk(t, pos, d.x, d.y)
    requires Max(Abs(d.x), Abs(d.y)) == 1
    requires OffsetClear(t, pos, d)
    ensures InBounds(t, AddPos(pos, d)) && !At(t, AddPos(pos, d)).blocked
    ensures Cheb(pos, AddPos(pos, d)) == 1
  {
    var p := AddPos(pos, d);
    assert Target(pos, d.x, d.y) == p;
    LineUnit(pos, p);
    assert p in Line(pos, Target(pos, d.x, d.y));
  }

  /** `reachable_neighbors` returns at most eight cells: exactly the neighbours whose
      one-step move is not blocked, each inside the grid, not blocked and adjacent. */
  lemma ReachableNeighborsSpec(t: Tiles, pos: Pos, p: Pos)
    requires Valid(t) && OffsetsOk(t, pos, NeighborOffsets())
    ensures |ReachableNeighbors(t, pos)| <= 8
    ensures p in ReachableNeighbors(t, pos) <==> ClearOffsetTo(t, pos, NeighborOffsets(), p)
    ensures p in ReachableNeighbors(t, pos) ==> InBounds(t, p) && !At(t, p).blocked && Cheb(pos, p) == 1
  {
    var offs := NeighborOffsets();
    NeighborOffsetsUnit();
    ReachableViaSpec(t, pos, offs, p);
    if p in ReachableNeighbors(t, pos) {
      var i :| 0 <= i < |offs| && p == AddPos(pos, offs[i]) && OffsetClear(t, pos, offs[i]);
      ClearUnitOffset(t, pos, offs[i]);
    }
  }

  /** From a cell two or more steps off the grid every neighbour lies off the grid:
      each line check stops on its first step without reading a tile, and no
      neighbour comes back. */
  lemma ReachableNeighborsFarOff(t: Tiles, pos: Pos)
    requires Valid(t)
    requires pos.x < -1 || pos.x > Width(t) || pos.y < -1 || pos.y > Height(t)
    ensures OffsetsOk(t, pos, NeighborOffsets())
    ensures ReachableNeighbors(t, pos) == []
  {
    var offs := NeighborOffsets();
    NeighborOffsetsUnit();
    forall i | 0 <= i < |offs|
      ensures LineStartOk(t, pos, offs[i].x, offs[i].y)
    {
      var q := Target(pos, offs[i].x, offs[i].y);
      LineUnit(pos, q);
    }
    if ReachableNeighbors(t, pos) != [] {
      var p := ReachableNeighbors(t, pos)[0];
      ReachableNeighborsSpec(t, pos, p);
    }
  }

  /** `astar_neighbors`: at most eight neighbours, each one step away at cost 1. */
  function AstarNeighbors(t: Tiles, start: Pos, pos: Pos, maxDist: Option<int>): (r: seq<(Pos, int)>)
    requires Valid(t) && OffsetsOk(t, pos, NeighborOffsets())
    ensures |r| <= 8
    ensures forall i :: 0 <= i < |r| ==> r[i].1 == 1
  {
    if maxDist.Some? && Distance(start, pos) > maxDist.value then []
    else
      var near := ReachableNeighbors(t, pos);
      seq(|near|, i requires 0 <= i < |near| => (near[i], 1))
  }

  /** The unfolding of `astar_neighbors` onto `reachable_neighbors`: nothing beyond
      `max_dist`, otherwise the reachable neighbours in order, each paired with cost 1. */
  lemma AstarNeighborsSpec(t: Tiles, start: Pos, pos: Pos, maxDist: Option<int>)
    requires Valid(t) && OffsetsOk(t, pos, NeighborOffsets())
    ensures maxDist.Some? && Cheb(start, pos) > maxDist.value ==> AstarNeighbors(t, start, pos, maxDist) == []
    ensures !(maxDist.Some? && Cheb(start, pos) > maxDist.value) ==>
      |AstarNeighbors(t, start, pos, maxDist)| == |ReachableNeighbors(t, pos)| &&
      forall i :: 0 <= i < |ReachableNeighbors(t, pos)| ==>
        AstarNeighbors(t, start, pos, maxDist)[i] == (ReachableNeighbors(t, pos)[i], 1)
  {
  }

  /** The pairs `astar_neighbors` returns: none when `pos` is beyond `max_dist` from
      the start, and otherwise exactly the cells one unblocked step from `pos`, each
      at cost 1. */
  lemma AstarNeighborsMember(t: Tiles, start: Pos, pos: Pos, maxDist: Option<int>, q: (Pos, int))
    requires Valid(t) && OffsetsOk(t, pos, NeighborOffsets())
    ensures q in AstarNeighbors(t, start, pos, maxDist) <==>
      !(maxDist.Some? && Cheb(start, pos) > maxDist.value) && q.1 == 1 &&
      ClearOffsetTo(t, pos, NeighborOffsets(), q.0)
    ensures q in AstarNeighbors(t, start, pos, maxDist) ==>
      InBounds(t, q.0) && !At(t, q.0).blocked && Cheb(pos, q.0) == 1
  {
    AstarNeighborsSpec(t, start, pos, maxDist);
    ReachableNeighborsSpec(t, pos, q.0);
    var near := ReachableNeighbors(t, pos);
    if !(maxDist.Some? && Cheb(start, pos) > maxDist.value) && q.1 == 1 && q.0 in near {
      var i :| 0 <= i < |near| && near[i] == q.0;
      assert AstarNeighbors(t, start, pos, maxDist)[i] == q;
    }
  }

  /** An in-grid cell can check all eight of its neighbours. */
  lemma InBoundsOffsetsOk(t: Tiles, pos: Pos)
    requires Valid(t) && InBounds(t, pos)
    ensures OffsetsOk(t, pos, NeighborOffsets())
  {
    forall i | 0 <= i < 8
      ensures LineStartOk(t, pos, NeighborOffsets()[i].x, NeighborOffsets()[i].y)
    {
    }
  }
}

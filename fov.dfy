/** Line-of-sight field of view: `is_in_fov_lines`, the walk `fov_line` inside it,
    `needs_culling`, and the facing filter `is_in_fov_direction`
    (roguelike_core/src/map.rs). */
module Fov {
  import opened Types
  import opened Lines
  import opened Utils
  import opened Movement
  import opened MapTiles
  import opened Blocking

  /** What the walk below relies on about the answer `b` of the line check from the
      on-grid cell `cur` towards `end`. */
  predicate SightOk(t: Tiles, cur: Pos, end: Pos, b: Option<Blocked>)
    requires Valid(t)
  {
    (b.Some? ==> b.value.startPos != end && Cheb(b.value.startPos, end) <= Cheb(cur, end) &&
                 InBounds(t, b.value.startPos)) &&
    (b.None? && cur != end ==> InBounds(t, end)) &&
    (b.Some? && b.value.wallType != Empty ==>
       InBounds(t, b.value.endPos) && Cheb(b.value.endPos, end) < Cheb(cur, end) &&
       Cheb(cur, b.value.endPos) + Cheb(b.value.endPos, end) == Cheb(cur, end))
  }

  /** The line check `is_blocked_by_wall(cur, end - cur)`; off the grid the walk never asks. */
  function Sight(t: Tiles, cur: Pos, end: Pos): (r: Option<Blocked>)
    requires Valid(t)
    ensures InBounds(t, cur) ==> SightOk(t, cur, end, r)
    ensures InBounds(t, cur) ==> LineStartOk(t, cur, end.x - cur.x, end.y - cur.y)
    ensures InBounds(t, cur) ==> r == IsBlockedByWall(t, cur, end.x - cur.x, end.y - cur.y)
  {
    if !InBounds(t, cur) then None
    else
      LineCheckSightOk(t, cur, end);
      IsBlockedByWall(t, cur, end.x - cur.x, end.y - cur.y)
  }

  /** The line check from an on-grid cell answers as the walk relies on. */
  lemma LineCheckSightOk(t: Tiles, cur: Pos, end: Pos)
    requires Valid(t) && InBounds(t, cur)
    ensures LineStartOk(t, cur, end.x - cur.x, end.y - cur.y)
    ensures SightOk(t, cur, end, IsBlockedByWall(t, cur, end.x - cur.x, end.y - cur.y))
  {
    var r := IsBlockedByWall(t, cur, end.x - cur.x, end.y - cur.y);
    assert Target(cur, end.x - cur.x, end.y - cur.y) == end;
    if r.Some? {
      LineDistances(cur, end);
      assert r.value.startPos != cur ==> r.value.startPos in Line(cur, end);
    } else if cur != end {
      LineEndsAtTarget(cur, end);
      assert end == Line(cur, end)[|Line(cur, end)| - 1];
    }
  }

  /** The line checks towards `end`, one per starting cell. */
  function SightTo(t: Tiles, end: Pos): Pos -> Option<Blocked>
    requires Valid(t)
  {
    c => Sight(t, c, end)
  }

  /** `look` answers like a line check towards `end` from every on-grid cell. */
  ghost predicate Sound(t: Tiles, end: Pos, look: Pos -> Option<Blocked>)
    requires Valid(t)
  {
    forall c :: InBounds(t, c) ==> SightOk(t, c, end, look(c))
  }

  lemma SightToSound(t: Tiles, end: Pos)
    requires Valid(t)
    ensures Sound(t, end, SightTo(t, end))
    ensures forall c :: SightTo(t, end)(c) == Sight(t, c, end)
  {
  }

  /** The last cell within sight when looking from `cur` towards `end` with the line
      checks `look`, having already spent `used` of the budget `maxDist`. A clear line
      reaches `end` if the budget covers its length. A short wall (unless crouching)
      can be looked over: the walk resumes behind it at the cost of the distance plus
      one. Anything else stops the walk just before the blocked step. */
  function FovWalk(t: Tiles, look: Pos -> Option<Blocked>, cur: Pos, end: Pos, maxDist: int, used: int, crouching: bool): (r: Pos)
    requires Valid(t) && InBounds(t, cur) && Sound(t, end, look)
    ensures InBounds(t, r)
    ensures Cheb(r, end) <= Cheb(cur, end)
    decreases Cheb(cur, end)
  {
    if cur == end || used >= maxDist then cur
    else
      var b := look(cur);
      if b.None? then
        if used + Cheb(cur, end) <= maxDist then end else cur
      else if !crouching && b.value.wallType == ShortWall then
        var next := b.value.endPos;
        if used + Cheb(cur, next) + 1 <= maxDist then FovWalk(t, look, next, end, maxDist, used + Cheb(cur, next) + 1, crouching)
        else cur
      else b.value.startPos
  }

  /** `fov_line`: walks from `start`, jumping over short walls, while budget remains. */
  method FovLine(t: Tiles, look: Pos -> Option<Blocked>, start: Pos, end: Pos, maxDist: int, crouching: bool) returns (r: Pos)
    requires Valid(t) && InBounds(t, start) && Sound(t, end, look)
    ensures r == FovWalk(t, look, start, end, maxDist, 0, crouching)
  {
    var cur := start;
    var used := 0;
    while cur != end && used < maxDist
      invariant InBounds(t, cur)
      invariant FovWalk(t, look, cur, end, maxDist, used, crouching) == FovWalk(t, look, start, end, maxDist, 0, crouching)
      decreases Cheb(cur, end)
    {
      var blocked := look(cur);
      if blocked.Some? {
        if !crouching && blocked.value.wallType == ShortWall {
          var next := blocked.value.endPos;
          var cost := Distance(cur, next) + 1;
          if used + cost > maxDist {
            return cur;
          }
          used := used + cost;
          cur := next;
        } else {
          return blocked.value.startPos;
        }
      } else {
        if used + Distance(cur, end) <= maxDist {
          return end;
        }
        return cur;
      }
    }
    r := cur;
  }

  /** Whether any pair of the two sequences, zipped, differs. */
  predicate AnyPairDiffers(a: seq<Pos>, b: seq<Pos>)
  {
    exists i :: 0 <= i < |a| && i < |b| && a[i] != b[i]
  }

  /** `is_in_fov_lines`: `e` is seen from `s` within `radius`. */
  function IsInFovLines(t: Tiles, s: Pos, e: Pos, radius: int): (r: bool)
    requires Valid(t)
    ensures s == e ==> r
    ensures r && s != e ==> InBounds(t, s) && InBounds(t, e) && Distance(s, e) < radius
    decreases Cheb(s, e), 1
  {
    if s == e then true
    else if !InBounds(t, s) || !InBounds(t, e) then false
    else if Distance(s, e) >= radius then false
    else
      SightToSound(t, e);
      SightToSound(t, s);
      var fovEnd := FovWalk(t, SightTo(t, e), s, e, radius, 0, false);
      var visibleBack := FovWalk(t, SightTo(t, s), e, s, radius, 0, false) == s;
      var inFov := fovEnd == e || visibleBack || (Distance(fovEnd, e) == 1 && At(t, e).blockSight);
      ChebSymmetric(s, e);
      inFov && !(NeedsCulling(t, s, e, radius) || NeedsCulling(t, e, s, radius))
  }

  /** `needs_culling`: on a line of three or more cells, the cell before the target
      must itself be in view. The source zips the line to that cell with the last cell
      of the full line only. */
  function NeedsCulling(t: Tiles, s: Pos, e: Pos, radius: int): (r: bool)
    requires Valid(t)
    ensures r ==> |Line(s, e)| >= 3
    decreases Cheb(s, e), 0
  {
    var line := Line(s, e);
    var len := |line|;
    if len >= 3 then
      var nextToLast := line[len - 2];
      LineDistances(s, e);
      if AnyPairDiffers(Line(s, nextToLast), line[len - 1..]) then !IsInFovLines(t, s, nextToLast, radius)
      else false
    else false
  }

  /** The half-plane a viewer facing `dir` sees, for a target at offset `d`. */
  predicate FacingAllows(dir: Direction, d: Pos)
  {
    match dir
    case Up => Sign(d.y) < 1
    case Down => Sign(d.y) > -1
    case Left => Sign(d.x) < 1
    case Right => Sign(d.x) > -1
    case DownLeft => d.x - d.y < 0
    case DownRight => d.x + d.y >= 0
    case UpLeft => d.x + d.y <= 0
    case UpRight => d.x - d.y > 0
    case Center => false
  }

  /** `is_in_fov_direction`: `e` is in view and lies in the half-plane faced. */
  function IsInFovDirection(t: Tiles, s: Pos, e: Pos, radius: int, dir: Direction): (r: bool)
    requires Valid(t)
    ensures s == e ==> r
    ensures r ==> IsInFovLines(t, s, e, radius)
  {
    if s == e then true
    else IsInFovLines(t, s, e, radius) && FacingAllows(dir, SubPos(e, s))
  }

  // ---------------------------------------------------------------------------
  // Properties

  /** The walk only ever reaches its target within budget: every jump over a short
      wall costs its distance plus one, and the cells of a line add up to its length. */
  lemma {:induction false} FovWalkWithinBudget(t: Tiles, look: Pos -> Option<Blocked>, cur: Pos, end: Pos, maxDist: int, used: int, crouching: bool)
    requires Valid(t) && InBounds(t, cur) && Sound(t, end, look)
    ensures cur != end && FovWalk(t, look, cur, end, maxDist, used, crouching) == end ==>
      used + Cheb(cur, end) <= maxDist
    decreases Cheb(cur, end)
  {
    if cur != end && used < maxDist {
      var b := look(cur);
      if b.Some? && !crouching && b.value.wallType == ShortWall {
        var next := b.value.endPos;
        var cost := Cheb(cur, next) + 1;
        if used + cost <= maxDist && next != end {
          FovWalkWithinBudget(t, look, next, end, maxDist, used + cost, crouching);
        }
      }
    }
  }

  /** A crouching viewer sees no further than the first obstacle: reaching the target
      means the line check from the start is clear. */
  lemma FovWalkCrouching(t: Tiles, look: Pos -> Option<Blocked>, cur: Pos, end: Pos, maxDist: int, used: int)
    requires Valid(t) && InBounds(t, cur) && Sound(t, end, look) && cur != end
    ensures FovWalk(t, look, cur, end, maxDist, used, true) == end ==> look(cur).None?
  {
  }

  lemma InFovSelf(t: Tiles, p: Pos, radius: int)
    requires Valid(t)
    ensures IsInFovLines(t, p, p, radius)
    ensures IsInFovDirection(t, p, p, radius, Center)
  {
  }

  /** Distinct cells are only in view when both are on the grid and closer than the radius. */
  lemma InFovNeedsBoundsAndRadius(t: Tiles, s: Pos, e: Pos, radius: int)
    requires Valid(t) && s != e
    ensures IsInFovLines(t, s, e, radius) ==> InBounds(t, s) && InBounds(t, e) && Distance(s, e) < radius
    ensures !InBounds(t, s) || !InBounds(t, e) || Distance(s, e) >= radius ==> !IsInFovLines(t, s, e, radius)
  {
  }

  /** The zip in `needs_culling` compares the first cell of the shorter line with the
      target, which is three or more cells away, so the check always runs. */
  lemma CullingAlwaysChecks(t: Tiles, s: Pos, e: Pos, radius: int)
    requires Valid(t) && |Line(s, e)| >= 3
    ensures
      var line := Line(s, e);
      NeedsCulling(t, s, e, radius) == !IsInFovLines(t, s, line[|line| - 2], radius)
  {
    FirstPairDiffers(s, e);
  }

  /** The first cell of the line to the next-to-last cell is one step from `s`, while
      the last cell of a line of three or more cells is three or more steps away, so
      the zip's only pair differs. */
  lemma FirstPairDiffers(s: Pos, e: Pos)
    requires |Line(s, e)| >= 3
    ensures var line := Line(s, e);
      AnyPairDiffers(Line(s, line[|line| - 2]), line[|line| - 1..])
  {
    var line := Line(s, e);
    var len := |line|;
    var nextToLast := line[len - 2];
    LineDistances(s, e);
    assert Cheb(s, nextToLast) == len - 1 && Cheb(s, line[len - 1]) == len;
    LineEndsAtTarget(s, nextToLast);
    LineDistances(s, nextToLast);
    assert Line(s, nextToLast)[0] != line[len - 1..][0];
  }

  /** No cell three or more steps away is in view unless the cell before it on the line
      from either end is in view too. */
  lemma InFovHasVisiblePredecessors(t: Tiles, s: Pos, e: Pos, radius: int)
    requires Valid(t) && IsInFovLines(t, s, e, radius) && Cheb(s, e) >= 3
    ensures IsInFovLines(t, s, Line(s, e)[|Line(s, e)| - 2], radius)
    ensures IsInFovLines(t, e, Line(e, s)[|Line(e, s)| - 2], radius)
  {
    ChebSymmetric(s, e);
    CullingAlwaysChecks(t, s, e, radius);
    CullingAlwaysChecks(t, e, s, radius);
  }

  /** Conversely, a distinct cell on the grid within the radius is in view when the walk
      towards it arrives and, on lines of three or more cells, the cell before it on the
      line from either end is in view. */
  lemma InFovFromWalkAndPredecessors(t: Tiles, s: Pos, e: Pos, radius: int)
    requires Valid(t) && s != e && InBounds(t, s) && InBounds(t, e) && Distance(s, e) < radius
    requires Sound(t, e, SightTo(t, e)) && FovWalk(t, SightTo(t, e), s, e, radius, 0, false) == e
    requires |Line(s, e)| >= 3 ==> IsInFovLines(t, s, Line(s, e)[|Line(s, e)| - 2], radius)
    requires |Line(e, s)| >= 3 ==> IsInFovLines(t, e, Line(e, s)[|Line(e, s)| - 2], radius)
    ensures IsInFovLines(t, s, e, radius)
  {
    if |Line(s, e)| >= 3 {
      CullingAlwaysChecks(t, s, e, radius);
    }
    if |Line(e, s)| >= 3 {
      CullingAlwaysChecks(t, e, s, radius);
    }
  }

  /** A neighbouring cell is in view when the single step to it is open and the radius exceeds one. */
  lemma OpenNeighborInFov(t: Tiles, s: Pos, e: Pos, radius: int)
    requires Valid(t) && InBounds(t, s) && InBounds(t, e) && Cheb(s, e) == 1 && radius > 1
    requires MoveBlocked(t, s, e).None?
    ensures IsInFovLines(t, s, e, radius)
  {
    NeighborWalkArrives(t, s, e, radius);
  }

  lemma NeighborSightClear(t: Tiles, s: Pos, e: Pos)
    requires Valid(t) && InBounds(t, s) && Cheb(s, e) == 1 && MoveBlocked(t, s, e).None?
    ensures SightTo(t, e)(s).None?
  {
    IsBlockedByWallStep(t, s, e.x - s.x, e.y - s.y);
    assert Target(s, e.x - s.x, e.y - s.y) == e;
    SightToSound(t, e);
  }

  lemma NeighborWalkArrives(t: Tiles, s: Pos, e: Pos, radius: int)
    requires Valid(t) && InBounds(t, s) && Cheb(s, e) == 1 && radius > 1 && MoveBlocked(t, s, e).None?
    ensures Sound(t, e, SightTo(t, e)) && FovWalk(t, SightTo(t, e), s, e, radius, 0, false) == e
  {
    NeighborSightClear(t, s, e);
    SightToSound(t, e);
  }

  /** The facing filter only narrows: a distinct cell seen while facing `dir` is in view. */
  lemma InFovDirectionNarrows(t: Tiles, s: Pos, e: Pos, radius: int, dir: Direction)
    requires Valid(t) && s != e
    ensures IsInFovDirection(t, s, e, radius, dir) ==> IsInFovLines(t, s, e, radius)
    ensures !IsInFovDirection(t, s, e, radius, Center)
  {
    assert !FacingAllows(Center, SubPos(e, s));
  }

  /** The direction facing the other way. */
  function Opposite(dir: Direction): Direction
  {
    match dir
    case Up => Direction.Down
    case Down => Direction.Up
    case Left => Direction.Right
    case Right => Direction.Left
    case DownLeft => UpRight
    case UpRight => DownLeft
    case DownRight => UpLeft
    case UpLeft => DownRight
    case Center => Center
  }

  /** Facing up, down, left, right, down-right or up-left, a viewer and one facing the
      other way together see every offset: their half-planes share the boundary line. */
  lemma FacingPairsCover(dir: Direction, d: Pos)
    requires dir != Center && dir != DownLeft && dir != UpRight
    ensures FacingAllows(dir, d) || FacingAllows(Opposite(dir), d)
  {
  }

  /** Facing down-left or up-right, the boundary line `d.x == d.y` is seen from neither side. */
  lemma FacingDiagonalGap()
    ensures !FacingAllows(DownLeft, Pos(1, 1)) && !FacingAllows(UpRight, Pos(1, 1))
    ensures !FacingAllows(DownLeft, Pos(-1, -1)) && !FacingAllows(UpRight, Pos(-1, -1))
  {
  }

  /** The facing filter with the down-left and up-right half-planes closed like the others. */
  predicate FacingAllowsClosed(dir: Direction, d: Pos)
  {
    match dir
    case DownLeft => d.x - d.y <= 0
    case UpRight => d.x - d.y >= 0
    case _ => FacingAllows(dir, d)
  }

  /** `is_in_fov_direction` with the closed facing filter. */
  function IsInFovDirectionClosed(t: Tiles, s: Pos, e: Pos, radius: int, dir: Direction): (r: bool)
    requires Valid(t)
    ensures IsInFovDirection(t, s, e, radius, dir) ==> r
    ensures r != IsInFovDirection(t, s, e, radius, dir) ==>
      (dir == DownLeft || dir == UpRight) && e.x - s.x == e.y - s.y
  {
    if s == e then true
    else IsInFovLines(t, s, e, radius) && FacingAllowsClosed(dir, SubPos(e, s))
  }

  /** With the closed filter every facing direction and its opposite together see every
      offset, and the filter differs from the source's only on the diagonal gap. */
  lemma FacingClosedPairsCover(dir: Direction, d: Pos)
    requires dir != Center
    ensures FacingAllowsClosed(dir, d) || FacingAllowsClosed(Opposite(dir), d)
    ensures FacingAllowsClosed(dir, d) != FacingAllows(dir, d) ==> (dir == DownLeft || dir == UpRight) && d.x == d.y
  {
  }

  /** So every cell in view is seen facing some direction or the opposite one. */
  lemma FacingClosedCovers(t: Tiles, s: Pos, e: Pos, radius: int, dir: Direction)
    requires Valid(t) && dir != Center
    ensures IsInFovLines(t, s, e, radius) ==>
      IsInFovDirectionClosed(t, s, e, radius, dir) || IsInFovDirectionClosed(t, s, e, radius, Opposite(dir))
  {
    FacingClosedPairsCover(dir, SubPos(e, s));
  }
}

/** Movement modes, directions, reaches and momentum (roguelike_core/src/movement.rs),
    together with `reach_by_mode` from roguelike_core/src/utils.rs. */
module Movement {
  import opened Types
  import opened Lines
  import opened Utils

  // ---------------------------------------------------------------------------
  // MoveMode

  datatype MoveMode = Sneak | Walk | Run

  /** Position of a mode on the scale Sneak < Walk < Run. */
  function Rank(m: MoveMode): nat
  {
    match m
    case Sneak => 0
    case Walk => 1
    case Run => 2
  }

  /** One mode faster, saturating at Run. */
  function Increase(m: MoveMode): (r: MoveMode)
    ensures Rank(r) == if Rank(m) == 2 then 2 else Rank(m) + 1
  {
    match m
    case Sneak => Walk
    case Walk => Run
    case Run => Run
  }

  /** One mode slower, saturating at Sneak. */
  function Decrease(m: MoveMode): (r: MoveMode)
    ensures Rank(r) == if Rank(m) == 0 then 0 else Rank(m) - 1
  {
    match m
    case Sneak => Sneak
    case Walk => Sneak
    case Run => Walk
  }

  lemma RankInjective(a: MoveMode, b: MoveMode)
    ensures Rank(a) == Rank(b) ==> a == b
  {
  }

  /** Increase and decrease saturate at the ends and undo each other in between. */
  lemma ModeSaturation(m: MoveMode)
    ensures Increase(Run) == Run && Decrease(Sneak) == Sneak
    ensures m != Sneak ==> Increase(Decrease(m)) == m
    ensures m != Run ==> Decrease(Increase(m)) == m
    ensures Increase(Decrease(Walk)) == Walk
  {
    RankInjective(Increase(Decrease(m)), m);
    RankInjective(Decrease(Increase(m)), m);
  }

  // ---------------------------------------------------------------------------
  // Cardinal

  datatype Cardinal = Up | Down | Left | Right

  /** The cardinal facing of a move; diagonals keep a horizontal facing only when
      there was a previous facing. */
  function CardinalFromDxy(last: Option<Cardinal>, dx: int, dy: int): Option<Cardinal>
  {
    if dx == 0 && dy == 0 then None
    else if dx == 0 && dy < 0 then Some(Cardinal.Up)
    else if dx == 0 && dy > 0 then Some(Cardinal.Down)
    else if dx > 0 && dy == 0 then Some(Cardinal.Right)
    else if dx < 0 && dy == 0 then Some(Cardinal.Left)
    else if last.Some? then
      if dx > 0 && dy > 0 then Some(Cardinal.Right)
      else if dx > 0 && dy < 0 then Some(Cardinal.Right)
      else if dx < 0 && dy > 0 then Some(Cardinal.Left)
      else if dx < 0 && dy < 0 then Some(Cardinal.Left)
      else None
    else None
  }

  lemma CardinalFromDxyCases(last: Option<Cardinal>, dx: int, dy: int)
    ensures CardinalFromDxy(last, dx, dy).None? <==>
      ((dx == 0 && dy == 0) || (dx != 0 && dy != 0 && last.None?))
    ensures dx == 0 && dy != 0 ==> CardinalFromDxy(last, dx, dy) == Some(if dy < 0 then Cardinal.Up else Cardinal.Down)
    ensures dy == 0 && dx != 0 ==> CardinalFromDxy(last, dx, dy) == Some(if dx > 0 then Cardinal.Right else Cardinal.Left)
    ensures dx != 0 && dy != 0 && last.Some? ==>
      CardinalFromDxy(last, dx, dy) == Some(if dx > 0 then Cardinal.Right else Cardinal.Left)
  {
  }

  // ---------------------------------------------------------------------------
  // Direction

  datatype Direction = Left | Right | Up | Down | DownLeft | DownRight | UpLeft | UpRight | Center

  /** The direction of a delta. Note that a positive `dx` on its own gives `Direction.Left`
      and a negative one `Direction.Right`. */
  function DirectionFromDxy(dx: int, dy: int): Direction
  {
    if dx == 0 && dy == 0 then Center
    else if dx == 0 && dy < 0 then Direction.Up
    else if dx == 0 && dy > 0 then Direction.Down
    else if dx > 0 && dy == 0 then Direction.Left
    else if dx < 0 && dy == 0 then Direction.Right
    else if dx > 0 && dy > 0 then DownRight
    else if dx > 0 && dy < 0 then UpRight
    else if dx < 0 && dy > 0 then DownLeft
    else UpLeft
  }

  /** The unit step of a direction. */
  function IntoMove(d: Direction): (r: (int, int))
    ensures -1 <= r.0 <= 1 && -1 <= r.1 <= 1
    ensures r == (0, 0) <==> d == Center
  {
    match d
    case Left => (-1, 0)
    case Right => (1, 0)
    case Up => (0, -1)
    case Down => (0, 1)
    case DownLeft => (-1, 1)
    case DownRight => (1, 1)
    case UpLeft => (-1, -1)
    case UpRight => (1, -1)
    case Center => (0, 0)
  }

  /** Every direction a mover may choose, in the order the game offers them. */
  function MoveActions(): seq<Direction>
  {
    [Direction.Left, Direction.Right, Direction.Up, Direction.Down,
     DownLeft, DownRight, UpLeft, UpRight, Center]
  }

  /** The move actions list each of the nine directions exactly once. */
  lemma MoveActionsComplete(d: Direction)
    ensures d in MoveActions() && |MoveActions()| == 9
    ensures forall i, j :: 0 <= i < j < |MoveActions()| ==> MoveActions()[i] != MoveActions()[j]
  {
    match d
    case Left => assert MoveActions()[0] == d;
    case Right => assert MoveActions()[1] == d;
    case Up => assert MoveActions()[2] == d;
    case Down => assert MoveActions()[3] == d;
    case DownLeft => assert MoveActions()[4] == d;
    case DownRight => assert MoveActions()[5] == d;
    case UpLeft => assert MoveActions()[6] == d;
    case UpRight => assert MoveActions()[7] == d;
    case Center => assert MoveActions()[8] == d;
  }

  /** `from_dxy` looks only at the signs of the delta and gives `Center` only for (0, 0). */
  lemma DirectionFromDxySigns(dx: int, dy: int)
    ensures DirectionFromDxy(dx, dy) == DirectionFromDxy(Sign(dx), Sign(dy))
    ensures DirectionFromDxy(dx, dy) == Center <==> dx == 0 && dy == 0
  {
  }

  /** Reading a direction's own step back gives the direction, except that the
      horizontal ones come back swapped. */
  lemma DirectionRoundTrip(d: Direction)
    ensures d != Direction.Left && d != Direction.Right ==>
      DirectionFromDxy(IntoMove(d).0, IntoMove(d).1) == d
    ensures DirectionFromDxy(IntoMove(Direction.Left).0, IntoMove(Direction.Left).1) == Direction.Right
    ensures DirectionFromDxy(IntoMove(Direction.Right).0, IntoMove(Direction.Right).1) == Direction.Left
  {
  }

  // ---------------------------------------------------------------------------
  // Reach

  datatype Reach = Single(dist: nat) | Diag(dist: nat) | Horiz(dist: nat)

  predicate IsDiagonal(d: Direction)
  {
    d == DownLeft || d == DownRight || d == UpLeft || d == UpRight
  }

  predicate IsAxis(d: Direction)
  {
    d == Direction.Left || d == Direction.Right || d == Direction.Up || d == Direction.Down
  }

  /** The offset a move in direction `d` covers under `reach`, or None when the
      reach does not allow that direction. */
  function MoveWithReach(reach: Reach, d: Direction): Option<Pos>
  {
    var n: int := reach.dist;
    match reach
    case Single(_) =>
      (match d
       case Left => Some(Pos(-n, 0))
       case Right => Some(Pos(n, 0))
       case Up => Some(Pos(0, -n))
       case Down => Some(Pos(0, n))
       case DownLeft => Some(Pos(-n, n))
       case DownRight => Some(Pos(n, n))
       case UpLeft => Some(Pos(-n, -n))
       case UpRight => Some(Pos(n, -n))
       case Center => Some(Pos(0, 0)))
    case Diag(_) =>
      (match d
       case DownLeft => Some(Pos(-n, n))
       case DownRight => Some(Pos(n, n))
       case UpLeft => Some(Pos(-n, -n))
       case UpRight => Some(Pos(n, -n))
       case Center => Some(Pos(0, 0))
       case _ => None)
    case Horiz(_) =>
      (match d
       case Left => Some(Pos(-n, 0))
       case Right => Some(Pos(n, 0))
       case Up => Some(Pos(0, -n))
       case Down => Some(Pos(0, n))
       case _ => None)
  }

  /** Which directions each reach allows, and that an allowed move is the
      direction's unit step scaled by the reach's distance. */
  lemma MoveWithReachSpec(reach: Reach, d: Direction)
    ensures reach.Single? ==> MoveWithReach(reach, d).Some?
    ensures reach.Diag? ==> (MoveWithReach(reach, d).None? <==> IsAxis(d))
    ensures reach.Horiz? ==> (MoveWithReach(reach, d).None? <==> (IsDiagonal(d) || d == Center))
    ensures MoveWithReach(reach, d).Some? ==>
      MoveWithReach(reach, d).value ==
        Pos(reach.dist * IntoMove(d).0, reach.dist * IntoMove(d).1)
  {
  }

  /** A reach's move ends `dist` king moves away (or stays put for Center). */
  lemma MoveWithReachDistance(reach: Reach, d: Direction)
    requires MoveWithReach(reach, d).Some?
    ensures Cheb(Pos(0, 0), MoveWithReach(reach, d).value) == if d == Center then 0 else reach.dist
  {
  }

  /** Movement reach for a movement mode: running covers two cells. */
  function ReachByMode(m: MoveMode): (r: Reach)
    ensures r.Single? && 1 <= r.dist <= 2
    ensures r.dist == 2 <==> m == Run
  {
    match m
    case Sneak => Single(1)
    case Walk => Single(1)
    case Run => Single(2)
  }

  /** The four end points at distance `k` along the axes. */
  function AxisQuad(k: int): seq<Pos>
  {
    [Pos(k, 0), Pos(0, k), Pos(-k, 0), Pos(0, -k)]
  }

  /** The four end points at distance `k` along the diagonals. */
  function DiagQuad(k: int): seq<Pos>
  {
    [Pos(k, k), Pos(-k, k), Pos(k, -k), Pos(-k, -k)]
  }

  /** End points for k = 1 .. n-1 (the upper bound is exclusive). */
  function QuadsBelow(n: int, diagonal: bool): seq<Pos>
    decreases n
  {
    if n <= 1 then []
    else QuadsBelow(n - 1, diagonal) + (if diagonal then DiagQuad(n - 1) else AxisQuad(n - 1))
  }

  /** The end points a reach's offsets are drawn to. */
  function EndPoints(reach: Reach): seq<Pos>
  {
    var n: int := reach.dist;
    match reach
    case Single(_) =>
      [Pos(0, n), Pos(-n, n), Pos(-n, 0), Pos(-n, -n), Pos(0, -n), Pos(n, -n), Pos(n, 0), Pos(n, n)]
    case Horiz(_) => QuadsBelow(n, false)
    case Diag(_) => QuadsBelow(n, true)
  }

  /** The cells of the lines from the origin to each end point, in order. */
  function LinesTo(ends: seq<Pos>): seq<Pos>
  {
    if ends == [] then []
    else LinesTo(ends[..|ends| - 1]) + Line(Pos(0, 0), ends[|ends| - 1])
  }

  /** The end points at distances 1 .. n-1 (the loop's upper bound is exclusive). */
  method Quads(n: int, diagonal: bool) returns (ends: seq<Pos>)
    ensures ends == QuadsBelow(n, diagonal)
  {
    ends := [];
    var k := 1;
    while k < n
      invariant 1 <= k <= (if n >= 1 then n else 1)
      invariant ends == QuadsBelow(k, diagonal)
    {
      if diagonal {
        ends := ends + [Pos(k, k), Pos(-k, k), Pos(k, -k), Pos(-k, -k)];
      } else {
        ends := ends + [Pos(k, 0), Pos(0, k), Pos(-k, 0), Pos(0, -k)];
      }
      k := k + 1;
    }
  }

  /** The cells of the lines from the origin to each end point, pushed one by one. */
  method LinesFromOrigin(ends: seq<Pos>) returns (offsets: seq<Pos>)
    ensures offsets == LinesTo(ends)
  {
    offsets := [];
    var i := 0;
    while i < |ends|
      invariant 0 <= i <= |ends|
      invariant offsets == LinesTo(ends[..i])
    {
      var line := Line(Pos(0, 0), ends[i]);
      var j := 0;
      while j < |line|
        invariant 0 <= j <= |line|
        invariant offsets == LinesTo(ends[..i]) + line[..j]
      {
        offsets := offsets + [line[j]];
        j := j + 1;
      }
      assert ends[..i + 1][..i] == ends[..i];
      assert line[..j] == line;
      i := i + 1;
    }
    assert ends[..i] == ends;
  }

  /** Every offset a reach covers, line by line. */
  method Offsets(reach: Reach) returns (offsets: seq<Pos>)
    ensures offsets == LinesTo(EndPoints(reach))
  {
    var ends: seq<Pos>;
    var n: int := reach.dist;
    match reach {
      case Single(_) =>
        ends := [Pos(0, n), Pos(-n, n), Pos(-n, 0), Pos(-n, -n), Pos(0, -n), Pos(n, -n), Pos(n, 0), Pos(n, n)];
      case Horiz(_) =>
        ends := Quads(n, false);
      case Diag(_) =>
        ends := Quads(n, true);
    }
    offsets := LinesFromOrigin(ends);
  }

  /** Every end point lies within `bound` king moves of the origin. */
  ghost predicate EndsWithin(ends: seq<Pos>, bound: int)
  {
    forall i :: 0 <= i < |ends| ==> Cheb(Pos(0, 0), ends[i]) <= bound
  }

  lemma {:induction false} QuadsBelowWithin(n: int, diagonal: bool)
    ensures EndsWithin(QuadsBelow(n, diagonal), n - 1)
    decreases n
  {
    if n > 1 {
      QuadsBelowWithin(n - 1, diagonal);
    }
  }

  lemma {:induction false} LinesToWithin(ends: seq<Pos>, bound: int)
    requires EndsWithin(ends, bound)
    ensures forall p :: p in LinesTo(ends) ==> 1 <= Cheb(Pos(0, 0), p) <= bound
    decreases |ends|
  {
    if ends != [] {
      var last := ends[|ends| - 1];
      LinesToWithin(ends[..|ends| - 1], bound);
      LineDistances(Pos(0, 0), last);
    }
  }

  /** A reach's offsets never include the origin and never exceed its distance;
      Horiz and Diag stop one short of it. */
  lemma OffsetsWithinReach(reach: Reach)
    ensures forall p :: p in LinesTo(EndPoints(reach)) ==>
      1 <= Cheb(Pos(0, 0), p) <= (if reach.Single? then reach.dist else reach.dist - 1)
  {
    if reach.Single? {
      LinesToWithin(EndPoints(reach), reach.dist);
    } else {
      QuadsBelowWithin(reach.dist, reach.Diag?);
      LinesToWithin(EndPoints(reach), reach.dist - 1);
    }
  }

  // ---------------------------------------------------------------------------
  // Momentum

  /** New value of one momentum component after a step of `d` on that axis:
      a step that does not keep the sign of a non-zero momentum drops it to 0,
      otherwise the momentum grows by the step's sign, clamped to [-max, max]. */
  function MomentumStep(m: int, d: int, max: int): int
  {
    if m != 0 && Sign(d) != Sign(m) then 0 else Clamp(m + Sign(d), -max, max)
  }

  lemma MomentumStepBounded(m: int, d: int, max: int)
    requires 0 <= max
    ensures -max <= MomentumStep(m, d, max) <= max
  {
  }

  /** Changing direction, or stopping, loses all momentum on that axis; keeping the
      direction gains one unit up to the maximum. */
  lemma MomentumStepCases(m: int, d: int, max: int)
    requires 0 <= max
    ensures m != 0 && Sign(d) != Sign(m) ==> MomentumStep(m, d, max) == 0
    ensures (m == 0 || Sign(d) == Sign(m)) && -max <= m + Sign(d) <= max ==>
      MomentumStep(m, d, max) == m + Sign(d)
    ensures MomentumStep(m, d, max) == 0 || Sign(MomentumStep(m, d, max)) == Sign(d) ||
      (d == 0 && m == 0)
  {
  }

  class Momentum {
    var mx: int
    var my: int
    var max: nat

    ghost predicate Valid()
      reads this
    {
      Abs(mx) <= max && Abs(my) <= max
    }

    /** No momentum, with the given ceiling. */
    constructor (maximum: nat)
      ensures Valid() && mx == 0 && my == 0 && max == maximum
    {
      mx, my, max := 0, 0, maximum;
    }

    /** The larger of the two component sizes. */
    function Magnitude(): (r: nat)
      reads this
      ensures r >= Abs(mx) && r >= Abs(my) && (r == Abs(mx) || r == Abs(my))
    {
      if Abs(mx) > Abs(my) then Abs(mx) else Abs(my)
    }

    function Running(): (r: bool)
      reads this
      ensures r <==> (mx != 0 || my != 0)
    {
      Magnitude() != 0
    }

    /** `maxMomentum` is the game-wide ceiling constant. */
    function AtMaximum(maxMomentum: int): (r: bool)
      reads this
      ensures r <==> Max(Abs(mx), Abs(my)) == maxMomentum
    {
      Magnitude() == maxMomentum
    }

    function Diagonal(): (r: bool)
      reads this
    {
      Abs(mx) != 0 && Abs(my) != 0
    }

    function Along(dx: int, dy: int): (r: bool)
      reads this
    {
      mx * dx + my * dy > 0
    }

    /** Whatever the momentum was, one step brings both components back into range. */
    method Moved(dx: int, dy: int)
      modifies this
      ensures Valid() && max == old(max)
      ensures mx == MomentumStep(old(mx), dx, max)
      ensures my == MomentumStep(old(my), dy, max)
    {
      if mx != 0 && Sign(dx) != Sign(mx) {
        mx := 0;
      } else {
        mx := Clamp(mx + Sign(dx), -(max as int), max);
      }
      if my != 0 && Sign(dy) != Sign(my) {
        my := 0;
      } else {
        my := Clamp(my + Sign(dy), -(max as int), max);
      }
    }

    method SetMomentum(newMx: int, newMy: int)
      modifies this
      ensures mx == newMx && my == newMy && max == old(max)
    {
      mx := newMx;
      my := newMy;
    }

    method Clear()
      modifies this
      ensures mx == 0 && my == 0 && max == old(max)
      ensures !Running()
    {
      mx := 0;
      my := 0;
    }
  }

  /** Momentum is never along both a step and its reverse; a diagonal momentum is
      along a step that matches both of its signs. */
  lemma AlongOpposite(m: Momentum, dx: int, dy: int)
    ensures m.Along(dx, dy) ==> !m.Along(-dx, -dy)
    ensures m.mx != 0 && m.my != 0 ==> m.Along(Sign(m.mx), Sign(m.my))
    ensures m.Diagonal() <==> (m.mx != 0 && m.my != 0)
  {
    assert m.mx * -dx + m.my * -dy == -(m.mx * dx + m.my * dy);
    assert m.mx * Sign(m.mx) == Abs(m.mx);
    assert m.my * Sign(m.my) == Abs(m.my);
  }
}

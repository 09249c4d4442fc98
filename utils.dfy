/** Position arithmetic and small helpers of the core (roguelike_core/src/utils.rs). */
module Utils {
  import opened Types
  import opened Lines

  /** Number of cells on the line from `a` to `b`: the king-move distance. */
  function Distance(a: Pos, b: Pos): (r: nat)
    ensures r == Max(Abs(b.x - a.x), Abs(b.y - a.y))
  {
    |Line(a, b)|
  }

  /** `signedness`: the sign of `v` as -1, 0 or 1 is `Lines.Sign`. */
  lemma SignCharacterised(v: int)
    ensures -1 <= Sign(v) <= 1
    ensures (Sign(v) == 0 <==> v == 0) && (Sign(v) > 0 <==> v > 0) && (Sign(v) < 0 <==> v < 0)
    ensures Sign(v) * v == Abs(v)
  {
  }

  function AddPos(a: Pos, b: Pos): Pos { Pos(a.x + b.x, a.y + b.y) }

  function SubPos(a: Pos, b: Pos): Pos { Pos(a.x - b.x, a.y - b.y) }

  function MoveBy(start: Pos, diff: Pos): Pos { Pos(start.x + diff.x, start.y + diff.y) }

  function MoveX(p: Pos, offset: int): Pos { Pos(p.x + offset, p.y) }

  function MoveY(p: Pos, offset: int): Pos { Pos(p.x, p.y + offset) }

  /** `start` moved one cell towards `end` along each axis on which they differ. */
  function InDirectionOf(start: Pos, end: Pos): Pos
  {
    var d := SubPos(end, start);
    AddPos(start, Pos(Sign(d.x), Sign(d.y)))
  }

  /** A delta along exactly one axis. */
  predicate IsOrdinal(delta: Pos)
  {
    (delta.x == 0 && delta.y != 0) || (delta.y == 0 && delta.x != 0)
  }

  function Clamp(v: int, lo: int, hi: int): (r: int)
    ensures lo <= v <= hi ==> r == v
    ensures lo <= hi ==> lo <= r <= hi
    ensures r == v || r == lo || r == hi
  {
    if v < lo then lo else if v > hi then hi else v
  }

  /** One cell past `p + delta`, continuing in the direction of `delta`. */
  function NextPos(p: Pos, delta: Pos): (r: Pos)
    ensures r == AddPos(AddPos(p, delta), Pos(Sign(delta.x), Sign(delta.y)))
  {
    var next := AddPos(p, delta);
    var next := if delta.x != 0 then Pos(next.x + Sign(delta.x), next.y) else next;
    if delta.y != 0 then Pos(next.x, next.y + Sign(delta.y)) else next
  }

  function Dxy(start: Pos, end: Pos): (int, int)
  {
    (end.x - start.x, end.y - start.y)
  }

  /** The cell next to `end` on the line from `start`, or `start` itself when
      it already touches `end`. */
  function NextTo(start: Pos, end: Pos): Pos
  {
    if Distance(start, end) <= 1 then start
    else Line(start, end)[|Line(start, end)| - 2]
  }

  /** Walks the line from `start`, remembering the last cell that is not `end`. */
  method MoveNextTo(start: Pos, end: Pos) returns (r: Pos)
    ensures r == NextTo(start, end)
  {
    if Distance(start, end) <= 1 {
      return start;
    }
    var line := Line(start, end);
    var n := |line|;
    LineDistances(start, end);
    var secondToLast := line[0];
    var i := 1;
    while i < n
      invariant 1 <= i <= n
      invariant secondToLast == line[if i < n then i - 1 else n - 2]
    {
      var p := line[i];
      if p != end {
        secondToLast := p;
      }
      i := i + 1;
    }
    r := secondToLast;
  }

  // ---------------------------------------------------------------------------
  // Properties

  lemma AddSubInverse(a: Pos, b: Pos)
    ensures SubPos(AddPos(a, b), b) == a
    ensures AddPos(SubPos(a, b), b) == a
    ensures MoveBy(a, b) == AddPos(a, b)
  {
  }

  lemma MoveAxes(p: Pos, k: int)
    ensures MoveX(p, k).y == p.y && MoveX(p, k).x == p.x + k
    ensures MoveY(p, k).x == p.x && MoveY(p, k).y == p.y + k
    ensures MoveX(p, k) == AddPos(p, Pos(k, 0)) && MoveY(p, k) == AddPos(p, Pos(0, k))
  {
  }

  /** `in_direction_of` takes one king move that brings `start` one cell closer to `end`. */
  lemma InDirectionOfApproaches(start: Pos, end: Pos)
    ensures Cheb(start, InDirectionOf(start, end)) == (if start == end then 0 else 1)
    ensures start != end ==> Cheb(InDirectionOf(start, end), end) == Cheb(start, end) - 1
  {
  }

  lemma InDirectionOfDiagonalExamples()
    ensures InDirectionOf(Pos(1, 1), Pos(0, 0)) == Pos(0, 0)
    ensures InDirectionOf(Pos(1, 1), Pos(10, 10)) == Pos(2, 2)
    ensures InDirectionOf(Pos(1, 1), Pos(-10, -10)) == Pos(0, 0)
  {
  }

  lemma InDirectionOfAxisExamples()
    ensures InDirectionOf(Pos(1, 1), Pos(10, 1)) == Pos(2, 1)
    ensures InDirectionOf(Pos(1, 1), Pos(1, 10)) == Pos(1, 2)
    ensures InDirectionOf(Pos(1, 1), Pos(1, -10)) == Pos(1, 0)
    ensures InDirectionOf(Pos(1, 1), Pos(-10, 1)) == Pos(0, 1)
  {
  }

  lemma IsOrdinalExactlyOneAxis(delta: Pos)
    ensures IsOrdinal(delta) <==> ((delta.x != 0) != (delta.y != 0))
  {
  }

  /** `next_pos` stays on the ray from `p` through `p + delta`, one cell further out. */
  lemma NextPosExtendsRay(p: Pos, delta: Pos)
    requires delta != Pos(0, 0)
    ensures Cheb(p, NextPos(p, delta)) == Cheb(p, AddPos(p, delta)) + 1
    ensures Sign(NextPos(p, delta).x - p.x) == Sign(delta.x)
    ensures Sign(NextPos(p, delta).y - p.y) == Sign(delta.y)
  {
  }

  lemma DxyInverse(start: Pos, end: Pos)
    ensures AddPos(start, Pos(Dxy(start, end).0, Dxy(start, end).1)) == end
  {
  }

  /** The cell chosen by `move_next_to` touches `end` and lies on the line from `start`. */
  lemma NextToAdjacent(start: Pos, end: Pos)
    requires Distance(start, end) > 1
    ensures Cheb(NextTo(start, end), end) == 1
    ensures Cheb(start, NextTo(start, end)) == Distance(start, end) - 1
  {
    LineDistances(start, end);
  }

  /** On an axis or an exact diagonal, `move_next_to` stops one unit step short of `end`. */
  lemma NextToStraight(start: Pos, end: Pos)
    requires end.x - start.x == 0 || end.y - start.y == 0 || Abs(end.x - start.x) == Abs(end.y - start.y)
    ensures Distance(start, end) > 1 ==>
      NextTo(start, end) == Pos(end.x - Sign(end.x - start.x), end.y - Sign(end.y - start.y))
  {
    if Distance(start, end) > 1 {
      LineStraight(start, end);
      var n := |Line(start, end)|;
      assert Line(start, end)[n - 2] ==
        Pos(Toward(start.x, Sign(end.x - start.x), n - 1), Toward(start.y, Sign(end.y - start.y), n - 1));
    }
  }

  lemma NextToExamples()
    ensures NextTo(Pos(0, 0), Pos(5, 5)) == Pos(4, 4)
    ensures NextTo(Pos(0, 0), Pos(1, 1)) == Pos(0, 0)
    ensures NextTo(Pos(0, 0), Pos(-5, -5)) == Pos(-4, -4)
    ensures NextTo(Pos(0, 0), Pos(0, 5)) == Pos(0, 4)
    ensures NextTo(Pos(0, 0), Pos(5, 0)) == Pos(4, 0)
  {
    NextToStraight(Pos(0, 0), Pos(5, 5));
    NextToStraight(Pos(0, 0), Pos(-5, -5));
    NextToStraight(Pos(0, 0), Pos(0, 5));
    NextToStraight(Pos(0, 0), Pos(5, 0));
  }
}

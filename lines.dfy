/** A digital line between two grid cells, stepping like libtcod's Bresenham
    iterator: the major axis advances one cell per step, and an error term
    decides when the minor axis advances. The line leaves out its start and
    ends at its target. */
module Lines {
  import opened Types

  function Abs(v: int): nat { if v < 0 then -v else v }

  function Sign(v: int): int { if v > 0 then 1 else if v < 0 then -1 else 0 }

  function Max(a: int, b: int): int { if a >= b then a else b }

  /** Chebyshev (king-move) distance between two cells. */
  function Cheb(a: Pos, b: Pos): nat { Max(Abs(b.x - a.x), Abs(b.y - a.y)) }

  /** `c` moved `k` cells in the direction of sign `s`. */
  function Toward(c: int, s: int, k: int): int
  {
    if s > 0 then c + k else if s < 0 then c - k else c
  }

  /** Error term after `k` steps of a line whose major extent is `a` and minor extent `b`. */
  function Err(a: nat, b: nat, k: nat): int
  {
    if k == 0 then a
    else
      var e := Err(a, b, k - 1) - 2 * b;
      if e < 0 then e + 2 * a else e
  }

  /** Number of minor-axis advances in the first `k` steps. */
  function Minor(a: nat, b: nat, k: nat): nat
  {
    if k == 0 then 0
    else Minor(a, b, k - 1) + (if Err(a, b, k - 1) - 2 * b < 0 then 1 else 0)
  }

  /** The cell reached after `k` steps from `a` towards `b`. */
  function LinePoint(a: Pos, b: Pos, k: nat): Pos
  {
    var dx, dy := b.x - a.x, b.y - a.y;
    if Abs(dx) > Abs(dy) then
      Pos(Toward(a.x, Sign(dx), k), Toward(a.y, Sign(dy), Minor(Abs(dx), Abs(dy), k)))
    else
      Pos(Toward(a.x, Sign(dx), Minor(Abs(dy), Abs(dx), k)), Toward(a.y, Sign(dy), k))
  }

  /** The cells of the line from `a` to `b`, without `a`. */
  function Line(a: Pos, b: Pos): (r: seq<Pos>)
    ensures |r| == Cheb(a, b)
  {
    seq(Cheb(a, b), i requires 0 <= i < Cheb(a, b) => LinePoint(a, b, i + 1))
  }

  // ---------------------------------------------------------------------------
  // The error-term invariant and what follows from it

  lemma {:induction false} ErrInvariant(a: nat, b: nat, k: nat)
    requires 0 < a && b <= a
    ensures 0 <= Err(a, b, k) < 2 * a
    ensures Err(a, b, k) == a - 2 * b * k + 2 * a * Minor(a, b, k)
  {
    if k > 0 {
      ErrInvariant(a, b, k - 1);
      var e, m := Err(a, b, k - 1), Minor(a, b, k - 1);
      MulSucc(2 * b, k - 1);
      MulSucc(2 * a, m);
      if e - 2 * b < 0 {
        assert Err(a, b, k) == e - 2 * b + 2 * a && Minor(a, b, k) == m + 1;
      } else {
        assert Err(a, b, k) == e - 2 * b && Minor(a, b, k) == m;
      }
    }
  }

  lemma MulSucc(x: int, n: int)
    ensures x * (n + 1) == x * n + x
  {
  }

  lemma MinorSteps(a: nat, b: nat, k: nat)
    ensures Minor(a, b, k) <= Minor(a, b, k + 1) <= Minor(a, b, k) + 1
  {
  }

  lemma {:induction false} MinorGap(a: nat, b: nat, j: nat, k: nat)
    requires j <= k
    ensures Minor(a, b, j) <= Minor(a, b, k) <= Minor(a, b, j) + (k - j)
    decreases k - j
  {
    if j < k {
      MinorGap(a, b, j, k - 1);
      MinorSteps(a, b, k - 1);
    }
  }

  lemma Distrib(a: int, m: int, b: int)
    ensures 2 * a * m - 2 * b * a == 2 * (a * (m - b))
  {
  }

  lemma MulBounds(t: int, a: int)
    requires a > 0
    ensures t <= -1 ==> a * t <= -a
    ensures t >= 1 ==> a * t >= a
  {
  }

  /** After `a` steps the minor axis has advanced exactly `b` times. */
  lemma MinorAtEnd(a: nat, b: nat)
    requires 0 < a && b <= a
    ensures Minor(a, b, a) == b
  {
    ErrInvariant(a, b, a);
    var m := Minor(a, b, a);
    var e := Err(a, b, a);
    assert e == a + (2 * a * m - 2 * b * a);
    Distrib(a, m, b);
    var d := m - b;
    assert e == a + 2 * (a * d);
    MulBounds(d, a);
    if d <= -1 {
      assert false;
    } else if d >= 1 {
      assert false;
    }
  }

  lemma MinorBound(a: nat, b: nat, k: nat)
    requires 0 < a && b <= a && k <= a
    ensures Minor(a, b, k) <= b && b - Minor(a, b, k) <= a - k
  {
    MinorGap(a, b, k, a);
    MinorAtEnd(a, b);
  }

  // ---------------------------------------------------------------------------
  // Geometry of the line

  lemma LinePointStart(a: Pos, b: Pos)
    ensures LinePoint(a, b, 0) == a
  {
  }

  /** The k-th cell of the line lies k cells from the start and n - k cells from the target. */
  lemma LinePointDistances(a: Pos, b: Pos, k: nat)
    requires k <= Cheb(a, b)
    ensures Cheb(a, LinePoint(a, b, k)) == k
    ensures Cheb(LinePoint(a, b, k), b) == Cheb(a, b) - k
  {
    if Abs(b.x - a.x) > Abs(b.y - a.y) {
      XMajorDistances(a, b, k);
    } else {
      YMajorDistances(a, b, k);
    }
  }

  lemma XMajorDistances(a: Pos, b: Pos, k: nat)
    requires Abs(b.x - a.x) > Abs(b.y - a.y) && k <= Abs(b.x - a.x)
    ensures Cheb(a, LinePoint(a, b, k)) == k
    ensures Cheb(LinePoint(a, b, k), b) == Cheb(a, b) - k
  {
    var dx, dy := b.x - a.x, b.y - a.y;
    var m := Minor(Abs(dx), Abs(dy), k);
    MinorBound(Abs(dx), Abs(dy), k);
    MinorGap(Abs(dx), Abs(dy), 0, k);
    AxisDistances(a.x, b.x, k, a.y, b.y, m);
    var p := LinePoint(a, b, k);
    assert p == Pos(Toward(a.x, Sign(dx), k), Toward(a.y, Sign(dy), m));
    assert Cheb(a, b) == Abs(dx);
  }

  lemma YMajorDistances(a: Pos, b: Pos, k: nat)
    requires Abs(b.x - a.x) <= Abs(b.y - a.y) && k <= Abs(b.y - a.y)
    ensures Cheb(a, LinePoint(a, b, k)) == k
    ensures Cheb(LinePoint(a, b, k), b) == Cheb(a, b) - k
  {
    var dx, dy := b.x - a.x, b.y - a.y;
    if Abs(dy) == 0 {
      assert LinePoint(a, b, k) == a == b;
    } else {
      var m := Minor(Abs(dy), Abs(dx), k);
      MinorBound(Abs(dy), Abs(dx), k);
      MinorGap(Abs(dy), Abs(dx), 0, k);
      AxisDistances(a.y, b.y, k, a.x, b.x, m);
      var p := LinePoint(a, b, k);
      assert p == Pos(Toward(a.x, Sign(dx), m), Toward(a.y, Sign(dy), k));
      assert Cheb(a, b) == Abs(dy);
    }
  }

  /** Moving `k` along the major axis and `m` along the minor one, with the bounds
      the error term guarantees. */
  lemma AxisDistances(c: int, target: int, k: nat, c2: int, target2: int, m: nat)
    requires Abs(target - c) >= Abs(target2 - c2) && k <= Abs(target - c)
    requires m <= k && m <= Abs(target2 - c2) && Abs(target2 - c2) - m <= Abs(target - c) - k
    ensures Abs(Toward(c, Sign(target - c), k) - c) == k
    ensures Abs(target - Toward(c, Sign(target - c), k)) == Abs(target - c) - k
    ensures Abs(Toward(c2, Sign(target2 - c2), m) - c2) == m
    ensures Abs(target2 - Toward(c2, Sign(target2 - c2), m)) == Abs(target2 - c2) - m
  {
  }

  lemma LinePointEnd(a: Pos, b: Pos)
    ensures LinePoint(a, b, Cheb(a, b)) == b
  {
    LinePointDistances(a, b, Cheb(a, b));
  }

  /** Consecutive cells of the line are king-move neighbours. */
  lemma LinePointStep(a: Pos, b: Pos, k: nat)
    requires k < Cheb(a, b)
    ensures Cheb(LinePoint(a, b, k), LinePoint(a, b, k + 1)) == 1
  {
    var dx, dy := b.x - a.x, b.y - a.y;
    if Abs(dx) > Abs(dy) {
      MinorSteps(Abs(dx), Abs(dy), k);
    } else {
      MinorSteps(Abs(dy), Abs(dx), k);
    }
  }

  // ---------------------------------------------------------------------------
  // The line as a sequence

  /** Each step of a path moves to a king-move neighbour. */
  ghost predicate Chain(path: seq<Pos>)
  {
    forall i :: 0 <= i < |path| - 1 ==> Cheb(path[i], path[i + 1]) == 1
  }

  /** The i-th cell of the line is i + 1 cells from the start and the rest of
      the way from the target, so only the last cell is the target. */
  lemma LineDistances(a: Pos, b: Pos)
    ensures forall i :: 0 <= i < |Line(a, b)| ==>
      Cheb(a, Line(a, b)[i]) == i + 1 && Cheb(Line(a, b)[i], b) == |Line(a, b)| - 1 - i
  {
    forall i | 0 <= i < |Line(a, b)|
      ensures Cheb(a, Line(a, b)[i]) == i + 1 && Cheb(Line(a, b)[i], b) == |Line(a, b)| - 1 - i
    {
      LinePointDistances(a, b, i + 1);
    }
  }

  lemma LineEndsAtTarget(a: Pos, b: Pos)
    requires a != b
    ensures |Line(a, b)| > 0 && Line(a, b)[|Line(a, b)| - 1] == b
  {
    LinePointEnd(a, b);
  }

  /** The start followed by the line is a chain of neighbouring cells. */
  lemma {:induction false} LineIsChain(a: Pos, b: Pos)
    ensures Chain([a] + Line(a, b))
  {
    var path := [a] + Line(a, b);
    forall i | 0 <= i < |path| - 1
      ensures Cheb(path[i], path[i + 1]) == 1
    {
      LinePointStep(a, b, i);
      LinePointStart(a, b);
    }
  }

  lemma ChebSymmetric(a: Pos, b: Pos)
    ensures Cheb(a, b) == Cheb(b, a)
  {
  }

  /** On an exact diagonal every step advances the minor axis too. */
  lemma {:induction false} MinorDiagonal(a: nat, k: nat)
    requires 0 < a
    ensures Err(a, a, k) == a && Minor(a, a, k) == k
  {
    if k > 0 {
      MinorDiagonal(a, k - 1);
    }
  }

  /** Lines along an axis or an exact diagonal visit `a + i * step` for the unit step
      towards `b`. */
  lemma LineStraight(a: Pos, b: Pos)
    requires b.x - a.x == 0 || b.y - a.y == 0 || Abs(b.x - a.x) == Abs(b.y - a.y)
    ensures forall i :: 0 <= i < |Line(a, b)| ==>
      Line(a, b)[i] == Pos(Toward(a.x, Sign(b.x - a.x), i + 1), Toward(a.y, Sign(b.y - a.y), i + 1))
  {
    var dx, dy := b.x - a.x, b.y - a.y;
    forall i | 0 <= i < |Line(a, b)|
      ensures Line(a, b)[i] == Pos(Toward(a.x, Sign(dx), i + 1), Toward(a.y, Sign(dy), i + 1))
    {
      if dx != 0 && dy != 0 {
        MinorDiagonal(Abs(dx), i + 1);
      }
    }
  }

  /** The line to an adjacent cell is that cell alone. */
  lemma LineUnit(a: Pos, b: Pos)
    requires Cheb(a, b) == 1
    ensures Line(a, b) == [b]
  {
    LineEndsAtTarget(a, b);
  }

  /** Every cell of the line is strictly closer to the target than the start is. */
  lemma LineApproaches(a: Pos, b: Pos, p: Pos)
    requires p in Line(a, b)
    ensures Cheb(p, b) < Cheb(a, b)
  {
    LineDistances(a, b);
    var i :| 0 <= i < |Line(a, b)| && Line(a, b)[i] == p;
  }
}

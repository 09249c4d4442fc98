/** Areas of effect (`Aoe`, `aoe_fill` in roguelike_core/src/map.rs): the cells a
    flood fill reaches, grouped into rings by distance, with cells walled off in
    both directions kept only near the centre. */
module Areas {
  import opened Types
  import opened Lines
  import opened Utils
  import opened MapTiles
  import opened Blocking
  import opened Flood

  datatype AoeEffect = Sound

  /** `positions[d]` holds the affected cells at distance `d` from the centre. */
  datatype Aoe = Aoe(effect: AoeEffect, positions: seq<seq<Pos>>)

  /** All cells of `rings`, ring by ring. */
  function Flatten(rings: seq<seq<Pos>>): seq<Pos>
  {
    if rings == [] then [] else Flatten(rings[..|rings| - 1]) + rings[|rings| - 1]
  }

  lemma {:induction false} FlattenSpec(rings: seq<seq<Pos>>, p: Pos)
    ensures p in Flatten(rings) <==> exists i :: 0 <= i < |rings| && p in rings[i]
  {
    if rings != [] {
      var n := |rings| - 1;
      FlattenSpec(rings[..n], p);
      if p in Flatten(rings) && p !in rings[n] {
        var i :| 0 <= i < n && p in rings[..n][i];
        assert rings[i] == rings[..n][i];
      }
      if exists i :: 0 <= i < n && p in rings[i] {
        var i :| 0 <= i < n && p in rings[i];
        assert rings[..n][i] == rings[i];
      }
    }
  }

  /** `Aoe::positions`: all affected cells, nearest ring first. */
  method Positions(aoe: Aoe) returns (positions: seq<Pos>)
    ensures positions == Flatten(aoe.positions)
  {
    positions := [];
    var i := 0;
    while i < |aoe.positions|
      invariant 0 <= i <= |aoe.positions|
      invariant positions == Flatten(aoe.positions[..i])
    {
      var ring := aoe.positions[i];
      ghost var before := positions;
      var j := 0;
      while j < |ring|
        invariant 0 <= j <= |ring|
        invariant positions == before + ring[..j]
      {
        positions := positions + [ring[j]];
        assert ring[..j + 1] == ring[..j] + [ring[j]];
        j := j + 1;
      }
      assert aoe.positions[..i + 1][..i] == aoe.positions[..i];
      assert ring[..j] == ring;
      i := i + 1;
    }
    assert aoe.positions[..i] == aoe.positions;
  }

  /** Cells walled off both ways survive only this close to the centre. */
  function BlockedRadius(radius: nat): nat
  {
    if radius > 2 then radius - 2 else 0
  }

  /** The line from `a` to `b` is blocked. */
  predicate Blocks(t: Tiles, a: Pos, b: Pos)
    requires Valid(t) && InBounds(t, a)
  {
    IsBlockedByWall(t, a, b.x - a.x, b.y - a.y).Some?
  }

  /** The line from the centre to `pos` and the line back are both blocked. */
  predicate Dampened(t: Tiles, start: Pos, pos: Pos)
    requires Valid(t) && InBounds(t, start) && InBounds(t, pos)
  {
    Blocks(t, start, pos) && Blocks(t, pos, start)
  }

  /** `aoe_fill` keeps `pos` unless it is dampened beyond the blocked radius. */
  predicate Keeps(t: Tiles, start: Pos, radius: nat, pos: Pos)
    requires Valid(t)
  {
    InBounds(t, start) && InBounds(t, pos) ==>
      !Dampened(t, start, pos) || Distance(start, pos) <= BlockedRadius(radius)
  }

  lemma KeepsWhen(t: Tiles, start: Pos, radius: nat, pos: Pos, dampened: bool)
    requires Valid(t) && InBounds(t, start) && InBounds(t, pos) && dampened == Dampened(t, start, pos)
    ensures Keeps(t, start, radius, pos) == (!dampened || Distance(start, pos) <= BlockedRadius(radius))
  {
  }

  function KeepFlags(t: Tiles, start: Pos, radius: nat, cells: seq<Pos>): (r: seq<bool>)
    requires Valid(t)
    ensures |r| == |cells| && forall i :: 0 <= i < |cells| ==> r[i] == Keeps(t, start, radius, cells[i])
  {
    seq(|cells|, i requires 0 <= i < |cells| => Keeps(t, start, radius, cells[i]))
  }

  ghost predicate WithinRadius(start: Pos, radius: nat, cells: seq<Pos>)
  {
    forall i :: 0 <= i < |cells| ==> Cheb(start, cells[i]) <= radius
  }

  /** The kept cells of `cells` sorted into `radius + 1` rings by distance, each ring
      in the order of `cells`. */
  function Rings(start: Pos, radius: nat, cells: seq<Pos>, keep: seq<bool>): (r: seq<seq<Pos>>)
    requires |keep| == |cells| && WithinRadius(start, radius, cells)
    ensures |r| == radius + 1
  {
    if cells == [] then seq(radius + 1, _ => [])
    else
      var n := |cells| - 1;
      var rest := Rings(start, radius, cells[..n], keep[..n]);
      if keep[n] then
        var d := Cheb(start, cells[n]);
        rest[d := rest[d] + [cells[n]]]
      else rest
  }

  /** One more cell joins the ring of its distance when it is kept, and nothing else changes. */
  lemma RingsSnoc(start: Pos, radius: nat, cells: seq<Pos>, keep: seq<bool>, i: nat)
    requires |keep| == |cells| && WithinRadius(start, radius, cells) && i < |cells|
    ensures WithinRadius(start, radius, cells[..i]) && WithinRadius(start, radius, cells[..i + 1])
    ensures Cheb(start, cells[i]) <= radius
    ensures Rings(start, radius, cells[..i + 1], keep[..i + 1]) ==
      (var rest := Rings(start, radius, cells[..i], keep[..i]);
       var d := Cheb(start, cells[i]);
       if keep[i] then rest[d := rest[d] + [cells[i]]] else rest)
  {
    assert cells[..i + 1][..i] == cells[..i] && keep[..i + 1][..i] == keep[..i];
  }

  lemma {:induction false} RingsSpec(start: Pos, radius: nat, cells: seq<Pos>, keep: seq<bool>, d: int, p: Pos)
    requires |keep| == |cells| && WithinRadius(start, radius, cells) && 0 <= d <= radius
    ensures p in Rings(start, radius, cells, keep)[d] <==>
      Cheb(start, p) == d && exists i :: 0 <= i < |cells| && keep[i] && cells[i] == p
  {
    if cells != [] {
      var n := |cells| - 1;
      RingsSpec(start, radius, cells[..n], keep[..n], d, p);
      if exists i :: 0 <= i < n && keep[..n][i] && cells[..n][i] == p {
        var i :| 0 <= i < n && keep[..n][i] && cells[..n][i] == p;
        assert keep[i] && cells[i] == p;
      }
      if exists i :: 0 <= i < |cells| && keep[i] && cells[i] == p {
        var i :| 0 <= i < |cells| && keep[i] && cells[i] == p;
        if i < n {
          assert keep[..n][i] && cells[..n][i] == p;
        }
      }
    }
  }

  /** The area `aoe_fill` computes around `start`. */
  function AoeFill(t: Tiles, effect: AoeEffect, start: Pos, radius: nat): (r: Aoe)
    requires Valid(t) && InBounds(t, start)
    ensures r.effect == effect && |r.positions| == radius + 1
  {
    var flood := Flood.Flood(t, start, radius);
    FloodWithinRadius(t, start, radius);
    Aoe(effect, Rings(start, radius, flood, KeepFlags(t, start, radius, flood)))
  }

  lemma FloodWithinRadius(t: Tiles, start: Pos, radius: nat)
    requires Valid(t)
    ensures WithinRadius(start, radius, Flood.Flood(t, start, radius))
  {
    var flood := Flood.Flood(t, start, radius);
    FloodSpec(t, start, radius);
    forall i | 0 <= i < |flood|
      ensures Cheb(start, flood[i]) <= radius
    {
      assert flood[i] in flood;
    }
  }

  /** Ring `d` holds exactly the flooded cells at distance `d` that are not
      dampened beyond the blocked radius; no cell is beyond `radius`. */
  lemma AoeFillSpec(t: Tiles, effect: AoeEffect, start: Pos, radius: nat, d: int, p: Pos)
    requires Valid(t) && InBounds(t, start) && 0 <= d <= radius
    ensures p in AoeFill(t, effect, start, radius).positions[d] <==>
      p in Flood.Flood(t, start, radius) && Cheb(start, p) == d && Keeps(t, start, radius, p)
  {
    var flood := Flood.Flood(t, start, radius);
    FloodWithinRadius(t, start, radius);
    var keep := KeepFlags(t, start, radius, flood);
    RingsSpec(start, radius, flood, keep, d, p);
    if p in flood && Keeps(t, start, radius, p) {
      var i :| 0 <= i < |flood| && flood[i] == p;
      assert keep[i];
    }
  }

  /** The centre is always affected, in ring 0. */
  lemma AoeFillHasCentre(t: Tiles, effect: AoeEffect, start: Pos, radius: nat)
    requires Valid(t) && InBounds(t, start)
    ensures start in AoeFill(t, effect, start, radius).positions[0]
  {
    FloodSpec(t, start, radius);
    assert Flood.Flood(t, start, radius)[0] == start;
    assert !Dampened(t, start, start);
    AoeFillSpec(t, effect, start, radius, 0, start);
  }

  /** Within the blocked radius every flooded cell is affected, walled off or not. */
  lemma AoeFillKeepsNear(t: Tiles, effect: AoeEffect, start: Pos, radius: nat, p: Pos)
    requires Valid(t) && InBounds(t, start) && p in Flood.Flood(t, start, radius)
    requires Cheb(start, p) <= BlockedRadius(radius)
    ensures p in AoeFill(t, effect, start, radius).positions[Cheb(start, p)]
  {
    AoeFillSpec(t, effect, start, radius, Cheb(start, p), p);
  }
}

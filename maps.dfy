/** The `Map` object of roguelike_core/src/map.rs: the tile grid it owns, the
    operations that read it step by step, and the ones that write tiles in place. */
module Maps {
  import opened Types
  import opened Lines
  import opened Utils
  import opened Movement
  import opened MapTiles
  import opened Blocking
  import opened Flood
  import opened Areas

  /** The cells of a `width` by `width` block with top-left corner `start`, column by
      column (`x` outer, `y` inner), for the first `columns` columns. */
  function BlockCells(start: Pos, width: int, columns: nat): seq<Pos>
  {
    if columns == 0 then []
    else BlockCells(start, width, columns - 1) + BlockColumn(start, width, columns - 1)
  }

  function BlockColumn(start: Pos, width: int, x: int): seq<Pos>
  {
    seq(if width < 0 then 0 else width, y => Pos(start.x + x, start.y + y))
  }

  predicate InBlock(start: Pos, width: int, q: Pos)
  {
    start.x <= q.x < start.x + width && start.y <= q.y < start.y + width
  }

  /** The cells of `ps` that lie on the grid, in order. */
  function OnGrid(t: Tiles, ps: seq<Pos>): (r: seq<Pos>)
    requires Valid(t)
    ensures forall p :: p in r <==> p in ps && InBounds(t, p)
  {
    if ps == [] then []
    else
      var rest := OnGrid(t, ps[..|ps| - 1]);
      assert ps == ps[..|ps| - 1] + [ps[|ps| - 1]];
      if InBounds(t, ps[|ps| - 1]) then rest + [ps[|ps| - 1]] else rest
  }

  /** `p` is a neighbour of `position` whose tile has type `tileType`. */
  predicate NearCell(t: Tiles, position: Pos, d: Pos, tileType: TileType)
    requires Valid(t)
  {
    var p := MoveBy(position, d);
    InBounds(t, p) && At(t, p).tileType == tileType
  }

  class Map {
    var tiles: Tiles
    var fovPos: Pos
    var fovRadius: int

    ghost predicate Valid()
      reads this
    {
      MapTiles.Valid(tiles)
    }

    /** `Map::with_vec`: takes over an existing grid. */
    constructor WithVec(grid: Tiles)
      requires MapTiles.Valid(grid)
      ensures Valid() && tiles == grid && fovPos == Pos(0, 0) && fovRadius == 1
    {
      tiles := grid;
      fovPos := Pos(0, 0);
      fovRadius := 1;
    }

    /** `Map::from_dims`: a grid of empty tiles. */
    constructor FromDims(width: nat, height: nat)
      requires width > 0
      ensures Valid() && tiles == MapTiles.FromDims(width, height)
      ensures fovPos == Pos(0, 0) && fovRadius == 1
    {
      tiles := MapTiles.FromDims(width, height);
      fovPos := Pos(0, 0);
      fovRadius := 1;
    }

    /** `move_blocked_by_wall`: the bounds and occupancy checks, then every check of the
        move in turn; a check that fires records its wall, if it has one, over any
        recorded before, and marks the move as blocked. */
    method MoveBlockedByWall(pos: Pos, next: Pos) returns (r: Option<Blocked>)
      requires Valid() && Cheb(pos, next) == 1 && StepOk(tiles, pos, next)
      ensures r == MoveBlocked(tiles, pos, next)
    {
      var dir := DirectionFromDxy(next.x - pos.x, next.y - pos.y);
      var blocked := Blocked(pos, next, dir, false, Empty);
      var found := false;
      if !InBounds(tiles, next) {
        blocked := blocked.(blockedTile := true);
        return Some(blocked);
      }
      if At(tiles, next).blocked {
        blocked := blocked.(blockedTile := true);
        found := true;
      }
      var checks := MoveChecks(tiles, pos, next);
      var i := 0;
      while i < |checks|
        invariant 0 <= i <= |checks|
        invariant blocked == Blocked(pos, next, dir, At(tiles, next).blocked, blocked.wallType)
        invariant RunChecks(checks[i..], blocked.wallType, found) == RunChecks(checks, Empty, At(tiles, next).blocked)
      {
        var c := checks[i];
        if c.fires {
          if c.wall.Some? {
            blocked := blocked.(wallType := c.wall.value);
          }
          found := true;
        }
        assert checks[i..][1..] == checks[i + 1..];
        i := i + 1;
      }
      if found {
        r := Some(blocked);
      } else {
        r := None;
      }
    }

    /** `path_blocked_by_wall`: the first blocked step along `path`. */
    method PathBlockedByWall(path: seq<Pos>) returns (r: Option<Blocked>)
      requires Valid() && Chain(path) && (|path| >= 2 ==> StepOk(tiles, path[0], path[1]))
      ensures r == PathBlocked(tiles, path)
    {
      var i := 0;
      while i + 1 < |path|
        invariant 0 <= i <= |path|
        invariant Chain(path[i..]) && (i + 1 < |path| ==> StepOk(tiles, path[i], path[i + 1]))
        invariant PathBlocked(tiles, path[i..]) == PathBlocked(tiles, path)
      {
        var b := MoveBlockedByWall(path[i], path[i + 1]);
        assert path[i..][0] == path[i] && path[i..][1] == path[i + 1];
        if b.Some? {
          return b;
        }
        assert path[i..][1..] == path[i + 1..];
        ChainTail(path[i..]);
        i := i + 1;
      }
      r := None;
    }

    /** `is_blocked_by_wall`: the path from `s` along the line to `s + (dx, dy)`. */
    method IsBlockedByWall(s: Pos, dx: int, dy: int) returns (r: Option<Blocked>)
      requires Valid() && LineStartOk(tiles, s, dx, dy)
      ensures r == Blocking.IsBlockedByWall(tiles, s, dx, dy)
    {
      if dx == 0 && dy == 0 {
        return None;
      }
      IsBlockedByWallPath(tiles, s, dx, dy);
      r := PathBlockedByWall([s] + Line(s, Target(s, dx, dy)));
    }

    /** `reachable_neighbors`: the neighbours, in the fixed offset order, whose line check is clear. */
    method ReachableNeighbors(pos: Pos) returns (result: seq<Pos>)
      requires Valid() && OffsetsOk(tiles, pos, NeighborOffsets())
      ensures result == Blocking.ReachableNeighbors(tiles, pos)
    {
      var neighbors := NeighborOffsets();
      var ok := ClearFlags(tiles, pos, neighbors);
      result := [];
      var i := 0;
      while i < |neighbors|
        invariant 0 <= i <= |neighbors|
        invariant result == Select(pos, neighbors[..i], ok[..i])
      {
        var d := neighbors[i];
        var clear := OffsetIsClear(pos, d);
        SelectSnoc(pos, neighbors, ok, i);
        if clear {
          result := result + [AddPos(pos, d)];
        }
        i := i + 1;
      }
      assert neighbors[..i] == neighbors && ok[..i] == ok;
    }

    /** The test in the loop of `reachable_neighbors`: the line check by offset `d` is clear. */
    method OffsetIsClear(pos: Pos, d: Pos) returns (clear: bool)
      requires Valid() && LineStartOk(tiles, pos, d.x, d.y)
      ensures clear == OffsetClear(tiles, pos, d)
    {
      var b := IsBlockedByWall(pos, d.x, d.y);
      clear := b.None?;
    }

    /** `floodfill`: the cells reached from `start` in `radius` rounds of unblocked steps. */
    method Floodfill(start: Pos, radius: nat) returns (flood: seq<Pos>)
      requires Valid() && OffsetsOk(tiles, start, NeighborOffsets())
      ensures flood == Flood.Flood(tiles, start, radius)
    {
      flood := [start];
      var current := [start];
      var index := 0;
      while index < radius
        invariant 0 <= index <= radius
        invariant forall p :: p in flood ==> p == start || InBounds(tiles, p)
        invariant forall p :: p in current ==> p in flood
        invariant FloodRounds(tiles, start, radius, radius - index, flood, current) == Flood.Flood(tiles, start, radius)
      {
        flood, current := NextRound(start, radius, radius - index, flood, current);
        index := index + 1;
      }
    }

    /** One pass of the outer loop of `floodfill`: one round fewer remains to be done. */
    method NextRound(start: Pos, radius: nat, rounds: nat, seen: seq<Pos>, last: seq<Pos>) returns (flood: seq<Pos>, current: seq<Pos>)
      requires Valid() && OffsetsOk(tiles, start, NeighborOffsets()) && rounds > 0
      requires forall p :: p in seen ==> p == start || InBounds(tiles, p)
      requires forall p :: p in last ==> p in seen
      ensures forall p :: p in flood ==> p == start || InBounds(tiles, p)
      ensures forall p :: p in current ==> p in flood
      ensures FloodRounds(tiles, start, radius, rounds - 1, flood, current) == FloodRounds(tiles, start, radius, rounds, seen, last)
    {
      FloodRoundsUnfold(tiles, start, radius, rounds, seen, last);
      flood, current := FloodStep(start, radius, last, seen);
      SuffixIn(flood, |seen|);
    }

    /** One round of `floodfill`: the unseen neighbours of each cell of `last`. */
    method FloodStep(start: Pos, radius: nat, last: seq<Pos>, seen: seq<Pos>) returns (flood: seq<Pos>, current: seq<Pos>)
      requires Valid() && OffsetsOk(tiles, start, NeighborOffsets())
      requires forall p :: p in seen ==> p == start || InBounds(tiles, p)
      requires forall p :: p in last ==> p in seen
      ensures flood == FloodRound(tiles, start, radius, last, seen)
      ensures |flood| >= |seen| && current == flood[|seen|..]
      ensures forall p :: p in flood ==> p == start || InBounds(tiles, p)
    {
      flood := seen;
      current := [];
      var j := 0;
      while j < |last|
        invariant 0 <= j <= |last|
        invariant |flood| >= |seen| && current == flood[|seen|..]
        invariant forall p :: p in flood ==> p == start || InBounds(tiles, p)
        invariant forall p :: p in last ==> p in flood
        invariant FloodRound(tiles, start, radius, last[j..], flood) == FloodRound(tiles, start, radius, last, seen)
      {
        var pos := last[j];
        if pos != start {
          InBoundsOffsetsOk(tiles, pos);
        }
        var adj := AstarNeighbors(tiles, start, pos, Some(radius));
        var added;
        ghost var flood0 := flood;
        FloodNeighborsOnGrid(tiles, start, pos, radius);
        FloodRoundUnfold(tiles, start, radius, last, j, flood);
        flood, added := PushUnseen(flood, adj);
        AddUnseenSpec(flood0, Firsts(adj));
        SuffixExtend(current, flood0, flood, added, |seen|);
        current := current + added;
        j := j + 1;
      }
    }

    /** `aoe_fill`: the flood fill around `start`, sorted into rings by distance. */
    method AoeFill(effect: AoeEffect, start: Pos, radius: nat) returns (aoe: Aoe)
      requires Valid() && InBounds(tiles, start)
      ensures aoe == Areas.AoeFill(tiles, effect, start, radius)
    {
      InBoundsOffsetsOk(tiles, start);
      var flood := Floodfill(start, radius);
      FloodSpec(tiles, start, radius);
      FloodWithinRadius(tiles, start, radius);
      var aoeDists := SortIntoRings(start, radius, flood);
      aoe := Aoe(effect, aoeDists);
    }

    /** The loop of `aoe_fill`: each kept cell is appended to the ring of its distance. */
    method SortIntoRings(start: Pos, radius: nat, cells: seq<Pos>) returns (rings: seq<seq<Pos>>)
      requires Valid() && InBounds(tiles, start) && WithinRadius(start, radius, cells)
      requires forall p :: p in cells ==> p == start || InBounds(tiles, p)
      ensures rings == Rings(start, radius, cells, KeepFlags(tiles, start, radius, cells))
    {
      ghost var keep := KeepFlags(tiles, start, radius, cells);
      rings := seq(radius + 1, _ => []);
      var i := 0;
      while i < |cells|
        invariant 0 <= i <= |cells|
        invariant WithinRadius(start, radius, cells[..i])
        invariant rings == Rings(start, radius, cells[..i], keep[..i])
      {
        var pos := cells[i];
        assert pos in cells;
        var keeps := KeepsCell(start, radius, pos);
        rings := AddToRing(start, radius, cells, keep, i, keeps, rings);
        i := i + 1;
      }
      assert cells[..i] == cells && keep[..i] == keep;
    }

    /** The test in the loop of `aoe_fill`: keep `pos` unless the lines to it and
        back are both blocked and it lies beyond the blocked radius. */
    method KeepsCell(start: Pos, radius: nat, pos: Pos) returns (keeps: bool)
      requires Valid() && InBounds(tiles, start) && InBounds(tiles, pos)
      ensures keeps == Keeps(tiles, start, radius, pos)
    {
      var dist := Distance(start, pos);
      var isBlocked := Blocks(tiles, start, pos) && Blocks(tiles, pos, start);
      KeepsWhen(tiles, start, radius, pos, isBlocked);
      keeps := !isBlocked || (isBlocked && dist <= BlockedRadius(radius));
    }

    /** `near_tile_type`: some neighbour on the grid has the given tile type. */
    method NearTileType(position: Pos, tileType: TileType) returns (near: bool)
      requires Valid()
      ensures near <==> exists i :: 0 <= i < 8 && NearCell(tiles, position, NeighborOffsets()[i], tileType)
    {
      var offsets := NeighborOffsets();
      near := false;
      var i := 0;
      while i < |offsets| && !near
        invariant 0 <= i <= 8
        invariant near <==> exists j :: 0 <= j < i && NearCell(tiles, position, offsets[j], tileType)
      {
        var p := MoveBy(position, offsets[i]);
        if InBounds(tiles, p) && At(tiles, p).tileType == tileType {
          near := true;
        }
        i := i + 1;
      }
    }

    /** `place_block`: writes `tile` over the `width` by `width` block at `start`,
        returning its cells column by column. Every cell of the block must be on the
        grid, as the source indexes each one. */
    method PlaceBlock(start: Pos, width: int, tile: Tile) returns (positions: seq<Pos>)
      requires Valid()
      requires width > 0 ==> InBounds(tiles, start) && InBounds(tiles, Pos(start.x + width - 1, start.y + width - 1))
      modifies this
      ensures Valid() && Width(tiles) == Width(old(tiles)) && Height(tiles) == Height(old(tiles))
      ensures positions == BlockCells(start, width, if width < 0 then 0 else width)
      ensures forall q :: InBounds(tiles, q) ==> At(tiles, q) == if InBlock(start, width, q) then tile else At(old(tiles), q)
      ensures fovPos == old(fovPos) && fovRadius == old(fovRadius)
    {
      positions := [];
      var x := 0;
      while x < width
        invariant 0 <= x <= (if width < 0 then 0 else width)
        invariant Valid() && Width(tiles) == Width(old(tiles)) && Height(tiles) == Height(old(tiles))
        invariant positions == BlockCells(start, width, x)
        invariant forall q :: InBounds(tiles, q) ==>
          At(tiles, q) == if InBlock(start, width, q) && q.x < start.x + x then tile else At(old(tiles), q)
        invariant fovPos == old(fovPos) && fovRadius == old(fovRadius)
      {
        var column := PlaceColumn(start, width, x, tile);
        positions := positions + column;
        x := x + 1;
      }
      assert x == if width < 0 then 0 else width;
    }

    /** The inner loop of `place_block`: column `x` of the block. */
    method PlaceColumn(start: Pos, width: int, x: int, tile: Tile) returns (column: seq<Pos>)
      requires Valid() && 0 <= x < width
      requires InBounds(tiles, start) && InBounds(tiles, Pos(start.x + width - 1, start.y + width - 1))
      modifies this
      ensures Valid() && Width(tiles) == Width(old(tiles)) && Height(tiles) == Height(old(tiles))
      ensures column == BlockColumn(start, width, x)
      ensures forall q :: InBounds(tiles, q) ==>
        At(tiles, q) == if q.x == start.x + x && start.y <= q.y < start.y + width then tile else At(old(tiles), q)
      ensures fovPos == old(fovPos) && fovRadius == old(fovRadius)
    {
      column := [];
      var y := 0;
      while y < width
        invariant 0 <= y <= width
        invariant Valid() && Width(tiles) == Width(old(tiles)) && Height(tiles) == Height(old(tiles))
        invariant column == BlockColumn(start, width, x)[..y]
        invariant forall q :: InBounds(tiles, q) ==>
          At(tiles, q) == if q.x == start.x + x && start.y <= q.y < start.y + y then tile else At(old(tiles), q)
        invariant fovPos == old(fovPos) && fovRadius == old(fovRadius)
      {
        var pos := Pos(start.x + x, start.y + y);
        tiles := SetTile(tiles, pos, tile);
        assert BlockColumn(start, width, x)[..y + 1] == BlockColumn(start, width, x)[..y] + [pos];
        column := column + [pos];
        y := y + 1;
      }
      assert BlockColumn(start, width, x)[..y] == BlockColumn(start, width, x);
    }

    /** `place_line`: writes `tile` over the cells of the line that lie on the grid,
        returning them in order. */
    method PlaceLine(start: Pos, end: Pos, tile: Tile) returns (positions: seq<Pos>)
      requires Valid()
      modifies this
      ensures Valid() && Width(tiles) == Width(old(tiles)) && Height(tiles) == Height(old(tiles))
      ensures positions == OnGrid(old(tiles), Line(start, end))
      ensures forall q :: InBounds(tiles, q) ==> At(tiles, q) == if q in Line(start, end) then tile else At(old(tiles), q)
      ensures fovPos == old(fovPos) && fovRadius == old(fovRadius)
    {
      positions := PlaceCells(Line(start, end), tile);
    }

    /** The loop of `place_line`, over any list of cells. */
    method PlaceCells(cells: seq<Pos>, tile: Tile) returns (positions: seq<Pos>)
      requires Valid()
      modifies this
      ensures Valid() && Width(tiles) == Width(old(tiles)) && Height(tiles) == Height(old(tiles))
      ensures positions == OnGrid(old(tiles), cells)
      ensures forall q :: InBounds(tiles, q) ==> At(tiles, q) == if q in cells then tile else At(old(tiles), q)
      ensures fovPos == old(fovPos) && fovRadius == old(fovRadius)
    {
      positions := [];
      var i := 0;
      while i < |cells|
        invariant 0 <= i <= |cells|
        invariant Valid() && Width(tiles) == Width(old(tiles)) && Height(tiles) == Height(old(tiles))
        invariant positions == OnGrid(old(tiles), cells[..i])
        invariant forall q :: InBounds(tiles, q) ==> At(tiles, q) == if q in cells[..i] then tile else At(old(tiles), q)
        invariant fovPos == old(fovPos) && fovRadius == old(fovRadius)
      {
        var pos := cells[i];
        assert cells[..i + 1][..i] == cells[..i] && cells[..i + 1] == cells[..i] + [pos];
        if InBounds(tiles, pos) {
          tiles := SetTile(tiles, pos, tile);
          positions := positions + [pos];
        }
        i := i + 1;
      }
      assert cells[..i] == cells;
    }
  }

  /** The body of the loop of `aoe_fill`: `cells[i]` joins the ring of its distance
      when it is kept. */
  method AddToRing(start: Pos, radius: nat, cells: seq<Pos>, ghost keep: seq<bool>, i: nat, keeps: bool, rings: seq<seq<Pos>>)
    returns (rings': seq<seq<Pos>>)
    requires |keep| == |cells| && WithinRadius(start, radius, cells) && i < |cells| && keeps == keep[i]
    requires WithinRadius(start, radius, cells[..i]) && rings == Rings(start, radius, cells[..i], keep[..i])
    ensures WithinRadius(start, radius, cells[..i + 1]) && rings' == Rings(start, radius, cells[..i + 1], keep[..i + 1])
  {
    RingsSnoc(start, radius, cells, keep, i);
    rings' := rings;
    if keeps {
      var dist := Distance(start, cells[i]);
      rings' := rings[dist := rings[dist] + [cells[i]]];
    }
  }
}

/** Tiles, walls and the tile grid (roguelike_core/src/map.rs). */
module MapTiles {
  import opened Types

  /** The kind of wall on a tile edge, ordered Empty < ShortWall < TallWall. */
  datatype Wall = Empty | ShortWall | TallWall

  function WallRank(w: Wall): nat
  {
    match w
    case Empty => 0
    case ShortWall => 1
    case TallWall => 2
  }

  /** The derived ordering of the wall kinds. */
  predicate WallLess(a: Wall, b: Wall)
  {
    WallRank(a) < WallRank(b)
  }

  function NoWall(w: Wall): (r: bool)
    ensures r <==> w == Empty
    ensures r <==> (forall v: Wall :: !WallLess(v, w))
  {
    match w
    case Empty => true
    case ShortWall => assert WallLess(Empty, w); false
    case TallWall => assert WallLess(Empty, w); false
  }

  lemma WallOrder()
    ensures WallLess(Empty, ShortWall) && WallLess(ShortWall, TallWall)
    ensures forall a: Wall, b: Wall :: WallLess(a, b) ==> !WallLess(b, a)
  {
  }

  datatype TileType = EmptyType | ShortWallType | WallType | Water | Exit

  datatype Surface = Floor | Rubble | Grass

  /** A grid cell. Each cell owns only the wall on its bottom edge and the wall on
      its left edge; `chr` is the byte drawn for it. */
  datatype Tile = Tile(
    blocked: bool,
    blockSight: bool,
    explored: bool,
    tileType: TileType,
    bottomWall: Wall,
    leftWall: Wall,
    chr: int,
    surface: Surface)

  /** The source stores a character as its low byte (`chr as u8`). */
  function CharByte(c: char): (r: int)
    ensures 0 <= r < 256
    ensures (c as int) < 256 ==> r == c as int
  {
    (c as int) % 256
  }

  function EmptyTile(): Tile
  {
    Tile(false, false, false, EmptyType, Empty, Empty, CharByte(' '), Floor)
  }

  function WaterTile(): Tile
  {
    Tile(true, false, false, Water, Empty, Empty, CharByte(' '), Floor)
  }

  function WallTileWith(c: char): Tile
  {
    Tile(true, true, false, WallType, Empty, Empty, CharByte(c), Floor)
  }

  function WallTile(): Tile
  {
    WallTileWith(' ')
  }

  function ShortWallTileWith(c: char): Tile
  {
    Tile(true, false, false, ShortWallType, Empty, Empty, CharByte(c), Floor)
  }

  function ShortWallTile(): Tile
  {
    ShortWallTileWith(' ')
  }

  function ExitTile(): Tile
  {
    Tile(false, false, false, Exit, Empty, Empty, CharByte(' '), Floor)
  }

  /** What each tile constructor promises: which kinds block movement and sight,
      and that a fresh tile has no walls on its edges and is unexplored. */
  lemma TileConstructors(c: char)
    ensures forall t :: t in [EmptyTile(), WaterTile(), WallTileWith(c), ShortWallTileWith(c), ExitTile()] ==>
      t.bottomWall == Empty && t.leftWall == Empty && !t.explored && t.surface == Floor &&
      (t.blocked <==> t.tileType in {Water, WallType, ShortWallType}) &&
      (t.blockSight <==> t.tileType == WallType)
    ensures WallTile() == WallTileWith(' ') && ShortWallTile() == ShortWallTileWith(' ')
    ensures WallTileWith(c).chr == CharByte(c) && ShortWallTileWith(c).chr == CharByte(c)
  {
  }

  // ---------------------------------------------------------------------------
  // The grid

  /** Tiles indexed `tiles[x][y]`: one inner sequence per column. */
  type Tiles = seq<seq<Tile>>

  /** At least one column (the height is read from the first one), and every
      column as tall as the first. */
  predicate Valid(t: Tiles)
  {
    |t| > 0 && forall i :: 0 <= i < |t| ==> |t[i]| == |t[0]|
  }

  function Width(t: Tiles): int
  {
    |t|
  }

  function Height(t: Tiles): int
    requires |t| > 0
  {
    |t[0]|
  }

  predicate InBounds(t: Tiles, p: Pos)
    requires |t| > 0
  {
    0 <= p.x < Width(t) && 0 <= p.y < Height(t)
  }

  function At(t: Tiles, p: Pos): (r: Tile)
    requires Valid(t) && InBounds(t, p)
    ensures r == t[p.x][p.y]
  {
    t[p.x][p.y]
  }

  /** The grid with the tile at `p` replaced. */
  function SetTile(t: Tiles, p: Pos, tile: Tile): (r: Tiles)
    requires Valid(t) && InBounds(t, p)
    ensures Valid(r) && Width(r) == Width(t) && Height(r) == Height(t)
    ensures forall q :: InBounds(r, q) ==> At(r, q) == if q == p then tile else At(t, q)
  {
    t[p.x := t[p.x][p.y := tile]]
  }

  /** A fresh `width` by `height` grid of empty tiles. */
  function FromDims(width: nat, height: nat): (r: Tiles)
    requires width > 0
    ensures Valid(r) && Width(r) == width && Height(r) == height
    ensures forall q :: InBounds(r, q) ==> At(r, q) == EmptyTile()
  {
    seq(width, _ => seq(height, _ => EmptyTile()))
  }

  lemma InBoundsSpec(t: Tiles, p: Pos)
    requires Valid(t)
    ensures InBounds(t, p) <==> 0 <= p.x < |t| && 0 <= p.y < |t[0]|
    ensures InBounds(t, p) ==> p.y < |t[p.x]|
  {
  }

  // ---------------------------------------------------------------------------
  // Edge checks. Each reports true when the edge on that side of `pos` cannot be
  // crossed: either an end is out of the grid, there is a wall on the edge, or
  // the cell beyond it is blocked. `blocked_right`, `blocked_down` and
  // `blocked_up` only check that `pos` is inside the grid before reading the
  // cell beyond, so they require that cell to exist whenever `pos` does.

  function BlockedLeft(t: Tiles, pos: Pos): (r: bool)
    requires Valid(t)
    ensures !InBounds(t, pos) || !InBounds(t, Pos(pos.x - 1, pos.y)) ==> r
    ensures InBounds(t, pos) && InBounds(t, Pos(pos.x - 1, pos.y)) && At(t, Pos(pos.x - 1, pos.y)).blocked ==> r
  {
    var offset := Pos(pos.x - 1, pos.y);
    if !InBounds(t, offset) || !InBounds(t, pos) then true
    else At(t, pos).leftWall != Empty || At(t, offset).blocked
  }

  function BlockedRight(t: Tiles, pos: Pos): (r: bool)
    requires Valid(t)
    requires InBounds(t, pos) ==> InBounds(t, Pos(pos.x + 1, pos.y))
    ensures !InBounds(t, pos) ==> r
    ensures InBounds(t, pos) && At(t, Pos(pos.x + 1, pos.y)).blocked ==> r
  {
    var offset := Pos(pos.x + 1, pos.y);
    if !InBounds(t, pos) then true
    else At(t, offset).leftWall != Empty || At(t, offset).blocked
  }

  function BlockedDown(t: Tiles, pos: Pos): (r: bool)
    requires Valid(t)
    requires InBounds(t, pos) ==> InBounds(t, Pos(pos.x, pos.y + 1))
    ensures !InBounds(t, pos) ==> r
    ensures InBounds(t, pos) && At(t, Pos(pos.x, pos.y + 1)).blocked ==> r
  {
    var offset := Pos(pos.x, pos.y + 1);
    if !InBounds(t, pos) then true
    else At(t, pos).bottomWall != Empty || At(t, offset).blocked
  }

  function BlockedUp(t: Tiles, pos: Pos): (r: bool)
    requires Valid(t)
    requires InBounds(t, pos) ==> InBounds(t, Pos(pos.x, pos.y - 1))
    ensures !InBounds(t, pos) ==> r
    ensures InBounds(t, pos) && At(t, Pos(pos.x, pos.y - 1)).blocked ==> r
  {
    var offset := Pos(pos.x, pos.y - 1);
    if !InBounds(t, pos) then true
    else At(t, offset).bottomWall != Empty || At(t, offset).blocked
  }

  /** The edge between two horizontally or vertically adjacent cells is read from
      one owner: the left wall of the right-hand cell or the bottom wall of the
      upper cell, whichever side it is looked at from. */
  lemma EdgeOwnership(t: Tiles, p: Pos)
    requires Valid(t) && InBounds(t, p)
    ensures InBounds(t, Pos(p.x + 1, p.y)) ==>
      (BlockedRight(t, p) <==> At(t, Pos(p.x + 1, p.y)).leftWall != Empty || At(t, Pos(p.x + 1, p.y)).blocked) &&
      (BlockedLeft(t, Pos(p.x + 1, p.y)) <==> At(t, Pos(p.x + 1, p.y)).leftWall != Empty || At(t, p).blocked)
    ensures InBounds(t, Pos(p.x, p.y + 1)) ==>
      (BlockedDown(t, p) <==> At(t, p).bottomWall != Empty || At(t, Pos(p.x, p.y + 1)).blocked) &&
      (BlockedUp(t, Pos(p.x, p.y + 1)) <==> At(t, p).bottomWall != Empty || At(t, p).blocked)
    ensures p.x == 0 ==> BlockedLeft(t, p)
    ensures p.x == Width(t) - 1 ==> !InBounds(t, Pos(p.x + 1, p.y))
  {
  }
}

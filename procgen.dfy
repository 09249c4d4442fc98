/** Wall structures of a generated level (roguelike_engine/src/procgen.rs):
    blocked tiles grouped by 4-adjacency into single blocks, straight lines,
    bent paths and complex shapes, and the pass that breaks up diagonal pairs
    of full-tile walls. */
module Procgen {
  import opened Types
  import opened Lines
  import opened Utils
  import opened MapTiles
  import opened Maps

  datatype StructureType = Single | Line | Path | Complex

  datatype Structure = Structure(blocks: seq<Pos>, typ: StructureType)

  // ---------------------------------------------------------------------------
  // Adjacent blocks

  /** The four neighbours in the order `adjacent_blocks` visits them: right, down, left, up. */
  function Neighbors4(block: Pos): seq<Pos>
  {
    [MoveX(block, 1), MoveY(block, 1), MoveX(block, -1), MoveY(block, -1)]
  }

  /** A blocked tile on the grid that has not been seen yet. */
  predicate NewBlock(t: Tiles, p: Pos, seen: set<Pos>)
    requires Valid(t)
  {
    InBounds(t, p) && At(t, p).blocked && p !in seen
  }

  /** The cells of `cands` that are new blocks, in order. */
  function NewBlocks(t: Tiles, cands: seq<Pos>, seen: set<Pos>): seq<Pos>
    requires Valid(t)
  {
    if cands == [] then []
    else
      var n := |cands| - 1;
      NewBlocks(t, cands[..n], seen) + if NewBlock(t, cands[n], seen) then [cands[n]] else []
  }

  /** `adjacent_blocks`: at most four cells, each a new block. */
  function Adjacent(t: Tiles, block: Pos, seen: set<Pos>): (r: seq<Pos>)
    requires Valid(t)
    ensures |r| <= 4
    ensures forall p :: p in r ==> InBounds(t, p) && At(t, p).blocked && p !in seen
  {
    NewBlocksSpec(t, Neighbors4(block), seen);
    NewBlocks(t, Neighbors4(block), seen)
  }

  ghost predicate Distinct(s: seq<Pos>)
  {
    forall i, j :: 0 <= i < j < |s| ==> s[i] != s[j]
  }

  lemma {:induction false} NewBlocksSpec(t: Tiles, cands: seq<Pos>, seen: set<Pos>)
    requires Valid(t)
    ensures |NewBlocks(t, cands, seen)| <= |cands|
    ensures forall p :: p in NewBlocks(t, cands, seen) <==> p in cands && NewBlock(t, p, seen)
    ensures Distinct(cands) ==> Distinct(NewBlocks(t, cands, seen))
  {
    if cands != [] {
      var n := |cands| - 1;
      NewBlocksSpec(t, cands[..n], seen);
      assert cands == cands[..n] + [cands[n]];
    }
  }

  /** `adjacent_blocks` yields at most four distinct neighbours, exactly the
      right, down, left and up cells that are blocked, on the grid and unseen. */
  lemma AdjacentSpec(t: Tiles, block: Pos, seen: set<Pos>)
    requires Valid(t)
    ensures |Adjacent(t, block, seen)| <= 4 && Distinct(Adjacent(t, block, seen))
    ensures forall p :: p in Adjacent(t, block, seen) <==> p in Neighbors4(block) && NewBlock(t, p, seen)
    ensures forall p :: p in Adjacent(t, block, seen) ==> Abs(p.x - block.x) + Abs(p.y - block.y) == 1
  {
    NewBlocksSpec(t, Neighbors4(block), seen);
  }

  /** Marking the block itself as seen does not change its adjacent blocks. */
  lemma AdjacentIgnoresSelf(t: Tiles, block: Pos, seen: set<Pos>)
    requires Valid(t)
    ensures Adjacent(t, block, seen + {block}) == Adjacent(t, block, seen)
  {
    NewBlocksAgree(t, Neighbors4(block), seen + {block}, seen);
  }

  lemma {:induction false} NewBlocksAgree(t: Tiles, cands: seq<Pos>, s1: set<Pos>, s2: set<Pos>)
    requires Valid(t)
    requires forall i :: 0 <= i < |cands| ==> NewBlock(t, cands[i], s1) == NewBlock(t, cands[i], s2)
    ensures NewBlocks(t, cands, s1) == NewBlocks(t, cands, s2)
  {
    if cands != [] {
      NewBlocksAgree(t, cands[..|cands| - 1], s1, s2);
    }
  }

  /** `adjacent_blocks` */
  method AdjacentBlocks(block: Pos, m: Map, seen: set<Pos>) returns (result: seq<Pos>)
    requires m.Valid()
    ensures result == Adjacent(m.tiles, block, seen)
  {
    result := [];
    var adjacents := [MoveX(block, 1), MoveY(block, 1), MoveX(block, -1), MoveY(block, -1)];
    var i := 0;
    while i < |adjacents|
      invariant 0 <= i <= |adjacents|
      invariant result == NewBlocks(m.tiles, adjacents[..i], seen)
    {
      var adj := adjacents[i];
      assert adjacents[..i + 1][..i] == adjacents[..i];
      if InBounds(m.tiles, adj) && At(m.tiles, adj).blocked && adj !in seen {
        result := result + [adj];
      }
      i := i + 1;
    }
    assert adjacents[..i] == adjacents;
  }

  // ---------------------------------------------------------------------------
  // Structures

  /** The cells of the grid, a finite set that bounds how often a block can be newly seen. */
  ghost function GridCells(t: Tiles): set<Pos>
    requires Valid(t)
  {
    set x, y | 0 <= x < Width(t) && 0 <= y < Height(t) :: Pos(x, y)
  }

  /** Seeing one more cell of the grid leaves fewer cells unseen. */
  lemma SeenMore(t: Tiles, seen: set<Pos>, seen': set<Pos>, p: Pos)
    requires Valid(t) && seen <= seen' && InBounds(t, p) && p in seen' && p !in seen
    ensures |GridCells(t) - seen'| < |GridCells(t) - seen|
  {
    assert Pos(p.x, p.y) in GridCells(t);
    var small := GridCells(t) - seen';
    var big := GridCells(t) - seen;
    assert big == small + (big - small);
    assert p in big - small;
    assert |big - small| >= 1 by {
      assert big - small == {p} + (big - small - {p});
    }
  }

  /** The cells listed in `s`. */
  ghost function Elems(s: seq<Pos>): set<Pos>
  {
    set p | p in s
  }

  lemma ElemsSnoc(s: seq<Pos>, p: Pos)
    ensures Elems(s + [p]) == Elems(s) + {p}
  {
  }

  lemma SeenMonotone(t: Tiles, seen: set<Pos>, seen': set<Pos>)
    requires Valid(t) && seen <= seen'
    ensures |GridCells(t) - seen'| <= |GridCells(t) - seen|
  {
    var small := GridCells(t) - seen';
    var big := GridCells(t) - seen;
    assert big == small + (big - small);
  }

  /** A structure's type only moves forward: a `Line` may bend into a `Path`, and
      anything may become `Complex`. */
  predicate TypeStep(a: StructureType, b: StructureType)
  {
    b == a || b == Complex || (a == Line && b == Path)
  }

  /** `s` lists no cell twice. */
  ghost predicate NoRepeats(s: seq<Pos>)
  {
    |Elems(s)| == |s|
  }

  lemma {:induction false} NoRepeatsDistinct(s: seq<Pos>)
    ensures NoRepeats(s) <==> Distinct(s)
  {
    if s != [] {
      var n := |s| - 1;
      NoRepeatsDistinct(s[..n]);
      assert s == s[..n] + [s[n]];
      ElemsSnoc(s[..n], s[n]);
      ElemsSize(s[..n]);
      if s[n] in s[..n] {
        var j :| 0 <= j < n && s[..n][j] == s[n];
        assert s[j] == s[n];
      }
      if NoRepeats(s) {
        assert NoRepeats(s[..n]);
        forall i, j | 0 <= i < j < |s|
          ensures s[i] != s[j]
        {
          if j < n {
            assert s[i] == s[..n][i] && s[j] == s[..n][j];
          } else {
            assert s[i] in s[..n];
          }
        }
      }
      if Distinct(s) {
        assert Distinct(s[..n]);
        assert s[n] !in s[..n];
      }
    }
  }

  lemma {:induction false} ElemsSize(s: seq<Pos>)
    ensures |Elems(s)| <= |s|
  {
    if s != [] {
      var n := |s| - 1;
      ElemsSize(s[..n]);
      assert s == s[..n] + [s[n]];
      ElemsSnoc(s[..n], s[n]);
    }
  }

  lemma ElemsAppend(a: seq<Pos>, b: seq<Pos>)
    ensures Elems(a + b) == Elems(a) + Elems(b)
  {
  }

  lemma TypeStepTrans(a: StructureType, b: StructureType, c: StructureType)
    requires TypeStep(a, b) && TypeStep(b, c)
    ensures TypeStep(a, c)
    ensures b == Complex ==> c == Complex
    ensures b == Path ==> c != Line
  {
  }

  /** `blocks'` is `blocks` followed by distinct cells, exactly the cells that were unseen
      before and are seen now. */
  ghost predicate Extends(blocks: seq<Pos>, blocks': seq<Pos>, seen: set<Pos>, seen': set<Pos>)
  {
    && |blocks'| >= |blocks| && blocks'[..|blocks|] == blocks
    && NoRepeats(blocks'[|blocks|..])
    && Elems(blocks'[|blocks|..]) == seen' - seen
  }

  lemma ExtendsTrans(b1: seq<Pos>, b2: seq<Pos>, b3: seq<Pos>, s1: set<Pos>, s2: set<Pos>, s3: set<Pos>)
    requires s1 <= s2 <= s3 && Extends(b1, b2, s1, s2) && Extends(b2, b3, s2, s3)
    ensures Extends(b1, b3, s1, s3)
  {
    var x := b2[|b1|..];
    var y := b3[|b2|..];
    assert b3[..|b2|] == b2;
    assert b3[|b1|..] == x + y;
    assert b3[..|b1|] == b3[..|b2|][..|b1|];
    ElemsAppend(x, y);
    assert Elems(x) * Elems(y) == {};
  }

  /** Every newly seen cell is a blocked cell of the grid. */
  ghost predicate SeesBlocks(t: Tiles, seen: set<Pos>, seen': set<Pos>)
    requires Valid(t)
  {
    seen <= seen' && forall p :: p in seen' && p !in seen ==> InBounds(t, p) && At(t, p).blocked
  }

  /** The step direction of the last two blocks differs from the step to `next`. */
  predicate Bends(blocks: seq<Pos>, next: Pos)
    requires |blocks| > 1
  {
    var len := |blocks|;
    SubPos(blocks[len - 2], blocks[len - 1]) != SubPos(blocks[len - 1], next)
  }

  /** The adjacent blocks, once seen, leave fewer cells of the grid unseen. */
  lemma FirstBatch(t: Tiles, block: Pos, seen: set<Pos>)
    requires Valid(t) && Adjacent(t, block, seen) != []
    ensures |GridCells(t) - (seen + Elems(Adjacent(t, block, seen)))| < |GridCells(t) - seen|
  {
    var adjacent := Adjacent(t, block, seen);
    AdjacentSpec(t, block, seen);
    assert adjacent[0] in adjacent;
    SeenMore(t, seen, seen + Elems(adjacent), adjacent[0]);
  }

  /** What `process_block` promises, from what its two loops establish. */
  lemma Processed(t: Tiles, blocks: seq<Pos>, block: Pos, seen: set<Pos>, firstSeen: set<Pos>,
                  blocks': seq<Pos>, seen': set<Pos>)
    requires Valid(t)
    requires firstSeen == seen + Elems(Adjacent(t, block, seen))
    requires SeesBlocks(t, firstSeen, seen') && Extends(blocks + Adjacent(t, block, seen), blocks', firstSeen, seen')
    ensures SeesBlocks(t, seen, seen') && Extends(blocks, blocks', seen, seen')
    ensures AddsFirst(blocks, blocks', Adjacent(t, block, seen))
  {
    var adjacent := Adjacent(t, block, seen);
    FirstExtends(t, blocks, block, seen);
    SeesTrans(t, seen, firstSeen, seen');
    ExtendsTrans(blocks, blocks + adjacent, blocks', seen, firstSeen, seen');
    SliceAfter(blocks, adjacent, blocks');
  }

  /** Appending the adjacent blocks, and seeing them, extends the structure by blocked cells. */
  lemma FirstExtends(t: Tiles, blocks: seq<Pos>, block: Pos, seen: set<Pos>)
    requires Valid(t)
    ensures var adjacent := Adjacent(t, block, seen);
      Extends(blocks, blocks + adjacent, seen, seen + Elems(adjacent)) &&
      SeesBlocks(t, seen, seen + Elems(adjacent))
  {
    var adjacent := Adjacent(t, block, seen);
    AdjacentSpec(t, block, seen);
    var b := blocks + adjacent;
    assert b[|blocks|..] == adjacent;
    assert b[..|blocks|] == blocks;
    NoRepeatsDistinct(adjacent);
  }

  lemma SeesTrans(t: Tiles, s1: set<Pos>, s2: set<Pos>, s3: set<Pos>)
    requires Valid(t) && SeesBlocks(t, s1, s2) && SeesBlocks(t, s2, s3)
    ensures SeesBlocks(t, s1, s3)
  {
  }

  /** `blocks'` continues `blocks` with `added` first. */
  predicate AddsFirst(blocks: seq<Pos>, blocks': seq<Pos>, added: seq<Pos>)
  {
    |blocks'| >= |blocks| + |added| && blocks'[|blocks|..|blocks| + |added|] == added
  }

  lemma SliceAfter(base: seq<Pos>, added: seq<Pos>, b: seq<Pos>)
    requires |base + added| <= |b| && b[..|base + added|] == base + added
    ensures AddsFirst(base, b, added)
  {
    forall k | 0 <= k < |added|
      ensures b[|base| + k] == added[k]
    {
      assert b[..|base + added|][|base| + k] == (base + added)[|base| + k];
    }
  }

  /** `p` has a blocked 4-neighbour on the grid. */
  predicate Touching(t: Tiles, p: Pos)
    requires Valid(t)
  {
    Adjacent(t, p, {}) != []
  }

  /** A 4-neighbour of a blocked cell touches it. */
  lemma NeighborTouches(t: Tiles, a: Pos, p: Pos)
    requires Valid(t) && InBounds(t, a) && At(t, a).blocked && p in Neighbors4(a)
    ensures Touching(t, p)
  {
    AdjacentSpec(t, p, {});
    assert a in Neighbors4(p);
  }

  /** The first loop of `process_block`: every adjacent block joins the structure and is seen. */
  method AddBlocks(structure: Structure, seen: set<Pos>, adjacent: seq<Pos>) returns (structure': Structure, seen': set<Pos>)
    ensures structure' == structure.(blocks := structure.blocks + adjacent)
    ensures seen' == seen + Elems(adjacent)
  {
    structure' := structure;
    seen' := seen;
    var i := 0;
    while i < |adjacent|
      invariant 0 <= i <= |adjacent|
      invariant structure' == structure.(blocks := structure.blocks + adjacent[..i])
      invariant seen' == seen + Elems(adjacent[..i])
    {
      structure' := structure'.(blocks := structure'.blocks + [adjacent[i]]);
      seen' := seen' + {adjacent[i]};
      assert adjacent[..i + 1] == adjacent[..i] + [adjacent[i]];
      ElemsSnoc(adjacent[..i], adjacent[i]);
      i := i + 1;
    }
    assert adjacent[..i] == adjacent;
  }

  /** `process_block`: adds the unseen blocked neighbours of `block` to the structure
      and marks them seen, then continues from each of them in turn. */
  method ProcessBlock(block: Pos, structure: Structure, m: Map, seen: set<Pos>) returns (structure': Structure, seen': set<Pos>)
    requires m.Valid()
    ensures SeesBlocks(m.tiles, seen, seen')
    ensures Extends(structure.blocks, structure'.blocks, seen, seen')
    ensures TypeStep(structure.typ, structure'.typ)
    ensures forall p :: p in seen' && p !in seen ==> p in Neighbors4(block) || Touching(m.tiles, p)
    ensures var adj := Adjacent(m.tiles, block, seen);
      && (adj == [] ==> structure' == structure && seen' == seen)
      && (|adj| > 1 ==> structure'.typ == Complex)
      && (|adj| == 1 && structure.typ == Line && |structure.blocks| > 1 && Bends(structure.blocks, adj[0]) ==>
            structure'.typ != Line)
      && (adj != [] ==> AddsFirst(structure.blocks, structure'.blocks, adj))
    decreases |GridCells(m.tiles) - seen|, 1
  {
    var adjacent := AdjacentBlocks(block, m, seen);
    structure' := structure;
    seen' := seen;
    var needsProcessing := false;
    if |adjacent| == 1 {
      needsProcessing := true;
      if structure'.typ == Line && |structure'.blocks| > 1 {
        var len := |structure'.blocks|;
        if SubPos(structure'.blocks[len - 2], structure'.blocks[len - 1]) != SubPos(structure'.blocks[len - 1], adjacent[0]) {
          structure' := structure'.(typ := Path);
        }
      }
    } else if |adjacent| > 1 {
      needsProcessing := true;
      structure' := structure'.(typ := Complex);
    }

    if needsProcessing {
      structure', seen' := AddBlocks(structure', seen', adjacent);
      FirstBatch(m.tiles, block, seen);
      ghost var firstSeen := seen';
      ghost var firstTyp := structure'.typ;
      AdjacentSpec(m.tiles, block, seen);
      structure', seen' := ProcessEach(adjacent, structure', m, seen');
      Processed(m.tiles, structure.blocks, block, seen, firstSeen, structure'.blocks, seen');
      TypeStepTrans(structure.typ, firstTyp, structure'.typ);
    }
  }

  /** The second loop of `process_block`: continue from each adjacent block in turn. */
  method ProcessEach(adjacent: seq<Pos>, structure: Structure, m: Map, seen: set<Pos>) returns (structure': Structure, seen': set<Pos>)
    requires m.Valid()
    requires forall a :: a in adjacent ==> InBounds(m.tiles, a) && At(m.tiles, a).blocked
    ensures SeesBlocks(m.tiles, seen, seen')
    ensures Extends(structure.blocks, structure'.blocks, seen, seen')
    ensures TypeStep(structure.typ, structure'.typ)
    ensures forall p :: p in seen' && p !in seen ==> Touching(m.tiles, p)
    decreases |GridCells(m.tiles) - seen|, 2
  {
    structure' := structure;
    seen' := seen;
    var i := 0;
    while i < |adjacent|
      invariant 0 <= i <= |adjacent|
      invariant SeesBlocks(m.tiles, seen, seen')
      invariant Extends(structure.blocks, structure'.blocks, seen, seen')
      invariant TypeStep(structure.typ, structure'.typ)
      invariant forall p :: p in seen' && p !in seen ==> Touching(m.tiles, p)
    {
      SeenMonotone(m.tiles, seen, seen');
      ghost var before := structure'.blocks;
      ghost var seenBefore := seen';
      structure', seen' := ProcessBlock(adjacent[i], structure', m, seen');
      ExtendsTrans(structure.blocks, before, structure'.blocks, seen, seenBefore, seen');
      forall p | p in seen' && p !in seenBefore && p in Neighbors4(adjacent[i])
        ensures Touching(m.tiles, p)
      {
        NeighborTouches(m.tiles, adjacent[i], p);
      }
      i := i + 1;
    }
  }

  // ---------------------------------------------------------------------------
  // find_structures

  /** `a` comes before `b` when the grid is read row by row, left to right. */
  predicate RowMajorBefore(a: Pos, b: Pos)
  {
    a.y < b.y || (a.y == b.y && a.x < b.x)
  }

  /** `blocks` is listed row by row, each cell once. */
  predicate RowMajor(blocks: seq<Pos>)
  {
    forall i, j :: 0 <= i < j < |blocks| ==> RowMajorBefore(blocks[i], blocks[j])
  }

  /** The first loop of `find_structures`: every blocked cell of the grid, row by row. */
  method CollectBlocks(m: Map) returns (blocks: seq<Pos>)
    requires m.Valid()
    ensures forall p :: p in blocks <==> InBounds(m.tiles, p) && At(m.tiles, p).blocked
    ensures RowMajor(blocks)
  {
    var width, height := Width(m.tiles), Height(m.tiles);
    blocks := [];
    var y := 0;
    while y < height
      invariant 0 <= y <= height
      invariant forall p :: p in blocks <==> InBounds(m.tiles, p) && At(m.tiles, p).blocked && p.y < y
      invariant forall i, j :: 0 <= i < j < |blocks| ==> RowMajorBefore(blocks[i], blocks[j])
      invariant blocks != [] ==> blocks[|blocks| - 1].y < y
    {
      var x := 0;
      while x < width
        invariant 0 <= x <= width
        invariant forall p :: p in blocks <==>
          InBounds(m.tiles, p) && At(m.tiles, p).blocked && RowMajorBefore(p, Pos(x, y))
        invariant forall i, j :: 0 <= i < j < |blocks| ==> RowMajorBefore(blocks[i], blocks[j])
        invariant blocks != [] ==> RowMajorBefore(blocks[|blocks| - 1], Pos(x, y))
      {
        if At(m.tiles, Pos(x, y)).blocked {
          blocks := blocks + [Pos(x, y)];
        }
        x := x + 1;
      }
      y := y + 1;
    }
  }

  /** Every structure has a block; a `Single` has exactly one, a `Line` or `Path` at least two. */
  predicate WellShaped(s: Structure)
  {
    && s.blocks != []
    && (s.typ == Single ==> |s.blocks| == 1)
    && (s.typ == Line || s.typ == Path ==> |s.blocks| >= 2)
  }

  /** `blocks` lists distinct cells, each of them seen now and unseen before. */
  ghost predicate Claims(t: Tiles, seen: set<Pos>, seen': set<Pos>, blocks: seq<Pos>)
    requires Valid(t)
  {
    SeesBlocks(t, seen, seen') && NoRepeats(blocks) && Elems(blocks) <= seen' - seen
  }

  lemma NoRepeatsAppend(a: seq<Pos>, b: seq<Pos>)
    requires NoRepeats(a) && NoRepeats(b) && Elems(a) !! Elems(b)
    ensures NoRepeats(a + b) && Elems(a + b) == Elems(a) + Elems(b)
  {
    ElemsAppend(a, b);
  }

  /** A block is never one of its own adjacent blocks. */
  lemma NotOwnAdjacent(t: Tiles, block: Pos, seen: set<Pos>)
    requires Valid(t)
    ensures block !in Adjacent(t, block, seen)
  {
    AdjacentSpec(t, block, seen);
  }

  /** The `for adj in adjacent.iter() { seen.insert(*adj) }` loop. */
  method MarkSeen(seen: set<Pos>, adjacent: seq<Pos>) returns (seen': set<Pos>)
    ensures seen' == seen + Elems(adjacent)
  {
    seen' := seen;
    var i := 0;
    while i < |adjacent|
      invariant 0 <= i <= |adjacent|
      invariant seen' == seen + Elems(adjacent[..i])
    {
      seen' := seen' + {adjacent[i]};
      assert adjacent[..i + 1] == adjacent[..i] + [adjacent[i]];
      ElemsSnoc(adjacent[..i], adjacent[i]);
      i := i + 1;
    }
    assert adjacent[..i] == adjacent;
  }

  /** The body of the second loop of `find_structures` for an unseen blocked `block`:
      a block with exactly two new neighbours starts nothing (it lies inside a line
      that is picked up later); one with none is a `Single`; one with a single new
      neighbour starts a `Line` that `process_block` follows; one with more starts a
      `Complex` structure. That last case takes the corrected start
      `StartComplexFixed`, which adds the new neighbours to the structure. */
  method StartStructure(block: Pos, m: Map, seen: set<Pos>) returns (found: Option<Structure>, seen': set<Pos>)
    requires m.Valid() && InBounds(m.tiles, block) && At(m.tiles, block).blocked && block !in seen
    ensures var adj := Adjacent(m.tiles, block, seen);
      && (found.Some? <==> |adj| != 2)
      && (found.None? ==> seen' == seen)
      && (found.Some? ==>
            && Claims(m.tiles, seen, seen', found.value.blocks)
            && WellShaped(found.value)
            && found.value.blocks[0] == block
            && Elems(found.value.blocks) == seen' - seen)
      && (forall p :: p in seen' && p !in seen && p != block ==> Touching(m.tiles, p))
      && (adj == [] ==> found == Some(Structure([block], Single)) && seen' == seen + {block})
      && (|adj| == 1 ==>
            && found.Some? && found.value.typ != Single
            && AddsFirst([block], found.value.blocks, adj))
      && (|adj| > 2 ==>
            && found.Some? && found.value.typ == Complex
            && AddsFirst([block], found.value.blocks, adj))
  {
    var adjacent := AdjacentBlocks(block, m, seen);
    if |adjacent| == 2 {
      return None, seen;
    }
    var structure := Structure([block], Single);
    seen' := seen + {block};
    if |adjacent| == 1 {
      structure, seen' := StartLine(block, m, seen);
    } else if |adjacent| > 2 {
      structure, seen' := StartComplexFixed(block, m, seen);
    } else {
      assert Elems([block]) == {block};
    }
    assert structure.blocks[0..] == structure.blocks;
    found := Some(structure);
  }

  /** A block with one new neighbour: a `Line` from `block` that `process_block` follows. */
  method StartLine(block: Pos, m: Map, seen: set<Pos>) returns (structure: Structure, seen': set<Pos>)
    requires m.Valid() && InBounds(m.tiles, block) && At(m.tiles, block).blocked && block !in seen
    requires |Adjacent(m.tiles, block, seen)| == 1
    ensures Claims(m.tiles, seen, seen', structure.blocks)
    ensures |structure.blocks| >= 2 && structure.blocks[0] == block
    ensures structure.typ != Single && AddsFirst([block], structure.blocks, Adjacent(m.tiles, block, seen))
    ensures Extends([], structure.blocks, seen, seen')
    ensures forall p :: p in seen' && p !in seen && p != block ==> Touching(m.tiles, p)
  {
    structure := Structure([block], Line);
    AdjacentIgnoresSelf(m.tiles, block, seen);
    structure, seen' := ProcessBlock(block, structure, m, seen + {block});
    StartClaims(m.tiles, block, seen, seen + {block}, structure.blocks, seen');
    FixedClaims(block, seen, seen', structure.blocks);
    forall p | p in seen' && p !in seen && p != block
      ensures Touching(m.tiles, p)
    {
      if p in Neighbors4(block) {
        NeighborTouches(m.tiles, block, p);
      }
    }
  }

  /** A block with more than two new neighbours: a `Complex` structure. The neighbours
      are marked seen but not added, and `process_block` continues from each. */
  method StartComplex(block: Pos, m: Map, seen: set<Pos>) returns (structure: Structure, seen': set<Pos>)
    requires m.Valid() && InBounds(m.tiles, block) && At(m.tiles, block).blocked && block !in seen
    requires |Adjacent(m.tiles, block, seen)| > 2
    ensures Claims(m.tiles, seen, seen', structure.blocks)
    ensures |structure.blocks| >= 1 && structure.blocks[0] == block && structure.typ == Complex
    ensures forall a :: a in Adjacent(m.tiles, block, seen) ==> a in seen' && a !in structure.blocks
  {
    var adjacent := AdjacentBlocks(block, m, seen);
    structure := Structure([block], Complex);
    seen' := MarkSeen(seen + {block}, adjacent);
    ghost var seen2 := seen';
    ComplexSeen(m.tiles, block, seen);
    AdjacentSpec(m.tiles, block, seen);
    structure, seen' := ProcessEach(adjacent, structure, m, seen');
    StartClaims(m.tiles, block, seen, seen2, structure.blocks, seen');
    NotOwnAdjacent(m.tiles, block, seen);
  }

  /** Seeing the block and its adjacent blocks sees only blocked cells. */
  lemma ComplexSeen(t: Tiles, block: Pos, seen: set<Pos>)
    requires Valid(t) && InBounds(t, block) && At(t, block).blocked
    ensures SeesBlocks(t, seen, seen + {block} + Elems(Adjacent(t, block, seen)))
  {
    AdjacentSpec(t, block, seen);
  }

  /** A structure that starts with `block` and then extends from `seen1` claims its cells. */
  lemma StartClaims(t: Tiles, block: Pos, seen: set<Pos>, seen1: set<Pos>, blocks: seq<Pos>, seen': set<Pos>)
    requires Valid(t) && block !in seen && block in seen1
    requires SeesBlocks(t, seen, seen1) && SeesBlocks(t, seen1, seen')
    requires Extends([block], blocks, seen1, seen')
    ensures Claims(t, seen, seen', blocks) && |blocks| >= 1 && blocks[0] == block
    ensures forall p :: p in seen1 && p != block ==> p in seen' && p !in blocks
  {
    var rest := blocks[1..];
    assert blocks == [block] + rest;
    assert Elems([block]) == {block};
    NoRepeatsAppend([block], rest);
  }

  /** Cells of different structures never coincide. */
  ghost predicate Disjoint(structures: seq<Structure>)
  {
    forall i, j :: 0 <= i < j < |structures| ==> Elems(structures[i].blocks) !! Elems(structures[j].blocks)
  }

  /** `find_structures`: groups the blocked cells into structures. Every block of every
      structure is a blocked cell of the grid, no structure lists a cell twice, no cell
      belongs to two structures, and each structure's type agrees with its size. Every
      blocked cell with fewer than two blocked 4-neighbours belongs to a structure, and
      one with none is a `Single` of its own. A cell read with two new blocked
      neighbours starts nothing and joins a structure only if one started elsewhere
      reaches it. */
  method FindStructures(m: Map) returns (structures: seq<Structure>)
    requires m.Valid()
    ensures forall k :: 0 <= k < |structures| ==> WellShaped(structures[k]) && NoRepeats(structures[k].blocks)
    ensures forall k, p :: 0 <= k < |structures| && p in structures[k].blocks ==>
      InBounds(m.tiles, p) && At(m.tiles, p).blocked
    ensures Disjoint(structures)
    ensures forall p :: InBounds(m.tiles, p) && At(m.tiles, p).blocked && |Adjacent(m.tiles, p, {})| < 2 ==>
      exists k :: 0 <= k < |structures| && p in structures[k].blocks
    ensures forall p :: InBounds(m.tiles, p) && At(m.tiles, p).blocked && Adjacent(m.tiles, p, {}) == [] ==>
      Structure([p], Single) in structures
  {
    var blocks := CollectBlocks(m);
    structures := [];
    var seen: set<Pos> := {};
    var i := 0;
    while i < |blocks|
      invariant 0 <= i <= |blocks|
      invariant Grouped(m.tiles, seen, structures)
      invariant Covered(m.tiles, blocks, i, seen, structures)
    {
      FirstTimeRead(blocks, i);
      seen, structures := ReadBlock(m, blocks[i], blocks, i, seen, structures);
      i := i + 1;
    }
    GroupedOnGrid(m.tiles, seen, structures);
    CoveredEnd(m.tiles, blocks, seen, structures);
  }

  /** Once every blocked cell has been read, the loop's knowledge covers the grid. */
  lemma CoveredEnd(t: Tiles, blocks: seq<Pos>, seen: set<Pos>, structures: seq<Structure>)
    requires Valid(t) && Covered(t, blocks, |blocks|, seen, structures)
    requires forall p :: p in blocks <==> InBounds(t, p) && At(t, p).blocked
    ensures forall p :: InBounds(t, p) && At(t, p).blocked && |Adjacent(t, p, {})| < 2 ==>
      exists k :: 0 <= k < |structures| && p in structures[k].blocks
    ensures forall p :: InBounds(t, p) && At(t, p).blocked && Adjacent(t, p, {}) == [] ==>
      Structure([p], Single) in structures
  {
    forall p | InBounds(t, p) && At(t, p).blocked
      ensures |Adjacent(t, p, {})| < 2 ==> exists k :: 0 <= k < |structures| && p in structures[k].blocks
      ensures Adjacent(t, p, {}) == [] ==> Structure([p], Single) in structures
    {
      var j :| 0 <= j < |blocks| && blocks[j] == p;
      OwnedMember(structures, p);
    }
  }

  /** The seen cells are blocked cells of the grid, and the structures are well-shaped,
      free of repeats, made of seen cells and pairwise disjoint. */
  ghost predicate Grouped(t: Tiles, seen: set<Pos>, structures: seq<Structure>)
    requires Valid(t)
  {
    && SeesBlocks(t, {}, seen)
    && (forall k :: 0 <= k < |structures| ==>
          WellShaped(structures[k]) && NoRepeats(structures[k].blocks) && Elems(structures[k].blocks) <= seen)
    && Disjoint(structures)
  }

  /** Every block of every structure is a blocked cell of the grid. */
  lemma GroupedOnGrid(t: Tiles, seen: set<Pos>, structures: seq<Structure>)
    requires Valid(t) && Grouped(t, seen, structures)
    ensures forall k :: 0 <= k < |structures| ==> WellShaped(structures[k]) && NoRepeats(structures[k].blocks)
    ensures forall k, p :: 0 <= k < |structures| && p in structures[k].blocks ==> InBounds(t, p) && At(t, p).blocked
    ensures Disjoint(structures)
  {
    forall k, p | 0 <= k < |structures| && p in structures[k].blocks
      ensures InBounds(t, p) && At(t, p).blocked
    {
      assert p in Elems(structures[k].blocks);
    }
  }

  /** The body of the second loop of `find_structures`: a block not seen yet may start a
      structure, which is appended. */
  method ReadBlock(m: Map, block: Pos, ghost blocks: seq<Pos>, ghost i: int, seen: set<Pos>, structures: seq<Structure>)
    returns (seen': set<Pos>, structures': seq<Structure>)
    requires m.Valid() && 0 <= i < |blocks| && block == blocks[i] && block !in blocks[..i]
    requires InBounds(m.tiles, block) && At(m.tiles, block).blocked
    requires Grouped(m.tiles, seen, structures) && Covered(m.tiles, blocks, i, seen, structures)
    ensures Grouped(m.tiles, seen', structures') && Covered(m.tiles, blocks, i + 1, seen', structures')
  {
    seen', structures' := seen, structures;
    if block !in seen {
      var found;
      found, seen' := StartStructure(block, m, seen);
      if found.Some? {
        AppendDisjoint(structures, found.value, seen, seen');
        AppendShaped(structures, found.value, seen, seen');
        structures' := structures + [found.value];
      }
      CoveredStep(m.tiles, blocks, i, Adjacent(m.tiles, block, seen), seen, seen', structures, found, structures');
      SeesTrans(m.tiles, {}, seen, seen');
    } else {
      CoveredSkip(m.tiles, blocks, i, seen, structures);
    }
  }

  /** What the loop of `find_structures` knows after reading `blocks[..i]`: every seen cell
      belongs to a structure and is either read already or touches a blocked cell; every
      cell read with fewer than two blocked neighbours is seen, and one with none is a
      `Single` of its own. */
  ghost predicate Covered(t: Tiles, blocks: seq<Pos>, i: int, seen: set<Pos>, structures: seq<Structure>)
    requires Valid(t) && 0 <= i <= |blocks|
  {
    && seen <= Owned(structures)
    && (forall p :: p in seen ==> p in blocks[..i] || Touching(t, p))
    && (forall j :: 0 <= j < i && |Adjacent(t, blocks[j], {})| < 2 ==> blocks[j] in seen)
    && (forall j :: 0 <= j < i && Adjacent(t, blocks[j], {}) == [] ==> Structure([blocks[j]], Single) in structures)
  }

  /** A block read when already seen keeps the loop's knowledge. */
  lemma CoveredSkip(t: Tiles, blocks: seq<Pos>, i: int, seen: set<Pos>, structures: seq<Structure>)
    requires Valid(t) && 0 <= i < |blocks| && Covered(t, blocks, i, seen, structures)
    requires blocks[i] in seen && blocks[i] !in blocks[..i]
    ensures Covered(t, blocks, i + 1, seen, structures)
  {
    assert blocks[..i + 1] == blocks[..i] + [blocks[i]];
  }

  /** Starting from an unseen block keeps the loop's knowledge. */
  lemma CoveredStep(t: Tiles, blocks: seq<Pos>, i: int, adj: seq<Pos>, seen: set<Pos>, seen': set<Pos>,
                    structures: seq<Structure>, found: Option<Structure>, structures': seq<Structure>)
    requires Valid(t) && 0 <= i < |blocks| && Covered(t, blocks, i, seen, structures)
    requires blocks[i] !in seen && seen <= seen' && adj == Adjacent(t, blocks[i], seen)
    requires && (found.Some? <==> |adj| != 2)
      && (found.None? ==> seen' == seen)
      && (found.Some? ==> found.value.blocks != [] && found.value.blocks[0] == blocks[i] &&
                          Elems(found.value.blocks) == seen' - seen)
      && (forall p :: p in seen' && p !in seen && p != blocks[i] ==> Touching(t, p))
      && (adj == [] ==> found == Some(Structure([blocks[i]], Single)))
    requires structures' == if found.Some? then structures + [found.value] else structures
    ensures Covered(t, blocks, i + 1, seen', structures')
  {
    var block := blocks[i];
    FewerSeen(t, block, seen);
    assert blocks[..i + 1] == blocks[..i] + [block];
    if found.Some? {
      AppendCovers(structures, found.value, seen, seen');
    }
    forall p | p in seen'
      ensures p in blocks[..i + 1] || Touching(t, p)
    {
      if p in seen {
        assert p in blocks[..i] || Touching(t, p);
      }
    }
    forall j | 0 <= j < i + 1 && |Adjacent(t, blocks[j], {})| < 2
      ensures blocks[j] in seen'
    {
      if j == i {
        assert found.Some?;
        assert block in Elems(found.value.blocks);
      }
    }
    forall j | 0 <= j < i + 1 && Adjacent(t, blocks[j], {}) == []
      ensures Structure([blocks[j]], Single) in structures'
    {
      if j < i {
        var k :| 0 <= k < |structures| && structures[k] == Structure([blocks[j]], Single);
        assert structures'[k] == structures[k];
      } else {
        assert structures'[|structures|] == Structure([block], Single);
      }
    }
  }

  /** The cells read before position `i` of a row-major list do not include its `i`-th cell. */
  lemma FirstTimeRead(blocks: seq<Pos>, i: int)
    requires 0 <= i < |blocks| && RowMajor(blocks)
    ensures blocks[i] !in blocks[..i]
  {
    forall j | 0 <= j < i
      ensures blocks[..i][j] != blocks[i]
    {
      assert RowMajorBefore(blocks[j], blocks[i]);
    }
  }

  /** Seeing more cells never gives a cell more new neighbours: none stays none, and two
      new ones mean at least two blocked neighbours. */
  lemma FewerSeen(t: Tiles, p: Pos, seen: set<Pos>)
    requires Valid(t)
    ensures Adjacent(t, p, {}) == [] ==> Adjacent(t, p, seen) == []
    ensures |Adjacent(t, p, seen)| == 2 ==> |Adjacent(t, p, {})| >= 2
  {
    AdjacentSpec(t, p, seen);
    AdjacentSpec(t, p, {});
    var adj := Adjacent(t, p, seen);
    if adj != [] {
      assert adj[0] in adj;
    }
    if |adj| == 2 {
      assert adj[0] in adj && adj[1] in adj && adj[0] != adj[1];
      var all := Adjacent(t, p, {});
      assert adj[0] in all && adj[1] in all;
    }
  }

  /** Appending a well-shaped structure of newly seen cells keeps every structure
      well-shaped, free of repeats and made of seen cells. */
  lemma AppendShaped(structures: seq<Structure>, s: Structure, seen: set<Pos>, seen': set<Pos>)
    requires forall k :: 0 <= k < |structures| ==>
      WellShaped(structures[k]) && NoRepeats(structures[k].blocks) && Elems(structures[k].blocks) <= seen
    requires WellShaped(s) && NoRepeats(s.blocks) && Elems(s.blocks) <= seen' && seen <= seen'
    ensures forall k :: 0 <= k < |structures + [s]| ==>
      WellShaped((structures + [s])[k]) && NoRepeats((structures + [s])[k].blocks) &&
      Elems((structures + [s])[k].blocks) <= seen'
  {
  }

  /** The cells of all the structures. */
  ghost function Owned(structures: seq<Structure>): set<Pos>
    decreases |structures|
  {
    if structures == [] then {}
    else Owned(structures[..|structures| - 1]) + Elems(structures[|structures| - 1].blocks)
  }

  /** A cell is owned exactly when some structure lists it. */
  lemma {:induction false} OwnedMember(structures: seq<Structure>, p: Pos)
    ensures p in Owned(structures) <==> exists k :: 0 <= k < |structures| && p in structures[k].blocks
    decreases |structures|
  {
    if structures != [] {
      var n := |structures| - 1;
      OwnedMember(structures[..n], p);
      if exists k :: 0 <= k < |structures| && p in structures[k].blocks {
        var k :| 0 <= k < |structures| && p in structures[k].blocks;
        if k < n {
          assert structures[..n][k] == structures[k];
        }
      }
    }
  }

  /** Appending a structure made of exactly the newly seen cells keeps every seen cell
      owned by some structure. */
  lemma AppendCovers(structures: seq<Structure>, s: Structure, seen: set<Pos>, seen': set<Pos>)
    requires seen <= Owned(structures) && Elems(s.blocks) == seen' - seen
    ensures seen' <= Owned(structures + [s])
  {
    assert (structures + [s])[..|structures|] == structures;
  }


  /** A structure made of newly seen cells is disjoint from those made of cells seen before. */
  lemma AppendDisjoint(structures: seq<Structure>, s: Structure, seen: set<Pos>, seen': set<Pos>)
    requires Disjoint(structures) && forall k :: 0 <= k < |structures| ==> Elems(structures[k].blocks) <= seen
    requires seen <= seen' && Elems(s.blocks) <= seen' - seen
    ensures Disjoint(structures + [s])
  {
    var ss := structures + [s];
    forall i, j | 0 <= i < j < |ss|
      ensures Elems(ss[i].blocks) !! Elems(ss[j].blocks)
    {
      if j == |structures| {
        assert Elems(ss[i].blocks) <= seen;
      } else {
        assert ss[i] == structures[i] && ss[j] == structures[j];
      }
    }
  }

  // ---------------------------------------------------------------------------
  // The complex start, corrected

  /** A complex start that also adds the adjacent blocks to the structure, as
      `process_block` does with the neighbours it marks seen: every cell it marks
      seen then belongs to the structure. */
  method StartComplexFixed(block: Pos, m: Map, seen: set<Pos>) returns (structure: Structure, seen': set<Pos>)
    requires m.Valid() && InBounds(m.tiles, block) && At(m.tiles, block).blocked && block !in seen
    requires |Adjacent(m.tiles, block, seen)| > 2
    ensures SeesBlocks(m.tiles, seen, seen') && Extends([], structure.blocks, seen, seen')
    ensures |structure.blocks| >= 1 && structure.blocks[0] == block && structure.typ == Complex
    ensures AddsFirst([block], structure.blocks, Adjacent(m.tiles, block, seen))
    ensures forall p :: p in seen' && p !in seen && p != block ==> Touching(m.tiles, p)
  {
    var adjacent := AdjacentBlocks(block, m, seen);
    structure := Structure([block], Complex);
    AdjacentIgnoresSelf(m.tiles, block, seen);
    FirstExtends(m.tiles, [block], block, seen + {block});
    structure, seen' := AddBlocks(structure, seen + {block}, adjacent);
    ghost var seen2 := seen';
    ComplexSeen(m.tiles, block, seen);
    AdjacentSpec(m.tiles, block, seen);
    structure, seen' := ProcessEach(adjacent, structure, m, seen');
    ComplexTouches(m.tiles, block, seen, seen2, seen');
    ExtendsTrans([block], [block] + adjacent, structure.blocks, seen + {block}, seen2, seen');
    StartClaims(m.tiles, block, seen, seen + {block}, structure.blocks, seen');
    FixedClaims(block, seen, seen', structure.blocks);
    SliceAfter([block], adjacent, structure.blocks);
  }

  /** Seeing the adjacent blocks of a blocked cell, and then cells that touch a blocked
      cell, sees only cells that touch a blocked cell besides the block itself. */
  lemma ComplexTouches(t: Tiles, block: Pos, seen: set<Pos>, seen2: set<Pos>, seen': set<Pos>)
    requires Valid(t) && InBounds(t, block) && At(t, block).blocked
    requires seen2 == seen + {block} + Elems(Adjacent(t, block, seen))
    requires forall p :: p in seen' && p !in seen2 ==> Touching(t, p)
    ensures forall p :: p in seen' && p !in seen && p != block ==> Touching(t, p)
  {
    AdjacentSpec(t, block, seen);
    forall p | p in seen' && p !in seen && p != block
      ensures Touching(t, p)
    {
      if p in seen2 {
        NeighborTouches(t, block, p);
      }
    }
  }

  /** A structure that starts with the newly seen `block` and extends from there holds
      exactly the newly seen cells. */
  lemma FixedClaims(block: Pos, seen: set<Pos>, seen': set<Pos>, blocks: seq<Pos>)
    requires block !in seen && seen + {block} <= seen'
    requires Extends([block], blocks, seen + {block}, seen')
    ensures Extends([], blocks, seen, seen')
  {
    var rest := blocks[1..];
    assert blocks == [block] + rest;
    assert Elems([block]) == {block};
    NoRepeatsAppend([block], rest);
    assert blocks[0..] == blocks;
  }

  // ---------------------------------------------------------------------------
  // The cases of `test_adjacent_blocks`

  /** A 5 by 5 grid with a plus sign of walls centred on (2, 2). */
  function PlusGrid(): (r: Tiles)
    ensures Valid(r) && Width(r) == 5 && Height(r) == 5
  {
    var g := FromDims(5, 5);
    var g := SetTile(g, Pos(2, 2), WallTile());
    var g := SetTile(g, Pos(1, 2), WallTile());
    var g := SetTile(g, Pos(2, 1), WallTile());
    var g := SetTile(g, Pos(3, 2), WallTile());
    SetTile(g, Pos(2, 3), WallTile())
  }

  lemma PlusGridBlocked(p: Pos)
    requires InBounds(PlusGrid(), p)
    ensures At(PlusGrid(), p).blocked <==> p in {Pos(2, 2), Pos(1, 2), Pos(2, 1), Pos(3, 2), Pos(2, 3)}
  {
  }

  function KeepIfNew(t: Tiles, p: Pos, seen: set<Pos>): seq<Pos>
    requires Valid(t)
  {
    if NewBlock(t, p, seen) then [p] else []
  }

  /** `adjacent_blocks` written out neighbour by neighbour. */
  lemma AdjacentUnfold(t: Tiles, block: Pos, seen: set<Pos>)
    requires Valid(t)
    ensures Adjacent(t, block, seen) ==
      KeepIfNew(t, MoveX(block, 1), seen) + KeepIfNew(t, MoveY(block, 1), seen) +
      KeepIfNew(t, MoveX(block, -1), seen) + KeepIfNew(t, MoveY(block, -1), seen)
  {
    var c := Neighbors4(block);
    assert NewBlocks(t, c[..1], seen) == KeepIfNew(t, c[0], seen) by { assert c[..1][..0] == []; }
    assert NewBlocks(t, c[..2], seen) == NewBlocks(t, c[..1], seen) + KeepIfNew(t, c[1], seen) by {
      assert c[..2][..1] == c[..1];
    }
    assert NewBlocks(t, c[..3], seen) == NewBlocks(t, c[..2], seen) + KeepIfNew(t, c[2], seen) by {
      assert c[..3][..2] == c[..2];
    }
    assert c[..4] == c && c[..4][..3] == c[..3];
  }

  lemma AdjacentOfCentre()
    ensures Adjacent(PlusGrid(), Pos(2, 2), {}) == [Pos(3, 2), Pos(2, 3), Pos(1, 2), Pos(2, 1)]
  {
    AdjacentUnfold(PlusGrid(), Pos(2, 2), {});
    PlusGridBlocked(Pos(3, 2));
    PlusGridBlocked(Pos(2, 3));
    PlusGridBlocked(Pos(1, 2));
    PlusGridBlocked(Pos(2, 1));
  }

  lemma AdjacentOfCentreSeen()
    ensures Adjacent(PlusGrid(), Pos(2, 2), {Pos(1, 2)}) == [Pos(3, 2), Pos(2, 3), Pos(2, 1)]
  {
    AdjacentUnfold(PlusGrid(), Pos(2, 2), {Pos(1, 2)});
    PlusGridBlocked(Pos(3, 2));
    PlusGridBlocked(Pos(2, 3));
    PlusGridBlocked(Pos(2, 1));
  }

  lemma AdjacentOfCorner()
    ensures Adjacent(PlusGrid(), Pos(1, 1), {}) == [Pos(2, 1), Pos(1, 2)]
  {
    AdjacentUnfold(PlusGrid(), Pos(1, 1), {});
    PlusGridBlocked(Pos(2, 1));
    PlusGridBlocked(Pos(1, 2));
    PlusGridBlocked(Pos(0, 1));
    PlusGridBlocked(Pos(1, 0));
  }

  lemma AdjacentOfArm()
    ensures Adjacent(PlusGrid(), Pos(2, 1), {}) == [Pos(2, 2)]
  {
    AdjacentUnfold(PlusGrid(), Pos(2, 1), {});
    PlusGridBlocked(Pos(3, 1));
    PlusGridBlocked(Pos(2, 2));
    PlusGridBlocked(Pos(1, 1));
    PlusGridBlocked(Pos(2, 0));
  }

  // ---------------------------------------------------------------------------
  // A grid where `find_structures` takes the complex start

  /** A 5 by 5 grid with walls at (0, 1), (1, 1), (2, 1), (1, 2) and (0, 2). */
  function HookGrid(): (r: Tiles)
    ensures Valid(r) && Width(r) == 5 && Height(r) == 5
  {
    var g := FromDims(5, 5);
    var g := SetTile(g, Pos(0, 1), WallTile());
    var g := SetTile(g, Pos(1, 1), WallTile());
    var g := SetTile(g, Pos(2, 1), WallTile());
    var g := SetTile(g, Pos(1, 2), WallTile());
    SetTile(g, Pos(0, 2), WallTile())
  }

  lemma HookGridBlocked(p: Pos)
    requires InBounds(HookGrid(), p)
    ensures At(HookGrid(), p).blocked <==> p in {Pos(0, 1), Pos(1, 1), Pos(2, 1), Pos(1, 2), Pos(0, 2)}
  {
  }

  /** Read row by row, the blocked cells start with (0, 1) and then (1, 1). */
  lemma HookOrder()
    ensures forall p :: InBounds(HookGrid(), p) && At(HookGrid(), p).blocked && p != Pos(0, 1) ==>
      RowMajorBefore(Pos(0, 1), p) && (p == Pos(1, 1) || RowMajorBefore(Pos(1, 1), p))
  {
    forall p | InBounds(HookGrid(), p) && At(HookGrid(), p).blocked
      ensures p in {Pos(0, 1), Pos(1, 1), Pos(2, 1), Pos(1, 2), Pos(0, 2)}
    {
      HookGridBlocked(p);
    }
  }

  /** The first blocked cell (0, 1) has two new neighbours and starts nothing. */
  lemma HookFirstSkipped()
    ensures Adjacent(HookGrid(), Pos(0, 1), {}) == [Pos(1, 1), Pos(0, 2)]
  {
    AdjacentUnfold(HookGrid(), Pos(0, 1), {});
    HookGridBlocked(Pos(1, 1));
    HookGridBlocked(Pos(0, 2));
    HookGridBlocked(Pos(0, 0));
  }

  /** So the second, (1, 1), is reached with nothing seen; it has three new neighbours
      and takes the complex start, which leaves (2, 1), (1, 2) and (0, 1) seen but
      outside every structure. */
  lemma HookSecondComplex()
    ensures Adjacent(HookGrid(), Pos(1, 1), {}) == [Pos(2, 1), Pos(1, 2), Pos(0, 1)]
  {
    AdjacentUnfold(HookGrid(), Pos(1, 1), {});
    HookGridBlocked(Pos(2, 1));
    HookGridBlocked(Pos(1, 2));
    HookGridBlocked(Pos(0, 1));
    HookGridBlocked(Pos(1, 0));
  }
}

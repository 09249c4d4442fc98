/** What `floodfill` computes (roguelike_core/src/map.rs), as functions that follow
    its three nested loops: rounds, the cells found in the previous round, and the
    neighbours of each. */
module Flood {
  import opened Types
  import opened Lines
  import opened Utils
  import opened MapTiles
  import opened Blocking

  function Firsts(ps: seq<(Pos, int)>): (r: seq<Pos>)
    ensures |r| == |ps| && forall i :: 0 <= i < |ps| ==> r[i] == ps[i].0
  {
    seq(|ps|, i requires 0 <= i < |ps| => ps[i].0)
  }

  /** The cells `astar_neighbors` offers from `pos`, bounded by `radius` around `start`.
      Off-grid cells with a diagonal neighbour on the grid are never reached. */
  function FloodNeighbors(t: Tiles, start: Pos, pos: Pos, radius: nat): seq<Pos>
    requires Valid(t)
  {
    if OffsetsOk(t, pos, NeighborOffsets()) then Firsts(AstarNeighbors(t, start, pos, Some(radius))) else []
  }

  /** `seen` followed by each cell of `cands` that is not yet in it, in order. */
  function AddUnseen(seen: seq<Pos>, cands: seq<Pos>): seq<Pos>
    decreases |cands|
  {
    if cands == [] then seen
    else AddUnseen(if cands[0] in seen then seen else seen + [cands[0]], cands[1..])
  }

  /** One round: the unseen neighbours of each cell of `last`, appended in order. */
  function FloodRound(t: Tiles, start: Pos, radius: nat, last: seq<Pos>, seen: seq<Pos>): seq<Pos>
    requires Valid(t)
    decreases |last|
  {
    if last == [] then seen
    else FloodRound(t, start, radius, last[1..], AddUnseen(seen, FloodNeighbors(t, start, last[0], radius)))
  }

  /** `rounds` more rounds, each starting from the cells the previous one added. */
  function FloodRounds(t: Tiles, start: Pos, radius: nat, rounds: nat, seen: seq<Pos>, current: seq<Pos>): (r: seq<Pos>)
    requires Valid(t)
    ensures |r| >= |seen| && r[..|seen|] == seen
    decreases rounds
  {
    if rounds == 0 then seen
    else
      var next := FloodRound(t, start, radius, current, seen);
      FloodRoundGrows(t, start, radius, current, seen);
      FloodRounds(t, start, radius, rounds - 1, next, next[|seen|..])
  }

  /** `floodfill`: the start cell comes first, and later rounds only ever append. */
  function Flood(t: Tiles, start: Pos, radius: nat): (r: seq<Pos>)
    requires Valid(t)
    ensures |r| >= 1 && r[0] == start
  {
    FloodRounds(t, start, radius, radius, [start], [start])
  }

  /** The inner loop of `floodfill`: each offered cell not yet seen is appended to
      `seen`, and `added` lists them in the same order. */
  method PushUnseen(seen: seq<Pos>, adj: seq<(Pos, int)>) returns (seen': seq<Pos>, added: seq<Pos>)
    ensures seen' == AddUnseen(seen, Firsts(adj))
    ensures |seen'| >= |seen| && added == seen'[|seen|..]
  {
    seen' := seen;
    added := [];
    var k := 0;
    while k < |adj|
      invariant 0 <= k <= |adj|
      invariant |seen'| >= |seen| && added == seen'[|seen|..]
      invariant AddUnseen(seen', Firsts(adj)[k..]) == AddUnseen(seen, Firsts(adj))
    {
      var next := adj[k].0;
      assert Firsts(adj)[k..] == [next] + Firsts(adj)[k + 1..];
      if next !in seen' {
        seen' := seen' + [next];
        added := added + [next];
      }
      k := k + 1;
    }
    assert Firsts(adj)[k..] == [];
  }

  lemma FloodRoundsUnfold(t: Tiles, start: Pos, radius: nat, rounds: nat, seen: seq<Pos>, current: seq<Pos>)
    requires Valid(t) && rounds > 0
    ensures |FloodRound(t, start, radius, current, seen)| >= |seen|
    ensures FloodRounds(t, start, radius, rounds, seen, current) ==
      FloodRounds(t, start, radius, rounds - 1, FloodRound(t, start, radius, current, seen),
                  FloodRound(t, start, radius, current, seen)[|seen|..])
  {
    FloodRoundGrows(t, start, radius, current, seen);
  }

  lemma FloodRoundUnfold(t: Tiles, start: Pos, radius: nat, last: seq<Pos>, j: nat, seen: seq<Pos>)
    requires Valid(t) && j < |last|
    ensures FloodRound(t, start, radius, last[j..], seen) ==
      FloodRound(t, start, radius, last[j + 1..], AddUnseen(seen, FloodNeighbors(t, start, last[j], radius)))
  {
    assert last[j..][1..] == last[j + 1..];
  }

  /** Appending what a longer list adds after a prefix keeps the new cells its suffix. */
  lemma SuffixExtend(s: seq<Pos>, mid: seq<Pos>, s': seq<Pos>, added: seq<Pos>, n: nat)
    requires n <= |mid| <= |s'| && s'[..|mid|] == mid && s == mid[n..] && added == s'[|mid|..]
    ensures s + added == s'[n..]
  {
    assert s' == mid + added;
  }

  lemma SuffixIn(s: seq<Pos>, n: nat)
    requires n <= |s|
    ensures forall p :: p in s[n..] ==> p in s
  {
    forall p | p in s[n..]
      ensures p in s
    {
      var k :| 0 <= k < |s[n..]| && s[n..][k] == p;
      assert s[n + k] == p;
    }
  }

  // ---------------------------------------------------------------------------
  // Properties

  ghost predicate Distinct(s: seq<Pos>)
  {
    forall i, j :: 0 <= i < j < |s| ==> s[i] != s[j]
  }

  /** `p` is offered as a neighbour of some cell of `last`. */
  ghost predicate OfferedBy(t: Tiles, start: Pos, radius: nat, last: seq<Pos>, p: Pos)
    requires Valid(t)
  {
    exists q :: q in last && p in FloodNeighbors(t, start, q, radius)
  }

  /** `s[k]` is a reachable neighbour of an earlier cell of `s`. */
  ghost predicate FromEarlier(t: Tiles, s: seq<Pos>, k: int)
    requires Valid(t) && 0 <= k < |s|
  {
    exists j :: 0 <= j < k && Reaches(t, s[j], s[k])
  }

  /** `b` is among the reachable neighbours of `a`. */
  predicate Reaches(t: Tiles, a: Pos, b: Pos)
    requires Valid(t)
  {
    OffsetsOk(t, a, NeighborOffsets()) && b in ReachableNeighbors(t, a)
  }

  lemma FloodNeighborsSpec(t: Tiles, start: Pos, pos: Pos, radius: nat, p: Pos)
    requires Valid(t) && p in FloodNeighbors(t, start, pos, radius)
    ensures Reaches(t, pos, p)
    ensures InBounds(t, p) && !At(t, p).blocked && Cheb(pos, p) == 1
    ensures Distance(start, pos) <= radius
  {
    var adj := AstarNeighbors(t, start, pos, Some(radius));
    AstarNeighborsSpec(t, start, pos, Some(radius));
    var i :| 0 <= i < |adj| && Firsts(adj)[i] == p;
    assert p == ReachableNeighbors(t, pos)[i];
    ReachableNeighborsSpec(t, pos, p);
  }

  lemma FloodNeighborsOnGrid(t: Tiles, start: Pos, pos: Pos, radius: nat)
    requires Valid(t) && OffsetsOk(t, pos, NeighborOffsets())
    ensures FloodNeighbors(t, start, pos, radius) == Firsts(AstarNeighbors(t, start, pos, Some(radius)))
    ensures forall p :: p in FloodNeighbors(t, start, pos, radius) ==> InBounds(t, p)
  {
    forall p | p in FloodNeighbors(t, start, pos, radius)
      ensures InBounds(t, p)
    {
      FloodNeighborsSpec(t, start, pos, radius, p);
    }
  }

  lemma {:induction false} AddUnseenSpec(seen: seq<Pos>, cands: seq<Pos>)
    ensures |AddUnseen(seen, cands)| >= |seen| && AddUnseen(seen, cands)[..|seen|] == seen
    ensures forall p :: p in AddUnseen(seen, cands) ==> p in seen || p in cands
    ensures forall p :: p in cands ==> p in AddUnseen(seen, cands)
    ensures Distinct(seen) ==> Distinct(AddUnseen(seen, cands))
    decreases |cands|
  {
    if cands != [] {
      var next := if cands[0] in seen then seen else seen + [cands[0]];
      AddUnseenSpec(next, cands[1..]);
      assert next[..|seen|] == seen;
      var r := AddUnseen(next, cands[1..]);
      assert r[..|seen|] == r[..|next|][..|seen|];
      forall p | p in cands
        ensures p in r
      {
        if p != cands[0] {
          assert p in cands[1..];
        }
      }
    }
  }

  lemma {:induction false} FloodRoundSpec(t: Tiles, start: Pos, radius: nat, last: seq<Pos>, seen: seq<Pos>)
    requires Valid(t)
    ensures |FloodRound(t, start, radius, last, seen)| >= |seen|
    ensures FloodRound(t, start, radius, last, seen)[..|seen|] == seen
    ensures forall p :: p in FloodRound(t, start, radius, last, seen) ==> p in seen || OfferedBy(t, start, radius, last, p)
    ensures Distinct(seen) ==> Distinct(FloodRound(t, start, radius, last, seen))
    ensures forall q, p :: q in last && p in FloodNeighbors(t, start, q, radius) ==>
      p in FloodRound(t, start, radius, last, seen)
    decreases |last|
  {
    if last != [] {
      var next := AddUnseen(seen, FloodNeighbors(t, start, last[0], radius));
      AddUnseenSpec(seen, FloodNeighbors(t, start, last[0], radius));
      FloodRoundSpec(t, start, radius, last[1..], next);
      var r := FloodRound(t, start, radius, last[1..], next);
      PrefixTrans(seen, next, r);
      OfferedStep(t, start, radius, last, seen, next, r);
      forall q, p | q in last && p in FloodNeighbors(t, start, q, radius)
        ensures p in r
      {
        if q == last[0] {
          PrefixIn(next, r, p);
        } else {
          assert q in last[1..];
        }
      }
    }
  }

  lemma PrefixIn(a: seq<Pos>, b: seq<Pos>, p: Pos)
    requires |b| >= |a| && b[..|a|] == a && p in a
    ensures p in b
  {
    var k :| 0 <= k < |a| && a[k] == p;
    assert b[k] == p;
  }

  lemma PrefixTrans(a: seq<Pos>, b: seq<Pos>, c: seq<Pos>)
    requires |b| >= |a| && b[..|a|] == a && |c| >= |b| && c[..|b|] == b
    ensures |c| >= |a| && c[..|a|] == a
  {
    assert c[..|a|] == c[..|b|][..|a|];
  }

  /** A cell offered by the first cell of `last`, or by one of the others, is offered by `last`. */
  lemma OfferedStep(t: Tiles, start: Pos, radius: nat, last: seq<Pos>, seen: seq<Pos>, next: seq<Pos>, r: seq<Pos>)
    requires Valid(t) && last != []
    requires forall p :: p in next ==> p in seen || p in FloodNeighbors(t, start, last[0], radius)
    requires forall p :: p in r ==> p in next || OfferedBy(t, start, radius, last[1..], p)
    ensures forall p :: p in r ==> p in seen || OfferedBy(t, start, radius, last, p)
  {
    forall p | p in r
      ensures p in seen || OfferedBy(t, start, radius, last, p)
    {
      if p !in seen && p in next {
        assert p in FloodNeighbors(t, start, last[0], radius);
      } else if p !in next {
        var q :| q in last[1..] && p in FloodNeighbors(t, start, q, radius);
        assert q in last;
      }
    }
  }

  lemma FloodRoundGrows(t: Tiles, start: Pos, radius: nat, last: seq<Pos>, seen: seq<Pos>)
    requires Valid(t)
    ensures |FloodRound(t, start, radius, last, seen)| >= |seen|
    ensures FloodRound(t, start, radius, last, seen)[..|seen|] == seen
  {
    FloodRoundSpec(t, start, radius, last, seen);
  }

  /** What the cells found so far satisfy after `done` rounds. */
  ghost predicate FloodOk(t: Tiles, start: Pos, seen: seq<Pos>, done: nat)
    requires Valid(t)
  {
    && |seen| >= 1 && seen[0] == start
    && Distinct(seen)
    && (forall k :: 1 <= k < |seen| ==> FromEarlier(t, seen, k))
    && (forall p :: p in seen ==> Cheb(start, p) <= done)
    && (forall p :: p in seen ==> p == start || InBounds(t, p))
  }

  /** A new cell offered by a cell found earlier stays one step further out. */
  lemma NewCellOk(t: Tiles, start: Pos, radius: nat, seen: seq<Pos>, next: seq<Pos>, q: Pos, k: int, done: nat)
    requires Valid(t) && FloodOk(t, start, seen, done)
    requires |seen| <= k < |next| && next[..|seen|] == seen
    requires q in seen && next[k] in FloodNeighbors(t, start, q, radius)
    ensures FromEarlier(t, next, k) && Cheb(start, next[k]) <= done + 1 && InBounds(t, next[k])
  {
    FloodNeighborsSpec(t, start, q, radius, next[k]);
    var j :| 0 <= j < |seen| && seen[j] == q;
    assert next[j] == q;
  }

  /** An old cell keeps its facts in the longer list. */
  lemma OldCellOk(t: Tiles, start: Pos, seen: seq<Pos>, next: seq<Pos>, k: int, done: nat)
    requires Valid(t) && FloodOk(t, start, seen, done)
    requires 1 <= k < |seen| <= |next| && next[..|seen|] == seen
    ensures FromEarlier(t, next, k)
  {
    assert next[k] == seen[k];
    assert FromEarlier(t, seen, k);
    var j :| 0 <= j < k && Reaches(t, seen[j], seen[k]);
    assert next[j] == seen[j];
  }

  lemma NotInPrefix(seen: seq<Pos>, next: seq<Pos>, k: int)
    requires |seen| <= k < |next| && next[..|seen|] == seen && Distinct(next)
    ensures next[k] !in seen
  {
    forall j | 0 <= j < |seen|
      ensures seen[j] != next[k]
    {
      assert next[j] == seen[j];
    }
  }

  /** Appending distinct cells, each offered by a cell of `last`, keeps `FloodOk` one step further out. */
  lemma ExtendOk(t: Tiles, start: Pos, radius: nat, last: seq<Pos>, seen: seq<Pos>, next: seq<Pos>, done: nat)
    requires Valid(t) && FloodOk(t, start, seen, done)
    requires forall p :: p in last ==> p in seen
    requires |next| >= |seen| && next[..|seen|] == seen && Distinct(next)
    requires forall p :: p in next ==> p in seen || OfferedBy(t, start, radius, last, p)
    ensures FloodOk(t, start, next, done + 1)
  {
    forall k | 1 <= k < |next|
      ensures FromEarlier(t, next, k)
      ensures Cheb(start, next[k]) <= done + 1
      ensures next[k] == start || InBounds(t, next[k])
    {
      if k < |seen| {
        OldCellOk(t, start, seen, next, k, done);
        assert next[k] == seen[k];
        assert seen[k] in seen;
      } else {
        NotInPrefix(seen, next, k);
        assert next[k] in next;
        var q :| q in last && next[k] in FloodNeighbors(t, start, q, radius);
        NewCellOk(t, start, radius, seen, next, q, k, done);
      }
    }
    forall p | p in next
      ensures Cheb(start, p) <= done + 1 && (p == start || InBounds(t, p))
    {
      var k :| 0 <= k < |next| && next[k] == p;
      if k == 0 {
        assert next[0] == seen[0];
      }
    }
  }

  /** One round keeps `FloodOk`, one step further out. */
  lemma FloodRoundStep(t: Tiles, start: Pos, radius: nat, last: seq<Pos>, seen: seq<Pos>, done: nat)
    requires Valid(t) && FloodOk(t, start, seen, done)
    requires forall p :: p in last ==> p in seen
    ensures FloodOk(t, start, FloodRound(t, start, radius, last, seen), done + 1)
  {
    FloodRoundSpec(t, start, radius, last, seen);
    ExtendOk(t, start, radius, last, seen, FloodRound(t, start, radius, last, seen), done);
  }

  lemma {:induction false} FloodRoundsOk(t: Tiles, start: Pos, radius: nat, rounds: nat, seen: seq<Pos>, current: seq<Pos>, done: nat)
    requires Valid(t) && FloodOk(t, start, seen, done)
    requires forall p :: p in current ==> p in seen
    ensures FloodOk(t, start, FloodRounds(t, start, radius, rounds, seen, current), done + rounds)
    decreases rounds
  {
    if rounds > 0 {
      var next := FloodRound(t, start, radius, current, seen);
      FloodRoundStep(t, start, radius, current, seen, done);
      FloodRoundGrows(t, start, radius, current, seen);
      SuffixIn(next, |seen|);
      FloodRoundsOk(t, start, radius, rounds - 1, next, next[|seen|..], done + 1);
    }
  }

  /** `floodfill` lists `start` first, never repeats a cell, reaches each later cell from
      an earlier one in one unblocked step, and stays within `radius` steps of `start`. */
  lemma FloodSpec(t: Tiles, start: Pos, radius: nat)
    requires Valid(t)
    ensures FloodOk(t, start, Flood(t, start, radius), radius)
  {
    FloodRoundsOk(t, start, radius, radius, [start], [start], 0);
  }

  /** The cells found after the first `k` rounds of a fill of radius `radius`. */
  function FloodAfter(t: Tiles, start: Pos, radius: nat, k: nat): seq<Pos>
    requires Valid(t)
  {
    FloodRounds(t, start, radius, k, [start], [start])
  }

  /** A round's list is the old list followed by the cells it adds. */
  lemma SplitRound(seen: seq<Pos>, next: seq<Pos>, q: Pos)
    requires |next| >= |seen| && next[..|seen|] == seen && q in next && q !in next[|seen|..]
    ensures q in seen
  {
    assert next == seen + next[|seen|..];
  }

  /** Every cell of `seen` outside the frontier `current` has its offered cells in `seen`. */
  ghost predicate ClosedOutside(t: Tiles, start: Pos, radius: nat, seen: seq<Pos>, current: seq<Pos>)
    requires Valid(t)
  {
    forall q, p :: q in seen && q !in current && p in FloodNeighbors(t, start, q, radius) ==> p in seen
  }

  /** After a round, every cell found before it has its offered cells found, and only
      the cells the round added can still offer new ones. */
  lemma RoundCloses(t: Tiles, start: Pos, radius: nat, seen: seq<Pos>, current: seq<Pos>)
    requires Valid(t) && ClosedOutside(t, start, radius, seen, current)
    ensures var next := FloodRound(t, start, radius, current, seen);
      && |next| >= |seen|
      && (forall q, p :: q in seen && p in FloodNeighbors(t, start, q, radius) ==> p in next)
      && (forall q :: q in next[|seen|..] ==> q in next)
      && ClosedOutside(t, start, radius, next, next[|seen|..])
  {
    var next := FloodRound(t, start, radius, current, seen);
    FloodRoundSpec(t, start, radius, current, seen);
    var added := next[|seen|..];
    forall q, p | q in seen && p in FloodNeighbors(t, start, q, radius)
      ensures p in next
    {
      if q !in current {
        PrefixIn(seen, next, p);
      }
    }
    forall q, p | q in next && q !in added && p in FloodNeighbors(t, start, q, radius)
      ensures p in next
    {
      SplitRound(seen, next, q);
    }
    SuffixIn(next, |seen|);
  }

  /** If every cell of `seen` outside the frontier `current` already has its offered
      cells in `seen`, then `rounds` rounds find every cell offered by a cell found in
      the first `rounds - 1` of them. */
  lemma {:induction false} FloodRoundsClosed(t: Tiles, start: Pos, radius: nat, rounds: nat, seen: seq<Pos>, current: seq<Pos>)
    requires Valid(t) && rounds >= 1
    requires ClosedOutside(t, start, radius, seen, current)
    ensures forall q, p ::
      q in FloodRounds(t, start, radius, rounds - 1, seen, current) && p in FloodNeighbors(t, start, q, radius)
      ==> p in FloodRounds(t, start, radius, rounds, seen, current)
    decreases rounds
  {
    var next := FloodRound(t, start, radius, current, seen);
    RoundCloses(t, start, radius, seen, current);
    FloodRoundsUnfold(t, start, radius, rounds, seen, current);
    if rounds > 1 {
      FloodRoundsClosed(t, start, radius, rounds - 1, next, next[|seen|..]);
      FloodRoundsUnfold(t, start, radius, rounds - 1, seen, current);
    }
  }

  /** `floodfill` is complete: every cell that a cell found before the last round offers
      as a reachable neighbour is in the fill. */
  lemma FloodComplete(t: Tiles, start: Pos, radius: nat)
    requires Valid(t) && radius >= 1
    ensures forall q, p ::
      q in FloodAfter(t, start, radius, radius - 1) && p in FloodNeighbors(t, start, q, radius)
      ==> p in Flood(t, start, radius)
  {
    FloodRoundsClosed(t, start, radius, radius, [start], [start]);
  }

  lemma FloodZero(t: Tiles, start: Pos)
    requires Valid(t)
    ensures Flood(t, start, 0) == [start]
  {
  }

  // ---------------------------------------------------------------------------
  // The open-grid case of `test_floodfill`

  /** Every tile of the grid is empty. */
  ghost predicate AllEmpty(t: Tiles)
    requires Valid(t)
  {
    forall q :: InBounds(t, q) ==> At(t, q) == EmptyTile()
  }

  /** On a grid of empty tiles no step from a cell away from the border is blocked. */
  lemma OpenStep(t: Tiles, pos: Pos, next: Pos)
    requires Valid(t) && AllEmpty(t)
    requires 1 <= pos.x < Width(t) - 1 && 1 <= pos.y < Height(t) - 1 && Cheb(pos, next) == 1
    ensures StepOk(t, pos, next) && MoveBlocked(t, pos, next).None?
  {
    var checks := MoveChecks(t, pos, next);
    assert !AnyFires(checks);
  }

  /** The cells `pos + offs[i]`, in order. */
  function Shifted(pos: Pos, offs: seq<Pos>): (r: seq<Pos>)
    ensures |r| == |offs| && forall i :: 0 <= i < |offs| ==> r[i] == AddPos(pos, offs[i])
  {
    seq(|offs|, i requires 0 <= i < |offs| => AddPos(pos, offs[i]))
  }

  /** With every flag set the filter keeps every cell. */
  lemma {:induction false} SelectAll(pos: Pos, offs: seq<Pos>, ok: seq<bool>)
    requires |ok| == |offs| && forall i :: 0 <= i < |ok| ==> ok[i]
    ensures Select(pos, offs, ok) == Shifted(pos, offs)
    decreases |offs|
  {
    if offs != [] {
      var n := |offs| - 1;
      SelectAll(pos, offs[..n], ok[..n]);
      assert Shifted(pos, offs) == Shifted(pos, offs[..n]) + [AddPos(pos, offs[n])];
    }
  }

  /** On a grid of empty tiles a cell away from the border reaches all eight neighbours. */
  lemma OpenNeighbors(t: Tiles, pos: Pos)
    requires Valid(t) && AllEmpty(t)
    requires 1 <= pos.x < Width(t) - 1 && 1 <= pos.y < Height(t) - 1
    ensures OffsetsOk(t, pos, NeighborOffsets())
    ensures ReachableNeighbors(t, pos) == Shifted(pos, NeighborOffsets())
  {
    var offs := NeighborOffsets();
    NeighborOffsetsUnit();
    InBoundsOffsetsOk(t, pos);
    forall i | 0 <= i < |offs|
      ensures OffsetClear(t, pos, offs[i])
    {
      var d := offs[i];
      OpenStep(t, pos, Target(pos, d.x, d.y));
      IsBlockedByWallStep(t, pos, d.x, d.y);
    }
    SelectAll(pos, offs, ClearFlags(t, pos, offs));
  }

  /** Candidates that are new and distinct are all appended. */
  lemma {:induction false} AddUnseenFresh(seen: seq<Pos>, cands: seq<Pos>)
    requires Distinct(seen + cands)
    ensures AddUnseen(seen, cands) == seen + cands
    decreases |cands|
  {
    if cands != [] {
      assert cands[0] == (seen + cands)[|seen|];
      assert cands[0] !in seen by {
        forall k | 0 <= k < |seen|
          ensures seen[k] != cands[0]
        {
          assert seen[k] == (seen + cands)[k];
        }
      }
      assert seen + [cands[0]] + cands[1..] == seen + cands;
      AddUnseenFresh(seen + [cands[0]], cands[1..]);
    }
  }

  /** On a grid of empty tiles a fill of radius 1 from a cell away from the border is
      the start followed by its eight neighbours. */
  lemma FloodOpenOne(t: Tiles, s: Pos)
    requires Valid(t) && AllEmpty(t)
    requires 1 <= s.x < Width(t) - 1 && 1 <= s.y < Height(t) - 1
    ensures Flood(t, s, 1) == [s] + Shifted(s, NeighborOffsets())
  {
    OpenNeighbors(t, s);
    var near := Shifted(s, NeighborOffsets());
    AstarNeighborsSpec(t, s, s, Some(1));
    assert FloodNeighbors(t, s, s, 1) == near;
    FloodRoundsUnfold(t, s, 1, 1, [s], [s]);
    FloodRoundUnfold(t, s, 1, [s], 0, [s]);
    assert [s][1..] == [];
    NeighborsDistinct(s);
    AddUnseenFresh([s], near);
  }

  /** A cell and its eight neighbours are nine different cells. */
  lemma NeighborsDistinct(s: Pos)
    ensures Distinct([s] + Shifted(s, NeighborOffsets()))
  {
    var offs := NeighborOffsets();
    assert Distinct(offs);
    var c := [s] + Shifted(s, offs);
    forall i, j | 0 <= i < j < |c|
      ensures c[i] != c[j]
    {
      assert c[j] == AddPos(s, offs[j - 1]);
      if i > 0 {
        assert c[i] == AddPos(s, offs[i - 1]);
      }
    }
  }

  /** The neighbours of (5, 5) in the order `reachable_neighbors` tries them. */
  lemma NeighborsOfCentre()
    ensures [Pos(5, 5)] + Shifted(Pos(5, 5), NeighborOffsets()) ==
      [Pos(5, 5), Pos(6, 5), Pos(6, 6), Pos(5, 6), Pos(4, 6), Pos(4, 5), Pos(4, 4), Pos(5, 4), Pos(6, 4)]
  {
  }

  /** `test_floodfill`: on an open 10 by 10 grid a fill of radius 1 from (5, 5) is the
      start followed by its eight neighbours, nine cells. */
  lemma FloodOpenGrid()
    ensures Flood(FromDims(10, 10), Pos(5, 5), 1) ==
      [Pos(5, 5), Pos(6, 5), Pos(6, 6), Pos(5, 6), Pos(4, 6), Pos(4, 5), Pos(4, 4), Pos(5, 4), Pos(6, 4)]
    ensures |Flood(FromDims(10, 10), Pos(5, 5), 1)| == 9
  {
    FloodOpenOne(FromDims(10, 10), Pos(5, 5));
    NeighborsOfCentre();
  }
}

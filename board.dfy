/**
 * The board of the treasure trail: a linear track of tiles 0..GOAL, four
 * fixed sets of special tiles, and the movement rule that bounces a pawn
 * back from the final tile when a roll overshoots it.
 */
module Board {

  /** Number of tiles on the track; they are numbered 0 .. TILE_COUNT - 1. */
  const TILE_COUNT: int := 30
  /** The final tile: reaching it wins the game. */
  const GOAL: int := 29

  const TREASURE: seq<int> := [3, 7, 12, 15, 19, 22, 25, 27]
  const TRAPS: seq<int> := [5, 11, 18, 24]
  const SWAPS: seq<int> := [9, 21]
  const MYST: seq<int> := [13, 26]

  predicate IsTreasure(p: int) { p in TREASURE }
  predicate IsTrap(p: int) { p in TRAPS }
  predicate IsSwap(p: int) { p in SWAPS }
  predicate IsMystery(p: int) { p in MYST }

  /** A value a six-sided die can show. */
  predicate IsDieFace(v: int) { 1 <= v <= 6 }

  /** A position on the track. */
  predicate OnBoard(p: int) { 0 <= p <= GOAL }

  function Min(a: int, b: int): int { if a <= b then a else b }
  function Max(a: int, b: int): int { if a <= b then b else a }
  function Abs(x: int): int { if x < 0 then -x else x }

  /**
   * The four special-tile sets are pairwise disjoint, lie strictly between
   * the start and GOAL, and the last tile of the track is GOAL: at most one
   * effect applies on any tile and no effect applies on GOAL.
   */
  lemma TileSetsDisjoint(p: int)
    ensures GOAL == TILE_COUNT - 1
    ensures IsTreasure(p) ==> !IsTrap(p) && !IsSwap(p) && !IsMystery(p)
    ensures IsTrap(p) ==> !IsSwap(p) && !IsMystery(p)
    ensures IsSwap(p) ==> !IsMystery(p)
    ensures IsTreasure(p) || IsTrap(p) || IsSwap(p) || IsMystery(p) ==> 0 < p < GOAL
  {
  }

  /**
   * Where a pawn at `pos` lands after rolling `d`: one step per pip, and a
   * roll that overshoots GOAL is reflected back by the overflow.  The result
   * is the point whose distance to GOAL equals that of `pos + d`, it never
   * leaves the track, and a bounce lands within one die roll of GOAL.
   */
  function Move(pos: int, d: int): (r: int)
    requires OnBoard(pos) && IsDieFace(d)
    ensures OnBoard(r)
    ensures GOAL - r == Abs(GOAL - (pos + d))
    ensures pos + d <= GOAL ==> r - pos == d
    ensures pos + d > GOAL ==> GOAL - 6 <= r < GOAL
  {
    var p := pos + d;
    if p > GOAL then
      var overflow := p - GOAL;
      GOAL - overflow
    else
      p
  }
}

/**
 * The rules of one turn, stated on values: the players in turn order, whose
 * turn it is, and whether the game has been won.  The class in module Engine
 * performs these steps in place and is proved to agree with the functions
 * here; the lemmas below are what the rules promise.
 */
module Rules {
  import opened Board

  /** One pawn: the tile it stands on and whether its next turn is forfeited. */
  datatype Player = Player(pos: int, skip: bool)

  /**
   * The whole game: players in turn order, the index of the player whose turn
   * it is, and whether someone has won (the roll button is then disabled).
   */
  datatype Game = Game(players: seq<Player>, current: int, won: bool)

  /** What the tile under the active player did; one status line each. */
  datatype Effect =
    | NoEffect            // the player already stands on GOAL
    | FoundTreasure
    | HitTrap
    | Swapped
    | MysteryJump(r: int)
    | MysterySlip(r: int)
    | SafeTile

  /** The player-count selector offers 2, 3 or 4 players (four icons, four colours). */
  const MIN_PLAYERS: int := 2
  const MAX_PLAYERS: int := 4

  /**
   * The test of `checkWin`: the player stands on (or beyond) GOAL.  For a
   * pawn on the track that is standing exactly on GOAL.
   */
  predicate Reached(p: Player)
    ensures OnBoard(p.pos) ==> (Reached(p) <==> p.pos == GOAL)
  {
    p.pos >= GOAL
  }

  predicate InRange(ps: seq<Player>)
  {
    forall i :: 0 <= i < |ps| ==> OnBoard(ps[i].pos)
  }

  predicate WellFormed(g: Game)
  {
    && MIN_PLAYERS <= |g.players| <= MAX_PLAYERS
    && 0 <= g.current < |g.players|
    && InRange(g.players)
  }

  /**
   * The game invariant: every pawn is on the track, nobody but the player
   * whose turn it is stands on GOAL, and the game is won exactly when that
   * player does.
   */
  predicate Valid(g: Game)
  {
    && WellFormed(g)
    && (forall i :: 0 <= i < |g.players| && i != g.current ==> g.players[i].pos < GOAL)
    && (g.won <==> Reached(g.players[g.current]))
  }

  /** The players `initPlayers` creates: all on the start tile, none skipping. */
  function NewPlayers(count: nat): (ps: seq<Player>)
    ensures |ps| == count
    ensures forall i :: 0 <= i < count ==> ps[i].pos == 0 && !ps[i].skip
  {
    seq(count, _ => Player(0, false))
  }

  /** A freshly (re)started game; it satisfies the invariant and is not over. */
  function Initial(count: int): (g: Game)
    requires MIN_PLAYERS <= count <= MAX_PLAYERS
    ensures Valid(g) && !g.won
    ensures g.current == 0 && |g.players| == count
  {
    Game(NewPlayers(count), 0, false)
  }

  /** The index after `i` in turn order, wrapping to 0 after the last player. */
  function NextIndex(i: int, n: int): (j: int)
    requires 0 <= i < n
    ensures 0 <= j < n
    ensures i + 1 < n ==> j == i + 1
    ensures i + 1 == n ==> j == 0
  {
    (i + 1) % n
  }

  /**
   * Which effect the tile at `pos` has, given the mystery roll `r`.  The
   * source tests the sets in a fixed order; since they are disjoint, each
   * effect happens exactly when its own set holds, whatever the order.
   */
  function EffectAt(pos: int, r: int): (e: Effect)
    ensures e == NoEffect <==> pos >= GOAL
    ensures e == FoundTreasure <==> pos < GOAL && IsTreasure(pos)
    ensures e == HitTrap <==> pos < GOAL && IsTrap(pos)
    ensures e == Swapped <==> pos < GOAL && IsSwap(pos)
    ensures e.MysteryJump? <==> pos < GOAL && IsMystery(pos) && r >= 4
    ensures e.MysterySlip? <==> pos < GOAL && IsMystery(pos) && r < 4
    ensures (e.MysteryJump? || e.MysterySlip?) ==> e.r == r
    ensures e == SafeTile <==>
      pos < GOAL && !IsTreasure(pos) && !IsTrap(pos) && !IsSwap(pos) && !IsMystery(pos)
  {
    TileSetsDisjoint(pos);
    if pos >= GOAL then NoEffect
    else if IsTreasure(pos) then FoundTreasure
    else if IsTrap(pos) then HitTrap
    else if IsSwap(pos) then Swapped
    else if IsMystery(pos) then (if r >= 4 then MysteryJump(r) else MysterySlip(r))
    else SafeTile
  }

  /**
   * The swap tile: player `i` and the next player in turn order exchange
   * tiles; everything else, all skip flags included, stays as it was.
   */
  function SwapWithNext(ps: seq<Player>, i: int): (qs: seq<Player>)
    requires 0 <= i < |ps|
    ensures |qs| == |ps|
    ensures qs[i].pos == ps[NextIndex(i, |ps|)].pos
    ensures qs[NextIndex(i, |ps|)].pos == ps[i].pos
    ensures forall j :: 0 <= j < |ps| ==> qs[j].skip == ps[j].skip
    ensures forall j :: 0 <= j < |ps| && j != i && j != NextIndex(i, |ps|) ==> qs[j] == ps[j]
  {
    var other := NextIndex(i, |ps|);
    var tmp := ps[other].pos;
    var ps' := ps[other := ps[other].(pos := ps[i].pos)];
    ps'[i := ps'[i].(pos := tmp)]
  }

  /**
   * `applyTileEffect`: at most one effect, chosen by the tile player `i`
   * stands on, and never on GOAL.  Only player `i` and, on a swap, the next
   * player change; only player `i`'s skip flag can change; every pawn stays
   * on the track.
   */
  function TileEffect(ps: seq<Player>, i: int, r: int): (qs: seq<Player>)
    requires 0 <= i < |ps| && IsDieFace(r)
    ensures |qs| == |ps|
    ensures InRange(ps) ==> InRange(qs)
    ensures forall j :: 0 <= j < |ps| && j != i ==> qs[j].skip == ps[j].skip
    ensures EffectAt(ps[i].pos, r) != Swapped ==>
      forall j :: 0 <= j < |ps| && j != i ==> qs[j] == ps[j]
    ensures EffectAt(ps[i].pos, r) in {NoEffect, SafeTile} ==> qs == ps
    ensures EffectAt(ps[i].pos, r) == HitTrap ==> qs[i] == ps[i].(skip := true)
    ensures EffectAt(ps[i].pos, r) == Swapped ==> qs == SwapWithNext(ps, i)
    ensures EffectAt(ps[i].pos, r).MysteryJump? ==> qs[i] == ps[i].(pos := Min(GOAL, ps[i].pos + r))
    ensures EffectAt(ps[i].pos, r).MysterySlip? ==> qs[i] == ps[i].(pos := Max(0, ps[i].pos - r))
    ensures forall j :: 0 <= j < |ps| && j != i && j != NextIndex(i, |ps|) ==> qs[j] == ps[j]
  {
    var pl := ps[i];
    match EffectAt(pl.pos, r)
    case NoEffect => ps
    case SafeTile => ps
    case FoundTreasure => ps[i := pl.(pos := Min(GOAL, pl.pos + 1))]
    case HitTrap => ps[i := pl.(skip := true)]
    case Swapped => SwapWithNext(ps, i)
    case MysteryJump(_) => ps[i := pl.(pos := Min(GOAL, pl.pos + r))]
    case MysterySlip(_) => ps[i := pl.(pos := Max(0, pl.pos - r))]
  }

  /**
   * The players after the active one has moved by `d`, before the tile acts:
   * only the mover's position changes, to its bounce-rule landing tile.
   */
  function Moved(g: Game, d: int): (ms: seq<Player>)
    requires WellFormed(g) && IsDieFace(d)
    ensures |ms| == |g.players| && InRange(ms)
    ensures ms[g.current] == g.players[g.current].(pos := Move(g.players[g.current].pos, d))
    ensures forall j :: 0 <= j < |ms| && j != g.current ==> ms[j] == g.players[j]
  {
    var pl := g.players[g.current];
    g.players[g.current := pl.(pos := Move(pl.pos, d))]
  }

  /**
   * One press of the roll button, with die roll `d` and mystery roll `r`:
   * nothing once the game is won; a skipping player only clears the flag and
   * passes the turn; otherwise move, apply the tile, then either win (the
   * turn stays) or pass the turn to the next player.
   */
  function Turn(g: Game, d: int, r: int): (g': Game)
    requires Valid(g) && IsDieFace(d) && IsDieFace(r)
    ensures |g'.players| == |g.players|
    ensures g.won ==> g' == g
    ensures forall j :: 0 <= j < |g.players| && j != g.current && j != NextIndex(g.current, |g.players|) ==>
      g'.players[j] == g.players[j]
  {
    if g.won then g
    else
      var pl := g.players[g.current];
      if pl.skip then
        g.(players := g.players[g.current := pl.(skip := false)],
           current := NextIndex(g.current, |g.players|))
      else
        var after := TileEffect(Moved(g, d), g.current, r);
        if Reached(after[g.current]) then Game(after, g.current, true)
        else Game(after, NextIndex(g.current, |after|), false)
  }

  // ---------------------------------------------------------------------
  // Properties of single effects

  /** Swapping twice in succession puts every pawn back where it was. */
  lemma SwapTwiceRestores(ps: seq<Player>, i: int)
    requires 0 <= i < |ps|
    ensures SwapWithNext(SwapWithNext(ps, i), i) == ps
  {
    var once := SwapWithNext(ps, i);
    var twice := SwapWithNext(once, i);
    forall j | 0 <= j < |ps| ensures twice[j] == ps[j] {
      if j == i || j == NextIndex(i, |ps|) {
        assert twice[j].pos == ps[j].pos;
      }
    }
  }

  /** From the mystery tile at 26 any jump (a roll of 4 or more) reaches GOAL. */
  lemma MysteryFrom26ReachesGoal(ps: seq<Player>, i: int, r: int)
    requires 0 <= i < |ps| && ps[i].pos == 26 && 4 <= r <= 6
    ensures TileEffect(ps, i, r)[i].pos == GOAL
  {
  }

  /** A mystery roll of 4 is a jump and a roll of 3 is a slip, both clamped to the track. */
  lemma MysteryBoundary(ps: seq<Player>, i: int)
    requires 0 <= i < |ps| && IsMystery(ps[i].pos)
    ensures TileEffect(ps, i, 4)[i].pos == Min(GOAL, ps[i].pos + 4)
    ensures TileEffect(ps, i, 3)[i].pos == Max(0, ps[i].pos - 3)
  {
  }

  /** A treasure moves its finder exactly one tile forward, never past GOAL. */
  lemma TreasureStep(ps: seq<Player>, i: int, r: int)
    requires 0 <= i < |ps| && IsTreasure(ps[i].pos) && IsDieFace(r)
    ensures TileEffect(ps, i, r)[i] == ps[i].(pos := ps[i].pos + 1)
    ensures TileEffect(ps, i, r)[i].pos < GOAL
  {
  }

  // ---------------------------------------------------------------------
  // Properties of a whole turn

  /** Every turn keeps the game invariant and the number of players. */
  lemma TurnPreservesValid(g: Game, d: int, r: int)
    requires Valid(g) && IsDieFace(d) && IsDieFace(r)
    ensures Valid(Turn(g, d, r))
    ensures |Turn(g, d, r).players| == |g.players|
  {
    if !g.won && !g.players[g.current].skip {
      var i := g.current;
      var moved := Moved(g, d);
      var after := TileEffect(moved, i, r);
      assert InRange(moved);
      forall j | 0 <= j < |after| && j != i
        ensures after[j].pos < GOAL
      {
        if EffectAt(moved[i].pos, r) == Swapped && j == NextIndex(i, |moved|) {
          assert after[j].pos == moved[i].pos;
        } else {
          assert after[j] == moved[j];
        }
      }
    }
  }

  /**
   * Once won, the game is over: a turn changes nothing.  Otherwise a turn
   * either ends the game with the active player on GOAL and the turn not
   * passed, or passes the turn to the next player in cyclic order.
   */
  lemma TurnAdvancesOrWins(g: Game, d: int, r: int)
    requires Valid(g) && IsDieFace(d) && IsDieFace(r)
    ensures g.won ==> Turn(g, d, r) == g
    ensures !g.won && Turn(g, d, r).won ==>
      Turn(g, d, r).current == g.current && Turn(g, d, r).players[g.current].pos == GOAL
    ensures !Turn(g, d, r).won ==> Turn(g, d, r).current == NextIndex(g.current, |g.players|)
  {
    TurnPreservesValid(g, d, r);
  }

  /**
   * A player serving a trap loses the turn: no pawn moves, the flag is
   * cleared, no other flag changes, and the turn passes on.
   */
  lemma SkipConsumesTurn(g: Game, d: int, r: int)
    requires Valid(g) && IsDieFace(d) && IsDieFace(r)
    requires !g.won && g.players[g.current].skip
    ensures !Turn(g, d, r).won
    ensures |Turn(g, d, r).players| == |g.players|
    ensures forall j :: 0 <= j < |g.players| ==> Turn(g, d, r).players[j].pos == g.players[j].pos
    ensures !Turn(g, d, r).players[g.current].skip
    ensures forall j :: 0 <= j < |g.players| && j != g.current ==> Turn(g, d, r).players[j] == g.players[j]
    ensures Turn(g, d, r).current == NextIndex(g.current, |g.players|)
  {
  }

  /**
   * A plain roll: a player who is not skipping, does not overshoot GOAL and
   * lands on a safe tile or on GOAL advances exactly `d` tiles, and no other
   * pawn or flag changes.
   */
  lemma PlainRoll(g: Game, d: int, r: int)
    requires Valid(g) && IsDieFace(d) && IsDieFace(r)
    requires !g.won && !g.players[g.current].skip
    requires g.players[g.current].pos + d <= GOAL
    requires EffectAt(g.players[g.current].pos + d, r) in {NoEffect, SafeTile}
    ensures Turn(g, d, r).players ==
      g.players[g.current := g.players[g.current].(pos := g.players[g.current].pos + d)]
  {
  }

  /** Landing on a trap (without winning) sets the mover's flag and keeps all pawns in place. */
  lemma TrapSetsSkip(g: Game, d: int, r: int)
    requires Valid(g) && IsDieFace(d) && IsDieFace(r)
    requires !g.won && !g.players[g.current].skip
    requires IsTrap(Move(g.players[g.current].pos, d))
    ensures Turn(g, d, r).players[g.current].skip
    ensures !Turn(g, d, r).won
    ensures forall j :: 0 <= j < |g.players| && j != g.current ==> Turn(g, d, r).players[j] == g.players[j]
  {
    TileSetsDisjoint(Move(g.players[g.current].pos, d));
  }

  /** Nobody's turn changes another player's skip flag. */
  lemma OthersKeepSkip(g: Game, d: int, r: int, j: int)
    requires Valid(g) && IsDieFace(d) && IsDieFace(r)
    requires 0 <= j < |g.players| && j != g.current
    ensures Turn(g, d, r).players[j].skip == g.players[j].skip
  {
  }

  /** A player on tile 27 who rolls 2 lands on GOAL and wins; the turn does not pass. */
  lemma WinningRoll(g: Game, r: int)
    requires Valid(g) && IsDieFace(r)
    requires !g.won && !g.players[g.current].skip && g.players[g.current].pos == 27
    ensures Turn(g, 2, r).won
    ensures Turn(g, 2, r).current == g.current
    ensures Turn(g, 2, r).players[g.current].pos == GOAL
  {
  }
}

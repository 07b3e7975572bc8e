/**
 * The game as the page runs it: a players array and a turn index that the
 * button handlers update in place.  Every method is proved to agree with the
 * value-level rules in module Rules, and the roll handler to keep the game
 * invariant.
 */
module Engine {
  import opened Board
  import opened Rules

  /** What one press of the roll button reports in the status line. */
  datatype Outcome =
    | Disabled                   // the game is over and the button is disabled
    | SkippedTurn                // the player was serving a trap
    | Rolled(d: int, bounced: bool, effect: Effect, wins: bool)

  class TurnEngine {
    /** The pawns in turn order. */
    var players: seq<Player>
    /** Index of the player whose turn it is. */
    var current: int
    /** Someone has won; stands for the disabled roll button. */
    var won: bool

    function State(): Game
      reads this
    {
      Game(players, current, won)
    }

    ghost predicate Valid()
      reads this
    {
      Rules.Valid(State())
    }

    /** Page load: a two-player game with the roll button enabled. */
    constructor ()
      ensures Valid() && State() == Initial(2)
    {
      players := [];
      current := 0;
      won := false;
      new;
      InitPlayers(2);
    }

    /**
     * `initPlayers`: `count` players on the start tile, none skipping, and the
     * first player to move.  The roll button is left as it was.
     */
    method InitPlayers(count: nat)
      modifies this`players, this`current
      ensures |players| == count
      ensures forall i :: 0 <= i < count ==> players[i] == Player(0, false)
      ensures players == NewPlayers(count)
      ensures current == 0
    {
      players := [];
      for i := 0 to count
        invariant |players| == i
        invariant forall j :: 0 <= j < i ==> players[j] == Player(0, false)
      {
        players := players + [Player(0, false)];
      }
      current := 0;
    }

    /**
     * The restart button and the player-count selector: new players and the
     * roll button enabled again.
     */
    method Restart(count: int)
      requires MIN_PLAYERS <= count <= MAX_PLAYERS
      modifies this
      ensures Valid() && State() == Initial(count)
    {
      InitPlayers(count);
      won := false;
    }

    /**
     * `applyTileEffect`: resolve the tile under player `i`, with `r` the
     * mystery roll (used only on a mystery tile).
     */
    method ApplyTileEffect(i: int, r: int) returns (effect: Effect)
      requires 0 <= i < |players| && IsDieFace(r)
      modifies this`players
      ensures effect == EffectAt(old(players[i].pos), r)
      ensures players == TileEffect(old(players), i, r)
    {
      var pl := players[i];
      var pos := pl.pos;
      if pos >= GOAL {
        return NoEffect;
      }
      if IsTreasure(pos) {
        players := players[i := pl.(pos := Min(GOAL, pl.pos + 1))];
        effect := FoundTreasure;
      } else if IsTrap(pos) {
        players := players[i := pl.(skip := true)];
        effect := HitTrap;
      } else if IsSwap(pos) {
        var other := (i + 1) % |players|;
        var tmp := players[other].pos;
        players := players[other := players[other].(pos := pl.pos)];
        players := players[i := players[i].(pos := tmp)];
        effect := Swapped;
      } else if IsMystery(pos) {
        if r >= 4 {
          players := players[i := pl.(pos := Min(GOAL, pl.pos + r))];
          effect := MysteryJump(r);
        } else {
          players := players[i := pl.(pos := Max(0, pl.pos - r))];
          effect := MysterySlip(r);
        }
      } else {
        effect := SafeTile;
      }
    }

    /** `checkWin`: player `i` has reached GOAL; if so the roll button is disabled. */
    method CheckWin(i: int) returns (w: bool)
      requires 0 <= i < |players|
      modifies this`won
      ensures w <==> players[i].pos >= GOAL
      ensures won <==> old(won) || w
    {
      if players[i].pos >= GOAL {
        won := true;
        return true;
      }
      return false;
    }

    /**
     * The roll button, with `d` the die roll and `r` the mystery roll.  The
     * new state is the one the rules prescribe, the invariant is kept, and
     * the outcome says which branch was taken.
     */
    method TakeTurn(d: int, r: int) returns (outcome: Outcome)
      requires Valid() && IsDieFace(d) && IsDieFace(r)
      modifies this
      ensures Valid()
      ensures State() == Turn(old(State()), d, r)
      ensures outcome == Disabled <==> old(won)
      ensures outcome == SkippedTurn <==> !old(won) && old(players[current].skip)
      ensures outcome.Rolled? ==>
        && outcome.d == d
        && outcome.bounced == (old(players[current].pos) + d > GOAL)
        && outcome.effect == EffectAt(Move(old(players[current].pos), d), r)
        && outcome.wins == won
    {
      ghost var g := State();
      TurnPreservesValid(g, d, r);
      if won {
        return Disabled;
      }
      var pl := players[current];
      if pl.skip {
        players := players[current := pl.(skip := false)];
        current := (current + 1) % |players|;
        return SkippedTurn;
      }
      var pos := pl.pos + d;
      var bounced := false;
      if pos > GOAL {
        var overflow := pos - GOAL;
        pos := GOAL - overflow;
        bounced := true;
      }
      players := players[current := pl.(pos := pos)];
      assert players == Moved(g, d);
      var effect := ApplyTileEffect(current, r);
      var w := CheckWin(current);
      if !w {
        current := (current + 1) % |players|;
      }
      outcome := Rolled(d, bounced, effect, w);
    }
  }
}

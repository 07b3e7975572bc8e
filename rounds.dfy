/**
 * Sequences of turns: what the rules promise over a whole run of button
 * presses, each with its die roll and its mystery roll.
 */
module Rounds {
  import opened Board
  import opened Rules

  /** The two rolls one press of the button uses: the move and the mystery roll. */
  datatype Roll = Roll(d: int, r: int)

  predicate FairRolls(rolls: seq<Roll>)
  {
    forall k :: 0 <= k < |rolls| ==> IsDieFace(rolls[k].d) && IsDieFace(rolls[k].r)
  }

  /**
   * Play the turns `rolls` in order from `g`.  The invariant holds after any
   * number of turns, the players stay the same in number, and a won game
   * stays exactly as it is.
   */
  function Play(g: Game, rolls: seq<Roll>): (g': Game)
    requires Valid(g) && FairRolls(rolls)
    ensures Valid(g') && |g'.players| == |g.players|
    ensures g.won ==> g' == g
    decreases |rolls|
  {
    if rolls == [] then g
    else
      TurnPreservesValid(g, rolls[0].d, rolls[0].r);
      TurnAdvancesOrWins(g, rolls[0].d, rolls[0].r);
      Play(Turn(g, rolls[0].d, rolls[0].r), rolls[1..])
  }

  /**
   * The index of the player whose turn it is k turns after player c's, when
   * every one of those turns passes the turn on.
   */
  function Seat(c: int, k: int, n: int): int
    requires n > 0
  {
    (c + k) % n
  }

  /** Seat arithmetic for 2, 3 or 4 players: the start, one step, a full round. */
  lemma SeatFacts(c: int, k: int, n: int)
    requires MIN_PLAYERS <= n <= MAX_PLAYERS && 0 <= c < n && k >= 0
    ensures Seat(c, 0, n) == c
    ensures Seat(NextIndex(c, n), k, n) == Seat(c, k + 1, n)
    ensures Seat(c, n, n) == c
    ensures 0 < k < n ==> Seat(c, k, n) != c
  {
  }

  /** The first turn of a run that ends unwon is itself unwon. */
  lemma FirstTurnUnwon(g: Game, rolls: seq<Roll>)
    requires Valid(g) && FairRolls(rolls) && rolls != []
    requires !Play(g, rolls).won
    ensures !Turn(g, rolls[0].d, rolls[0].r).won
    ensures !g.won
  {
    TurnPreservesValid(g, rolls[0].d, rolls[0].r);
    assert Play(g, rolls) == Play(Turn(g, rolls[0].d, rolls[0].r), rolls[1..]);
  }

  /**
   * Turns cycle through the players in order: after k presses of the button
   * that leave the game unwon, it is the turn of the player k places after
   * the one who started, modulo the number of players.
   */
  lemma {:induction false} TurnsCycle(g: Game, rolls: seq<Roll>)
    requires Valid(g) && FairRolls(rolls) && !Play(g, rolls).won
    ensures Play(g, rolls).current == Seat(g.current, |rolls|, |g.players|)
    decreases |rolls|
  {
    var n := |g.players|;
    if rolls == [] {
      SeatFacts(g.current, 0, n);
    } else {
      SeatFacts(g.current, |rolls| - 1, n);
      var g1 := Turn(g, rolls[0].d, rolls[0].r);
      FirstTurnUnwon(g, rolls);
      TurnAdvancesOrWins(g, rolls[0].d, rolls[0].r);
      assert Play(g, rolls) == Play(g1, rolls[1..]);
      TurnsCycle(g1, rolls[1..]);
    }
  }

  /** After one full round of unwon turns the player who started has the turn again. */
  lemma FullRoundReturns(g: Game, rolls: seq<Roll>)
    requires Valid(g) && FairRolls(rolls) && !Play(g, rolls).won
    requires |rolls| == |g.players|
    ensures Play(g, rolls).current == g.current
  {
    TurnsCycle(g, rolls);
    SeatFacts(g.current, 0, |g.players|);
  }

  /**
   * A player's skip flag is untouched by a run of turns in which it never
   * has the turn.
   */
  lemma {:induction false} SkipHeldByOthersTurns(g: Game, rolls: seq<Roll>, i: int)
    requires Valid(g) && FairRolls(rolls) && !Play(g, rolls).won
    requires 0 <= i < |g.players|
    requires forall k :: 0 <= k < |rolls| ==> Seat(g.current, k, |g.players|) != i
    ensures Play(g, rolls).players[i].skip == g.players[i].skip
    decreases |rolls|
  {
    if rolls != [] {
      var n := |g.players|;
      var g1 := Turn(g, rolls[0].d, rolls[0].r);
      FirstTurnUnwon(g, rolls);
      TurnAdvancesOrWins(g, rolls[0].d, rolls[0].r);
      SeatFacts(g.current, 0, n);
      assert Seat(g.current, 0, n) != i;
      OthersKeepSkip(g, rolls[0].d, rolls[0].r, i);
      assert Play(g, rolls) == Play(g1, rolls[1..]);
      forall k | 0 <= k < |rolls| - 1
        ensures Seat(g1.current, k, n) != i
      {
        SeatFacts(g.current, k, n);
        assert Seat(g.current, k + 1, n) != i;
      }
      SkipHeldByOthersTurns(g1, rolls[1..], i);
    }
  }

  /**
   * A trap costs exactly the trapped player's next turn: if the player to
   * move lands on a trap and the other players then take their turns
   * without anyone winning, it is that player's turn again with the flag
   * still set, and that turn is skipped without moving any pawn.
   */
  lemma TrapCostsNextTurn(g: Game, d: int, r: int, others: seq<Roll>, d': int, r': int)
    requires Valid(g) && IsDieFace(d) && IsDieFace(r) && IsDieFace(d') && IsDieFace(r')
    requires !g.won && !g.players[g.current].skip
    requires IsTrap(Move(g.players[g.current].pos, d))
    requires FairRolls(others) && |others| == |g.players| - 1
    requires !Play(g, [Roll(d, r)] + others).won
    ensures Play(g, [Roll(d, r)] + others).current == g.current
    ensures Play(g, [Roll(d, r)] + others).players[g.current].skip
    ensures !Turn(Play(g, [Roll(d, r)] + others), d', r').won
    ensures Turn(Play(g, [Roll(d, r)] + others), d', r').current != g.current
    ensures !Turn(Play(g, [Roll(d, r)] + others), d', r').players[g.current].skip
    ensures forall j :: 0 <= j < |g.players| ==>
      Turn(Play(g, [Roll(d, r)] + others), d', r').players[j].pos
        == Play(g, [Roll(d, r)] + others).players[j].pos
  {
    var n := |g.players|;
    var i := g.current;
    var rolls := [Roll(d, r)] + others;
    var g1 := Turn(g, d, r);
    TurnPreservesValid(g, d, r);
    TrapSetsSkip(g, d, r);
    TurnAdvancesOrWins(g, d, r);
    assert rolls[1..] == others;
    assert Play(g, rolls) == Play(g1, others);
    TurnsCycle(g1, others);
    SeatFacts(i, n - 1, n);
    forall k | 0 <= k < n - 1
      ensures Seat(g1.current, k, n) != i
    {
      SeatFacts(i, k, n);
      SeatFacts(i, k + 1, n);
    }
    SkipHeldByOthersTurns(g1, others, i);
    SkipConsumesTurn(Play(g1, others), d', r');
  }
}

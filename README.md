# Treasure trail: a verified model of the turn engine

The treasure trail is a browser board game for two to four players. Each
player in turn presses the roll button, moves a pawn along a track of 30
tiles (0 to GOAL = 29) and resolves the tile it lands on:

- a treasure moves the pawn one tile on;
- a trap makes the player skip their next turn;
- a swap exchanges the pawn with the next player's pawn;
- a mystery tile rolls again and jumps forward (4 to 6) or slips back (1 to 3).

A roll that overshoots GOAL bounces back by the overflow. The first player
on GOAL wins, and the roll button is then disabled.

This project models that game logic in Dafny. It has four modules:

- `Board` (board.dfy) holds the constants, the tile-set tests and the bounce
  rule `Move`.
- `Rules` (rules.dfy) holds the game as values: `Player(pos, skip)`,
  `Game(players, current, won)`, the tile effect (`TileEffect`, classified by
  `EffectAt`), one press of the roll button (`Turn`), the game invariant
  `Valid`, and the lemmas about a single turn.
- `Rounds` (rounds.dfy) plays a sequence of turns (`Play`) and proves what
  holds across turns: the invariant, the win being final, the cyclic turn
  order, and that a trap costs exactly one turn.
- `Engine` (engine.dfy) holds the page's mutable state as the class
  `TurnEngine`. Its fields are the `players` sequence, the `current` index and
  the `won` flag, which stands for the disabled roll button. Its methods
  update those fields in place as the handlers do, and each is proved to
  produce the state the `Rules` functions prescribe.

The invariant `Rules.Valid` says:

- there are 2 to 4 players;
- `current` is a player index;
- every pawn is on the track;
- only the player whose turn it is can stand on GOAL;
- the game is won exactly when that player does.

The two die values are parameters in 1..6. `d` is the movement roll and `r`
the mystery roll.

## Model

| member | source | states |
|---|---|---|
| Board.TileSetsDisjoint | game.js:10-14 | The treasure, trap, swap and mystery sets are pairwise disjoint. Every special tile lies strictly between the start and GOAL. GOAL is the last of the 30 tiles. |
| Board.Move | game.js:147-154 | The landing tile is as far from GOAL as `pos + d` is, so an overshoot is reflected back. It is always on the track. Without an overshoot the pawn advances exactly `d`. A bounce lands in [GOAL-6, GOAL), so it is never negative. |
| Rules.Reached | game.js:129 | The `checkWin` test `pos >= GOAL`; for a pawn on the track it means standing exactly on GOAL. |
| Rules.NewPlayers | game.js:21-27 | `count` players, all on tile 0 and none skipping. |
| Rules.Initial | game.js:166-176 | A restarted game has `count` players, `current = 0` and is not won, and it satisfies the game invariant. |
| Rules.NextIndex | game.js:142 | `(i+1) % n` is the next player in turn order and wraps from the last player to player 0. |
| Rules.EffectAt | game.js:100-125 | No effect on or beyond GOAL. Below GOAL each effect happens exactly when the tile is in its set, whatever the test order. A mystery tile jumps for `r >= 4` and slips for `r < 4`. A tile in no set is safe. |
| Rules.SwapWithNext | game.js:108-113 | Player `i` and player `(i+1) % n` exchange positions. All skip flags and every other player are unchanged. |
| Rules.TileEffect | game.js:97-126 | Only player `i` and its successor can change; the successor only on a swap, which is exactly `SwapWithNext`. Only player `i`'s skip flag can change. A safe tile or GOAL changes nothing. A trap sets only the flag. A mystery jump gives `min(GOAL, pos+r)` and a slip `max(0, pos-r)`. Every pawn stays on the track. |
| Rules.Moved | game.js:147-150 | After the move only the mover's position changes, to its bounce-rule landing tile, and every pawn is on the track. |
| Rules.Turn | game.js:137-164 | One press of the roll button as a value: the player count is kept, a won game is unchanged, and no player other than the mover and its successor changes. |
| Rules.SwapTwiceRestores | game.js:108-113 | Applying the swap twice restores every player. |
| Rules.MysteryFrom26ReachesGoal | game.js:114-118 | From mystery tile 26, any jump roll (4 to 6) reaches GOAL. |
| Rules.MysteryBoundary | game.js:114-122 | A mystery roll of 4 jumps (`min(GOAL, pos+4)`). A roll of 3 slips (`max(0, pos-3)`). |
| Rules.TreasureStep | game.js:102-104 | A treasure moves its finder exactly one tile forward and leaves it short of GOAL. |
| Rules.TurnPreservesValid | game.js:137-164 | Every press of the roll button keeps the game invariant and the number of players. |
| Rules.TurnAdvancesOrWins | game.js:155-161 | A won game is unchanged by a press. A winning turn leaves the winner on GOAL and does not pass the turn. Any other turn passes it to `(current+1) % n`. |
| Rules.SkipConsumesTurn | game.js:139-144 | A skipping player loses the turn: no pawn moves, its flag is cleared, no other player changes, and the turn passes on. |
| Rules.PlainRoll | game.js:146-159 | A player who is not skipping, does not overshoot GOAL and lands on a safe tile or on GOAL advances exactly `d` tiles. No other pawn or flag changes. |
| Rules.TrapSetsSkip | game.js:105-107 | Landing on a trap sets the mover's skip flag. No other player changes and the game is not won. |
| Rules.OthersKeepSkip | game.js:137-164 | A turn never changes the skip flag of a player other than the one to move. |
| Rules.WinningRoll | game.js:128-135 | A player on tile 27 who rolls 2 lands on GOAL and wins, and the turn stays with them. |
| Rounds.Play | game.js:137-164 | Any run of turns keeps the invariant and the player count. Once won, further presses change nothing. |
| Rounds.TurnsCycle | game.js:155-161 | After k unwon turns it is the turn of player `(current + k) % n`, so turns cycle 0, 1, …, n-1, 0. |
| Rounds.FullRoundReturns | game.js:159 | After n unwon turns the starting player has the turn again. |
| Rounds.SkipHeldByOthersTurns | game.js:139-144 | A player's skip flag survives any run of turns in which it is never that player's turn. |
| Rounds.TrapCostsNextTurn | game.js:105-107 | After a trap and one unwon round of the other players, it is the trapped player's turn with the flag set. That turn is skipped without moving any pawn, and the turn passes on. |
| Engine.TurnEngine.constructor | game.js:184 | Page load starts a valid two-player game. |
| Engine.TurnEngine.InitPlayers | game.js:21-30 | The `for`/`push` loop builds exactly `count` players, each `Player(0, false)`, and sets `current` to 0. |
| Engine.TurnEngine.Restart | game.js:166-176 | Restart or a player-count change re-initialises the players and enables the roll button. The result is the valid initial game. |
| Engine.TurnEngine.ApplyTileEffect | game.js:97-126 | The in-place update leaves exactly `TileEffect(old players, i, r)`. The reported effect is the one `EffectAt` assigns to the tile. |
| Engine.TurnEngine.CheckWin | game.js:128-135 | Returns whether player `i` is on GOAL, and disables the roll button when so. |
| Engine.TurnEngine.TakeTurn | game.js:137-164 | The roll handler's in-place updates produce `Turn(old state, d, r)` and keep the invariant. The outcome tells whether the button was disabled, the turn was skipped, or the player rolled; for a roll it carries whether the move bounced, the tile effect and whether it won. |

## Notes on the source

- A tile effect can reach GOAL. From mystery tile 26 a jump of 4 or more
  lands on GOAL and wins (game.js:114-118, game.js:158). The model follows the
  code here and proves it (`Rules.MysteryFrom26ReachesGoal`).
- The win check does not clamp the position. The model proves no clamp is
  needed: no pawn ever passes GOAL (`Board.Move`, `Rules.TileEffect`).
- The bounce rule has no guard against a negative result. With GOAL = 29 and
  a die of 1..6 a bounce lands at 23 or above, so the missing guard never
  matters (`Board.Move`).

## Left out

- Rendering and the DOM: tile construction, the board, pawn placement, the
  turn label, the logo (game.js:32-80, game.js:178-182). These are
  presentation only.
- Randomness and animation. `Math.random` and the dice animation
  (game.js:82-95, game.js:115) are replaced by the parameters `d` and `r` in
  1..6.
- The 350 ms delay between the move and the tile effect (game.js:155).
  `TakeTurn` performs the two steps one after the other.
- Interleaving of button clicks. The button stays enabled during the
  animation and the delay, so a double click could start a second turn before
  the first ends. The model assumes each turn completes before the next.
- Status-message text. It is modelled as the `Effect` and `Outcome`
  enumerations.
- Player names, icons and colours. Only `pos` and `skip` are kept.
- The player-count selector's options. The HTML page is not part of this
  model; counts of 2 to 4 are assumed, matching the four icons and colours
  (game.js:16, game.js:23).
- `parseInt` of a non-numeric value is not modelled.
- Object identity of the player records. The handler captures `players[current]`
  as `pl` and later uses it. The model indexes by `current` instead, which
  agrees only when nothing else runs between the capture and the use.
- A restart or player-count change during the animation or the 350 ms delay
  (game.js:146-162, game.js:166-176). The pending callback then resolves the
  tile under the new game's player 0, because `current` was reset to 0. It
  tests `checkWin` on the old, detached record, so it may disable the new
  game's button or pass its turn to player 1. The model runs each turn to
  completion before a restart.

# Neon Tic-Tac-Toe: game engine and minimax opponent in Dafny

This project models the game-state engine and the computer opponent of the
browser Tic-Tac-Toe game in `script.js` (class `TicTacToe`).

- **Board.** A board is nine cells in row-major order. Each cell is `Empty`
  or holds the mark of player `X` or `O`.
- **State.** The game state is an immutable record: the board, the current
  player, the game-over flag and the versus-computer mode flag.
- **Operations.**
  - `checkWinner`, the move transition of `makeMove`, `resetGame` and
    `setGameMode` are pure functions, in module `WinCheck` and module
    `GameState`. The transitions map one state to the next.
  - `minimax` is a pure function. `findBestMove` and `makeAIMove` are methods
    whose loops are verified against it. All three are in module `AIAgent`.
  - `MinimaxInPlace` and `FindBestMoveInPlace` are methods that modify a
    shared array, as script.js does.

Modules:

- `WinCheck` (`wincheck.dfy`): cells, the board, the eight winning lines in
  the order of script.js, cell counts and `CheckWinner`.
- `GameState` (`gamestate.dfy`): the state record, `MakeMove`, `Reset`,
  `SetGameMode`, when a computer move is scheduled, and the invariant
  `Consistent` that holds of every state reached from a fresh game.
- `AIAgent` (`aiagent.dfy`): `Minimax` and its loop `Scan`, `FindBestMove`,
  `MakeAIMove`, `MoveWithReply` (a human move followed by the scheduled
  reply), lemmas about immediate wins and blocks, and the in-place variants.
  - JavaScript's `-Infinity`/`+Infinity` starting scores are the datatype
    `Bound`.
  - `Minimax` recurses on the number of empty cells.
  - The unused `depth` argument is dropped.
  - `MinimaxInPlace` and `FindBestMoveInPlace` follow the
    place-then-undo steps of script.js on one shared array. They prove that the array
    comes back unchanged and that they compute the same values as the pure
    versions.

Points where script.js behaves differently from what its structure suggests:

- **Cell index.** `makeMove` never range-checks the index it reads from the
  clicked cell. The model assumes the index is in 0..8: the index parameter
  has the subset type `Index`, whose values are 0..8. The cells' HTML is not part of this model, so this is an
  assumption. The only support for it in script.js is that `makeAIMove`
  looks up `this.cells[bestMove]` with `bestMove` in 0..8 (script.js:67).
- **Stale computer move.** `resetGame` never cancels the pending
  `setTimeout` that triggers the computer's move (script.js:59). So that move
  can still be played into the next game.
- **Draw branch.** `makeMove` has a separate draw branch (`else if` at
  script.js:51). `checkWinner` already reports a full board as a draw, so every
  terminal result takes the first branch and sets `gameOver`. `MakeMove` keeps
  both branches, and its contract shows that game over coincides with a
  non-null `checkWinner`.
- **Who is to move.** X is to move exactly when the two counts are equal only
  while the game runs. A move that ends the game keeps the current player,
  so in a finished game the current player is the one who moved last.
  `Consistent` states both halves.

## Model

| member | source | states |
|---|---|---|
| WinCheck.FirstLine | script.js:133-138 | the scan of lines from index i returns the lowest complete line at or after i, or none when every line from i on is incomplete |
| WinCheck.CheckWinner | script.js:126-145 | a win is reported for the lowest-indexed line (0..7) whose three cells hold one player's mark, with that player; a win is reported exactly when some line is complete; a draw exactly when no line is complete and all nine cells are taken; no result exactly when no line is complete and some cell is empty |
| WinCheck.EmptyBoardHasNoResult | script.js:3 | the initial board of nine empty cells has no result, nine empty cells and no marks |
| GameState.MakeMove | script.js:37-62 | a move on a finished game or a taken cell changes nothing; an accepted move writes the current player's mark on that cell only and keeps the mode; the game is then over exactly when checkWinner reports a win or a draw; a finished game keeps the mover as current player, a running one passes the turn to the other player |
| GameState.Reset | script.js:190-193 | the reset state has nine empty cells, X to move, the game not over, and the mode unchanged |
| GameState.SetGameMode | script.js:30-32 | choosing a mode sets that mode and yields the reset state |
| GameState.SchedulesAIMove | script.js:54-60 | the computer's reply is scheduled exactly when the computer mode is on, the move is accepted, it does not end the game, and X made it; a scheduled reply then finds a running game with O to move and at least one empty cell |
| GameState.ResetConsistent | script.js:190-193 | the state after a reset or a change of mode satisfies the game invariant |
| GameState.MakeMovePreservesConsistent | script.js:37-62 | every move keeps the game invariant: X count minus O count is 0 or 1; over exactly when checkWinner has a result; while running, X is to move exactly when the counts are equal; once over, the current player made the last move and the other player owns no line |
| GameState.PlayPreservesConsistent | script.js:37-62 | any sequence of moves from a state satisfying the invariant ends in a state satisfying it |
| GameState.PlayFromResetConsistent | script.js:190-193 | every state reached from a reset by any sequence of moves satisfies the game invariant |
| GameState.OverIsFinal | script.js:38 | once the game is over, no sequence of moves changes the state |
| GameState.WinnerMovedLast | script.js:45-48 | in a reachable state a reported winner is the current player, and at least five marks are on the board |
| GameState.DrawnGameEndsOnX | script.js:140-142 | in a reachable state a draw holds five X and four O, and X is the current player |
| GameState.NoDoubleWinner | script.js:133-137 | in a reachable state X and O never both own a complete line |
| AIAgent.Minimax | script.js:91-124 | the value is always -1, 0 or 1; on a board checkWinner decides, a win for O is 1, a win for X is -1 and a draw 0 |
| AIAgent.Scan | script.js:101-122 | the search loop stays within the scores and ends at its starting infinity only when it met no empty cell |
| AIAgent.ScanIsBest | script.js:103-110 | the loop's result is at least as good for the mover as its start and as every reply on the cells it visits, and it is one of those values |
| AIAgent.ValueBoundsReplies | script.js:101-123 | on an undecided board the value is at least the score of every O placement when maximising and at most the score of every X placement otherwise |
| AIAgent.ValueIsAttained | script.js:101-123 | on an undecided board the value is the score of the reply on some empty cell, so with the row above it is the maximum or minimum over the replies |
| AIAgent.FindBestMove | script.js:71-89 | returns -1 exactly when no cell is empty; otherwise an empty cell whose score for placing O is maximal, the lowest such index |
| AIAgent.BestMoveUnique | script.js:81-84 | the strict comparison makes the chosen move unique |
| AIAgent.MakeAIMove | script.js:64-69 | on a full board nothing happens; otherwise the state is the ordinary move on the best cell, and the game invariant is kept |
| AIAgent.MoveWithReply | script.js:37-69 | a human move is followed by the computer's reply exactly when one is scheduled; a scheduled reply always passes the `bestMove !== -1` guard, and its move is accepted and places an O on the best cell; the game invariant is kept |
| AIAgent.ChoiceWinsWhenWinAvailable | script.js:71-89 | on an undecided board where O can complete a line at once, the chosen move scores a win for O |
| AIAgent.ThreatMustBeBlocked | script.js:91-123 | when X could complete a line on cell t, every other O placement that does not win at once scores a loss |
| AIAgent.BlocksOpenRow | script.js:71-89 | with X on cells 0 and 1 and O on cell 3, the chosen move is cell 2 |
| AIAgent.MinimaxInPlace | script.js:103-119 | placing and erasing each trial mark on the shared array leaves it as it was and yields the value of Minimax |
| AIAgent.FindBestMoveInPlace | script.js:75-86 | placing and erasing each trial O on the shared array leaves it as it was and yields the best move, or -1 exactly on a full board |

## Left out

- DOM lookups, event listeners and button toggling (script.js:8-24, 33-34): presentation wiring. The click on a cell is the index argument of `MakeMove`.
- Cell CSS classes, the winning-cell highlight and the winning-line drawing (script.js:147-182, 194-199): presentation. The occupancy test reads cell classes that mirror the board, so it is modelled as `board[i] != Empty`.
- On a draw script.js calls the highlight with no line, which throws, and the status text reads as a win for the current player (script.js:48-49, 155). The game-over flag is set before that (script.js:47), and only that state effect is modelled.
- Status text (script.js:184-188) and audio and mute (script.js:203-223): side effects with no effect on game state.
- GameState.SchedulesAIMove: states when the reply is scheduled, not the 500 ms `setTimeout` itself (script.js:59). Only the scheduling is left out, not its effect. `AIAgent.MakeAIMove` takes any state and places `g.current`, as `makeMove` does, and it keeps the `Consistent` invariant. So a pending move that lands after a reset, or after the human has already played O, provably keeps the invariant too.
- The string-typed `dataset.index` (script.js:40) is modelled as an index in 0..8.
- Two facts about the whole game tree are not proved: that O never loses, and which cell O picks in reply to a first move. Each would require evaluating the search tree to full depth. Scenarios decided by an immediate win or block are proved without that (`ChoiceWinsWhenWinAvailable`, `ThreatMustBeBlocked`, `BlocksOpenRow`).

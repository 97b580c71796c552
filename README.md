# Tic-tac-toe game state and computer opponent

This project is a Dafny model of the game core of a browser tic-tac-toe game.
The core is a shared `gameState` object (board, player to move, `gameOver`,
undo history, mode, difficulty, scores) that the move, undo and reset
operations change in place. It also contains the computer opponent. The
repository holds three copies of this core, and each is modelled:

- the modular web version, in `www/modules/gameLogic.js`,
  `www/modules/uiLogic.js` and `www/main.js`;
- the monolithic web version, `www/script.js`, which repeats the modular
  code. It differs only in where `makeMove` pushes the history and how
  `handleCellClick` decides whether to schedule the computer's reply;
- the older root version, `script.js`. It has its own rule-based opponent
  (win, block, centre, corner, edge, random), a `makeMove` that guards
  itself, an `undoMove` without a game-over guard, and a `resetGame` that
  keeps the scores.

Layout:

- `board.dfy` (module `Board`): cells, the eight win combos, the first
  complete combo and its winner, the full-board test, the empty cells in
  order, and mark counts.
- `gamestate.dfy` (module `GameState`): the `gameState` record as the
  datatype `State`, and the class `Game` whose fields the operations
  update. It also holds the invariant `Consistent`, which every guarded
  operation keeps:
  - one history snapshot per mark on the board;
  - X and O counts balanced;
  - `gameOver` exactly on a won or full board;
  - the player to move is the one whose turn it is;
  - a win belongs to the player credited.
- `gamelogic.dfy` (module `GameLogic`):
  - the random move and the static evaluator;
  - minimax with alpha-beta pruning, specified by the recursive function
    `MinimaxValue` and implemented by the loop methods `Minimax`,
    `MaxChildren` and `MinChildren`;
  - the smart move and `saveGameState`.
- `play.dfy` (module `Play`): every state change as a function on `State`,
  plus the lemmas about sequences of operations (consistency, undo
  round-trips, guards).
- `uilogic.dfy`, `maincontroller.dfy`, `webscript.dfy`, `rootscript.dfy`:
  the state-changing functions of each source file as methods on a `Game`.
  Each method is proved equal to a pure specification function:
  - the move, undo, reset and click methods to their transition in `Play`;
  - the root `makeAIMove` to `RootScript.RootAIMoved`;
  - the root `getBestMove` to `RootScript.BestMove`, and its probe loop
    to `RootScript.FirstWinningCell`.
  `rootscript.dfy` also holds the rule-based opponent of the root version
  as functions.

`Math.random()` is a parameter of the model:
- `pick` is the draw that chooses a random cell, turned into an index by
  `PickIndex` (`Math.floor(r * n)`);
- `coin` is the medium-difficulty flip;
- `noise` is the stream of draws that `evaluateBoard` consumes during a
  search. The search threads a cursor through it in evaluation order.

Floating-point scores are exact reals. The `-Infinity` and `Infinity` of
the search are the sentinels `NegInf = -1000` and `PosInf = 1000`.
`GameLogic.MinimaxInRange` proves that every value the search returns lies
strictly between -41 and 41, so no comparison can tell the sentinels from
the infinities.

The code decides the following points, and the model follows it:
- Undo. The web versions refuse to undo once the game is over. The root
  version undoes anyway and reopens the game.
- Undo after the last move. Root undo restores the board, the player and
  the history, but not a score credited by that move
  (`Play.RootUndoAfterMove`).
- Medium difficulty. In the web versions it uses the search when
  `Math.random() < 0.7`; in the root version it uses the rules when
  `Math.random() > 0.5`.
- History. It is an unbounded list.

## Model

| member | source | states |
|---|---|---|
| Board.Other | script.js:153 | the turn passes to the other player |
| Board.WinCombosAreRowsColumnsDiagonals | www/modules/gameLogic.js:4-13 | the eight combos are the three rows, three columns and two diagonals, in that order, each of three distinct cells |
| Board.EveryLineIsAWinCombo | www/modules/gameLogic.js:4-13 | every row, column and diagonal of the 3×3 grid is among the combos |
| Board.WinningLine | script.js:275-286 | definition: the first combo whose three cells hold the same mark; its meaning is stated by `WinningLineIsFirstComplete` and `WinDetectedOnEveryLine` |
| Board.HasWin | www/modules/gameLogic.js:134-151 | definition: the web `checkWin` result, true exactly when `WinningLine` finds a combo |
| Board.WinningLineIsFirstComplete | www/modules/gameLogic.js:134-151 | the scan reports a combo exactly when one is complete, and the one reported is the first complete combo in order |
| Board.Winner | www/modules/gameLogic.js:68-79 | `getWinner` returns a player exactly when a combo is complete, and that player fills the reported combo |
| Board.WinDetectedOnEveryLine | script.js:275-286 | a combo filled by one player is always detected as a win |
| Board.DrawIsFullWithoutWin | www/modules/gameLogic.js:154-156 | a full board without a complete combo has no winner |
| Board.IsFull | www/modules/gameLogic.js:154-156 | definition: `checkDraw`, no cell is empty; related to mark counts by `FullIffNineMarks` |
| Board.EmptyAmong | www/modules/gameLogic.js:110-112 | definition: the `filter` of the empty cells among a list of indices, in list order; the web version filters all nine cells, the root version its corners and edges (script.js:225-226) |
| Board.EmptyAmongSound | www/modules/gameLogic.js:110-112 | every index the filter keeps is an empty cell of the list |
| Board.EmptyAmongComplete | www/modules/gameLogic.js:110-112 | every empty cell of the list is kept |
| Board.EmptyAmongIncreasing | www/modules/gameLogic.js:110-112 | filtering keeps an ascending list ascending |
| Board.EmptyCells | www/modules/gameLogic.js:17-19 | definition: the filter applied to the nine cells in order; its meaning is stated by `EmptyCellsSpec` |
| Board.EmptyCellsSpec | www/modules/gameLogic.js:17-19 | the `map`/`filter` of empty indices is exactly the empty cells in increasing order, and is empty exactly on a full board |
| Board.FullIffNineMarks | www/modules/gameLogic.js:82-84 | a board is full exactly when it holds nine marks |
| Board.EmptyBoardHasNoMarks | script.js:5 | the fresh board has no marks, is not full and has no winner |
| GameState.Initial | www/main.js:29-48 | definition: the initial `gameState` (empty board, X to move, open, no history, player-vs-player on 'easy', zero scores); consistent by `InitialIsConsistent` |
| GameState.Consistent | www/modules/uiLogic.js:140-169 | definition: the game invariant that the moves maintain: one snapshot per mark, balanced counts, `gameOver` exactly on a won or full board, the right player to move, the win credited to its owner; kept by every `...PreservesConsistent` lemma |
| GameState.Credit | www/modules/uiLogic.js:48 | a win credits exactly the winner's score and leaves the others |
| GameState.InitialIsConsistent | www/main.js:29-48 | the initial state satisfies the game invariant |
| GameState.Game.constructor | www/main.js:29-48 | a new game is X to move on an empty board, open, in player-vs-player mode on 'easy', with no history and zero scores |
| GameLogic.PickIndex | www/modules/gameLogic.js:23 | `Math.floor(r * n)` is the index k < n with k <= r·n < k+1 |
| GameLogic.MakeRandomMove | www/modules/gameLogic.js:16-25 | null exactly on a full board, otherwise an empty cell |
| GameLogic.RandomMoveIsUniform | www/modules/gameLogic.js:16-25 | the j-th empty cell is chosen exactly when the draw falls in [j/n, (j+1)/n) |
| GameLogic.Evaluation | www/modules/gameLogic.js:87-107 | definition: `evaluateBoard`, the line scores plus the `Jitter` of one draw; bounded by `EvaluationBounds` and computed by `EvaluateBoard` |
| GameLogic.LineScore | www/modules/gameLogic.js:92-101 | one combo contributes between -5 and 5 |
| GameLogic.LinesScore | www/modules/gameLogic.js:92-101 | the sum over the lines is bounded by 5 per line |
| GameLogic.Jitter | www/modules/gameLogic.js:104 | the random term lies in [-0.1, 0.1) |
| GameLogic.EvaluationBounds | www/modules/gameLogic.js:87-107 | every heuristic score lies in [-40.1, 40.1) |
| GameLogic.EvaluateBoard | www/modules/gameLogic.js:87-107 | the loop over the combos computes the evaluation with the next draw of the noise stream |
| GameLogic.MinimaxValue | www/modules/gameLogic.js:30-65 | definition: the value and noise cursor of `minimax`: terminal scores, the evaluator at depth 0, otherwise the fold over the empty cells; the loop methods are proved equal to it and `MinimaxInRange` bounds it |
| GameLogic.FoldChildren | www/modules/gameLogic.js:42-64 | definition: the children loop with the alpha or beta update and the `beta <= alpha` cut-off, threading the noise cursor; computed by `MaxChildren` and `MinChildren` |
| GameLogic.MinimaxTerminalOrder | www/modules/gameLogic.js:32-36 | an O win scores 10, an X win -10 and a draw 0, in that order of checks, and depth 0 uses the evaluator, consuming one draw |
| GameLogic.MinimaxInRange | www/modules/gameLogic.js:30-65 | every search value lies strictly between -41 and 41, so the infinite initial bounds never escape |
| GameLogic.MinimaxUnfold | www/modules/gameLogic.js:38-64 | a non-terminal position with depth left is scored by folding over its empty cells in order |
| GameLogic.Minimax | www/modules/gameLogic.js:30-65 | the recursive search returns the value and the noise cursor that `MinimaxValue` assigns |
| GameLogic.MaxChildren | www/modules/gameLogic.js:42-52 | the maximizing loop with alpha update and pruning computes the specified fold |
| GameLogic.MinChildren | www/modules/gameLogic.js:53-64 | the minimizing loop with beta update and pruning computes the specified fold |
| GameLogic.FoldInRange | www/modules/gameLogic.js:42-64 | folding children whose values are in range never leaves the initial infinity as result |
| GameLogic.CandidateScores | www/modules/gameLogic.js:119-128 | one score per candidate cell |
| GameLogic.CandidateStep | www/modules/gameLogic.js:119-122 | the first candidate's score is the minimizing search after O plays there, and the rest continue from the noise cursor it leaves |
| GameLogic.FirstMax | www/modules/gameLogic.js:124-127 | the strict `>` update keeps the first index of the maximum score |
| GameLogic.SmartChoice | www/modules/gameLogic.js:110-130 | null exactly on a full board, otherwise an empty cell |
| GameLogic.SmartChoiceIsEarliestBest | www/modules/gameLogic.js:110-130 | the smart move is the earliest empty cell whose score is the maximum |
| GameLogic.SmartAdvance | www/modules/gameLogic.js:119-128 | scoring the next candidate and keeping it only on a strictly greater score keeps the loop invariant: the scores so far, the best cell as the first maximum and its score |
| GameLogic.MakeSmartMove | www/modules/gameLogic.js:28-131 | the loop over the empty cells returns the specified choice |
| GameLogic.SaveGameState | www/modules/gameLogic.js:159-164 | a snapshot of the current board and player is appended to the history and nothing else changes |
| Play.Saved | www/modules/gameLogic.js:159-164 | definition: `saveGameState` on a value, a snapshot of board and player appended to the history; `SaveGameState` is proved to compute it |
| Play.Won | www/modules/uiLogic.js:44-49 | definition: `handleWin` on a value, game over and the player to move credited; `HandleWin` is proved to compute it |
| Play.Drawn | www/modules/uiLogic.js:70-86 | definition: `handleDraw` on a value, game over and the ties credited; `HandleDraw` is proved to compute it |
| Play.Undone | www/modules/uiLogic.js:172-181 | definition: the web undo, a no-op on an empty history or a finished game, otherwise the last snapshot restored and the game reopened; stated by `ClickThenUndo`, `UndoAfterGameOverIsNoop` and `UndoPreservesConsistent` |
| Play.AIMoved | www/main.js:169-198 | definition: the web computer move, a no-op on a finished game or an absent choice, otherwise the snapshot and the move; stated by `AIMoveWhenOverIsNoop`, `AIMoveAddsOneMark` and `AIMovePreservesConsistent` |
| Play.RootUndone | script.js:251-257 | definition: the root undo, a no-op only on an empty history; stated by `RootUndoAfterMove`, `UndoGuardsDiffer` and `RootUndoPreservesConsistent` |
| Play.Placed | www/modules/uiLogic.js:140-169 | the mark lands at the index and nowhere else; the game ends exactly on a win or a full board, crediting the mover or the ties; otherwise the turn passes |
| Play.Cleared | www/modules/uiLogic.js:98-110 | an empty board, X to move, open, no history, scores and settings kept |
| Play.Restarted | www/modules/uiLogic.js:113-125 | an empty board, X to move, open, no history, all scores zero, mode and difficulty kept |
| Play.Clicked | www/main.js:148-166 | a click on a taken cell or a finished game changes nothing; an accepted click is the move on the saved state; the reply is scheduled exactly when the move left the game open with the computer, as O, to play |
| Play.AIChoice | www/main.js:169-198 | the chosen cell is absent exactly on a full board and is otherwise empty |
| Play.MoveCounts | www/modules/uiLogic.js:142 | a move adds one mark of the mover and none of the other player |
| Play.TurnAfterMove | www/modules/uiLogic.js:163-167 | the player to move keeps the counts balanced and hands the turn to the other |
| Play.NewWinIsMover | www/modules/uiLogic.js:157-159 | a line completed by a move belongs to the mover, so `handleWin` credits the right player |
| Play.PlacePreservesConsistent | www/main.js:148-166 | a guarded move with the snapshot pushed keeps the invariant |
| Play.PopPreservesConsistent | www/modules/uiLogic.js:172-197 | restoring the last snapshot gives a consistent open game |
| Play.ClickPreservesConsistent | www/main.js:148-166 | a click keeps the invariant |
| Play.UndoPreservesConsistent | www/modules/uiLogic.js:172-197 | an undo keeps the invariant |
| Play.AIMovePreservesConsistent | www/main.js:169-198 | the computer's move keeps the invariant |
| Play.ResetsAreConsistent | www/modules/uiLogic.js:98-125 | both resets start a consistent game |
| Play.AIMoveWhenOverIsNoop | www/main.js:169-198 | with the game over or the board full, the computer's move changes nothing |
| Play.AIMoveAddsOneMark | www/main.js:169-198 | on an open game the computer adds exactly one mark and one snapshot |
| Play.ClickThenUndo | www/modules/uiLogic.js:172-197 | undoing a move that left the game open restores the exact prior state |
| Play.UndoAfterGameOverIsNoop | www/modules/uiLogic.js:173 | the web undo refuses once the game is over |
| Play.RootMoved | script.js:118-156 | root `makeMove` refuses exactly an index off the board, a taken cell or a finished game, returning false and changing nothing |
| Play.RootClicked | script.js:94-108 | root clicks are ignored on a finished game, a taken cell or while the computer is to move; an accepted click is the root move on the saved state; the reply is scheduled exactly when the click was accepted and left the game open with the computer, as O, to move |
| Play.RootClickPreservesConsistent | script.js:94-108 | root clicks keep the invariant |
| Play.RootMovePreservesConsistent | script.js:118-156 | root moves keep the invariant |
| Play.RootUndoPreservesConsistent | script.js:251-272 | root undo keeps the invariant, even when it reopens a finished game |
| Play.RootUndoAfterMove | script.js:251-272 | root undo right after an accepted move restores everything but the scores |
| Play.UndoGuardsDiffer | script.js:251-272 | after a game-ending move the web undo does nothing while the root undo reopens the game |
| UiLogic.HandleWin | www/modules/uiLogic.js:44-67 | the game is over and the player to move is credited |
| UiLogic.HandleDraw | www/modules/uiLogic.js:70-86 | the game is over and the ties are credited |
| UiLogic.MakeMove | www/modules/uiLogic.js:140-169 | the in-place move is the `Placed` transition, returning whether the game ended |
| UiLogic.UndoMove | www/modules/uiLogic.js:172-197 | the in-place undo is the guarded pop |
| UiLogic.ResetBoard | www/modules/uiLogic.js:98-110 | the in-place reset is `Cleared` |
| UiLogic.ResetGame | www/modules/uiLogic.js:113-125 | the in-place reset is `Restarted` |
| MainController.HandleCellClick | www/main.js:148-166 | the click handler is the `Clicked` transition |
| MainController.MakeAIMove | www/main.js:169-198 | the computer's move is the `AIMoved` transition |
| WebScript.MakeMove | www/script.js:559-585 | saving the state and then placing the mark |
| WebScript.HandleCellClick | www/script.js:541-556 | the same transition as the modular click handler |
| WebScript.MakeAIMove | www/script.js:588-613 | the same transition as the modular computer move |
| RootScript.GetRandomMove | script.js:182-189 | -1 exactly on a full board, otherwise an empty cell |
| RootScript.CheckWinForPlayerSpec | script.js:246-248 | the root check holds exactly when some combo is filled by the player |
| RootScript.CheckWinForPlayerMatchesWinner | script.js:246-248 | the root check implies a win on the board, and holds for the winner `checkWin` reports |
| RootScript.CheckWinForPlayer | script.js:246-248 | definition: some combo has all three cells held by the player; stated by `CheckWinForPlayerSpec` |
| RootScript.FirstWinningCell | script.js:194-203 | definition: the lowest empty cell from an index on where the player's mark would complete a combo; stated by `FirstWinningCellSpec` |
| RootScript.FirstWinningCellSpec | script.js:194-203 | the probe scan finds the lowest cell where the player would win, and none exactly when there is none |
| RootScript.Fallback | script.js:217-242 | definition: the centre on 'hard', else on any level but 'easy' a random free corner, else a random free edge, else a random cell; stated by `FallbackIsLegal` |
| RootScript.FallbackIsLegal | script.js:217-242 | the positional fallback is -1 exactly on a full board, otherwise an empty cell; 'hard' takes a free centre; any level but 'easy' then takes a free corner, else a free edge; 'easy' goes straight to the random move |
| RootScript.BestMove | script.js:192-243 | definition: win, else block, else the fallback; `GetBestMove` is proved to compute it and the lemmas below state it |
| RootScript.BestMoveIsLegal | script.js:192-243 | the rule-based move is -1 exactly on a full board, otherwise an empty cell |
| RootScript.BestMoveWinsFirst | script.js:194-203 | an immediate win for O is taken, at the lowest winning cell |
| RootScript.BestMoveBlocksSecond | script.js:206-215 | with no win available, X's lowest winning cell is blocked |
| RootScript.BestMoveFallsBack | script.js:217-242 | with nothing to win or block, the positional fallback decides |
| RootScript.FindWinningCell | script.js:194-203 | each probe write is erased again, so the game is unchanged, and the first winning cell is returned |
| RootScript.GetBestMove | script.js:192-243 | the board is restored after probing, and the result is the rule-based move |
| RootScript.RootAIChoice | script.js:159-179 | the cell asked for is -1 exactly on a full board, otherwise an empty cell |
| RootScript.RootAIMoved | script.js:159-179 | definition: the root computer move, a no-op on a finished game, otherwise the root move at the chosen cell, which refuses the -1 of a full board; stated by `RootAIMoveIsLegal` |
| RootScript.RootAIMoveIsLegal | script.js:159-179 | the computer's move keeps the invariant and on an open game always adds a snapshot |
| RootScript.MakeMove | script.js:118-156 | the in-place move is the `RootMoved` transition, with its result |
| RootScript.MakeAIMove | script.js:159-179 | the in-place computer move is the `RootAIMoved` transition |
| RootScript.HandleCellClick | script.js:94-108 | the click handler is the `RootClicked` transition |
| RootScript.UndoMove | script.js:251-272 | the in-place undo pops without a game-over guard |
| RootScript.ResetGame | script.js:316-338 | the board, player, `gameOver` and history are reset, the scores kept, and no computer move is scheduled |

## Left out

- Rendering: cell text, the turn indicator, the status text, the score
  display, the modal, highlighting the winning cells, sounds, particles,
  confetti and floating elements. `checkWin` is modelled by its result
  only.
- The `cell.textContent !== ''` test of the click handlers: it reads the
  board as rendered, which mirrors `boardState`, so the model tests the
  board.
- `loadSettings`, `saveSettings` and `localStorage`. They are input and
  output outside the game state.
- Translations and `formatString`. They only build messages.
- Timers and event listeners: the 500 ms delay before the computer's move,
  `playAgain`, `closeModal`, and the mode and difficulty change handlers.
  The click handlers return whether they schedule the computer's move
  instead of scheduling it.
- The monolithic web version's `handleWin`, `handleDraw`, `resetBoard`,
  `resetGame`, `saveGameState`, `undoMove`, `checkWin`, `checkDraw`,
  `makeRandomMove` and `makeSmartMove` are the same code as the modular
  ones. They are modelled once, in `UiLogic` and `GameLogic`.
- The root `checkWin` compares `combo[0]` with `combo[2]` where the web
  versions compare `combo[1]` with `combo[2]`. The two are equivalent, so
  both are `Board.WinningLine`.
- The `depth` argument of the root `getBestMove` is never read. The model
  has no such parameter.
- `Math.random()` is passed in as `pick`, `coin` and `noise` rather than
  drawn.
- IEEE floating point: scores are exact reals. `-Infinity` and `Infinity`
  are the sentinels -1000 and 1000.
- GameLogic.RandomMoveIsUniform: states which draws choose each cell,
  not a probability distribution, because the model has no probabilities.
- The root `resetGame` also clears the rendered cells, the status text and
  leftover particles. Its scheduling of a first computer move is dead code, because it runs just
  after the player is set to X. `RootScript.ResetGame` returns that
  decision, and it is always false.

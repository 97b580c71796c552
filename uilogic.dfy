/** The state effects of the modular version's UI module: `makeMove`,
    `undoMove`, `resetBoard`, `resetGame` and the `gameOver` and score
    updates of `handleWin` and `handleDraw`. Each changes the shared game
    object in place and is specified by a transition of Play. */
module UiLogic {
  import opened Board
  import opened GameState
  import opened Play

  /** `handleWin`: sets `gameOver` and credits `scores[currentPlayer]`. */
  method HandleWin(g: Game)
    modifies g
    ensures g.Value() == Won(old(g.Value()))
  {
    g.gameOver := true;
    g.scores := Credit(g.scores, g.player);
  }

  /** `handleDraw`: sets `gameOver` and credits `scores.ties`. */
  method HandleDraw(g: Game)
    modifies g
    ensures g.Value() == Drawn(old(g.Value()))
  {
    g.gameOver := true;
    g.scores := g.scores.(ties := g.scores.ties + 1);
  }

  /** `makeMove(index, ...)`: writes the mover's mark without checking the
      cell (the caller does), then handles a win, else a draw, else passes
      the turn; returns whether the game ended. */
  method MakeMove(g: Game, index: Index) returns (ended: bool)
    modifies g
    ensures (g.Value(), ended) == Placed(old(g.Value()), index)
  {
    g.board := g.board[index := Mark(g.player)];
    if HasWin(g.board) {
      HandleWin(g);
      return true;
    } else if IsFull(g.board) {
      HandleDraw(g);
      return true;
    } else {
      g.player := Other(g.player);
      return false;
    }
  }

  /** `undoMove`: refused on an empty history or a finished game; otherwise
      pops the last snapshot and restores its board and player. */
  method UndoMove(g: Game)
    modifies g
    ensures g.Value() == Undone(old(g.Value()))
  {
    if |g.history| == 0 || g.gameOver {
      return;
    }
    var prevState := g.history[|g.history| - 1];
    g.history := g.history[..|g.history| - 1];
    g.board := prevState.board;
    g.player := prevState.player;
    g.gameOver := false;
  }

  /** `resetBoard`. */
  method ResetBoard(g: Game)
    modifies g
    ensures g.Value() == Cleared(old(g.Value()))
  {
    g.player := X;
    g.gameOver := false;
    g.board := EmptyBoard;
    g.history := [];
  }

  /** `resetGame`: `resetBoard`, then the scores are zeroed. */
  method ResetGame(g: Game)
    modifies g
    ensures g.Value() == Restarted(old(g.Value()))
  {
    ResetBoard(g);
    g.scores := Scores(0, 0, 0);
  }
}

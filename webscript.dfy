/** The monolithic web version. Its `handleWin`, `handleDraw`,
    `resetBoard`, `resetGame`, `saveGameState`, `undoMove`, win and draw
    checks, random move and smart move are the same code as the modular
    version's and are modelled once, in UiLogic and GameLogic. What differs
    is where the history push happens: here `makeMove` saves the state
    itself, and `handleCellClick` checks `gameOver` after the move instead
    of using `makeMove`'s return value. */
module WebScript {
  import opened Board
  import opened GameState
  import opened GameLogic
  import opened Play
  import UiLogic

  /** `makeMove(index)`: saves the state, writes the mark, then handles a
      win, else a draw, else passes the turn. */
  method MakeMove(g: Game, index: Index)
    modifies g
    ensures g.Value() == Placed(Saved(old(g.Value())), index).0
  {
    SaveGameState(g);
    g.board := g.board[index := Mark(g.player)];
    if HasWin(g.board) {
      UiLogic.HandleWin(g);
    } else if IsFull(g.board) {
      UiLogic.HandleDraw(g);
    } else {
      g.player := Other(g.player);
    }
  }

  /** `handleCellClick`: the same guard and the same scheduling decision as
      the modular controller, read from the state after the move. */
  method HandleCellClick(g: Game, index: Index) returns (scheduled: bool)
    modifies g
    ensures (g.Value(), scheduled) == Clicked(old(g.Value()), index)
  {
    if g.board[index] != Empty || g.gameOver {
      return false;
    }
    MakeMove(g, index);
    scheduled := g.mode == Ai && g.player == O && !g.gameOver;
  }

  /** `makeAIMove`: the same dispatch; the move saves the state itself. */
  method MakeAIMove(g: Game, coin: real, pick: real, noise: Noise)
    requires UnitInterval(pick) && NoiseInRange(noise)
    modifies g
    ensures g.Value() == AIMoved(old(g.Value()), coin, pick, noise)
  {
    if g.gameOver {
      return;
    }
    var index: Option<Index>;
    match g.difficulty {
      case Easy =>
        index := MakeRandomMove(g.board, pick);
      case Medium =>
        if coin < 0.7 {
          index := MakeSmartMove(g.board, 1, noise);
        } else {
          index := MakeRandomMove(g.board, pick);
        }
      case Hard =>
        index := MakeSmartMove(g.board, 2, noise);
      case Unlisted =>
        index := MakeRandomMove(g.board, pick);
    }
    if index.Some? {
      MakeMove(g, index.value);
    }
  }
}

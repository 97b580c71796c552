/** The controller of the modular version: the click guard with the
    history push, and the computer's move with its difficulty dispatch.
    `Math.random()` arrives as `coin` (the medium flip), `pick` (the random
    cell) and `noise` (the evaluator's draws). */
module MainController {
  import opened Board
  import opened GameState
  import opened GameLogic
  import opened Play
  import UiLogic

  /** `handleCellClick`: ignores a taken cell or a finished game; otherwise
      saves the state, makes the move, and returns whether the computer's
      reply is scheduled. */
  method HandleCellClick(g: Game, index: Index) returns (scheduled: bool)
    modifies g
    ensures (g.Value(), scheduled) == Clicked(old(g.Value()), index)
  {
    if g.board[index] != Empty || g.gameOver {
      return false;
    }
    SaveGameState(g);
    var gameEnded := UiLogic.MakeMove(g, index);
    scheduled := !gameEnded && g.mode == Ai && g.player == O;
  }

  /** `makeAIMove`. */
  method MakeAIMove(g: Game, coin: real, pick: real, noise: Noise)
    requires UnitInterval(pick) && NoiseInRange(noise)
    modifies g
    ensures g.Value() == AIMoved(old(g.Value()), coin, pick, noise)
  {
    if g.gameOver {
      return;
    }
    var index: Option<Index>;
    match g.difficulty {
      case Easy =>
        index := MakeRandomMove(g.board, pick);
      case Medium =>
        if coin < 0.7 {
          index := MakeSmartMove(g.board, 1, noise);
        } else {
          index := MakeRandomMove(g.board, pick);
        }
      case Hard =>
        index := MakeSmartMove(g.board, 2, noise);
      case Unlisted =>
        index := MakeRandomMove(g.board, pick);
    }
    if index.Some? {
      SaveGameState(g);
      var _ := UiLogic.MakeMove(g, index.value);
    }
  }
}

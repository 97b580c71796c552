/** What each state-changing operation does to the whole `gameState`, as
    functions on `State`, and the properties of play built from them: legal
    moves keep the game consistent, a human move is undone exactly, and the
    computer only ever picks an empty cell.

    The functions here specify the methods of UiLogic, MainController,
    WebScript and RootScript; those methods change a `Game` object in place
    and promise `g.Value() == F(old(g.Value()))`. */
module Play {
  import opened Board
  import opened GameState
  import opened GameLogic

  // ---- the modular and monolithic web versions ----

  /** `saveGameState`: the board and player pushed onto the history. */
  function Saved(s: State): State
  {
    s.(history := s.history + [Snapshot(s.board, s.player)])
  }

  /** `handleWin`: the game is over and the player to move is credited. */
  function Won(s: State): State
  {
    s.(gameOver := true, scores := Credit(s.scores, s.player))
  }

  /** `handleDraw`: the game is over and the ties counter is credited. */
  function Drawn(s: State): State
  {
    s.(gameOver := true, scores := s.scores.(ties := s.scores.ties + 1))
  }

  /** `makeMove(index)` of the modular version: the mover's mark is written,
      then a win is handled, else a draw, else the turn passes. The flag
      is the function's return value: whether the game ended. */
  function Placed(s: State, i: Index): (r: (State, bool))
    ensures var (t, ended) := r;
      && t.board[i] == Mark(s.player)
      && (forall j :: 0 <= j < 9 && j != i ==> t.board[j] == s.board[j])
      && t.history == s.history && t.mode == s.mode && t.difficulty == s.difficulty
      && (ended <==> HasWin(t.board) || IsFull(t.board))
      && (HasWin(t.board) ==> t.gameOver && t.player == s.player && t.scores == Credit(s.scores, s.player))
      && (!HasWin(t.board) && IsFull(t.board) ==>
            t.gameOver && t.player == s.player && t.scores == s.scores.(ties := s.scores.ties + 1))
      && (!ended ==> t.player == Other(s.player) && t.gameOver == s.gameOver && t.scores == s.scores)
  {
    var moved := s.(board := s.board[i := Mark(s.player)]);
    if HasWin(moved.board) then (Won(moved), true)
    else if IsFull(moved.board) then (Drawn(moved), true)
    else (moved.(player := Other(s.player)), false)
  }

  /** `undoMove` of the web versions: nothing happens with an empty
      history or a finished game; otherwise the last snapshot is popped and
      restored and the game is open again. */
  function Undone(s: State): State
  {
    if |s.history| == 0 || s.gameOver then s
    else
      var last := s.history[|s.history| - 1];
      s.(board := last.board, player := last.player, gameOver := false,
         history := s.history[..|s.history| - 1])
  }

  /** `resetBoard`: X to move on an empty board, open, no history. */
  function Cleared(s: State): (t: State)
    ensures t.board == EmptyBoard && t.player == X && !t.gameOver && t.history == []
    ensures t.scores == s.scores && t.mode == s.mode && t.difficulty == s.difficulty
  {
    s.(board := EmptyBoard, player := X, gameOver := false, history := [])
  }

  /** `resetGame` of the web versions: `resetBoard` and all scores zero. */
  function Restarted(s: State): (t: State)
    ensures t.board == EmptyBoard && t.player == X && !t.gameOver && t.history == []
    ensures t.scores == Scores(0, 0, 0) && t.mode == s.mode && t.difficulty == s.difficulty
  {
    Cleared(s).(scores := Scores(0, 0, 0))
  }

  /** `handleCellClick` of the modular version: a click on a taken cell or
      after the game ended is ignored; otherwise the state is saved and the
      move made, and the computer's reply is scheduled when the game goes on
      in 'ai' mode with O to move. The flag says whether it is scheduled. */
  function Clicked(s: State, i: Index): (r: (State, bool))
    ensures s.board[i] != Empty || s.gameOver ==> r == (s, false)
    ensures s.board[i] == Empty && !s.gameOver ==> r.0 == Placed(Saved(s), i).0
    ensures r.1 <==> s.board[i] == Empty && !s.gameOver && !r.0.gameOver && r.0.mode == Ai && r.0.player == O
  {
    if s.board[i] != Empty || s.gameOver then (s, false)
    else
      var (t, ended) := Placed(Saved(s), i);
      (t, !ended && t.mode == Ai && t.player == O)
  }

  /** The cell `makeAIMove` picks, by difficulty: 'easy' (and any value not
      listed) a random cell; 'medium' the depth-1 smart move when the draw
      `coin` is below 0.7, else a random cell; 'hard' the depth-2 smart
      move. None only on a full board; otherwise an empty cell. */
  function AIChoice(b: Board, d: Difficulty, coin: real, pick: real, noise: Noise): (m: Option<Index>)
    requires UnitInterval(pick)
    ensures m.None? <==> IsFull(b)
    ensures m.Some? ==> b[m.value] == Empty
  {
    match d
    case Easy => MakeRandomMove(b, pick)
    case Medium => if coin < 0.7 then SmartChoice(b, 1, noise) else MakeRandomMove(b, pick)
    case Hard => SmartChoice(b, 2, noise)
    case Unlisted => MakeRandomMove(b, pick)
  }

  /** `makeAIMove`: nothing after game over or without a cell to play;
      otherwise the state is saved and the chosen move made. */
  function AIMoved(s: State, coin: real, pick: real, noise: Noise): State
    requires UnitInterval(pick)
  {
    if s.gameOver then s
    else match AIChoice(s.board, s.difficulty, coin, pick, noise)
      case None => s
      case Some(i) => Placed(Saved(s), i).0
  }

  // ---- the counting facts behind consistency ----

  /** A move adds one mark of the mover's and none of the other's. */
  lemma MoveCounts(b: Board, i: Index, p: Player)
    requires b[i] == Empty
    ensures Count(b[i := Mark(p)], Mark(p)) == Count(b, Mark(p)) + 1
    ensures Count(b[i := Mark(p)], Mark(Other(p))) == Count(b, Mark(Other(p)))
    ensures MarkCount(b[i := Mark(p)]) == MarkCount(b) + 1
  {
    CountUpdate(b, i, Mark(p), Mark(p));
    CountUpdate(b, i, Mark(p), Mark(Other(p)));
  }

  /** The player whose turn it is moves: the counts stay balanced and the
      turn passes to the other player. */
  lemma TurnAfterMove(b: Board, i: Index)
    requires Balanced(b) && b[i] == Empty
    ensures Balanced(b[i := Mark(Turn(b))])
    ensures Turn(b[i := Mark(Turn(b))]) == Other(Turn(b))
  {
    MoveCounts(b, i, Turn(b));
  }

  /** On a board without a win, a line completed by a move runs through the
      moved cell, so the winner reported is the mover. */
  lemma NewWinIsMover(b: Board, i: Index, p: Player)
    requires !HasWin(b) && b[i] == Empty
    ensures HasWin(b[i := Mark(p)]) ==> Winner(b[i := Mark(p)]) == Some(p)
  {
    var b' := b[i := Mark(p)];
    WinningLineIsFirstComplete(b);
    if HasWin(b') {
      WinningLineIsFirstComplete(b');
      var l := WinningLine(b').value;
      assert l in WinCombos && Complete(b', l);
      assert !Complete(b, l);
      assert l.a == i || l.b == i || l.c == i;
    }
  }

  // ---- consistency ----

  /** A legal move from a consistent open game, with the snapshot pushed
      first, gives a consistent game. */
  lemma PlacePreservesConsistent(s: State, i: Index)
    requires Consistent(s) && !s.gameOver && s.board[i] == Empty
    ensures Consistent(Placed(Saved(s), i).0)
  {
    var t := Placed(Saved(s), i).0;
    var b := s.board;
    TurnAfterMove(b, i);
    MoveCounts(b, i, s.player);
    NewWinIsMover(b, i, s.player);
    assert t.board == b[i := Mark(s.player)];
    var h := Saved(s).history;
    assert OpenSnapshot(h[|s.history|]);
    forall j | 0 <= j < |h|
      ensures OpenSnapshot(h[j]) && MarkCount(h[j].board) == j
    {
      if j < |s.history| {
        assert h[j] == s.history[j];
      }
    }
  }

  /** The last snapshot, restored, is a consistent open game. */
  lemma PopPreservesConsistent(s: State)
    requires Consistent(s) && |s.history| > 0
    ensures var last := s.history[|s.history| - 1];
      Consistent(s.(board := last.board, player := last.player, gameOver := false,
                    history := s.history[..|s.history| - 1]))
  {
    var n := |s.history|;
    var last := s.history[n - 1];
    assert OpenSnapshot(last) && MarkCount(last.board) == n - 1;
    var h := s.history[..n - 1];
    forall j | 0 <= j < |h|
      ensures OpenSnapshot(h[j]) && MarkCount(h[j].board) == j
    {
      assert h[j] == s.history[j];
    }
  }

  lemma ClickPreservesConsistent(s: State, i: Index)
    requires Consistent(s)
    ensures Consistent(Clicked(s, i).0)
  {
    if s.board[i] == Empty && !s.gameOver {
      PlacePreservesConsistent(s, i);
    }
  }

  lemma UndoPreservesConsistent(s: State)
    requires Consistent(s)
    ensures Consistent(Undone(s))
  {
    if |s.history| > 0 && !s.gameOver {
      PopPreservesConsistent(s);
    }
  }

  lemma AIMovePreservesConsistent(s: State, coin: real, pick: real, noise: Noise)
    requires Consistent(s) && UnitInterval(pick)
    ensures Consistent(AIMoved(s, coin, pick, noise))
  {
    if !s.gameOver {
      var m := AIChoice(s.board, s.difficulty, coin, pick, noise);
      if m.Some? {
        PlacePreservesConsistent(s, m.value);
      }
    }
  }

  /** Both resets start a consistent game. */
  lemma ResetsAreConsistent(s: State)
    ensures Consistent(Cleared(s)) && Consistent(Restarted(s))
  {
    EmptyBoardHasNoMarks();
  }

  // ---- properties of play ----

  /** The computer does nothing once the game is over or the board is
      full: there is no cell to choose. */
  lemma AIMoveWhenOverIsNoop(s: State, coin: real, pick: real, noise: Noise)
    requires UnitInterval(pick)
    requires s.gameOver || IsFull(s.board)
    ensures AIMoved(s, coin, pick, noise) == s
  {
  }

  /** On an open game the computer always moves: one more snapshot, one
      more mark, and the new mark is the mover's, on a cell that was empty. */
  lemma AIMoveAddsOneMark(s: State, coin: real, pick: real, noise: Noise)
    requires Consistent(s) && !s.gameOver && UnitInterval(pick)
    ensures var t := AIMoved(s, coin, pick, noise);
      && |t.history| == |s.history| + 1
      && MarkCount(t.board) == MarkCount(s.board) + 1
      && exists i :: 0 <= i < 9 && s.board[i] == Empty && t.board == s.board[i := Mark(s.player)]
  {
    assert !IsFull(s.board);
    var m := AIChoice(s.board, s.difficulty, coin, pick, noise);
    var i := m.value;
    MoveCounts(s.board, i, s.player);
    var t := AIMoved(s, coin, pick, noise);
    assert t.board == s.board[i := Mark(s.player)];
  }

  /** A snapshot is pushed before every human move, so undoing a move that
      did not end the game gives back the state before the click. */
  lemma ClickThenUndo(s: State, i: Index)
    requires s.board[i] == Empty && !s.gameOver
    requires !Clicked(s, i).0.gameOver
    ensures Undone(Clicked(s, i).0) == s
  {
    var t := Clicked(s, i).0;
    assert t.history == s.history + [Snapshot(s.board, s.player)];
    assert t.history[..|t.history| - 1] == s.history;
  }

  /** After a move that ended the game, undo does nothing. */
  lemma UndoAfterGameOverIsNoop(s: State)
    requires s.gameOver
    ensures Undone(s) == s
  {
  }

  // ---- the older root version ----

  /** Root `makeMove(index)`: refused, returning false, for an index with
      no empty cell (an index outside the board reads `undefined`, which
      is not '') or after game over; otherwise the snapshot is pushed, the
      mark written and the outcome handled as in the web versions, and
      the call returns true. */
  function RootMoved(s: State, index: int): (r: (State, bool))
    ensures !r.1 <==> !(0 <= index < 9) || s.board[index] != Empty || s.gameOver
    ensures !r.1 ==> r.0 == s
  {
    if !(0 <= index < 9) || s.board[index] != Empty || s.gameOver then (s, false)
    else (Placed(Saved(s), index).0, true)
  }

  /** Root `undoMove`: no game-over guard, only the empty-history one. */
  function RootUndone(s: State): State
  {
    if |s.history| == 0 then s
    else
      var last := s.history[|s.history| - 1];
      s.(board := last.board, player := last.player, gameOver := false,
         history := s.history[..|s.history| - 1])
  }

  /** Root `handleCellClick`: also ignores clicks while the computer is to
      move in 'ai' mode. */
  function RootClicked(s: State, i: Index): (r: (State, bool))
    ensures s.gameOver || s.board[i] != Empty || (s.mode == Ai && s.player == O) ==> r == (s, false)
    ensures !(s.gameOver || s.board[i] != Empty || (s.mode == Ai && s.player == O)) ==>
      r.0 == Placed(Saved(s), i).0
    ensures r.1 <==> s.board[i] == Empty && !s.gameOver && !(s.mode == Ai && s.player == O)
                     && !r.0.gameOver && r.0.mode == Ai && r.0.player == O
  {
    if s.gameOver || s.board[i] != Empty || (s.mode == Ai && s.player == O) then (s, false)
    else
      var t := RootMoved(s, i).0;
      (t, !t.gameOver && t.mode == Ai && t.player == O)
  }

  /** Root moves keep the game consistent. */
  lemma RootMovePreservesConsistent(s: State, index: int)
    requires Consistent(s)
    ensures Consistent(RootMoved(s, index).0)
  {
    if 0 <= index < 9 && s.board[index] == Empty && !s.gameOver {
      PlacePreservesConsistent(s, index);
    }
  }

  /** Root clicks keep the game consistent. */
  lemma RootClickPreservesConsistent(s: State, i: Index)
    requires Consistent(s)
    ensures Consistent(RootClicked(s, i).0)
  {
    RootMovePreservesConsistent(s, i);
  }

  /** Root undo keeps the game consistent even when it reopens a finished
      game. */
  lemma RootUndoPreservesConsistent(s: State)
    requires Consistent(s)
    ensures Consistent(RootUndone(s))
  {
    if |s.history| > 0 {
      PopPreservesConsistent(s);
    }
  }

  /** Root undo directly after an accepted move restores everything but
      the scores: a win or draw credited by the move stays credited. */
  lemma RootUndoAfterMove(s: State, index: int)
    requires RootMoved(s, index).1
    ensures var t := RootMoved(s, index).0;
      RootUndone(t) == s.(scores := t.scores)
  {
    var t := RootMoved(s, index).0;
    assert t.history == s.history + [Snapshot(s.board, s.player)];
    assert t.history[..|t.history| - 1] == s.history;
  }

  /** The web undo differs: after a move that ended the game it refuses,
      while the root undo reopens the game. */
  lemma UndoGuardsDiffer(s: State, index: int)
    requires RootMoved(s, index).1 && RootMoved(s, index).0.gameOver
    ensures Undone(RootMoved(s, index).0) == RootMoved(s, index).0
    ensures !RootUndone(RootMoved(s, index).0).gameOver
  {
  }
}

/** The older root version. Its `makeMove` guards the cell and the game
    itself and pushes the history itself; its computer opponent is
    rule-based (win, block, centre, corner, edge, random); its `undoMove`
    has no game-over guard; its `resetGame` keeps the scores. `Math.random()`
    arrives as `coin` (the medium flip) and `pick` (whichever random cell
    is drawn: at most one such draw happens per move). */
module RootScript {
  import opened Board
  import opened GameState
  import opened GameLogic
  import opened Play

  // ---- move selection ----

  /** `getRandomMove`: -1 when no cell is empty, otherwise a uniformly
      drawn empty cell. */
  function GetRandomMove(b: Board, pick: real): (m: int)
    requires UnitInterval(pick)
    ensures m == -1 <==> IsFull(b)
    ensures m != -1 ==> 0 <= m < 9 && b[m] == Empty
  {
    match MakeRandomMove(b, pick)
    case None => -1
    case Some(i) => i
  }

  /** Some line of `lines` holds `p`'s mark in all three cells. */
  function AnyFilledBy(b: Board, lines: seq<Line>, p: Player): bool
  {
    if lines == [] then false
    else FilledBy(b, lines[0], p) || AnyFilledBy(b, lines[1..], p)
  }

  lemma {:induction false} AnyFilledBySpec(b: Board, lines: seq<Line>, p: Player)
    ensures AnyFilledBy(b, lines, p) <==> exists l :: l in lines && FilledBy(b, l, p)
  {
    if lines != [] {
      AnyFilledBySpec(b, lines[1..], p);
      assert lines == [lines[0]] + lines[1..];
    }
  }

  /** `checkWinForPlayer(player)`: `winCombos.some` of `every` cell holding
      `player`'s mark. */
  function CheckWinForPlayer(b: Board, p: Player): bool
  {
    AnyFilledBy(b, WinCombos, p)
  }

  /** The root check holds exactly when some win combo is filled by `p`. */
  lemma CheckWinForPlayerSpec(b: Board, p: Player)
    ensures CheckWinForPlayer(b, p) <==> exists l :: l in WinCombos && FilledBy(b, l, p)
  {
    AnyFilledBySpec(b, WinCombos, p);
  }

  /** The root check agrees with the shared winner: a filled line means the
      board has a winner, and the player the winner check reports passes
      the root check. */
  lemma CheckWinForPlayerMatchesWinner(b: Board, p: Player)
    ensures CheckWinForPlayer(b, p) ==> HasWin(b)
    ensures Winner(b) == Some(p) ==> CheckWinForPlayer(b, p)
  {
    CheckWinForPlayerSpec(b, p);
    if CheckWinForPlayer(b, p) {
      var l :| l in WinCombos && FilledBy(b, l, p);
      WinDetectedOnEveryLine(b, l, p);
    }
    if Winner(b) == Some(p) {
      WinningLineIsFirstComplete(b);
      var k :| 0 <= k < |WinCombos| && WinningLine(b).value == WinCombos[k];
      assert WinCombos[k] in WinCombos;
    }
  }

  /** Playing `p` in cell `i`, which is empty, completes a line for `p`. */
  predicate WinsAt(b: Board, p: Player, i: Index)
  {
    b[i] == Empty && CheckWinForPlayer(b[i := Mark(p)], p)
  }

  /** The scan `for (let i = 0; i < 9; i++)` from `from` on: the first cell
      where `p` would win at once. */
  function FirstWinningCell(b: Board, p: Player, from: nat): Option<Index>
    requires from <= 9
    decreases 9 - from
  {
    if from == 9 then None
    else if WinsAt(b, p, from) then Some(from as Index)
    else FirstWinningCell(b, p, from + 1)
  }

  /** The scan finds the lowest winning cell from `from` on, and finds none
      exactly when there is none. */
  lemma {:induction false} FirstWinningCellSpec(b: Board, p: Player, from: nat)
    requires from <= 9
    ensures var r := FirstWinningCell(b, p, from);
      (r.Some? ==> from <= r.value && WinsAt(b, p, r.value)
                   && forall j :: from <= j < r.value ==> !WinsAt(b, p, j))
      && (r.None? <==> forall j :: from <= j < 9 ==> !WinsAt(b, p, j))
    decreases 9 - from
  {
    if from < 9 && !WinsAt(b, p, from) {
      FirstWinningCellSpec(b, p, from + 1);
    }
  }

  const Corners: seq<Index> := [0, 2, 6, 8]
  const Edges: seq<Index> := [1, 3, 5, 7]

  /** `getBestMove`'s positional fallback once there is nothing to win or
      block: the centre on 'hard', else (on anything but 'easy') a random
      free corner, else a random free edge, else `getRandomMove`. */
  function Fallback(b: Board, d: Difficulty, pick: real): int
    requires UnitInterval(pick)
  {
    var corners := EmptyAmong(b, Corners);
    var edges := EmptyAmong(b, Edges);
    if d == Hard && b[4] == Empty then 4
    else if d != Easy && |corners| > 0 then corners[PickIndex(pick, |corners|)]
    else if d != Easy && |edges| > 0 then edges[PickIndex(pick, |edges|)]
    else GetRandomMove(b, pick)
  }

  /** The fallback is -1 exactly on a full board, otherwise an empty cell;
      'hard' takes a free centre, and anything but 'easy' otherwise takes a
      free corner when there is one, else a free edge when there is one;
      'easy' goes straight to the random move. */
  lemma FallbackIsLegal(b: Board, d: Difficulty, pick: real)
    requires UnitInterval(pick)
    ensures var m := Fallback(b, d, pick);
      (m == -1 <==> IsFull(b)) && (m != -1 ==> 0 <= m < 9 && b[m] == Empty)
    ensures d == Hard && b[4] == Empty ==> Fallback(b, d, pick) == 4
    ensures (d != Easy && !(d == Hard && b[4] == Empty) && exists c :: c in Corners && b[c] == Empty)
      ==> Fallback(b, d, pick) in Corners
    ensures (d != Easy && !(d == Hard && b[4] == Empty) && (forall c :: c in Corners ==> b[c] != Empty)
             && exists e :: e in Edges && b[e] == Empty)
      ==> Fallback(b, d, pick) in Edges
    ensures d == Easy ==> Fallback(b, d, pick) == GetRandomMove(b, pick)
  {
    var corners := EmptyAmong(b, Corners);
    var edges := EmptyAmong(b, Edges);
    EmptyAmongSound(b, Corners);
    EmptyAmongSound(b, Edges);
    EmptyAmongComplete(b, Corners);
    EmptyAmongComplete(b, Edges);
    if d != Easy && |corners| > 0 {
      assert corners[PickIndex(pick, |corners|)] in Corners;
    }
    if d != Easy && |edges| > 0 {
      assert edges[PickIndex(pick, |edges|)] in Edges;
    }
    if d != Easy && !(d == Hard && b[4] == Empty) && (exists c :: c in Corners && b[c] == Empty) {
      var c :| c in Corners && b[c] == Empty;
      assert c in corners;
    }
    if d != Easy && !(d == Hard && b[4] == Empty) && (forall c :: c in Corners ==> b[c] != Empty)
       && (exists e :: e in Edges && b[e] == Empty) {
      var e :| e in Edges && b[e] == Empty;
      assert e in edges;
    }
  }

  /** What `getBestMove` returns on board `b`: O's first winning cell,
      else X's first winning cell (a block), else the fallback. The `depth`
      argument is unused. */
  function BestMove(b: Board, d: Difficulty, pick: real): int
    requires UnitInterval(pick)
  {
    match FirstWinningCell(b, O, 0)
    case Some(i) => i
    case None =>
      match FirstWinningCell(b, X, 0)
      case Some(i) => i
      case None => Fallback(b, d, pick)
  }

  /** The rule-based move is -1 exactly on a full board, and otherwise an
      empty cell. */
  lemma BestMoveIsLegal(b: Board, d: Difficulty, pick: real)
    requires UnitInterval(pick)
    ensures BestMove(b, d, pick) == -1 <==> IsFull(b)
    ensures BestMove(b, d, pick) != -1 ==> 0 <= BestMove(b, d, pick) < 9 && b[BestMove(b, d, pick)] == Empty
  {
    FirstWinningCellSpec(b, O, 0);
    FirstWinningCellSpec(b, X, 0);
    FallbackIsLegal(b, d, pick);
    if IsFull(b) {
      forall j | 0 <= j < 9
        ensures !WinsAt(b, O, j) && !WinsAt(b, X, j)
      {
        assert b[j] in b;
      }
    }
  }

  /** A winning cell for O is taken before anything else, and it is the
      lowest such cell. */
  lemma BestMoveWinsFirst(b: Board, d: Difficulty, pick: real, i: Index)
    requires UnitInterval(pick) && WinsAt(b, O, i)
    ensures var m := BestMove(b, d, pick);
      0 <= m <= i && WinsAt(b, O, m) && forall j :: 0 <= j < m ==> !WinsAt(b, O, j)
  {
    FirstWinningCellSpec(b, O, 0);
  }

  /** With no winning cell for O, the lowest cell where X would win is
      blocked. */
  lemma BestMoveBlocksSecond(b: Board, d: Difficulty, pick: real, i: Index)
    requires UnitInterval(pick)
    requires forall j :: 0 <= j < 9 ==> !WinsAt(b, O, j)
    requires WinsAt(b, X, i)
    ensures var m := BestMove(b, d, pick);
      0 <= m <= i && WinsAt(b, X, m) && forall j :: 0 <= j < m ==> !WinsAt(b, X, j)
  {
    FirstWinningCellSpec(b, O, 0);
    FirstWinningCellSpec(b, X, 0);
  }

  /** With nothing to win or block, the choice is the fallback. */
  lemma BestMoveFallsBack(b: Board, d: Difficulty, pick: real)
    requires UnitInterval(pick)
    requires forall j :: 0 <= j < 9 ==> !WinsAt(b, O, j) && !WinsAt(b, X, j)
    ensures BestMove(b, d, pick) == Fallback(b, d, pick)
  {
    FirstWinningCellSpec(b, O, 0);
    FirstWinningCellSpec(b, X, 0);
  }

  /** One of `getBestMove`'s two scans: tries `p`'s mark in each empty
      cell in turn, erasing it again, and stops at the first that completes
      a line for `p`. The game is unchanged on return. */
  method FindWinningCell(g: Game, p: Player) returns (r: Option<Index>)
    modifies g
    ensures g.Value() == old(g.Value())
    ensures r == FirstWinningCell(g.board, p, 0)
  {
    ghost var b0 := g.board;
    for i := 0 to 9
      invariant g.Value() == old(g.Value())
      invariant FirstWinningCell(b0, p, 0) == FirstWinningCell(b0, p, i)
    {
      if g.board[i] == Empty {
        g.board := g.board[i := Mark(p)];
        var wins := CheckWinForPlayer(g.board, p);
        g.board := g.board[i := Empty];
        assert g.board == b0;
        if wins {
          return Some(i);
        }
      }
    }
    return None;
  }

  /** `getBestMove(depth)`: the win scan for O, the block scan for X, then
      the centre, corner, edge and random fallbacks. */
  method GetBestMove(g: Game, pick: real) returns (m: int)
    requires UnitInterval(pick)
    modifies g
    ensures g.Value() == old(g.Value())
    ensures m == BestMove(g.board, g.difficulty, pick)
  {
    var win := FindWinningCell(g, O);
    if win.Some? {
      return win.value;
    }
    var block := FindWinningCell(g, X);
    if block.Some? {
      return block.value;
    }
    if g.difficulty == Hard && g.board[4] == Empty {
      return 4;
    }
    if g.difficulty != Easy {
      var availableCorners := EmptyAmong(g.board, Corners);
      if |availableCorners| > 0 {
        return availableCorners[PickIndex(pick, |availableCorners|)];
      }
      var availableEdges := EmptyAmong(g.board, Edges);
      if |availableEdges| > 0 {
        return availableEdges[PickIndex(pick, |availableEdges|)];
      }
    }
    m := GetRandomMove(g.board, pick);
  }

  /** The cell root `makeAIMove` asks for, by difficulty: 'medium' uses the
      rules when the draw `coin` exceeds 0.5 and a random cell otherwise;
      'hard' always uses the rules; 'easy' and any other value a random
      cell. -1 exactly on a full board, otherwise an empty cell. */
  function RootAIChoice(b: Board, d: Difficulty, coin: real, pick: real): (m: int)
    requires UnitInterval(pick)
    ensures m == -1 <==> IsFull(b)
    ensures m != -1 ==> 0 <= m < 9 && b[m] == Empty
  {
    BestMoveIsLegal(b, d, pick);
    match d
    case Easy => GetRandomMove(b, pick)
    case Medium => if coin > 0.5 then BestMove(b, d, pick) else GetRandomMove(b, pick)
    case Hard => BestMove(b, d, pick)
    case Unlisted => GetRandomMove(b, pick)
  }

  /** Root `makeAIMove`: nothing after game over; otherwise `makeMove` on
      the chosen index, which refuses the -1 of a full board. */
  function RootAIMoved(s: State, coin: real, pick: real): State
    requires UnitInterval(pick)
  {
    if s.gameOver then s
    else RootMoved(s, RootAIChoice(s.board, s.difficulty, coin, pick)).0
  }

  /** The computer's move keeps the game consistent, and on an open game
      it always places a mark. */
  lemma RootAIMoveIsLegal(s: State, coin: real, pick: real)
    requires Consistent(s) && UnitInterval(pick)
    ensures Consistent(RootAIMoved(s, coin, pick))
    ensures !s.gameOver ==> |RootAIMoved(s, coin, pick).history| == |s.history| + 1
  {
    if !s.gameOver {
      var m := RootAIChoice(s.board, s.difficulty, coin, pick);
      assert !IsFull(s.board);
      RootMovePreservesConsistent(s, m);
    }
  }

  // ---- state changes ----

  /** Root `makeMove(index)`. */
  method MakeMove(g: Game, index: int) returns (accepted: bool)
    modifies g
    ensures (g.Value(), accepted) == RootMoved(old(g.Value()), index)
  {
    if !(0 <= index < 9) || g.board[index] != Empty || g.gameOver {
      return false;
    }
    g.history := g.history + [Snapshot(g.board, g.player)];
    g.board := g.board[index := Mark(g.player)];
    var winCombo := WinningLine(g.board);
    if winCombo.Some? {
      g.gameOver := true;
      g.scores := Credit(g.scores, g.player);
      return true;
    }
    if IsFull(g.board) {
      g.gameOver := true;
      g.scores := g.scores.(ties := g.scores.ties + 1);
      return true;
    }
    g.player := Other(g.player);
    return true;
  }

  /** Root `makeAIMove`. */
  method MakeAIMove(g: Game, coin: real, pick: real)
    requires UnitInterval(pick)
    modifies g
    ensures g.Value() == RootAIMoved(old(g.Value()), coin, pick)
  {
    if g.gameOver {
      return;
    }
    var index: int;
    match g.difficulty {
      case Easy =>
        index := GetRandomMove(g.board, pick);
      case Medium =>
        if coin > 0.5 {
          index := GetBestMove(g, pick);
        } else {
          index := GetRandomMove(g.board, pick);
        }
      case Hard =>
        index := GetBestMove(g, pick);
      case Unlisted =>
        index := GetRandomMove(g.board, pick);
    }
    var _ := MakeMove(g, index);
  }

  /** Root `handleCellClick` on the cell with data-index `index`. */
  method HandleCellClick(g: Game, index: Index) returns (scheduled: bool)
    modifies g
    ensures (g.Value(), scheduled) == RootClicked(old(g.Value()), index)
  {
    if g.gameOver || g.board[index] != Empty || (g.mode == Ai && g.player == O) {
      return false;
    }
    var _ := MakeMove(g, index);
    scheduled := !g.gameOver && g.mode == Ai && g.player == O;
  }

  /** Root `undoMove`. */
  method UndoMove(g: Game)
    modifies g
    ensures g.Value() == RootUndone(old(g.Value()))
  {
    if |g.history| == 0 {
      return;
    }
    var lastState := g.history[|g.history| - 1];
    g.history := g.history[..|g.history| - 1];
    g.board := lastState.board;
    g.player := lastState.player;
    g.gameOver := false;
  }

  /** Root `resetGame`: the board, player, `gameOver` and history are
      reset and the scores kept. Its closing check for an opening computer
      move reads the player it has just set to X, so it never schedules. */
  method ResetGame(g: Game) returns (scheduled: bool)
    modifies g
    ensures g.Value() == Cleared(old(g.Value()))
    ensures !scheduled
  {
    g.board := EmptyBoard;
    g.player := X;
    g.gameOver := false;
    g.history := [];
    scheduled := g.mode == Ai && g.player == O;
  }
}

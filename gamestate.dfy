/** The shared `gameState` object that every copy of the game mutates in
    place, its value as a datatype, and the invariant that legal play
    keeps: the board, the undo history and the player to move agree. */
module GameState {
  import opened Board

  /** A history entry: a copy of the board and the player to move. */
  datatype Snapshot = Snapshot(board: Board, player: Player)

  datatype Scores = Scores(x: nat, o: nat, ties: nat)

  /** The value of the mode radio buttons, 'pvp' or 'ai'. */
  datatype Mode = Pvp | Ai

  /** The value of the difficulty radio buttons; `Unlisted` stands for any
      other string, which the dispatch treats like 'easy'. */
  datatype Difficulty = Easy | Medium | Hard | Unlisted

  /** Everything the game logic reads and writes in `gameState`. */
  datatype State = State(
    board: Board,
    player: Player,
    gameOver: bool,
    history: seq<Snapshot>,
    mode: Mode,
    difficulty: Difficulty,
    scores: Scores)

  /** `scores[player]++`. */
  function Credit(s: Scores, p: Player): (r: Scores)
    ensures r.ties == s.ties
    ensures p == X ==> r.x == s.x + 1 && r.o == s.o
    ensures p == O ==> r.o == s.o + 1 && r.x == s.x
  {
    if p == X then s.(x := s.x + 1) else s.(o := s.o + 1)
  }

  /** The object literal the game starts from: empty board, X to move,
      player-versus-player, easy, no scores. */
  const Initial: State := State(EmptyBoard, X, false, [], Pvp, Easy, Scores(0, 0, 0))

  /** Whose turn it is in a game X opened: X when both have placed as many
      marks, O otherwise. */
  function Turn(b: Board): Player
  {
    if Count(b, Mark(X)) == Count(b, Mark(O)) then X else O
  }

  /** X has placed as many marks as O, or one more. */
  predicate Balanced(b: Board)
  {
    Count(b, Mark(X)) == Count(b, Mark(O)) || Count(b, Mark(X)) == Count(b, Mark(O)) + 1
  }

  /** A snapshot taken before a move: an unfinished game and its mover. */
  predicate OpenSnapshot(sn: Snapshot)
  {
    Balanced(sn.board) && !HasWin(sn.board) && !IsFull(sn.board) && sn.player == Turn(sn.board)
  }

  /** The invariant of a game played through the guarded operations:
      - the number of marks equals the number of snapshots (one per move),
      - snapshot j is an unfinished position with j marks,
      - `gameOver` holds exactly when the board shows a win or is full,
      - in an unfinished game the player to move is the one whose turn it is,
      - after a win, the winner reported is `currentPlayer`, whose score
        was credited. */
  ghost predicate Consistent(s: State)
  {
    && MarkCount(s.board) == |s.history|
    && Balanced(s.board)
    && (forall j :: 0 <= j < |s.history| ==>
          OpenSnapshot(s.history[j]) && MarkCount(s.history[j].board) == j)
    && (s.gameOver <==> HasWin(s.board) || IsFull(s.board))
    && (!s.gameOver ==> s.player == Turn(s.board))
    && (HasWin(s.board) ==> Winner(s.board) == Some(s.player))
  }

  lemma InitialIsConsistent()
    ensures Consistent(Initial)
  {
    EmptyBoardHasNoMarks();
  }

  /** The `gameState` object itself. */
  class Game {
    var board: Board
    var player: Player
    var gameOver: bool
    var history: seq<Snapshot>
    var mode: Mode
    var difficulty: Difficulty
    var scores: Scores

    function Value(): State
      reads this
    {
      State(board, player, gameOver, history, mode, difficulty, scores)
    }

    constructor ()
      ensures Value() == Initial
    {
      board := EmptyBoard;
      player := X;
      gameOver := false;
      history := [];
      mode := Pvp;
      difficulty := Easy;
      scores := Scores(0, 0, 0);
    }
  }
}

/** The computer opponent of the web versions: the random move, the static
    evaluator, depth-limited minimax with alpha-beta pruning and the smart
    move built on it, plus the history push `saveGameState`.

    `Math.random()` is injected: a single draw `r` in [0, 1) where one value
    is drawn, and for the evaluator a stream `noise` of draws consumed in
    the order the evaluator is called, with a cursor `k` threaded through
    the search. Scores are reals, so the jitter is modelled exactly. */
module GameLogic {
  import opened Board
  import opened GameState

  /** Successive results of `Math.random()`. */
  type Noise = nat -> real

  predicate UnitInterval(r: real)
  {
    0.0 <= r < 1.0
  }

  ghost predicate NoiseInRange(noise: Noise)
  {
    forall n :: UnitInterval(noise(n))
  }

  /** `Math.floor(r * n)`: a uniformly drawn position in a list of n. */
  function PickIndex(r: real, n: nat): (k: nat)
    requires UnitInterval(r) && n > 0
    ensures k < n
    ensures k as real <= r * n as real < k as real + 1.0
  {
    assert 0.0 <= r * n as real < n as real by {
      assert r * n as real <= 1.0 * n as real;
      assert r * n as real != n as real;
    }
    (r * n as real).Floor
  }

  /** `makeRandomMove`: null on a full board, otherwise an empty cell. */
  function MakeRandomMove(b: Board, r: real): (m: Option<Index>)
    requires UnitInterval(r)
    ensures m.None? <==> IsFull(b)
    ensures m.Some? ==> b[m.value] == Empty
  {
    EmptyCellsSpec(b);
    var cells := EmptyCells(b);
    if |cells| == 0 then None else Some(cells[PickIndex(r, |cells|)])
  }

  /** The draw is uniform over the empty cells: the j-th empty cell is
      chosen exactly when `r * n` falls in [j, j + 1), an interval of width
      1/n of the draws. */
  lemma RandomMoveIsUniform(b: Board, r: real, j: nat)
    requires UnitInterval(r) && j < |EmptyCells(b)|
    ensures var n := |EmptyCells(b)|;
      MakeRandomMove(b, r) == Some(EmptyCells(b)[j]) <==> j as real <= r * n as real < j as real + 1.0
  {
    var cells := EmptyCells(b);
    EmptyCellsSpec(b);
    var k := PickIndex(r, |cells|);
    assert k != j ==> cells[k] != cells[j];
  }

  // ---- static evaluator ----

  /** One line's contribution to `evaluateBoard`: +5 for two O and no X,
      +1 for one O and no X, -5 for two X and no O, 0 otherwise. */
  function LineScore(b: Board, l: Line): (s: int)
    ensures -5 <= s <= 5
  {
    var line := [b[l.a], b[l.b], b[l.c]];
    var countX := Count(line, Mark(X));
    var countO := Count(line, Mark(O));
    (if countO == 2 && countX == 0 then 5 else 0)
      + (if countO == 1 && countX == 0 then 1 else 0)
      + (if countX == 2 && countO == 0 then -5 else 0)
  }

  /** The line scores summed over `lines`, in order. */
  function LinesScore(b: Board, lines: seq<Line>): (s: int)
    ensures -5 * |lines| <= s <= 5 * |lines|
  {
    if lines == [] then 0
    else LinesScore(b, lines[..|lines| - 1]) + LineScore(b, lines[|lines| - 1])
  }

  /** `Math.random() * 0.2 - 0.1`: a jitter in [-0.1, 0.1) for a draw in [0, 1). */
  function Jitter(r: real): (j: real)
    ensures UnitInterval(r) ==> -0.1 <= j < 0.1
  {
    r * 0.2 - 0.1
  }

  /** The value `evaluateBoard` returns when `Math.random()` yields `r`. */
  function Evaluation(b: Board, r: real): real
  {
    LinesScore(b, WinCombos) as real + Jitter(r)
  }

  /** The evaluator stays within [-40.1, 40.1): eight lines of at most 5
      each, plus the jitter. */
  lemma EvaluationBounds(b: Board, r: real)
    requires UnitInterval(r)
    ensures -40.1 <= Evaluation(b, r) < 40.1
  {
    var s := LinesScore(b, WinCombos);
    assert -40 <= s <= 40;
    var j := Jitter(r);
  }

  /** `evaluateBoard`, consuming draw number `k`. */
  method EvaluateBoard(b: Board, noise: Noise, k: nat) returns (score: real)
    ensures score == Evaluation(b, noise(k))
  {
    var total := 0;
    for i := 0 to |WinCombos|
      invariant total == LinesScore(b, WinCombos[..i])
    {
      var combo := WinCombos[i];
      var line := [b[combo.a], b[combo.b], b[combo.c]];
      var countX := Count(line, Mark(X));
      var countO := Count(line, Mark(O));
      if countO == 2 && countX == 0 { total := total + 5; }
      if countO == 1 && countX == 0 { total := total + 1; }
      if countX == 2 && countO == 0 { total := total - 5; }
      assert WinCombos[..i + 1][..i] == WinCombos[..i];
    }
    assert WinCombos[..|WinCombos|] == WinCombos;
    score := total as real;
    score := score + noise(k) * 0.2 - 0.1;
  }

  // ---- minimax with alpha-beta pruning ----

  /** Stand-ins for -Infinity and Infinity; every score lies strictly
      between them (MinimaxInRange). */
  const NegInf: real := -1000.0
  const PosInf: real := 1000.0

  predicate InRange(x: real)
  {
    -41.0 < x < 41.0
  }

  function Max(a: real, b: real): real { if a >= b then a else b }
  function Min(a: real, b: real): real { if a <= b then a else b }

  /** A search result: the score and the cursor of the next unused draw. */
  datatype Search = Search(score: real, next: nat)

  /** The value of `minimax(board, depth, isMaximizing, alpha, beta)` with
      the evaluator drawing from `noise` starting at draw `k`. O is the
      computer (maximising), X its opponent. */
  function MinimaxValue(b: Board, depth: nat, maximizing: bool, alpha: real, beta: real,
                        noise: Noise, k: nat): Search
    decreases depth, 1, 0
  {
    match Winner(b)
    case Some(O) => Search(10.0, k)
    case Some(X) => Search(-10.0, k)
    case None =>
      if IsFull(b) then Search(0.0, k)
    else if depth == 0 then Search(Evaluation(b, noise(k)), k + 1)
    else FoldChildren(b, EmptyCells(b), depth, maximizing, alpha, beta,
                      if maximizing then NegInf else PosInf, noise, k)
  }

  /** The loop over the remaining empty `cells`: each child is a copy of
      the board with the mover's mark in one cell; `best` is `maxEval` or
      `minEval`, and the loop stops once `beta <= alpha`. */
  function FoldChildren(b: Board, cells: seq<Index>, depth: nat, maximizing: bool,
                        alpha: real, beta: real, best: real, noise: Noise, k: nat): Search
    requires depth >= 1
    decreases depth, 0, |cells|
  {
    if cells == [] then Search(best, k)
    else
      var child := MinimaxValue(b[cells[0] := Mark(if maximizing then O else X)],
                                depth - 1, !maximizing, alpha, beta, noise, k);
      var best' := if maximizing then Max(best, child.score) else Min(best, child.score);
      var alpha' := if maximizing then Max(alpha, child.score) else alpha;
      var beta' := if maximizing then beta else Min(beta, child.score);
      if beta' <= alpha' then Search(best', child.next)
      else FoldChildren(b, cells[1..], depth, maximizing, alpha', beta', best', noise, child.next)
  }

  /** Terminal states are checked first and in this order: an O line
      scores 10, an X line -10, a full board 0, and only then does depth 0
      call the evaluator (consuming one draw). */
  lemma MinimaxTerminalOrder(b: Board, depth: nat, maximizing: bool, alpha: real, beta: real,
                             noise: Noise, k: nat)
    ensures var v := MinimaxValue(b, depth, maximizing, alpha, beta, noise, k);
      && (Winner(b) == Some(O) ==> v == Search(10.0, k))
      && (Winner(b) == Some(X) ==> v == Search(-10.0, k))
      && (Winner(b).None? && IsFull(b) ==> v == Search(0.0, k))
      && (Winner(b).None? && !IsFull(b) && depth == 0 ==> v == Search(Evaluation(b, noise(k)), k + 1))
  {
  }

  /** Every minimax value lies strictly between -41 and 41, so the
      sentinels behave as the infinities of the source. */
  lemma {:induction false} MinimaxInRange(b: Board, depth: nat, maximizing: bool, alpha: real, beta: real,
                                          noise: Noise, k: nat)
    requires NoiseInRange(noise)
    ensures InRange(MinimaxValue(b, depth, maximizing, alpha, beta, noise, k).score)
    decreases depth, 1, 0
  {
    match Winner(b)
    case Some(p) =>
    case None =>
      if !IsFull(b) {
        if depth == 0 {
          EvaluationBounds(b, noise(k));
        } else {
          EmptyCellsSpec(b);
          FoldInRange(b, EmptyCells(b), depth, maximizing, alpha, beta,
                      if maximizing then NegInf else PosInf, noise, k);
        }
      }
  }

  /** One step of the children loop, unfolded, for a known child result. */
  lemma FoldStep(b: Board, cells: seq<Index>, depth: nat, maximizing: bool,
                 alpha: real, beta: real, best: real, noise: Noise, k: nat, child: Search)
    requires depth >= 1 && cells != []
    requires child == MinimaxValue(b[cells[0] := Mark(if maximizing then O else X)],
                                   depth - 1, !maximizing, alpha, beta, noise, k)
    ensures var best' := if maximizing then Max(best, child.score) else Min(best, child.score);
      var alpha' := if maximizing then Max(alpha, child.score) else alpha;
      var beta' := if maximizing then beta else Min(beta, child.score);
      FoldChildren(b, cells, depth, maximizing, alpha, beta, best, noise, k)
        == if beta' <= alpha' then Search(best', child.next)
           else FoldChildren(b, cells[1..], depth, maximizing, alpha', beta', best', noise, child.next)
  {
  }

  /** The same step at position `i` of a list of cells. */
  lemma FoldAdvance(b: Board, cells: seq<Index>, i: nat, depth: nat, maximizing: bool,
                    alpha: real, beta: real, best: real, noise: Noise, k: nat, child: Search)
    requires depth >= 1 && i < |cells|
    requires child == MinimaxValue(b[cells[i] := Mark(if maximizing then O else X)],
                                   depth - 1, !maximizing, alpha, beta, noise, k)
    ensures var best' := if maximizing then Max(best, child.score) else Min(best, child.score);
      var alpha' := if maximizing then Max(alpha, child.score) else alpha;
      var beta' := if maximizing then beta else Min(beta, child.score);
      FoldChildren(b, cells[i..], depth, maximizing, alpha, beta, best, noise, k)
        == if beta' <= alpha' then Search(best', child.next)
           else FoldChildren(b, cells[i + 1..], depth, maximizing, alpha', beta', best', noise, child.next)
  {
    assert cells[i..][0] == cells[i] && cells[i..][1..] == cells[i + 1..];
    FoldStep(b, cells[i..], depth, maximizing, alpha, beta, best, noise, k, child);
  }

  /** A position that is neither won nor full, searched with depth left,
      is the fold over its empty cells. */
  lemma MinimaxUnfold(b: Board, depth: nat, maximizing: bool, alpha: real, beta: real, noise: Noise, k: nat)
    requires Winner(b).None? && !IsFull(b) && depth >= 1
    ensures MinimaxValue(b, depth, maximizing, alpha, beta, noise, k)
         == FoldChildren(b, EmptyCells(b), depth, maximizing, alpha, beta,
                         if maximizing then NegInf else PosInf, noise, k)
  {
  }

  lemma {:induction false} FoldInRange(b: Board, cells: seq<Index>, depth: nat, maximizing: bool,
                                       alpha: real, beta: real, best: real, noise: Noise, k: nat)
    requires depth >= 1 && NoiseInRange(noise)
    requires InRange(best) || (cells != [] && best == if maximizing then NegInf else PosInf)
    ensures InRange(FoldChildren(b, cells, depth, maximizing, alpha, beta, best, noise, k).score)
    decreases depth, 0, |cells|
  {
    if cells != [] {
      var mark := Mark(if maximizing then O else X);
      MinimaxInRange(b[cells[0] := mark], depth - 1, !maximizing, alpha, beta, noise, k);
      var child := MinimaxValue(b[cells[0] := mark], depth - 1, !maximizing, alpha, beta, noise, k);
      var best' := if maximizing then Max(best, child.score) else Min(best, child.score);
      var alpha' := if maximizing then Max(alpha, child.score) else alpha;
      var beta' := if maximizing then beta else Min(beta, child.score);
      FoldStep(b, cells, depth, maximizing, alpha, beta, best, noise, k, child);
      if !(beta' <= alpha') {
        FoldInRange(b, cells[1..], depth, maximizing, alpha', beta', best', noise, child.next);
      }
    }
  }

  /** The nested `minimax` of `makeSmartMove`. The input board is a value:
      each child is a fresh copy with one empty cell set. */
  method Minimax(b: Board, depth: nat, maximizing: bool, alpha: real, beta: real, noise: Noise, k: nat)
    returns (score: real, next: nat)
    ensures Search(score, next) == MinimaxValue(b, depth, maximizing, alpha, beta, noise, k)
    decreases depth, 1
  {
    var winner := Winner(b);
    if winner == Some(O) { return 10.0, k; }
    if winner == Some(X) { return -10.0, k; }
    if IsFull(b) { return 0.0, k; }
    if depth == 0 {
      score := EvaluateBoard(b, noise, k);
      return score, k + 1;
    }
    MinimaxUnfold(b, depth, maximizing, alpha, beta, noise, k);
    var emptyCells := EmptyCells(b);
    if maximizing {
      score, next := MaxChildren(b, emptyCells, depth, alpha, beta, noise, k);
    } else {
      score, next := MinChildren(b, emptyCells, depth, alpha, beta, noise, k);
    }
  }

  /** The `isMaximizing` branch of `minimax`: O tries each cell in turn,
      keeping `maxEval` and raising `alpha`. */
  method MaxChildren(b: Board, cells: seq<Index>, depth: nat, alpha: real, beta: real, noise: Noise, k: nat)
    returns (score: real, next: nat)
    requires depth >= 1
    ensures Search(score, next) == FoldChildren(b, cells, depth, true, alpha, beta, NegInf, noise, k)
    decreases depth, 0
  {
    var a, bt := alpha, beta;
    var maxEval := NegInf;
    next := k;
    for i := 0 to |cells|
      invariant FoldChildren(b, cells[i..], depth, true, a, bt, maxEval, noise, next)
             == FoldChildren(b, cells, depth, true, alpha, beta, NegInf, noise, k)
    {
      var newBoard := b[cells[i] := Mark(O)];
      ghost var child := MinimaxValue(newBoard, depth - 1, false, a, bt, noise, next);
      FoldAdvance(b, cells, i, depth, true, a, bt, maxEval, noise, next, child);
      var evaluation, used := Minimax(newBoard, depth - 1, false, a, bt, noise, next);
      maxEval := Max(maxEval, evaluation);
      a := Max(a, evaluation);
      next := used;
      if bt <= a { return maxEval, next; }
    }
    return maxEval, next;
  }

  /** The other branch of `minimax`: X tries each cell in turn, keeping
      `minEval` and lowering `beta`. */
  method MinChildren(b: Board, cells: seq<Index>, depth: nat, alpha: real, beta: real, noise: Noise, k: nat)
    returns (score: real, next: nat)
    requires depth >= 1
    ensures Search(score, next) == FoldChildren(b, cells, depth, false, alpha, beta, PosInf, noise, k)
    decreases depth, 0
  {
    var a, bt := alpha, beta;
    var minEval := PosInf;
    next := k;
    for i := 0 to |cells|
      invariant FoldChildren(b, cells[i..], depth, false, a, bt, minEval, noise, next)
             == FoldChildren(b, cells, depth, false, alpha, beta, PosInf, noise, k)
    {
      var newBoard := b[cells[i] := Mark(X)];
      ghost var child := MinimaxValue(newBoard, depth - 1, true, a, bt, noise, next);
      FoldAdvance(b, cells, i, depth, false, a, bt, minEval, noise, next, child);
      var evaluation, used := Minimax(newBoard, depth - 1, true, a, bt, noise, next);
      minEval := Min(minEval, evaluation);
      bt := Min(bt, evaluation);
      next := used;
      if bt <= a { return minEval, next; }
    }
    return minEval, next;
  }

  // ---- the smart move ----

  /** The score of each candidate cell, in order: O placed in the cell,
      then a fresh `minimax(newBoard, depth, false)` with the draws
      continuing where the previous candidate stopped. */
  function CandidateScores(b: Board, cells: seq<Index>, depth: nat, noise: Noise, k: nat): (s: seq<real>)
    ensures |s| == |cells|
  {
    if cells == [] then []
    else
      var v := MinimaxValue(b[cells[0] := Mark(O)], depth, false, NegInf, PosInf, noise, k);
      [v.score] + CandidateScores(b, cells[1..], depth, noise, v.next)
  }

  lemma CandidateStep(b: Board, cells: seq<Index>, depth: nat, noise: Noise, k: nat, v: Search)
    requires cells != []
    requires v == MinimaxValue(b[cells[0] := Mark(O)], depth, false, NegInf, PosInf, noise, k)
    ensures CandidateScores(b, cells, depth, noise, k) == [v.score] + CandidateScores(b, cells[1..], depth, noise, v.next)
  {
  }

  /** Scoring candidate `i` moves it from the pending suffix to the
      computed prefix. */
  lemma CandidateAdvance(b: Board, cells: seq<Index>, i: nat, depth: nat, noise: Noise, k: nat,
                         prefix: seq<real>, v: Search)
    requires i < |cells|
    requires v == MinimaxValue(b[cells[i] := Mark(O)], depth, false, NegInf, PosInf, noise, k)
    ensures prefix + CandidateScores(b, cells[i..], depth, noise, k)
         == (prefix + [v.score]) + CandidateScores(b, cells[i + 1..], depth, noise, v.next)
  {
    assert cells[i..][0] == cells[i] && cells[i..][1..] == cells[i + 1..];
    CandidateStep(b, cells[i..], depth, noise, k, v);
  }

  lemma SmartStep(b: Board, cells: seq<Index>, i: nat, depth: nat, noise: Noise, k: nat,
                  scores: seq<real>, v: Search)
    requires i < |cells| && |scores| == i && NoiseInRange(noise)
    requires v == MinimaxValue(b[cells[i] := Mark(O)], depth, false, NegInf, PosInf, noise, k)
    ensures scores + CandidateScores(b, cells[i..], depth, noise, k)
         == (scores + [v.score]) + CandidateScores(b, cells[i + 1..], depth, noise, v.next)
    ensures InRange(v.score)
    ensures FirstMax(scores + [v.score]) == if scores == [] || v.score > scores[FirstMax(scores)] then i else FirstMax(scores)
  {
    CandidateAdvance(b, cells, i, depth, noise, k, scores, v);
    MinimaxInRange(b[cells[i] := Mark(O)], depth, false, NegInf, PosInf, noise, k);
    FirstMaxAppend(scores, v.score);
  }

  /** The position of the earliest maximum of `s`. */
  function FirstMax(s: seq<real>): (a: nat)
    requires |s| > 0
    ensures a < |s|
    ensures forall j :: 0 <= j < |s| ==> s[j] <= s[a]
    ensures forall j :: 0 <= j < a ==> s[j] < s[a]
  {
    if |s| == 1 then 0
    else
      var a := FirstMax(s[..|s| - 1]);
      if s[|s| - 1] > s[a] then |s| - 1 else a
  }

  /** Appending a score moves the earliest maximum only when the new score
      is strictly greater. */
  lemma FirstMaxAppend(s: seq<real>, x: real)
    ensures FirstMax(s + [x]) == if s == [] || x > s[FirstMax(s)] then |s| else FirstMax(s)
  {
    assert (s + [x])[..|s|] == s;
  }

  /** What `makeSmartMove` returns: null on a full board, otherwise the
      earliest empty cell whose score is maximal. */
  function SmartChoice(b: Board, depth: nat, noise: Noise): (m: Option<Index>)
    ensures m.None? <==> IsFull(b)
    ensures m.Some? ==> b[m.value] == Empty
  {
    EmptyCellsSpec(b);
    var cells := EmptyCells(b);
    if cells == [] then None
    else Some(cells[FirstMax(CandidateScores(b, cells, depth, noise, 0))])
  }

  /** Ties keep the earliest cell because the comparison is a strict `>`:
      the chosen cell's score is at least every candidate's, and strictly
      above every earlier candidate's. */
  lemma SmartChoiceIsEarliestBest(b: Board, depth: nat, noise: Noise)
    requires !IsFull(b)
    ensures var cells := EmptyCells(b);
      var scores := CandidateScores(b, cells, depth, noise, 0);
      exists a :: 0 <= a < |cells| && SmartChoice(b, depth, noise) == Some(cells[a])
        && (forall j :: 0 <= j < |cells| ==> scores[j] <= scores[a])
        && (forall j :: 0 <= j < a ==> scores[j] < scores[a])
  {
    var cells := EmptyCells(b);
    var scores := CandidateScores(b, cells, depth, noise, 0);
    EmptyCellsSpec(b);
    var a := FirstMax(scores);
    assert SmartChoice(b, depth, noise) == Some(cells[a]);
  }

  /** What the loop of `makeSmartMove` knows after scoring the first `i`
      candidates: the scores so far, the pending ones, and the best cell
      and score so far (the first candidate and `-Infinity` before any). */
  ghost predicate SmartLoop(b: Board, cells: seq<Index>, depth: nat, noise: Noise, all: seq<real>,
                            i: nat, k: nat, scores: seq<real>, bestScore: real, bestMove: Index)
  {
    && 0 < |cells| && i <= |cells| && |scores| == i
    && all == scores + CandidateScores(b, cells[i..], depth, noise, k)
    && (if i == 0 then bestScore == NegInf && bestMove == cells[0]
        else bestMove == cells[FirstMax(scores)] && bestScore == scores[FirstMax(scores)])
  }

  /** One turn of the loop: scoring candidate `i` and keeping it when its
      score is strictly greater keeps `SmartLoop`. */
  lemma SmartAdvance(b: Board, cells: seq<Index>, depth: nat, noise: Noise, all: seq<real>,
                     i: nat, k: nat, scores: seq<real>, bestScore: real, bestMove: Index, v: Search)
    requires NoiseInRange(noise) && i < |cells|
    requires SmartLoop(b, cells, depth, noise, all, i, k, scores, bestScore, bestMove)
    requires v == MinimaxValue(b[cells[i] := Mark(O)], depth, false, NegInf, PosInf, noise, k)
    ensures SmartLoop(b, cells, depth, noise, all, i + 1, v.next, scores + [v.score],
                      if v.score > bestScore then v.score else bestScore,
                      if v.score > bestScore then cells[i] else bestMove)
  {
    SmartStep(b, cells, i, depth, noise, k, scores, v);
  }

  /** `makeSmartMove(gameState, depth)`. */
  method MakeSmartMove(b: Board, depth: nat, noise: Noise) returns (m: Option<Index>)
    requires NoiseInRange(noise)
    ensures m == SmartChoice(b, depth, noise)
  {
    var emptyCells := EmptyCells(b);
    if |emptyCells| == 0 { return None; }
    var bestScore := NegInf;
    var bestMove := emptyCells[0];
    ghost var scores: seq<real> := [];
    ghost var all := CandidateScores(b, emptyCells, depth, noise, 0);
    assert emptyCells[0..] == emptyCells;
    var k := 0;
    for i := 0 to |emptyCells|
      invariant SmartLoop(b, emptyCells, depth, noise, all, i, k, scores, bestScore, bestMove)
    {
      var newBoard := b[emptyCells[i] := Mark(O)];
      ghost var v := MinimaxValue(newBoard, depth, false, NegInf, PosInf, noise, k);
      SmartAdvance(b, emptyCells, depth, noise, all, i, k, scores, bestScore, bestMove, v);
      var score, next := Minimax(newBoard, depth, false, NegInf, PosInf, noise, k);
      scores := scores + [score];
      k := next;
      if score > bestScore {
        bestScore := score;
        bestMove := emptyCells[i];
      }
    }
    assert scores == all;
    m := Some(bestMove);
  }

  // ---- history ----

  /** `saveGameState`: push a copy of the board and the player to move;
      nothing else changes. */
  method SaveGameState(g: Game)
    modifies g
    ensures g.history == old(g.history) + [Snapshot(old(g.board), old(g.player))]
    ensures g.board == old(g.board) && g.player == old(g.player) && g.gameOver == old(g.gameOver)
    ensures g.mode == old(g.mode) && g.difficulty == old(g.difficulty) && g.scores == old(g.scores)
  {
    g.history := g.history + [Snapshot(g.board, g.player)];
  }
}

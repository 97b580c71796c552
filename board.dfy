/** The 3x3 board shared by every copy of the game: cells, the eight win
    lines, win and draw detection, and the counting facts the game-state
    invariant rests on. Cells are indexed 0..8 in row-major order. */
module Board {

  datatype Option<T> = None | Some(value: T)

  /** A player's mark: the strings 'X' and 'O'. */
  datatype Player = X | O

  /** A cell: '' or a player's mark. */
  datatype Cell = Empty | Mark(p: Player)

  type Index = i: int | 0 <= i < 9

  /** `boardState` always holds exactly nine cells. */
  type Board = b: seq<Cell> | |b| == 9
    witness [Empty, Empty, Empty, Empty, Empty, Empty, Empty, Empty, Empty]

  const EmptyBoard: Board := [Empty, Empty, Empty, Empty, Empty, Empty, Empty, Empty, Empty]

  function Other(p: Player): (q: Player)
    ensures q != p
  {
    if p == X then O else X
  }

  /** A win line: an ordered triple of cell indices. */
  datatype Line = Line(a: Index, b: Index, c: Index)

  /** `winCombos`, in the source's scan order: rows, columns, diagonals. */
  const WinCombos: seq<Line> := [
    Line(0, 1, 2), Line(3, 4, 5), Line(6, 7, 8),
    Line(0, 3, 6), Line(1, 4, 7), Line(2, 5, 8),
    Line(0, 4, 8), Line(2, 4, 6)
  ]

  /** Three consecutive cells starting at the left edge. */
  predicate IsRow(l: Line) { (l.a == 0 || l.a == 3 || l.a == 6) && l.b == l.a + 1 && l.c == l.a + 2 }
  /** Three cells a row apart starting on the top edge. */
  predicate IsColumn(l: Line) { l.a < 3 && l.b == l.a + 3 && l.c == l.a + 6 }
  predicate IsDiagonal(l: Line) { l == Line(0, 4, 8) || l == Line(2, 4, 6) }

  /** The win table lists the three rows, then the three columns, then the
      two diagonals, each a triple of distinct cells. */
  lemma WinCombosAreRowsColumnsDiagonals()
    ensures |WinCombos| == 8
    ensures forall i :: 0 <= i < 3 ==> IsRow(WinCombos[i])
    ensures forall i :: 3 <= i < 6 ==> IsColumn(WinCombos[i])
    ensures forall i :: 6 <= i < 8 ==> IsDiagonal(WinCombos[i])
    ensures forall i :: 0 <= i < 8 ==> Distinct(WinCombos[i])
  {
  }

  predicate Distinct(l: Line) { l.a != l.b && l.b != l.c && l.a != l.c }

  /** A line with the same three cells as entry `k` of the table is in it. */
  lemma SameCellsAsCombo(l: Line, k: nat)
    requires k < |WinCombos|
    requires l.a == WinCombos[k].a && l.b == WinCombos[k].b && l.c == WinCombos[k].c
    ensures l in WinCombos
  {
    assert l == WinCombos[k];
  }

  /** No row, column or diagonal is missing from the win table. */
  lemma EveryLineIsAWinCombo(l: Line)
    requires IsRow(l) || IsColumn(l) || IsDiagonal(l)
    ensures l in WinCombos
  {
    if IsRow(l) {
      if l.a == 0 {
        SameCellsAsCombo(l, 0);
      } else if l.a == 3 {
        SameCellsAsCombo(l, 1);
      } else {
        SameCellsAsCombo(l, 2);
      }
    } else if IsColumn(l) {
      if l.a == 0 {
        SameCellsAsCombo(l, 3);
      } else if l.a == 1 {
        SameCellsAsCombo(l, 4);
      } else {
        SameCellsAsCombo(l, 5);
      }
    } else if l == Line(0, 4, 8) {
      SameCellsAsCombo(l, 6);
    } else {
      SameCellsAsCombo(l, 7);
    }
  }

  /** A line whose three cells hold the same mark. */
  predicate Complete(b: Board, l: Line)
  {
    b[l.a] != Empty && b[l.a] == b[l.b] && b[l.b] == b[l.c]
  }

  predicate FilledBy(b: Board, l: Line, p: Player)
  {
    b[l.a] == Mark(p) && b[l.b] == Mark(p) && b[l.c] == Mark(p)
  }

  /** The `for (const combo of ...)` scan: the first complete line of
      `lines`, in order, or None. */
  function FirstComplete(b: Board, lines: seq<Line>): Option<Line>
  {
    if lines == [] then None
    else if Complete(b, lines[0]) then Some(lines[0])
    else FirstComplete(b, lines[1..])
  }

  /** The scan reports nothing exactly when no line is complete, and
      otherwise the earliest complete line. */
  lemma {:induction false} FirstCompleteSpec(b: Board, lines: seq<Line>)
    ensures var r := FirstComplete(b, lines);
      && (r.None? <==> forall l :: l in lines ==> !Complete(b, l))
      && (r.Some? ==> exists k :: 0 <= k < |lines| && r.value == lines[k] && Complete(b, lines[k])
                                  && forall j :: 0 <= j < k ==> !Complete(b, lines[j]))
  {
    if lines != [] && !Complete(b, lines[0]) {
      var rest := lines[1..];
      FirstCompleteSpec(b, rest);
      assert lines == [lines[0]] + rest;
      var r := FirstComplete(b, rest);
      if r.Some? {
        var k :| 0 <= k < |rest| && r.value == rest[k] && Complete(b, rest[k])
                 && forall j :: 0 <= j < k ==> !Complete(b, rest[j]);
        assert r.value == lines[k + 1] && Complete(b, lines[k + 1]);
        assert forall j :: 0 <= j < k + 1 ==> !Complete(b, lines[j]) by {
          forall j | 0 <= j < k + 1 ensures !Complete(b, lines[j]) {
            if j > 0 { assert lines[j] == rest[j - 1]; }
          }
        }
      }
    } else if lines != [] {
      assert Complete(b, lines[0]) && lines[0] in lines;
    }
  }

  /** Root `checkWin`: the first complete combo in scan order, or null. */
  function WinningLine(b: Board): Option<Line>
  {
    FirstComplete(b, WinCombos)
  }

  /** A line is reported exactly when some combo is complete, and the line
      reported is the first complete one in scan order. */
  lemma WinningLineIsFirstComplete(b: Board)
    ensures WinningLine(b).None? <==> forall l :: l in WinCombos ==> !Complete(b, l)
    ensures WinningLine(b).Some? ==>
      exists k :: 0 <= k < |WinCombos| && WinningLine(b).value == WinCombos[k] && Complete(b, WinCombos[k])
        && forall j :: 0 <= j < k ==> !Complete(b, WinCombos[j])
  {
    FirstCompleteSpec(b, WinCombos);
  }

  /** `getWinner`: the mark on the first complete combo, or null. */
  function Winner(b: Board): (r: Option<Player>)
    ensures r.Some? <==> WinningLine(b).Some?
    ensures r.Some? ==> FilledBy(b, WinningLine(b).value, r.value)
  {
    FirstCompleteSpec(b, WinCombos);
    match WinningLine(b)
    case None => None
    case Some(l) => Some(b[l.a].p)
  }

  /** `checkWin` of the web versions: some combo is complete. */
  predicate HasWin(b: Board)
  {
    WinningLine(b).Some?
  }

  /** `checkDraw` and `isBoardFull`: no cell is ''. */
  predicate IsFull(b: Board)
  {
    Empty !in b
  }

  /** Win detection fires for every one of the eight lines, whichever
      player fills it, and the winner reported is a player who owns a full
      line. */
  lemma WinDetectedOnEveryLine(b: Board, l: Line, p: Player)
    requires l in WinCombos && FilledBy(b, l, p)
    ensures HasWin(b) && Winner(b).Some?
    ensures FilledBy(b, WinningLine(b).value, Winner(b).value)
  {
    WinningLineIsFirstComplete(b);
    assert Complete(b, l);
  }

  /** A full board with no complete line is exactly the draw the game
      reports. */
  lemma DrawIsFullWithoutWin(b: Board)
    requires IsFull(b) && forall l :: l in WinCombos ==> !Complete(b, l)
    ensures !HasWin(b) && Winner(b).None?
  {
    WinningLineIsFirstComplete(b);
  }

  /** Ascending order of a list of cell indices. */
  predicate Increasing(s: seq<Index>)
  {
    forall i, j :: 0 <= i < j < |s| ==> s[i] < s[j]
  }

  /** The nine cell indices in board order. */
  const AllCells: seq<Index> := [0, 1, 2, 3, 4, 5, 6, 7, 8]

  /** The nine indices are listed once each, in ascending order. */
  lemma AllCellsInOrder()
    ensures Increasing(AllCells)
    ensures forall k :: 0 <= k < 9 ==> k in AllCells
  {
    forall u, v | 0 <= u < v < |AllCells|
      ensures AllCells[u] < AllCells[v]
    {
      assert AllCells[u] == u && AllCells[v] == v;
    }
    forall k | 0 <= k < 9
      ensures k in AllCells
    {
      assert AllCells[k] == k;
    }
  }

  /** `cs.filter((i) => board[i] === '')`: the empty cells among `cs`, in
      the order of `cs`. */
  function EmptyAmong(b: Board, cs: seq<Index>): seq<Index>
  {
    if cs == [] then [] else (if b[cs[0]] == Empty then [cs[0]] else []) + EmptyAmong(b, cs[1..])
  }

  /** Every cell the filter keeps is an empty cell of `cs`. */
  lemma {:induction false} EmptyAmongSound(b: Board, cs: seq<Index>)
    ensures forall j :: 0 <= j < |EmptyAmong(b, cs)| ==>
      EmptyAmong(b, cs)[j] in cs && b[EmptyAmong(b, cs)[j]] == Empty
  {
    if cs != [] {
      var rest := EmptyAmong(b, cs[1..]);
      EmptyAmongSound(b, cs[1..]);
      if b[cs[0]] == Empty {
        var r := [cs[0]] + rest;
        assert EmptyAmong(b, cs) == r;
        forall j | 0 <= j < |r|
          ensures r[j] in cs && b[r[j]] == Empty
        {
          if j > 0 {
            assert r[j] == rest[j - 1];
            assert rest[j - 1] in cs[1..];
          }
        }
      } else {
        assert EmptyAmong(b, cs) == rest;
      }
    }
  }

  /** Every empty cell of `cs` is kept. */
  lemma {:induction false} EmptyAmongComplete(b: Board, cs: seq<Index>)
    ensures forall c :: c in cs && b[c] == Empty ==> c in EmptyAmong(b, cs)
  {
    if cs != [] {
      EmptyAmongComplete(b, cs[1..]);
      assert cs == [cs[0]] + cs[1..];
    }
  }

  /** Dropping the first entry of an ascending list leaves it ascending. */
  lemma TailIncreasing(cs: seq<Index>)
    requires cs != [] && Increasing(cs)
    ensures Increasing(cs[1..]) && forall j :: 1 <= j < |cs| ==> cs[0] < cs[j]
  {
    var tail := cs[1..];
    forall u, v | 0 <= u < v < |tail|
      ensures tail[u] < tail[v]
    {
      assert tail[u] == cs[u + 1] && tail[v] == cs[v + 1];
    }
  }

  /** The filter keeps an ascending `cs` ascending. */
  lemma {:induction false} EmptyAmongIncreasing(b: Board, cs: seq<Index>)
    requires Increasing(cs)
    ensures Increasing(EmptyAmong(b, cs))
  {
    if cs != [] {
      var tail := cs[1..];
      var rest := EmptyAmong(b, tail);
      TailIncreasing(cs);
      EmptyAmongIncreasing(b, tail);
      if b[cs[0]] == Empty {
        EmptyAmongSound(b, tail);
        var r := [cs[0]] + rest;
        assert EmptyAmong(b, cs) == r;
        forall x, y | 0 <= x < y < |r|
          ensures r[x] < r[y]
        {
          assert r[y] == rest[y - 1];
          if x == 0 {
            var m :| 0 <= m < |tail| && tail[m] == rest[y - 1];
            assert tail[m] == cs[m + 1];
          } else {
            assert r[x] == rest[x - 1];
          }
        }
      } else {
        assert EmptyAmong(b, cs) == rest;
      }
    }
  }

  /** The `map`/`filter` that lists the empty cells. */
  function EmptyCells(b: Board): seq<Index>
  {
    EmptyAmong(b, AllCells)
  }

  /** Filtering an ascending list of all nine indices keeps exactly the
      empty cells, in ascending order, and leaves nothing on a full board. */
  lemma FilterAllCells(b: Board, cs: seq<Index>)
    requires Increasing(cs) && forall k :: 0 <= k < 9 ==> k in cs
    ensures forall j :: 0 <= j < |EmptyAmong(b, cs)| ==> b[EmptyAmong(b, cs)[j]] == Empty
    ensures forall k :: 0 <= k < 9 && b[k] == Empty ==> k in EmptyAmong(b, cs)
    ensures Increasing(EmptyAmong(b, cs))
    ensures EmptyAmong(b, cs) == [] <==> IsFull(b)
  {
    var cells := EmptyAmong(b, cs);
    EmptyAmongSound(b, cs);
    EmptyAmongComplete(b, cs);
    EmptyAmongIncreasing(b, cs);
    if cells != [] {
      assert b[cells[0]] == Empty;
    } else {
      assert forall k :: 0 <= k < 9 ==> b[k] != Empty;
    }
  }

  /** The list holds exactly the empty cells, in ascending order, and is
      empty exactly when the board is full. */
  lemma EmptyCellsSpec(b: Board)
    ensures forall j :: 0 <= j < |EmptyCells(b)| ==> b[EmptyCells(b)[j]] == Empty
    ensures forall k :: 0 <= k < 9 && b[k] == Empty ==> k in EmptyCells(b)
    ensures Increasing(EmptyCells(b))
    ensures EmptyCells(b) == [] <==> IsFull(b)
  {
    AllCellsInOrder();
    FilterAllCells(b, AllCells);
  }

  /** How many cells of `s` equal `c`. */
  function Count(s: seq<Cell>, c: Cell): nat
  {
    if s == [] then 0 else Count(s[..|s| - 1], c) + (if s[|s| - 1] == c then 1 else 0)
  }

  function MarkCount(b: Board): nat
  {
    Count(b, Mark(X)) + Count(b, Mark(O))
  }

  /** Overwriting one cell moves one unit of count from the old content to
      the new one. */
  lemma {:induction false} CountUpdate(s: seq<Cell>, i: nat, v: Cell, c: Cell)
    requires i < |s|
    ensures Count(s[i := v], c) == Count(s, c) - (if s[i] == c then 1 else 0) + (if v == c then 1 else 0)
  {
    var t := s[i := v];
    if i == |s| - 1 {
      assert t[..|t| - 1] == s[..|s| - 1];
    } else {
      assert t[..|t| - 1] == s[..|s| - 1][i := v];
      CountUpdate(s[..|s| - 1], i, v, c);
    }
  }

  /** Every cell is Empty, X or O, so the three counts add up to the size. */
  lemma {:induction false} CountPartition(s: seq<Cell>)
    ensures Count(s, Empty) + Count(s, Mark(X)) + Count(s, Mark(O)) == |s|
  {
    if s != [] {
      CountPartition(s[..|s| - 1]);
      var last := s[|s| - 1];
      assert last == Empty || last == Mark(X) || last == Mark(O) by {
        if last.Mark? { assert last.p == X || last.p == O; }
      }
    }
  }

  /** A value is absent from a sequence exactly when its count is 0. */
  lemma {:induction false} AbsentIffCountZero(s: seq<Cell>, c: Cell)
    ensures c !in s <==> Count(s, c) == 0
  {
    if s != [] {
      AbsentIffCountZero(s[..|s| - 1], c);
      assert s == s[..|s| - 1] + [s[|s| - 1]];
    }
  }

  /** The board is full exactly when all nine cells carry a mark. */
  lemma FullIffNineMarks(b: Board)
    ensures IsFull(b) <==> MarkCount(b) == 9
  {
    CountPartition(b);
    AbsentIffCountZero(b, Empty);
  }

  lemma EmptyBoardHasNoMarks()
    ensures MarkCount(EmptyBoard) == 0 && Count(EmptyBoard, Mark(X)) == 0 && !IsFull(EmptyBoard)
    ensures Winner(EmptyBoard).None?
  {
    AbsentIffCountZero(EmptyBoard, Mark(X));
    AbsentIffCountZero(EmptyBoard, Mark(O));
    WinningLineIsFirstComplete(EmptyBoard);
    forall l | l in WinCombos ensures !Complete(EmptyBoard, l) {
      assert EmptyBoard[l.a] == Empty;
    }
  }
}

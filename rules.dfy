/** How a 3x3 board is classified: the line check, the order in which the
    eight lines are scanned, and the outcome the scan announces. */
module Rules {
  import opened Cells

  /** A board as rows of cells, row 0 at the top. */
  type Board = seq<seq<Cell>>

  predicate Is3x3(b: Board) {
    |b| == 3 && forall r :: 0 <= r < 3 ==> |b[r]| == 3
  }

  /** The board that the program starts from: every cell empty. */
  function EmptyBoard(): (b: Board)
    ensures Is3x3(b)
    ensures forall r, c :: 0 <= r < 3 && 0 <= c < 3 ==> b[r][c] == E
  {
    [[E, E, E], [E, E, E], [E, E, E]]
  }

  /** Three cells complete a line exactly when they are three X's or three O's;
      three empty cells do not. */
  function Check(v1: Cell, v2: Cell, v3: Cell): (r: bool)
    ensures r <==> (v1 == X && v2 == X && v3 == X) || (v1 == O && v2 == O && v3 == O)
  {
    v1 == v2 && v2 == v3 && v1 != E
  }

  type Index = i: nat | i < 3

  /** The eight lines of the grid. */
  datatype Line = Row(i: Index) | Column(i: Index) | MainDiagonal | AntiDiagonal

  /** The order in which the lines are examined: row i, then column i, for
      i = 0, 1, 2, then the main diagonal, then the anti-diagonal. Every line
      is examined, and none twice. */
  function ScanOrder(): (s: seq<Line>)
    ensures |s| == 8
    ensures forall j, k :: 0 <= j < k < |s| ==> s[j] != s[k]
  {
    [Row(0), Column(0), Row(1), Column(1), Row(2), Column(2), MainDiagonal, AntiDiagonal]
  }

  /** The scan examines every line of the grid. */
  lemma ScanOrderCoversLines(l: Line)
    ensures l in ScanOrder()
  {
  }

  /** The three cells of line l, in the order the line check receives them. */
  function LineCells(b: Board, l: Line): (cs: seq<Cell>)
    requires Is3x3(b)
    ensures |cs| == 3
  {
    match l
    case Row(i) => [b[i][0], b[i][1], b[i][2]]
    case Column(i) => [b[0][i], b[1][i], b[2][i]]
    case MainDiagonal => [b[0][0], b[1][1], b[2][2]]
    case AntiDiagonal => [b[0][2], b[1][1], b[2][0]]
  }

  predicate Complete(b: Board, l: Line)
    requires Is3x3(b)
  {
    var cs := LineCells(b, l);
    Check(cs[0], cs[1], cs[2])
  }

  /** The mark that all three cells of a complete line share. */
  function Owner(b: Board, l: Line): Cell
    requires Is3x3(b)
  {
    LineCells(b, l)[0]
  }

  /** The cell the program names as the winner when it finds line l complete:
      the line's first cell for a row or a column, but the top-left corner for
      both diagonals, the anti-diagonal included. */
  function Announced(b: Board, l: Line): Cell
    requires Is3x3(b)
  {
    match l
    case Row(i) => b[i][0]
    case Column(i) => b[0][i]
    case MainDiagonal => b[0][0]
    case AntiDiagonal => b[0][0]
  }

  /** The position of the first complete line in `lines`, or |lines| if none is. */
  function FirstComplete(b: Board, lines: seq<Line>): (k: nat)
    requires Is3x3(b)
    ensures k <= |lines|
    ensures k < |lines| ==> Complete(b, lines[k])
    ensures forall j :: 0 <= j < k ==> !Complete(b, lines[j])
  {
    if lines == [] then 0
    else if Complete(b, lines[0]) then 0
    else 1 + FirstComplete(b, lines[1..])
  }

  predicate HasEmpty(b: Board)
    requires Is3x3(b)
  {
    exists r, c :: 0 <= r < 3 && 0 <= c < 3 && b[r][c] == E
  }

  ghost predicate AnyComplete(b: Board)
    requires Is3x3(b)
  {
    exists l: Line :: Complete(b, l)
  }

  /** No row and no column is complete. */
  predicate NoRowOrColumn(b: Board)
    requires Is3x3(b)
  {
    forall i: Index :: !Complete(b, Row(i)) && !Complete(b, Column(i))
  }

  datatype Outcome = Wins(mark: Cell) | Draw | NotFinished

  /** The classification of a board: the announced cell of the first complete
      line in scan order; otherwise "not finished" while a cell is empty, and a
      draw once none is. */
  function Evaluate(b: Board): Outcome
    requires Is3x3(b)
  {
    var k := FirstComplete(b, ScanOrder());
    if k < |ScanOrder()| then Wins(Announced(b, ScanOrder()[k]))
    else if HasEmpty(b) then NotFinished
    else Draw
  }

  /** The line of text that announces an outcome. */
  function Message(o: Outcome): string
  {
    match o
    case Wins(m) => m.Name() + " wins"
    case Draw => "Draw"
    case NotFinished => "Game not finished"
  }

  /** Different outcomes are announced by different lines of text. */
  lemma MessageInjective(o1: Outcome, o2: Outcome)
    ensures Message(o1) == Message(o2) ==> o1 == o2
  {
    if Message(o1) == Message(o2) && o1.Wins? && o2.Wins? {
      assert o1.mark.Name() == Message(o1)[..1];
      assert o2.mark.Name() == Message(o2)[..1];
      NameInjective(o1.mark, o2.mark);
    }
  }

  // ----- The scan order decides ---------------------------------------------

  /** None of the first n lines in scan order is complete. */
  predicate ClearBefore(b: Board, n: nat)
    requires Is3x3(b)
  {
    forall j :: 0 <= j < n && j < 8 ==> !Complete(b, ScanOrder()[j])
  }

  /** When the k-th line in scan order is complete and none before it is,
      that line's announced cell wins. */
  lemma ReportsFirstComplete(b: Board, k: nat)
    requires Is3x3(b) && k < 8
    requires Complete(b, ScanOrder()[k])
    requires ClearBefore(b, k)
    ensures FirstComplete(b, ScanOrder()) == k
    ensures Evaluate(b) == Wins(Announced(b, ScanOrder()[k]))
  {
  }

  /** When no line is complete, the outcome depends only on whether a cell is empty. */
  lemma ReportsNoLine(b: Board)
    requires Is3x3(b)
    requires ClearBefore(b, 8)
    ensures Evaluate(b) == if HasEmpty(b) then NotFinished else Draw
  {
  }

  /** Row i at position 2i and column i at position 2i + 1 of the scan order. */
  lemma ScanPositions(i: Index)
    ensures ScanOrder()[2 * i] == Row(i)
    ensures ScanOrder()[2 * i + 1] == Column(i)
  {
  }

  /** If row i is complete and no earlier line in scan order (rows and columns
      0 .. i-1) is, the result is "table[i][0] wins", and that cell is a mark. */
  lemma RowWins(b: Board, i: Index)
    requires Is3x3(b)
    requires Complete(b, Row(i))
    requires forall j: Index :: j < i ==> !Complete(b, Row(j)) && !Complete(b, Column(j))
    ensures Evaluate(b) == Wins(b[i][0]) && b[i][0].IsMark()
  {
    forall j | 0 <= j < 2 * i
      ensures !Complete(b, ScanOrder()[j])
    {
      ScanPositions(j / 2);
    }
    ScanPositions(i);
    ReportsFirstComplete(b, 2 * i);
  }

  /** If column i is complete and no earlier line in scan order (rows 0 .. i
      and columns 0 .. i-1) is, the result is "table[0][i] wins". */
  lemma ColumnWins(b: Board, i: Index)
    requires Is3x3(b)
    requires Complete(b, Column(i)) && !Complete(b, Row(i))
    requires forall j: Index :: j < i ==> !Complete(b, Row(j)) && !Complete(b, Column(j))
    ensures Evaluate(b) == Wins(b[0][i]) && b[0][i].IsMark()
  {
    forall j | 0 <= j < 2 * i + 1
      ensures !Complete(b, ScanOrder()[j])
    {
      ScanPositions(j / 2);
    }
    ScanPositions(i);
    ReportsFirstComplete(b, 2 * i + 1);
  }

  // ----- Tie-breaks ------------------------------------------------------------

  /** Two complete lines that cross share their mark; only two rows, or two
      columns, can be complete for different players. */
  lemma CrossingLinesAgree(b: Board, l1: Line, l2: Line)
    requires Is3x3(b)
    requires Complete(b, l1) && Complete(b, l2)
    requires !(l1.Row? && l2.Row?) && !(l1.Column? && l2.Column?)
    ensures Owner(b, l1) == Owner(b, l2)
  {
  }

  /** The outcome is always the announced cell of the first complete line. */
  lemma WinnerIsFirstComplete(b: Board)
    requires Is3x3(b)
    ensures Evaluate(b).Wins? ==>
      exists k :: 0 <= k < 8 && Complete(b, ScanOrder()[k])
        && (forall j :: 0 <= j < k ==> !Complete(b, ScanOrder()[j]))
        && Evaluate(b).mark == Announced(b, ScanOrder()[k])
  {
  }

  /** The first complete row's mark is announced, whatever the columns and
      diagonals hold. A complete column may be examined before that row, but
      it crosses the row and so shares its mark; and every row is examined
      before either diagonal. */
  lemma FirstRowDecides(b: Board, r: Index)
    requires Is3x3(b)
    requires Complete(b, Row(r))
    requires forall j: Index :: j < r ==> !Complete(b, Row(j))
    ensures Evaluate(b) == Wins(b[r][0]) && b[r][0].IsMark()
  {
    var k := FirstComplete(b, ScanOrder());
    ScanPositions(r);
    assert k <= 2 * r;
    var l := ScanOrder()[k];
    if k < 6 {
      ScanPositions(k / 2);
    }
    if l.Column? {
      CrossingLinesAgree(b, l, Row(r));
    }
  }

  /** Likewise the first complete column's mark is announced, whatever the rows
      and diagonals hold: an earlier complete row crosses it and shares its mark. */
  lemma FirstColumnDecides(b: Board, c: Index)
    requires Is3x3(b)
    requires Complete(b, Column(c))
    requires forall j: Index :: j < c ==> !Complete(b, Column(j))
    ensures Evaluate(b) == Wins(b[0][c]) && b[0][c].IsMark()
  {
    var k := FirstComplete(b, ScanOrder());
    ScanPositions(c);
    assert k <= 2 * c + 1;
    var l := ScanOrder()[k];
    if k < 6 {
      ScanPositions(k / 2);
    }
    if l.Row? {
      CrossingLinesAgree(b, l, Column(c));
    }
  }

  /** With no row or column complete, a complete main diagonal is reported in
      preference to the anti-diagonal, and announces its own shared mark. */
  lemma MainDiagonalWins(b: Board)
    requires Is3x3(b)
    requires NoRowOrColumn(b) && Complete(b, MainDiagonal)
    ensures Evaluate(b) == Wins(b[1][1]) && b[0][0] == b[1][1] && b[1][1].IsMark()
  {
    forall j | 0 <= j < 6
      ensures !Complete(b, ScanOrder()[j])
    {
      ScanPositions(j / 2);
    }
    ReportsFirstComplete(b, 6);
  }

  /** With only the anti-diagonal complete, the program announces the top-left
      corner, which does not belong to that diagonal. */
  lemma AntiDiagonalAnnouncesCorner(b: Board)
    requires Is3x3(b)
    requires NoRowOrColumn(b) && !Complete(b, MainDiagonal) && Complete(b, AntiDiagonal)
    ensures Evaluate(b) == Wins(b[0][0])
  {
    forall j | 0 <= j < 6
      ensures !Complete(b, ScanOrder()[j])
    {
      ScanPositions(j / 2);
    }
    ReportsFirstComplete(b, 7);
  }

  /** "E wins" is announced exactly when only the anti-diagonal is complete and
      the top-left corner is empty. */
  lemma EmptyWinsOnlyByAntiDiagonal(b: Board)
    requires Is3x3(b)
    ensures Evaluate(b) == Wins(E) <==>
      NoRowOrColumn(b) && !Complete(b, MainDiagonal) && Complete(b, AntiDiagonal) && b[0][0] == E
  {
    var k := FirstComplete(b, ScanOrder());
    if Evaluate(b) == Wins(E) {
      if k < 6 {
        ScanPositions(k / 2);
      }
      assert k == 7;
      forall i: Index
        ensures !Complete(b, Row(i)) && !Complete(b, Column(i))
      {
        ScanPositions(i);
      }
    }
    if NoRowOrColumn(b) && !Complete(b, MainDiagonal) && Complete(b, AntiDiagonal) && b[0][0] == E {
      AntiDiagonalAnnouncesCorner(b);
    }
  }

  // ----- No complete line ------------------------------------------------------

  /** The outcome is a win exactly when some line is complete; otherwise it is
      "not finished" exactly when some cell is empty, and a draw exactly when none is. */
  lemma Classification(b: Board)
    requires Is3x3(b)
    ensures Evaluate(b).Wins? <==> AnyComplete(b)
    ensures Evaluate(b) == NotFinished <==> !AnyComplete(b) && HasEmpty(b)
    ensures Evaluate(b) == Draw <==> !AnyComplete(b) && !HasEmpty(b)
  {
    var k := FirstComplete(b, ScanOrder());
    if AnyComplete(b) {
      var l :| Complete(b, l);
      ScanOrderCoversLines(l);
      var p :| 0 <= p < 8 && ScanOrder()[p] == l;
      assert k <= p;
    }
  }

  /** The all-empty starting board is not finished. */
  lemma EmptyBoardNotFinished()
    ensures Evaluate(EmptyBoard()) == NotFinished
    ensures Message(Evaluate(EmptyBoard())) == "Game not finished"
  {
  }

  // ----- The anti-diagonal announcement, corrected -------------------------------

  /** What the anti-diagonal branch evidently means to do: announce the mark of
      the complete line found, for every line. */
  function IntendedEvaluate(b: Board): Outcome
    requires Is3x3(b)
  {
    var k := FirstComplete(b, ScanOrder());
    if k < |ScanOrder()| then Wins(Owner(b, ScanOrder()[k]))
    else if HasEmpty(b) then NotFinished
    else Draw
  }

  /** Corrected, a win is always announced for a player who owns a complete line. */
  lemma IntendedWinnerOwnsLine(b: Board)
    requires Is3x3(b)
    ensures IntendedEvaluate(b).Wins? <==> AnyComplete(b)
    ensures IntendedEvaluate(b).Wins? ==>
      IntendedEvaluate(b).mark.IsMark()
      && exists l: Line :: Complete(b, l) && Owner(b, l) == IntendedEvaluate(b).mark
    ensures !IntendedEvaluate(b).Wins? ==> IntendedEvaluate(b) == Evaluate(b)
  {
    Classification(b);
    var k := FirstComplete(b, ScanOrder());
    if k < 8 {
      assert Complete(b, ScanOrder()[k]);
    }
  }

  /** The program as written and the corrected version disagree exactly when
      only the anti-diagonal is complete and the top-left corner is not its mark. */
  lemma IntendedAgreesExceptAntiDiagonal(b: Board)
    requires Is3x3(b)
    ensures Evaluate(b) != IntendedEvaluate(b) <==>
      NoRowOrColumn(b) && !Complete(b, MainDiagonal) && Complete(b, AntiDiagonal)
      && b[0][0] != b[1][1]
  {
    var k := FirstComplete(b, ScanOrder());
    if Evaluate(b) != IntendedEvaluate(b) {
      assert k < 8;
      if k < 6 {
        ScanPositions(k / 2);
      }
      assert k == 7;
      forall i: Index
        ensures !Complete(b, Row(i)) && !Complete(b, Column(i))
      {
        ScanPositions(i);
      }
    }
    if NoRowOrColumn(b) && !Complete(b, MainDiagonal) && Complete(b, AntiDiagonal) {
      AntiDiagonalAnnouncesCorner(b);
      assert k == 7;
    }
  }

  /** A board whose top-right, centre and bottom-left cells are X and whose
      other five cells hold no X and no line of O's has only its anti-diagonal complete. */
  lemma OnlyAntiDiagonal(b: Board)
    requires Is3x3(b)
    requires b[0][2] == b[1][1] == b[2][0] == X
    requires b[0][1] == b[1][0] == b[1][2] == b[2][1] == b[2][2] == E
    ensures NoRowOrColumn(b) && !Complete(b, MainDiagonal) && Complete(b, AntiDiagonal)
    ensures FirstComplete(b, ScanOrder()) == 7
  {
    forall i: Index
      ensures !Complete(b, Row(i)) && !Complete(b, Column(i))
    {
      assert i == 0 || i == 1 || i == 2;
    }
    forall j | 0 <= j < 6
      ensures !Complete(b, ScanOrder()[j])
    {
      ScanPositions(j / 2);
    }
    ReportsFirstComplete(b, 7);
  }

  /** A concrete board on which X completes the anti-diagonal, yet O is
      announced. */
  lemma AntiDiagonalQuirkWitness()
    ensures var b := [[O, E, X], [E, X, E], [X, E, E]];
      Is3x3(b) && Complete(b, AntiDiagonal) && Owner(b, AntiDiagonal) == X
      && Message(Evaluate(b)) == "O wins"
      && Message(IntendedEvaluate(b)) == "X wins"
  {
    var b := [[O, E, X], [E, X, E], [X, E, E]];
    assert Is3x3(b);
    OnlyAntiDiagonal(b);
    assert Evaluate(b) == Wins(O) && IntendedEvaluate(b) == Wins(X);
  }

  /** With the top-left corner empty instead, "E wins" is announced. */
  lemma EmptyCornerWitness()
    ensures var b := [[E, E, X], [E, X, E], [X, E, E]];
      Is3x3(b) && Message(Evaluate(b)) == "E wins"
  {
    var b := [[E, E, X], [E, X, E], [X, E, E]];
    assert Is3x3(b);
    OnlyAntiDiagonal(b);
    assert Evaluate(b) == Wins(E);
  }
}

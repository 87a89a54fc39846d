/** The program's static operations on the table of cells: printing the grid,
    printing the state of the game, and the start of the program. Whatever
    would be printed is returned as a string. */
module Game {
  import opened Cells
  import opened Rules
  import opened Rendering

  type Table = array2<Cell>

  /** The cells a table holds at this moment, row by row. */
  ghost function Snapshot(table: Table): (b: Board)
    reads table
    ensures |b| == table.Length0
    ensures forall r :: 0 <= r < table.Length0 ==> |b[r]| == table.Length1
    ensures forall r, c :: 0 <= r < table.Length0 && 0 <= c < table.Length1 ==> b[r][c] == table[r, c]
  {
    seq(table.Length0, r requires 0 <= r < table.Length0 reads table =>
      seq(table.Length1, c requires 0 <= c < table.Length1 reads table => table[r, c]))
  }

  /** A table of three rows of three cells each. */
  predicate IsSquareTable(table: Table)
  {
    table.Length0 == 3 && table.Length1 == 3
  }

  /** Prints each row as its cells' characters, each followed by a space, and a
      line break after the row. */
  method PrintTable(table: Table) returns (out: string)
    ensures out == Render(Snapshot(table))
  {
    ghost var b := Snapshot(table);
    out := "";
    for r := 0 to table.Length0
      invariant out == Render(b[..r])
    {
      for c := 0 to table.Length1
        invariant out == Render(b[..r]) + RowText(b[r][..c])
      {
        assert b[r][..c + 1][..c] == b[r][..c];
        out := out + [table[r, c].Str(), ' '];
      }
      assert b[r][..table.Length1] == b[r];
      assert b[..r + 1][..r] == b[..r];
      out := out + "\n";
    }
    assert b[..table.Length0] == b;
  }

  // ----- One lemma per exit of PrintState ------------------------------------

  /** Some cell of rows 0 .. n-1 is empty. */
  ghost predicate EmptyInRows(b: Board, n: nat)
    requires Is3x3(b)
  {
    exists r, c :: 0 <= r < n && r < 3 && 0 <= c < 3 && b[r][c] == E
  }

  /** The flag after row i: it was set before, or row i has an empty cell. */
  lemma EmptyInRowsStep(b: Board, i: Index)
    requires Is3x3(b)
    ensures EmptyInRows(b, i + 1) <==> EmptyInRows(b, i) || b[i][0] == E || b[i][1] == E || b[i][2] == E
  {
  }

  /** The message when row i is the first complete line. */
  lemma RowExit(b: Board, i: Index)
    requires Is3x3(b) && ClearBefore(b, 2 * i) && Complete(b, Row(i))
    ensures Message(Evaluate(b)) == b[i][0].Name() + " wins"
  {
    ScanPositions(i);
    ReportsFirstComplete(b, 2 * i);
  }

  /** The message when column i is the first complete line. */
  lemma ColumnExit(b: Board, i: Index)
    requires Is3x3(b) && ClearBefore(b, 2 * i) && !Complete(b, Row(i)) && Complete(b, Column(i))
    ensures Message(Evaluate(b)) == b[0][i].Name() + " wins"
  {
    ScanPositions(i);
    ReportsFirstComplete(b, 2 * i + 1);
  }

  /** Neither row i nor column i complete: the scan goes on to row i + 1. */
  lemma NextRound(b: Board, i: Index)
    requires Is3x3(b) && ClearBefore(b, 2 * i) && !Complete(b, Row(i)) && !Complete(b, Column(i))
    ensures ClearBefore(b, 2 * i + 2)
  {
    ScanPositions(i);
  }

  /** The message when a diagonal is the first complete line. */
  lemma DiagonalExit(b: Board)
    requires Is3x3(b) && ClearBefore(b, 6)
    requires Complete(b, MainDiagonal) || Complete(b, AntiDiagonal)
    ensures Message(Evaluate(b)) == b[0][0].Name() + " wins"
  {
    if Complete(b, MainDiagonal) {
      ReportsFirstComplete(b, 6);
    } else {
      ReportsFirstComplete(b, 7);
    }
  }

  /** The message when no line is complete. */
  lemma FinalExit(b: Board)
    requires Is3x3(b) && ClearBefore(b, 6)
    requires !Complete(b, MainDiagonal) && !Complete(b, AntiDiagonal)
    ensures Message(Evaluate(b)) == if EmptyInRows(b, 3) then "Game not finished" else "Draw"
  {
    ReportsNoLine(b);
  }

  /** Announces the state of the game: scans row i and then column i for
      i = 0, 1, 2, returning as soon as one is complete, while noting whether
      row i has an empty cell; then tries the main diagonal, then the
      anti-diagonal, and otherwise reports an unfinished game or a draw. The
      message of a complete diagonal names the top-left cell, for the
      anti-diagonal as well. */
  method PrintState(table: Table) returns (msg: string)
    requires IsSquareTable(table)
    ensures msg == Message(Evaluate(Snapshot(table)))
  {
    ghost var b := Snapshot(table);
    assert Is3x3(b);
    var hasEmptyCells := false;
    for i := 0 to table.Length0
      invariant ClearBefore(b, 2 * i)
      invariant hasEmptyCells <==> EmptyInRows(b, i)
    {
      var a0, a1, a2 := table[i, 0], table[i, 1], table[i, 2];
      var d0, d1, d2 := table[0, i], table[1, i], table[2, i];
      assert a0 == b[i][0] && a1 == b[i][1] && a2 == b[i][2];
      assert d0 == b[0][i] && d1 == b[1][i] && d2 == b[2][i];
      if Check(a0, a1, a2) {
        RowExit(b, i);
        msg := a0.Name() + " wins";
        return;
      }
      if Check(d0, d1, d2) {
        ColumnExit(b, i);
        msg := d0.Name() + " wins";
        return;
      }
      NextRound(b, i);
      EmptyInRowsStep(b, i);
      hasEmptyCells := hasEmptyCells || a0 == E || a1 == E || a2 == E;
    }
    var c00, c11, c22, c02, c20 := table[0, 0], table[1, 1], table[2, 2], table[0, 2], table[2, 0];
    assert c00 == b[0][0] && c11 == b[1][1] && c22 == b[2][2] && c02 == b[0][2] && c20 == b[2][0];
    if Check(c00, c11, c22) {
      DiagonalExit(b);
      msg := c00.Name() + " wins";
    } else if Check(c02, c11, c20) {
      DiagonalExit(b);
      msg := c00.Name() + " wins";
    } else {
      FinalExit(b);
      if hasEmptyCells {
        msg := "Game not finished";
      } else {
        msg := "Draw";
      }
    }
  }

  /** Announcing the state only reads the table: a second announcement on the
      same table gives the same message as the first. */
  method PrintStateTwice(table: Table) returns (first: string, second: string)
    requires IsSquareTable(table)
    ensures first == second == Message(Evaluate(Snapshot(table)))
  {
    first := PrintState(table);
    second := PrintState(table);
  }

  /** The starting table: three rows of three empty cells. */
  method NewTable() returns (table: Table)
    ensures fresh(table)
    ensures IsSquareTable(table) && Snapshot(table) == EmptyBoard()
  {
    table := new Cell[3, 3]((_, _) => E);
    assert Snapshot(table)[0] == Snapshot(table)[1] == Snapshot(table)[2] == [E, E, E];
  }

  /** What the program prints when it starts: the empty grid, then the state
      of the game on it. */
  method Start() returns (output: string)
    ensures output == "      \n      \n      \n" + "Game not finished\n"
  {
    var table := NewTable();
    var grid := PrintTable(table);
    var state := PrintState(table);
    EmptyBoardRendering();
    EmptyBoardNotFinished();
    output := grid + state + "\n";
  }
}

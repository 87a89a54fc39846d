/** The text the grid printer produces: each cell's character followed by a
    space, and a line break after every row. */
module Rendering {
  import opened Cells
  import opened Rules

  /** The text of one row: every cell's character followed by a space. */
  function RowText(cells: seq<Cell>): string
  {
    if cells == [] then ""
    else RowText(cells[..|cells| - 1]) + [cells[|cells| - 1].Str(), ' ']
  }

  /** The text of a whole table: every row's text followed by a line break. */
  function Render(rows: seq<seq<Cell>>): string
  {
    if rows == [] then ""
    else Render(rows[..|rows| - 1]) + RowText(rows[|rows| - 1]) + "\n"
  }

  /** A row of n cells takes 2n characters: cell c at 2c, a space at 2c + 1. */
  lemma {:induction false} RowTextAt(cells: seq<Cell>)
    ensures |RowText(cells)| == 2 * |cells|
    ensures forall c :: 0 <= c < |cells| ==>
      RowText(cells)[2 * c] == cells[c].Str() && RowText(cells)[2 * c + 1] == ' '
  {
    if cells != [] {
      var front := cells[..|cells| - 1];
      RowTextAt(front);
      forall c | 0 <= c < |front|
        ensures RowText(cells)[2 * c] == cells[c].Str() && RowText(cells)[2 * c + 1] == ' '
      {
        assert RowText(cells)[2 * c] == RowText(front)[2 * c];
        assert RowText(cells)[2 * c + 1] == RowText(front)[2 * c + 1];
      }
    }
  }

  /** Rows of three cells take seven characters each: cell (r, c) at 7r + 2c,
      a space after it, and a line break at 7r + 6. */
  lemma {:induction false} RenderAt(rows: seq<seq<Cell>>)
    requires forall r :: 0 <= r < |rows| ==> |rows[r]| == 3
    ensures |Render(rows)| == 7 * |rows|
    ensures forall r, c :: 0 <= r < |rows| && 0 <= c < 3 ==>
      Render(rows)[7 * r + 2 * c] == rows[r][c].Str() && Render(rows)[7 * r + 2 * c + 1] == ' '
    ensures forall r :: 0 <= r < |rows| ==> Render(rows)[7 * r + 6] == '\n'
  {
    if rows != [] {
      var front := rows[..|rows| - 1];
      var last := rows[|rows| - 1];
      RenderAt(front);
      RowTextAt(last);
      var n := |front|;
      assert Render(rows) == Render(front) + RowText(last) + "\n";
      forall r, c | 0 <= r < |rows| && 0 <= c < 3
        ensures Render(rows)[7 * r + 2 * c] == rows[r][c].Str()
             && Render(rows)[7 * r + 2 * c + 1] == ' '
      {
        if r < n {
          assert Render(rows)[7 * r + 2 * c] == Render(front)[7 * r + 2 * c];
          assert Render(rows)[7 * r + 2 * c + 1] == Render(front)[7 * r + 2 * c + 1];
        } else {
          assert Render(rows)[7 * r + 2 * c] == RowText(last)[2 * c];
          assert Render(rows)[7 * r + 2 * c + 1] == RowText(last)[2 * c + 1];
        }
      }
      forall r | 0 <= r < |rows|
        ensures Render(rows)[7 * r + 6] == '\n'
      {
        if r < n {
          assert Render(rows)[7 * r + 6] == Render(front)[7 * r + 6];
        }
      }
    }
  }

  /** Two tables of three-cell rows that print alike are the same table. */
  lemma RenderInjective(a: seq<seq<Cell>>, b: seq<seq<Cell>>)
    requires forall r :: 0 <= r < |a| ==> |a[r]| == 3
    requires forall r :: 0 <= r < |b| ==> |b[r]| == 3
    ensures Render(a) == Render(b) ==> a == b
  {
    if Render(a) == Render(b) {
      RenderAt(a);
      RenderAt(b);
      assert |a| == |b|;
      forall r | 0 <= r < |a|
        ensures a[r] == b[r]
      {
        forall c | 0 <= c < 3
          ensures a[r][c] == b[r][c]
        {
          assert Render(a)[7 * r + 2 * c] == Render(b)[7 * r + 2 * c];
          StrInjective(a[r][c], b[r][c]);
        }
      }
    }
  }

  /** The empty starting board prints as three lines of three blank cells. */
  lemma EmptyBoardRendering()
    ensures Render(EmptyBoard()) == "      \n      \n      \n"
  {
    var row: seq<Cell> := [E, E, E];
    assert row[..2] == [E, E] && [E, E][..1] == [E] && |[E][..0]| == 0;
    assert RowText([E]) == "  ";
    assert RowText([E, E]) == "    ";
    assert RowText(row) == "      ";
    var b := EmptyBoard();
    assert b[..2] == [row, row] && [row, row][..1] == [row] && |[row][..0]| == 0;
    assert Render([row]) == "      \n";
    assert Render([row, row]) == "      \n      \n";
  }
}

/** The tri-state cell of the grid: a mark of one of the two players, or empty. */
module Cells {

  datatype Cell = X | O | E {

    /** True for the two players' marks, false for the empty cell. */
    predicate IsMark() {
      this != E
    }

    /** The character the grid shows for this cell: each value gets its own one. */
    function Str(): (ch: char)
      ensures ch == 'X' <==> this == X
      ensures ch == 'O' <==> this == O
      ensures ch == ' ' <==> this == E
    {
      match this
      case X => 'X'
      case O => 'O'
      case E => ' '
    }

    /** The constant's name, which is what string concatenation with a cell produces
        (Java's default `toString()` of an enum constant). For a mark it is the
        mark's own character; the empty cell is named "E", not shown as a space. */
    function Name(): (s: string)
      ensures |s| == 1
      ensures IsMark() ==> s == [Str()]
      ensures !IsMark() ==> s == "E"
    {
      match this
      case X => "X"
      case O => "O"
      case E => "E"
    }
  }

  /** Two cells that are shown alike are the same cell. */
  lemma StrInjective(a: Cell, b: Cell)
    ensures a.Str() == b.Str() ==> a == b
  {
  }

  /** Two cells with the same name are the same cell. */
  lemma NameInjective(a: Cell, b: Cell)
    ensures a.Name() == b.Name() ==> a == b
  {
  }
}

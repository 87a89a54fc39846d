# Tic-tac-toe board evaluation

A Dafny model of the board-evaluation core of a console tic-tac-toe game
(`src/game/Main.java`). The grid is 3×3. Each cell is `X`, `O` or `E` (empty).
The program does three things:

- It prints the grid: each cell's character followed by a space, then a line break after each row.
- It classifies the board. It scans row *i* and then column *i* for *i* = 0, 1, 2, then the main diagonal, then the anti-diagonal. The first complete line is announced as "⟨cell⟩ wins". With no complete line, it says "Game not finished" if any cell is empty and "Draw" otherwise.
- Its entry point does both of these on the all-empty board.

The model has four modules:

- `Cells` (`cells.dfy`): the `Cell` enum. `Str` gives the character the grid shows. `Name` gives the constant's name, which is what `cell + " wins"` prints.
- `Rules` (`rules.dfy`): the line check `Check` and the eight lines. It also defines `ScanOrder`, the order in which the program examines the lines, and the pure classification `Evaluate` with its message. The lemmas state the properties of `Evaluate`.
- `Rendering` (`rendering.dfy`): `Render`, the text the grid printer produces, with lemmas about where each character lands.
- `Game` (`game.dfy`): the program's static methods. They read the two-dimensional array directly and return what they would print.
  - `PrintState` keeps the source's `for` loop, its early returns, the `hasEmptyCells` flag and the final `if`/`else` chain. It is proved to return `Message(Evaluate(board))`.
  - `PrintTable` keeps the nested loops. It is proved to return `Render(board)`.
  - `Start` is the entry point.

Neither `PrintState` nor `PrintTable` has a `modifies` clause, so neither can change the table. `PrintStateTwice` shows that a second evaluation returns the same message.

The anti-diagonal branch is modelled **as written**. When the anti-diagonal is the first complete line, the program announces the top-left cell `table[0][0]`, which is not on that line. The announcement can therefore be the other player's mark, or even "E wins" (see Findings). `Evaluate` and `PrintState` keep this behaviour. `IntendedEvaluate` is the corrected variant, and the lemmas beside it compare the two.

## Model

| member | source | states |
|---|---|---|
| `Cells.Cell.Str` | src/game/Main.java:6-16 | X shows as 'X', O as 'O' and the empty cell as ' ', in both directions, so each value gets exactly one of the three characters |
| `Cells.StrInjective` | src/game/Main.java:6-16 | two cells shown alike are the same cell |
| `Cells.Cell.Name` | src/game/Main.java:3-4 | a cell's name, used in "… wins", is one character: the mark's own character for X and O, and "E" for the empty cell |
| `Cells.NameInjective` | src/game/Main.java:3-4 | different cells have different names |
| `Rules.Check` | src/game/Main.java:21-23 | three cells complete a line exactly when they are three X's or three O's; three empty cells do not |
| `Rules.ScanOrder` | src/game/Main.java:38-60 | the scan examines eight lines, none twice: row i, then column i, for i = 0..2, then the main diagonal, then the anti-diagonal |
| `Rules.ScanOrderCoversLines` | src/game/Main.java:38-60 | every line of the grid is in the scan order |
| `Rules.ScanPositions` | src/game/Main.java:38-49 | row i is the 2i-th line examined and column i the (2i+1)-th |
| `Rules.FirstComplete` | src/game/Main.java:38-60 | the position it returns holds a complete line, and no line before it is complete (or none is, when it returns the length) |
| `Rules.ReportsFirstComplete` | src/game/Main.java:38-60 | when the k-th line in scan order is complete and no earlier one is, the outcome is a win for that line's announced cell |
| `Rules.RowWins` | src/game/Main.java:38-43 | a complete row i with no complete row or column before it in the scan gives "table[i][0] wins", and that cell is a mark |
| `Rules.ColumnWins` | src/game/Main.java:38-49 | a complete column i with row i and all earlier rows and columns incomplete gives "table[0][i] wins", and that cell is a mark |
| `Rules.CrossingLinesAgree` | src/game/Main.java:38-60 | two complete lines that cross share their mark; only two rows, or two columns, can be complete for different players |
| `Rules.FirstRowDecides` | src/game/Main.java:38-49 | the first complete row's mark is announced whatever the columns and diagonals hold: an earlier complete column crosses that row and shares its mark, and every row is examined before either diagonal |
| `Rules.FirstColumnDecides` | src/game/Main.java:38-49 | the first complete column's mark is announced whatever the rows and diagonals hold, since an earlier complete row crosses it and shares its mark |
| `Rules.WinnerIsFirstComplete` | src/game/Main.java:38-60 | a win is always announced for the announced cell of the first complete line in scan order |
| `Rules.MainDiagonalWins` | src/game/Main.java:55-56 | with no row or column complete, a complete main diagonal is reported before the anti-diagonal and announces its own shared mark table[0][0] |
| `Rules.AntiDiagonalAnnouncesCorner` | src/game/Main.java:58-59 | with only the anti-diagonal complete, the announced cell is table[0][0], as written |
| `Rules.EmptyWinsOnlyByAntiDiagonal` | src/game/Main.java:58-59 | "E wins" is announced exactly when the anti-diagonal is the only complete line and the top-left cell is empty |
| `Rules.Classification` | src/game/Main.java:36-66 | the outcome is a win exactly when some line is complete; otherwise "Game not finished" exactly when some cell is empty, and "Draw" exactly when none is |
| `Rules.ReportsNoLine` | src/game/Main.java:61-66 | with no line complete, the outcome depends only on whether a cell is empty |
| `Rules.MessageInjective` | src/game/Main.java:41-65 | different outcomes print different messages |
| `Rules.EmptyBoard` | src/game/Main.java:72-76 | the starting board is 3×3 with every cell empty |
| `Rules.EmptyBoardNotFinished` | src/game/Main.java:72-79 | the all-empty starting board evaluates to "Game not finished" |
| `Rules.IntendedWinnerOwnsLine` | src/game/Main.java:55-60 | corrected, a win is announced exactly when a line is complete, always for a mark that owns a complete line; the non-win outcomes are unchanged |
| `Rules.IntendedAgreesExceptAntiDiagonal` | src/game/Main.java:55-60 | the program and the corrected version disagree exactly when only the anti-diagonal is complete and the top-left cell differs from its mark |
| `Rules.AntiDiagonalQuirkWitness` | src/game/Main.java:58-59 | on `O·X / ·X· / X··`, X completes the anti-diagonal but the program prints "O wins"; the corrected version prints "X wins" |
| `Rules.EmptyCornerWitness` | src/game/Main.java:58-59 | on `··X / ·X· / X··` the program prints "E wins" |
| `Rendering.RowTextAt` | src/game/Main.java:27-29 | a row of n cells prints as 2n characters: cell c's character at 2c, a space at 2c + 1 |
| `Rendering.RenderAt` | src/game/Main.java:25-32 | a table of 3-cell rows prints seven characters per row: cell (r, c) at 7r + 2c, a space after it, and a line break at 7r + 6 |
| `Rendering.RenderInjective` | src/game/Main.java:25-32 | two tables of 3-cell rows that print alike hold the same cells |
| `Rendering.EmptyBoardRendering` | src/game/Main.java:25-32 | the empty board prints as three lines, each of three "  " cell strings and a line break |
| `Game.PrintTable` | src/game/Main.java:25-32 | the nested loops return exactly `Render` of the table's cells |
| `Game.PrintState` | src/game/Main.java:34-68 | the loop with its early returns and empty-cell flag returns exactly the message of `Evaluate` on the table's cells, and it does not modify the table |
| `Game.PrintStateTwice` | src/game/Main.java:34-68 | evaluating the same table twice gives the same message, which is the message of `Evaluate` |
| `Game.NewTable` | src/game/Main.java:72-76 | the starting table is a fresh 3×3 table whose cells are the empty board |
| `Game.Start` | src/game/Main.java:70-80 | the program's start prints the empty grid, three lines of six spaces, followed by "Game not finished" |

## Left out

- Console output: `System.out.print` and `println` are modelled as returned strings, and a line break as `"\n"`. A platform-specific line separator is not modelled.
- The table is modelled as a two-dimensional array (`array2<Cell>`), not as an array of row arrays. The model therefore does not capture rows that alias each other or have different lengths. `printState` only reads the table, so aliasing cannot change its result.
- `PrintState` requires a 3×3 table because the board is fixed at 3×3. The Java code also runs on some larger tables, reading only some of their cells, and throws on most smaller ones (a table with fewer than three rows still prints "… wins" when its first row is complete); neither case is modelled. `PrintTable` accepts an `array2` of any dimensions; the Java version also accepts rows of different lengths (see above).
- Null cells are not modelled. A Java `Cell[][]` can hold `null`; then `check(null, null, null)` is true, `printState` prints "null wins" and `printTable` throws. The `Cell` datatype has only the three constants, and the program's own table holds only `E` cells.
- The `main` method is modelled as `Start`, which returns what it prints.
- The game loop, human coordinate input, command parsing and the random and heuristic move strategies are not part of this model. They do not appear in `src/game/Main.java`.

## Findings

| source | as written | input that shows it | evidently intended | confidence | as-written member | corrected member |
|---|---|---|---|---|---|---|
| src/game/Main.java:58-59 | the anti-diagonal branch prints `table[0][0] + " wins"`, and the top-left cell is not on the anti-diagonal | rows `O _ X`, `_ X _`, `X _ _` print "O wins" although X completed the anti-diagonal; with the corner empty they print "E wins" | announce the anti-diagonal's own mark (`table[0][2]`, equivalently `table[1][1]`) | high; not executed | `Rules.AntiDiagonalQuirkWitness` | `Rules.IntendedWinnerOwnsLine` |

`Game.PrintState` keeps the behaviour as written, because that is what the program does. `Rules.IntendedEvaluate` is the corrected classification. `Rules.IntendedAgreesExceptAntiDiagonal` states exactly when the two differ.

# Tic-tac-toe board: win detection and the move transition

This project models the game logic of a React tic-tac-toe board (`src/index.js`) in Dafny:

- **Win detection** (`calculateWinner`). The board has nine squares, each empty (`null`) or holding `'X'` or `'O'`. The detector scans eight lines in a fixed order: three rows, three columns, two diagonals. It returns the mark of the first line whose three squares hold the same mark, or `null` when no line does. The model is in `win_detection.dfy` (module `WinDetection`). `Winner` is the specification, defined by the recursive scan `WinnerFrom`. `CalculateWinner` is the source's loop with its early return, proved equal to `Winner`.
- **The `Board` component's state and its click handler** (`Board` constructor, `handleClick`). This is in `board.dfy` (module `TicTacToe`). `Board` is a class with the two state fields `squares` (a `seq<Cell>`) and `xIsNext`. `HandleClick` ignores a click when the board has a winner or the square is filled. Otherwise it writes the mover's mark into a copy of the squares and installs the copy and the flipped turn together.
- **The status line** derived in `render`. `Status` gives `"Winner: <mark>"` or `"Next player: <mark>"`. There is no draw state.

Beyond the single-call contracts, the model proves an invariant of every reachable state (`Consistent`):
- the X count equals the O count when X is to move, and exceeds it by one otherwise;
- every won line belongs to the player who moved last.

From this invariant, every won line in play has the same mark, so the winner does not depend on which won line comes first in the table, and a reported winner is always the last mover.

The source's `null` square is `Cell.Empty`, and its `null` winner is `Option.None`. The state is replaced wholesale by `setState`; the model treats that as one atomic assignment of both fields.

## Model

| member | source | states |
|---|---|---|
| WinDetection.LineTest | src/index.js:129-130 | The per-line test (first square filled and equal to the other two) passes exactly when the line is won by one mark, and it yields that mark |
| WinDetection.WinnerFrom | src/index.js:128-134 | The scan from line k returns null exactly when no line from k on is won; otherwise its mark wins some line from k on with no won line between k and it |
| WinDetection.Winner | src/index.js:116-134 | The result is null exactly when no line is filled by a single mark; a non-null result owns the first won line in table order |
| WinDetection.WinnerFromReaches | src/index.js:128-132 | A scan that starts at or before the first won line returns that line's mark |
| WinDetection.WinnerComplete | src/index.js:117-132 | The mark of the first won line in table order is the winner (first match wins) |
| WinDetection.WinnerOfAgreedBoard | src/index.js:117-132 | When every won line has the same mark m and one exists, the winner is m, whichever won line comes first in the table |
| WinDetection.EmptyBoardHasNoWinner | src/index.js:31 | The all-null starting board has no winner |
| WinDetection.CalculateWinner | src/index.js:116-135 | The loop with early return computes exactly the specified winner |
| TicTacToe.MarkFor | src/index.js:43 | The mark placed is X exactly when xIsNext holds, and O exactly when it does not (the same choice names the next player at line 67) |
| TicTacToe.Count | src/index.js:43 | The number of squares holding a mark is at most the board size, and it is zero exactly when no square holds that mark |
| TicTacToe.Status | src/index.js:62-68 | The status starts with "Winner: " exactly when there is a winner and with "Next player: " exactly when there is none; it is 9 or 14 characters long, so exactly the prefix plus one character, and that last character is the winner's mark, or else the mover's |
| TicTacToe.CountPlace | src/index.js:43 | Writing a mark into an empty square raises that mark's count by one and leaves the other mark's count unchanged |
| TicTacToe.CountAtLeastThree | src/index.js:130 | Three distinct squares holding a mark make that mark's count at least three |
| TicTacToe.FewMarksNoLine | src/index.js:130 | A mark on fewer than three squares cannot fill any of the eight lines |
| TicTacToe.FewMarksNoWinner | src/index.js:128-134 | With fewer than three marks of each player, the winner is null |
| TicTacToe.InitialConsistent | src/index.js:30-34 | The opening state (nine nulls, X to move) satisfies the invariant |
| TicTacToe.PlaceKeepsBalance | src/index.js:43-47 | An accepted move keeps the X count minus the O count at 0 when X is next and at 1 otherwise |
| TicTacToe.PlaceWinsOnlyForMover | src/index.js:40-45 | A move accepted on a board with no winner can only complete lines belonging to the mover |
| TicTacToe.PlaceKeepsConsistent | src/index.js:40-47 | An accepted move preserves the reachable-state invariant |
| TicTacToe.WinnerMovedLast | src/index.js:62-65 | In a reachable state the winner is the player who moved last, and the status names that player |
| TicTacToe.StatusDistinguishes | src/index.js:62-68 | Equal status lines imply the same winner and, with no winner, the same player to move |
| TicTacToe.FullBoardWithoutWinner | src/index.js:62-68 | A full board with no winner still reports "Next player: ", so there is no draw state |
| TicTacToe.Board.constructor | src/index.js:28-35 | The state starts as nine empty squares with X to move, and it satisfies the invariant |
| TicTacToe.Board.HandleClick | src/index.js:37-49 | A click is ignored (state unchanged) when the board has a winner or the square is filled. Otherwise only square i changes, to X if X was next and else O, and the turn flips. The invariant is preserved |
| TicTacToe.TopRowPositions | src/index.js:116-135 | The boards after clicks 0, 4, 1 and 5 have no winner, and the board after the further click 2 is won by X |
| TicTacToe.TopRowGame | src/index.js:37-68 | Clicks 0,4,1,5,2 make X win the top row, the status reads "Winner: X", and a further click on 8 is ignored |
| TicTacToe.DoubleClick | src/index.js:40-41 | A second click on the same square leaves the board as the first click left it |

## Left out

- React rendering: the `Square` function component, `renderSquare` and the markup in `render` (src/index.js:19-25, 51-58, 70-89). They are user interface, not game logic.
- The `Game` component (src/index.js:93-107). It is layout with a TODO and has no logic: there is no move history or jump-to-move code.
- `ReactDOM.render` and the CSS import (src/index.js:1-3, 111-114). They are DOM and bundler plumbing.
- The commented-out `Square` class (src/index.js:5-16). It is dead code.
- React's asynchronous `setState` batching. The update is modelled as an atomic replacement of both state fields.
- JavaScript's `calculateWinner` accepts an array of any length, reading `undefined` past the end. The model requires nine squares, the only size the component ever passes.

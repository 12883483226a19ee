# Tic-tac-toe game engine in Dafny

This project models the game logic of a React tic-tac-toe app
(`tic-tac-toe/src/index.js`) and proves properties of it. The model has
two parts.

- **Win detection** (`win.dfy`, module `Win`). `calculateWinner` checks a
  nine-square board against eight fixed index triples: three rows, then
  three columns, then two diagonals. It returns the first triple whose
  squares are equal and filled, together with that square's mark, or
  `null` when no triple matches. The model gives it three forms, each
  proved equal to the others:
  - the list scan `CalculateWinner`;
  - the loop `CalculateWinnerLoop`, written as the source's `for` loop;
  - the unrolled case split `WinnerByCases`.
- **The `Game` state** (`game.dfy`, module `TicTacToe`). The state is the
  record `{history, stepNumber, xIsNext}`. It is modelled as the datatype
  `Game` with two pure transitions:
  - `HandleClick`: a click on a square;
  - `JumpTo`: a click in the move list.

  Each React `setState` replaces the fields at once, so each transition
  is a function from state to state. The ghost predicate `Valid` is the
  invariant of every reachable state. It covers:
  - turn parity;
  - the view lying inside the history;
  - the empty first board;
  - one move of the right player between consecutive snapshots;
  - no winner on any snapshot but the last.

`cells.dfy` (module `Cells`) defines squares, boards and mark counting.
`scenarios.dfy` (module `Scenarios`) plays fixed click sequences from the
initial state. It replays them on a single board (`Simulate`), and
`ClicksSimulate` proves that, from a state viewing its last snapshot,
the replay matches the real state transitions.

Two facts about the code that a reader of the game might not expect are
proved here:

- Clicking the squares 0, 1, ..., 8 in order does not fill the board.
  X's fourth mark, on square 6, completes the diagonal 2-4-6, so the
  clicks on 7 and 8 are ignored (`ClicksInOrder`).
- A single legal move can complete two lines at once (`TwoLinesAtOnce`:
  X's last mark on 0 completes both the top row and the left column).
  The order of the line list therefore decides which line is reported
  and highlighted: here it is the row.

## Model

| member | source | states |
|---|---|---|
| Cells.Player | tic-tac-toe/src/index.js:68 | the mover's mark is X exactly when `xIsNext`, and never empty |
| Cells.FillOne | tic-tac-toe/src/index.js:64-68 | writing a mark on an empty square of the copied board raises the filled count and that mark's count by one, and leaves the other mark's count unchanged |
| Cells.EmptyBoardCounts | tic-tac-toe/src/index.js:51 | `Array(9).fill(null)` has no filled square and no mark of either player |
| Win.CalculateWinner | tic-tac-toe/src/index.js:152-176 | there is a winner exactly when one of the eight listed triples is completed; the reported line is the first completed one in list order, and the mark (`label`) is `squares[a]` (also equal to `squares[b]` and `squares[c]`) and is non-empty |
| Win.WinnerFromFirst | tic-tac-toe/src/index.js:165-175 | the loop resumed at position `i` returns `null` exactly when no triple from `i` on is completed; otherwise it returns the first completed one with its mark |
| Win.CalculateWinnerLoop | tic-tac-toe/src/index.js:165-175 | the `for` loop with early return gives the same result as the list scan, and the first-match property |
| Win.CalculateWinnerByCases | tic-tac-toe/src/index.js:154-175 | on every board, the scan equals testing the eight triples by hand in the listed order |
| Win.FirstCompletedUnique | tic-tac-toe/src/index.js:165-171 | the first completed line is unique, so the early return is deterministic |
| Win.LinesInOrder | tic-tac-toe/src/index.js:154-163 | the list has eight entries: rows first, then columns, then diagonals |
| Win.LinesDistinct | tic-tac-toe/src/index.js:154-163 | no triple is listed twice |
| Win.GridLinesListed | tic-tac-toe/src/index.js:154-163 | every row, column and diagonal of the 3x3 grid is in the list |
| Win.LineShape | tic-tac-toe/src/index.js:154-163 | each listed triple is a row, a column or a diagonal, with three distinct squares |
| Win.WinnerLineIsGridLine | tic-tac-toe/src/index.js:165-171 | the reported `line` is always a genuine row, column or diagonal of three distinct squares |
| TicTacToe.Init | tic-tac-toe/src/index.js:48-57 | the constructed state keeps the invariant; it has one snapshot, and that snapshot is empty |
| TicTacToe.Kept | tic-tac-toe/src/index.js:62 | `slice(0, stepNumber + 1)` keeps between one and all snapshots; when the view is inside the history it keeps exactly `stepNumber + 1` |
| TicTacToe.ClickedBoard | tic-tac-toe/src/index.js:62-63 | the board a click acts on is the last kept snapshot, which is the viewed board whenever the view is inside the history |
| TicTacToe.HandleClick | tic-tac-toe/src/index.js:60-76 | the state is unchanged exactly when the clicked board has a winner or square `i` is filled. Otherwise: the kept snapshots are unchanged; exactly one board follows them; that board has the mover's mark at `i` and the clicked board everywhere else; it is one legal move from the clicked board; the view moves to it; the turn passes |
| TicTacToe.JumpTo | tic-tac-toe/src/index.js:84-89 | the history is untouched; `stepNumber` becomes `step`; the viewed board is `history[step]`; `xIsNext` is `step % 2 == 0`; the invariant is kept |
| TicTacToe.ClickOnValid | tic-tac-toe/src/index.js:62-73 | on a reachable state, a click that is not ignored keeps `history[0..stepNumber]` and leaves `stepNumber + 2` snapshots; the new step is `stepNumber + 1`, and the new board is one move of the player whose turn it was |
| TicTacToe.HandleClickPreservesValid | tic-tac-toe/src/index.js:60-76 | a click keeps the invariant: parity, bounds, empty first board, one move per step, no play after a win |
| TicTacToe.SnapshotCounts | tic-tac-toe/src/index.js:49-54 | on a reachable state, snapshot `k` has exactly `k` filled squares: `(k + 1) / 2` X marks and `k / 2` O marks |
| TicTacToe.MoveCounts | tic-tac-toe/src/index.js:68 | one move by the player whose turn it is after `k` moves takes the counts of step `k` to those of step `k + 1` |
| TicTacToe.HistoryBounded | tic-tac-toe/src/index.js:65-75 | a reachable history never holds more than ten snapshots |
| TicTacToe.TurnMatchesBoard | tic-tac-toe/src/index.js:54-55 | on a reachable state, X is to move exactly when both players have as many marks on the viewed board; X never trails O and never leads by more than one |
| TicTacToe.DecidedBoardFreezes | tic-tac-toe/src/index.js:65-67 | once the viewed board has a winner or is full, every click is a no-op |
| TicTacToe.JumpToViewedStep | tic-tac-toe/src/index.js:84-89 | on a reachable state, jumping to the viewed step changes nothing |
| TicTacToe.JumpThenClick | tic-tac-toe/src/index.js:62-73 | after a jump back to step `k`, a move keeps the first `k + 1` snapshots, discards every later one, and appends one legal move |
| Scenarios.ClicksPreserveValid | tic-tac-toe/src/index.js:60-76 | any sequence of clicks keeps the invariant |
| Scenarios.ClicksSimulate | tic-tac-toe/src/index.js:60-76 | from a state that views its last snapshot, a click sequence ends where the single-board replay ends: same step, same turn, same board |
| Scenarios.LeftColumnWin | tic-tac-toe/src/index.js:48-76 | from the initial state, clicks 0, 1, 3, 4, 6 leave six snapshots, with X winning on the left column |
| Scenarios.ClicksInOrder | tic-tac-toe/src/index.js:48-76 | from the initial state, clicks 0..8 stop after seven moves: X wins on 2-4-6, seven squares are filled, and the clicks on 7 and 8 are ignored |
| Scenarios.JumpBackAndBranch | tic-tac-toe/src/index.js:60-89 | moves 0, 1, 2, then a jump to step 0, then a move on 4, leave only the empty board and the new move |
| Scenarios.TwoLinesAtOnce | tic-tac-toe/src/index.js:152-176 | on a reachable board where one move completed both the top row and the left column, the row (listed first) is reported |
| Scenarios.LeftColumnBoard | tic-tac-toe/src/index.js:165-171 | on the final board of the left-column game, the left column is the first completed line, and it is X's |
| Scenarios.InOrderBoard | tic-tac-toe/src/index.js:165-171 | on the final board of the in-order game, the diagonal 2-4-6 is the first completed line, and it is X's |
| Scenarios.TwoLinesBoard | tic-tac-toe/src/index.js:165-171 | on the final board of the two-line game, both lines are completed and the row is reported |

## Left out

- The `Square` and `Board` components and the JSX of `Game.render` (`tic-tac-toe/src/index.js:7-42`, `91-149`): presentation only.
- The `ReactDOM.render` mount and the CSS import (`tic-tac-toe/src/index.js:3-5`, `180-183`): DOM and browser I/O.
- The move-order toggle, i.e. `handleChangeOrder`, the `orderIsAscending` field and the reversed list mapping (`tic-tac-toe/src/index.js:56`, `78-82`, `99-101`, `134`, `141`): it only changes how the move list is shown. No transition reads it, so `Game` leaves it out.
- The move-list labels `'Move #' + move` and `'Game Start'`, and the status text `'Winner: '` / `'Next player: '` (`tic-tac-toe/src/index.js:102`, `110-115`): strings for display.
- The asynchrony of React `setState`: each transition is an atomic replacement of the state fields.
- TicTacToe.HandleClick: requires `0 <= i < 9`. The only caller is the board, which renders squares `r * 3 + c` for `r, c` in 0..2 (`tic-tac-toe/src/index.js:33-36`). What JavaScript does for an index outside the board (it writes past the end of the array) is not modelled.
- TicTacToe.JumpTo: requires `step < |history|`. The only caller maps over the indices of `history` (`tic-tac-toe/src/index.js:105`). A jump outside the history is not modelled.
- Win.CalculateWinner: it is stated for boards of exactly nine squares, which are the only boards the game creates.
- The single-board replay `Simulate` is a proof device for the concrete games in `scenarios.dfy` and has no counterpart in the game.

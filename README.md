# Tic-tac-toe rules, modelled in Dafny

This project models the game rules of a small React tic-tac-toe collection:

- the line-win evaluator `checkWinnerClassic`, which returns the winner and the winning line;
- its duplicate `checkWinner`, which returns only the mark, "Draw" or null;
- the click handlers of three variants:
  - classic;
  - misère, where the player who completes a line loses;
  - ultimate, with nine sub-boards, a meta-board of sub-board owners and an "active sub-board" rule.

A cell is `Empty` (null in the source) or `Mark(X)`/`Mark(O)`. A board is a sequence of exactly nine cells. The evaluators are pure functions. Each is proved against quantified reference predicates:

- `Complete`: a line holding three equal marks;
- `HasLine`: some line of the table is complete;
- `IsFirstComplete`: a line is the first complete one in table order;
- `IsFull`: no cell is empty.

Each game component is a class. Its fields are the component's `useState` variables. Each handler is a method that performs one atomic transition. A handler copies the arrays it changes and hands the copies to the setters, so the model reassigns `seq` fields instead of updating them in place.

Every class carries a `Valid()` invariant that each handler preserves:

- X moves first, so the number of X marks equals the number of O marks, plus one after X has moved.
- Classic and misère: the winning line (the first complete one) always belongs to the player who moved last.
- Misère: `loser` and `losingLine` are exactly what `checkWinnerClassic` says about the board.
- Ultimate:
  - every meta-board entry is the owner of its sub-board;
  - an active sub-board is unowned and has an empty cell;
  - the overall winner is `checkWinnerClassic` of the meta-board.

  Ultimate sub-boards may hold lines of both players. What each move promises instead is stated in `Played`: a sub-board line completed by a move is the mover's.

The ultimate game is modelled as written. A sub-board that fills up without a line never enters the meta-board. So the overall result can be "Draw" only when all nine sub-boards are won (`DrawMeansAllSubBoardsWon`). The module `UltimateStall` gives a concrete position consistent with the invariant in which:

- every click is rejected;
- the winner is still null.

So a state satisfying everything the handler preserves can have no legal move and no result, neither a winner nor a draw. That position is not proved reachable by play.

Filling the cells in index order, X first, never reaches a full board: the seventh mark, X at cell 6, completes the anti-diagonal 2, 4, 6, and `checkWinnerClassic` reports X with that line (`InOrderFillIsWonOnAntiDiagonal`).

Modules and files:

- `win_check.dfy` (`WinCheck`): cells, boards, the line table and `checkWinnerClassic`.
- `game_logic.dfy` (`GameLogic`): `checkWinner`, and its agreement with `checkWinnerClassic`.
- `moves.dfy` (`Moves`): the current mark, mark counts, and why only the mover can complete a line.
- `classic.dfy` (`Classic`), `misere.dfy` (`Misere`), `ultimate.dfy` (`Ultimate`, `UltimateStall`): the three games.

## Model

| member | source | states |
|---|---|---|
| WinCheck.FirstCompleteFrom | src/utils/checkWinnerClassic.ts:19-24 | The early-return scan from entry k returns the index of a complete line with no complete line before it, or None exactly when no line from k on is complete |
| WinCheck.CheckWinnerClassic | src/utils/checkWinnerClassic.ts:12-28 | `line` is non-null exactly when `winner` is X or O, and it is then one of the eight table triples |
| WinCheck.CheckWinnerClassicSpec | src/utils/checkWinnerClassic.ts:12-28 | The result has a winner iff the board has a complete line. That winner's mark fills the first complete line in table order, and that line is the one returned. A full board with a line is never a draw. With no line, "Draw" iff the board is full and null iff it is not |
| WinCheck.InOrderFillIsWonOnAntiDiagonal | src/utils/checkWinnerClassic.ts:19-24 | After marks X, O, X, O, X, O, X in cells 0 to 6, the result is X with the line 2, 4, 6, the last entry of the table |
| GameLogic.ScanFrom | src/utils/gameLogic.ts:16-20 | The scan returns `board[a]` of the first complete triple from entry k, or null exactly when none from k on is complete |
| GameLogic.CheckWinner | src/utils/gameLogic.ts:4-22 | The result is X/O exactly when some line is complete; with no line, "Draw" exactly when the board holds no null and null exactly when it holds one |
| GameLogic.CheckWinnerSpec | src/utils/gameLogic.ts:16-19 | A returned X/O mark fills all three cells of the first complete line in table order |
| GameLogic.ScanAgreesWithFirstComplete | src/utils/gameLogic.ts:16-20 | Both scans stop at the same triple of the table |
| GameLogic.CheckWinnerAgreesWithClassic | src/utils/gameLogic.ts:4-22 | On every nine-cell board, `checkWinner(b)` equals `checkWinnerClassic(b).winner` |
| Moves.Count | src/games/ClassicTicTacToe.tsx:11-12 | A player's mark count is at most the board length, and zero exactly when the mark is absent |
| Moves.CountIsMultiplicity | src/games/ClassicTicTacToe.tsx:11-12 | The mark count equals the mark's multiplicity in the board's multiset |
| Moves.CountPlace | src/games/ClassicTicTacToe.tsx:20-21 | Writing a mark into an empty cell adds one to that player's count and leaves the other player's count alone |
| Moves.TotalCountZero | src/games/UltimateTicTacToe.tsx:14-15 | The total is zero exactly when no sub-board holds the mark |
| Moves.TotalCountPlace | src/games/UltimateTicTacToe.tsx:31-33 | Writing a mark into an empty cell of one sub-board adds one to that player's total and leaves the other player's total alone |
| Moves.MoverOwnsNewLine | src/games/MisereTicTacToe.tsx:37-48 | On a board with no line, writing p into an empty cell can only produce a winning line for p |
| Moves.CurrentMark | src/games/ClassicTicTacToe.tsx:21 | The mark placed is X exactly when it is X's turn |
| Classic.ClassicTicTacToe.constructor | src/games/ClassicTicTacToe.tsx:8-12 | Nine null cells, X to move, invariant established |
| Classic.ClassicTicTacToe.HandleClick | src/games/ClassicTicTacToe.tsx:16-24 | A click on a taken cell, or once `checkWinner` is non-null, changes nothing. Otherwise exactly cell `index` gets the current mark and the turn toggles. The count balance and "the winning line is the last mover's" are preserved |
| Classic.ClassicTicTacToe.ResetGame | src/games/ClassicTicTacToe.tsx:26-30 | The empty board and X to move |
| Classic.ClassicTicTacToe.DerivedWinner | src/games/ClassicTicTacToe.tsx:16 | The derived winner is non-null, so clicks are ignored, exactly when the board has a complete line or no empty cell |
| Misere.MisereTicTacToe.constructor | src/games/MisereTicTacToe.tsx:28-31 | Nine null cells, X to move, null `loser` and `losingLine` |
| Misere.MisereTicTacToe.HandleClick | src/games/MisereTicTacToe.tsx:36-53 | A click on a taken cell, or once `loser` is set, changes nothing. Otherwise the current mark is written only at `index` and the turn toggles. A completed line makes its mark the loser and its triple the losing line. A full board without a line gives "Draw" and a null line. Otherwise both stay null. A new loser is always the player who just moved |
| Misere.MisereTicTacToe.ResetGame | src/games/MisereTicTacToe.tsx:62-68 | The empty board, X to move, null `loser` and `losingLine` |
| Misere.LoserIsClassicWinner | src/games/MisereTicTacToe.tsx:41-52 | In every reachable misère state, `loser` is `checkWinner` of the board |
| Misere.ClickBoth | src/games/MisereTicTacToe.tsx:36-53 | A classic and a misère game fed the same click from the same position accept or reject it alike and stay on equal boards and turns, and the classic winner equals the misère loser |
| Ultimate.Owner | src/games/UltimateTicTacToe.tsx:35-39 | A sub-board's meta-board entry is null exactly when the sub-board has no complete line, so a drawn sub-board gives null; otherwise it is the mark filling the first complete line of the table |
| Ultimate.MoveAccepted | src/games/UltimateTicTacToe.tsx:28-29 | A click that passes both rejection tests targets a sub-board that is not full |
| Ultimate.UltimateTicTacToe.constructor | src/games/UltimateTicTacToe.tsx:14-22 | Nine empty sub-boards, an empty meta-board, no active sub-board, X to move, no winner, invariant established |
| Ultimate.UltimateTicTacToe.HandleMiniBoardClick | src/games/UltimateTicTacToe.tsx:27-48 | The move is rejected with the state unchanged when there is a winner, the sub-board is owned, the cell is taken, or another sub-board is active. Otherwise the transition of `Played` takes place. Owned sub-boards and their entries never change. The invariant is kept |
| Ultimate.UltimateTicTacToe.Play | src/games/UltimateTicTacToe.tsx:31-47 | Only cell `[boardIdx][cellIdx]` changes, to the current mark. The sub-board's entry becomes its winning mark if it now has a line; that mark is the mover's. The next active sub-board is null if sub-board `cellIdx` is owned or full, else `cellIdx`. The turn toggles. The winner is `checkWinnerClassic` of the new meta-board |
| Ultimate.UltimateTicTacToe.ResetGame | src/games/UltimateTicTacToe.tsx:57-64 | The initial boards, no active sub-board, X to move, no winner |
| Ultimate.MoveKeepsConsistent | src/games/UltimateTicTacToe.tsx:28-47 | An accepted move preserves the invariant: entries track owners, the active sub-board is playable, the winner is evaluated from the meta-board, and counts stay balanced. It also leaves owned sub-boards and their entries unchanged |
| Ultimate.InitialStateConsistent | src/games/UltimateTicTacToe.tsx:14-22 | The initial state satisfies the invariant |
| Ultimate.DrawMeansAllSubBoardsWon | src/games/UltimateTicTacToe.tsx:37-41 | In a consistent state whose winner is "Draw", every one of the nine sub-boards has an X/O winner |
| UltimateStall.StalledPositionRejectsEveryClick | src/games/UltimateTicTacToe.tsx:28-29 | In the stalled position every click on every sub-board and cell is rejected |
| UltimateStall.StalledPositionTracksOwners | src/games/UltimateTicTacToe.tsx:35-39 | The stalled position's meta-board holds exactly each sub-board's owner, with null for the drawn one |
| UltimateStall.StalledPositionBalanced | src/games/UltimateTicTacToe.tsx:33 | The stalled position holds 29 X marks and 28 O marks, the balance of a game in which it is O's turn |
| UltimateStall.DrawnSubBoardCanStallGame | src/games/UltimateTicTacToe.tsx:37-45 | There is a position satisfying the whole invariant (owners tracked, null winner evaluated from the meta-board, balanced counts with O to move), yet in which no click is accepted |

## Left out

- Rendering is not modelled: JSX, Tailwind classes, framer-motion animation, `Confetti` and `useWindowSize` are presentation only.
- The overlay is not modelled: the `useEffect`/`setTimeout` delay and the `showOverlay`, `showRules` and `setShowResult` flags only affect timing and UI.
- `getLineStyle` is not modelled; it is a CSS lookup table.
- The menu, routing and DOM mount (`VariantSelector`, `main.tsx`, `App.tsx`) are not modelled; they hold no game logic.
- The 3D, Wild and Gomoku variants are not part of this model.
- React's asynchronous `setState` batching is not modelled. Each handler is one atomic transition from the state it reads to the new state.
- Handlers require an index below 9, as every caller passes one. An out-of-range index from JavaScript is not modelled.
- Boards always have nine cells (a subset type); the evaluators are not modelled on boards of other lengths.
- The evaluators being side-effect free and deterministic needs no lemma: Dafny functions are pure by construction.
- UltimateStall.DrawnSubBoardCanStallGame: the position satisfies the invariant, but it is not proved reachable by legal play; no move sequence leading to it is given.
- Arrays are modelled as `seq` values that the handlers reassign. The source copies every array it changes, so no aliasing is lost.

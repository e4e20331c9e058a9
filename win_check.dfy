/** The line-win evaluator of a 3x3 board, with the result that also names
    the winning line (src/utils/checkWinnerClassic.ts). */
module WinCheck {

  datatype Option<T> = None | Some(value: T)

  datatype Player = X | O

  /** A cell is empty (null in the source) or holds a player's mark. */
  datatype Cell = Empty | Mark(player: Player)

  /** A board: nine cells, row by row. */
  type Board = b: seq<Cell> | |b| == 9
    witness [Empty, Empty, Empty, Empty, Empty, Empty, Empty, Empty, Empty]

  const EMPTY_BOARD: Board := seq(9, _ => Empty)

  /** An index triple; the source writes it as a three-element number array. */
  datatype Line = Line(a: nat, b: nat, c: nat)

  /** The line table, scanned in this order: rows, columns, diagonals. */
  const LINES: seq<Line> := [
    Line(0, 1, 2), Line(3, 4, 5), Line(6, 7, 8),
    Line(0, 3, 6), Line(1, 4, 7), Line(2, 5, 8),
    Line(0, 4, 8), Line(2, 4, 6)
  ]

  /** "X", "O", "Draw" or null in the source. */
  datatype Winner = Won(player: Player) | Draw | NoWinner

  datatype GameResult = GameResult(winner: Winner, line: Option<Line>)

  /** The three cells of `l` hold the same mark. An index past the end reads
      as undefined, which is falsy, so such a line is never complete. */
  predicate Complete(b: seq<Cell>, l: Line) {
    && l.a < |b| && l.b < |b| && l.c < |b|
    && b[l.a] != Empty && b[l.a] == b[l.b] && b[l.a] == b[l.c]
  }

  predicate HasLine(b: seq<Cell>) {
    exists i :: 0 <= i < |LINES| && Complete(b, LINES[i])
  }

  /** No cell is empty. */
  predicate IsFull(b: seq<Cell>) {
    forall i :: 0 <= i < |b| ==> b[i] != Empty
  }

  /** Entry `i` of the table is the first complete line. */
  predicate IsFirstComplete(b: seq<Cell>, i: int) {
    && 0 <= i < |LINES|
    && Complete(b, LINES[i])
    && forall j :: 0 <= j < i ==> !Complete(b, LINES[j])
  }

  /** The early-return scan of the table from entry `k` on: the index of the
      first complete line, if any. */
  function FirstCompleteFrom(b: Board, k: nat): (r: Option<nat>)
    requires k <= |LINES|
    ensures r.Some? ==>
      && k <= r.value < |LINES|
      && Complete(b, LINES[r.value])
      && forall j :: k <= j < r.value ==> !Complete(b, LINES[j])
    ensures r.None? ==> forall j :: k <= j < |LINES| ==> !Complete(b, LINES[j])
    decreases |LINES| - k
  {
    if k == |LINES| then None
    else if Complete(b, LINES[k]) then Some(k)
    else FirstCompleteFrom(b, k + 1)
  }

  /** checkWinnerClassic. A line is returned exactly with a winning mark, and
      it is always an entry of the table; the lemma CheckWinnerClassicSpec
      says which entry and which mark. */
  function CheckWinnerClassic(b: Board): (r: GameResult)
    ensures r.line.Some? <==> r.winner.Won?
    ensures r.line.Some? ==> r.line.value in LINES
  {
    match FirstCompleteFrom(b, 0)
    case Some(i) => GameResult(Won(b[LINES[i].a].player), Some(LINES[i]))
    case None => GameResult(if IsFull(b) then Draw else NoWinner, None)
  }

  /** The first complete line in table order decides the winner and is the
      line returned, even on a full board; otherwise a full board is a draw
      and any other board has no result yet. */
  lemma CheckWinnerClassicSpec(b: Board)
    ensures var r := CheckWinnerClassic(b);
      && (r.winner.Won? <==> HasLine(b))
      && (r.winner.Won? ==>
            exists i :: IsFirstComplete(b, i) && r.line == Some(LINES[i])
                        && b[LINES[i].a] == b[LINES[i].b] == b[LINES[i].c] == Mark(r.winner.player))
      && (r.winner == Draw <==> !HasLine(b) && IsFull(b))
      && (r.winner == NoWinner <==> !HasLine(b) && !IsFull(b))
  {
    match FirstCompleteFrom(b, 0)
    case Some(i) =>
      assert IsFirstComplete(b, i);
    case None =>
  }

  /** Cells filled in order 0, 1, 2, ... with X first: the seventh mark, X
      at cell 6, completes the anti-diagonal 2, 4, 6, which the scan reaches
      last, so the game is won by X before the board fills. */
  lemma InOrderFillIsWonOnAntiDiagonal()
    ensures CheckWinnerClassic([Mark(X), Mark(O), Mark(X), Mark(O), Mark(X), Mark(O), Mark(X), Empty, Empty])
            == GameResult(Won(X), Some(Line(2, 4, 6)))
  {
    assert FirstCompleteFrom([Mark(X), Mark(O), Mark(X), Mark(O), Mark(X), Mark(O), Mark(X), Empty, Empty], 0)
           == Some(7);
  }
}

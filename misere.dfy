/** The misère game (src/games/MisereTicTacToe.tsx): the player who completes
    a line loses. Its state is the board, whose turn it is, the loser ("X",
    "O", "Draw" or null) and the losing line. */
module Misere {
  import opened WinCheck
  import opened GameLogic
  import opened Moves
  import Classic

  class MisereTicTacToe {
    var board: Board
    var isXTurn: bool
    var loser: Winner
    var losingLine: Option<Line>

    /** Turns alternate from X; `loser` and `losingLine` are exactly what
        checkWinnerClassic says of the board, and a losing line is always the
        last mover's. */
    ghost predicate Valid()
      reads this
    {
      && Balanced(Count(board, X), Count(board, O), isXTurn)
      && loser == CheckWinnerClassic(board).winner
      && losingLine == CheckWinnerClassic(board).line
      && (loser.Won? ==> loser.player == CurrentMark(!isXTurn))
    }

    /** Nine empty cells, X to move, no loser. */
    constructor ()
      ensures Valid()
      ensures board == EMPTY_BOARD && isXTurn && loser == NoWinner && losingLine == None
    {
      board := EMPTY_BOARD;
      isXTurn := true;
      loser := NoWinner;
      losingLine := None;
    }

    /** handleClick: ignored when the cell is taken or a loser (or a draw)
        is already set; otherwise writes the current mark into that one cell,
        passes the turn, and records a completed line as a loss for its mark,
        or a full board as a draw. */
    method HandleClick(index: nat)
      requires Valid() && index < 9
      modifies this
      ensures Valid()
      ensures old(board[index]) != Empty || old(loser) != NoWinner ==> unchanged(this)
      ensures old(board[index]) == Empty && old(loser) == NoWinner ==>
        && board == old(board)[index := Mark(CurrentMark(old(isXTurn)))]
        && isXTurn == !old(isXTurn)
        && var result := CheckWinnerClassic(board);
           && (result.winner.Won? ==> loser == result.winner && losingLine == result.line)
           && (result.winner == Draw ==> loser == Draw && losingLine == None)
           && (result.winner == NoWinner ==> loser == NoWinner && losingLine == None)
      ensures loser.Won? && old(loser) == NoWinner ==> loser.player == CurrentMark(old(isXTurn))
    {
      if board[index] != Empty || loser != NoWinner {
        return;
      }
      var mark := CurrentMark(isXTurn);
      var newBoard := board[index := Mark(mark)];
      var result := CheckWinnerClassic(newBoard);
      CountPlace(board, index, mark, X);
      CountPlace(board, index, mark, O);
      MoverOwnsNewLine(board, index, mark);

      board := newBoard;
      isXTurn := !isXTurn;
      if result.winner.Won? {
        loser := result.winner;
        losingLine := result.line;
      }
      if result.winner == Draw {
        loser := Draw;
        losingLine := None;
      }
    }

    /** resetGame: back to the initial state. */
    method ResetGame()
      modifies this
      ensures Valid()
      ensures board == EMPTY_BOARD && isXTurn && loser == NoWinner && losingLine == None
    {
      board := EMPTY_BOARD;
      isXTurn := true;
      loser := NoWinner;
      losingLine := None;
    }
  }

  /** The misère loser is what the classic evaluator calls the winner of the
      same board. */
  lemma LoserIsClassicWinner(game: MisereTicTacToe)
    requires game.Valid()
    ensures game.loser == CheckWinner(game.board)
  {
    CheckWinnerAgreesWithClassic(game.board);
  }

  /** Played side by side from the same position, a classic and a misère game
      accept and reject the same clicks and stay on the same board, and the
      classic winner is always the misère loser. */
  method ClickBoth(classic: Classic.ClassicTicTacToe, misere: MisereTicTacToe, index: nat)
    requires classic.Valid() && misere.Valid() && index < 9
    requires classic.board == misere.board && classic.isXTurn == misere.isXTurn
    modifies classic, misere
    ensures classic.Valid() && misere.Valid()
    ensures classic.board == misere.board && classic.isXTurn == misere.isXTurn
    ensures classic.DerivedWinner() == misere.loser
  {
    LoserIsClassicWinner(misere);
    classic.HandleClick(index);
    misere.HandleClick(index);
    LoserIsClassicWinner(misere);
  }
}

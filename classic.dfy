/** The classic game (src/games/ClassicTicTacToe.tsx): its state is the
    board and whose turn it is; the winner is derived from the board with
    checkWinner on every render. */
module Classic {
  import opened WinCheck
  import opened GameLogic
  import opened Moves

  class ClassicTicTacToe {
    var board: Board
    var isXTurn: bool

    /** Turns alternate from X, and the winning line is always the last
        mover's. */
    ghost predicate Valid()
      reads this
    {
      && Balanced(Count(board, X), Count(board, O), isXTurn)
      && (CheckWinner(board).Won? ==> CheckWinner(board).player == CurrentMark(!isXTurn))
    }

    /** The derived `winner` of the component: the game is over exactly
        when the board has a line or no empty cell. */
    function DerivedWinner(): (r: Winner)
      reads this
      ensures r != NoWinner <==> HasLine(board) || Empty !in board
    {
      CheckWinner(board)
    }

    /** Nine empty cells, X to move. */
    constructor ()
      ensures Valid()
      ensures board == EMPTY_BOARD && isXTurn
    {
      board := EMPTY_BOARD;
      isXTurn := true;
    }

    /** handleClick: ignored when the cell is taken or the game has a result;
        otherwise writes the current mark into that one cell and passes the
        turn. */
    method HandleClick(index: nat)
      requires Valid() && index < 9
      modifies this
      ensures Valid()
      ensures old(board[index]) != Empty || old(DerivedWinner()) != NoWinner ==>
        board == old(board) && isXTurn == old(isXTurn)
      ensures old(board[index]) == Empty && old(DerivedWinner()) == NoWinner ==>
        && board == old(board)[index := Mark(CurrentMark(old(isXTurn)))]
        && isXTurn == !old(isXTurn)
    {
      if board[index] != Empty || DerivedWinner() != NoWinner {
        return;
      }
      var mark := CurrentMark(isXTurn);
      var newBoard := board[index := Mark(mark)];
      CountPlace(board, index, mark, X);
      CountPlace(board, index, mark, O);
      MoverOwnsNewLine(board, index, mark);
      CheckWinnerAgreesWithClassic(newBoard);
      board := newBoard;
      isXTurn := !isXTurn;
    }

    /** resetGame: back to the initial board with X to move. */
    method ResetGame()
      modifies this
      ensures Valid()
      ensures board == EMPTY_BOARD && isXTurn
    {
      board := EMPTY_BOARD;
      isXTurn := true;
    }
  }
}

/** The ultimate game (src/games/UltimateTicTacToe.tsx): nine sub-boards, a
    meta-board `mainBoardWinners` of their owners, an optional active
    sub-board the next move must go to, whose turn it is, and the overall
    winner. */
module Ultimate {
  import opened WinCheck
  import opened Moves

  const INITIAL_ULTIMATE_BOARD: seq<Board> := seq(9, _ => EMPTY_BOARD)

  /** The entry the meta-board gets for a sub-board: the winning mark of a
      won sub-board, and null for one that is drawn or still open. */
  function Owner(b: Board): (c: Cell)
    ensures c == Empty <==> !HasLine(b)
    ensures c != Empty ==> exists i :: IsFirstComplete(b, i) && b[LINES[i].a] == c
  {
    CheckWinnerClassicSpec(b);
    var result := CheckWinnerClassic(b);
    if result.winner.Won? then Mark(result.winner.player) else Empty
  }

  /** The two rejection tests of handleMiniBoardClick, passed. */
  predicate MoveAccepted(winner: Winner, meta: Board, subs: seq<Board>, active: Option<nat>,
                         boardIdx: nat, cellIdx: nat): (ok: bool)
    requires |subs| == 9 && boardIdx < 9 && cellIdx < 9
    ensures ok ==> !IsFull(subs[boardIdx])
  {
    && winner == NoWinner && meta[boardIdx] == Empty && subs[boardIdx][cellIdx] == Empty
    && (active.None? || active.value == boardIdx)
  }

  /** The state after an accepted move at (`boardIdx`, `cellIdx`): the
      current mark is written into that one cell; the sub-board's owner is
      recorded if it now has a line, and that owner is the mover; the next
      player is sent to sub-board `cellIdx` unless that one is owned or
      full; the turn passes; the meta-board is re-evaluated. */
  ghost predicate Played(subs: seq<Board>, meta: Board, wasXTurn: bool, boardIdx: nat, cellIdx: nat,
                         subs': seq<Board>, meta': Board, active': Option<nat>, isXTurn': bool, winner': Winner)
    requires |subs| == 9 && boardIdx < 9 && cellIdx < 9
  {
    && subs' == subs[boardIdx := subs[boardIdx][cellIdx := Mark(CurrentMark(wasXTurn))]]
    && (var miniResult := CheckWinnerClassic(subs'[boardIdx]);
        && meta' == (if miniResult.winner.Won? then meta[boardIdx := Mark(miniResult.winner.player)] else meta)
        && (miniResult.winner.Won? ==> miniResult.winner.player == CurrentMark(wasXTurn)))
    && active' == (if meta'[cellIdx] != Empty || IsFull(subs'[cellIdx]) then None else Some(cellIdx))
    && isXTurn' == !wasXTurn
    && winner' == CheckWinnerClassic(meta').winner
  }

  /** Each meta-board entry is its sub-board's owner. */
  ghost predicate OwnersTracked(subs: seq<Board>, meta: Board)
    requires |subs| == 9
  {
    forall i {:trigger Owner(subs[i])} :: 0 <= i < 9 ==> meta[i] == Owner(subs[i])
  }

  /** The state invariant: the meta-board tracks the owners, an active
      sub-board is unowned and has an empty cell, the overall winner is
      checkWinnerClassic of the meta-board, and X moved first. */
  ghost predicate Consistent(subs: seq<Board>, meta: Board, active: Option<nat>,
                             winner: Winner, isXTurn: bool)
  {
    && |subs| == 9
    && OwnersTracked(subs, meta)
    && (active.Some? ==> active.value < 9 && meta[active.value] == Empty && !IsFull(subs[active.value]))
    && winner == CheckWinnerClassic(meta).winner
    && Balanced(TotalCount(subs, X), TotalCount(subs, O), isXTurn)
  }

  class UltimateTicTacToe {
    var ultimateBoard: seq<Board>
    var activeBoardIndex: Option<nat>
    var isXTurn: bool
    var mainBoardWinners: Board
    var winner: Winner

    ghost predicate Valid()
      reads this
    {
      Consistent(ultimateBoard, mainBoardWinners, activeBoardIndex, winner, isXTurn)
    }

    /** Nine empty sub-boards, free choice of sub-board, X to move, no owners
        and no winner. */
    constructor ()
      ensures Valid()
      ensures ultimateBoard == INITIAL_ULTIMATE_BOARD && activeBoardIndex == None && isXTurn
      ensures mainBoardWinners == EMPTY_BOARD && winner == NoWinner
    {
      ultimateBoard := INITIAL_ULTIMATE_BOARD;
      mainBoardWinners := EMPTY_BOARD;
      isXTurn := true;
      activeBoardIndex := None;
      winner := NoWinner;
      InitialStateConsistent();
    }

    /** handleMiniBoardClick: ignored when the game has a result, the
        sub-board is owned, the cell is taken, or another sub-board is
        active; otherwise the move is played. Owned sub-boards and their
        entries never change. */
    method HandleMiniBoardClick(boardIdx: nat, cellIdx: nat)
      requires Valid() && boardIdx < 9 && cellIdx < 9
      modifies this
      ensures Valid()
      ensures !old(MoveAccepted(winner, mainBoardWinners, ultimateBoard, activeBoardIndex, boardIdx, cellIdx)) ==>
        unchanged(this)
      ensures old(MoveAccepted(winner, mainBoardWinners, ultimateBoard, activeBoardIndex, boardIdx, cellIdx)) ==>
        Played(old(ultimateBoard), old(mainBoardWinners), old(isXTurn), boardIdx, cellIdx,
               ultimateBoard, mainBoardWinners, activeBoardIndex, isXTurn, winner)
      ensures forall i :: 0 <= i < 9 && old(mainBoardWinners[i]) != Empty ==>
        mainBoardWinners[i] == old(mainBoardWinners[i]) && ultimateBoard[i] == old(ultimateBoard[i])
    {
      if winner != NoWinner || mainBoardWinners[boardIdx] != Empty || ultimateBoard[boardIdx][cellIdx] != Empty {
        return;
      }
      if activeBoardIndex.Some? && boardIdx != activeBoardIndex.value {
        return;
      }
      Play(boardIdx, cellIdx);
    }

    /** The body of handleMiniBoardClick after its two rejection tests. */
    method Play(boardIdx: nat, cellIdx: nat)
      requires Valid() && boardIdx < 9 && cellIdx < 9
      requires MoveAccepted(winner, mainBoardWinners, ultimateBoard, activeBoardIndex, boardIdx, cellIdx)
      modifies this
      ensures Valid()
      ensures Played(old(ultimateBoard), old(mainBoardWinners), old(isXTurn), boardIdx, cellIdx,
               ultimateBoard, mainBoardWinners, activeBoardIndex, isXTurn, winner)
      ensures forall i :: 0 <= i < 9 && old(mainBoardWinners[i]) != Empty ==>
        mainBoardWinners[i] == old(mainBoardWinners[i]) && ultimateBoard[i] == old(ultimateBoard[i])
    {
      var mark := CurrentMark(isXTurn);
      var newMiniBoard := ultimateBoard[boardIdx][cellIdx := Mark(mark)];
      var newUltimateBoard := ultimateBoard[boardIdx := newMiniBoard];

      var miniResult := CheckWinnerClassic(newMiniBoard);
      var newMainBoardWinners := mainBoardWinners;
      if miniResult.winner.Won? {
        newMainBoardWinners := newMainBoardWinners[boardIdx := Mark(miniResult.winner.player)];
      }

      var mainResult := CheckWinnerClassic(newMainBoardWinners);
      var newActive :=
        if newMainBoardWinners[cellIdx] != Empty || IsFull(newUltimateBoard[cellIdx]) then None else Some(cellIdx);

      ultimateBoard := newUltimateBoard;
      mainBoardWinners := newMainBoardWinners;
      activeBoardIndex := newActive;
      isXTurn := !isXTurn;
      winner := mainResult.winner;
      MoveKeepsConsistent(old(ultimateBoard), old(mainBoardWinners), old(activeBoardIndex), old(isXTurn),
                          boardIdx, cellIdx, ultimateBoard, mainBoardWinners, activeBoardIndex, winner);
    }

    /** resetGame: back to the initial state. */
    method ResetGame()
      modifies this
      ensures Valid()
      ensures ultimateBoard == INITIAL_ULTIMATE_BOARD && activeBoardIndex == None && isXTurn
      ensures mainBoardWinners == EMPTY_BOARD && winner == NoWinner
    {
      ultimateBoard := INITIAL_ULTIMATE_BOARD;
      mainBoardWinners := EMPTY_BOARD;
      isXTurn := true;
      activeBoardIndex := None;
      winner := NoWinner;
      InitialStateConsistent();
    }
  }

  /** An accepted move keeps the invariant and leaves owned sub-boards and
      their entries as they were. */
  lemma MoveKeepsConsistent(subs: seq<Board>, meta: Board, active: Option<nat>, isXTurn: bool,
                            boardIdx: nat, cellIdx: nat,
                            subs': seq<Board>, meta': Board, active': Option<nat>, winner': Winner)
    requires Consistent(subs, meta, active, NoWinner, isXTurn) && boardIdx < 9 && cellIdx < 9
    requires MoveAccepted(NoWinner, meta, subs, active, boardIdx, cellIdx)
    requires subs' == subs[boardIdx := subs[boardIdx][cellIdx := Mark(CurrentMark(isXTurn))]]
    requires meta' == if CheckWinnerClassic(subs'[boardIdx]).winner.Won?
                      then meta[boardIdx := Mark(CheckWinnerClassic(subs'[boardIdx]).winner.player)]
                      else meta
    requires active' == if meta'[cellIdx] != Empty || IsFull(subs'[cellIdx]) then None else Some(cellIdx)
    requires winner' == CheckWinnerClassic(meta').winner
    ensures Consistent(subs', meta', active', winner', !isXTurn)
    ensures Played(subs, meta, isXTurn, boardIdx, cellIdx, subs', meta', active', !isXTurn, winner')
    ensures forall i :: 0 <= i < 9 && meta[i] != Empty ==> meta'[i] == meta[i] && subs'[i] == subs[i]
  {
    var mark := CurrentMark(isXTurn);
    assert Owner(subs[boardIdx]) == meta[boardIdx] == Empty;
    CheckWinnerClassicSpec(subs[boardIdx]);
    MoverOwnsNewLine(subs[boardIdx], cellIdx, mark);
    TotalCountPlace(subs, boardIdx, cellIdx, mark, X);
    TotalCountPlace(subs, boardIdx, cellIdx, mark, O);
    forall i | 0 <= i < 9
      ensures meta'[i] == Owner(subs'[i])
    {
      if i != boardIdx {
        assert subs'[i] == subs[i];
      }
    }
  }

  lemma InitialStateConsistent()
    ensures Consistent(INITIAL_ULTIMATE_BOARD, EMPTY_BOARD, None, NoWinner, true)
  {
    assert !HasLine(EMPTY_BOARD);
    assert forall i :: 0 <= i < 9 ==> INITIAL_ULTIMATE_BOARD[i] == EMPTY_BOARD;
    TotalCountZero(INITIAL_ULTIMATE_BOARD, X);
    TotalCountZero(INITIAL_ULTIMATE_BOARD, O);
  }

  /** Drawn sub-boards never reach the meta-board, so the game can only end
      in a draw when every one of the nine sub-boards has been won. */
  lemma DrawMeansAllSubBoardsWon(subs: seq<Board>, meta: Board, active: Option<nat>, isXTurn: bool)
    requires Consistent(subs, meta, active, Draw, isXTurn)
    ensures forall i :: 0 <= i < 9 ==> CheckWinnerClassic(subs[i]).winner.Won?
  {
    CheckWinnerClassicSpec(meta);
    forall i | 0 <= i < 9
      ensures CheckWinnerClassic(subs[i]).winner.Won?
    {
      assert Owner(subs[i]) == meta[i] != Empty;
    }
  }
}

module UltimateStall {
  import opened WinCheck
  import opened Moves
  import opened Ultimate

  const X_WON: Board := [Mark(X), Mark(X), Mark(X), Mark(O), Mark(O), Empty, Mark(O), Empty, Empty]
  const O_WON: Board := [Mark(O), Mark(O), Mark(O), Mark(X), Mark(X), Empty, Empty, Empty, Mark(X)]
  const DRAWN: Board := [Mark(X), Mark(O), Mark(X), Mark(X), Mark(O), Mark(O), Mark(O), Mark(X), Mark(X)]

  /** Sub-board `i` of the stalled position: X has won four of them, O
      four, and the last one is full without a line. */
  function StalledSub(i: int): Board {
    if i == 8 then DRAWN
    else if i == 0 || i == 2 || i == 3 || i == 7 then X_WON
    else O_WON
  }

  /** Meta-board entry `i` of the stalled position. */
  function StalledEntry(i: int): Cell {
    if i == 8 then Empty
    else if i == 0 || i == 2 || i == 3 || i == 7 then Mark(X)
    else Mark(O)
  }

  const STALLED_SUBS: seq<Board> := seq(9, i => StalledSub(i))
  const STALLED_META: Board := seq(9, i => StalledEntry(i))

  lemma SubBoardOwners()
    ensures Owner(X_WON) == Mark(X) && Owner(O_WON) == Mark(O) && Owner(DRAWN) == Empty
  {
    assert FirstCompleteFrom(X_WON, 0) == Some(0);
    assert FirstCompleteFrom(O_WON, 0) == Some(0);
    assert FirstCompleteFrom(DRAWN, 0) == None;
  }

  lemma StalledMetaHasNoResult()
    ensures CheckWinnerClassic(STALLED_META).winner == NoWinner
  {
    var meta: Board := [Mark(X), Mark(O), Mark(X), Mark(X), Mark(O), Mark(O), Mark(O), Mark(X), Empty];
    assert STALLED_META == meta;
    assert FirstCompleteFrom(meta, 0) == None;
    assert meta[8] == Empty;
  }

  /** Every sub-board of the stalled position is won or full, so every
      click is rejected. */
  lemma StalledPositionRejectsEveryClick()
    ensures forall b, c :: 0 <= b < 9 && 0 <= c < 9 ==>
              !MoveAccepted(NoWinner, STALLED_META, STALLED_SUBS, None, b, c)
  {
    forall b, c | 0 <= b < 9 && 0 <= c < 9
      ensures !MoveAccepted(NoWinner, STALLED_META, STALLED_SUBS, None, b, c)
    {
      if b == 8 {
        assert STALLED_SUBS[b][c] == DRAWN[c] != Empty;
      } else {
        assert STALLED_META[b] != Empty;
      }
    }
  }

  lemma StalledEntryIsOwner(i: int)
    requires 0 <= i < 9
    ensures StalledEntry(i) == Owner(StalledSub(i))
  {
    SubBoardOwners();
    if i == 8 {
      assert StalledSub(i) == DRAWN;
    } else if i == 0 || i == 2 || i == 3 || i == 7 {
      assert StalledSub(i) == X_WON;
    } else {
      assert StalledSub(i) == O_WON;
    }
  }

  /** The meta-board of the stalled position holds each sub-board's owner. */
  lemma StalledPositionTracksOwners()
    ensures OwnersTracked(STALLED_SUBS, STALLED_META)
  {
    forall i | 0 <= i < 9
      ensures STALLED_META[i] == Owner(STALLED_SUBS[i])
    {
      StalledEntryIsOwner(i);
    }
  }

  /** One if the cell holds `p`'s mark. */
  function Ind(c: Cell, p: Player): nat {
    if c == Mark(p) then 1 else 0
  }

  lemma CountStep(s: seq<Cell>, k: nat, p: Player)
    requires k < |s|
    ensures Count(s[k..], p) == Ind(s[k], p) + Count(s[k + 1..], p)
  {
    assert s[k..][1..] == s[k + 1..];
  }

  lemma CountThree(s: seq<Cell>, k: nat, p: Player)
    requires k + 3 <= |s|
    ensures Count(s[k..], p) == Ind(s[k], p) + Ind(s[k + 1], p) + Ind(s[k + 2], p) + Count(s[k + 3..], p)
  {
    CountStep(s, k, p);
    CountStep(s, k + 1, p);
    CountStep(s, k + 2, p);
  }

  /** A board's count, cell by cell. */
  lemma CountNine(b: Board, p: Player)
    ensures Count(b, p) == Ind(b[0], p) + Ind(b[1], p) + Ind(b[2], p) + Ind(b[3], p) + Ind(b[4], p)
                           + Ind(b[5], p) + Ind(b[6], p) + Ind(b[7], p) + Ind(b[8], p)
  {
    assert b[0..] == b;
    CountThree(b, 0, p);
    CountThree(b, 3, p);
    CountThree(b, 6, p);
    assert b[9..] == [];
  }

  lemma TotalStep(s: seq<Board>, k: nat, p: Player)
    requires k < |s|
    ensures TotalCount(s[k..], p) == Count(s[k], p) + TotalCount(s[k + 1..], p)
  {
    assert s[k..][1..] == s[k + 1..];
  }

  lemma TotalThree(s: seq<Board>, k: nat, p: Player)
    requires k + 3 <= |s|
    ensures TotalCount(s[k..], p)
            == Count(s[k], p) + Count(s[k + 1], p) + Count(s[k + 2], p) + TotalCount(s[k + 3..], p)
  {
    TotalStep(s, k, p);
    TotalStep(s, k + 1, p);
    TotalStep(s, k + 2, p);
  }

  /** The total of nine sub-boards, sub-board by sub-board. */
  lemma TotalNine(s: seq<Board>, p: Player)
    requires |s| == 9
    ensures TotalCount(s, p)
            == Count(s[0], p) + Count(s[1], p) + Count(s[2], p) + Count(s[3], p) + Count(s[4], p)
               + Count(s[5], p) + Count(s[6], p) + Count(s[7], p) + Count(s[8], p)
  {
    assert s[0..] == s;
    TotalThree(s, 0, p);
    TotalThree(s, 3, p);
    TotalThree(s, 6, p);
    assert s[9..] == [];
  }

  /** Four boards like `x`, four like `o` and one like `d`, laid out as in
      the stalled position, hold 29 X marks and 28 O marks. */
  lemma StalledLayoutBalanced(s: seq<Board>, x: Board, o: Board, d: Board)
    requires |s| == 9 && s[0] == x && s[2] == x && s[3] == x && s[7] == x
    requires s[1] == o && s[4] == o && s[5] == o && s[6] == o && s[8] == d
    requires Count(x, X) == 3 && Count(x, O) == 3 && Count(o, X) == 3 && Count(o, O) == 3
    requires Count(d, X) == 5 && Count(d, O) == 4
    ensures TotalCount(s, X) == 29 && TotalCount(s, O) == 28
  {
    TotalNine(s, X);
    TotalNine(s, O);
  }

  lemma XWonCounts()
    ensures Count(X_WON, X) == 3 && Count(X_WON, O) == 3
  {
    CountNine(X_WON, X);
    CountNine(X_WON, O);
  }

  lemma OWonCounts()
    ensures Count(O_WON, X) == 3 && Count(O_WON, O) == 3
  {
    CountNine(O_WON, X);
    CountNine(O_WON, O);
  }

  lemma DrawnCounts()
    ensures Count(DRAWN, X) == 5 && Count(DRAWN, O) == 4
  {
    CountNine(DRAWN, X);
    CountNine(DRAWN, O);
  }

  /** X has 29 marks and O 28, so it is O's turn. */
  lemma StalledLayout()
    ensures STALLED_SUBS[0] == X_WON && STALLED_SUBS[2] == X_WON && STALLED_SUBS[3] == X_WON
    ensures STALLED_SUBS[7] == X_WON && STALLED_SUBS[1] == O_WON && STALLED_SUBS[4] == O_WON
    ensures STALLED_SUBS[5] == O_WON && STALLED_SUBS[6] == O_WON && STALLED_SUBS[8] == DRAWN
  {
  }

  lemma StalledPositionBalanced()
    ensures Balanced(TotalCount(STALLED_SUBS, X), TotalCount(STALLED_SUBS, O), false)
  {
    StalledLayout();
    XWonCounts();
    OWonCounts();
    DrawnCounts();
    StalledLayoutBalanced(STALLED_SUBS, X_WON, O_WON, DRAWN);
  }

  /** Because a drawn sub-board leaves its meta-board entry null, there is a
      position satisfying the whole invariant, O to move, in which every
      sub-board is won or full so that no click is accepted, and yet the
      winner stays null: the game can end with neither a winner nor "Draw". */
  lemma DrawnSubBoardCanStallGame()
    ensures Consistent(STALLED_SUBS, STALLED_META, None, NoWinner, false)
    ensures forall b, c :: 0 <= b < 9 && 0 <= c < 9 ==>
              !MoveAccepted(NoWinner, STALLED_META, STALLED_SUBS, None, b, c)
  {
    StalledMetaHasNoResult();
    StalledPositionTracksOwners();
    StalledPositionBalanced();
    StalledPositionRejectsEveryClick();
  }
}

/** The second copy of the line-win evaluator, which returns only the mark,
    "Draw" or null (src/utils/gameLogic.ts), and its agreement with the first. */
module GameLogic {
  import opened WinCheck

  /** The early-return scan from entry `k` on: `board[a]` of the first
      complete line, or Empty when none is complete. */
  function ScanFrom(b: Board, k: nat): (r: Cell)
    requires k <= |LINES|
    ensures r == Empty ==> forall j :: k <= j < |LINES| ==> !Complete(b, LINES[j])
    ensures r != Empty ==>
      exists j :: k <= j < |LINES| && Complete(b, LINES[j]) && r == b[LINES[j].a]
                  && forall i :: k <= i < j ==> !Complete(b, LINES[i])
    decreases |LINES| - k
  {
    if k == |LINES| then Empty
    else if Complete(b, LINES[k]) then b[LINES[k].a]
    else ScanFrom(b, k + 1)
  }

  /** checkWinner: an X/O mark exactly when some line is complete; otherwise
      "Draw" when the board holds no null and null when it holds one. */
  function CheckWinner(b: Board): (r: Winner)
    ensures r.Won? <==> HasLine(b)
    ensures r == Draw <==> !HasLine(b) && Empty !in b
    ensures r == NoWinner <==> !HasLine(b) && Empty in b
  {
    var m := ScanFrom(b, 0);
    if m != Empty then Won(m.player)
    else if Empty in b then NoWinner
    else Draw
  }

  /** The winning mark is the one filling the first complete line of the
      table. */
  lemma CheckWinnerSpec(b: Board)
    ensures var r := CheckWinner(b);
      r.Won? ==>
        exists i :: IsFirstComplete(b, i)
                    && b[LINES[i].a] == b[LINES[i].b] == b[LINES[i].c] == Mark(r.player)
  {
    var m := ScanFrom(b, 0);
    if m != Empty {
      assert exists j :: IsFirstComplete(b, j) && m == b[LINES[j].a];
    }
  }

  /** The two scans stop at the same entry of the table. */
  lemma {:induction false} ScanAgreesWithFirstComplete(b: Board, k: nat)
    requires k <= |LINES|
    ensures ScanFrom(b, k) == match FirstCompleteFrom(b, k)
                              case Some(i) => b[LINES[i].a]
                              case None => Empty
    decreases |LINES| - k
  {
    if k < |LINES| && !Complete(b, LINES[k]) {
      ScanAgreesWithFirstComplete(b, k + 1);
    }
  }

  /** On every board the two evaluators give the same winner. */
  lemma CheckWinnerAgreesWithClassic(b: Board)
    ensures CheckWinner(b) == CheckWinnerClassic(b).winner
  {
    ScanAgreesWithFirstComplete(b, 0);
    assert IsFull(b) <==> Empty !in b;
  }
}

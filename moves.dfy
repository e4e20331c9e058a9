/** What the three games share about placing a mark: whose mark goes down,
    how many marks each player has, and who can have completed a line. */
module Moves {
  import opened WinCheck

  /** The mark of the player whose turn it is. */
  function CurrentMark(isXTurn: bool): (p: Player)
    ensures p == X <==> isXTurn
  {
    if isXTurn then X else O
  }

  /** The number of cells holding `p`'s mark. */
  function Count(s: seq<Cell>, p: Player): (n: nat)
    ensures n <= |s|
    ensures n == 0 <==> Mark(p) !in s
  {
    if s == [] then 0
    else (if s[0] == Mark(p) then 1 else 0) + Count(s[1..], p)
  }

  /** Count agrees with the multiplicity of the mark in the board's multiset. */
  lemma {:induction false} CountIsMultiplicity(s: seq<Cell>, p: Player)
    ensures Count(s, p) == multiset(s)[Mark(p)]
  {
    if s != [] {
      assert s == [s[0]] + s[1..];
      CountIsMultiplicity(s[1..], p);
    }
  }

  /** Writing `p` into an empty cell adds one `p` and leaves the other
      player's count alone. */
  lemma {:induction false} CountPlace(s: seq<Cell>, i: nat, p: Player, q: Player)
    requires i < |s| && s[i] == Empty
    ensures Count(s[i := Mark(p)], q) == Count(s, q) + (if p == q then 1 else 0)
  {
    if i > 0 {
      assert s[i := Mark(p)][1..] == s[1..][i - 1 := Mark(p)];
      CountPlace(s[1..], i - 1, p, q);
    } else {
      assert s[i := Mark(p)][1..] == s[1..];
    }
  }

  /** The marks of all sub-boards of the ultimate game together. */
  function TotalCount(subs: seq<Board>, p: Player): nat
  {
    if subs == [] then 0
    else Count(subs[0], p) + TotalCount(subs[1..], p)
  }

  /** No sub-board holds `p`'s mark exactly when the total is zero. */
  lemma {:induction false} TotalCountZero(subs: seq<Board>, p: Player)
    ensures TotalCount(subs, p) == 0 <==> forall i :: 0 <= i < |subs| ==> Mark(p) !in subs[i]
  {
    if subs != [] {
      TotalCountZero(subs[1..], p);
      assert forall i :: 1 <= i < |subs| ==> subs[1..][i - 1] == subs[i];
    }
  }

  /** Writing `p` into an empty cell of one sub-board adds one `p` to the
      total and leaves the other player's total alone. */
  lemma {:induction false} TotalCountPlace(subs: seq<Board>, bi: nat, ci: nat, p: Player, q: Player)
    requires bi < |subs| && ci < 9 && subs[bi][ci] == Empty
    ensures TotalCount(subs[bi := subs[bi][ci := Mark(p)]], q)
            == TotalCount(subs, q) + (if p == q then 1 else 0)
  {
    var placed := subs[bi := subs[bi][ci := Mark(p)]];
    if bi > 0 {
      assert placed[1..] == subs[1..][bi - 1 := subs[bi][ci := Mark(p)]];
      TotalCountPlace(subs[1..], bi - 1, ci, p, q);
    } else {
      assert placed[1..] == subs[1..];
      CountPlace(subs[0], ci, p, q);
    }
  }

  /** X moves first: X has as many marks as O when it is X's turn, one more
      when it is O's. */
  predicate Balanced(xs: nat, os: nat, isXTurn: bool) {
    xs == os + (if isXTurn then 0 else 1)
  }

  /** On a board with no complete line, a mark written into an empty cell can
      only complete lines through that cell, so any winner is its player. */
  lemma MoverOwnsNewLine(b: Board, i: nat, p: Player)
    requires i < 9 && b[i] == Empty && !HasLine(b)
    ensures var w := CheckWinnerClassic(b[i := Mark(p)]).winner;
            w.Won? ==> w.player == p
  {
    var placed := b[i := Mark(p)];
    CheckWinnerClassicSpec(placed);
    forall j | 0 <= j < |LINES| && LINES[j].a != i && LINES[j].b != i && LINES[j].c != i
      ensures !Complete(placed, LINES[j])
    {
      assert Complete(placed, LINES[j]) == Complete(b, LINES[j]);
    }
  }
}

/**
 The `Board` component's game state and its move transition.

 The state is the nine squares and whose turn it is (`xIsNext`). A click on
 square `i` is ignored when the board already has a winner or the square is
 filled; otherwise the square receives the mark of the player to move and
 the turn passes. The status line shows the winner, or else the player to
 move; there is no draw state.
 */
module TicTacToe {
  import opened WinDetection

  /** The mark of the player to move: X exactly when `xIsNext`, otherwise O. */
  function MarkFor(xIsNext: bool): (m: Mark)
    ensures m == X <==> xIsNext
    ensures m == O <==> !xIsNext
  {
    if xIsNext then X else O
  }

  /** The character shown for a mark. */
  function Symbol(m: Mark): char {
    if m == X then 'X' else 'O'
  }

  /** The number of squares holding `m`. */
  function Count(sq: seq<Cell>, m: Mark): (n: nat)
    ensures n <= |sq|
    ensures n == 0 <==> forall i :: 0 <= i < |sq| ==> sq[i] != Filled(m)
  {
    if sq == [] then 0
    else (if sq[0] == Filled(m) then 1 else 0) + Count(sq[1..], m)
  }

  /**
   Marks are balanced with the turn: X moves first, so there are as many X
   marks as O marks when X is to move, and one more X otherwise.
   */
  ghost predicate Balanced(sq: seq<Cell>, xIsNext: bool) {
    Count(sq, X) == Count(sq, O) + (if xIsNext then 0 else 1)
  }

  /** Every line that is won is won by `m`. */
  ghost predicate OnlyWonBy(sq: seq<Cell>, m: Mark)
    requires IsBoard(sq)
  {
    forall k, m' :: 0 <= k < |Lines| && LineWonBy(sq, k, m') ==> m' == m
  }

  /**
   The invariant of every state a game reaches: marks are balanced with the
   turn, and every won line belongs to the player who moved last.
   */
  ghost predicate Consistent(sq: seq<Cell>, xIsNext: bool)
    requires IsBoard(sq)
  {
    Balanced(sq, xIsNext) && OnlyWonBy(sq, MarkFor(!xIsNext))
  }

  /** The status line shown above the board. */
  function Status(sq: seq<Cell>, xIsNext: bool): (t: string)
    requires IsBoard(sq)
    ensures Winner(sq).Some? <==> |t| >= 8 && t[..8] == "Winner: "
    ensures Winner(sq).None? <==> |t| >= 13 && t[..13] == "Next player: "
    ensures |t| == if Winner(sq).Some? then 9 else 14
    ensures t[|t| - 1] == Symbol(if Winner(sq).Some? then Winner(sq).value else MarkFor(xIsNext))
  {
    var winner := Winner(sq);
    if winner.Some? then "Winner: " + [Symbol(winner.value)]
    else
      var t := "Next player: " + [Symbol(MarkFor(xIsNext))];
      assert t[0] != "Winner: "[0];
      t
  }

  /** Filling an empty square with `v` adds one to the count of `v` and leaves the other count alone. */
  lemma {:induction false} CountPlace(sq: seq<Cell>, i: nat, v: Mark, m: Mark)
    requires i < |sq| && sq[i] == Empty
    ensures Count(sq[i := Filled(v)], m) == Count(sq, m) + (if v == m then 1 else 0)
  {
    var sq' := sq[i := Filled(v)];
    if i == 0 {
      assert sq'[1..] == sq[1..];
    } else {
      CountPlace(sq[1..], i - 1, v, m);
      assert sq'[1..] == sq[1..][i - 1 := Filled(v)];
    }
  }

  /** Three distinct squares holding `m` make its count at least three. */
  lemma CountAtLeastThree(sq: seq<Cell>, a: nat, b: nat, c: nat, m: Mark)
    requires a < |sq| && b < |sq| && c < |sq| && a != b && b != c && a != c
    requires sq[a] == Filled(m) && sq[b] == Filled(m) && sq[c] == Filled(m)
    ensures Count(sq, m) >= 3
  {
    var s1 := sq[a := Empty];
    var s2 := s1[b := Empty];
    var s3 := s2[c := Empty];
    CountPlace(s3, c, m, m);
    assert s3[c := Filled(m)] == s2;
    CountPlace(s2, b, m, m);
    assert s2[b := Filled(m)] == s1;
    CountPlace(s1, a, m, m);
    assert s1[a := Filled(m)] == sq;
  }

  /** A mark on fewer than three squares cannot fill a line. */
  lemma FewMarksNoLine(sq: seq<Cell>, k: nat, m: Mark)
    requires IsBoard(sq) && k < |Lines| && Count(sq, m) < 3
    ensures !LineWonBy(sq, k, m)
  {
    if LineWonBy(sq, k, m) {
      CountAtLeastThree(sq, Lines[k].0, Lines[k].1, Lines[k].2, m);
    }
  }

  /** A line needs three marks of one player, so with fewer of each there is no winner yet. */
  lemma FewMarksNoWinner(sq: seq<Cell>)
    requires IsBoard(sq) && Count(sq, X) < 3 && Count(sq, O) < 3
    ensures Winner(sq).None?
  {
    forall k, m | 0 <= k < |Lines|
      ensures !LineWonBy(sq, k, m)
    {
      if m == X {
        FewMarksNoLine(sq, k, X);
      } else {
        FewMarksNoLine(sq, k, O);
      }
    }
  }

  /** The opening state satisfies the invariant. */
  lemma InitialConsistent()
    ensures IsBoard(EmptyBoard) && Consistent(EmptyBoard, true)
  {
    assert Count(EmptyBoard, X) == 0 && Count(EmptyBoard, O) == 0;
  }

  /** An accepted move keeps the marks balanced with the flipped turn. */
  lemma PlaceKeepsBalance(sq: seq<Cell>, xIsNext: bool, i: Index)
    requires IsBoard(sq) && sq[i] == Empty && Balanced(sq, xIsNext)
    ensures Balanced(sq[i := Filled(MarkFor(xIsNext))], !xIsNext)
  {
    CountPlace(sq, i, MarkFor(xIsNext), X);
    CountPlace(sq, i, MarkFor(xIsNext), O);
  }

  /**
   A move on a board without a winner can only complete lines through the
   square it fills, so every won line afterwards belongs to the mover.
   */
  lemma PlaceWinsOnlyForMover(sq: seq<Cell>, i: Index, m: Mark)
    requires IsBoard(sq) && sq[i] == Empty && Winner(sq).None?
    ensures OnlyWonBy(sq[i := Filled(m)], m)
  {
    var sq' := sq[i := Filled(m)];
    forall k, m' | 0 <= k < |Lines| && LineWonBy(sq', k, m')
      ensures m' == m
    {
      if Lines[k].0 != i && Lines[k].1 != i && Lines[k].2 != i {
        assert LineWonBy(sq, k, m');
        assert false;
      }
    }
  }

  /** An accepted move keeps the invariant. */
  lemma PlaceKeepsConsistent(sq: seq<Cell>, xIsNext: bool, i: Index)
    requires IsBoard(sq) && sq[i] == Empty && Winner(sq).None? && Consistent(sq, xIsNext)
    ensures Consistent(sq[i := Filled(MarkFor(xIsNext))], !xIsNext)
  {
    PlaceKeepsBalance(sq, xIsNext, i);
    PlaceWinsOnlyForMover(sq, i, MarkFor(xIsNext));
  }

  /** In a reachable state, a winner is always the player who moved last. */
  lemma WinnerMovedLast(sq: seq<Cell>, xIsNext: bool)
    requires IsBoard(sq) && Consistent(sq, xIsNext) && Winner(sq).Some?
    ensures Winner(sq) == Some(MarkFor(!xIsNext))
    ensures Status(sq, xIsNext) == "Winner: " + [Symbol(MarkFor(!xIsNext))]
  {
  }

  /**
   The status line tells the state apart: equal status lines mean the same
   winner and, when there is none, the same player to move.
   */
  lemma StatusDistinguishes(sq1: seq<Cell>, x1: bool, sq2: seq<Cell>, x2: bool)
    requires IsBoard(sq1) && IsBoard(sq2) && Status(sq1, x1) == Status(sq2, x2)
    ensures Winner(sq1) == Winner(sq2)
    ensures Winner(sq1).None? ==> x1 == x2
  {
    assert Symbol(X) != Symbol(O);
  }

  /**
   A full board without a winner still reports a player to move: the game
   has no draw state.
   */
  lemma FullBoardWithoutWinner(sq: seq<Cell>, xIsNext: bool)
    requires IsBoard(sq) && Winner(sq).None?
    requires forall i :: 0 <= i < |sq| ==> sq[i] != Empty
    ensures Status(sq, xIsNext) == "Next player: " + [Symbol(MarkFor(xIsNext))]
  {
  }

  /** The state of one `Board` component. */
  class Board {
    var squares: seq<Cell>
    var xIsNext: bool

    /** The state always holds exactly nine squares. */
    ghost predicate Valid()
      reads this
    {
      IsBoard(squares)
    }

    /** Nine empty squares, X to move. */
    constructor ()
      ensures Valid() && Consistent(squares, xIsNext)
      ensures squares == EmptyBoard && xIsNext
    {
      squares := EmptyBoard;
      xIsNext := true;
      InitialConsistent();
    }

    /**
     A click on square `i`. Ignored when the board has a winner or the
     square is filled; otherwise only square `i` changes, to the mover's
     mark, and the turn flips. The new state is installed in one step.
     */
    method HandleClick(i: Index)
      requires Valid()
      modifies this
      ensures Valid()
      ensures Winner(old(squares)).Some? || old(squares)[i] != Empty ==>
        squares == old(squares) && xIsNext == old(xIsNext)
      ensures Winner(old(squares)).None? && old(squares)[i] == Empty ==>
        squares == old(squares)[i := Filled(MarkFor(old(xIsNext)))] && xIsNext == !old(xIsNext)
      ensures old(Consistent(squares, xIsNext)) ==> Consistent(squares, xIsNext)
    {
      var next := squares;
      var winner := CalculateWinner(next);
      if winner.Some? || next[i] != Empty {
        return;
      }
      next := next[i := Filled(MarkFor(xIsNext))];
      if Consistent(squares, xIsNext) {
        PlaceKeepsConsistent(squares, xIsNext, i);
      }
      squares, xIsNext := next, !xIsNext;
    }
  }

  /** The positions of the top-row game: none is decided before X's third mark, which wins. */
  lemma TopRowPositions()
    ensures Winner(EmptyBoard[0 := Filled(X)]).None?
    ensures Winner(EmptyBoard[0 := Filled(X)][4 := Filled(O)]).None?
    ensures Winner(EmptyBoard[0 := Filled(X)][4 := Filled(O)][1 := Filled(X)]).None?
    ensures Winner(EmptyBoard[0 := Filled(X)][4 := Filled(O)][1 := Filled(X)][5 := Filled(O)]).None?
    ensures Winner(EmptyBoard[0 := Filled(X)][4 := Filled(O)][1 := Filled(X)][5 := Filled(O)][2 := Filled(X)]) == Some(X)
  {
    var s1 := EmptyBoard[0 := Filled(X)];
    var s2 := s1[4 := Filled(O)];
    var s3 := s2[1 := Filled(X)];
    var s4 := s3[5 := Filled(O)];
    var s5 := s4[2 := Filled(X)];
    assert Count(EmptyBoard, X) == 0 && Count(EmptyBoard, O) == 0;
    CountPlace(EmptyBoard, 0, X, X); CountPlace(EmptyBoard, 0, X, O);
    CountPlace(s1, 4, O, X); CountPlace(s1, 4, O, O);
    CountPlace(s2, 1, X, X); CountPlace(s2, 1, X, O);
    CountPlace(s3, 5, O, X); CountPlace(s3, 5, O, O);
    FewMarksNoWinner(s1);
    FewMarksNoWinner(s2);
    FewMarksNoWinner(s3);
    FewMarksNoWinner(s4);
    WinnerComplete(s5, 0, X);
  }

  /**
   X takes 0, 1 and 2 while O takes 4 and 5: the top row wins for X and a
   further click changes nothing.
   */
  method TopRowGame() returns (status: string, after: seq<Cell>)
    ensures status == "Winner: X"
    ensures after == [Filled(X), Filled(X), Filled(X), Empty, Filled(O), Filled(O), Empty, Empty, Empty]
  {
    TopRowPositions();
    EmptyBoardHasNoWinner();
    var b := new Board();
    b.HandleClick(0);
    assert b.squares == EmptyBoard[0 := Filled(X)] && !b.xIsNext;
    b.HandleClick(4);
    assert b.squares == EmptyBoard[0 := Filled(X)][4 := Filled(O)] && b.xIsNext;
    b.HandleClick(1);
    assert b.squares == EmptyBoard[0 := Filled(X)][4 := Filled(O)][1 := Filled(X)] && !b.xIsNext;
    b.HandleClick(5);
    assert b.squares == EmptyBoard[0 := Filled(X)][4 := Filled(O)][1 := Filled(X)][5 := Filled(O)] && b.xIsNext;
    b.HandleClick(2);
    ghost var won := b.squares;
    assert won == EmptyBoard[0 := Filled(X)][4 := Filled(O)][1 := Filled(X)][5 := Filled(O)][2 := Filled(X)];
    b.HandleClick(8);
    assert b.squares == won;
    status := Status(b.squares, b.xIsNext);
    after := b.squares;
  }

  /** A second click on the same square is ignored. */
  method DoubleClick(i: Index) returns (first: seq<Cell>, second: seq<Cell>, xAfter: bool)
    ensures first == second && !xAfter
    ensures first == EmptyBoard[i := Filled(X)]
  {
    var b := new Board();
    b.HandleClick(i);
    first := b.squares;
    b.HandleClick(i);
    second, xAfter := b.squares, b.xIsNext;
  }
}

/**
 Win detection for a 3x3 tic-tac-toe board (`calculateWinner`).

 A board is a sequence of nine cells, indexed row by row (cell `i` sits in
 row `i / 3`, column `i % 3`). A cell is empty (the source's `null`) or holds
 one of the two marks. The detector scans a fixed table of eight lines
 (three rows, three columns, two diagonals) in table order and reports the
 mark of the first line whose three cells hold the same mark.
 */
module WinDetection {

  datatype Option<T> = None | Some(value: T)

  /** The two players' marks, 'X' and 'O'. */
  datatype Mark = X | O

  /** A square: empty (`null` in the source) or filled with a mark. */
  datatype Cell = Empty | Filled(mark: Mark)

  /** A cell index of the 3x3 board. */
  type Index = i: int | 0 <= i < 9

  /** A line: three distinct cell indices. */
  type Line = t: (Index, Index, Index) | t.0 != t.1 && t.1 != t.2 && t.0 != t.2 witness (0, 1, 2)

  /** A board holds exactly nine cells. */
  predicate IsBoard(sq: seq<Cell>) {
    |sq| == 9
  }

  /** The nine cells before any move. */
  const EmptyBoard: seq<Cell> := [Empty, Empty, Empty, Empty, Empty, Empty, Empty, Empty, Empty]

  /** The eight winning lines, in the order in which they are scanned. */
  const Lines: seq<Line> := [
    (0, 1, 2),
    (3, 4, 5),
    (6, 7, 8),
    (0, 3, 6),
    (1, 4, 7),
    (2, 5, 8),
    (0, 4, 8),
    (2, 4, 6)
  ]

  /** Line `k` is won by `m`: all three of its cells hold `m`. */
  predicate LineWonBy(sq: seq<Cell>, k: nat, m: Mark)
    requires IsBoard(sq) && k < |Lines|
  {
    sq[Lines[k].0] == Filled(m) && sq[Lines[k].1] == Filled(m) && sq[Lines[k].2] == Filled(m)
  }

  /** Some mark wins line `k`. */
  predicate LineWon(sq: seq<Cell>, k: nat)
    requires IsBoard(sq) && k < |Lines|
  {
    exists m :: LineWonBy(sq, k, m)
  }

  /** No line before position `k` of the table is won. */
  predicate NoneWonBefore(sq: seq<Cell>, k: nat)
    requires IsBoard(sq) && k <= |Lines|
  {
    forall j :: 0 <= j < k ==> !LineWon(sq, j)
  }

  /** Line `k` is the first line of the table that is won, and `m` wins it. */
  predicate FirstWonBy(sq: seq<Cell>, k: nat, m: Mark)
    requires IsBoard(sq)
  {
    k < |Lines| && LineWonBy(sq, k, m) && NoneWonBefore(sq, k)
  }

  /**
   The test the scan applies to line `k`: its first cell is filled and the
   other two are equal to it. It holds exactly when the line is won, by the
   mark of its first cell.
   */
  function LineTest(sq: seq<Cell>, k: nat): (r: Option<Mark>)
    requires IsBoard(sq) && k < |Lines|
    ensures r.Some? <==> LineWon(sq, k)
    ensures r.Some? ==> LineWonBy(sq, k, r.value)
  {
    var (a, b, c) := (Lines[k].0, Lines[k].1, Lines[k].2);
    if sq[a] != Empty && sq[a] == sq[b] && sq[a] == sq[c] then
      assert LineWonBy(sq, k, sq[a].mark);
      Some(sq[a].mark)
    else None
  }

  /**
   The scan from line `k` on, stopping at the first line that passes the
   test: it finds nothing exactly when no line from `k` on is won, and what
   it finds wins a line from `k` on with no won line between `k` and it.
   */
  function WinnerFrom(sq: seq<Cell>, k: nat): (r: Option<Mark>)
    requires IsBoard(sq) && k <= |Lines|
    ensures r.None? <==> forall j :: k <= j < |Lines| ==> !LineWon(sq, j)
    ensures r.Some? ==>
      exists j :: k <= j < |Lines| && LineWonBy(sq, j, r.value) &&
        forall i :: k <= i < j ==> !LineWon(sq, i)
    decreases |Lines| - k
  {
    if k == |Lines| then None
    else if LineTest(sq, k).Some? then LineTest(sq, k)
    else WinnerFrom(sq, k + 1)
  }

  /**
   The winner of a board, `None` where the source returns `null`: there is
   none exactly when no line is filled by a single mark, and a winner owns
   the first won line of the table.
   */
  function Winner(sq: seq<Cell>): (r: Option<Mark>)
    requires IsBoard(sq)
    ensures r.None? <==> forall k, m :: 0 <= k < |Lines| ==> !LineWonBy(sq, k, m)
    ensures r.Some? ==> exists k :: FirstWonBy(sq, k, r.value)
  {
    var r := WinnerFrom(sq, 0);
    if r.Some? then
      var k :| 0 <= k < |Lines| && LineWonBy(sq, k, r.value) &&
        forall i :: 0 <= i < k ==> !LineWon(sq, i);
      assert FirstWonBy(sq, k, r.value);
      r
    else r
  }

  /** A scan that starts at or before the first won line reports that line's mark. */
  lemma {:induction false} WinnerFromReaches(sq: seq<Cell>, j: nat, k: nat, m: Mark)
    requires IsBoard(sq) && FirstWonBy(sq, k, m) && j <= k
    ensures WinnerFrom(sq, j) == Some(m)
    decreases k - j
  {
    if j < k {
      assert !LineWon(sq, j);
      WinnerFromReaches(sq, j + 1, k, m);
    } else {
      assert sq[Lines[k].0] == Filled(LineTest(sq, k).value);
    }
  }

  /** The mark of the first won line in table order is the winner. */
  lemma WinnerComplete(sq: seq<Cell>, k: nat, m: Mark)
    requires IsBoard(sq) && FirstWonBy(sq, k, m)
    ensures Winner(sq) == Some(m)
  {
    WinnerFromReaches(sq, 0, k, m);
  }

  /**
   When every won line is won by the same mark `m` and at least one is,
   `m` is the winner, whichever won line comes first in the table.
   */
  lemma WinnerOfAgreedBoard(sq: seq<Cell>, m: Mark)
    requires IsBoard(sq)
    requires exists k :: 0 <= k < |Lines| && LineWonBy(sq, k, m)
    requires forall k, m' :: 0 <= k < |Lines| && LineWonBy(sq, k, m') ==> m' == m
    ensures Winner(sq) == Some(m)
  {
  }

  /** The board before any move has no winner. */
  lemma EmptyBoardHasNoWinner()
    ensures IsBoard(EmptyBoard) && Winner(EmptyBoard) == None
  {
  }

  /** The source's loop over the table, with early return; it computes `Winner`. */
  method CalculateWinner(sq: seq<Cell>) returns (w: Option<Mark>)
    requires IsBoard(sq)
    ensures w == Winner(sq)
  {
    var i := 0;
    while i < |Lines|
      invariant 0 <= i <= |Lines|
      invariant WinnerFrom(sq, i) == Winner(sq)
    {
      var (a, b, c) := Lines[i];
      if sq[a] != Empty && sq[a] == sq[b] && sq[a] == sq[c] {
        return Some(sq[a].mark);
      }
      i := i + 1;
    }
    return None;
  }
}

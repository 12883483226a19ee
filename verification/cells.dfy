/**
 The cells and boards of a 3x3 tic-tac-toe grid.

 A square holds `null`, `'X'` or `'O'` in the game; `null` is `Empty` here,
 and the game's truthiness test on a square ("is it filled?") is `!= Empty`.
 A board is the row-major sequence of its nine squares.
 */
module Cells {

  datatype Cell = Empty | X | O

  /** A grid position, 0..8 in row-major order. */
  type Index = i: int | 0 <= i < 9

  type Board = s: seq<Cell> | |s| == 9
    witness [Empty, Empty, Empty, Empty, Empty, Empty, Empty, Empty, Empty]

  /** The board the game starts from: nine empty squares. */
  const EmptyBoard: Board := [Empty, Empty, Empty, Empty, Empty, Empty, Empty, Empty, Empty]

  /** The mark of the player to move: X when `xIsNext`, O otherwise. */
  function Player(xIsNext: bool): (c: Cell)
    ensures c != Empty
    ensures c == X <==> xIsNext
  {
    if xIsNext then X else O
  }

  /** Number of squares of `s` holding `c`. */
  function CountOf(s: seq<Cell>, c: Cell): (n: nat)
    ensures n <= |s|
    ensures n == 0 <==> forall j :: 0 <= j < |s| ==> s[j] != c
    ensures n == |s| <==> forall j :: 0 <= j < |s| ==> s[j] == c
  {
    if |s| == 0 then 0
    else (if s[0] == c then 1 else 0) + CountOf(s[1..], c)
  }

  /** Number of filled (non-empty) squares of `s`. */
  function Filled(s: seq<Cell>): nat
  {
    |s| - CountOf(s, Empty)
  }

  /** Writing `v` at position `i` moves one square from the count of `s[i]` to the count of `v`. */
  lemma {:induction false} CountOfUpdate(s: seq<Cell>, i: int, v: Cell, c: Cell)
    requires 0 <= i < |s|
    ensures CountOf(s[i := v], c)
            == CountOf(s, c) - (if s[i] == c then 1 else 0) + (if v == c then 1 else 0)
  {
    if i == 0 {
      assert s[i := v][1..] == s[1..];
    } else {
      assert s[i := v][1..] == s[1..][i - 1 := v];
      CountOfUpdate(s[1..], i - 1, v, c);
    }
  }

  /** Filling an empty square with a mark raises the filled count by exactly one. */
  lemma FillOne(s: seq<Cell>, i: int, v: Cell)
    requires 0 <= i < |s|
    requires s[i] == Empty && v != Empty
    ensures Filled(s[i := v]) == Filled(s) + 1
    ensures CountOf(s[i := v], v) == CountOf(s, v) + 1
    ensures forall c :: c != v && c != Empty ==> CountOf(s[i := v], c) == CountOf(s, c)
  {
    CountOfUpdate(s, i, v, Empty);
    forall c | c != v && c != Empty
      ensures CountOf(s[i := v], c) == CountOf(s, c)
    {
      CountOfUpdate(s, i, v, c);
    }
    CountOfUpdate(s, i, v, v);
  }

  /** The empty board has no filled square and no mark of either player. */
  lemma EmptyBoardCounts()
    ensures Filled(EmptyBoard) == 0
    ensures CountOf(EmptyBoard, X) == 0 && CountOf(EmptyBoard, O) == 0
  {
    assert forall j :: 0 <= j < 9 ==> EmptyBoard[j] == Empty;
  }
}

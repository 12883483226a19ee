/**
 Win detection: the game's `calculateWinner`.

 A board is checked against eight fixed index triples, three rows, three
 columns and two diagonals in that order. The first triple whose three
 squares are equal and filled decides the result: its mark (`label` in the game, `mark` here) and the
 triple itself (`line`). When no triple matches there is no winner (`null`
 in the game).
 */
module Win {
  import opened Cells

  /** Three grid positions `[a, b, c]`. */
  datatype Triple = Triple(a: Index, b: Index, c: Index)

  /** The fixed list of lines, in the order the game checks them. */
  const Lines: seq<Triple> := [
    Triple(0, 1, 2), Triple(3, 4, 5), Triple(6, 7, 8),   // rows
    Triple(0, 3, 6), Triple(1, 4, 7), Triple(2, 5, 8),   // columns
    Triple(0, 4, 8), Triple(2, 4, 6)                     // diagonals
  ]

  /** The result of `calculateWinner`: `null`, or `{label, line}`. */
  datatype Outcome = NoWinner | Winner(mark: Cell, line: Triple)

  /** The three squares of `t` hold the same mark, and it is not `Empty`. */
  predicate Completes(b: Board, t: Triple)
  {
    b[t.a] != Empty && b[t.a] == b[t.b] && b[t.a] == b[t.c]
  }

  /** Some line of the list is completed on `b`. */
  ghost predicate HasCompletedLine(b: Board)
  {
    exists k :: 0 <= k < |Lines| && Completes(b, Lines[k])
  }

  /** `Lines[k]` is completed on `b` and no line listed before it, from position `from` on, is. */
  ghost predicate FirstCompletedFrom(b: Board, from: nat, k: int)
  {
    && from <= k < |Lines|
    && Completes(b, Lines[k])
    && forall j :: from <= j < k ==> !Completes(b, Lines[j])
  }

  /** The scan of the lines from position `i` on: the loop of `calculateWinner` resumed at `i`. */
  function WinnerFrom(b: Board, i: nat): Outcome
    requires i <= |Lines|
    decreases |Lines| - i
  {
    if i == |Lines| then NoWinner
    else if Completes(b, Lines[i]) then Winner(b[Lines[i].a], Lines[i])
    else WinnerFrom(b, i + 1)
  }

  /**
   The scan from `i` finds nothing exactly when no line from `i` on is
   completed, and otherwise reports the first completed one with its mark.
   */
  lemma {:induction false} WinnerFromFirst(b: Board, i: nat)
    requires i <= |Lines|
    ensures var r := WinnerFrom(b, i);
      && (r.NoWinner? <==> forall k :: i <= k < |Lines| ==> !Completes(b, Lines[k]))
      && (r.Winner? ==> exists k :: FirstCompletedFrom(b, i, k) && r.line == Lines[k])
      && (r.Winner? ==> r.mark == b[r.line.a] && r.mark != Empty)
    decreases |Lines| - i
  {
    if i < |Lines| {
      if Completes(b, Lines[i]) {
        assert FirstCompletedFrom(b, i, i);
      } else {
        WinnerFromFirst(b, i + 1);
        var r := WinnerFrom(b, i + 1);
        if r.Winner? {
          var k :| FirstCompletedFrom(b, i + 1, k) && r.line == Lines[k];
          assert FirstCompletedFrom(b, i, k);
        }
      }
    }
  }

  /**
   The game's `calculateWinner`: a winner exactly when some listed line is
   completed, and then the first such line in list order with its mark.
   */
  function CalculateWinner(b: Board): (r: Outcome)
    ensures r.Winner? <==> HasCompletedLine(b)
    ensures r.Winner? ==> exists k :: FirstCompletedFrom(b, 0, k) && r.line == Lines[k]
    ensures r.Winner? ==> r.mark == b[r.line.a] && r.mark != Empty
    ensures r.Winner? ==> r.mark == b[r.line.b] && r.mark == b[r.line.c]
  {
    WinnerFromFirst(b, 0);
    WinnerFrom(b, 0)
  }

  /** The first completed line, found by testing the eight lines one by one in list order. */
  function WinnerByCases(b: Board): Outcome
  {
    if Completes(b, Triple(0, 1, 2)) then Winner(b[0], Triple(0, 1, 2))
    else if Completes(b, Triple(3, 4, 5)) then Winner(b[3], Triple(3, 4, 5))
    else if Completes(b, Triple(6, 7, 8)) then Winner(b[6], Triple(6, 7, 8))
    else if Completes(b, Triple(0, 3, 6)) then Winner(b[0], Triple(0, 3, 6))
    else if Completes(b, Triple(1, 4, 7)) then Winner(b[1], Triple(1, 4, 7))
    else if Completes(b, Triple(2, 5, 8)) then Winner(b[2], Triple(2, 5, 8))
    else if Completes(b, Triple(0, 4, 8)) then Winner(b[0], Triple(0, 4, 8))
    else if Completes(b, Triple(2, 4, 6)) then Winner(b[2], Triple(2, 4, 6))
    else NoWinner
  }

  /** The scan over the list agrees with testing the eight lines by hand, on every board. */
  lemma CalculateWinnerByCases(b: Board)
    ensures CalculateWinner(b) == WinnerByCases(b)
  {
  }

  /**
   The same computation written as the game's `for` loop over `lines`,
   returning at the first match.
   */
  method CalculateWinnerLoop(b: Board) returns (r: Outcome)
    ensures r.NoWinner? <==> !HasCompletedLine(b)
    ensures r.Winner? ==> exists k :: FirstCompletedFrom(b, 0, k) && r.line == Lines[k]
    ensures r.Winner? ==> r.mark == b[r.line.a] && r.mark != Empty
    ensures r == CalculateWinner(b)
  {
    var i := 0;
    while i < |Lines|
      invariant 0 <= i <= |Lines|
      invariant forall j :: 0 <= j < i ==> !Completes(b, Lines[j])
    {
      var t := Lines[i];
      if b[t.a] != Empty && b[t.a] == b[t.b] && b[t.a] == b[t.c] {
        assert FirstCompletedFrom(b, 0, i);
        ghost var w := CalculateWinner(b);
        ghost var k :| FirstCompletedFrom(b, 0, k) && w.line == Lines[k];
        FirstCompletedUnique(b, i, k);
        return Winner(b[t.a], t);
      }
      i := i + 1;
    }
    return NoWinner;
  }

  /** At most one line can be the first completed one. */
  lemma FirstCompletedUnique(b: Board, k: int, k': int)
    requires FirstCompletedFrom(b, 0, k) && FirstCompletedFrom(b, 0, k')
    ensures k == k'
  {
  }

  /** A row of the grid: three consecutive positions starting a row. */
  predicate IsRow(t: Triple)
  {
    t.a % 3 == 0 && t.b == t.a + 1 && t.c == t.a + 2
  }

  /** A column of the grid: three positions one row apart, from the top row. */
  predicate IsColumn(t: Triple)
  {
    t.a < 3 && t.b == t.a + 3 && t.c == t.a + 6
  }

  /** One of the two diagonals, each read from the top row down. */
  predicate IsDiagonal(t: Triple)
  {
    t == Triple(0, 4, 8) || t == Triple(2, 4, 6)
  }

  /** The list holds the three rows, then the three columns, then the two diagonals. */
  lemma LinesInOrder()
    ensures |Lines| == 8
    ensures forall k :: 0 <= k < 3 ==> IsRow(Lines[k])
    ensures forall k :: 3 <= k < 6 ==> IsColumn(Lines[k])
    ensures forall k :: 6 <= k < 8 ==> IsDiagonal(Lines[k])
  {
  }

  /** No line is listed twice. */
  lemma LinesDistinct()
    ensures forall j, k :: 0 <= j < k < |Lines| ==> Lines[j] != Lines[k]
  {
  }

  /** Every row, column and diagonal of the grid is in the list. */
  lemma GridLinesListed(t: Triple)
    requires IsRow(t) || IsColumn(t) || IsDiagonal(t)
    ensures t in Lines
  {
  }

  /** Each listed line is a row, a column or a diagonal of three distinct squares. */
  lemma LineShape(k: int)
    requires 0 <= k < |Lines|
    ensures var t := Lines[k];
      (IsRow(t) || IsColumn(t) || IsDiagonal(t)) && t.a != t.b && t.b != t.c && t.a != t.c
  {
    LinesInOrder();
  }

  /** Every line reported as the winner is a row, a column or a diagonal of three distinct squares. */
  lemma WinnerLineIsGridLine(b: Board)
    requires CalculateWinner(b).Winner?
    ensures var t := CalculateWinner(b).line;
      (IsRow(t) || IsColumn(t) || IsDiagonal(t)) && t.a != t.b && t.b != t.c && t.a != t.c
  {
    var t := CalculateWinner(b).line;
    var k :| FirstCompletedFrom(b, 0, k) && t == Lines[k];
    LineShape(k);
  }
}

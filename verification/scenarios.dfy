/**
 Concrete games played through the model, from the constructed state.
 */
module Scenarios {
  import opened Cells
  import opened Win
  import opened TicTacToe

  /** Clicks on a sequence of squares, one after the other. */
  function Clicks(g: Game, squares: seq<Index>): (g': Game)
    requires |g.history| >= 1
    ensures |g'.history| >= 1
    decreases |squares|
  {
    if |squares| == 0 then g
    else Clicks(HandleClick(g, squares[0]), squares[1..])
  }

  /** Any sequence of clicks keeps the invariant. */
  lemma {:induction false} ClicksPreserveValid(g: Game, squares: seq<Index>)
    requires Valid(g)
    ensures Valid(Clicks(g, squares))
    decreases |squares|
  {
    if |squares| > 0 {
      HandleClickPreservesValid(g, squares[0]);
      ClicksPreserveValid(HandleClick(g, squares[0]), squares[1..]);
    }
  }

  /** After `s` moves from the start with nothing undone, the view is on the last of them, showing `b`. */
  ghost predicate Shows(g: Game, s: nat, b: Board)
  {
    && |g.history| == s + 1
    && g.stepNumber == s
    && g.xIsNext == (s % 2 == 0)
    && g.history[0] == EmptyBoard
    && Current(g) == b
  }

  /**
   The game replayed on a single board, with no history: from board `b`
   after `s` moves, each click is ignored when the board has a winner or the
   square is filled, and otherwise adds the mark of the player to move.
   */
  function Simulate(b: Board, s: nat, squares: seq<Index>): (Board, nat)
    decreases |squares|
  {
    if |squares| == 0 then (b, s)
    else if WinnerByCases(b).Winner? || b[squares[0]] != Empty then Simulate(b, s, squares[1..])
    else Simulate(b[squares[0] := Player(s % 2 == 0)], s + 1, squares[1..])
  }

  /** From a state viewing its last snapshot, clicking through `squares` ends where the replay on one board ends. */
  lemma {:induction false} ClicksSimulate(g: Game, s: nat, b: Board, squares: seq<Index>)
    requires Shows(g, s, b)
    ensures Shows(Clicks(g, squares), Simulate(b, s, squares).1, Simulate(b, s, squares).0)
    decreases |squares|
  {
    if |squares| > 0 {
      var i := squares[0];
      CalculateWinnerByCases(b);
      if WinnerByCases(b).Winner? || b[i] != Empty {
        ClicksSimulate(g, s, b, squares[1..]);
      } else {
        var g' := HandleClick(g, i);
        var b' := b[i := Player(s % 2 == 0)];
        assert g'.history == g.history + [b'];
        ClicksSimulate(g', s + 1, b', squares[1..]);
      }
    }
  }

  /** One accepted click in the replay. */
  lemma SimStep(b: Board, s: nat, i: Index, rest: seq<Index>)
    requires WinnerByCases(b) == NoWinner && b[i] == Empty
    ensures Simulate(b, s, [i] + rest) == Simulate(b[i := Player(s % 2 == 0)], s + 1, rest)
  {
    assert ([i] + rest)[1..] == rest;
  }

  /** One ignored click in the replay: the board already has a winner. */
  lemma SimSkip(b: Board, s: nat, i: Index, rest: seq<Index>)
    requires WinnerByCases(b).Winner?
    ensures Simulate(b, s, [i] + rest) == Simulate(b, s, rest)
  {
    assert ([i] + rest)[1..] == rest;
  }

  /** Replaying `p` and then `q` is replaying `p + q`. */
  lemma {:induction false} SimulateAppend(b: Board, s: nat, p: seq<Index>, q: seq<Index>)
    ensures var (b', s') := Simulate(b, s, p); Simulate(b, s, p + q) == Simulate(b', s', q)
    decreases |p|
  {
    if |p| > 0 {
      assert (p + q)[1..] == p[1..] + q;
      if WinnerByCases(b).Winner? || b[p[0]] != Empty {
        SimulateAppend(b, s, p[1..], q);
      } else {
        SimulateAppend(b[p[0] := Player(s % 2 == 0)], s + 1, p[1..], q);
      }
    } else {
      assert p + q == q;
    }
  }

  /** Clicks 0, 1, 3 of the replay, on the board after 0 moves. */
  lemma LeftColumnPart1(b: Board)
    requires b == EmptyBoard
    ensures Simulate(b, 0, [0, 1, 3]) == ([X, O, Empty, X, Empty, Empty, Empty, Empty, Empty], 3)
  {
    SimStep(b, 0, 0, [1, 3]);
    var b1 := b[0 := X];
    SimStep(b1, 1, 1, [3]);
    var b2 := b1[1 := O];
    SimStep(b2, 2, 3, []);
    var b3 := b2[3 := X];
    assert b3 == [X, O, Empty, X, Empty, Empty, Empty, Empty, Empty];
  }

  /** Clicks 4, 6 of the replay, on the board after 3 moves. */
  lemma LeftColumnPart2(b: Board)
    requires b == [X, O, Empty, X, Empty, Empty, Empty, Empty, Empty]
    ensures Simulate(b, 3, [4, 6]) == ([X, O, Empty, X, O, Empty, X, Empty, Empty], 5)
  {
    SimStep(b, 3, 4, [6]);
    var b1 := b[4 := O];
    SimStep(b1, 4, 6, []);
    var b2 := b1[6 := X];
    assert b2 == [X, O, Empty, X, O, Empty, X, Empty, Empty];
  }

  /** The replay of 0, 1, 3, 4, 6 from the empty board. */
  lemma ReplayLeftColumn(b: Board)
    requires b == EmptyBoard
    ensures Simulate(b, 0, [0, 1, 3, 4, 6]) == ([X, O, Empty, X, O, Empty, X, Empty, Empty], 5)
  {
    LeftColumnPart1(b);
    var m1 := Simulate(b, 0, [0, 1, 3]);
    SimulateAppend(b, 0, [0, 1, 3], [4, 6]);
    assert [0, 1, 3, 4, 6] == [0, 1, 3] + [4, 6];
    LeftColumnPart2(m1.0);
  }

  /** X holds the left column, and no line listed before it is completed. */
  lemma LeftColumnBoard(b: Board)
    requires b == [X, O, Empty, X, O, Empty, X, Empty, Empty]
    ensures CalculateWinner(b) == Winner(X, Triple(0, 3, 6))
  {
    CalculateWinnerByCases(b);
  }

  /** X takes the left column with its third mark: 0, 1, 3, 4, 6. */
  lemma LeftColumnWin()
    ensures var g := Clicks(Init(), [0, 1, 3, 4, 6]);
      && |g.history| == 6 && g.stepNumber == 5
      && CalculateWinner(Current(g)) == Winner(X, Triple(0, 3, 6))
  {
    var g0 := Init();
    var b := Current(g0);
    ReplayLeftColumn(b);
    ClicksSimulate(g0, 0, b, [0, 1, 3, 4, 6]);
    LeftColumnBoard(Current(Clicks(g0, [0, 1, 3, 4, 6])));
  }

  /** Clicks 0, 1, 2 of the replay, on the board after 0 moves. */
  lemma InOrderPart1(b: Board)
    requires b == EmptyBoard
    ensures Simulate(b, 0, [0, 1, 2]) == ([X, O, X, Empty, Empty, Empty, Empty, Empty, Empty], 3)
  {
    SimStep(b, 0, 0, [1, 2]);
    var b1 := b[0 := X];
    SimStep(b1, 1, 1, [2]);
    var b2 := b1[1 := O];
    SimStep(b2, 2, 2, []);
    var b3 := b2[2 := X];
    assert b3 == [X, O, X, Empty, Empty, Empty, Empty, Empty, Empty];
  }

  /** Clicks 3, 4, 5 of the replay, on the board after 3 moves. */
  lemma InOrderPart2(b: Board)
    requires b == [X, O, X, Empty, Empty, Empty, Empty, Empty, Empty]
    ensures Simulate(b, 3, [3, 4, 5]) == ([X, O, X, O, X, O, Empty, Empty, Empty], 6)
  {
    SimStep(b, 3, 3, [4, 5]);
    var b1 := b[3 := O];
    SimStep(b1, 4, 4, [5]);
    var b2 := b1[4 := X];
    SimStep(b2, 5, 5, []);
    var b3 := b2[5 := O];
    assert b3 == [X, O, X, O, X, O, Empty, Empty, Empty];
  }

  /** Clicks 6, 7, 8 of the replay, on the board after 6 moves. */
  lemma InOrderPart3(b: Board)
    requires b == [X, O, X, O, X, O, Empty, Empty, Empty]
    ensures Simulate(b, 6, [6, 7, 8]) == ([X, O, X, O, X, O, X, Empty, Empty], 7)
  {
    SimStep(b, 6, 6, [7, 8]);
    var b1 := b[6 := X];
    SimSkip(b1, 7, 7, [8]);
    SimSkip(b1, 7, 8, []);
    assert b1 == [X, O, X, O, X, O, X, Empty, Empty];
  }

  /** The replay of 0..8 from the empty board: the clicks on 7 and 8 come after the win. */
  lemma ReplayInOrder(b: Board)
    requires b == EmptyBoard
    ensures Simulate(b, 0, [0, 1, 2, 3, 4, 5, 6, 7, 8]) == ([X, O, X, O, X, O, X, Empty, Empty], 7)
  {
    InOrderPart1(b);
    var m1 := Simulate(b, 0, [0, 1, 2]);
    SimulateAppend(b, 0, [0, 1, 2], [3, 4, 5, 6, 7, 8]);
    assert [0, 1, 2, 3, 4, 5, 6, 7, 8] == [0, 1, 2] + [3, 4, 5, 6, 7, 8];
    InOrderPart2(m1.0);
    var m2 := Simulate(m1.0, m1.1, [3, 4, 5]);
    SimulateAppend(m1.0, m1.1, [3, 4, 5], [6, 7, 8]);
    assert [3, 4, 5, 6, 7, 8] == [3, 4, 5] + [6, 7, 8];
    InOrderPart3(m2.0);
  }

  /** The diagonal 2-4-6 is X's and is the first completed line. */
  lemma InOrderBoard(b: Board)
    requires b == [X, O, X, O, X, O, X, Empty, Empty]
    ensures CalculateWinner(b) == Winner(X, Triple(2, 4, 6))
  {
    CalculateWinnerByCases(b);
  }

  /**
   Clicking the squares in order 0..8: X's mark on 6 completes the diagonal
   2-4-6, so the clicks on 7 and 8 are ignored and the board never fills.
   */
  lemma ClicksInOrder()
    ensures var g := Clicks(Init(), [0, 1, 2, 3, 4, 5, 6, 7, 8]);
      && |g.history| == 8 && g.stepNumber == 7
      && CalculateWinner(Current(g)) == Winner(X, Triple(2, 4, 6))
      && Filled(Current(g)) == 7
  {
    var g0 := Init();
    var b := Current(g0);
    ReplayInOrder(b);
    ClicksSimulate(g0, 0, b, [0, 1, 2, 3, 4, 5, 6, 7, 8]);
    InOrderBoard(Current(Clicks(g0, [0, 1, 2, 3, 4, 5, 6, 7, 8])));
    ClicksPreserveValid(g0, [0, 1, 2, 3, 4, 5, 6, 7, 8]);
    SnapshotCounts(Clicks(g0, [0, 1, 2, 3, 4, 5, 6, 7, 8]), 7);
  }

  /** Moves 0, 1, 2, a jump back to the start, then a move on 4: only that move is left. */
  lemma JumpBackAndBranch()
    ensures var g := HandleClick(JumpTo(Clicks(Init(), [0, 1, 2]), 0), 4);
      && |g.history| == 2 && g.stepNumber == 1
      && g.history[0] == EmptyBoard
      && Current(g) == EmptyBoard[4 := X]
  {
    var g0 := Init();
    var b := Current(g0);
    InOrderPart1(b);
    ClicksSimulate(g0, 0, b, [0, 1, 2]);
    var j := JumpTo(Clicks(g0, [0, 1, 2]), 0);
    CalculateWinnerByCases(Current(j));
  }

  /** Clicks 1, 4, 2 of the replay, on the board after 0 moves. */
  lemma TwoLinesPart1(b: Board)
    requires b == EmptyBoard
    ensures Simulate(b, 0, [1, 4, 2]) == ([Empty, X, X, Empty, O, Empty, Empty, Empty, Empty], 3)
  {
    SimStep(b, 0, 1, [4, 2]);
    var b1 := b[1 := X];
    SimStep(b1, 1, 4, [2]);
    var b2 := b1[4 := O];
    SimStep(b2, 2, 2, []);
    var b3 := b2[2 := X];
    assert b3 == [Empty, X, X, Empty, O, Empty, Empty, Empty, Empty];
  }

  /** Clicks 5, 3, 7 of the replay, on the board after 3 moves. */
  lemma TwoLinesPart2(b: Board)
    requires b == [Empty, X, X, Empty, O, Empty, Empty, Empty, Empty]
    ensures Simulate(b, 3, [5, 3, 7]) == ([Empty, X, X, X, O, O, Empty, O, Empty], 6)
  {
    SimStep(b, 3, 5, [3, 7]);
    var b1 := b[5 := O];
    SimStep(b1, 4, 3, [7]);
    var b2 := b1[3 := X];
    SimStep(b2, 5, 7, []);
    var b3 := b2[7 := O];
    assert b3 == [Empty, X, X, X, O, O, Empty, O, Empty];
  }

  /** Clicks 6, 8, 0 of the replay, on the board after 6 moves. */
  lemma TwoLinesPart3(b: Board)
    requires b == [Empty, X, X, X, O, O, Empty, O, Empty]
    ensures Simulate(b, 6, [6, 8, 0]) == ([X, X, X, X, O, O, X, O, O], 9)
  {
    SimStep(b, 6, 6, [8, 0]);
    var b1 := b[6 := X];
    SimStep(b1, 7, 8, [0]);
    var b2 := b1[8 := O];
    SimStep(b2, 8, 0, []);
    var b3 := b2[0 := X];
    assert b3 == [X, X, X, X, O, O, X, O, O];
  }

  /** The replay of 1, 4, 2, 5, 3, 7, 6, 8, 0 from the empty board. */
  lemma ReplayTwoLines(b: Board)
    requires b == EmptyBoard
    ensures Simulate(b, 0, [1, 4, 2, 5, 3, 7, 6, 8, 0]) == ([X, X, X, X, O, O, X, O, O], 9)
  {
    TwoLinesPart1(b);
    var m1 := Simulate(b, 0, [1, 4, 2]);
    SimulateAppend(b, 0, [1, 4, 2], [5, 3, 7, 6, 8, 0]);
    assert [1, 4, 2, 5, 3, 7, 6, 8, 0] == [1, 4, 2] + [5, 3, 7, 6, 8, 0];
    TwoLinesPart2(m1.0);
    var m2 := Simulate(m1.0, m1.1, [5, 3, 7]);
    SimulateAppend(m1.0, m1.1, [5, 3, 7], [6, 8, 0]);
    assert [5, 3, 7, 6, 8, 0] == [5, 3, 7] + [6, 8, 0];
    TwoLinesPart3(m2.0);
  }

  /** Both the top row and the left column are X's; the row, listed first, is reported. */
  lemma TwoLinesBoard(b: Board)
    requires b == [X, X, X, X, O, O, X, O, O]
    ensures Completes(b, Triple(0, 1, 2)) && Completes(b, Triple(0, 3, 6))
    ensures CalculateWinner(b) == Winner(X, Triple(0, 1, 2))
  {
    CalculateWinnerByCases(b);
  }

  /**
   One move can complete two lines at once: X's final mark on 0 completes
   both the top row and the left column, and the row, listed first, is the
   line reported.
   */
  lemma TwoLinesAtOnce()
    ensures var g := Clicks(Init(), [1, 4, 2, 5, 3, 7, 6, 8, 0]);
      && Valid(g)
      && Completes(Current(g), Triple(0, 1, 2)) && Completes(Current(g), Triple(0, 3, 6))
      && CalculateWinner(Current(g)) == Winner(X, Triple(0, 1, 2))
  {
    var g0 := Init();
    var b := Current(g0);
    ReplayTwoLines(b);
    ClicksSimulate(g0, 0, b, [1, 4, 2, 5, 3, 7, 6, 8, 0]);
    ClicksPreserveValid(g0, [1, 4, 2, 5, 3, 7, 6, 8, 0]);
    TwoLinesBoard(Current(Clicks(g0, [1, 4, 2, 5, 3, 7, 6, 8, 0])));
  }
}

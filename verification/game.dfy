/**
 The `Game` component's state and its two transitions.

 The state is the record `{history, stepNumber, xIsNext}`: the boards after
 each move (starting with the empty board), the step being viewed, and whose
 turn it is. A click on a square (`handleClick`) drops every snapshot after
 the viewed one and appends a copy of the viewed board with the mover's mark;
 a click in the move list (`jumpTo`) only moves the view. Each `setState`
 replaces the fields at once, so both transitions are functions from state
 to state.
 */
module TicTacToe {
  import opened Cells
  import opened Win

  /** The game state (the move-order display flag is not part of it). */
  datatype Game = Game(history: seq<Board>, stepNumber: nat, xIsNext: bool)

  function Min(a: int, b: int): int
  {
    if a <= b then a else b
  }

  /** The state the game is constructed with. */
  function Init(): (g: Game)
    ensures Valid(g)
    ensures |g.history| == 1 && Filled(Current(g)) == 0
  {
    EmptyBoardCounts();
    Game([EmptyBoard], 0, true)
  }

  /** The board on display: the snapshot of the viewed step. */
  function Current(g: Game): Board
    requires g.stepNumber < |g.history|
  {
    g.history[g.stepNumber]
  }

  /**
   How many snapshots a click keeps: those up to and including the viewed
   step, clamped to the history as the list slice clamps its end.
   */
  function Kept(g: Game): (n: nat)
    requires |g.history| >= 1
    ensures 1 <= n <= |g.history|
    ensures g.stepNumber < |g.history| ==> n == g.stepNumber + 1
  {
    Min(g.stepNumber + 1, |g.history|)
  }

  /** The board a click acts on: the last snapshot kept. */
  function ClickedBoard(g: Game): (b: Board)
    requires |g.history| >= 1
    ensures g.stepNumber < |g.history| ==> b == Current(g)
  {
    g.history[Kept(g) - 1]
  }

  /** A click on square `i` is ignored: the board already has a winner, or the square is filled. */
  predicate Ignored(g: Game, i: Index)
    requires |g.history| >= 1
  {
    CalculateWinner(ClickedBoard(g)).Winner? || ClickedBoard(g)[i] != Empty
  }

  /** `after` is `before` with one empty square filled with `m`. */
  ghost predicate IsMove(before: Board, after: Board, m: Cell)
  {
    exists i: Index :: before[i] == Empty && after == before[i := m]
  }

  /**
   The game's `handleClick(i)`. An ignored click leaves the state as it is.
   Otherwise the kept snapshots are unchanged, exactly one snapshot follows
   them, it differs from the clicked board only at `i`, which now holds the
   mover's mark, the view moves to it and the turn passes.
   */
  function HandleClick(g: Game, i: Index): (g': Game)
    requires |g.history| >= 1
    ensures g' == g <==> Ignored(g, i)
    ensures !Ignored(g, i) ==>
      && |g'.history| == Kept(g) + 1
      && (forall k :: 0 <= k < Kept(g) ==> g'.history[k] == g.history[k])
      && g'.history[Kept(g)][i] == Player(g.xIsNext)
      && (forall j :: 0 <= j < 9 && j != i ==> g'.history[Kept(g)][j] == ClickedBoard(g)[j])
      && g'.stepNumber == Kept(g)
      && g'.xIsNext == !g.xIsNext
    ensures !Ignored(g, i) ==> IsMove(ClickedBoard(g), g'.history[Kept(g)], Player(g.xIsNext))
  {
    if Ignored(g, i) then g
    else
      Game(g.history[..Kept(g)] + [ClickedBoard(g)[i := Player(g.xIsNext)]], Kept(g), !g.xIsNext)
  }

  /**
   The game's `jumpTo(step)`: the history stays, the view moves to `step`,
   and the turn is read off the step's parity (X moves on even steps).
   */
  function JumpTo(g: Game, step: nat): (g': Game)
    requires step < |g.history|
    ensures g'.history == g.history
    ensures g'.stepNumber == step
    ensures Current(g') == g.history[step]
    ensures g'.xIsNext <==> step % 2 == 0
    ensures Valid(g) ==> Valid(g')
  {
    Game(g.history, step, step % 2 == 0)
  }

  /**
   The invariant of every state the game reaches:
   - there is at least one snapshot and the viewed step is one of them;
   - X is to move exactly on even steps;
   - the first snapshot is the empty board;
   - each snapshot is the one before it plus one mark of the player whose
     turn it was (X after an even step, O after an odd one);
   - no snapshot but the last has a winner, since a won board takes no move.
   */
  ghost predicate Valid(g: Game)
  {
    && |g.history| >= 1
    && g.stepNumber < |g.history|
    && g.xIsNext == (g.stepNumber % 2 == 0)
    && g.history[0] == EmptyBoard
    && (forall k :: 0 <= k < |g.history| - 1 ==>
          IsMove(g.history[k], g.history[k + 1], Player(k % 2 == 0)))
    && (forall k :: 0 <= k < |g.history| - 1 ==> CalculateWinner(g.history[k]).NoWinner?)
  }

  /** On a state that keeps the invariant, a click truncates after the viewed step and appends one board. */
  lemma ClickOnValid(g: Game, i: Index)
    requires Valid(g)
    ensures var g' := HandleClick(g, i);
      !Ignored(g, i) ==>
        && |g'.history| == g.stepNumber + 2
        && g'.history[..g.stepNumber + 1] == g.history[..g.stepNumber + 1]
        && g'.stepNumber == g.stepNumber + 1
        && IsMove(Current(g), g'.history[g.stepNumber + 1], Player(g.stepNumber % 2 == 0))
  {
  }

  /** A click keeps the invariant. */
  lemma HandleClickPreservesValid(g: Game, i: Index)
    requires Valid(g)
    ensures Valid(HandleClick(g, i))
  {
    var g' := HandleClick(g, i);
    if !Ignored(g, i) {
      ClickOnValid(g, i);
      var s := g.stepNumber;
      var h, h' := g.history, g'.history;
      assert h'[0] == h[0];
      forall k | 0 <= k < |h'| - 1
        ensures IsMove(h'[k], h'[k + 1], Player(k % 2 == 0))
        ensures CalculateWinner(h'[k]).NoWinner?
      {
        assert h'[k] == h[k];
        if k < s {
          assert h'[k + 1] == h[k + 1];
        } else {
          assert k == s && h[k] == Current(g);
        }
      }
    }
  }

  /** Filled squares and marks of each snapshot along a chain of moves from the empty board. */
  lemma {:induction false} SnapshotCounts(g: Game, k: nat)
    requires Valid(g)
    requires k < |g.history|
    ensures Filled(g.history[k]) == k
    ensures CountOf(g.history[k], X) == (k + 1) / 2
    ensures CountOf(g.history[k], O) == k / 2
  {
    if k == 0 {
      EmptyBoardCounts();
    } else {
      SnapshotCounts(g, k - 1);
      MoveCounts(g.history[k - 1], g.history[k], k - 1);
    }
  }

  /** One move of the player whose turn it is after `k` moves, on a board with the counts of step `k`. */
  lemma MoveCounts(before: Board, after: Board, k: nat)
    requires Filled(before) == k
    requires CountOf(before, X) == (k + 1) / 2 && CountOf(before, O) == k / 2
    requires IsMove(before, after, Player(k % 2 == 0))
    ensures Filled(after) == k + 1
    ensures CountOf(after, X) == (k + 2) / 2 && CountOf(after, O) == (k + 1) / 2
  {
    var m := Player(k % 2 == 0);
    var i: Index :| before[i] == Empty && after == before[i := m];
    FillOne(before, i, m);
    if k % 2 == 0 {
      assert m == X;
      assert (k + 2) / 2 == (k + 1) / 2 + 1 && (k + 1) / 2 == k / 2;
    } else {
      assert m == O;
      assert (k + 2) / 2 == (k + 1) / 2 && (k + 1) / 2 == k / 2 + 1;
    }
  }

  /** A game never holds more than ten snapshots: the empty board and at most nine moves. */
  lemma HistoryBounded(g: Game)
    requires Valid(g)
    ensures |g.history| <= 10
  {
    SnapshotCounts(g, |g.history| - 1);
  }

  /** The turn can be read off the viewed board: X is to move exactly when both players have as many marks. */
  lemma TurnMatchesBoard(g: Game)
    requires Valid(g)
    ensures g.xIsNext <==> CountOf(Current(g), X) == CountOf(Current(g), O)
    ensures CountOf(Current(g), X) - CountOf(Current(g), O) in {0, 1}
  {
    SnapshotCounts(g, g.stepNumber);
  }

  /** Once the viewed board has a winner, or is full, every click is ignored. */
  lemma DecidedBoardFreezes(g: Game, i: Index)
    requires Valid(g)
    requires CalculateWinner(Current(g)).Winner? || Filled(Current(g)) == 9
    ensures HandleClick(g, i) == g
  {
  }

  /** Jumping to the step already viewed changes nothing. */
  lemma JumpToViewedStep(g: Game)
    requires Valid(g)
    ensures JumpTo(g, g.stepNumber) == g
  {
  }

  /**
   Branch overwrite: after jumping back to step `k`, a move leaves `k + 2`
   snapshots, the first `k + 1` as they were, and everything later is gone.
   */
  lemma JumpThenClick(g: Game, k: nat, i: Index)
    requires Valid(g)
    requires k < |g.history|
    requires !Ignored(JumpTo(g, k), i)
    ensures var g' := HandleClick(JumpTo(g, k), i);
      && |g'.history| == k + 2
      && g'.history[..k + 1] == g.history[..k + 1]
      && g'.stepNumber == k + 1
      && IsMove(g.history[k], g'.history[k + 1], Player(k % 2 == 0))
  {
    ClickOnValid(JumpTo(g, k), i);
  }
}

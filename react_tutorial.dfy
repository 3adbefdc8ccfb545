/** The react.dev tutorial version of Tic-Tac-Toe
    (app/react-tutorial/page.tsx): the same game as app/play/page.tsx, with
    the winner found by a loop over the lines (`calculateWinner`) and the
    status "Next player: …". */
module ReactTutorial {
  import opened Wrappers
  import opened TicTacToe

  /** `calculateWinner`: the mark on the first complete line, or None. */
  method CalculateWinner(s: Board) returns (r: Option<Mark>)
    requires IsBoard(s)
    ensures r == Winner(s)
    ensures r.Some? ==> exists k: nat :: IsFirstComplete(s, k) && s[Lines[k].a] == r
    ensures r.None? <==> forall k :: 0 <= k < |Lines| ==> !Complete(s, Lines[k])
  {
    for k := 0 to |Lines|
      invariant forall j :: 0 <= j < k ==> !Complete(s, Lines[j])
    {
      var l := Lines[k];
      if s[l.a].Some? && s[l.a] == s[l.b] && s[l.a] == s[l.c] {
        assert IsFirstComplete(s, k);
        FirstIsUnique(s, k);
        return s[l.a];
      }
    }
    return None;
  }

  lemma FirstIsUnique(s: Board, k: nat)
    requires IsBoard(s) && IsFirstComplete(s, k)
    ensures FirstComplete(s, 0) == Some(k)
  {
  }

  class TutorialPage {
    var history: seq<Board>
    var step: nat
    var xIsNext: bool

    function State(): Game
      reads this
    {
      Game(history, step, xIsNext)
    }

    ghost predicate Valid()
      reads this
    {
      Consistent(State())
    }

    constructor ()
      ensures State() == Initial && Valid()
    {
      history, step, xIsNext := [EmptyBoard], 0, true;
      InitialConsistent();
    }

    function Status(): string
      requires WellFormed(State())
      reads this
    {
      StatusText(history[step], xIsNext, "Next player: ")
    }

    /** `handleClick(i)` */
    method HandleClick(i: nat)
      requires Valid() && i < 9
      modifies this
      ensures State() == TicTacToe.Click(old(State()), i) && Valid()
    {
      ClickKeepsTurns(State(), i);
      var squares := history[step];
      var winner := CalculateWinner(squares);
      if squares[i].Some? || winner.Some? {
        return;
      }
      var next := squares[i := Some(if xIsNext then X else O)];
      var nextHistory := history[..step + 1] + [next];
      history := nextHistory;
      step := |nextHistory| - 1;
      xIsNext := !xIsNext;
    }

    /** "Go to move #move", with the turn restored for that move. */
    method JumpTo(move: nat)
      requires Valid() && move < |history|
      modifies this
      ensures State() == TicTacToe.JumpTo(old(State()), move) && Valid()
    {
      JumpToKeepsTurns(State(), move);
      step := move;
      xIsNext := move % 2 == 0;
    }
  }
}

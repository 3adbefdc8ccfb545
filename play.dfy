/** The Tic-Tac-Toe page (app/play/page.tsx): its state is the history of
    boards, the step shown and whose turn it is; its winner is `win`, the
    first complete line found with `lines.find`. */
module Play {
  import opened Wrappers
  import opened TicTacToe

  class PlayPage {
    var history: seq<Board>
    var step: nat
    var x: bool

    function State(): Game
      reads this
    {
      Game(history, step, x)
    }

    ghost predicate Valid()
      reads this
    {
      Consistent(State())
    }

    /** One empty board, X to move. */
    constructor ()
      ensures State() == Initial && Valid()
    {
      history, step, x := [EmptyBoard], 0, true;
      InitialConsistent();
    }

    function Status(): string
      requires WellFormed(State())
      reads this
    {
      StatusText(history[step], x, "Next: ")
    }

    /** `click(i)` */
    method Click(i: nat)
      requires Valid() && i < 9
      modifies this
      ensures State() == TicTacToe.Click(old(State()), i) && Valid()
    {
      ClickKeepsTurns(State(), i);
      var s := history[step];
      if s[i].Some? || Winner(s).Some? {
        return;
      }
      var next := s[i := Some(if x then X else O)];
      var nextHist := history[..step + 1] + [next];
      history := nextHist;
      step := |nextHist| - 1;
      x := !x;
    }

    /** "Go to move #move", with the turn restored for that move. */
    method JumpTo(move: nat)
      requires Valid() && move < |history|
      modifies this
      ensures State() == TicTacToe.JumpTo(old(State()), move) && Valid()
    {
      JumpToKeepsTurns(State(), move);
      step := move;
      x := move % 2 == 0;
    }
  }
}

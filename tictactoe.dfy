/** The game shared by the two Tic-Tac-Toe pages (app/play/page.tsx and
    app/react-tutorial/page.tsx): the board, the eight winning lines, the
    winner, and the history of boards with the step being shown. */
module TicTacToe {
  import opened Wrappers

  datatype Mark = X | O

  /** Nine squares, row by row; None is an empty square (`null`). */
  type Board = seq<Option<Mark>>

  datatype Line = Line(a: nat, b: nat, c: nat)

  /** The three rows, the three columns and the two diagonals, in the order
      both pages list them. */
  const Lines: seq<Line> := [Line(0, 1, 2), Line(3, 4, 5), Line(6, 7, 8),
                             Line(0, 3, 6), Line(1, 4, 7), Line(2, 5, 8),
                             Line(0, 4, 8), Line(2, 4, 6)]

  const EmptyBoard: Board := seq(9, _ => None)

  predicate IsBoard(s: Board) { |s| == 9 }

  /** `s[a] && s[a]===s[b] && s[a]===s[c]` */
  predicate Complete(s: Board, l: Line)
    requires IsBoard(s) && l in Lines
  {
    s[l.a].Some? && s[l.a] == s[l.b] && s[l.a] == s[l.c]
  }

  /** The index of the first complete line at or after `from`. */
  function FirstComplete(s: Board, from: nat): (r: Option<nat>)
    requires IsBoard(s)
    decreases |Lines| - from
    ensures r.Some? ==> from <= r.value < |Lines| && Complete(s, Lines[r.value])
    ensures r.Some? ==> forall j :: from <= j < r.value ==> !Complete(s, Lines[j])
    ensures r.None? ==> forall j :: from <= j < |Lines| ==> !Complete(s, Lines[j])
  {
    if from >= |Lines| then None
    else if Complete(s, Lines[from]) then Some(from)
    else FirstComplete(s, from + 1)
  }

  predicate IsFirstComplete(s: Board, k: nat)
    requires IsBoard(s)
  {
    k < |Lines| && Complete(s, Lines[k]) && forall j :: 0 <= j < k ==> !Complete(s, Lines[j])
  }

  /** The winner: the mark on the first complete line, None when no line is
      complete. */
  function Winner(s: Board): (r: Option<Mark>)
    requires IsBoard(s)
    ensures r.None? <==> forall k :: 0 <= k < |Lines| ==> !Complete(s, Lines[k])
    ensures r.Some? ==> exists k: nat :: IsFirstComplete(s, k) && s[Lines[k].a] == r
  {
    match FirstComplete(s, 0)
    case None => None
    case Some(k) => s[Lines[k].a]
  }

  /** A line of three equal marks makes that mark the winner whenever the
      other mark has no complete line. */
  lemma LineWins(s: Board, k: nat, m: Mark)
    requires IsBoard(s) && k < |Lines| && Complete(s, Lines[k]) && s[Lines[k].a] == Some(m)
    requires forall j :: 0 <= j < |Lines| && Complete(s, Lines[j]) ==> s[Lines[j].a] == Some(m)
    ensures Winner(s) == Some(m)
  {
  }

  predicate Full(s: Board) requires IsBoard(s) {
    forall i :: 0 <= i < 9 ==> s[i].Some?
  }

  /** What the status line reports. */
  datatype Outcome = Won(winner: Mark) | Draw | ToPlay(next: Mark)

  function ToMove(xNext: bool): Mark { if xNext then X else O }

  /** `w ? … : s.every(Boolean) ? "Draw" : …` */
  function Status(s: Board, xNext: bool): (r: Outcome)
    requires IsBoard(s)
    ensures r.Won? <==> Winner(s).Some?
    ensures r.Won? ==> r.winner == Winner(s).value
    ensures r == Draw <==> Winner(s).None? && Full(s)
    ensures r.ToPlay? <==> Winner(s).None? && exists i :: 0 <= i < 9 && s[i].None?
    ensures r.ToPlay? ==> r.next == ToMove(xNext)
  {
    match Winner(s)
    case Some(m) => Won(m)
    case None => if Full(s) then Draw else ToPlay(ToMove(xNext))
  }

  function MarkText(m: Mark): string { if m == X then "X" else "O" }

  /** The status line both pages show: "Winner: X", "Draw", or the page's
      label for the next mark ("Next: " on the play page, "Next player: " in
      the tutorial) followed by that mark. */
  function StatusText(s: Board, xNext: bool, nextLabel: string): (r: string)
    requires IsBoard(s)
    ensures r == "Draw" <==> Winner(s).None? && Full(s)
    ensures Winner(s).Some? ==> r == "Winner: " + MarkText(Winner(s).value)
    ensures Winner(s).None? && !Full(s) ==> r == nextLabel + MarkText(ToMove(xNext))
  {
    match Status(s, xNext)
    case Won(m) => "Winner: " + MarkText(m)
    case Draw => "Draw"
    case ToPlay(m) =>
      var r := nextLabel + MarkText(m);
      assert r[|r| - 1] == MarkText(m)[0] != 'w';
      r
  }

  /* ---------- the game with its history ---------- */

  /** `history`, `step` and `x` (`xIsNext`). */
  datatype Game = Game(history: seq<Board>, step: nat, xNext: bool)

  predicate WellFormed(g: Game) {
    && 1 <= |g.history|
    && g.step < |g.history|
    && forall k :: 0 <= k < |g.history| ==> IsBoard(g.history[k])
  }

  const Initial: Game := Game([EmptyBoard], 0, true)

  function Current(g: Game): (s: Board)
    requires WellFormed(g)
    ensures IsBoard(s)
  {
    g.history[g.step]
  }

  /** A click on square i: ignored on a taken square or once there is a
      winner; otherwise the mark to move is placed, the boards after the one
      shown are dropped, and the new board becomes the shown one. */
  function Click(g: Game, i: nat): (r: Game)
    requires WellFormed(g) && i < 9
    ensures WellFormed(r)
    ensures r == g <==> Current(g)[i].Some? || Winner(Current(g)).Some?
    ensures r != g ==>
      && |r.history| == g.step + 2 && r.step == g.step + 1
      && r.history[..g.step + 1] == g.history[..g.step + 1]
      && Current(r) == Current(g)[i := Some(ToMove(g.xNext))]
      && r.xNext == !g.xNext
  {
    var s := Current(g);
    if s[i].Some? || Winner(s).Some? then g
    else
      var next := s[i := Some(ToMove(g.xNext))];
      assert next != s by { assert next[i] != s[i]; }
      Game(g.history[..g.step + 1] + [next], g.step + 1, !g.xNext)
  }

  /** "Go to move #m" as written: only the step changes, so the turn is still
      the one of the board shown before. */
  function JumpToAsWritten(g: Game, move: nat): (r: Game)
    requires WellFormed(g) && move < |g.history|
    ensures WellFormed(r) && r.history == g.history && r.step == move && r.xNext == g.xNext
  {
    g.(step := move)
  }

  /** "Go to move #m" as intended: X is to move on the boards of even moves. */
  function JumpTo(g: Game, move: nat): (r: Game)
    requires WellFormed(g) && move < |g.history|
    ensures WellFormed(r) && r.history == g.history && r.step == move
    ensures r.xNext <==> move % 2 == 0
  {
    Game(g.history, move, move % 2 == 0)
  }

  /* ---------- the turn invariant ---------- */

  function Count(s: Board, m: Mark): nat
  {
    if s == [] then 0 else (if s[0] == Some(m) then 1 else 0) + Count(s[1..], m)
  }

  /** Board k of the history holds ceil(k/2) X and floor(k/2) O, and X is to
      move exactly when the shown board has an even number of moves. */
  predicate Consistent(g: Game) {
    && WellFormed(g)
    && (forall k :: 0 <= k < |g.history| ==> Count(g.history[k], X) == (k + 1) / 2 && Count(g.history[k], O) == k / 2)
    && (g.xNext <==> g.step % 2 == 0)
  }

  lemma {:induction false} CountPlace(s: Board, i: nat, m: Mark, n: Mark)
    requires i < |s| && s[i].None?
    ensures Count(s[i := Some(m)], n) == Count(s, n) + (if n == m then 1 else 0)
  {
    if i == 0 {
      assert s[i := Some(m)][1..] == s[1..];
    } else {
      CountPlace(s[1..], i - 1, m, n);
      assert s[i := Some(m)][1..] == s[1..][i - 1 := Some(m)];
    }
  }

  lemma InitialConsistent()
    ensures Consistent(Initial)
  {
    assert Count(EmptyBoard, X) == 0 && Count(EmptyBoard, O) == 0 by {
      EmptyCount(EmptyBoard, X);
      EmptyCount(EmptyBoard, O);
    }
  }

  lemma {:induction false} EmptyCount(s: Board, m: Mark)
    requires forall i :: 0 <= i < |s| ==> s[i].None?
    ensures Count(s, m) == 0
  {
    if s != [] {
      EmptyCount(s[1..], m);
    }
  }

  /** A click keeps the turn invariant: X and O alternate, X first. */
  lemma ClickKeepsTurns(g: Game, i: nat)
    requires Consistent(g) && i < 9
    ensures Consistent(Click(g, i))
  {
    var r := Click(g, i);
    if r != g {
      PlaceKeepsTurns(Current(g), i, g.step, g.xNext);
      forall k | 0 <= k < |r.history|
        ensures Count(r.history[k], X) == (k + 1) / 2 && Count(r.history[k], O) == k / 2
      {
        if k <= g.step {
          assert r.history[k] == r.history[..g.step + 1][k] == g.history[k];
        } else {
          assert r.history[k] == Current(g)[i := Some(ToMove(g.xNext))];
        }
      }
    }
  }

  /** The board after move `step` has the counts of that move; the mark the
      turn gives at the next move brings them to those of move `step + 1`. */
  lemma PlaceKeepsTurns(s: Board, i: nat, step: nat, xNext: bool)
    requires i < |s| && s[i].None?
    requires Count(s, X) == (step + 1) / 2 && Count(s, O) == step / 2
    requires xNext <==> step % 2 == 0
    ensures Count(s[i := Some(ToMove(xNext))], X) == (step + 2) / 2
    ensures Count(s[i := Some(ToMove(xNext))], O) == (step + 1) / 2
  {
    CountPlace(s, i, ToMove(xNext), X);
    CountPlace(s, i, ToMove(xNext), O);
  }

  /** The intended jump keeps the turn invariant. */
  lemma JumpToKeepsTurns(g: Game, move: nat)
    requires Consistent(g) && move < |g.history|
    ensures Consistent(JumpTo(g, move))
  {
  }

  /** Every game reached from the start by clicks and intended jumps keeps
      the invariant; a sequence of user actions. */
  datatype Action = Square(i: nat) | GoTo(move: nat)

  function Run(g: Game, acts: seq<Action>): (r: Game)
    requires WellFormed(g)
    ensures WellFormed(r)
    decreases |acts|
  {
    if acts == [] then g
    else
      var a := acts[0];
      var g' := match a
        case Square(i) => if i < 9 then Click(g, i) else g
        case GoTo(m) => if m < |g.history| then JumpTo(g, m) else g;
      Run(g', acts[1..])
  }

  lemma {:induction false} RunKeepsTurns(g: Game, acts: seq<Action>)
    requires Consistent(g)
    ensures Consistent(Run(g, acts))
    decreases |acts|
  {
    if acts != [] {
      match acts[0]
      case Square(i) =>
        if i < 9 { ClickKeepsTurns(g, i); }
        RunKeepsTurns(if i < 9 then Click(g, i) else g, acts[1..]);
      case GoTo(m) =>
        if m < |g.history| { JumpToKeepsTurns(g, m); }
        RunKeepsTurns(if m < |g.history| then JumpTo(g, m) else g, acts[1..]);
    }
  }

  /** As written, jumping back to the start after X's first move lets O make
      the first move of the new line of play. */
  lemma StaleTurnAfterJump()
    ensures var g := Click(JumpToAsWritten(Click(Initial, 0), 0), 4);
      Current(g)[4] == Some(O) && !Consistent(g)
  {
    var g1 := Click(Initial, 0);
    assert Winner(Current(Initial)) == None;
    var g2 := JumpToAsWritten(g1, 0);
    assert Current(g2) == EmptyBoard;
    var g3 := Click(g2, 4);
    assert Current(g3)[4] == Some(O);
    assert g3.step == 1 && g3.xNext;
  }
}

/**
 * The older minimax search: the same play/recurse/reverse recursion as
 * `Search.MinimaxSearch`, but a maximizing node starts from -10000 and a
 * minimizing node from 10000 instead of the infinities, and every node
 * checks that the board came back as it was (panicking otherwise).
 *
 * `Value` is the exact result of that recursion.  `SentinelsClamp` shows
 * what the sentinels change: for an evaluator that stays within
 * [-10000, 10000], `Value` is the exact minimax value clamped into that
 * range, so the two searches differ only where a node has no valid column.
 */
module SentinelMinimax {
  import opened Games
  import opened Scores
  import opened Connect4Game
  import Search

  const Floor: Score := Fin(-10000.0)
  const Ceiling: Score := Fin(10000.0)

  /** The value the sentinel recursion computes. */
  function Value(p: Position, depth: nat, maximizing: bool, eval: Position -> Score): Score
    decreases depth, 0
  {
    if depth == 0 || p.state != InProgress then eval(p)
    else if maximizing then Max(Floor, MaxOf(Children(p, Search.ChildDepth(depth), false, eval)))
    else Min(Ceiling, MinOf(Children(p, Search.ChildDepth(depth), true, eval)))
  }

  /** The values, `d` levels down and for the other side, of the positions after each valid column. */
  function Children(p: Position, d: nat, maximizing: bool, eval: Position -> Score): (r: seq<Score>)
    requires p.state == InProgress
    ensures |r| == |ValidColumns(p.board)|
    decreases d, 1
  {
    var cols := ValidColumns(p.board);
    seq(|cols|, i requires 0 <= i < |cols| => Value(Play(p, cols[i]), d, maximizing, eval))
  }

  /** The `i`-th child, column `a`, is the value of the position after `a`. */
  lemma ChildAt(p: Position, d: nat, maximizing: bool, eval: Position -> Score, i: nat, a: nat)
    requires p.state == InProgress && i < |ValidColumns(p.board)| && a == ValidColumns(p.board)[i]
    ensures a < BoardWidth && Children(p, d, maximizing, eval)[i] == Value(Play(p, a), d, maximizing, eval)
  {
  }

  /** A node above depth 0 that is in progress folds its children one level down from its sentinel. */
  lemma ValueNode(p: Position, depth: nat, d: nat, maximizing: bool, eval: Position -> Score)
    requires p.state == InProgress && 1 <= depth && d == Search.ChildDepth(depth)
    ensures Value(p, depth, maximizing, eval) ==
      if maximizing then Max(Floor, MaxOf(Children(p, d, false, eval))) else Min(Ceiling, MinOf(Children(p, d, true, eval)))
  {
  }

  /** An evaluator whose scores all lie within the sentinels. */
  ghost predicate WithinSentinels(eval: Position -> Score)
  {
    forall q :: Le(Floor, eval(q)) && Le(eval(q), Ceiling)
  }

  /**
   * With an evaluator inside [-10000, 10000] the sentinel recursion returns
   * the exact minimax value clamped into [-10000, 10000].
   */
  lemma {:induction false} SentinelsClamp(p: Position, depth: nat, maximizing: bool, eval: Position -> Score)
    requires WithinSentinels(eval)
    ensures Value(p, depth, maximizing, eval) == Clamp(Search.Minimax(p, depth, maximizing, eval), Floor, Ceiling)
    decreases depth
  {
    if depth == 0 || p.state != InProgress {
      ClampWithin(eval(p), Floor, Ceiling);
    } else {
      var d := Search.ChildDepth(depth);
      var s := Search.Children(p, d, !maximizing, eval);
      var t := Children(p, d, !maximizing, eval);
      forall i | 0 <= i < |s|
        ensures t[i] == Clamp(s[i], Floor, Ceiling)
      {
        var a := ValidColumns(p.board)[i];
        ChildAt(p, d, !maximizing, eval, i, a);
        Search.ChildAt(p, d, !maximizing, eval, i, a);
        SentinelsClamp(Play(p, a), d, !maximizing, eval);
      }
      ValueNode(p, depth, d, maximizing, eval);
      Search.MinimaxNode(p, depth, d, maximizing, eval);
      if maximizing {
        MaxOfClamped(s, t, Floor, Ceiling);
      } else {
        MinOfClamped(s, t, Floor, Ceiling);
      }
    }
  }

  /**
   * `_minimax(board, depth, ismaximizing, evaluator)`: the sentinel value,
   * with the board checked to be back as it was at the end of every node.
   */
  method MinimaxSearch(g: Connect4, depth: nat, maximizing: bool, eval: Position -> Score) returns (v: Score)
    requires Wellformed(g.board)
    modifies g
    ensures g.Snapshot() == old(g.Snapshot())
    ensures v == Value(old(g.Snapshot()), depth, maximizing, eval)
    decreases depth
  {
    var p := g.Snapshot();
    var oldBoard := g.board;
    if depth == 0 || g.gameState != InProgress {
      return eval(p);
    }
    var actions := g.LegalActions();
    var d := Search.ChildDepth(depth);
    ghost var values := Children(p, d, !maximizing, eval);
    v := if maximizing then Floor else Ceiling;
    for i := 0 to |actions|
      invariant g.Snapshot() == p
      invariant v == if maximizing then Max(Floor, MaxOf(values[..i])) else Min(Ceiling, MinOf(values[..i]))
    {
      Search.PlayChild(g, p, i, actions[i]);
      var c := MinimaxSearch(g, d, !maximizing, eval);
      ChildAt(p, d, !maximizing, eval, i, actions[i]);
      if maximizing {
        MaxOfStep(values, i);
        MaxAssoc(Floor, MaxOf(values[..i]), c);
        v := Max(v, c);
      } else {
        MinOfStep(values, i);
        MinAssoc(Ceiling, MinOf(values[..i]), c);
        v := Min(v, c);
      }
      Search.UndoChild(g, p, actions[i]);
    }
    // The source panics here when the board differs; it never does.
    assert g.board == oldBoard;
    assert values[..|actions|] == values;
    ValueNode(p, depth, d, maximizing, eval);
  }

  /** `minimax(board, depth, evaluator)`: the maximizing value, searched on a clone. */
  method MinimaxRoot(g: Connect4, depth: nat, eval: Position -> Score) returns (v: Score)
    requires Wellformed(g.board)
    ensures v == Value(g.Snapshot(), depth, true, eval)
  {
    var c := Search.CloneGame(g);
    v := MinimaxSearch(c, depth, true, eval);
  }

  /**
   * `minimax_action(board, action, depth, evaluator)`: play the column,
   * take the minimizing value, reverse the column.
   */
  method MinimaxAction(g: Connect4, action: nat, depth: nat, eval: Position -> Score) returns (v: Score)
    requires Wellformed(g.board) && g.gameState == InProgress && action < BoardWidth
    modifies g
    ensures v == Value(Play(old(g.Snapshot()), action), depth, false, eval)
    ensures g.Snapshot() == Reverse(Play(old(g.Snapshot()), action), action)
    ensures ValidMove(old(g.board), action) ==> g.Snapshot() == old(g.Snapshot())
  {
    var p := g.Snapshot();
    BoardBoundCells(BoardCells);
    g.PlayAction(action);
    PlayKeepsWellformed(p, action);
    v := MinimaxSearch(g, depth, false, eval);
    g.ReverseLastAction(action);
    if ValidMove(p.board, action) {
      ReverseUndoesPlay(p, action);
    }
  }
}

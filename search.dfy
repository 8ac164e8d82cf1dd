/**
 * Depth-limited minimax and fail-soft alpha-beta over Connect Four.  Both
 * searches play each valid column on the shared game, recurse and reverse
 * the move again, so the game is back as it was after every call.  The
 * evaluator is any function from a position to a score.
 *
 * `Minimax` is the value both searches are measured against: the
 * evaluator's score at depth 0 or on a finished game, otherwise the maximum
 * (or minimum) over the valid columns of the children's values, starting
 * from minus (or plus) infinity.
 */
module Search {
  import opened Games
  import opened Scores
  import opened Connect4Game

  /** The exact depth-limited value of a position. */
  function Minimax(p: Position, depth: nat, maximizing: bool, eval: Position -> Score): Score
    decreases depth, 0
  {
    if depth == 0 || p.state != InProgress then eval(p)
    else if maximizing then MaxOf(Children(p, ChildDepth(depth), false, eval))
    else MinOf(Children(p, ChildDepth(depth), true, eval))
  }

  /** The depth the children of a node of depth `depth` are searched to: the source's unsigned `depth - 1`. */
  function ChildDepth(depth: nat): nat
    requires 1 <= depth
  {
    depth - 1
  }

  /** The values, `d` levels down and for the other side, of the positions after each valid column. */
  function Children(p: Position, d: nat, maximizing: bool, eval: Position -> Score): (r: seq<Score>)
    requires p.state == InProgress
    ensures |r| == |ValidColumns(p.board)|
    decreases d, 1
  {
    var cols := ValidColumns(p.board);
    seq(|cols|, i requires 0 <= i < |cols| => Minimax(Play(p, cols[i]), d, maximizing, eval))
  }

  /** The `i`-th child, column `a`, is the value of the position after `a`. */
  lemma ChildAt(p: Position, d: nat, maximizing: bool, eval: Position -> Score, i: nat, a: nat)
    requires p.state == InProgress && i < |ValidColumns(p.board)| && a == ValidColumns(p.board)[i]
    ensures a < BoardWidth && Children(p, d, maximizing, eval)[i] == Minimax(Play(p, a), d, maximizing, eval)
  {
  }

  /** A node above depth 0 that is in progress folds its children one level down. */
  lemma MinimaxNode(p: Position, depth: nat, d: nat, maximizing: bool, eval: Position -> Score)
    requires p.state == InProgress && 1 <= depth && d == ChildDepth(depth)
    ensures Minimax(p, depth, maximizing, eval) ==
      if maximizing then MaxOf(Children(p, d, false, eval)) else MinOf(Children(p, d, true, eval))
  {
  }

  /** Every entry of `ValidColumns` is a valid column. */
  lemma ValidColumnSpec(b: nat, i: nat)
    requires i < |ValidColumns(b)|
    ensures ValidMove(b, ValidColumns(b)[i])
  {
    ValidColumnsSpec(b);
    assert ValidColumns(b)[i] in ValidColumns(b);
  }

  /**
   * A maximizing node is worth the best of its children: no child is worth
   * more, some child is worth as much, and a node without a valid column
   * keeps the starting value, minus infinity.
   */
  lemma MaxNodeSpec(p: Position, depth: nat, eval: Position -> Score)
    requires p.state == InProgress && 1 <= depth
    ensures forall a | a in ValidColumns(p.board) ::
      Le(Minimax(Play(p, a), ChildDepth(depth), false, eval), Minimax(p, depth, true, eval))
    ensures ValidColumns(p.board) != [] ==>
      exists a | a in ValidColumns(p.board) :: Minimax(Play(p, a), ChildDepth(depth), false, eval) == Minimax(p, depth, true, eval)
    ensures ValidColumns(p.board) == [] ==> Minimax(p, depth, true, eval) == NegInf
  {
    var d := ChildDepth(depth);
    var cols := ValidColumns(p.board);
    var mx := Children(p, d, false, eval);
    MinimaxNode(p, depth, d, true, eval);
    MaxOfSpec(mx);
    forall a | a in cols
      ensures Le(Minimax(Play(p, a), d, false, eval), MaxOf(mx))
    {
      var i :| 0 <= i < |cols| && cols[i] == a;
      ChildAt(p, d, false, eval, i, a);
    }
    if cols != [] {
      var i :| 0 <= i < |mx| && mx[i] == MaxOf(mx);
      ChildAt(p, d, false, eval, i, cols[i]);
      assert cols[i] in cols;
    }
  }

  /**
   * A minimizing node is worth the worst of its children: no child is worth
   * less, some child is worth as much, and a node without a valid column
   * keeps the starting value, plus infinity.
   */
  lemma MinNodeSpec(p: Position, depth: nat, eval: Position -> Score)
    requires p.state == InProgress && 1 <= depth
    ensures forall a | a in ValidColumns(p.board) ::
      Le(Minimax(p, depth, false, eval), Minimax(Play(p, a), ChildDepth(depth), true, eval))
    ensures ValidColumns(p.board) != [] ==>
      exists a | a in ValidColumns(p.board) :: Minimax(Play(p, a), ChildDepth(depth), true, eval) == Minimax(p, depth, false, eval)
    ensures ValidColumns(p.board) == [] ==> Minimax(p, depth, false, eval) == PosInf
  {
    var d := ChildDepth(depth);
    var cols := ValidColumns(p.board);
    var mn := Children(p, d, true, eval);
    MinimaxNode(p, depth, d, false, eval);
    MinOfSpec(mn);
    forall a | a in cols
      ensures Le(MinOf(mn), Minimax(Play(p, a), d, true, eval))
    {
      var i :| 0 <= i < |cols| && cols[i] == a;
      ChildAt(p, d, true, eval, i, a);
    }
    if cols != [] {
      var j :| 0 <= j < |mn| && mn[j] == MinOf(mn);
      ChildAt(p, d, true, eval, j, cols[j]);
      assert cols[j] in cols;
    }
  }

  // ---------------------------------------------------------------------------
  // The searches

  /** `board.clone()`: a fresh game with the same fields. */
  method CloneGame(g: Connect4) returns (c: Connect4)
    ensures fresh(c) && c.Snapshot() == g.Snapshot()
  {
    c := new Connect4();
    c.board, c.curPlayer, c.gameState := g.board, g.curPlayer, g.gameState;
  }

  /** Plays the `i`-th valid column on `g`, with the facts the searches need about the move. */
  method PlayChild(g: Connect4, p: Position, i: nat, a: nat)
    requires g.Snapshot() == p && Wellformed(p.board) && p.state == InProgress
    requires i < |ValidColumns(p.board)| && a == ValidColumns(p.board)[i]
    modifies g
    ensures g.Snapshot() == Play(p, a) && Wellformed(g.board)
    ensures a < BoardWidth && ValidMove(p.board, a)
  {
    ValidColumnSpec(p.board, i);
    BoardBoundCells(BoardCells);
    g.PlayAction(a);
    PlayKeepsWellformed(p, a);
  }

  /** Reverses column `a` on `g` after `PlayChild`, which gives back `p`. */
  method UndoChild(g: Connect4, p: Position, a: nat)
    requires Wellformed(p.board) && p.state == InProgress && a < BoardWidth && ValidMove(p.board, a)
    requires g.Snapshot() == Play(p, a) && Wellformed(g.board)
    modifies g
    ensures g.Snapshot() == p
  {
    BoardBoundCells(BoardCells);
    g.ReverseLastAction(a);
    ReverseUndoesPlay(p, a);
  }

  /** `_minimax(board, depth, ismaximizing, evaluator)`: the exact value, with the game restored. */
  method MinimaxSearch(g: Connect4, depth: nat, maximizing: bool, eval: Position -> Score) returns (v: Score)
    requires Wellformed(g.board)
    modifies g
    ensures g.Snapshot() == old(g.Snapshot())
    ensures v == Minimax(old(g.Snapshot()), depth, maximizing, eval)
    decreases depth
  {
    var p := g.Snapshot();
    if depth == 0 || g.gameState != InProgress {
      return eval(p);
    }
    var actions := g.LegalActions();
    var d := ChildDepth(depth);
    ghost var values := Children(p, d, !maximizing, eval);
    v := if maximizing then NegInf else PosInf;
    for i := 0 to |actions|
      invariant g.Snapshot() == p
      invariant v == if maximizing then MaxOf(values[..i]) else MinOf(values[..i])
    {
      PlayChild(g, p, i, actions[i]);
      var c := MinimaxSearch(g, d, !maximizing, eval);
      ChildAt(p, d, !maximizing, eval, i, actions[i]);
      if maximizing {
        MaxOfStep(values, i);
        v := Max(v, c);
      } else {
        MinOfStep(values, i);
        v := Min(v, c);
      }
      UndoChild(g, p, actions[i]);
    }
    assert values[..|actions|] == values;
    MinimaxNode(p, depth, d, maximizing, eval);
  }

  /** `minimax(board, depth, evaluator)`: the maximizing value, searched on a clone. */
  method MinimaxRoot(g: Connect4, depth: nat, eval: Position -> Score) returns (v: Score)
    requires Wellformed(g.board)
    ensures v == Minimax(g.Snapshot(), depth, true, eval)
  {
    var c := CloneGame(g);
    v := MinimaxSearch(c, depth, true, eval);
  }

  /**
   * `minimax_action(board, action, depth, evaluator)`: play the column,
   * take the minimizing value, reverse the column.  The game comes back
   * unchanged when the column was valid.
   */
  method MinimaxAction(g: Connect4, action: nat, depth: nat, eval: Position -> Score) returns (v: Score)
    requires Wellformed(g.board) && g.gameState == InProgress && action < BoardWidth
    modifies g
    ensures v == Minimax(Play(old(g.Snapshot()), action), depth, false, eval)
    ensures g.Snapshot() == Reverse(Play(old(g.Snapshot()), action), action)
    ensures ValidMove(old(g.board), action) ==> g.Snapshot() == old(g.Snapshot())
  {
    var p := g.Snapshot();
    BoardBoundCells(BoardCells);
    g.PlayAction(action);
    PlayKeepsWellformed(p, action);
    v := MinimaxSearch(g, depth, false, eval);
    g.ReverseLastAction(action);
    if ValidMove(p.board, action) {
      ReverseUndoesPlay(p, action);
    }
  }

  // ---------------------------------------------------------------------------
  // Alpha-beta

  /**
   * One step of a maximizing node: when the value so far `v` is below
   * `beta` and agrees with the exact prefix maximum `exact` once clamped,
   * and the child's result `r` agrees with its exact value `c` once
   * clamped into the raised window, the new maxima agree once clamped.
   */
  lemma MaxStep(v: Score, exact: Score, r: Score, c: Score, alpha: Score, beta: Score)
    requires Lt(v, beta)
    requires Clamp(v, alpha, beta) == Clamp(exact, alpha, beta)
    requires Clamp(r, Max(alpha, v), beta) == Clamp(c, Max(alpha, v), beta)
    ensures Clamp(Max(v, r), alpha, beta) == Clamp(Max(exact, c), alpha, beta)
  {
  }

  /** One step of a minimizing node, the mirror image of `MaxStep`. */
  lemma MinStep(v: Score, exact: Score, r: Score, c: Score, alpha: Score, beta: Score)
    requires Lt(alpha, v)
    requires Clamp(v, alpha, beta) == Clamp(exact, alpha, beta)
    requires Clamp(r, alpha, Min(beta, v)) == Clamp(c, alpha, Min(beta, v))
    ensures Clamp(Min(v, r), alpha, beta) == Clamp(Min(exact, c), alpha, beta)
  {
  }

  /** A maximizing node that reaches `beta` after `i` children is at or above `beta` whatever the rest are. */
  lemma MaxCut(values: seq<Score>, i: nat, v: Score, alpha: Score, beta: Score)
    requires i <= |values| && Le(beta, v)
    requires Clamp(v, alpha, beta) == Clamp(MaxOf(values[..i]), alpha, beta)
    ensures Clamp(v, alpha, beta) == Clamp(MaxOf(values), alpha, beta)
  {
    MaxOfPrefix(values, i);
  }

  /** A minimizing node that reaches `alpha` after `i` children is at or below `alpha` whatever the rest are. */
  lemma MinCut(values: seq<Score>, i: nat, v: Score, alpha: Score, beta: Score)
    requires i <= |values| && Le(v, alpha)
    requires Clamp(v, alpha, beta) == Clamp(MinOf(values[..i]), alpha, beta)
    ensures Clamp(v, alpha, beta) == Clamp(MinOf(values), alpha, beta)
  {
    MinOfPrefix(values, i);
  }

  /**
   * `_abpruning(board, alpha, beta, depth, ismaximizing, evaluator)`: a
   * fail-soft bound on the exact value for the window `(alpha, beta)`
   * (see `Scores.ClampFailSoft`), with the game restored.
   */
  method AlphaBeta(g: Connect4, alpha: Score, beta: Score, depth: nat, maximizing: bool, eval: Position -> Score)
    returns (v: Score)
    requires Wellformed(g.board) && Lt(alpha, beta)
    modifies g
    ensures g.Snapshot() == old(g.Snapshot())
    ensures Clamp(v, alpha, beta) == Clamp(Minimax(old(g.Snapshot()), depth, maximizing, eval), alpha, beta)
    decreases depth, 2
  {
    var p := g.Snapshot();
    if depth == 0 || g.gameState != InProgress {
      return eval(p);
    }
    var actions := g.LegalActions();
    var d := ChildDepth(depth);
    if maximizing {
      v := AlphaBetaMax(g, p, actions, alpha, beta, d, eval);
    } else {
      v := AlphaBetaMin(g, p, actions, alpha, beta, d, eval);
    }
    MinimaxNode(p, depth, d, maximizing, eval);
  }

  /**
   * The state of a maximizing loop after its first `i` columns: `a` is
   * `alpha` raised to the value `v`, `v` is still below `beta`, and within
   * the window `v` is the best of those children.
   */
  predicate MaxSoFar(values: seq<Score>, i: nat, v: Score, a: Score, alpha: Score, beta: Score)
  {
    i <= |values| && a == Max(alpha, v) && Lt(v, beta) && Clamp(v, alpha, beta) == Clamp(MaxOf(values[..i]), alpha, beta)
  }

  /** The mirror image for a minimizing loop: `b` is `beta` lowered to `v`, and `v` is still above `alpha`. */
  predicate MinSoFar(values: seq<Score>, i: nat, v: Score, b: Score, alpha: Score, beta: Score)
  {
    i <= |values| && b == Min(beta, v) && Lt(alpha, v) && Clamp(v, alpha, beta) == Clamp(MinOf(values[..i]), alpha, beta)
  }

  /** The loop of a maximizing `_abpruning` node: raise `alpha`, stop once the value reaches `beta`. */
  method AlphaBetaMax(g: Connect4, p: Position, actions: seq<nat>, alpha: Score, beta: Score, d: nat, eval: Position -> Score)
    returns (v: Score)
    requires g.Snapshot() == p && Wellformed(p.board) && p.state == InProgress
    requires actions == ValidColumns(p.board) && Lt(alpha, beta)
    modifies g
    ensures g.Snapshot() == p
    ensures Clamp(v, alpha, beta) == Clamp(MaxOf(Children(p, d, false, eval)), alpha, beta)
    decreases d + 1, 1
  {
    ghost var values := Children(p, d, false, eval);
    var a := alpha;
    v := NegInf;
    var i := 0;
    while i < |actions|
      invariant g.Snapshot() == p && MaxSoFar(values, i, v, a, alpha, beta)
    {
      var cut;
      v, a, cut := MaxChild(g, p, actions, i, v, a, alpha, beta, d, eval);
      if cut {
        return;
      }
      i := i + 1;
    }
    assert values[..i] == values;
  }

  /**
   * One pass of the maximizing loop: play the `i`-th column, search the
   * window `(a, beta)`, reverse, take the maximum, raise `a`, and report
   * whether the value reached `beta`.
   */
  method MaxChild(g: Connect4, p: Position, actions: seq<nat>, i: nat, v: Score, a: Score, alpha: Score, beta: Score,
                  d: nat, eval: Position -> Score) returns (v': Score, a': Score, cut: bool)
    requires g.Snapshot() == p && Wellformed(p.board) && p.state == InProgress
    requires actions == ValidColumns(p.board) && i < |actions| && Lt(alpha, beta)
    requires MaxSoFar(Children(p, d, false, eval), i, v, a, alpha, beta)
    modifies g
    ensures g.Snapshot() == p
    ensures cut ==> Clamp(v', alpha, beta) == Clamp(MaxOf(Children(p, d, false, eval)), alpha, beta)
    ensures !cut ==> MaxSoFar(Children(p, d, false, eval), i + 1, v', a', alpha, beta)
    decreases d + 1, 0
  {
    ghost var values := Children(p, d, false, eval);
    PlayChild(g, p, i, actions[i]);
    var c := AlphaBeta(g, a, beta, d, false, eval);
    ChildAt(p, d, false, eval, i, actions[i]);
    MaxStep(v, MaxOf(values[..i]), c, values[i], alpha, beta);
    MaxOfStep(values, i);
    v' := Max(v, c);
    UndoChild(g, p, actions[i]);
    a' := Max(a, v');
    cut := Le(beta, v');
    if cut {
      MaxCut(values, i + 1, v', alpha, beta);
    }
  }

  /** The loop of a minimizing `_abpruning` node: lower `beta`, stop once the value reaches `alpha`. */
  method AlphaBetaMin(g: Connect4, p: Position, actions: seq<nat>, alpha: Score, beta: Score, d: nat, eval: Position -> Score)
    returns (v: Score)
    requires g.Snapshot() == p && Wellformed(p.board) && p.state == InProgress
    requires actions == ValidColumns(p.board) && Lt(alpha, beta)
    modifies g
    ensures g.Snapshot() == p
    ensures Clamp(v, alpha, beta) == Clamp(MinOf(Children(p, d, true, eval)), alpha, beta)
    decreases d + 1, 1
  {
    ghost var values := Children(p, d, true, eval);
    var b := beta;
    v := PosInf;
    var i := 0;
    while i < |actions|
      invariant g.Snapshot() == p && MinSoFar(values, i, v, b, alpha, beta)
    {
      var cut;
      v, b, cut := MinChild(g, p, actions, i, v, b, alpha, beta, d, eval);
      if cut {
        return;
      }
      i := i + 1;
    }
    assert values[..i] == values;
  }

  /**
   * One pass of the minimizing loop: play the `i`-th column, search the
   * window `(alpha, b)`, reverse, take the minimum, lower `b`, and report
   * whether the value reached `alpha`.
   */
  method MinChild(g: Connect4, p: Position, actions: seq<nat>, i: nat, v: Score, b: Score, alpha: Score, beta: Score,
                  d: nat, eval: Position -> Score) returns (v': Score, b': Score, cut: bool)
    requires g.Snapshot() == p && Wellformed(p.board) && p.state == InProgress
    requires actions == ValidColumns(p.board) && i < |actions| && Lt(alpha, beta)
    requires MinSoFar(Children(p, d, true, eval), i, v, b, alpha, beta)
    modifies g
    ensures g.Snapshot() == p
    ensures cut ==> Clamp(v', alpha, beta) == Clamp(MinOf(Children(p, d, true, eval)), alpha, beta)
    ensures !cut ==> MinSoFar(Children(p, d, true, eval), i + 1, v', b', alpha, beta)
    decreases d + 1, 0
  {
    ghost var values := Children(p, d, true, eval);
    PlayChild(g, p, i, actions[i]);
    var c := AlphaBeta(g, alpha, b, d, true, eval);
    ChildAt(p, d, true, eval, i, actions[i]);
    MinStep(v, MinOf(values[..i]), c, values[i], alpha, beta);
    MinOfStep(values, i);
    v' := Min(v, c);
    UndoChild(g, p, actions[i]);
    b' := Min(b, v');
    cut := Le(v', alpha);
    if cut {
      MinCut(values, i + 1, v', alpha, beta);
    }
  }

  /** With the window (minus infinity, plus infinity) alpha-beta returns the exact minimax value. */
  lemma AlphaBetaFullWindow(g: Connect4, depth: nat, maximizing: bool, eval: Position -> Score, r: Score)
    requires Clamp(r, NegInf, PosInf) == Clamp(Minimax(g.Snapshot(), depth, maximizing, eval), NegInf, PosInf)
    ensures r == Minimax(g.Snapshot(), depth, maximizing, eval)
  {
    ClampFull(r);
    ClampFull(Minimax(g.Snapshot(), depth, maximizing, eval));
  }

  /**
   * `abpruning_action(board, action, depth, evaluator)`: play the column,
   * search the full window from the minimizing side, reverse the column.
   */
  method AlphaBetaAction(g: Connect4, action: nat, depth: nat, eval: Position -> Score) returns (v: Score)
    requires Wellformed(g.board) && g.gameState == InProgress && action < BoardWidth
    modifies g
    ensures v == Minimax(Play(old(g.Snapshot()), action), depth, false, eval)
    ensures g.Snapshot() == Reverse(Play(old(g.Snapshot()), action), action)
    ensures ValidMove(old(g.board), action) ==> g.Snapshot() == old(g.Snapshot())
  {
    var p := g.Snapshot();
    BoardBoundCells(BoardCells);
    g.PlayAction(action);
    PlayKeepsWellformed(p, action);
    v := AlphaBeta(g, NegInf, PosInf, depth, false, eval);
    AlphaBetaFullWindow(g, depth, false, eval, v);
    g.ReverseLastAction(action);
    if ValidMove(p.board, action) {
      ReverseUndoesPlay(p, action);
    }
  }

  /**
   * `abpruning_best_action(board, depth, evaluator)`: score every valid
   * column on a clone, then pick at random among those reaching the
   * maximum.  The source needs a valid column (the random range would be
   * empty) and `depth >= 1` (`depth - 1` is unsigned).
   */
  method BestAction(g: Connect4, depth: nat, eval: Position -> Score) returns (action: nat)
    requires Wellformed(g.board) && g.gameState == InProgress && 1 <= depth
    requires ValidColumns(g.board) != []
    ensures action in ValidColumns(g.board)
    ensures Minimax(Play(g.Snapshot(), action), ChildDepth(depth), false, eval) == Minimax(g.Snapshot(), depth, true, eval)
  {
    var d := ChildDepth(depth);
    var i;
    i, action := PickColumn(g, d, eval);
    BestChild(g.Snapshot(), depth, d, eval, i, action);
  }

  /** Score the valid columns on a clone and draw one of those reaching the maximum. */
  method PickColumn(g: Connect4, d: nat, eval: Position -> Score) returns (i: nat, action: nat)
    requires Wellformed(g.board) && g.gameState == InProgress && ValidColumns(g.board) != []
    ensures i < |Children(g.Snapshot(), d, false, eval)| && action == ValidColumns(g.board)[i]
    ensures Children(g.Snapshot(), d, false, eval)[i] == MaxOf(Children(g.Snapshot(), d, false, eval))
  {
    var actions, values := ScoreOnClone(g, d, eval);
    i := PickBest(values);
    action := actions[i];
  }

  /** The valid columns of `g` and their values at depth `d`, searched on a clone so that `g` is left alone. */
  method ScoreOnClone(g: Connect4, d: nat, eval: Position -> Score) returns (actions: seq<nat>, values: seq<Score>)
    requires Wellformed(g.board) && g.gameState == InProgress
    ensures actions == ValidColumns(g.board)
    ensures values == Children(g.Snapshot(), d, false, eval)
  {
    var c := CloneGame(g);
    actions := g.LegalActions();
    values := ActionValues(c, actions, d, eval);
  }

  /** A column whose child value is the largest one carries the value of the maximizing node. */
  lemma BestChild(p: Position, depth: nat, d: nat, eval: Position -> Score, i: nat, action: nat)
    requires p.state == InProgress && 1 <= depth && d == ChildDepth(depth)
    requires i < |Children(p, d, false, eval)| && action == ValidColumns(p.board)[i]
    requires Children(p, d, false, eval)[i] == MaxOf(Children(p, d, false, eval))
    ensures action in ValidColumns(p.board)
    ensures Minimax(Play(p, action), d, false, eval) == Minimax(p, depth, true, eval)
  {
    ChildAt(p, d, false, eval, i, action);
    MinimaxNode(p, depth, d, true, eval);
  }

  /** The maximum, the indices reaching it, and one of them drawn at random. */
  method PickBest(values: seq<Score>) returns (i: nat)
    requires values != []
    ensures i < |values| && values[i] == MaxOf(values)
  {
    var mx := MaxValue(values);
    var best := Reaching(values, mx);
    MaxOfSpec(values);
    var k :| 0 <= k < |values| && values[k] == mx;
    assert k in best;
    var pick :| 0 <= pick < |best|;
    i := best[pick];
  }

  /** The `abpruning_action` value of every valid column at depth `d`, in order: the children of a maximizing node. */
  method ActionValues(c: Connect4, actions: seq<nat>, d: nat, eval: Position -> Score) returns (values: seq<Score>)
    requires Wellformed(c.board) && c.gameState == InProgress
    requires actions == ValidColumns(c.board)
    modifies c
    ensures c.Snapshot() == old(c.Snapshot())
    ensures values == Children(old(c.Snapshot()), d, false, eval)
  {
    var p := c.Snapshot();
    ghost var children := Children(p, d, false, eval);
    values := [];
    for i := 0 to |actions|
      invariant c.Snapshot() == p && values == children[..i]
    {
      ValidColumnSpec(p.board, i);
      var v := AlphaBetaAction(c, actions[i], d, eval);
      ChildAt(p, d, false, eval, i, actions[i]);
      PrefixStep(children, i);
      values := values + [v];
    }
    assert children[..|actions|] == children;
  }

  lemma PrefixStep<T>(s: seq<T>, i: nat)
    requires i < |s|
    ensures s[..i + 1] == s[..i] + [s[i]]
  {
  }

  /** `avs.iter().map(..).fold(-1.0/0.0, f64::max)`. */
  method MaxValue(values: seq<Score>) returns (mx: Score)
    ensures mx == MaxOf(values)
  {
    mx := NegInf;
    for i := 0 to |values|
      invariant mx == MaxOf(values[..i])
    {
      MaxOfStep(values, i);
      mx := Max(mx, values[i]);
    }
    assert values[..|values|] == values;
  }

  /** The indices whose value equals `mx`, in order: `best_avs`. */
  method Reaching(values: seq<Score>, mx: Score) returns (best: seq<nat>)
    ensures forall j | 0 <= j < |best| :: best[j] < |values| && values[best[j]] == mx
    ensures forall j | 0 <= j < |values| :: values[j] == mx <==> j in best
  {
    best := [];
    for i := 0 to |values|
      invariant forall j | 0 <= j < |best| :: best[j] < i && values[best[j]] == mx
      invariant forall j | 0 <= j < i :: values[j] == mx <==> j in best
    {
      if values[i] == mx {
        best := best + [i];
      }
    }
  }
}

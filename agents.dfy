/**
 * The agents that pick a column on a Connect Four game.  `MinimaxAgent`
 * returns the alpha-beta search's best column; `MinimaxPolicyAgent` plays
 * every valid column on a clone, scores it with the negamax search, takes a
 * winning column when there is one, never takes a losing column while
 * another is open, and lets its policy pick among the open ones.
 *
 * `BatchMinimaxAgent` returns what the batched negamax search picks.  That
 * search is not part of this model: an agent carries it as a function, from
 * the position, the depth and the player to the column (or, for the policy
 * agent, to that player's score).
 */
module Agents {
  import opened Games
  import opened Scores
  import opened Connect4Game
  import Search
  import opened Policies

  // ---------------------------------------------------------------------------
  // `MinimaxAgent`

  /** `MinimaxAgent { evaluator, depth }`. */
  datatype MinimaxAgent = MinimaxAgent(eval: Position -> Score, depth: nat)

  /**
   * `get_action`: the column `abpruning_best_action` returns, a valid one
   * whose subtree carries the minimax value of the game.
   */
  method MinimaxAgentAction(agent: MinimaxAgent, g: Connect4, player: Player) returns (action: nat)
    requires Wellformed(g.board) && g.gameState == InProgress && 1 <= agent.depth
    requires ValidColumns(g.board) != []
    ensures action in ValidColumns(g.board)
    ensures Search.Minimax(Play(g.Snapshot(), action), Search.ChildDepth(agent.depth), false, agent.eval)
         == Search.Minimax(g.Snapshot(), agent.depth, true, agent.eval)
  {
    action := Search.BestAction(g, agent.depth, agent.eval);
  }

  // ---------------------------------------------------------------------------
  // `BatchMinimaxAgent`

  /**
   * `BatchMinimaxAgent { evaluator, depth, batch_depth }`;
   * `bestAction(p, depth, pl)` is `batch_negamax_best_action(p, depth, evaluator, pl)`.
   */
  datatype BatchMinimaxAgent = BatchMinimaxAgent(
    bestAction: (Position, nat, Player) -> nat,
    depth: nat,
    batchDepth: nat)

  /** `BatchMinimaxAgent::new`: the three fields as given. */
  function NewBatchAgent(bestAction: (Position, nat, Player) -> nat, depth: nat, batchDepth: nat): (r: BatchMinimaxAgent)
    ensures r.bestAction == bestAction && r.depth == depth && r.batchDepth == batchDepth
  {
    BatchMinimaxAgent(bestAction, depth, batchDepth)
  }

  /**
   * `get_action`: exactly the column the batched search picks at the full
   * search depth for the player; the batch depth is not passed on, and the
   * game is left as it was.
   */
  method BatchAgentAction(agent: BatchMinimaxAgent, g: Connect4, player: Player) returns (action: nat)
    ensures action == agent.bestAction(g.Snapshot(), agent.depth, player)
  {
    action := agent.bestAction(g.Snapshot(), agent.depth, player);
  }

  // ---------------------------------------------------------------------------
  // `MinimaxPolicyAgent`

  /**
   * `MinimaxPolicyAgent { evaluator, policy, depth, batch_depth }`;
   * `negamax(q, d, pl)` is `batch_negamax(q, d, evaluator, pl)`.
   */
  datatype MinimaxPolicyAgent = MinimaxPolicyAgent(
    negamax: (Position, nat, Player) -> Score,
    policy: Policy,
    depth: nat,
    batchDepth: nat)

  /** `MinimaxPolicyAgent::new`: the batch depth starts out equal to the search depth. */
  function NewPolicyAgent(negamax: (Position, nat, Player) -> Score, policy: Policy, depth: nat): (r: MinimaxPolicyAgent)
    ensures r.batchDepth == r.depth == depth
    ensures r.negamax == negamax && r.policy == policy
  {
    MinimaxPolicyAgent(negamax, policy, depth, depth)
  }

  /** The position `p` can be searched from: unfinished, with depth left for `depth - 1`. */
  predicate Searchable(agent: MinimaxPolicyAgent, p: Position)
  {
    p.state == InProgress && 1 <= agent.depth
  }

  /** `-batch_negamax(..)` after playing `a`: the value of column `a` for `player`. */
  function MoveValue(agent: MinimaxPolicyAgent, p: Position, player: Player, a: nat): Score
    requires Searchable(agent, p) && a < BoardWidth
  {
    var d: nat := agent.depth - 1;
    Neg(agent.negamax(Play(p, a), d, Not(player)))
  }

  predicate Columns(actions: seq<nat>)
  {
    forall i | 0 <= i < |actions| :: actions[i] < BoardWidth
  }

  /** `winning_moves`: the columns of `actions` worth plus infinity, in order. */
  function Winning(agent: MinimaxPolicyAgent, p: Position, player: Player, actions: seq<nat>): seq<nat>
    requires Searchable(agent, p) && Columns(actions)
  {
    if |actions| == 0 then []
    else
      var n := |actions| - 1;
      Winning(agent, p, player, actions[..n]) +
        (if MoveValue(agent, p, player, actions[n]) == PosInf then [actions[n]] else [])
  }

  /** `avs`: the columns of `actions` worth neither infinity, with their values, in order. */
  function Open(agent: MinimaxPolicyAgent, p: Position, player: Player, actions: seq<nat>): seq<(nat, Score)>
    requires Searchable(agent, p) && Columns(actions)
  {
    if |actions| == 0 then []
    else
      var n := |actions| - 1;
      var v := MoveValue(agent, p, player, actions[n]);
      Open(agent, p, player, actions[..n]) + (if v != PosInf && v != NegInf then [(actions[n], v)] else [])
  }

  /** `vals`: the values of the open columns. */
  function Values(avs: seq<(nat, Score)>): (r: seq<Score>)
    ensures |r| == |avs|
  {
    seq(|avs|, j requires 0 <= j < |avs| => avs[j].1)
  }

  /** A column is winning exactly when it is one of `actions` worth plus infinity. */
  lemma {:induction false} WinningSpec(agent: MinimaxPolicyAgent, p: Position, player: Player, actions: seq<nat>)
    requires Searchable(agent, p) && Columns(actions)
    ensures forall a :: a in Winning(agent, p, player, actions) <==>
                        a in actions && a < BoardWidth && MoveValue(agent, p, player, a) == PosInf
  {
    if |actions| > 0 {
      var n := |actions| - 1;
      WinningSpec(agent, p, player, actions[..n]);
      assert actions == actions[..n] + [actions[n]];
    }
  }

  /** Each open column is one of `actions`, listed with its own value, which is neither infinity. */
  lemma {:induction false} OpenSound(agent: MinimaxPolicyAgent, p: Position, player: Player, actions: seq<nat>)
    requires Searchable(agent, p) && Columns(actions)
    ensures forall j | 0 <= j < |Open(agent, p, player, actions)| ::
              var (a, v) := Open(agent, p, player, actions)[j];
              a in actions && a < BoardWidth && v == MoveValue(agent, p, player, a) && v != PosInf && v != NegInf
  {
    if |actions| > 0 {
      var n := |actions| - 1;
      OpenSound(agent, p, player, actions[..n]);
      assert actions == actions[..n] + [actions[n]];
    }
  }

  /** Every column of `actions` worth neither infinity is listed among the open ones, with its value. */
  lemma {:induction false} OpenComplete(agent: MinimaxPolicyAgent, p: Position, player: Player, actions: seq<nat>, i: nat)
    requires Searchable(agent, p) && Columns(actions) && i < |actions|
    requires MoveValue(agent, p, player, actions[i]) != PosInf && MoveValue(agent, p, player, actions[i]) != NegInf
    ensures (actions[i], MoveValue(agent, p, player, actions[i])) in Open(agent, p, player, actions)
  {
    var n := |actions| - 1;
    if i < n {
      assert actions[..n][i] == actions[i];
      OpenComplete(agent, p, player, actions[..n], i);
    }
  }

  /**
   * What `get_action` returns, given its random draws: a winning column when
   * there is one (`pick` indexes `winning_moves`), otherwise the open column
   * the policy's index names (`u` and `draw` are the policy's draws),
   * otherwise any valid column (`pick` indexes the valid columns).
   */
  ghost predicate ChoiceOf(agent: MinimaxPolicyAgent, p: Position, player: Player, action: nat)
    requires Searchable(agent, p)
  {
    var actions := ValidColumns(p.board);
    var winning := Winning(agent, p, player, actions);
    var avs := Open(agent, p, player, actions);
    if winning != [] then exists pick | 0 <= pick < |winning| :: action == winning[pick]
    else if avs != [] then
      exists u: real, draw: nat | Draws(agent.policy, Values(avs), u, draw) ::
        action == avs[Choose(agent.policy, Values(avs), u, draw)].0
    else exists pick | 0 <= pick < |actions| :: action == actions[pick]
  }

  /**
   * `get_action(board, player)`: score every valid column on a clone of the
   * game, then draw among the winning columns, let the policy choose among
   * the open ones, or draw any valid column.  The source needs a valid
   * column (the last random range would be empty) and `depth >= 1`
   * (`depth - 1` is unsigned).
   */
  method PolicyAgentAction(agent: MinimaxPolicyAgent, g: Connect4, player: Player) returns (action: nat)
    requires Wellformed(g.board) && Searchable(agent, g.Snapshot())
    requires ValidColumns(g.board) != []
    ensures ChoiceOf(agent, g.Snapshot(), player, action)
  {
    var p := g.Snapshot();
    var c := Search.CloneGame(g);
    var actions := c.LegalActions();
    var winning, avs := ScoreColumns(agent, c, player, actions);
    if |winning| != 0 {
      var pick :| 0 <= pick < |winning|;
      action := winning[pick];
    } else if |avs| != 0 {
      var vals := Values(avs);
      DrawsExist(agent.policy, vals);
      var u: real, draw: nat :| Draws(agent.policy, vals, u, draw);
      var i := Choose(agent.policy, vals, u, draw);
      action := avs[i].0;
    } else {
      var pick :| 0 <= pick < |actions|;
      action := actions[pick];
    }
  }

  /** The loop of `get_action`: play, score and reverse every column in turn on the clone `c`. */
  method ScoreColumns(agent: MinimaxPolicyAgent, c: Connect4, player: Player, actions: seq<nat>)
    returns (winning: seq<nat>, avs: seq<(nat, Score)>)
    requires Wellformed(c.board) && Searchable(agent, c.Snapshot())
    requires actions == ValidColumns(c.board)
    modifies c
    ensures c.Snapshot() == old(c.Snapshot())
    ensures winning == Winning(agent, old(c.Snapshot()), player, actions)
    ensures avs == Open(agent, old(c.Snapshot()), player, actions)
  {
    var p := c.Snapshot();
    var d: nat := agent.depth - 1;
    winning, avs := [], [];
    for i := 0 to |actions|
      invariant c.Snapshot() == p
      invariant winning == Winning(agent, p, player, actions[..i])
      invariant avs == Open(agent, p, player, actions[..i])
    {
      var v := ScoreColumn(agent, c, p, player, actions, i, d);
      FilterStep(agent, p, player, actions, i);
      if v == PosInf {
        winning := winning + [actions[i]];
      } else if v != NegInf {
        avs := avs + [(actions[i], v)];
      }
    }
    assert actions[..|actions|] == actions;
  }

  /** One turn of the loop: play the `i`-th column, score it, reverse it. */
  method ScoreColumn(agent: MinimaxPolicyAgent, c: Connect4, p: Position, player: Player, actions: seq<nat>, i: nat, d: nat)
    returns (v: Score)
    requires Wellformed(p.board) && Searchable(agent, p) && c.Snapshot() == p
    requires actions == ValidColumns(p.board) && i < |actions| && d == agent.depth - 1
    modifies c
    ensures c.Snapshot() == p
    ensures actions[i] < BoardWidth && v == MoveValue(agent, p, player, actions[i])
  {
    var a := actions[i];
    Search.PlayChild(c, p, i, a);
    var q := c.Snapshot();
    v := Neg(agent.negamax(q, d, Not(player)));
    Search.UndoChild(c, p, a);
    assert q == Play(p, a);
    MoveValueAfter(agent, p, player, a, q, d);
  }

  lemma MoveValueAfter(agent: MinimaxPolicyAgent, p: Position, player: Player, a: nat, q: Position, d: nat)
    requires Searchable(agent, p) && a < BoardWidth && q == Play(p, a) && d == agent.depth - 1
    ensures MoveValue(agent, p, player, a) == Neg(agent.negamax(q, d, Not(player)))
  {
  }

  /** Both filters grow by at most the next column. */
  lemma FilterStep(agent: MinimaxPolicyAgent, p: Position, player: Player, actions: seq<nat>, i: nat)
    requires Searchable(agent, p) && Columns(actions) && i < |actions|
    ensures var v := MoveValue(agent, p, player, actions[i]);
      && Winning(agent, p, player, actions[..i + 1]) ==
         Winning(agent, p, player, actions[..i]) + (if v == PosInf then [actions[i]] else [])
      && Open(agent, p, player, actions[..i + 1]) ==
         Open(agent, p, player, actions[..i]) + (if v != PosInf && v != NegInf then [(actions[i], v)] else [])
  {
    assert actions[..i + 1][..i] == actions[..i];
  }

  /**
   * The guarantees the source's comment gives: a winning column is always
   * taken when there is one, a losing column only when every column loses,
   * and the chosen column is always a valid one.  Under the greedy policy an
   * open choice has the largest open value.
   */
  lemma ChoiceSpec(agent: MinimaxPolicyAgent, p: Position, player: Player, action: nat)
    requires Searchable(agent, p) && ChoiceOf(agent, p, player, action)
    ensures action in ValidColumns(p.board)
    ensures (exists a | a in ValidColumns(p.board) :: MoveValue(agent, p, player, a) == PosInf) ==>
              MoveValue(agent, p, player, action) == PosInf
    ensures MoveValue(agent, p, player, action) == NegInf ==>
              forall a | a in ValidColumns(p.board) :: MoveValue(agent, p, player, a) == NegInf
    ensures agent.policy.Greedy? && MoveValue(agent, p, player, action) != PosInf && MoveValue(agent, p, player, action) != NegInf ==>
              MoveValue(agent, p, player, action) == MaxOf(Values(Open(agent, p, player, ValidColumns(p.board))))
  {
    var actions := ValidColumns(p.board);
    var winning := Winning(agent, p, player, actions);
    var avs := Open(agent, p, player, actions);
    WinningSpec(agent, p, player, actions);
    OpenSound(agent, p, player, actions);
    if winning != [] {
      var pick :| 0 <= pick < |winning| && action == winning[pick];
      assert winning[pick] in winning;
    } else if avs != [] {
      var u: real, draw: nat :| Draws(agent.policy, Values(avs), u, draw) && action == avs[Choose(agent.policy, Values(avs), u, draw)].0;
      var i := Choose(agent.policy, Values(avs), u, draw);
      ChooseGreedy(agent.policy, Values(avs), u, draw);
      forall a | a in actions
        ensures MoveValue(agent, p, player, a) != PosInf
      {
        assert a !in winning;
      }
    } else {
      var pick :| 0 <= pick < |actions| && action == actions[pick];
      forall a | a in actions
        ensures MoveValue(agent, p, player, a) == NegInf
      {
        assert a !in winning;
        var k :| 0 <= k < |actions| && actions[k] == a;
        if MoveValue(agent, p, player, a) != NegInf {
          OpenComplete(agent, p, player, actions, k);
        }
      }
    }
  }
}

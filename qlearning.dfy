/**
 * The Q-learning trainer: an evaluator to train, an exploration policy, a
 * step size and the player it learns for.  Its update keeps, in order, the
 * positions of a game where that player was to move, and then walks over
 * consecutive pairs of them computing a gradient and a target that it does
 * not use yet, so nothing about the trainer changes.
 */
module QLearning {
  import opened Games
  import opened Connect4Game
  import Policies

  /** The positions of `hist` where `player` is to move, in their order in `hist`. */
  function Mine(hist: seq<Position>, player: Player): (r: seq<Position>)
    ensures |r| <= |hist|
  {
    if |hist| == 0 then []
    else
      var n := |hist| - 1;
      Mine(hist[..n], player) + (if hist[n].cur == player then [hist[n]] else [])
  }

  /** A position is kept exactly when it is in the history with `player` to move. */
  lemma {:induction false} MineSpec(hist: seq<Position>, player: Player)
    ensures forall q :: q in Mine(hist, player) <==> q in hist && q.cur == player
  {
    if |hist| > 0 {
      var n := |hist| - 1;
      MineSpec(hist[..n], player);
      assert hist == hist[..n] + [hist[n]];
    }
  }

  /** The filter keeps the order: filtering a concatenation concatenates the filtered parts. */
  lemma {:induction false} MineAppend(a: seq<Position>, b: seq<Position>, player: Player)
    ensures Mine(a + b, player) == Mine(a, player) + Mine(b, player)
  {
    if |b| > 0 {
      var n := |b| - 1;
      assert (a + b)[..|a| + n] == a + b[..n];
      MineAppend(a, b[..n], player);
    } else {
      assert a + b == a;
    }
  }

  /** Some position is kept exactly when some position of the history has `player` to move. */
  lemma MineNonempty(hist: seq<Position>, player: Player)
    ensures |Mine(hist, player)| > 0 <==> exists k | 0 <= k < |hist| :: hist[k].cur == player
  {
    MineSpec(hist, player);
    if exists k | 0 <= k < |hist| :: hist[k].cur == player {
      var k :| 0 <= k < |hist| && hist[k].cur == player;
      assert hist[k] in Mine(hist, player);
    } else if |Mine(hist, player)| > 0 {
      assert Mine(hist, player)[0] in Mine(hist, player);
    }
  }

  /** `QLearning<T, P>` with the policy one of the two of this model. */
  class QLearner<T> {
    var evaluator: T
    var explorationPolicy: Policies.Policy
    var stepSize: real
    var player: Player

    /** `new(evaluator, exploration_policy, step_size, player)`: the four fields as given. */
    constructor (evaluator: T, explorationPolicy: Policies.Policy, stepSize: real, player: Player)
      ensures this.evaluator == evaluator && this.explorationPolicy == explorationPolicy
      ensures this.stepSize == stepSize && this.player == player
    {
      this.evaluator := evaluator;
      this.explorationPolicy := explorationPolicy;
      this.stepSize := stepSize;
      this.player := player;
    }

    /**
     * `update(game_hist)`: the positions where the learner's player is to
     * move (the local `states`, returned here), then one gradient and one
     * target per consecutive pair.  The source needs at least one such
     * position, since `states.len() - 1` is unsigned.  Nothing is written.
     */
    method Update(gameHist: seq<Position>, gradient: Position -> seq<real>, value: Position -> real)
      returns (states: seq<Position>)
      requires exists k | 0 <= k < |gameHist| :: gameHist[k].cur == player
      ensures states == Mine(gameHist, player)
      ensures 0 < |states| <= |gameHist|
    {
      states := [];
      for k := 0 to |gameHist|
        invariant states == Mine(gameHist[..k], player)
      {
        assert gameHist[..k + 1][..k] == gameHist[..k];
        if gameHist[k].cur == player {
          states := states + [gameHist[k]];
        }
      }
      assert gameHist[..|gameHist|] == gameHist;
      MineNonempty(gameHist, player);
      for i := 0 to |states| - 1 {
        var grad := gradient(states[i]);
        var target := value(states[i + 1]);
      }
    }
  }
}

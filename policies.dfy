/**
 * The two exploration policies: each turns a list of action values into the
 * index of the action to take.  The random draws of the source are the
 * parameters `draw` (an index into the range the source draws from) and `u`
 * (the `f32` drawn from `[0, 1)`).
 */
module Policies {
  import opened Scores

  /** `Greedy {}` and `EpsilonGreedy { epsilon }`. */
  datatype Policy = Greedy | EpsilonGreedy(epsilon: real)

  /** The indices of `values` holding `mx`, in increasing order: `best_actions`. */
  function Best(values: seq<Score>, mx: Score): (r: seq<nat>)
    ensures forall j | 0 <= j < |r| :: r[j] < |values| && values[r[j]] == mx
  {
    if |values| == 0 then []
    else
      var n := |values| - 1;
      Best(values[..n], mx) + (if values[n] == mx then [n] else [])
  }

  /** Every index holding `mx` is listed, and the list is increasing. */
  lemma {:induction false} BestSpec(values: seq<Score>, mx: Score)
    ensures forall i | 0 <= i < |values| :: values[i] == mx <==> i in Best(values, mx)
    ensures forall j, k | 0 <= j < k < |Best(values, mx)| :: Best(values, mx)[j] < Best(values, mx)[k]
  {
    if |values| > 0 {
      var n := |values| - 1;
      BestSpec(values[..n], mx);
      assert forall i | 0 <= i < n :: values[..n][i] == values[i];
    }
  }

  /**
   * `Greedy::choose`: the maximum folded from minus infinity, the indices
   * reaching it, and the one the random draw `draw` names.
   */
  function GreedyChoose(values: seq<Score>, draw: nat): nat
    requires draw < |Best(values, MaxOf(values))|
  {
    Best(values, MaxOf(values))[draw]
  }

  /** The greedy choice is an index of a largest value. */
  lemma GreedySpec(values: seq<Score>, draw: nat)
    requires draw < |Best(values, MaxOf(values))|
    ensures GreedyChoose(values, draw) < |values|
    ensures values[GreedyChoose(values, draw)] == MaxOf(values)
    ensures forall j | 0 <= j < |values| :: Le(values[j], values[GreedyChoose(values, draw)])
  {
    MaxOfSpec(values);
  }

  /** The random range is empty, so the source panics, exactly when there are no values. */
  lemma GreedyDefined(values: seq<Score>)
    ensures |Best(values, MaxOf(values))| > 0 <==> |values| > 0
  {
    MaxOfSpec(values);
    BestSpec(values, MaxOf(values));
    if |values| > 0 {
      var k :| 0 <= k < |values| && values[k] == MaxOf(values);
      assert k in Best(values, MaxOf(values));
    }
  }

  /** Every index of a largest value is chosen by some draw. */
  lemma GreedyComplete(values: seq<Score>, i: nat)
    requires i < |values| && values[i] == MaxOf(values)
    ensures exists draw: nat | draw < |Best(values, MaxOf(values))| :: GreedyChoose(values, draw) == i
  {
    BestSpec(values, MaxOf(values));
    var best := Best(values, MaxOf(values));
    var draw :| 0 <= draw < |best| && best[draw] == i;
    assert GreedyChoose(values, draw) == i;
  }

  /**
   * `iter().enumerate().max_by(..)`: the fold keeps the later of two equal
   * values, so this is the last index of a largest value.
   */
  function LastArgMax(values: seq<Score>): (r: nat)
    requires |values| > 0
    ensures r < |values|
  {
    if |values| == 1 then 0
    else
      var n := |values| - 1;
      var b := LastArgMax(values[..n]);
      if Le(values[b], values[n]) then n else b
  }

  /** `max_by` gives a largest value, and every later value is strictly smaller. */
  lemma {:induction false} LastArgMaxSpec(values: seq<Score>)
    requires |values| > 0
    ensures values[LastArgMax(values)] == MaxOf(values)
    ensures forall j | 0 <= j < |values| :: Le(values[j], values[LastArgMax(values)])
    ensures forall j | LastArgMax(values) < j < |values| :: Lt(values[j], values[LastArgMax(values)])
  {
    var n := |values| - 1;
    if n > 0 {
      var t := values[..n];
      LastArgMaxSpec(t);
      assert forall j | 0 <= j < n :: t[j] == values[j];
      assert values[..n] == t;
    }
  }

  /**
   * `EpsilonGreedy::choose`: with probability epsilon (`u < epsilon`) the
   * index the random draw `draw` names, otherwise the last largest value.
   * Both branches panic on an empty list.
   */
  function EpsilonGreedyChoose(epsilon: real, values: seq<Score>, u: real, draw: nat): nat
    requires |values| > 0 && draw < |values|
  {
    if u < epsilon then draw else LastArgMax(values)
  }

  /** Both branches give an index of the list; the exploiting one the last largest value. */
  lemma EpsilonGreedySpec(epsilon: real, values: seq<Score>, u: real, draw: nat)
    requires |values| > 0 && draw < |values|
    ensures EpsilonGreedyChoose(epsilon, values, u, draw) < |values|
    ensures u >= epsilon ==> EpsilonGreedyChoose(epsilon, values, u, draw) == LastArgMax(values)
    ensures u >= epsilon ==> values[EpsilonGreedyChoose(epsilon, values, u, draw)] == MaxOf(values)
    ensures u < epsilon ==> EpsilonGreedyChoose(epsilon, values, u, draw) == draw
  {
    LastArgMaxSpec(values);
  }

  /**
   * The draw lies in `[0, 1)`: an epsilon of zero or less always exploits,
   * and an epsilon of one or more always explores.
   */
  lemma EpsilonExtremes(epsilon: real, values: seq<Score>, u: real, draw: nat)
    requires |values| > 0 && draw < |values| && 0.0 <= u < 1.0
    ensures epsilon <= 0.0 ==> values[EpsilonGreedyChoose(epsilon, values, u, draw)] == MaxOf(values)
    ensures 1.0 <= epsilon ==> EpsilonGreedyChoose(epsilon, values, u, draw) == draw
  {
    LastArgMaxSpec(values);
  }

  /** The draws each policy makes: the `f32` and the index range it is drawn from. */
  predicate Draws(policy: Policy, values: seq<Score>, u: real, draw: nat)
  {
    && 0.0 <= u < 1.0
    && match policy
       case Greedy => draw < |Best(values, MaxOf(values))|
       case EpsilonGreedy(_) => |values| > 0 && draw < |values|
  }

  /** `policy.choose(values)`. */
  function Choose(policy: Policy, values: seq<Score>, u: real, draw: nat): (i: nat)
    requires Draws(policy, values, u, draw)
    ensures i < |values|
  {
    match policy
    case Greedy => GreedyChoose(values, draw)
    case EpsilonGreedy(epsilon) => EpsilonGreedyChoose(epsilon, values, u, draw)
  }

  /** The greedy policy picks a largest value whatever its draw. */
  lemma ChooseGreedy(policy: Policy, values: seq<Score>, u: real, draw: nat)
    requires Draws(policy, values, u, draw)
    ensures policy.Greedy? ==> values[Choose(policy, values, u, draw)] == MaxOf(values)
  {
    if policy.Greedy? {
      GreedySpec(values, draw);
    }
  }

  /** Every nonempty list admits draws for every policy. */
  lemma DrawsExist(policy: Policy, values: seq<Score>)
    requires |values| > 0
    ensures Draws(policy, values, 0.0, 0)
  {
    GreedyDefined(values);
  }
}

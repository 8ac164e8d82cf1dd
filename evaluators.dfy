/**
 * The evaluators of the two packed games: the simple evaluator every game
 * shares, and the two enums that dispatch each evaluator operation to the
 * evaluator they hold.  The convolutional evaluator is not part of this
 * model, so the Connect Four enum has only the simple, lines and
 * consecutive-pieces variants.
 */
module Evaluators {
  import opened Games
  import opened Scores
  import Connect4Game
  import Stack4Game
  import LinesEvaluator
  import opened ConsequtiveEvaluator

  // ---------------------------------------------------------------------------
  // `SimpleEval`

  /**
   * `SimpleEval::value` for a game in state `state` whose board reports
   * `length`: plus or minus one over the length on a win or a loss (an
   * infinity when the length is zero), zero otherwise.
   */
  function SimpleValue(state: GameState, player: Player, length: nat): (r: Score)
    ensures r == Fin(0.0) <==> !state.Won?
    ensures r.Fin? <==> !state.Won? || length > 0
  {
    match state
    case Won(w) =>
      if length == 0 then (if w == player then PosInf else NegInf)
      else Fin(if w == player then 1.0 / length as real else -1.0 / length as real)
    case Draw => Fin(0.0)
    case InProgress => Fin(0.0)
  }

  /**
   * A win is worth more than anything unfinished and a loss less, by at
   * most one; the value for one player is the negation of the value for
   * the other.
   */
  lemma SimpleValueSpec(state: GameState, player: Player, length: nat)
    ensures state == Won(player) ==> Lt(Fin(0.0), SimpleValue(state, player, length))
    ensures state == Won(player) && length > 0 ==> SimpleValue(state, player, length).v <= 1.0
    ensures state == Won(Not(player)) ==> Lt(SimpleValue(state, player, length), Fin(0.0))
    ensures state == Won(Not(player)) && length > 0 ==> SimpleValue(state, player, length).v >= -1.0
    ensures !state.Won? ==> SimpleValue(state, player, length) == Fin(0.0)
    ensures SimpleValue(state, Not(player), length) == Neg(SimpleValue(state, player, length))
  {
    NotInvolution(player);
    if state.Won? && length > 0 {
      assert 1.0 / length as real <= 1.0;
    }
  }

  /** `f` applied to each element of `xs`, in order: what the default `values` loop collects. */
  function Map<T, U>(f: T -> U, xs: seq<T>): (r: seq<U>)
    ensures |r| == |xs|
  {
    if |xs| == 0 then [] else Map(f, xs[..|xs| - 1]) + [f(xs[|xs| - 1])]
  }

  /** Element `k` of the mapped list is `f` of element `k`. */
  lemma {:induction false} MapAt<T, U>(f: T -> U, xs: seq<T>)
    ensures forall k | 0 <= k < |xs| :: Map(f, xs)[k] == f(xs[k])
  {
    if |xs| > 0 {
      var n := |xs| - 1;
      MapAt(f, xs[..n]);
      assert forall k | 0 <= k < n :: xs[..n][k] == xs[k];
    }
  }

  /** The trait's default `values` loop: `value` of each board, pushed in order. */
  method Values<T>(value: T -> Score, boards: seq<T>) returns (vs: seq<Score>)
    ensures vs == Map(value, boards)
  {
    vs := [];
    for i := 0 to |boards|
      invariant vs == Map(value, boards[..i])
    {
      assert boards[..i + 1][..i] == boards[..i];
      vs := vs + [value(boards[i])];
    }
    assert boards[..|boards|] == boards;
  }

  // ---------------------------------------------------------------------------
  // `Connect4Evaluators`

  /** `Connect4Evaluators` without the convolutional variant. */
  datatype Connect4Evaluator =
    | Simple
    | Lines(lines: LinesEvaluator.LinesEval)
    | Consequtive(cons: ConsequtiveEval)

  /** The objects whose fields the value of `e` depends on. */
  function Footprint4(e: Connect4Evaluator): set<object>
  {
    if e.Consequtive? then {e.cons} else {}
  }

  /**
   * What `value` returns: the held evaluator's value; `length` is the
   * length the board reports to the simple evaluator and `sat` the
   * saturating map of the features.
   */
  function Connect4Value(e: Connect4Evaluator, p: Connect4Game.Position, player: Player, length: nat, sat: nat -> real): Score
    reads Footprint4(e)
  {
    Connect4Score(e, Weights4(e), p, player, length, sat)
  }

  /** The weights the value of `e` depends on: those of the consecutive evaluator, none for the others. */
  function Weights4(e: Connect4Evaluator): seq<real>
    reads Footprint4(e)
  {
    if e.Consequtive? then e.cons.params else []
  }

  /** The value of `e` with `w` as the consecutive evaluator's weights. */
  function Connect4Score(e: Connect4Evaluator, w: seq<real>, p: Connect4Game.Position, player: Player, length: nat, sat: nat -> real): Score
  {
    if e.Simple? then SimpleValue(p.state, player, length)
    else if e.Lines? then LinesEvaluator.Value(p, player)
    else ValueOf(p.state, player, Connect4Features(p.board, player, sat), w)
  }

  /** Every evaluator of the enum meets the interface: plus infinity on a win for the lines and consecutive evaluators, a positive value for the simple one. */
  lemma Connect4ValueWins(e: Connect4Evaluator, p: Connect4Game.Position, player: Player, length: nat, sat: nat -> real)
    requires p.state == Won(player)
    ensures Lt(Fin(0.0), Connect4Value(e, p, player, length, sat))
    ensures !e.Simple? ==> Connect4Value(e, p, player, length, sat) == PosInf
  {
    SimpleValueSpec(p.state, player, length);
    LinesEvaluator.ValueSpec(p, player);
  }

  /** The mirror image for a loss. */
  lemma Connect4ValueLosses(e: Connect4Evaluator, p: Connect4Game.Position, player: Player, length: nat, sat: nat -> real)
    requires p.state == Won(Not(player))
    ensures Lt(Connect4Value(e, p, player, length, sat), Fin(0.0))
    ensures !e.Simple? ==> Connect4Value(e, p, player, length, sat) == NegInf
  {
    SimpleValueSpec(p.state, player, length);
    LinesEvaluator.ValueSpec(p, player);
  }

  /** `value(board, player)`. */
  method Connect4EvalValue(e: Connect4Evaluator, p: Connect4Game.Position, player: Player, length: nat, sat: nat -> real)
    returns (v: Score)
    ensures v == Connect4Value(e, p, player, length, sat)
  {
    if e.Simple? {
      v := SimpleValue(p.state, player, length);
    } else if e.Lines? {
      v := LinesEvaluator.Evaluate(p, player);
    } else {
      v := e.cons.ValueConnect4(p, player, sat);
    }
  }

  /** `values(boards, player)`: the trait's default loop, one value per board in order. */
  method Connect4Values(e: Connect4Evaluator, boards: seq<Connect4Game.Position>, player: Player,
                        length: Connect4Game.Position -> nat, sat: nat -> real)
    returns (vs: seq<Score>)
    ensures |vs| == |boards|
    ensures forall i | 0 <= i < |boards| :: vs[i] == Connect4Value(e, boards[i], player, length(boards[i]), sat)
  {
    var w := Weights4(e);
    var value := (q: Connect4Game.Position) => Connect4Score(e, w, q, player, length(q), sat);
    vs := Values(value, boards);
    MapAt(value, boards);
  }

  /** `gradient(board, player)`: the features of the consecutive evaluator; the other two panic. */
  method Connect4Gradient(e: Connect4Evaluator, p: Connect4Game.Position, player: Player, sat: nat -> real)
    returns (g: Option<seq<real>>)
    ensures g.Some? <==> e.Consequtive?
    ensures g.Some? ==> g.value == Connect4Features(p.board, player, sat)
  {
    if e.Consequtive? {
      var f := e.cons.GradientConnect4(p, player, sat);
      g := Some(f);
    } else {
      g := None;
    }
  }

  /** `apply_update(update)`: only the consecutive evaluator moves its weights; the other two panic. */
  method Connect4ApplyUpdate(e: Connect4Evaluator, update: seq<real>) returns (ok: bool)
    modifies Footprint4(e)
    ensures ok <==> e.Consequtive?
    ensures e.Consequtive? ==> e.cons.params == Updated(old(e.cons.params), update)
  {
    if e.Consequtive? {
      e.cons.ApplyUpdate(update);
      ok := true;
    } else {
      ok := false;
    }
  }

  /** `get_params()`: the weights of the lines and consecutive evaluators; the simple one panics. */
  method Connect4GetParams(e: Connect4Evaluator) returns (r: Option<seq<real>>)
    ensures r.Some? <==> !e.Simple?
    ensures e.Lines? ==> r == Some(e.lines.params)
    ensures e.Consequtive? ==> r == Some(e.cons.params)
  {
    if e.Simple? {
      r := None;
    } else if e.Lines? {
      var ps := e.lines.GetParams();
      r := Some(ps);
    } else {
      var ps := e.cons.GetParams();
      r := Some(ps);
    }
  }

  // ---------------------------------------------------------------------------
  // `Stack4Evaluators`

  /** `Stack4Evaluators`. */
  datatype Stack4Evaluator =
    | SimpleStack4
    | ConsequtiveStack4(eval: ConsequtiveEval)

  function Footprint8(e: Stack4Evaluator): set<object>
  {
    if e.ConsequtiveStack4? then {e.eval} else {}
  }

  /** What `value` returns on a Stack 4 board. */
  function Stack4Value(e: Stack4Evaluator, p: Stack4Game.Position, player: Player, length: nat, sat: nat -> real): Score
    reads Footprint8(e)
  {
    Stack4Score(e, Weights8(e), p, player, length, sat)
  }

  /** The weights the value of `e` depends on: those of the consecutive evaluator, none for the simple one. */
  function Weights8(e: Stack4Evaluator): seq<real>
    reads Footprint8(e)
  {
    if e.ConsequtiveStack4? then e.eval.params else []
  }

  /** The value of `e` with `w` as the consecutive evaluator's weights. */
  function Stack4Score(e: Stack4Evaluator, w: seq<real>, p: Stack4Game.Position, player: Player, length: nat, sat: nat -> real): Score
  {
    if e.SimpleStack4? then SimpleValue(p.state, player, length)
    else ValueOf(p.state, player, Stack4Features(p.board, player, sat), w)
  }

  /** A win is positive for both evaluators and plus infinity for the consecutive one. */
  lemma Stack4ValueWins(e: Stack4Evaluator, p: Stack4Game.Position, player: Player, length: nat, sat: nat -> real)
    requires p.state == Won(player)
    ensures Lt(Fin(0.0), Stack4Value(e, p, player, length, sat))
    ensures !e.SimpleStack4? ==> Stack4Value(e, p, player, length, sat) == PosInf
  {
    SimpleValueSpec(p.state, player, length);
  }

  /** The mirror image for a loss. */
  lemma Stack4ValueLosses(e: Stack4Evaluator, p: Stack4Game.Position, player: Player, length: nat, sat: nat -> real)
    requires p.state == Won(Not(player))
    ensures Lt(Stack4Value(e, p, player, length, sat), Fin(0.0))
    ensures !e.SimpleStack4? ==> Stack4Value(e, p, player, length, sat) == NegInf
  {
    SimpleValueSpec(p.state, player, length);
  }

  /** `value(board, player)` on Stack 4. */
  method Stack4EvalValue(e: Stack4Evaluator, p: Stack4Game.Position, player: Player, length: nat, sat: nat -> real)
    returns (v: Score)
    ensures v == Stack4Value(e, p, player, length, sat)
  {
    if e.SimpleStack4? {
      v := SimpleValue(p.state, player, length);
    } else {
      v := e.eval.ValueStack4(p, player, sat);
    }
  }

  /** `values(boards, player)` on Stack 4. */
  method Stack4Values(e: Stack4Evaluator, boards: seq<Stack4Game.Position>, player: Player,
                      length: Stack4Game.Position -> nat, sat: nat -> real)
    returns (vs: seq<Score>)
    ensures |vs| == |boards|
    ensures forall i | 0 <= i < |boards| :: vs[i] == Stack4Value(e, boards[i], player, length(boards[i]), sat)
  {
    var w := Weights8(e);
    var value := (q: Stack4Game.Position) => Stack4Score(e, w, q, player, length(q), sat);
    vs := Values(value, boards);
    MapAt(value, boards);
  }

  /** `gradient(board, player)` on Stack 4: the consecutive evaluator's features; the simple one panics. */
  method Stack4Gradient(e: Stack4Evaluator, p: Stack4Game.Position, player: Player, sat: nat -> real)
    returns (g: Option<seq<real>>)
    ensures g.Some? <==> e.ConsequtiveStack4?
    ensures g.Some? ==> g.value == Stack4Features(p.board, player, sat)
  {
    if e.ConsequtiveStack4? {
      var f := e.eval.GradientStack4(p, player, sat);
      g := Some(f);
    } else {
      g := None;
    }
  }

  /** `apply_update(update)` on Stack 4. */
  method Stack4ApplyUpdate(e: Stack4Evaluator, update: seq<real>) returns (ok: bool)
    modifies Footprint8(e)
    ensures ok <==> e.ConsequtiveStack4?
    ensures e.ConsequtiveStack4? ==> e.eval.params == Updated(old(e.eval.params), update)
  {
    if e.ConsequtiveStack4? {
      e.eval.ApplyUpdate(update);
      ok := true;
    } else {
      ok := false;
    }
  }

  /** `get_params()` on Stack 4. */
  method Stack4GetParams(e: Stack4Evaluator) returns (r: Option<seq<real>>)
    ensures r.Some? <==> e.ConsequtiveStack4?
    ensures e.ConsequtiveStack4? ==> r == Some(e.eval.params)
  {
    if e.ConsequtiveStack4? {
      var ps := e.eval.GetParams();
      r := Some(ps);
    } else {
      r := None;
    }
  }
}

/**
 * The evaluator of the first Connect Four board: a fixed player, plus one
 * for that player's win, minus one for the other player's win and zero
 * otherwise.
 */
module LegacyEvaluator {
  import opened Games
  import LegacyConnect4

  /** `SimpleEval { player }`. */
  datatype SimpleEval = SimpleEval(player: Player)

  /** `value(board)` for the evaluator `e`. */
  function Value(e: SimpleEval, p: LegacyConnect4.Position): (r: real)
    ensures r == 1.0 || r == -1.0 || r == 0.0
    ensures r == 0.0 <==> !p.state.Won?
  {
    match p.state
    case Won(w) => if w == e.player then 1.0 else -1.0
    case Draw => 0.0
    case InProgress => 0.0
  }

  /**
   * The value is one exactly when the evaluator's player has won, minus one
   * exactly when the other player has, and zero exactly when nobody has; the
   * two players' evaluators always disagree by sign.
   */
  lemma ValueSpec(e: SimpleEval, p: LegacyConnect4.Position)
    ensures Value(e, p) == 1.0 <==> p.state == Won(e.player)
    ensures Value(e, p) == -1.0 <==> p.state == Won(Not(e.player))
    ensures Value(e, p) == 0.0 <==> !p.state.Won?
    ensures Value(SimpleEval(Not(e.player)), p) == -Value(e, p)
  {
    NotInvolution(e.player);
    if p.state.Won? && p.state.winner != e.player {
      assert p.state.winner == Not(e.player) by {
        match e.player
        case Red =>
        case Yellow =>
      }
    }
  }
}

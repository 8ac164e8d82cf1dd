/**
 * The lines evaluator of the bitboard Connect Four game.  A finished game is
 * worth plus or minus infinity (or 0 for a draw); a game in progress is
 * worth the sum, over 36 straight lines of the board, of a score that
 * rewards the player's pieces in stretches that are at least four cells
 * long and free of opponent pieces.  The two parameters are stored but not
 * used by the value.
 *
 * The lines start at column 0 of every row and at row 0 of the first six
 * columns (the start (0, 0) is visited twice), and each start is followed
 * upwards, rightwards and diagonally up-right until it leaves the board.
 */
module LinesEvaluator {
  import opened Games
  import opened Scores
  import opened WinCheck
  import opened Connect4Game

  /** The tile a cell code decodes to: 0 is empty, 1 is red and any other code is yellow. */
  function TileOf(code: nat): (t: Tile)
    ensures code < 3 ==> TileCode(t) == code
  {
    if code == 0 then Empty else if code == 1 then Full(Red) else Full(Yellow)
  }

  // ---------------------------------------------------------------------------
  // The score of one line

  /** `v[j]` is a piece of the other player. */
  predicate Opponent(v: seq<Tile>, player: Player, j: nat)
    requires j < |v|
  {
    v[j].Full? && v[j].owner != player
  }

  /** The index of the last opponent piece among the first `n` tiles, or -1 when there is none. */
  function LastOpponent(v: seq<Tile>, player: Player, n: nat): (r: int)
    requires n <= |v|
    ensures -1 <= r < n
    ensures r >= 0 ==> Opponent(v, player, r)
    ensures forall j | r < j < n :: !Opponent(v, player, j)
  {
    if n == 0 then -1
    else if Opponent(v, player, n - 1) then n - 1
    else LastOpponent(v, player, n - 1)
  }

  /** The number of the player's pieces among `v[lo..hi]`. */
  function OwnCount(v: seq<Tile>, player: Player, lo: nat, hi: nat): (r: nat)
    requires lo <= hi <= |v|
    ensures r <= hi - lo
    decreases hi - lo
  {
    if lo == hi then 0
    else (if v[hi - 1] == Full(player) then 1 else 0) + OwnCount(v, player, lo, hi - 1)
  }

  /** The player's pieces since the last opponent piece among the first `n` tiles. */
  function Run(v: seq<Tile>, player: Player, n: nat): nat
    requires n <= |v|
  {
    OwnCount(v, player, LastOpponent(v, player, n) + 1, n)
  }

  /** Tile `i` closes a stretch of at least four cells without an opponent piece. */
  predicate OpenWindow(v: seq<Tile>, player: Player, i: nat)
    requires i < |v|
  {
    i - LastOpponent(v, player, i + 1) >= 4
  }

  /** What the first `n` tiles add: the run at every tile that closes an open window. */
  function LineTotal(v: seq<Tile>, player: Player, n: nat): nat
    requires n <= |v|
  {
    if n == 0 then 0
    else LineTotal(v, player, n - 1) + (if OpenWindow(v, player, n - 1) then Run(v, player, n) else 0)
  }

  /** The step of `Run` at one more tile: an opponent resets it, an own piece adds one. */
  lemma RunStep(v: seq<Tile>, player: Player, i: nat)
    requires i < |v|
    ensures Run(v, player, i + 1) ==
      if Opponent(v, player, i) then 0
      else if v[i] == Full(player) then Run(v, player, i) + 1
      else Run(v, player, i)
  {
  }

  /** `line_value(v, player)`. */
  method LineValue(v: seq<Tile>, player: Player) returns (total: nat)
    ensures total == LineTotal(v, player, |v|)
  {
    var lastOpponent: int := -1;
    var count: nat := 0;
    total := 0;
    for i := 0 to |v|
      invariant lastOpponent == LastOpponent(v, player, i)
      invariant count == Run(v, player, i)
      invariant total == LineTotal(v, player, i)
    {
      RunStep(v, player, i);
      match v[i] {
        case Empty =>
        case Full(p) =>
          if p != player {
            lastOpponent := i;
            count := 0;
          } else {
            count := count + 1;
          }
      }
      assert lastOpponent == LastOpponent(v, player, i + 1);
      assert count == Run(v, player, i + 1);
      if i - lastOpponent >= 4 {
        total := total + count;
      }
    }
  }

  /** Without a piece of the player a line scores nothing. */
  lemma {:induction false} NoOwnPiecesNoScore(v: seq<Tile>, player: Player, n: nat)
    requires n <= |v| && Full(player) !in v
    ensures LineTotal(v, player, n) == 0
  {
    if n > 0 {
      NoOwnPiecesNoScore(v, player, n - 1);
      NoOwnCount(v, player, LastOpponent(v, player, n) + 1, n);
    }
  }

  lemma {:induction false} NoOwnCount(v: seq<Tile>, player: Player, lo: nat, hi: nat)
    requires lo <= hi <= |v| && Full(player) !in v
    ensures OwnCount(v, player, lo, hi) == 0
    decreases hi - lo
  {
    if lo < hi {
      assert v[hi - 1] in v;
      NoOwnCount(v, player, lo, hi - 1);
    }
  }

  /** A line shorter than four cells never opens a window and scores nothing. */
  lemma {:induction false} ShortLineNoScore(v: seq<Tile>, player: Player, n: nat)
    requires n <= |v| && n <= 3
    ensures LineTotal(v, player, n) == 0
  {
    if n > 0 {
      ShortLineNoScore(v, player, n - 1);
    }
  }

  /**
   * A line of the player's pieces only, `n` long, scores the sum of
   * `i + 1` over `3 <= i < n`: from the fourth tile on every tile closes
   * an open window and the run is the whole prefix.
   */
  lemma {:induction false} AllOwnLine(v: seq<Tile>, player: Player, n: nat)
    requires n <= |v| && forall j | 0 <= j < |v| :: v[j] == Full(player)
    ensures LineTotal(v, player, n) == SumFrom(3, n)
  {
    if n > 0 {
      AllOwnLine(v, player, n - 1);
      assert LastOpponent(v, player, n) == -1;
      AllOwnCount(v, player, 0, n);
    }
  }

  lemma {:induction false} AllOwnCount(v: seq<Tile>, player: Player, lo: nat, hi: nat)
    requires lo <= hi <= |v| && forall j | 0 <= j < |v| :: v[j] == Full(player)
    ensures OwnCount(v, player, lo, hi) == hi - lo
    decreases hi - lo
  {
    if lo < hi {
      AllOwnCount(v, player, lo, hi - 1);
    }
  }

  /** The sum, over the tiles `3 <= i < n`, of the player's pieces among the first `i + 1` tiles. */
  function OwnPrefixSum(v: seq<Tile>, player: Player, n: nat): nat
    requires n <= |v|
  {
    if n <= 3 then 0 else OwnPrefixSum(v, player, n - 1) + OwnCount(v, player, 0, n)
  }

  /**
   * A line without an opponent piece, empty tiles allowed, scores at every
   * tile from the fourth on the number of the player's pieces up to it.
   */
  lemma {:induction false} NoOpponentLine(v: seq<Tile>, player: Player, n: nat)
    requires n <= |v| && forall j | 0 <= j < |v| :: !Opponent(v, player, j)
    ensures LineTotal(v, player, n) == OwnPrefixSum(v, player, n)
  {
    if n > 0 {
      NoOpponentLine(v, player, n - 1);
      assert LastOpponent(v, player, n) == -1;
    }
  }

  /** The sum of `i + 1` over `lo <= i < n`. */
  function SumFrom(lo: nat, n: nat): nat
  {
    if n <= lo then 0 else SumFrom(lo, n - 1) + n
  }

  // ---------------------------------------------------------------------------
  // The lines of the board

  /** The starting cells `(row, column)`: column 0 of every row, then row 0 of the first six columns. */
  const Starts: seq<(nat, nat)> :=
    [(0, 0), (1, 0), (2, 0), (3, 0), (4, 0), (5, 0), (0, 0), (0, 1), (0, 2), (0, 3), (0, 4), (0, 5)]

  /** The directions `(row step, column step)`: up, right and up-right. */
  const LineDirections: seq<(nat, nat)> := [(1, 0), (0, 1), (1, 1)]

  /** `k * d` for a step `d` of 0 or 1. */
  function Along(k: nat, d: nat): (r: nat)
    requires d <= 1
    ensures d == 1 ==> r == k
    ensures d == 0 ==> r == 0
  {
    if d == 0 then 0 else k
  }

  /** The tiles from step `k` on of the line from `(r, c)` along `(dr, dc)`, until it leaves the board. */
  function LineFrom(b: nat, r: nat, c: nat, dr: nat, dc: nat, k: nat): seq<Tile>
    requires dr <= 1 && dc <= 1 && dr + dc > 0
    decreases BoardWidth - k
  {
    if !InGrid(BoardWidth, BoardHeight, Along(k, dc) + c, Along(k, dr) + r) then []
    else [TileOf(CodeAt(b, Along(k, dc) + c, Along(k, dr) + r))] + LineFrom(b, r, c, dr, dc, k + 1)
  }

  /** The summed line scores of the first `n` directions from `(r, c)`. */
  function DirectionsTotal(b: nat, player: Player, r: nat, c: nat, n: nat): nat
    requires n <= |LineDirections|
  {
    if n == 0 then 0
    else
      var (dr, dc) := LineDirections[n - 1];
      var line := LineFrom(b, r, c, dr, dc, 0);
      DirectionsTotal(b, player, r, c, n - 1) + LineTotal(line, player, |line|)
  }

  /** The summed line scores of the first `n` starts. */
  function StartsTotal(b: nat, player: Player, n: nat): nat
    requires n <= |Starts|
  {
    if n == 0 then 0
    else StartsTotal(b, player, n - 1) + DirectionsTotal(b, player, Starts[n - 1].0, Starts[n - 1].1, |LineDirections|)
  }

  /** The line from `(r, c)` along `(dr, dc)`, built cell by cell as the inner loop of `lines_evaluation` does. */
  method CollectLine(b: nat, r: nat, c: nat, dr: nat, dc: nat) returns (line: seq<Tile>)
    requires dr <= 1 && dc <= 1 && dr + dc > 0
    ensures line == LineFrom(b, r, c, dr, dc, 0)
  {
    line := [];
    var k: nat := 0;
    while InGrid(BoardWidth, BoardHeight, Along(k, dc) + c, Along(k, dr) + r)
      invariant k <= BoardWidth
      invariant line + LineFrom(b, r, c, dr, dc, k) == LineFrom(b, r, c, dr, dc, 0)
      decreases BoardWidth - k
    {
      line := line + [TileOf(CodeAt(b, Along(k, dc) + c, Along(k, dr) + r))];
      k := k + 1;
    }
  }

  /** The three lines from one start, as the middle loop of `lines_evaluation` sums them. */
  method StartValue(b: nat, player: Player, r: nat, c: nat) returns (total: nat)
    ensures total == DirectionsTotal(b, player, r, c, |LineDirections|)
  {
    total := 0;
    for d := 0 to |LineDirections|
      invariant total == DirectionsTotal(b, player, r, c, d)
    {
      var (dr, dc) := LineDirections[d];
      var line := CollectLine(b, r, c, dr, dc);
      var v := LineValue(line, player);
      assert DirectionsTotal(b, player, r, c, d + 1) == total + v;
      total := total + v;
    }
  }

  /** `lines_evaluation(board, player)`. */
  method LinesEvaluation(b: nat, player: Player) returns (total: nat)
    ensures total == StartsTotal(b, player, |Starts|)
  {
    total := 0;
    for s := 0 to |Starts|
      invariant total == StartsTotal(b, player, s)
    {
      var v := StartValue(b, player, Starts[s].0, Starts[s].1);
      total := total + v;
    }
  }

  /** No cell of the board decodes to a piece of `player`. */
  predicate NoPieceOf(b: nat, player: Player)
  {
    forall x: nat, y: nat | x < BoardWidth && y < BoardHeight :: TileOf(CodeAt(b, x, y)) != Full(player)
  }

  /** A board without a piece of the player scores nothing on any line. */
  lemma NoOwnPiecesNoLines(b: nat, player: Player)
    requires NoPieceOf(b, player)
    ensures StartsTotal(b, player, |Starts|) == 0
  {
    forall r: nat, c: nat, dr: nat, dc: nat, k: nat | dr <= 1 && dc <= 1 && dr + dc > 0
      ensures Full(player) !in LineFrom(b, r, c, dr, dc, k)
    {
      LineFreeOf(b, player, r, c, dr, dc, k);
    }
    NoOwnStarts(b, player, |Starts|);
  }

  lemma {:induction false} LineFreeOf(b: nat, player: Player, r: nat, c: nat, dr: nat, dc: nat, k: nat)
    requires dr <= 1 && dc <= 1 && dr + dc > 0
    requires NoPieceOf(b, player)
    ensures Full(player) !in LineFrom(b, r, c, dr, dc, k)
    decreases BoardWidth - k
  {
    if InGrid(BoardWidth, BoardHeight, Along(k, dc) + c, Along(k, dr) + r) {
      LineFreeOf(b, player, r, c, dr, dc, k + 1);
    }
  }

  lemma {:induction false} NoOwnStarts(b: nat, player: Player, n: nat)
    requires n <= |Starts|
    requires forall r: nat, c: nat, dr: nat, dc: nat, k: nat | dr <= 1 && dc <= 1 && dr + dc > 0 ::
      Full(player) !in LineFrom(b, r, c, dr, dc, k)
    ensures StartsTotal(b, player, n) == 0
  {
    if n > 0 {
      NoOwnStarts(b, player, n - 1);
      var (r, c) := Starts[n - 1];
      NoOwnDirections(b, player, r, c, |LineDirections|);
    }
  }

  lemma {:induction false} NoOwnDirections(b: nat, player: Player, r: nat, c: nat, n: nat)
    requires n <= |LineDirections|
    requires forall r: nat, c: nat, dr: nat, dc: nat, k: nat | dr <= 1 && dc <= 1 && dr + dc > 0 ::
      Full(player) !in LineFrom(b, r, c, dr, dc, k)
    ensures DirectionsTotal(b, player, r, c, n) == 0
  {
    if n > 0 {
      NoOwnDirections(b, player, r, c, n - 1);
      var (dr, dc) := LineDirections[n - 1];
      var line := LineFrom(b, r, c, dr, dc, 0);
      NoOwnPiecesNoScore(line, player, |line|);
    }
  }

  // ---------------------------------------------------------------------------
  // The evaluator

  /** `LinesEval`: two parameters, stored and returned but not used by the value. */
  class LinesEval {
    var params: seq<real>

    /** `LinesEval::new()`: both parameters zero. */
    constructor()
      ensures params == [0.0, 0.0]
    {
      params := [0.0, 0.0];
    }

    /** `get_params`: a copy of the parameters. */
    method GetParams() returns (r: seq<real>)
      ensures r == params
    {
      r := params;
    }
  }

  /** What `value` returns for position `p` from `player`'s side. */
  function Value(p: Position, player: Player): Score
  {
    match p.state
    case Won(w) => if w == player then PosInf else NegInf
    case Draw => Fin(0.0)
    case InProgress => OfNat(StartsTotal(p.board, player, |Starts|))
  }

  /** `value(board, player)`. */
  method Evaluate(p: Position, player: Player) returns (v: Score)
    ensures v == Value(p, player)
  {
    match p.state
    case Won(w) => v := if w == player then PosInf else NegInf;
    case Draw => v := Fin(0.0);
    case InProgress =>
      var total := LinesEvaluation(p.board, player);
      v := OfNat(total);
  }

  /**
   * A win is plus infinity and a loss minus infinity, as the evaluator
   * interface demands; a game in progress is finite and never negative,
   * and zero when the player has no piece on the board.
   */
  lemma ValueSpec(p: Position, player: Player)
    ensures p.state == Won(player) ==> Value(p, player) == PosInf
    ensures p.state == Won(Not(player)) ==> Value(p, player) == NegInf
    ensures p.state == Draw ==> Value(p, player) == Fin(0.0)
    ensures p.state == InProgress ==> Value(p, player).Fin? && Value(p, player).v >= 0.0
    ensures p.state == InProgress && NoPieceOf(p.board, player)
      ==> Value(p, player) == Fin(0.0)
  {
    if p.state == InProgress && NoPieceOf(p.board, player) {
      NoOwnPiecesNoLines(p.board, player);
    }
  }
}

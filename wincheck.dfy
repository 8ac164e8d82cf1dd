/**
 * The four-in-a-row test that both packed games run after a move
 * (`player_won`).  Starting from a placed piece it counts, in each of four
 * directions, how many cells with the same code follow the piece forwards
 * (at most three, stopping at the edge or at another code) and backwards,
 * and reports a win as soon as the piece and both runs make four.
 *
 * The test reads the board only through the game's `get(x, y)`, which is the
 * parameter `get` here, and through `in_board`, which is `InGrid` for a `w`
 * by `h` grid.
 */
module WinCheck {

  /** `in_board` for a `w` by `h` grid. */
  predicate InGrid(w: nat, h: nat, x: int, y: int)
  {
    0 <= x < w && 0 <= y < h
  }

  /** The four directions `player_won` looks along. */
  const Directions: seq<(int, int)> := [(1, 0), (0, 1), (-1, 1), (1, 1)]

  /** Cell `(px, py)` is on the board and holds code `c`. */
  predicate Match(get: (int, int) -> nat, w: nat, h: nat, px: int, py: int, c: nat)
  {
    InGrid(w, h, px, py) && get(px, py) == c
  }

  /** The step an inner loop takes at iteration `i`: `i` forwards, `-i` backwards. */
  function Step(back: bool, i: int): int
  {
    if back then -i else i
  }

  /**
   * How many cells an inner loop of `player_won` counts from iteration `i`
   * on: iteration `i` probes `(dx * k + x, dy * k + y)` with `k` the step,
   * and the loop ends after iteration 3 or at the first probe that is off
   * the board or holds another code than `c`.
   */
  function RunFrom(get: (int, int) -> nat, w: nat, h: nat, x: int, y: int, dx: int, dy: int, c: nat, back: bool, i: nat): (n: nat)
    requires 1 <= i <= 4
    ensures n <= 4 - i
    decreases 4 - i
  {
    if i == 4 || !Match(get, w, h, dx * Step(back, i) + x, dy * Step(back, i) + y, c) then 0
    else 1 + RunFrom(get, w, h, x, y, dx, dy, c, back, i + 1)
  }

  /** `sm` after both inner loops of `player_won` for direction `(dx, dy)`: the piece and its two runs. */
  function LineLength(get: (int, int) -> nat, w: nat, h: nat, x: int, y: int, dx: int, dy: int, c: nat): nat
  {
    1 + RunFrom(get, w, h, x, y, dx, dy, c, false, 1) + RunFrom(get, w, h, x, y, dx, dy, c, true, 1)
  }

  /** What `player_won((x, y))` returns. */
  predicate WonAt(get: (int, int) -> nat, w: nat, h: nat, x: int, y: int)
  {
    exists e | 0 <= e < 4 :: LineLength(get, w, h, x, y, Directions[e].0, Directions[e].1, get(x, y)) >= 4
  }

  /** Four in a row: the cells `s, s + d, s + 2d, s + 3d` are on the board and hold code `c`. */
  predicate Four(get: (int, int) -> nat, w: nat, h: nat, sx: int, sy: int, dx: int, dy: int, c: nat)
  {
    && Match(get, w, h, sx, sy, c)
    && Match(get, w, h, sx + dx, sy + dy, c)
    && Match(get, w, h, sx + 2 * dx, sy + 2 * dy, c)
    && Match(get, w, h, sx + 3 * dx, sy + 3 * dy, c)
  }

  /** Some four in a row along `(dx, dy)` passes through `(x, y)`. */
  predicate FourThrough(get: (int, int) -> nat, w: nat, h: nat, x: int, y: int, dx: int, dy: int, c: nat)
  {
    || Four(get, w, h, x, y, dx, dy, c)
    || Four(get, w, h, x - dx, y - dy, dx, dy, c)
    || Four(get, w, h, x - 2 * dx, y - 2 * dy, dx, dy, c)
    || Four(get, w, h, x - 3 * dx, y - 3 * dy, dx, dy, c)
  }

  /**
   * One inner loop of `player_won`: for `i = 1, 2, 3` (negated when
   * counting backwards) it probes `(dx * i + x, dy * i + y)` and stops at
   * the first probe that is off the board or holds another code than `c`.
   */
  method CountRun(get: (int, int) -> nat, w: nat, h: nat, x: int, y: int, dx: int, dy: int, c: nat, back: bool)
    returns (n: nat)
    ensures n == RunFrom(get, w, h, x, y, dx, dy, c, back, 1)
  {
    n := 0;
    var i := 1;
    while i < 4
      invariant 1 <= i <= 4
      invariant n + RunFrom(get, w, h, x, y, dx, dy, c, back, i) == RunFrom(get, w, h, x, y, dx, dy, c, back, 1)
    {
      var k := if back then -i else i;
      var curx, cury := dx * k + x, dy * k + y;
      if !InGrid(w, h, curx, cury) {
        break;
      } else if c != get(curx, cury) {
        break;
      }
      n := n + 1;
      i := i + 1;
    }
  }

  /** `player_won((x, y))` on a board read through `get`. */
  method PlayerWon(get: (int, int) -> nat, w: nat, h: nat, x: int, y: int) returns (won: bool)
    ensures won == WonAt(get, w, h, x, y)
  {
    var player := get(x, y);
    var e := 0;
    while e < 4
      invariant 0 <= e <= 4
      invariant forall f | 0 <= f < e :: LineLength(get, w, h, x, y, Directions[f].0, Directions[f].1, player) < 4
    {
      var dx, dy := Directions[e].0, Directions[e].1;
      var forwards := CountRun(get, w, h, x, y, dx, dy, player, false);
      var backwards := CountRun(get, w, h, x, y, dx, dy, player, true);
      var sm := 1 + forwards + backwards;
      if sm >= 4 {
        return true;
      }
      e := e + 1;
    }
    return false;
  }

  // ---------------------------------------------------------------------------
  // The run count agrees with the plain definition of four in a row

  /** The forward run from the piece, cell by cell. */
  lemma ForwardRun(get: (int, int) -> nat, w: nat, h: nat, x: int, y: int, dx: int, dy: int, c: nat)
    ensures RunFrom(get, w, h, x, y, dx, dy, c, false, 1)
         == if !Match(get, w, h, x + dx, y + dy, c) then 0
            else if !Match(get, w, h, x + 2 * dx, y + 2 * dy, c) then 1
            else if !Match(get, w, h, x + 3 * dx, y + 3 * dy, c) then 2
            else 3
  {
    assert dx * Step(false, 1) + x == x + dx && dy * Step(false, 1) + y == y + dy;
    assert dx * Step(false, 2) + x == x + 2 * dx && dy * Step(false, 2) + y == y + 2 * dy;
    assert dx * Step(false, 3) + x == x + 3 * dx && dy * Step(false, 3) + y == y + 3 * dy;
    assert RunFrom(get, w, h, x, y, dx, dy, c, false, 3) == if Match(get, w, h, x + 3 * dx, y + 3 * dy, c) then 1 else 0;
  }

  /** The backward run from the piece, cell by cell. */
  lemma BackwardRun(get: (int, int) -> nat, w: nat, h: nat, x: int, y: int, dx: int, dy: int, c: nat)
    ensures RunFrom(get, w, h, x, y, dx, dy, c, true, 1)
         == if !Match(get, w, h, x - dx, y - dy, c) then 0
            else if !Match(get, w, h, x - 2 * dx, y - 2 * dy, c) then 1
            else if !Match(get, w, h, x - 3 * dx, y - 3 * dy, c) then 2
            else 3
  {
    assert dx * Step(true, 1) + x == x - dx && dy * Step(true, 1) + y == y - dy;
    assert dx * Step(true, 2) + x == x - 2 * dx && dy * Step(true, 2) + y == y - 2 * dy;
    assert dx * Step(true, 3) + x == x - 3 * dx && dy * Step(true, 3) + y == y - 3 * dy;
    assert RunFrom(get, w, h, x, y, dx, dy, c, true, 3) == if Match(get, w, h, x - 3 * dx, y - 3 * dy, c) then 1 else 0;
  }

  /** The three fours that start behind the piece, cell by cell. */
  lemma FoursBehind(get: (int, int) -> nat, w: nat, h: nat, x: int, y: int, dx: int, dy: int, c: nat)
    ensures Four(get, w, h, x - dx, y - dy, dx, dy, c)
        == (Match(get, w, h, x - dx, y - dy, c) && Match(get, w, h, x, y, c)
            && Match(get, w, h, x + dx, y + dy, c) && Match(get, w, h, x + 2 * dx, y + 2 * dy, c))
    ensures Four(get, w, h, x - 2 * dx, y - 2 * dy, dx, dy, c)
        == (Match(get, w, h, x - 2 * dx, y - 2 * dy, c) && Match(get, w, h, x - dx, y - dy, c)
            && Match(get, w, h, x, y, c) && Match(get, w, h, x + dx, y + dy, c))
    ensures Four(get, w, h, x - 3 * dx, y - 3 * dy, dx, dy, c)
        == (Match(get, w, h, x - 3 * dx, y - 3 * dy, c) && Match(get, w, h, x - 2 * dx, y - 2 * dy, c)
            && Match(get, w, h, x - dx, y - dy, c) && Match(get, w, h, x, y, c))
  {
    assert x - dx + dx == x && x - dx + 2 * dx == x + dx && x - dx + 3 * dx == x + 2 * dx;
    assert y - dy + dy == y && y - dy + 2 * dy == y + dy && y - dy + 3 * dy == y + 2 * dy;
    assert x - 2 * dx + dx == x - dx && x - 2 * dx + 2 * dx == x && x - 2 * dx + 3 * dx == x + dx;
    assert y - 2 * dy + dy == y - dy && y - 2 * dy + 2 * dy == y && y - 2 * dy + 3 * dy == y + dy;
    assert x - 3 * dx + dx == x - 2 * dx && x - 3 * dx + 2 * dx == x - dx && x - 3 * dx + 3 * dx == x;
    assert y - 3 * dy + dy == y - 2 * dy && y - 3 * dy + 2 * dy == y - dy && y - 3 * dy + 3 * dy == y;
  }

  /** The counting argument itself: two runs and the piece reach four exactly when four consecutive cells match. */
  lemma RunsMakeFour(f1: bool, f2: bool, f3: bool, b1: bool, b2: bool, b3: bool, fwd: nat, bwd: nat)
    requires fwd == if !f1 then 0 else if !f2 then 1 else if !f3 then 2 else 3
    requires bwd == if !b1 then 0 else if !b2 then 1 else if !b3 then 2 else 3
    ensures 1 + fwd + bwd >= 4 <==> (f1 && f2 && f3) || (b1 && f1 && f2) || (b2 && b1 && f1) || (b3 && b2 && b1)
  {
  }

  /**
   * The piece and its two runs make four in direction `(dx, dy)` exactly
   * when some four in a row along it through the piece holds its code
   * throughout.
   */
  lemma LineLengthFour(get: (int, int) -> nat, w: nat, h: nat, x: int, y: int, dx: int, dy: int)
    requires InGrid(w, h, x, y)
    ensures var c := get(x, y);
      LineLength(get, w, h, x, y, dx, dy, c) >= 4 <==> FourThrough(get, w, h, x, y, dx, dy, c)
  {
    var c := get(x, y);
    ForwardRun(get, w, h, x, y, dx, dy, c);
    BackwardRun(get, w, h, x, y, dx, dy, c);
    FoursBehind(get, w, h, x, y, dx, dy, c);
    RunsMakeFour(
      Match(get, w, h, x + dx, y + dy, c), Match(get, w, h, x + 2 * dx, y + 2 * dy, c), Match(get, w, h, x + 3 * dx, y + 3 * dy, c),
      Match(get, w, h, x - dx, y - dy, c), Match(get, w, h, x - 2 * dx, y - 2 * dy, c), Match(get, w, h, x - 3 * dx, y - 3 * dy, c),
      RunFrom(get, w, h, x, y, dx, dy, c, false, 1), RunFrom(get, w, h, x, y, dx, dy, c, true, 1));
  }

  /**
   * `player_won` holds exactly when, along one of the four directions, four
   * in-board cells in a row through the piece all hold the piece's code.
   */
  lemma WonAtFour(get: (int, int) -> nat, w: nat, h: nat, x: int, y: int)
    requires InGrid(w, h, x, y)
    ensures WonAt(get, w, h, x, y)
        <==> exists e | 0 <= e < 4 :: FourThrough(get, w, h, x, y, Directions[e].0, Directions[e].1, get(x, y))
  {
    forall e | 0 <= e < 4 {
      LineLengthFour(get, w, h, x, y, Directions[e].0, Directions[e].1);
    }
  }
}

/**
 * The consecutive-pieces evaluator, for both packed games.  For every empty
 * cell of the scanned region and each of four directions it measures the
 * player's pieces touching the cell along that line (both ways, capped at
 * three) and counts how often each length 1, 2 and 3 occurs; the same is
 * done for the opponent.  The six counts, each passed through a saturating
 * map, are the features; the value of a game in progress is their dot
 * product with the parameters, which `apply_update` shifts.
 *
 * The scan is written once over a grid `get` of `w` by `h` cells, of which
 * the first `sw` columns and `sh` rows are scanned.
 */
module ConsequtiveEvaluator {
  import opened Games
  import opened Scores
  import opened WinCheck
  import Connect4Game
  import Stack4Game

  // ---------------------------------------------------------------------------
  // `pieces_in_row`

  /** A step of direction `(dx, dy)`, in the offsets -1, 0 and 1 the scan uses. */
  predicate UnitDirection(dx: int, dy: int)
  {
    -1 <= dx <= 1 && -1 <= dy <= 1 && (dx != 0 || dy != 0)
  }

  /** `d * k` for an offset `d` of -1, 0 or 1. */
  function Offset(d: int, k: nat): (r: int)
    requires -1 <= d <= 1
    ensures d == 1 ==> r == k
    ensures d == 0 ==> r == 0
    ensures d == -1 ==> r == -(k as int)
  {
    if d == 0 then 0 else if d > 0 then k else -(k as int)
  }

  /** The cell `k` steps from `(x, y)` along `(dx, dy)` is on the board and holds `c`. */
  predicate MatchAt(get: (int, int) -> nat, w: nat, h: nat, x: nat, y: nat, dx: int, dy: int, c: nat, k: nat)
    requires UnitDirection(dx, dy)
  {
    Match(get, w, h, x + Offset(dx, k), y + Offset(dy, k), c)
  }

  /** How many cells from step `k` on hold `c` without a break. */
  function RunLength(get: (int, int) -> nat, w: nat, h: nat, x: nat, y: nat, dx: int, dy: int, c: nat, k: nat): nat
    requires x < w && y < h && UnitDirection(dx, dy)
    decreases w + h - k
  {
    if MatchAt(get, w, h, x, y, dx, dy, c, k) then 1 + RunLength(get, w, h, x, y, dx, dy, c, k + 1) else 0
  }

  /** The cells from step `k` on that `RunLength` counts hold `c`, and the one after them does not. */
  lemma {:induction false} RunLengthSpec(get: (int, int) -> nat, w: nat, h: nat, x: nat, y: nat, dx: int, dy: int, c: nat, k: nat)
    requires x < w && y < h && UnitDirection(dx, dy)
    ensures forall i | k <= i < k + RunLength(get, w, h, x, y, dx, dy, c, k) :: MatchAt(get, w, h, x, y, dx, dy, c, i)
    ensures !MatchAt(get, w, h, x, y, dx, dy, c, k + RunLength(get, w, h, x, y, dx, dy, c, k))
    decreases w + h - k
  {
    if MatchAt(get, w, h, x, y, dx, dy, c, k) {
      RunLengthSpec(get, w, h, x, y, dx, dy, c, k + 1);
    }
  }

  /** `pieces_in_row(board, (x, y), (dx, dy), player)` for the player with code `c`. */
  method PiecesInRow(get: (int, int) -> nat, w: nat, h: nat, x: nat, y: nat, dx: int, dy: int, c: nat) returns (n: nat)
    requires x < w && y < h && UnitDirection(dx, dy)
    ensures n == RunLength(get, w, h, x, y, dx, dy, c, 1)
  {
    var k: nat := 1;
    while InGrid(w, h, x + Offset(dx, k), y + Offset(dy, k)) && get(x + Offset(dx, k), y + Offset(dy, k)) == c
      invariant 1 <= k <= w + h
      invariant k - 1 + RunLength(get, w, h, x, y, dx, dy, c, k) == RunLength(get, w, h, x, y, dx, dy, c, 1)
      decreases w + h - k
    {
      k := k + 1;
    }
    n := k - 1;
  }

  // ---------------------------------------------------------------------------
  // The six counts

  /** The four directions of the scan, as `(dx, dy)`. */
  const ScanDirections: seq<(int, int)> := [(1, 0), (1, 1), (0, 1), (-1, 1)]

  /** `min(3, a + b)`: the pieces of code `c` touching `(x, y)` along direction `d` both ways, capped at three. */
  function DirLength(get: (int, int) -> nat, w: nat, h: nat, x: nat, y: nat, d: (int, int), c: nat): (l: nat)
    requires x < w && y < h && UnitDirection(d.0, d.1)
    ensures l <= 3
  {
    var a := RunLength(get, w, h, x, y, d.0, d.1, c, 1);
    var b := RunLength(get, w, h, x, y, -d.0, -d.1, c, 1);
    if a + b < 3 then a + b else 3
  }

  /** How many of the first `n` scan directions give `(x, y)` the length `j`. */
  function CellTally(get: (int, int) -> nat, w: nat, h: nat, x: nat, y: nat, c: nat, j: nat, n: nat): (t: nat)
    requires x < w && y < h && n <= |ScanDirections|
    ensures t <= n
  {
    if n == 0 then 0
    else CellTally(get, w, h, x, y, c, j, n - 1) + Hit(get, w, h, x, y, ScanDirections[n - 1], c, j)
  }

  /** The length-`j` count over the first `n` cells of column `x`, empty cells only. */
  function ColumnTally(get: (int, int) -> nat, w: nat, h: nat, x: nat, c: nat, j: nat, n: nat): nat
    requires x < w && n <= h
  {
    if n == 0 then 0
    else ColumnTally(get, w, h, x, c, j, n - 1) + (if get(x, n - 1) == 0 then CellTally(get, w, h, x, n - 1, c, j, |ScanDirections|) else 0)
  }

  /** The length-`j` count over the first `n` columns, each scanned over its first `sh` cells. */
  function GridTally(get: (int, int) -> nat, w: nat, h: nat, sh: nat, c: nat, j: nat, n: nat): nat
    requires n <= w && sh <= h
  {
    if n == 0 then 0
    else GridTally(get, w, h, sh, c, j, n - 1) + ColumnTally(get, w, h, n - 1, c, j, sh)
  }

  /**
   * The six counts before saturation: lengths 1, 2 and 3 for `player`,
   * then lengths 1, 2 and 3 for the opponent, over the first `sw` columns
   * and `sh` rows.
   */
  function Counts(get: (int, int) -> nat, w: nat, h: nat, sw: nat, sh: nat, player: Player): (f: seq<nat>)
    requires sw <= w && sh <= h
    ensures |f| == 6
  {
    var c, o := Code(player), Code(Not(player));
    [GridTally(get, w, h, sh, c, 1, sw), GridTally(get, w, h, sh, c, 2, sw), GridTally(get, w, h, sh, c, 3, sw),
     GridTally(get, w, h, sh, o, 1, sw), GridTally(get, w, h, sh, o, 2, sw), GridTally(get, w, h, sh, o, 3, sw)]
  }

  /** `g` is `f` with `t1`, `t2` and `t3` added to the three counts from `off` on, and nothing else changed. */
  predicate Bumped(f: seq<nat>, g: seq<nat>, off: nat, t1: nat, t2: nat, t3: nat)
  {
    |f| == 6 && |g| == 6 && (off == 0 || off == 3)
    && g[off] == f[off] + t1 && g[off + 1] == f[off + 1] + t2 && g[off + 2] == f[off + 2] + t3
    && (if off == 0 then g[3..] == f[3..] else g[..3] == f[..3])
  }

  lemma BumpedTrans(f: seq<nat>, g: seq<nat>, e: seq<nat>, off: nat, t1: nat, t2: nat, t3: nat, u1: nat, u2: nat, u3: nat)
    requires Bumped(f, g, off, t1, t2, t3) && Bumped(g, e, off, u1, u2, u3)
    ensures Bumped(f, e, off, t1 + u1, t2 + u2, t3 + u3)
  {
  }

  /** Whether direction `d` gives `(x, y)` the length `j`, as a count of 0 or 1. */
  function Hit(get: (int, int) -> nat, w: nat, h: nat, x: nat, y: nat, d: (int, int), c: nat, j: nat): nat
    requires x < w && y < h && UnitDirection(d.0, d.1)
  {
    if DirLength(get, w, h, x, y, d, c) == j then 1 else 0
  }

  /** One pass of the loop over the directions: the two runs, their capped sum and the count it bumps. */
  method DirectionPass(get: (int, int) -> nat, w: nat, h: nat, x: nat, y: nat, d: (int, int), c: nat, g: seq<nat>, off: nat)
    returns (g': seq<nat>)
    requires x < w && y < h && UnitDirection(d.0, d.1) && |g| == 6 && (off == 0 || off == 3)
    ensures Bumped(g, g', off, Hit(get, w, h, x, y, d, c, 1), Hit(get, w, h, x, y, d, c, 2), Hit(get, w, h, x, y, d, c, 3))
  {
    var a := PiecesInRow(get, w, h, x, y, d.0, d.1, c);
    var b := PiecesInRow(get, w, h, x, y, -d.0, -d.1, c);
    var l := if 3 < a + b then 3 else a + b;
    g' := g;
    if l >= 1 {
      g' := g'[l - 1 + off := g'[l - 1 + off] + 1];
    }
  }

  /** The loop over the four directions for the empty cell `(x, y)`. */
  method CellPass(get: (int, int) -> nat, w: nat, h: nat, x: nat, y: nat, c: nat, f: seq<nat>, off: nat) returns (g: seq<nat>)
    requires x < w && y < h && |f| == 6 && (off == 0 || off == 3)
    ensures Bumped(f, g, off, CellTally(get, w, h, x, y, c, 1, 4), CellTally(get, w, h, x, y, c, 2, 4), CellTally(get, w, h, x, y, c, 3, 4))
  {
    g := f;
    for i := 0 to |ScanDirections|
      invariant Bumped(f, g, off, CellTally(get, w, h, x, y, c, 1, i), CellTally(get, w, h, x, y, c, 2, i), CellTally(get, w, h, x, y, c, 3, i))
    {
      var d := ScanDirections[i];
      var g' := DirectionPass(get, w, h, x, y, d, c, g, off);
      BumpedTrans(f, g, g', off,
        CellTally(get, w, h, x, y, c, 1, i), CellTally(get, w, h, x, y, c, 2, i), CellTally(get, w, h, x, y, c, 3, i),
        Hit(get, w, h, x, y, d, c, 1), Hit(get, w, h, x, y, d, c, 2), Hit(get, w, h, x, y, d, c, 3));
      g := g';
    }
  }

  /** The loop over the first `sh` cells of column `x`, skipping occupied cells. */
  method ColumnPass(get: (int, int) -> nat, w: nat, h: nat, x: nat, sh: nat, c: nat, f: seq<nat>, off: nat) returns (g: seq<nat>)
    requires x < w && sh <= h && |f| == 6 && (off == 0 || off == 3)
    ensures Bumped(f, g, off, ColumnTally(get, w, h, x, c, 1, sh), ColumnTally(get, w, h, x, c, 2, sh), ColumnTally(get, w, h, x, c, 3, sh))
  {
    g := f;
    for y := 0 to sh
      invariant Bumped(f, g, off, ColumnTally(get, w, h, x, c, 1, y), ColumnTally(get, w, h, x, c, 2, y), ColumnTally(get, w, h, x, c, 3, y))
    {
      if get(x, y) != 0 {
        continue;
      }
      var g' := CellPass(get, w, h, x, y, c, g, off);
      BumpedTrans(f, g, g', off,
        ColumnTally(get, w, h, x, c, 1, y), ColumnTally(get, w, h, x, c, 2, y), ColumnTally(get, w, h, x, c, 3, y),
        CellTally(get, w, h, x, y, c, 1, 4), CellTally(get, w, h, x, y, c, 2, 4), CellTally(get, w, h, x, y, c, 3, 4));
      g := g';
    }
  }

  /** One of the two passes of `features`: columns `0..sw`, rows `0..sh`, counting into `f[off..off + 3]`. */
  method GridPass(get: (int, int) -> nat, w: nat, h: nat, sw: nat, sh: nat, c: nat, f: seq<nat>, off: nat) returns (g: seq<nat>)
    requires sw <= w && sh <= h && |f| == 6 && (off == 0 || off == 3)
    ensures Bumped(f, g, off, GridTally(get, w, h, sh, c, 1, sw), GridTally(get, w, h, sh, c, 2, sw), GridTally(get, w, h, sh, c, 3, sw))
  {
    g := f;
    for x := 0 to sw
      invariant Bumped(f, g, off, GridTally(get, w, h, sh, c, 1, x), GridTally(get, w, h, sh, c, 2, x), GridTally(get, w, h, sh, c, 3, x))
    {
      var g' := ColumnPass(get, w, h, x, sh, c, g, off);
      BumpedTrans(f, g, g', off,
        GridTally(get, w, h, sh, c, 1, x), GridTally(get, w, h, sh, c, 2, x), GridTally(get, w, h, sh, c, 3, x),
        ColumnTally(get, w, h, x, c, 1, sh), ColumnTally(get, w, h, x, c, 2, sh), ColumnTally(get, w, h, x, c, 3, sh));
      g := g';
    }
  }

  /** The counting part of `features` and `features_stack4`: the player's pass, then the opponent's. */
  method CountFeatures(get: (int, int) -> nat, w: nat, h: nat, sw: nat, sh: nat, player: Player) returns (f: seq<nat>)
    requires sw <= w && sh <= h
    ensures f == Counts(get, w, h, sw, sh, player)
  {
    f := [0, 0, 0, 0, 0, 0];
    f := GridPass(get, w, h, sw, sh, Code(player), f, 0);
    f := GridPass(get, w, h, sw, sh, Code(Not(player)), f, 3);
  }

  // ---------------------------------------------------------------------------
  // Properties of the counts

  /** The runs along a direction and along its opposite are swapped by reversing the direction. */
  lemma DirLengthSymmetric(get: (int, int) -> nat, w: nat, h: nat, x: nat, y: nat, d: (int, int), c: nat)
    requires x < w && y < h && UnitDirection(d.0, d.1)
    ensures DirLength(get, w, h, x, y, d, c) == DirLength(get, w, h, x, y, (-d.0, -d.1), c)
  {
  }

  /** The player's counts are the opponent's counts seen from the other side, and vice versa. */
  lemma CountsSwap(get: (int, int) -> nat, w: nat, h: nat, sw: nat, sh: nat, player: Player)
    requires sw <= w && sh <= h
    ensures Counts(get, w, h, sw, sh, player)[..3] == Counts(get, w, h, sw, sh, Not(player))[3..]
    ensures Counts(get, w, h, sw, sh, player)[3..] == Counts(get, w, h, sw, sh, Not(player))[..3]
  {
    NotInvolution(player);
  }

  /** No cell next to the scanned region holds `c`. */
  predicate NoneNear(get: (int, int) -> nat, w: nat, h: nat, sw: nat, sh: nat, c: nat)
  {
    forall x: int, y: int | 0 <= x <= sw && 0 <= y <= sh :: !Match(get, w, h, x, y, c)
  }

  /**
   * A code that appears nowhere in or next to the scanned region gets no
   * count of any length: every run starts one step from a scanned cell.
   */
  lemma NoneNearNoTally(get: (int, int) -> nat, w: nat, h: nat, sw: nat, sh: nat, c: nat, j: nat)
    requires sw <= w && sh <= h && 1 <= j && NoneNear(get, w, h, sw, sh, c)
    ensures GridTally(get, w, h, sh, c, j, sw) == 0
  {
    forall x: nat, y: nat, d: (int, int) | x < sw && y < sh && d in ScanDirections
      ensures DirLength(get, w, h, x, y, d, c) == 0
    {
      assert !MatchAt(get, w, h, x, y, d.0, d.1, c, 1);
      assert !MatchAt(get, w, h, x, y, -d.0, -d.1, c, 1);
    }
    NoTallyColumns(get, w, h, sw, sh, c, j, sw);
  }

  lemma {:induction false} NoTallyColumns(get: (int, int) -> nat, w: nat, h: nat, sw: nat, sh: nat, c: nat, j: nat, n: nat)
    requires sw <= w && sh <= h && 1 <= j && n <= sw
    requires forall x: nat, y: nat, d: (int, int) | x < sw && y < sh && d in ScanDirections :: DirLength(get, w, h, x, y, d, c) == 0
    ensures GridTally(get, w, h, sh, c, j, n) == 0
  {
    if n > 0 {
      NoTallyColumns(get, w, h, sw, sh, c, j, n - 1);
      NoTallyCells(get, w, h, sw, sh, n - 1, c, j, sh);
    }
  }

  lemma {:induction false} NoTallyCells(get: (int, int) -> nat, w: nat, h: nat, sw: nat, sh: nat, x: nat, c: nat, j: nat, n: nat)
    requires sw <= w && sh <= h && 1 <= j && x < sw && n <= sh
    requires forall x: nat, y: nat, d: (int, int) | x < sw && y < sh && d in ScanDirections :: DirLength(get, w, h, x, y, d, c) == 0
    ensures ColumnTally(get, w, h, x, c, j, n) == 0
  {
    if n > 0 {
      NoTallyCells(get, w, h, sw, sh, x, c, j, n - 1);
      NoTallyDirections(get, w, h, sw, sh, x, n - 1, c, j, 4);
    }
  }

  lemma {:induction false} NoTallyDirections(get: (int, int) -> nat, w: nat, h: nat, sw: nat, sh: nat, x: nat, y: nat, c: nat, j: nat, n: nat)
    requires sw <= w && sh <= h && 1 <= j && x < sw && y < sh && n <= 4
    requires forall x: nat, y: nat, d: (int, int) | x < sw && y < sh && d in ScanDirections :: DirLength(get, w, h, x, y, d, c) == 0
    ensures CellTally(get, w, h, x, y, c, j, n) == 0
  {
    if n > 0 {
      NoTallyDirections(get, w, h, sw, sh, x, y, c, j, n - 1);
      assert ScanDirections[n - 1] in ScanDirections;
    }
  }

  /** On a board with no piece in or next to the scanned region every count is zero. */
  lemma EmptyBoardNoCounts(get: (int, int) -> nat, w: nat, h: nat, sw: nat, sh: nat, player: Player)
    requires sw <= w && sh <= h
    requires forall x: int, y: int | 0 <= x <= sw && 0 <= y <= sh && InGrid(w, h, x, y) :: get(x, y) == 0
    ensures Counts(get, w, h, sw, sh, player) == [0, 0, 0, 0, 0, 0]
  {
    var c, o := Code(player), Code(Not(player));
    NoneNearNoTally(get, w, h, sw, sh, c, 1);
    NoneNearNoTally(get, w, h, sw, sh, c, 2);
    NoneNearNoTally(get, w, h, sw, sh, c, 3);
    NoneNearNoTally(get, w, h, sw, sh, o, 1);
    NoneNearNoTally(get, w, h, sw, sh, o, 2);
    NoneNearNoTally(get, w, h, sw, sh, o, 3);
  }

  /** The counts of all three lengths for code `c` over the first `sw` columns. */
  function TallyTotal(get: (int, int) -> nat, w: nat, h: nat, sw: nat, sh: nat, c: nat): nat
    requires sw <= w && sh <= h
  {
    GridTally(get, w, h, sh, c, 1, sw) + GridTally(get, w, h, sh, c, 2, sw) + GridTally(get, w, h, sh, c, 3, sw)
  }

  /** The empty cells among the first `n` cells of column `x`. */
  function ColumnEmpty(get: (int, int) -> nat, x: nat, n: nat): nat
  {
    if n == 0 then 0 else ColumnEmpty(get, x, n - 1) + (if get(x, n - 1) == 0 then 1 else 0)
  }

  /** The empty cells of the scanned region: the first `n` columns, each over its first `sh` cells. */
  function EmptyCount(get: (int, int) -> nat, sh: nat, n: nat): nat
  {
    if n == 0 then 0 else EmptyCount(get, sh, n - 1) + ColumnEmpty(get, n - 1, sh)
  }

  /** Each direction gives a cell one length at most, so the first `n` directions add at most `n` counts. */
  lemma {:induction false} CellTallyBound(get: (int, int) -> nat, w: nat, h: nat, x: nat, y: nat, c: nat, n: nat)
    requires x < w && y < h && n <= |ScanDirections|
    ensures CellTally(get, w, h, x, y, c, 1, n) + CellTally(get, w, h, x, y, c, 2, n) + CellTally(get, w, h, x, y, c, 3, n) <= n
  {
    if n > 0 {
      CellTallyBound(get, w, h, x, y, c, n - 1);
    }
  }

  lemma {:induction false} ColumnTallyBound(get: (int, int) -> nat, w: nat, h: nat, x: nat, c: nat, n: nat)
    requires x < w && n <= h
    ensures ColumnTally(get, w, h, x, c, 1, n) + ColumnTally(get, w, h, x, c, 2, n) + ColumnTally(get, w, h, x, c, 3, n)
      <= 4 * ColumnEmpty(get, x, n)
  {
    if n > 0 {
      ColumnTallyBound(get, w, h, x, c, n - 1);
      CellTallyBound(get, w, h, x, n - 1, c, 4);
    }
  }

  lemma {:induction false} GridTallyBound(get: (int, int) -> nat, w: nat, h: nat, sh: nat, c: nat, n: nat)
    requires n <= w && sh <= h
    ensures GridTally(get, w, h, sh, c, 1, n) + GridTally(get, w, h, sh, c, 2, n) + GridTally(get, w, h, sh, c, 3, n)
      <= 4 * EmptyCount(get, sh, n)
  {
    if n > 0 {
      GridTallyBound(get, w, h, sh, c, n - 1);
      ColumnTallyBound(get, w, h, n - 1, c, sh);
    }
  }

  /**
   * Every empty scanned cell adds at most one count per direction: the
   * player's three counts together, and the opponent's, are at most four
   * times the number of empty cells scanned.
   */
  lemma CountsBound(get: (int, int) -> nat, w: nat, h: nat, sw: nat, sh: nat, player: Player)
    requires sw <= w && sh <= h
    ensures var f := Counts(get, w, h, sw, sh, player);
      f[0] + f[1] + f[2] <= 4 * EmptyCount(get, sh, sw) && f[3] + f[4] + f[5] <= 4 * EmptyCount(get, sh, sw)
  {
    GridTallyBound(get, w, h, sh, Code(player), sw);
    GridTallyBound(get, w, h, sh, Code(Not(player)), sw);
  }

  /**
   * An empty scanned cell whose neighbour along a scan direction (either
   * way) holds `c` adds at least one count for `c`.
   */
  lemma NeighbourCounted(get: (int, int) -> nat, w: nat, h: nat, sw: nat, sh: nat, c: nat, x: nat, y: nat, i: nat)
    requires sw <= w && sh <= h && x < sw && y < sh && i < |ScanDirections| && get(x, y) == 0
    requires MatchAt(get, w, h, x, y, ScanDirections[i].0, ScanDirections[i].1, c, 1)
          || MatchAt(get, w, h, x, y, -ScanDirections[i].0, -ScanDirections[i].1, c, 1)
    ensures TallyTotal(get, w, h, sw, sh, c) >= 1
  {
    var d := ScanDirections[i];
    var l := DirLength(get, w, h, x, y, d, c);
    assert 1 <= l <= 3;
    CellTallyAt(get, w, h, x, y, c, l, i, 4);
    ColumnTallyAt(get, w, h, x, y, c, l, sh);
    GridTallyAt(get, w, h, sh, x, c, l, sw);
  }

  /** The same, read off the player's three counts. */
  lemma NeighbourInCounts(get: (int, int) -> nat, w: nat, h: nat, sw: nat, sh: nat, player: Player, x: nat, y: nat, i: nat)
    requires sw <= w && sh <= h && x < sw && y < sh && i < |ScanDirections| && get(x, y) == 0
    requires MatchAt(get, w, h, x, y, ScanDirections[i].0, ScanDirections[i].1, Code(player), 1)
          || MatchAt(get, w, h, x, y, -ScanDirections[i].0, -ScanDirections[i].1, Code(player), 1)
    ensures Counts(get, w, h, sw, sh, player)[..3] != [0, 0, 0]
  {
    NeighbourCounted(get, w, h, sw, sh, Code(player), x, y, i);
    var c := Code(player);
    assert Counts(get, w, h, sw, sh, player)[..3]
      == [GridTally(get, w, h, sh, c, 1, sw), GridTally(get, w, h, sh, c, 2, sw), GridTally(get, w, h, sh, c, 3, sw)];
  }

  lemma {:induction false} CellTallyAt(get: (int, int) -> nat, w: nat, h: nat, x: nat, y: nat, c: nat, j: nat, i: nat, n: nat)
    requires x < w && y < h && i < n <= |ScanDirections| && DirLength(get, w, h, x, y, ScanDirections[i], c) == j
    ensures CellTally(get, w, h, x, y, c, j, n) >= 1
  {
    if i < n - 1 {
      CellTallyAt(get, w, h, x, y, c, j, i, n - 1);
    }
  }

  lemma {:induction false} ColumnTallyAt(get: (int, int) -> nat, w: nat, h: nat, x: nat, y: nat, c: nat, j: nat, n: nat)
    requires x < w && y < n <= h && get(x, y) == 0 && CellTally(get, w, h, x, y, c, j, 4) >= 1
    ensures ColumnTally(get, w, h, x, c, j, n) >= 1
  {
    if y < n - 1 {
      ColumnTallyAt(get, w, h, x, y, c, j, n - 1);
    }
  }

  lemma {:induction false} GridTallyAt(get: (int, int) -> nat, w: nat, h: nat, sh: nat, x: nat, c: nat, j: nat, n: nat)
    requires x < n <= w && sh <= h && ColumnTally(get, w, h, x, c, j, sh) >= 1
    ensures GridTally(get, w, h, sh, c, j, n) >= 1
  {
    if x < n - 1 {
      GridTallyAt(get, w, h, sh, x, c, j, n - 1);
    }
  }

  // ---------------------------------------------------------------------------
  // The two games

  /** The counts of `features` on a Connect Four word: the whole 7 by 6 board is scanned. */
  function Connect4Counts(b: nat, player: Player): (f: seq<nat>)
    ensures |f| == 6
  {
    Counts(Connect4Game.Grid(b), Connect4Game.BoardWidth, Connect4Game.BoardHeight,
           Connect4Game.BoardWidth, Connect4Game.BoardHeight, player)
  }

  /** The counts of `features_stack4` as written: only the first 7 columns and 6 rows of the 8 by 8 board are scanned. */
  function Stack4CountsAsWritten(b: nat, player: Player): (f: seq<nat>)
    ensures |f| == 6
  {
    Counts(Stack4Game.Grid(b), Stack4Game.BoardSize, Stack4Game.BoardSize,
           Connect4Game.BoardWidth, Connect4Game.BoardHeight, player)
  }

  /** The counts of `features_stack4` over the whole 8 by 8 board, as the feature is meant. */
  function Stack4Counts(b: nat, player: Player): (f: seq<nat>)
    ensures |f| == 6
  {
    Counts(Stack4Game.Grid(b), Stack4Game.BoardSize, Stack4Game.BoardSize,
           Stack4Game.BoardSize, Stack4Game.BoardSize, player)
  }

  /** Every cell of the 8 by 8 grid is empty except the top right corner `(7, 7)`, which holds a red piece. */
  predicate CornerOnly(get: (int, int) -> nat)
  {
    get(7, 7) == Code(Red) && forall x: int, y: int | 0 <= x < 8 && 0 <= y < 8 && (x != 7 || y != 7) :: get(x, y) == 0
  }

  /**
   * The 7 by 6 scan of `features_stack4` misses a red piece in the corner:
   * the cell `(6, 7)` next to it is empty, yet every count is zero.
   */
  lemma CornerMissedAsWritten(get: (int, int) -> nat)
    requires CornerOnly(get)
    ensures Counts(get, 8, 8, 7, 6, Red) == [0, 0, 0, 0, 0, 0]
  {
    assert forall x: int, y: int | 0 <= x <= 7 && 0 <= y <= 6 && InGrid(8, 8, x, y) :: get(x, y) == 0;
    EmptyBoardNoCounts(get, 8, 8, 7, 6, Red);
  }

  /** The full scan counts the corner piece that the 7 by 6 scan misses, whatever the other cells hold. */
  lemma CornerSeenByFullScan(get: (int, int) -> nat)
    requires get(6, 7) == 0 && get(7, 7) == Code(Red)
    ensures Counts(get, 8, 8, 8, 8, Red)[..3] != [0, 0, 0]
  {
    assert MatchAt(get, 8, 8, 6, 7, 1, 0, Code(Red), 1);
    NeighbourInCounts(get, 8, 8, 8, 8, Red, 6, 7, 0);
  }

  // ---------------------------------------------------------------------------
  // The evaluator

  /** The features: each count through the saturating map `sat` (`10 * (1 - exp(-x / 10))`). */
  function Saturated(f: seq<nat>, sat: nat -> real): (r: seq<real>)
    ensures |r| == |f|
  {
    seq(|f|, i requires 0 <= i < |f| => sat(f[i]))
  }

  /** The sum of `f[i] * p[i]` over the first `n` pairs. */
  function DotTo(f: seq<real>, p: seq<real>, n: nat): real
    requires n <= |f| && n <= |p|
  {
    if n == 0 then 0.0 else DotTo(f, p, n - 1) + f[n - 1] * p[n - 1]
  }

  /** The sum of `f[i] * p[i]` over the pairs of the zip of `f` and `p`. */
  function Dot(f: seq<real>, p: seq<real>): real
  {
    DotTo(f, p, if |f| < |p| then |f| else |p|)
  }

  /** The parameters after `apply_update(update)`: the zipped pairs are added, the rest kept. */
  function Updated(params: seq<real>, update: seq<real>): (r: seq<real>)
    ensures |r| == |params|
    ensures forall i | 0 <= i < |r| :: r[i] == if i < |update| then params[i] + update[i] else params[i]
  {
    seq(|params|, i requires 0 <= i < |params| => if i < |update| then params[i] + update[i] else params[i])
  }

  /** An update followed by its negation restores the parameters. */
  lemma UpdateUndone(params: seq<real>, update: seq<real>)
    ensures Updated(Updated(params, update), seq(|update|, i requires 0 <= i < |update| => -update[i])) == params
  {
  }

  /**
   * The gradient is what it claims to be: after an update of the same
   * length the dot product grows by the dot product of the features with
   * the update.
   */
  lemma {:induction false} DotLinear(f: seq<real>, params: seq<real>, update: seq<real>, n: nat)
    requires |update| == |params| && n <= |f| && n <= |params|
    ensures DotTo(f, Updated(params, update), n) == DotTo(f, params, n) + DotTo(f, update, n)
  {
    if n > 0 {
      DotLinear(f, params, update, n - 1);
      var i := n - 1;
      assert f[i] * (params[i] + update[i]) == f[i] * params[i] + f[i] * update[i];
    }
  }

  /** With all parameters zero the dot product is zero. */
  lemma {:induction false} DotZero(f: seq<real>, p: seq<real>, n: nat)
    requires n <= |f| && n <= |p| && forall i | 0 <= i < |p| :: p[i] == 0.0
    ensures DotTo(f, p, n) == 0.0
  {
    if n > 0 {
      DotZero(f, p, n - 1);
    }
  }

  /** `features(board, player)` on a Connect Four word. */
  function Connect4Features(b: nat, player: Player, sat: nat -> real): (r: seq<real>)
    ensures |r| == 6
  {
    Saturated(Connect4Counts(b, player), sat)
  }

  /** `features_stack4(board, player)` with the whole board scanned. */
  function Stack4Features(b: nat, player: Player, sat: nat -> real): (r: seq<real>)
    ensures |r| == 6
  {
    Saturated(Stack4Counts(b, player), sat)
  }

  /** What `value` returns for a game state and the features of its board. */
  function ValueOf(state: GameState, player: Player, features: seq<real>, params: seq<real>): Score
  {
    match state
    case Won(w) => if w == player then PosInf else NegInf
    case Draw => Fin(0.0)
    case InProgress => Fin(Dot(features, params))
  }

  /**
   * A win is plus infinity and a loss minus infinity; a game in progress is
   * finite, and zero while every parameter is zero (as after `new`).
   */
  lemma ValueSpec(state: GameState, player: Player, features: seq<real>, params: seq<real>)
    ensures state == Won(player) ==> ValueOf(state, player, features, params) == PosInf
    ensures state == Won(Not(player)) ==> ValueOf(state, player, features, params) == NegInf
    ensures state == Draw ==> ValueOf(state, player, features, params) == Fin(0.0)
    ensures state == InProgress ==> ValueOf(state, player, features, params).Fin?
    ensures state == InProgress && (forall i | 0 <= i < |params| :: params[i] == 0.0)
      ==> ValueOf(state, player, features, params) == Fin(0.0)
  {
    if state == InProgress && (forall i | 0 <= i < |params| :: params[i] == 0.0) {
      DotZero(features, params, if |features| < |params| then |features| else |params|);
    }
  }

  /** `ConsequtiveEval`: the six weights of the features. */
  class ConsequtiveEval {
    var params: seq<real>

    /** `ConsequtiveEval::new()`: six zero weights. */
    constructor()
      ensures params == [0.0, 0.0, 0.0, 0.0, 0.0, 0.0]
    {
      params := [0.0, 0.0, 0.0, 0.0, 0.0, 0.0];
    }

    /** `get_params`: a copy of the weights. */
    method GetParams() returns (r: seq<real>)
      ensures r == params
    {
      r := params;
    }

    /** `apply_update(update)`: each weight of the zip moves by its update. */
    method ApplyUpdate(update: seq<real>)
      modifies this
      ensures params == Updated(old(params), update)
    {
      var i := 0;
      while i < |params| && i < |update|
        invariant 0 <= i <= |params| == |old(params)| && i <= |update|
        invariant forall j | 0 <= j < |params| :: params[j] == if j < i then old(params)[j] + update[j] else old(params)[j]
      {
        params := params[i := params[i] + update[i]];
        i := i + 1;
      }
    }

    /** The dot-product loop of `value`. */
    method DotLoop(f: seq<real>) returns (tot: real)
      ensures tot == Dot(f, params)
    {
      tot := 0.0;
      var i := 0;
      while i < |f| && i < |params|
        invariant 0 <= i <= |f| && i <= |params|
        invariant tot == DotTo(f, params, i)
      {
        tot := tot + f[i] * params[i];
        i := i + 1;
      }
    }

    /** The value of a game in progress with features `f`. */
    method ValueInProgress(f: seq<real>) returns (v: Score)
      ensures v == Fin(Dot(f, params))
    {
      var tot := DotLoop(f);
      v := Fin(tot);
    }

    /** `gradient(board, player)` on Connect Four: the features. */
    method GradientConnect4(p: Connect4Game.Position, player: Player, sat: nat -> real) returns (g: seq<real>)
      ensures g == Connect4Features(p.board, player, sat)
    {
      var counts := CountFeatures(Connect4Game.Grid(p.board), Connect4Game.BoardWidth, Connect4Game.BoardHeight,
                                  Connect4Game.BoardWidth, Connect4Game.BoardHeight, player);
      g := Saturated(counts, sat);
    }

    /** `value(board, player)` on Connect Four. */
    method ValueConnect4(p: Connect4Game.Position, player: Player, sat: nat -> real) returns (v: Score)
      ensures v == ValueOf(p.state, player, Connect4Features(p.board, player, sat), params)
    {
      if p.state == InProgress {
        var f := GradientConnect4(p, player, sat);
        v := ValueInProgress(f);
      } else {
        v := if p.state == Draw then Fin(0.0) else if p.state.winner == player then PosInf else NegInf;
      }
    }

    /** `gradient(board, player)` on Stack 4: the features over the whole board. */
    method GradientStack4(p: Stack4Game.Position, player: Player, sat: nat -> real) returns (g: seq<real>)
      ensures g == Stack4Features(p.board, player, sat)
    {
      var counts := CountFeatures(Stack4Game.Grid(p.board), Stack4Game.BoardSize, Stack4Game.BoardSize,
                                  Stack4Game.BoardSize, Stack4Game.BoardSize, player);
      g := Saturated(counts, sat);
    }

    /** `value(board, player)` on Stack 4. */
    method ValueStack4(p: Stack4Game.Position, player: Player, sat: nat -> real) returns (v: Score)
      ensures v == ValueOf(p.state, player, Stack4Features(p.board, player, sat), params)
    {
      if p.state == InProgress {
        var f := GradientStack4(p, player, sat);
        v := ValueInProgress(f);
      } else {
        v := if p.state == Draw then Fin(0.0) else if p.state.winner == player then PosInf else NegInf;
      }
    }
  }
}

/**
 * The rules half of the browser client for Stack 4: the 8 by 8 board as an
 * array of columns (`board[x][y]`, with `(0, 0)` the top left corner), the
 * player to move (1 for ring, 2 for cross), which cells accept a piece, how
 * a piece is placed, and how a four in a row is found.  A piece may go on an
 * empty cell that is the first empty one met when walking in from one of
 * the four edges along its row or column.
 */
module WebGame {
  import opened Games

  const Size: int := 8

  /** `board[x][y]` exists for every cell of the 8 by 8 board. */
  predicate Shaped(board: seq<seq<int>>)
  {
    |board| == Size && forall x | 0 <= x < Size :: |board[x]| == Size
  }

  predicate InBoard(x: int, y: int)
  {
    0 <= x < Size && 0 <= y < Size
  }

  /** `x + d * c` for a direction component `d` in `{-1, 0, 1}`. */
  function Step(x: int, d: int, c: nat): int
  {
    if d > 0 then x + c else if d < 0 then x - c else x
  }

  /** The board of `start` and `reset`: every cell zero. */
  function EmptyBoard(): (b: seq<seq<int>>)
    ensures Shaped(b)
  {
    seq(Size, _ => seq(Size, _ => 0))
  }

  // ---------------------------------------------------------------------------
  // `isArrayEqual` and `boardToServerFormat`

  /** `isArrayEqual(a, b)`: same length and the same entries in order. */
  method IsArrayEqual(a: seq<int>, b: seq<int>) returns (r: bool)
    ensures r <==> a == b
  {
    if |a| != |b| {
      return false;
    }
    for i := 0 to |a|
      invariant a[..i] == b[..i]
    {
      if a[i] != b[i] {
        return false;
      }
      assert a[..i + 1] == a[..i] + [a[i]] && b[..i + 1] == b[..i] + [b[i]];
    }
    assert a[..|a|] == a && b[..|b|] == b;
    return true;
  }

  /** `boardToServerFormat(board)`: the cells column by column, 64 entries. */
  method BoardToServerFormat(board: seq<seq<int>>) returns (out: seq<int>)
    requires Shaped(board)
    ensures |out| == Size * Size
    ensures forall x, y | 0 <= x < Size && 0 <= y < Size :: out[Size * x + y] == board[x][y]
  {
    out := [];
    for x := 0 to Size
      invariant |out| == Size * x
      invariant forall x', y | 0 <= x' < x && 0 <= y < Size :: out[Size * x' + y] == board[x'][y]
    {
      for y := 0 to Size
        invariant |out| == Size * x + y
        invariant forall x', y' | 0 <= x' < x && 0 <= y' < Size :: out[Size * x' + y'] == board[x'][y']
        invariant forall y' | 0 <= y' < y :: out[Size * x + y'] == board[x][y']
      {
        out := out + [board[x][y]];
      }
    }
  }

  /** The server's list read back into columns. */
  function FromServerFormat(s: seq<int>): (b: seq<seq<int>>)
    requires |s| == Size * Size
    ensures Shaped(b)
  {
    seq(Size, x requires 0 <= x < Size => s[Size * x .. Size * x + Size])
  }

  /** Reading the server format back gives the board: the flattening loses nothing. */
  lemma ServerFormatRoundTrip(board: seq<seq<int>>, out: seq<int>)
    requires Shaped(board) && |out| == Size * Size
    requires forall x, y | 0 <= x < Size && 0 <= y < Size :: out[Size * x + y] == board[x][y]
    ensures FromServerFormat(out) == board
  {
    var b := FromServerFormat(out);
    forall x | 0 <= x < Size
      ensures b[x] == board[x]
    {
      assert forall y | 0 <= y < Size :: b[x][y] == out[Size * x + y];
    }
  }

  // ---------------------------------------------------------------------------
  // `dropResult` and `isAcceptableMove`

  /** The ray of `dropResult(x, y, dx, dy)` stays on the board for all its 8 steps. */
  predicate RayOnBoard(x: int, y: int, dx: int, dy: int)
  {
    forall i: nat | i < Size :: InBoard(Step(x, dx, i), Step(y, dy, i))
  }

  /** The cell `k` steps along the ray. */
  function RayCell(x: int, y: int, dx: int, dy: int, k: nat): (int, int)
  {
    (Step(x, dx, k), Step(y, dy, k))
  }

  /** What the board holds `k` steps along the ray. */
  function At(board: seq<seq<int>>, x: int, y: int, dx: int, dy: int, k: nat): int
    requires Shaped(board) && RayOnBoard(x, y, dx, dy) && k < Size
  {
    board[Step(x, dx, k)][Step(y, dy, k)]
  }

  /** The step of the first zero cell along the ray from step `i` on, if any within the 8 steps. */
  function FirstZeroStep(board: seq<seq<int>>, x: int, y: int, dx: int, dy: int, i: nat): Option<nat>
    requires Shaped(board) && RayOnBoard(x, y, dx, dy)
    decreases Size - i
  {
    if i >= Size then None
    else if At(board, x, y, dx, dy, i) == 0 then Some(i)
    else FirstZeroStep(board, x, y, dx, dy, i + 1)
  }

  /** The cell `dropResult` answers: that of the first zero, or `null`. */
  function FirstZero(board: seq<seq<int>>, x: int, y: int, dx: int, dy: int): Option<(int, int)>
    requires Shaped(board) && RayOnBoard(x, y, dx, dy)
  {
    match FirstZeroStep(board, x, y, dx, dy, 0)
    case None => None
    case Some(k) => Some(RayCell(x, y, dx, dy, k))
  }

  /** The walk stops at step `k` exactly when that cell is zero and every cell from step `i` up to it is taken. */
  lemma {:induction false} FirstZeroStepSpec(board: seq<seq<int>>, x: int, y: int, dx: int, dy: int, i: nat, k: nat)
    requires Shaped(board) && RayOnBoard(x, y, dx, dy)
    ensures FirstZeroStep(board, x, y, dx, dy, i) == Some(k) <==>
              && i <= k < Size
              && At(board, x, y, dx, dy, k) == 0
              && forall k': nat | i <= k' < k :: At(board, x, y, dx, dy, k') != 0
    decreases Size - i
  {
    if i < Size && At(board, x, y, dx, dy, i) != 0 {
      FirstZeroStepSpec(board, x, y, dx, dy, i + 1, k);
    }
  }

  /** The walk comes back empty-handed exactly when every cell from step `i` on is taken. */
  lemma {:induction false} FirstZeroStepNone(board: seq<seq<int>>, x: int, y: int, dx: int, dy: int, i: nat)
    requires Shaped(board) && RayOnBoard(x, y, dx, dy)
    ensures FirstZeroStep(board, x, y, dx, dy, i).None? <==>
              forall k: nat | i <= k < Size :: At(board, x, y, dx, dy, k) != 0
    decreases Size - i
  {
    if i < Size && At(board, x, y, dx, dy, i) != 0 {
      FirstZeroStepNone(board, x, y, dx, dy, i + 1);
    }
  }

  /** `dropResult(x, y, deltax, deltay)`: walk the ray and stop at the first zero cell. */
  method DropResult(board: seq<seq<int>>, x: int, y: int, dx: int, dy: int) returns (r: Option<(int, int)>)
    requires Shaped(board) && RayOnBoard(x, y, dx, dy)
    ensures r == FirstZero(board, x, y, dx, dy)
  {
    for i := 0 to Size
      invariant FirstZeroStep(board, x, y, dx, dy, i) == FirstZeroStep(board, x, y, dx, dy, 0)
    {
      if board[Step(x, dx, i)][Step(y, dy, i)] == 0 {
        return Some((Step(x, dx, i), Step(y, dy, i)));
      }
    }
    return None;
  }

  /** The rays `isAcceptableMove` walks: in from the left and right along row `y`, down and up column `x`. */
  lemma RaysOnBoard(x: int, y: int)
    requires InBoard(x, y)
    ensures RayOnBoard(0, y, 1, 0) && RayOnBoard(Size - 1, y, -1, 0)
    ensures RayOnBoard(x, 0, 0, 1) && RayOnBoard(x, Size - 1, 0, -1)
  {
  }

  /** What `isAcceptableMove(x, y)` answers. */
  predicate Acceptable(board: seq<seq<int>>, x: int, y: int)
    requires Shaped(board) && InBoard(x, y)
  {
    RaysOnBoard(x, y);
    && board[x][y] == 0
    && (|| FirstZero(board, 0, y, 1, 0) == Some((x, y))
        || FirstZero(board, Size - 1, y, -1, 0) == Some((x, y))
        || FirstZero(board, x, 0, 0, 1) == Some((x, y))
        || FirstZero(board, x, Size - 1, 0, -1) == Some((x, y)))
  }

  /**
   * `isAcceptableMove(x, y)`: false on a taken cell, otherwise whether one of
   * the four walks in from an edge stops at `(x, y)`.  On an empty cell no
   * walk comes back empty-handed, so `isArrayEqual` never sees `null`.
   */
  method IsAcceptableMove(board: seq<seq<int>>, x: int, y: int) returns (ok: bool)
    requires Shaped(board) && InBoard(x, y)
    ensures ok == Acceptable(board, x, y)
  {
    if board[x][y] != 0 {
      return false;
    }
    RaysOnBoard(x, y);
    ok := Arrives(board, 0, y, 1, 0, x);
    if !ok {
      ok := Arrives(board, Size - 1, y, -1, 0, Size - 1 - x);
    }
    if !ok {
      ok := Arrives(board, x, 0, 0, 1, y);
    }
    if !ok {
      ok := Arrives(board, x, Size - 1, 0, -1, Size - 1 - y);
    }
  }

  /** `isArrayEqual(this.dropResult(sx, sy, dx, dy), [x, y])` for the empty cell `(x, y)` `k` steps along the ray. */
  method Arrives(board: seq<seq<int>>, sx: int, sy: int, dx: int, dy: int, k: nat) returns (ok: bool)
    requires Shaped(board) && RayOnBoard(sx, sy, dx, dy) && k < Size && At(board, sx, sy, dx, dy, k) == 0
    ensures ok <==> FirstZero(board, sx, sy, dx, dy) == Some(RayCell(sx, sy, dx, dy, k))
  {
    var r := DropResult(board, sx, sy, dx, dy);
    FirstZeroStepNone(board, sx, sy, dx, dy, 0);
    assert r.Some?;
    var (x, y) := RayCell(sx, sy, dx, dy, k);
    ok := IsArrayEqual([r.value.0, r.value.1], [x, y]);
    assert [r.value.0, r.value.1] == [x, y] <==> r.value == (x, y);
  }

  /** A walk along a row or column stops at its `k`-th cell exactly when that cell is empty and the ones before it are taken. */
  lemma FromEdge(board: seq<seq<int>>, sx: int, sy: int, dx: int, dy: int, k: nat)
    requires Shaped(board) && RayOnBoard(sx, sy, dx, dy) && k < Size
    requires dx != 0 || dy != 0
    ensures FirstZero(board, sx, sy, dx, dy) == Some(RayCell(sx, sy, dx, dy, k)) <==>
              At(board, sx, sy, dx, dy, k) == 0 && forall k': nat | k' < k :: At(board, sx, sy, dx, dy, k') != 0
  {
    FirstZeroStepSpec(board, sx, sy, dx, dy, 0, k);
    match FirstZeroStep(board, sx, sy, dx, dy, 0) {
      case None =>
      case Some(j) =>
        if RayCell(sx, sy, dx, dy, j) == RayCell(sx, sy, dx, dy, k) {
          assert j == k;
        }
    }
  }

  /** Walking in from the left stops at `(x, y)` exactly when it is empty and every cell to its left is taken. */
  lemma FromLeft(board: seq<seq<int>>, x: int, y: int)
    requires Shaped(board) && InBoard(x, y)
    ensures RayOnBoard(0, y, 1, 0)
    ensures FirstZero(board, 0, y, 1, 0) == Some((x, y)) <==>
              board[x][y] == 0 && forall x' | 0 <= x' < x :: board[x'][y] != 0
  {
    RaysOnBoard(x, y);
    FromEdge(board, 0, y, 1, 0, x);
    assert forall x' | 0 <= x' < Size :: board[x'][y] == At(board, 0, y, 1, 0, x');
  }

  /** Walking in from the right stops at `(x, y)` exactly when it is empty and every cell to its right is taken. */
  lemma FromRight(board: seq<seq<int>>, x: int, y: int)
    requires Shaped(board) && InBoard(x, y)
    ensures RayOnBoard(Size - 1, y, -1, 0)
    ensures FirstZero(board, Size - 1, y, -1, 0) == Some((x, y)) <==>
              board[x][y] == 0 && forall x' | x < x' < Size :: board[x'][y] != 0
  {
    RaysOnBoard(x, y);
    FromEdge(board, Size - 1, y, -1, 0, Size - 1 - x);
    assert forall x' | 0 <= x' < Size :: board[x'][y] == At(board, Size - 1, y, -1, 0, Size - 1 - x');
  }

  /** Walking down from the top stops at `(x, y)` exactly when it is empty and every cell above it is taken. */
  lemma FromTop(board: seq<seq<int>>, x: int, y: int)
    requires Shaped(board) && InBoard(x, y)
    ensures RayOnBoard(x, 0, 0, 1)
    ensures FirstZero(board, x, 0, 0, 1) == Some((x, y)) <==>
              board[x][y] == 0 && forall y' | 0 <= y' < y :: board[x][y'] != 0
  {
    RaysOnBoard(x, y);
    FromEdge(board, x, 0, 0, 1, y);
    assert forall y' | 0 <= y' < Size :: board[x][y'] == At(board, x, 0, 0, 1, y');
  }

  /** Walking up from the bottom stops at `(x, y)` exactly when it is empty and every cell below it is taken. */
  lemma FromBottom(board: seq<seq<int>>, x: int, y: int)
    requires Shaped(board) && InBoard(x, y)
    ensures RayOnBoard(x, Size - 1, 0, -1)
    ensures FirstZero(board, x, Size - 1, 0, -1) == Some((x, y)) <==>
              board[x][y] == 0 && forall y' | y < y' < Size :: board[x][y'] != 0
  {
    RaysOnBoard(x, y);
    FromEdge(board, x, Size - 1, 0, -1, Size - 1 - y);
    assert forall y' | 0 <= y' < Size :: board[x][y'] == At(board, x, Size - 1, 0, -1, Size - 1 - y');
  }

  /**
   * A cell is acceptable exactly when it is empty and every cell between it
   * and one of the four edges, along its row or its column, is taken.
   */
  lemma AcceptableSpec(board: seq<seq<int>>, x: int, y: int)
    requires Shaped(board) && InBoard(x, y)
    ensures Acceptable(board, x, y) <==>
      && board[x][y] == 0
      && (|| (forall x' | 0 <= x' < x :: board[x'][y] != 0)
          || (forall x' | x < x' < Size :: board[x'][y] != 0)
          || (forall y' | 0 <= y' < y :: board[x][y'] != 0)
          || (forall y' | y < y' < Size :: board[x][y'] != 0))
  {
    FromLeft(board, x, y);
    FromRight(board, x, y);
    FromTop(board, x, y);
    FromBottom(board, x, y);
  }
  // ---------------------------------------------------------------------------
  // `hasWon`

  const Directions: seq<(int, int)> := [(0, 1), (1, 1), (1, 0), (-1, 1)]

  /** Cell `c` of the window from `(x, y)` along `(dx, dy)` is on the board and holds `p`. */
  predicate Holds(board: seq<seq<int>>, x: int, y: int, dx: int, dy: int, p: int, c: nat)
    requires Shaped(board)
  {
    InBoard(Step(x, dx, c), Step(y, dy, c)) && board[Step(x, dx, c)][Step(y, dy, c)] == p
  }

  /** The four cells from `(x, y)` along `(dx, dy)` are on the board and all hold `p`. */
  predicate Window(board: seq<seq<int>>, x: int, y: int, dx: int, dy: int, p: int)
    requires Shaped(board)
  {
    forall c: nat | c < 4 :: Holds(board, x, y, dx, dy, p, c)
  }

  /** `p` has four in a row somewhere on the board. */
  ghost predicate Won(board: seq<seq<int>>, p: int)
    requires Shaped(board)
  {
    exists x, y, d | InBoard(x, y) && 0 <= d < 4 :: Window(board, x, y, Directions[d].0, Directions[d].1, p)
  }

  /** A recorded line: a winning window's first and last cells. */
  ghost predicate WinningLine(board: seq<seq<int>>, p: int, line: ((int, int), (int, int)))
    requires Shaped(board)
  {
    var ((x, y), (ex, ey)) := line;
    exists d | 0 <= d < 4 ::
      && Window(board, x, y, Directions[d].0, Directions[d].1, p)
      && (ex, ey) == (Step(x, Directions[d].0, 3), Step(y, Directions[d].1, 3))
  }

  /** The innermost loop of `hasWon`: whether the window from `(x, y)` along `(dx, dy)` is broken. */
  method Broken(board: seq<seq<int>>, x: int, y: int, dx: int, dy: int, p: int) returns (isBroken: bool)
    requires Shaped(board)
    ensures isBroken <==> !Window(board, x, y, dx, dy, p)
  {
    isBroken := false;
    for c := 0 to 4
      invariant isBroken <==> exists c': nat | c' < c :: !Holds(board, x, y, dx, dy, p, c')
    {
      if !InBoard(Step(x, dx, c), Step(y, dy, c)) {
        assert !Holds(board, x, y, dx, dy, p, c);
        isBroken := true;
        continue;
      }
      if board[Step(x, dx, c)][Step(y, dy, c)] != p {
        assert !Holds(board, x, y, dx, dy, p, c);
        isBroken := true;
      } else {
        assert Holds(board, x, y, dx, dy, p, c);
      }
    }
  }

  /** Some direction among the first `n` gives `p` a window from `(x, y)`. */
  ghost predicate AnyDirection(board: seq<seq<int>>, p: int, x: int, y: int, n: int)
    requires Shaped(board) && n <= 4
  {
    exists d | 0 <= d < n :: Window(board, x, y, Directions[d].0, Directions[d].1, p)
  }

  /** Some cell among the first `n` of column `x` starts a window of `p`. */
  ghost predicate AnyInColumn(board: seq<seq<int>>, p: int, x: int, n: int)
    requires Shaped(board)
  {
    exists y | 0 <= y < n :: AnyDirection(board, p, x, y, 4)
  }

  /** Some cell of the first `n` columns starts a window of `p`. */
  ghost predicate AnyBefore(board: seq<seq<int>>, p: int, n: int)
    requires Shaped(board)
  {
    exists x | 0 <= x < n :: AnyInColumn(board, p, x, Size)
  }

  lemma AnyBeforeWon(board: seq<seq<int>>, p: int)
    requires Shaped(board)
    ensures AnyBefore(board, p, Size) <==> Won(board, p)
  {
    if Won(board, p) {
      var x, y, d :| InBoard(x, y) && 0 <= d < 4 && Window(board, x, y, Directions[d].0, Directions[d].1, p);
      assert AnyDirection(board, p, x, y, 4);
      assert AnyInColumn(board, p, x, Size);
    }
    if AnyBefore(board, p, Size) {
      var x :| 0 <= x < Size && AnyInColumn(board, p, x, Size);
      var y :| 0 <= y < Size && AnyDirection(board, p, x, y, 4);
      var d :| 0 <= d < 4 && Window(board, x, y, Directions[d].0, Directions[d].1, p);
      assert InBoard(x, y);
    }
  }

  /** The line `hasWon` records for the window from `(x, y)` along direction `d`: its first and last cell. */
  function LineOf(x: int, y: int, d: int): ((int, int), (int, int))
    requires 0 <= d < 4
  {
    ((x, y), (Step(x, Directions[d].0, 3), Step(y, Directions[d].1, 3)))
  }

  /** If `p` has the window from `(x, y)` along direction `d`, its line is among `lines`. */
  predicate Recorded(board: seq<seq<int>>, p: int, lines: seq<((int, int), (int, int))>, x: int, y: int, d: int)
    requires Shaped(board) && 0 <= d < 4
  {
    Window(board, x, y, Directions[d].0, Directions[d].1, p) ==> LineOf(x, y, d) in lines
  }

  /** Lines only get appended, so what was recorded stays recorded. */
  lemma RecordedKept(board: seq<seq<int>>, p: int, a: seq<((int, int), (int, int))>, b: seq<((int, int), (int, int))>)
    requires Shaped(board) && a <= b
    ensures forall x, y, d | 0 <= d < 4 && Recorded(board, p, a, x, y, d) :: Recorded(board, p, b, x, y, d)
  {
    forall x, y, d | 0 <= d < 4 && Recorded(board, p, a, x, y, d)
      ensures Recorded(board, p, b, x, y, d)
    {
      if Window(board, x, y, Directions[d].0, Directions[d].1, p) {
        var i :| 0 <= i < |a| && a[i] == LineOf(x, y, d);
        assert b[i] == a[i];
      }
    }
  }

  /** The lines found so far and what they say: each is a winning line, and there is one exactly when a window was seen. */
  ghost predicate Found(board: seq<seq<int>>, p: int, lines: seq<((int, int), (int, int))>, seen: bool)
    requires Shaped(board)
  {
    && (forall j | 0 <= j < |lines| :: WinningLine(board, p, lines[j]))
    && (|lines| > 0 <==> seen)
  }

  /**
   * `hasWon(player)`: every cell and every direction, recording the first
   * and last cell of each unbroken window; the flag says whether any was
   * recorded.  The flat coordinate lists of the source are lists of pairs here.
   */
  method HasWon(board: seq<seq<int>>, p: int) returns (won: bool, lines: seq<((int, int), (int, int))>)
    requires Shaped(board)
    ensures won <==> Won(board, p)
    ensures forall j | 0 <= j < |lines| :: WinningLine(board, p, lines[j])
    ensures forall x, y, d | InBoard(x, y) && 0 <= d < 4 :: Recorded(board, p, lines, x, y, d)
    ensures won <==> |lines| != 0
  {
    lines := [];
    for x := 0 to Size
      invariant Found(board, p, lines, AnyBefore(board, p, x))
      invariant forall x', y, d | 0 <= x' < x && 0 <= y < Size && 0 <= d < 4 :: Recorded(board, p, lines, x', y, d)
    {
      ghost var before := lines;
      lines := ScanColumn(board, p, x, lines, AnyBefore(board, p, x));
      RecordedKept(board, p, before, lines);
    }
    AnyBeforeWon(board, p);
    won := |lines| != 0;
  }

  /** The cells of column `x`, from the top. */
  method ScanColumn(board: seq<seq<int>>, p: int, x: int, lines0: seq<((int, int), (int, int))>, ghost seen: bool)
    returns (lines: seq<((int, int), (int, int))>)
    requires Shaped(board) && 0 <= x < Size && Found(board, p, lines0, seen)
    requires seen == AnyBefore(board, p, x)
    ensures Found(board, p, lines, AnyBefore(board, p, x + 1))
    ensures lines0 <= lines
    ensures forall y, d | 0 <= y < Size && 0 <= d < 4 :: Recorded(board, p, lines, x, y, d)
  {
    lines := lines0;
    for y := 0 to Size
      invariant Found(board, p, lines, seen || AnyInColumn(board, p, x, y))
      invariant lines0 <= lines
      invariant forall y', d | 0 <= y' < y && 0 <= d < 4 :: Recorded(board, p, lines, x, y', d)
    {
      ghost var before := lines;
      lines := ScanCell(board, p, x, y, lines, seen || AnyInColumn(board, p, x, y));
      RecordedKept(board, p, before, lines);
      ColumnStep(board, p, x, y);
    }
    BeforeStep(board, p, x);
  }

  lemma ColumnStep(board: seq<seq<int>>, p: int, x: int, y: int)
    requires Shaped(board) && 0 <= y
    ensures AnyInColumn(board, p, x, y + 1) <==> AnyInColumn(board, p, x, y) || AnyDirection(board, p, x, y, 4)
  {
    if AnyInColumn(board, p, x, y + 1) {
      var y' :| 0 <= y' < y + 1 && AnyDirection(board, p, x, y', 4);
      if y' < y {
        assert AnyInColumn(board, p, x, y);
      }
    }
  }

  lemma BeforeStep(board: seq<seq<int>>, p: int, x: int)
    requires Shaped(board) && 0 <= x
    ensures AnyBefore(board, p, x + 1) <==> AnyBefore(board, p, x) || AnyInColumn(board, p, x, Size)
  {
    if AnyBefore(board, p, x + 1) {
      var x' :| 0 <= x' < x + 1 && AnyInColumn(board, p, x', Size);
      if x' < x {
        assert AnyBefore(board, p, x);
      }
    }
  }

  /** The four directions from `(x, y)`. */
  method ScanCell(board: seq<seq<int>>, p: int, x: int, y: int, lines0: seq<((int, int), (int, int))>, ghost seen: bool)
    returns (lines: seq<((int, int), (int, int))>)
    requires Shaped(board) && 0 <= x < Size && 0 <= y < Size && Found(board, p, lines0, seen)
    ensures Found(board, p, lines, seen || AnyDirection(board, p, x, y, 4))
    ensures lines0 <= lines
    ensures forall d | 0 <= d < 4 :: Recorded(board, p, lines, x, y, d)
  {
    lines := lines0;
    for d := 0 to 4
      invariant Found(board, p, lines, seen || AnyDirection(board, p, x, y, d))
      invariant lines0 <= lines
      invariant forall d' | 0 <= d' < d :: Recorded(board, p, lines, x, y, d')
    {
      var (dx, dy) := Directions[d];
      var isBroken := Broken(board, x, y, dx, dy, p);
      DirectionStep(board, p, x, y, d);
      ghost var before := lines;
      if !isBroken {
        var line := ((x, y), (Step(x, dx, 3), Step(y, dy, 3)));
        assert line == LineOf(x, y, d);
        assert WinningLine(board, p, line);
        lines := lines + [line];
      }
      RecordedKept(board, p, before, lines);
      assert Recorded(board, p, lines, x, y, d);
    }
  }

  lemma DirectionStep(board: seq<seq<int>>, p: int, x: int, y: int, d: int)
    requires Shaped(board) && 0 <= d < 4
    ensures AnyDirection(board, p, x, y, d + 1) <==>
              AnyDirection(board, p, x, y, d) || Window(board, x, y, Directions[d].0, Directions[d].1, p)
  {
    if AnyDirection(board, p, x, y, d + 1) {
      var d' :| 0 <= d' < d + 1 && Window(board, x, y, Directions[d'].0, Directions[d'].1, p);
      if d' < d {
        assert AnyDirection(board, p, x, y, d);
      }
    }
  }

  // ---------------------------------------------------------------------------
  // The game object

  /** The other player: `!(whoseTurn - 1) + 1`, which maps 1 to 2 and anything else to 1. */
  function Flip(t: int): int
  {
    if t - 1 == 0 then 2 else 1
  }

  /** Flipping twice gives the player back, and the result is always a player. */
  lemma FlipSpec(t: int)
    requires t == 1 || t == 2
    ensures Flip(t) == 1 || Flip(t) == 2
    ensures Flip(t) != t && Flip(Flip(t)) == t
  {
  }

  /** `stack4x4`: the board and the player to move. */
  class Stack4Page {
    var board: seq<seq<int>>
    var whoseTurn: int

    /** The board is 8 by 8, every cell empty or a player's, and a player is to move. */
    predicate Valid()
      reads this
    {
      && Shaped(board)
      && (forall x, y | 0 <= x < Size && 0 <= y < Size :: 0 <= board[x][y] <= 2)
      && (whoseTurn == 1 || whoseTurn == 2)
    }

    constructor ()
      ensures board == EmptyBoard() && whoseTurn == 2 && Valid()
    {
      board := EmptyBoard();
      whoseTurn := 2;
    }

    /** `start()`: a fresh 8 by 8 board of zeros, cross to move. */
    method Start()
      modifies this
      ensures board == EmptyBoard() && whoseTurn == 2 && Valid()
    {
      var b: seq<seq<int>> := [];
      whoseTurn := 2;
      for i := 0 to Size
        invariant |b| == i && forall i' | 0 <= i' < i :: b[i'] == seq(Size, _ => 0)
      {
        var column: seq<int> := [];
        for j := 0 to Size
          invariant column == seq(j, _ => 0)
        {
          column := column + [0];
        }
        b := b + [column];
      }
      board := b;
    }

    /** `reset()`, the state part: every cell cleared in place, cross to move. */
    method Reset()
      requires Shaped(board)
      modifies this
      ensures board == EmptyBoard() && whoseTurn == 2 && Valid()
    {
      for i := 0 to Size
        invariant Shaped(board)
        invariant forall i' | 0 <= i' < i :: board[i'] == seq(Size, _ => 0)
      {
        for j := 0 to Size
          invariant Shaped(board)
          invariant forall i' | 0 <= i' < i :: board[i'] == seq(Size, _ => 0)
          invariant forall j' | 0 <= j' < j :: board[i][j'] == 0
        {
          board := board[i := board[i][j := 0]];
        }
        assert board[i] == seq(Size, _ => 0);
      }
      whoseTurn := 2;
    }

    /**
     * `placePiece(x, y)`: on an acceptable cell, the mover's piece goes there
     * and the turn passes; on any other cell nothing changes.
     */
    method PlacePiece(x: int, y: int)
      requires Valid() && InBoard(x, y)
      modifies this
      ensures Valid()
      ensures Acceptable(old(board), x, y) ==>
                board == old(board)[x := old(board)[x][y := old(whoseTurn)]] && whoseTurn == Flip(old(whoseTurn))
      ensures !Acceptable(old(board), x, y) ==> board == old(board) && whoseTurn == old(whoseTurn)
    {
      var ok := IsAcceptableMove(board, x, y);
      if ok {
        PlaceSpec(board, whoseTurn, x, y);
        FlipSpec(whoseTurn);
        board := board[x := board[x][y := whoseTurn]];
        whoseTurn := Flip(whoseTurn);
      }
    }
  }

  /**
   * Placing a piece keeps the page valid, fills exactly the chosen cell when
   * it is acceptable, and the filled cell is no longer acceptable.
   */
  lemma PlaceSpec(board: seq<seq<int>>, t: int, x: int, y: int)
    requires Shaped(board) && InBoard(x, y) && (t == 1 || t == 2)
    requires forall x', y' | 0 <= x' < Size && 0 <= y' < Size :: 0 <= board[x'][y'] <= 2
    requires Acceptable(board, x, y)
    ensures var b := board[x := board[x][y := t]];
      && Shaped(b)
      && (forall x', y' | 0 <= x' < Size && 0 <= y' < Size :: 0 <= b[x'][y'] <= 2)
      && !Acceptable(b, x, y)
      && (forall x', y' | 0 <= x' < Size && 0 <= y' < Size && (x', y') != (x, y) :: b[x'][y'] == board[x'][y'])
  {
  }

  /** On the empty board exactly the cells along the four edges accept a piece. */
  lemma EmptyAcceptable(x: int, y: int)
    requires InBoard(x, y)
    ensures Acceptable(EmptyBoard(), x, y) <==> x == 0 || x == Size - 1 || y == 0 || y == Size - 1
  {
    AcceptableSpec(EmptyBoard(), x, y);
    var b := EmptyBoard();
    if x != 0 && x != Size - 1 && y != 0 && y != Size - 1 {
      assert b[0][y] == 0 && b[Size - 1][y] == 0 && b[x][0] == 0 && b[x][Size - 1] == 0;
    }
  }
}

/**
 * Stack Four: an 8 by 8 board packed into a `u128`, two bits per cell, row
 * by row from the bottom-left corner (cell `(x, y)` is packed cell
 * `x + 8y`, so the 64 cells fill the word exactly).  A piece may be placed
 * on the first empty cell met when walking inwards from any edge square,
 * and four in a row wins as in Connect Four.
 *
 * The class `Stack4` updates the word, the player to move and the game
 * state in place; the functions on words and on `Position` snapshots say
 * what each method computes.
 */
module Stack4Game {
  import opened Packed
  import opened Games
  import WinCheck

  const BoardSize: nat := 8

  /** A square of the board, the action of a move. */
  datatype Square = Square(x: nat, y: nat)

  predicate OnBoard(q: Square)
  {
    q.x < BoardSize && q.y < BoardSize
  }

  /** Packed cell index of `(x, y)`. */
  function Index(x: nat, y: nat): nat
  {
    x + 8 * y
  }

  /** `get(x, y)` on the word `b`. */
  function CodeAt(b: nat, x: nat, y: nat): (c: nat)
    ensures c < 4
  {
    Cell(b, Index(x, y))
  }

  /** `get` as the win check sees it. */
  function Grid(b: nat): (int, int) -> nat
  {
    (x: int, y: int) => if 0 <= x < BoardSize && 0 <= y < BoardSize then CodeAt(b, x, y) else 0
  }

  /** No cell of the board is empty. */
  predicate NoEmptyCell(b: nat)
  {
    forall x, y | 0 <= x < BoardSize && 0 <= y < BoardSize :: CodeAt(b, x, y) != 0
  }

  /**
   * Square `k` steps inwards along ray `c` of side `s` of `legal_actions`:
   * the rays start at `start + c * dir` for the (start, dir) pairs
   * ((0, 0), (1, 0)), ((7, 0), (0, 1)), ((7, 7), (-1, 0)), ((0, 7), (0, -1))
   * and walk along the inward direction `(-dir.y, dir.x)`.  Side 0 walks up
   * from the bottom edge, side 1 left from the right edge, side 2 down from
   * the top edge and side 3 right from the left edge.
   */
  function RaySquare(s: nat, c: nat, k: nat): (q: Square)
    requires s < 4 && c < BoardSize && k < BoardSize
    ensures OnBoard(q)
  {
    if s == 0 then Square(c, k)
    else if s == 1 then Square(7 - k, c)
    else if s == 2 then Square(7 - c, 7 - k)
    else Square(k, 7 - c)
  }

  /** The first empty square on ray `c` of side `s` from step `k` on, if any: what the inner loop pushes. */
  function RayHit(b: nat, s: nat, c: nat, k: nat): (r: seq<Square>)
    requires s < 4 && c < BoardSize && k <= BoardSize
    ensures |r| <= 1
    decreases BoardSize - k
  {
    if k == BoardSize then []
    else
      var q := RaySquare(s, c, k);
      if CodeAt(b, q.x, q.y) == 0 then [q] else RayHit(b, s, c, k + 1)
  }

  /** What ray `c` of side `s` pushes, for every ray. */
  function RayHits(b: nat): (nat, nat) -> seq<Square>
  {
    (s: nat, c: nat) => if s < 4 && c < BoardSize then RayHit(b, s, c, 0) else []
  }

  /** `hit` of each ray before ray `c` of side `s`, concatenated in the order the rays are scanned. */
  function Collect(hit: (nat, nat) -> seq<Square>, s: nat, c: nat): seq<Square>
    requires s <= 4 && c <= BoardSize && (s == 4 ==> c == 0)
    decreases s, c
  {
    if c == 0 then (if s == 0 then [] else Collect(hit, s - 1, BoardSize))
    else Collect(hit, s, c - 1) + hit(s, c - 1)
  }

  /** With at most one square per ray, the rays before ray `c` of side `s` give at most `8 * s + c`. */
  lemma {:induction false} CollectLength(hit: (nat, nat) -> seq<Square>, s: nat, c: nat)
    requires s <= 4 && c <= BoardSize && (s == 4 ==> c == 0)
    requires forall s': nat, c': nat | s' < 4 && c' < BoardSize :: |hit(s', c')| <= 1
    ensures |Collect(hit, s, c)| <= 8 * s + c
    decreases s, c
  {
    if c == 0 {
      if s > 0 {
        CollectLength(hit, s - 1, BoardSize);
      }
    } else {
      CollectLength(hit, s, c - 1);
    }
  }

  /** The squares pushed by the rays before ray `c` of side `s`, in order, duplicates kept. */
  function Hits(b: nat, s: nat, c: nat): (r: seq<Square>)
    requires s <= 4 && c <= BoardSize && (s == 4 ==> c == 0)
    ensures |r| <= 8 * s + c
  {
    RayHitsShort(b);
    CollectLength(RayHits(b), s, c);
    Collect(RayHits(b), s, c)
  }

  /** A ray pushes at most one square. */
  lemma RayHitsShort(b: nat)
    ensures forall s: nat, c: nat | s < 4 && c < BoardSize :: |RayHits(b)(s, c)| <= 1
  {
  }

  /** `q` is the first empty square on ray `c` of side `s`. */
  predicate FirstEmptyOnRay(b: nat, s: nat, c: nat, q: Square)
    requires s < 4 && c < BoardSize
  {
    exists k | 0 <= k < BoardSize ::
      && q == RaySquare(s, c, k)
      && CodeAt(b, q.x, q.y) == 0
      && forall k' | 0 <= k' < k :: CodeAt(b, RaySquare(s, c, k').x, RaySquare(s, c, k').y) != 0
  }

  /** `q` is the first empty square on one of the 32 rays. */
  predicate Reachable(b: nat, q: Square)
  {
    exists s, c | 0 <= s < 4 && 0 <= c < BoardSize :: FirstEmptyOnRay(b, s, c, q)
  }

  predicate NoDuplicates(v: seq<Square>)
  {
    forall i, j | 0 <= i < j < |v| :: v[i] != v[j]
  }

  /** The state after the mover's piece lands at `(x, y)` of the new word `b`. */
  function Outcome(b: nat, x: nat, y: nat, mover: Player): GameState
    requires x < BoardSize && y < BoardSize
  {
    if WinCheck.WonAt(Grid(b), BoardSize, BoardSize, x, y) then Won(mover)
    else if NoEmptyCell(b) then Draw
    else InProgress
  }

  /** A snapshot of the three fields of a `Stack4`. */
  datatype Position = Position(board: nat, cur: Player, state: GameState)

  /** The word, player and state after `play_action((x, y))`; the square is not checked. */
  function Play(p: Position, x: nat, y: nat): Position
    requires x < BoardSize && y < BoardSize
  {
    var b := Put(p.board, Index(x, y), Code(p.cur));
    Position(b, Not(p.cur), Outcome(b, x, y, p.cur))
  }

  /** The position after `reverse_last_action((x, y))`: the cell is emptied, nothing else changes. */
  function Reverse(p: Position, x: nat, y: nat): Position
    requires x < BoardSize && y < BoardSize
  {
    p.(board := Put(p.board, Index(x, y), 0))
  }

  // ---------------------------------------------------------------------------
  // The game object

  class Stack4 {
    var board: nat
    var curPlayer: Player
    var gameState: GameState

    function Snapshot(): Position
      reads this
    {
      Position(board, curPlayer, gameState)
    }

    /** `new()`: the empty board, Red to move, game in progress. */
    constructor ()
      ensures board == 0 && curPlayer == Red && gameState == InProgress
      ensures forall x, y | 0 <= x < BoardSize && 0 <= y < BoardSize :: CodeAt(board, x, y) == 0
    {
      board := 0;
      curPlayer := Red;
      gameState := InProgress;
      forall x, y | 0 <= x < BoardSize && 0 <= y < BoardSize
        ensures CodeAt(0, x, y) == 0
      {
        CellOfDigit(0, Index(x, y));
      }
    }

    /** `in_board`. */
    static predicate InBoard(x: int, y: int)
    {
      WinCheck.InGrid(BoardSize, BoardSize, x, y)
    }

    /** `get(x, y)`. */
    function Get(x: nat, y: nat): (c: nat)
      reads this
      requires Index(x, y) < WordCells
      ensures c < 4
    {
      Cell(board, Index(x, y))
    }

    /** `set(x, y, v)`: overwrite one cell's code. */
    method Set(x: nat, y: nat, v: nat)
      requires Index(x, y) < WordCells && v < 4 && board < WordBound
      modifies this
      ensures board == Put(old(board), Index(x, y), v)
      ensures board < WordBound
      ensures curPlayer == old(curPlayer) && gameState == old(gameState)
    {
      PutCell(board, Index(x, y), v);
      board := And(board, ClearMask(Index(x, y))) + Shl(v, Index(x, y));
    }

    /** `uid`: the board word itself, from which every cell can be read back. */
    function Uid(): (u: nat)
      reads this
      ensures forall x, y | 0 <= x < BoardSize && 0 <= y < BoardSize :: CodeAt(u, x, y) == CodeAt(board, x, y)
    {
      board
    }

    /** `player_won(pos)`: the four-direction run count on the 8 by 8 board. */
    method PlayerWon(x: nat, y: nat) returns (won: bool)
      requires x < BoardSize && y < BoardSize
      ensures won == WinCheck.WonAt(Grid(board), BoardSize, BoardSize, x, y)
    {
      won := WinCheck.PlayerWon(Grid(board), BoardSize, BoardSize, x, y);
    }

    /**
     * `legal_actions`: walk each of the 32 rays inwards and push its first
     * empty square, then drop the duplicates.  The source drops them through
     * a hash set, whose order is unspecified; the model keeps first
     * occurrences, and the contract says nothing about the order.
     */
    method LegalActions() returns (v: seq<Square>)
      ensures forall i | 0 <= i < |v| :: OnBoard(v[i]) && CodeAt(board, v[i].x, v[i].y) == 0
      ensures NoDuplicates(v)
      ensures forall q :: q in v <==> Reachable(board, q)
      ensures |v| <= 32
    {
      var actions := PushedSquares();
      v := Distinct(actions);
      CollectedHits(board, actions, v);
    }

    /** The two outer loops of `legal_actions`: every ray's first empty square, in ray order. */
    method PushedSquares() returns (actions: seq<Square>)
      ensures actions == Hits(board, 4, 0)
    {
      actions := [];
      for s := 0 to 4
        invariant actions == Hits(board, s, 0)
      {
        actions := PushSide(s, actions);
      }
    }

    /** The middle loop of `legal_actions`: push the first empty square of each ray of side `s`. */
    method PushSide(s: nat, pushed: seq<Square>) returns (actions: seq<Square>)
      requires s < 4 && pushed == Hits(board, s, 0)
      ensures actions == Hits(board, s + 1, 0)
    {
      actions := pushed;
      for c := 0 to BoardSize
        invariant actions == Hits(board, s, c)
      {
        var hit := WalkRay(s, c);
        actions := actions + hit;
      }
    }

    /** The inner loop of `legal_actions`: walk ray `c` of side `s` inwards until the first empty square. */
    method WalkRay(s: nat, c: nat) returns (hit: seq<Square>)
      requires s < 4 && c < BoardSize
      ensures hit == RayHit(board, s, c, 0)
    {
      hit := [];
      for k := 0 to BoardSize
        invariant RayHit(board, s, c, k) == RayHit(board, s, c, 0)
      {
        var q := RaySquare(s, c, k);
        if CodeAt(board, q.x, q.y) == 0 {
          hit := [q];
          break;
        }
      }
    }

    /** The hash set `legal_actions` collects its pushes into: each pushed square once. */
    static method Distinct(actions: seq<Square>) returns (v: seq<Square>)
      ensures NoDuplicates(v) && |v| <= |actions|
      ensures forall q :: q in v <==> q in actions
    {
      v := [];
      for i := 0 to |actions|
        invariant NoDuplicates(v) && |v| <= i
        invariant forall q :: q in v <==> q in actions[..i]
      {
        if actions[i] !in v {
          v := v + [actions[i]];
        }
      }
      assert actions[..|actions|] == actions;
    }

    /** `is_full`: `legal_actions` is empty, which happens exactly when no cell is empty. */
    method IsFull() returns (full: bool)
      ensures full <==> NoEmptyCell(board)
    {
      var actions := LegalActions();
      full := |actions| == 0;
      NoActionsIffFull(board, actions);
    }

    /**
     * `play_action((x, y))`: write the mover's code at the square without
     * checking it, settle the game state and hand the move to the opponent.
     * The source asserts the game is in progress.
     */
    method PlayAction(x: nat, y: nat)
      requires gameState == InProgress && x < BoardSize && y < BoardSize
      requires board < WordBound
      modifies this
      ensures Snapshot() == Play(old(Snapshot()), x, y)
      ensures board < WordBound
    {
      Set(x, y, Code(curPlayer));
      var won := PlayerWon(x, y);
      if won {
        gameState := Won(curPlayer);
      } else {
        var full := IsFull();
        if full {
          gameState := Draw;
        } else {
          gameState := InProgress;
        }
      }
      curPlayer := Not(curPlayer);
    }

    /** `reverse_last_action((x, y))`: empty the square; the player and the state stay as they are. */
    method ReverseLastAction(x: nat, y: nat)
      requires x < BoardSize && y < BoardSize && board < WordBound
      modifies this
      ensures Snapshot() == Reverse(old(Snapshot()), x, y)
      ensures board < WordBound
    {
      Set(x, y, 0);
    }

    /** `vectorize(player)`: one entry per cell in packed order. */
    method Vectorize(player: Player) returns (v: seq<real>)
      ensures |v| == 64
      ensures forall k | 0 <= k < |v| :: v[k] == VectorEntry(Cell(board, k), player)
    {
      v := [];
      var word := board;
      var i := 0;
      while i < BoardSize
        invariant 0 <= i <= BoardSize
        invariant |v| == 8 * i
        invariant word == Shr(board, |v|)
        invariant forall k | 0 <= k < |v| :: v[k] == VectorEntry(Cell(board, k), player)
      {
        var j := 0;
        while j < BoardSize
          invariant 0 <= j <= BoardSize
          invariant |v| == 8 * i + j
          invariant word == Shr(board, |v|)
          invariant forall k | 0 <= k < |v| :: v[k] == VectorEntry(Cell(board, k), player)
        {
          var cur := word % 4;
          assert cur == Cell(board, |v|) by {
            CellShiftDown(board, |v|, 0);
          }
          if cur == Code(player) {
            v := v + [1.0];
          } else if cur == Code(Not(player)) {
            v := v + [-1.0];
          } else {
            v := v + [0.0];
          }
          ShrStep(board, |v| - 1);
          word := word / 4;
          j := j + 1;
        }
        i := i + 1;
      }
    }
  }

  // ---------------------------------------------------------------------------
  // Lemmas

  /** The square a ray pushes is the first empty square on it. */
  lemma {:induction false} RayHitSpec(b: nat, s: nat, c: nat, k: nat)
    requires s < 4 && c < BoardSize && k <= BoardSize
    requires forall k' | 0 <= k' < k :: CodeAt(b, RaySquare(s, c, k').x, RaySquare(s, c, k').y) != 0
    ensures forall q :: q in RayHit(b, s, c, k) <==> FirstEmptyOnRay(b, s, c, q)
    decreases BoardSize - k
  {
    if k < BoardSize {
      var q := RaySquare(s, c, k);
      if CodeAt(b, q.x, q.y) == 0 {
        assert FirstEmptyOnRay(b, s, c, q);
      } else {
        RayHitSpec(b, s, c, k + 1);
      }
    }
  }

  /** Some ray before ray `c` of side `s`, sides and rays taken in the order they are scanned, has `q` among `hit` of it. */
  ghost predicate HitBefore(hit: (nat, nat) -> seq<Square>, s: nat, c: nat, q: Square)
  {
    exists s', c' | 0 <= s' < 4 && 0 <= c' < BoardSize && (s' < s || (s' == s && c' < c)) :: q in hit(s', c')
  }

  /** No ray comes before the first ray of the first side. */
  lemma NothingBefore(hit: (nat, nat) -> seq<Square>, q: Square)
    ensures !HitBefore(hit, 0, 0, q)
  {
  }

  /** The rays before the first ray of side `s` are those before the end of side `s - 1`. */
  lemma HitBeforeSide(hit: (nat, nat) -> seq<Square>, s: nat, q: Square)
    requires 0 < s <= 4
    ensures HitBefore(hit, s, 0, q) <==> HitBefore(hit, s - 1, BoardSize, q)
  {
    if HitBefore(hit, s, 0, q) {
      var s', c' :| 0 <= s' < 4 && 0 <= c' < BoardSize && s' < s && q in hit(s', c');
      assert s' < s - 1 || (s' == s - 1 && c' < BoardSize);
    }
  }

  /** The rays before ray `c` are those before ray `c - 1` and ray `c - 1` itself. */
  lemma HitBeforeRay(hit: (nat, nat) -> seq<Square>, s: nat, c: nat, q: Square)
    requires s < 4 && 0 < c <= BoardSize
    ensures HitBefore(hit, s, c, q) <==> HitBefore(hit, s, c - 1, q) || q in hit(s, c - 1)
  {
    if HitBefore(hit, s, c, q) {
      var s', c' :| 0 <= s' < 4 && 0 <= c' < BoardSize && (s' < s || (s' == s && c' < c)) && q in hit(s', c');
      if s' != s || c' != c - 1 {
        assert HitBefore(hit, s, c - 1, q);
      }
    }
    if q in hit(s, c - 1) {
      assert HitBefore(hit, s, c, q);
    }
  }

  /** Some ray before ray `c` of side `s` pushes `q`. */
  ghost predicate PushedBefore(b: nat, s: nat, c: nat, q: Square)
  {
    HitBefore(RayHits(b), s, c, q)
  }

  /** `Collect` gathers exactly what the earlier rays hit. */
  lemma {:induction false} CollectUpTo(hit: (nat, nat) -> seq<Square>, s: nat, c: nat, q: Square)
    requires s <= 4 && c <= BoardSize && (s == 4 ==> c == 0)
    ensures q in Collect(hit, s, c) <==> HitBefore(hit, s, c, q)
    decreases s, c
  {
    if c == 0 {
      if s > 0 {
        CollectUpTo(hit, s - 1, BoardSize, q);
        HitBeforeSide(hit, s, q);
      } else {
        NothingBefore(hit, q);
      }
    } else {
      CollectUpTo(hit, s, c - 1, q);
      HitBeforeRay(hit, s, c, q);
    }
  }

  /** `Hits` collects exactly what the earlier rays push. */
  lemma HitsUpTo(b: nat, s: nat, c: nat, q: Square)
    requires s <= 4 && c <= BoardSize && (s == 4 ==> c == 0)
    ensures q in Hits(b, s, c) <==> PushedBefore(b, s, c, q)
  {
    CollectUpTo(RayHits(b), s, c, q);
  }

  /** One square: pushed by some ray exactly when it is the first empty square of some ray. */
  lemma PushedIffReachable(b: nat, q: Square)
    ensures PushedBefore(b, 4, 0, q) <==> Reachable(b, q)
  {
    if PushedBefore(b, 4, 0, q) {
      var s, c :| 0 <= s < 4 && 0 <= c < BoardSize && q in RayHits(b)(s, c);
      RayHitSpec(b, s, c, 0);
      assert FirstEmptyOnRay(b, s, c, q);
    }
    if Reachable(b, q) {
      var s, c :| 0 <= s < 4 && 0 <= c < BoardSize && FirstEmptyOnRay(b, s, c, q);
      RayHitSpec(b, s, c, 0);
      assert q in RayHits(b)(s, c);
    }
  }

  /** All 32 rays: the pushed squares are exactly the reachable ones, and each is an empty board square. */
  lemma HitsSpec(b: nat)
    ensures forall q :: q in Hits(b, 4, 0) <==> Reachable(b, q)
    ensures forall q | q in Hits(b, 4, 0) :: OnBoard(q) && CodeAt(b, q.x, q.y) == 0
  {
    forall q
      ensures q in Hits(b, 4, 0) <==> Reachable(b, q)
      ensures q in Hits(b, 4, 0) ==> OnBoard(q) && CodeAt(b, q.x, q.y) == 0
    {
      HitsUpTo(b, 4, 0, q);
      PushedIffReachable(b, q);
      if Reachable(b, q) {
        ReachableEmpty(b, q);
      }
    }
  }

  /** Any collection of the pushed squares holds exactly the reachable squares, all empty board squares. */
  lemma CollectedHits(b: nat, actions: seq<Square>, v: seq<Square>)
    requires actions == Hits(b, 4, 0)
    requires forall q :: q in v <==> q in actions
    ensures forall i | 0 <= i < |v| :: OnBoard(v[i]) && CodeAt(b, v[i].x, v[i].y) == 0
    ensures forall q :: q in v <==> Reachable(b, q)
  {
    HitsSpec(b);
    forall i | 0 <= i < |v|
      ensures OnBoard(v[i]) && CodeAt(b, v[i].x, v[i].y) == 0
    {
      assert v[i] in Hits(b, 4, 0);
    }
  }

  /** A reachable square is an empty square of the board. */
  lemma ReachableEmpty(b: nat, q: Square)
    requires Reachable(b, q)
    ensures OnBoard(q) && CodeAt(b, q.x, q.y) == 0
  {
    var s, c :| 0 <= s < 4 && 0 <= c < BoardSize && FirstEmptyOnRay(b, s, c, q);
  }

  /** `legal_actions` is empty exactly when no cell of the board is empty. */
  lemma NoActionsIffFull(b: nat, v: seq<Square>)
    requires forall q :: q in v <==> Reachable(b, q)
    ensures |v| == 0 <==> NoEmptyCell(b)
  {
    if |v| > 0 {
      assert Reachable(b, v[0]);
      var s, c :| 0 <= s < 4 && 0 <= c < BoardSize && FirstEmptyOnRay(b, s, c, v[0]);
    }
    if !NoEmptyCell(b) {
      var x, y :| 0 <= x < BoardSize && 0 <= y < BoardSize && CodeAt(b, x, y) == 0;
      var k := LowestEmptyRow(b, x, y);
      assert FirstEmptyOnRay(b, 0, x, RaySquare(0, x, k));
      assert RaySquare(0, x, k) in v;
    }
  }

  /** The lowest empty row of column `x`, at most `y`: the first empty square of the bottom ray of that column. */
  lemma LowestEmptyRow(b: nat, x: nat, y: nat) returns (k: nat)
    requires x < BoardSize && y < BoardSize && CodeAt(b, x, y) == 0
    ensures k <= y && CodeAt(b, x, k) == 0
    ensures forall k' | 0 <= k' < k :: CodeAt(b, x, k') != 0
  {
    k := 0;
    while CodeAt(b, x, k) != 0
      invariant k <= y
      invariant forall k' | 0 <= k' < k :: CodeAt(b, x, k') != 0
      decreases y - k
    {
      k := k + 1;
    }
  }

  /** `set(x, y, v)` writes `v` at `(x, y)` and leaves the other 63 cells as they were. */
  lemma SetGet(b: nat, x: nat, y: nat, v: nat, x': nat, y': nat)
    requires b < WordBound && x < BoardSize && y < BoardSize && v < 4
    requires x' < BoardSize && y' < BoardSize
    ensures Put(b, Index(x, y), v) < WordBound
    ensures CodeAt(Put(b, Index(x, y), v), x', y') == if x' == x && y' == y then v else CodeAt(b, x', y')
  {
    IndexInjective(x, y, x', y');
    PutCell(b, Index(x, y), v);
  }

  /** Distinct squares have distinct cells. */
  lemma IndexInjective(x: nat, y: nat, x': nat, y': nat)
    requires x < BoardSize && x' < BoardSize
    ensures Index(x, y) == Index(x', y') <==> x == x' && y == y'
  {
    if y < y' {
      assert Index(x, y) < Index(x', y');
    } else if y > y' {
      assert Index(x, y) > Index(x', y');
    }
  }

  /**
   * Reversing a move on a square that was empty gives back the word, but
   * neither the player to move nor the game state: after the reverse the
   * opponent of the mover is still to move.
   */
  lemma ReverseRestoresBoardOnly(p: Position, x: nat, y: nat)
    requires p.board < WordBound && x < BoardSize && y < BoardSize && CodeAt(p.board, x, y) == 0
    ensures Reverse(Play(p, x, y), x, y).board == p.board
    ensures Reverse(Play(p, x, y), x, y).cur == Not(p.cur) != p.cur
    ensures Reverse(Play(p, x, y), x, y).state == Play(p, x, y).state
  {
    PutRestore(p.board, Index(x, y), Code(p.cur));
  }
}

/**
 * The bitboard Connect Four game: a 7-wide, 6-high board packed into a
 * `u128`, two bits per cell, row by row from the bottom-left corner (cell
 * `(x, y)` is packed cell `x + 7y`).  A move names a column and the piece
 * drops to the lowest empty cell of it.
 *
 * The game itself is the class `Connect4`, whose methods update the word,
 * the player to move and the game state in place.  The functions on words
 * and on `Position` snapshots say what each method computes, and the lemmas
 * state the rules those functions keep.
 */
module Connect4Game {
  import opened Packed
  import opened Games
  import WinCheck

  const BoardWidth: nat := 7
  const BoardHeight: nat := 6
  /** Cells of the board proper; packed cells from here up stay empty. */
  const BoardCells: nat := 42
  /** `4^42`: every word whose cells from 42 up are empty lies below it. */
  const BoardBound: nat := 0x10_0000_0000_0000_0000_0000

  /** Packed cell index of `(x, y)`. */
  function Index(x: nat, y: nat): nat
  {
    x + 7 * y
  }

  /** `get(x, y)` on the word `b`. */
  function CodeAt(b: nat, x: nat, y: nat): (c: nat)
    ensures c < 4
  {
    Cell(b, Index(x, y))
  }

  /** `get` as the win check sees it: the code of each board cell (it never reads outside the board). */
  function Grid(b: nat): (int, int) -> nat
  {
    (x: int, y: int) => if 0 <= x < BoardWidth && 0 <= y < BoardHeight then CodeAt(b, x, y) else 0
  }

  /** `is_valid_move`: the top cell of column `a` is empty. */
  predicate ValidMove(b: nat, a: nat)
    requires a < BoardWidth
  {
    CodeAt(b, a, BoardHeight - 1) == 0
  }

  /** `is_full`: no column accepts a move. */
  predicate BoardFull(b: nat)
  {
    forall a | 0 <= a < BoardWidth :: !ValidMove(b, a)
  }

  /** Every column fills from the bottom: above an empty cell there is only empty space. */
  predicate Gravity(b: nat)
  {
    forall x, y | 0 <= x < BoardWidth && 0 <= y < BoardHeight - 1 ::
      CodeAt(b, x, y) == 0 ==> CodeAt(b, x, y + 1) == 0
  }

  /** Every word a game reaches: nothing outside the 42 board cells, and gravity. */
  predicate Wellformed(b: nat)
  {
    b < BoardBound && Gravity(b)
  }

  /** The first empty cell of column `a` at or above row `y`: what `action_pos` finds. */
  function LowestEmptyFrom(b: nat, a: nat, y: nat): (r: nat)
    requires a < BoardWidth && y < BoardHeight
    requires CodeAt(b, a, BoardHeight - 1) == 0
    ensures y <= r < BoardHeight && CodeAt(b, a, r) == 0
    ensures forall y' | y <= y' < r :: CodeAt(b, a, y') != 0
    decreases BoardHeight - y
  {
    if CodeAt(b, a, y) == 0 then y else LowestEmptyFrom(b, a, y + 1)
  }

  /** Where the piece lands when column `a` is played. */
  function LowestEmpty(b: nat, a: nat): nat
    requires a < BoardWidth && ValidMove(b, a)
  {
    LowestEmptyFrom(b, a, 0)
  }

  /**
   * What `pos_from_action` finds for column `a`: the row below the first
   * empty cell in rows 1 to 5, or the top row when none of them is empty.
   */
  function TopPieceFrom(b: nat, a: nat, y: nat): (r: nat)
    requires a < BoardWidth && 1 <= y <= BoardHeight
    ensures y - 1 <= r < BoardHeight
    decreases BoardHeight - y
  {
    if y == BoardHeight then BoardHeight - 1
    else if CodeAt(b, a, y) == 0 then y - 1
    else TopPieceFrom(b, a, y + 1)
  }

  function TopPiece(b: nat, a: nat): nat
    requires a < BoardWidth
  {
    TopPieceFrom(b, a, 1)
  }

  /** The state after the mover's piece lands at `(x, y)` of the new word `b`. */
  function Outcome(b: nat, x: nat, y: nat, mover: Player): GameState
    requires x < BoardWidth && y < BoardHeight
  {
    if WinCheck.WonAt(Grid(b), BoardWidth, BoardHeight, x, y) then Won(mover)
    else if BoardFull(b) then Draw
    else InProgress
  }

  /** A snapshot of the three fields of a `Connect4`. */
  datatype Position = Position(board: nat, cur: Player, state: GameState)

  /** The word, player and state after `play_action(a)`. */
  function Play(p: Position, a: nat): Position
    requires p.state == InProgress && a < BoardWidth
  {
    if !ValidMove(p.board, a) then p
    else
      var y := LowestEmpty(p.board, a);
      var b := Put(p.board, Index(a, y), Code(p.cur));
      Position(b, Not(p.cur), Outcome(b, a, y, p.cur))
  }

  /** The word, player and state after `reverse_last_action(a)`. */
  function Reverse(p: Position, a: nat): Position
    requires a < BoardWidth
  {
    Position(Put(p.board, Index(a, TopPiece(p.board, a)), 0), Not(p.cur), InProgress)
  }

  /** `legal_actions`, as a list: the valid columns from `a` on, in increasing order. */
  function ValidColumnsFrom(b: nat, a: nat): (r: seq<nat>)
    requires a <= BoardWidth
    ensures |r| <= BoardWidth - a
    ensures forall i | 0 <= i < |r| :: a <= r[i] < BoardWidth
    decreases BoardWidth - a
  {
    if a == BoardWidth then []
    else if ValidMove(b, a) then [a] + ValidColumnsFrom(b, a + 1)
    else ValidColumnsFrom(b, a + 1)
  }

  function ValidColumns(b: nat): (r: seq<nat>)
    ensures |r| <= BoardWidth
    ensures forall i | 0 <= i < |r| :: r[i] < BoardWidth
  {
    ValidColumnsFrom(b, 0)
  }

  // ---------------------------------------------------------------------------
  // The game object

  class Connect4 {
    var board: nat
    var curPlayer: Player
    var gameState: GameState

    function Snapshot(): Position
      reads this
    {
      Position(board, curPlayer, gameState)
    }

    /** `new()`: the empty board, Red to move, game in progress. */
    constructor ()
      ensures board == 0 && curPlayer == Red && gameState == InProgress
      ensures Wellformed(board)
    {
      board := 0;
      curPlayer := Red;
      gameState := InProgress;
      EmptyWellformed();
    }

    /** `in_board`. */
    static predicate InBoard(x: int, y: int)
    {
      WinCheck.InGrid(BoardWidth, BoardHeight, x, y)
    }

    /** `get(x, y)`; the shift must stay inside the word. */
    function Get(x: nat, y: nat): (c: nat)
      reads this
      requires Index(x, y) < WordCells
      ensures c < 4
    {
      Cell(board, Index(x, y))
    }

    /** `set(x, y, v)`: overwrite one cell's code. */
    method Set(x: nat, y: nat, v: nat)
      requires Index(x, y) < WordCells && v < 4 && board < WordBound
      modifies this
      ensures board == Put(old(board), Index(x, y), v)
      ensures board < WordBound
      ensures curPlayer == old(curPlayer) && gameState == old(gameState)
    {
      PutCell(board, Index(x, y), v);
      board := And(board, ClearMask(Index(x, y))) + Shl(v, Index(x, y));
    }

    /** `is_valid_move(action)`, which holds exactly for the columns `legal_actions` lists; the source asserts that the column exists. */
    predicate IsValidMove(action: nat)
      reads this
      requires action < BoardWidth
      ensures IsValidMove(action) <==> action in ValidColumns(board)
    {
      ValidColumnsSpec(board);
      ValidMove(board, action)
    }

    /** `is_full`: there is no legal action, and under gravity no empty cell. */
    predicate IsFull()
      reads this
      ensures IsFull() <==> ValidColumns(board) == []
      ensures Gravity(board) ==>
        (IsFull() <==> forall x, y | 0 <= x < BoardWidth && 0 <= y < BoardHeight :: CodeAt(board, x, y) != 0)
    {
      FullSpec(board);
      BoardFull(board)
    }

    /** `uid`: the board word itself, from which every cell can be read back. */
    function Uid(): (u: nat)
      reads this
      ensures forall x, y | 0 <= x < BoardWidth && 0 <= y < BoardHeight :: CodeAt(u, x, y) == CodeAt(board, x, y)
    {
      board
    }

    /** `player_won(pos)`: the four-direction run count from the piece at `pos`. */
    method PlayerWon(x: nat, y: nat) returns (won: bool)
      requires x < BoardWidth && y < BoardHeight
      ensures won == WinCheck.WonAt(Grid(board), BoardWidth, BoardHeight, x, y)
    {
      won := WinCheck.PlayerWon(Grid(board), BoardWidth, BoardHeight, x, y);
    }

    /** `action_pos(action)`: the lowest empty cell of the column; the source panics on a full column. */
    method ActionPos(action: nat) returns (x: nat, y: nat)
      requires action < BoardWidth
      requires exists y' | 0 <= y' < BoardHeight :: CodeAt(board, action, y') == 0
      ensures x == action && y < BoardHeight
      ensures CodeAt(board, action, y) == 0
      ensures forall y' | 0 <= y' < y :: CodeAt(board, action, y') != 0
    {
      x, y := action, 0;
      while CodeAt(board, action, y) != 0
        invariant 0 <= y < BoardHeight
        invariant forall y' | 0 <= y' < y :: CodeAt(board, action, y') != 0
        invariant exists y' | y <= y' < BoardHeight :: CodeAt(board, action, y') == 0
        decreases BoardHeight - y
      {
        y := y + 1;
      }
    }

    /** `pos_from_action(action)`: where the last piece dropped into the column sits. */
    method PosFromAction(action: nat) returns (x: nat, y: nat)
      requires action < BoardWidth
      ensures x == action && y == TopPiece(board, action)
    {
      var curY := 1;
      while curY < BoardHeight
        invariant 1 <= curY <= BoardHeight
        invariant TopPieceFrom(board, action, curY) == TopPiece(board, action)
      {
        if CodeAt(board, action, curY) == 0 {
          return action, curY - 1;
        }
        curY := curY + 1;
      }
      return action, BoardHeight - 1;
    }

    /**
     * `play_action(action)`: on a valid column drop the mover's piece, settle
     * the game state from the new word and hand the move to the opponent; on
     * a full column change nothing.  The source asserts the game is in progress.
     */
    method PlayAction(action: nat)
      requires gameState == InProgress && action < BoardWidth
      requires board < WordBound
      modifies this
      ensures Snapshot() == Play(old(Snapshot()), action)
      ensures board < WordBound
    {
      if !IsValidMove(action) {
        return;
      }
      var x, y := ActionPos(action);
      assert y == LowestEmpty(board, action) by {
        LowestEmptyUnique(board, action, y);
      }
      Set(x, y, Code(curPlayer));
      var won := PlayerWon(x, y);
      if won {
        gameState := Won(curPlayer);
      } else if IsFull() {
        gameState := Draw;
      } else {
        gameState := InProgress;
      }
      curPlayer := Not(curPlayer);
    }

    /** `reverse_last_action(action)`: empty the column's top piece, reopen the game, flip the player. */
    method ReverseLastAction(action: nat)
      requires action < BoardWidth && board < WordBound
      modifies this
      ensures Snapshot() == Reverse(old(Snapshot()), action)
      ensures board < WordBound
    {
      var x, y := PosFromAction(action);
      Set(x, y, 0);
      gameState := InProgress;
      curPlayer := Not(curPlayer);
    }

    /** `legal_actions`: the valid columns in increasing order. */
    method LegalActions() returns (v: seq<nat>)
      ensures v == ValidColumns(board)
    {
      v := [];
      var i := 0;
      while i < BoardWidth
        invariant 0 <= i <= BoardWidth
        invariant v == ValidColumnsBelow(board, i)
      {
        var valid := IsValidMove(i);
        if valid {
          v := v + [i];
        }
        i := i + 1;
      }
      ValidColumnsSplit(board, BoardWidth);
    }

    /** `vectorize(player)`: one entry per board cell in packed order. */
    method Vectorize(player: Player) returns (v: seq<real>)
      ensures |v| == BoardCells
      ensures forall k | 0 <= k < BoardCells :: v[k] == VectorEntry(Cell(board, k), player)
    {
      v := [];
      var word := board;
      var i := 0;
      while i < BoardWidth
        invariant 0 <= i <= BoardWidth
        invariant |v| == i * BoardHeight
        invariant word == Shr(board, |v|)
        invariant forall k | 0 <= k < |v| :: v[k] == VectorEntry(Cell(board, k), player)
      {
        var j := 0;
        while j < BoardHeight
          invariant 0 <= j <= BoardHeight
          invariant |v| == i * BoardHeight + j
          invariant word == Shr(board, |v|)
          invariant forall k | 0 <= k < |v| :: v[k] == VectorEntry(Cell(board, k), player)
        {
          var cur := word % 4;
          assert cur == Cell(board, |v|) by {
            CellShiftDown(board, |v|, 0);
          }
          if cur == Code(player) {
            v := v + [1.0];
          } else if cur == Code(Not(player)) {
            v := v + [-1.0];
          } else {
            v := v + [0.0];
          }
          ShrStep(board, |v| - 1);
          word := word / 4;
          j := j + 1;
        }
        i := i + 1;
      }
    }

    /**
     * `symmetry`: a new game whose board is this one mirrored about the
     * middle column, with the same player to move and the same state.  The
     * column mask is built six rows at a time; each column is then cut out
     * with the shifted mask and shifted to its mirror column.
     */
    method Symmetry() returns (s: Connect4)
      ensures fresh(s)
      ensures MirrorOf(s.board, board)
      ensures s.curPlayer == curPlayer && s.gameState == gameState
    {
      var colMask := BuildColumnMask();
      var newBoard := MirrorSides(board, colMask);
      MirrorMiddle(newBoard, board, colMask);
      newBoard := newBoard + And(board, Shl(colMask, 3));
      s := new Connect4();
      s.board, s.curPlayer, s.gameState := newBoard, curPlayer, gameState;
    }
  }

  /** The first loop of `symmetry`: a mask of the bits of column 0. */
  method BuildColumnMask() returns (colMask: nat)
    ensures ColumnMask(colMask, BoardHeight)
  {
    colMask := 0;
    var n := 0;
    EmptyColumnMask();
    while n < BoardHeight
      invariant n <= BoardHeight && ColumnMask(colMask, n)
    {
      ColumnMaskStep(colMask, n);
      colMask := Shl(colMask, BoardWidth) + 3;
      n := n + 1;
    }
  }

  /** The two mirroring loops of `symmetry`: every column but the middle one moved to its mirror image. */
  method MirrorSides(b: nat, colMask: nat) returns (t: nat)
    requires ColumnMask(colMask, BoardHeight)
    ensures MirroredColumns(t, b, 0, false)
  {
    t := MirrorLeftColumns(b, colMask);
    t := MirrorRightColumns(t, b, colMask);
  }

  /** The first mirroring loop: columns 0, 1 and 2 go to columns 6, 5 and 4. */
  method MirrorLeftColumns(b: nat, colMask: nat) returns (t: nat)
    requires ColumnMask(colMask, BoardHeight)
    ensures MirroredColumns(t, b, 4, false)
  {
    t := 0;
    EmptyMirrored(b);
    for i := 0 to 3
      invariant MirroredColumns(t, b, BoardWidth - i, false)
    {
      MirrorLeftHalf(t, b, colMask, i);
      t := t + Shl(And(b, Shl(colMask, i)), 2 * (3 - i));
    }
  }

  /** The second mirroring loop: columns 4, 5 and 6 go to columns 2, 1 and 0. */
  method MirrorRightColumns(t0: nat, b: nat, colMask: nat) returns (t: nat)
    requires ColumnMask(colMask, BoardHeight)
    requires MirroredColumns(t0, b, 4, false)
    ensures MirroredColumns(t, b, 0, false)
  {
    t := t0;
    var i, lo := 0, 4;
    while i < 3
      invariant i <= 3 && lo == (if i == 0 then 4 else 3 - i)
      invariant MirroredColumns(t, b, lo, false)
    {
      MirrorRightHalf(t, b, colMask, i);
      t, i, lo := t + Shr(And(b, Shl(colMask, 4 + i)), 2 * (i + 1)), i + 1, 2 - i;
    }
  }

  // ---------------------------------------------------------------------------
  // Lemmas

  lemma EmptyWellformed()
    ensures Wellformed(0)
  {
    forall x, y | 0 <= x < BoardWidth && 0 <= y < BoardHeight
      ensures CodeAt(0, x, y) == 0
    {
      CellOfDigit(0, Index(x, y));
    }
  }

  /** The list of valid columns from `a` on is strictly increasing and holds exactly the valid columns. */
  lemma {:induction false} ValidColumnsFromSpec(b: nat, a: nat)
    requires a <= BoardWidth
    ensures var r := ValidColumnsFrom(b, a);
      && (forall i, j | 0 <= i < j < |r| :: r[i] < r[j])
      && (forall c: nat :: c in r ==> a <= c < BoardWidth && ValidMove(b, c))
    decreases BoardWidth - a
  {
    if a < BoardWidth {
      ValidColumnsFromSpec(b, a + 1);
      var t := ValidColumnsFrom(b, a + 1);
      if ValidMove(b, a) {
        ValidColumnsCons(a, t);
        assert ValidColumnsFrom(b, a) == [a] + t;
      } else {
        assert ValidColumnsFrom(b, a) == t;
      }
    }
  }

  /** The valid columns below `n`, in increasing order: what the `legal_actions` loop has gathered after `n` rounds. */
  function ValidColumnsBelow(b: nat, n: nat): seq<nat>
    requires n <= BoardWidth
  {
    if n == 0 then [] else ValidColumnsBelow(b, n - 1) + (if ValidMove(b, n - 1) then [n - 1] else [])
  }

  /** The columns below `n` followed by those from `n` on are all the valid columns. */
  lemma {:induction false} ValidColumnsSplit(b: nat, n: nat)
    requires n <= BoardWidth
    ensures ValidColumnsBelow(b, n) + ValidColumnsFrom(b, n) == ValidColumns(b)
  {
    if n > 0 {
      ValidColumnsSplit(b, n - 1);
      var here: seq<nat> := if ValidMove(b, n - 1) then [n - 1] else [];
      assert ValidColumnsFrom(b, n - 1) == here + ValidColumnsFrom(b, n);
      ConcatAssoc(ValidColumnsBelow(b, n - 1), here, ValidColumnsFrom(b, n));
    }
  }

  lemma ConcatAssoc(a: seq<nat>, x: seq<nat>, c: seq<nat>)
    ensures (a + x) + c == a + (x + c)
  {
  }

  /** Every valid column from `a` on is listed. */
  lemma {:induction false} ValidColumnsFromComplete(b: nat, a: nat, c: nat)
    requires a <= c < BoardWidth && ValidMove(b, c)
    ensures c in ValidColumnsFrom(b, a)
    decreases BoardWidth - a
  {
    if a < c {
      ValidColumnsFromComplete(b, a + 1, c);
    }
  }

  /** Putting a column in front of larger ones keeps the list increasing. */
  lemma ValidColumnsCons(a: nat, t: seq<nat>)
    requires forall i | 0 <= i < |t| :: a < t[i]
    requires forall i, j | 0 <= i < j < |t| :: t[i] < t[j]
    ensures forall i, j | 0 <= i < j < |[a] + t| :: ([a] + t)[i] < ([a] + t)[j]
  {
  }

  /** `legal_actions` is the strictly increasing list of the columns that accept a move. */
  lemma ValidColumnsSpec(b: nat)
    ensures forall i, j | 0 <= i < j < |ValidColumns(b)| :: ValidColumns(b)[i] < ValidColumns(b)[j]
    ensures forall c: nat :: c in ValidColumns(b) <==> c < BoardWidth && ValidMove(b, c)
  {
    ValidColumnsFromSpec(b, 0);
    forall c: nat | c < BoardWidth && ValidMove(b, c)
      ensures c in ValidColumns(b)
    {
      ValidColumnsFromComplete(b, 0, c);
    }
  }

  /**
   * What `pos_from_action` finds: the rows from `y` up to the result are
   * occupied, and the row above the result, when there is one, is empty.
   */
  lemma {:induction false} TopPieceFromSpec(b: nat, a: nat, y: nat)
    requires a < BoardWidth && 1 <= y <= BoardHeight
    ensures var r := TopPieceFrom(b, a, y);
      && (forall y' | y <= y' <= r :: CodeAt(b, a, y') != 0)
      && (r < BoardHeight - 1 ==> CodeAt(b, a, r + 1) == 0)
    decreases BoardHeight - y
  {
    if y < BoardHeight && CodeAt(b, a, y) != 0 {
      TopPieceFromSpec(b, a, y + 1);
    }
  }

  /** The cell `action_pos` returns is the one `LowestEmpty` names. */
  lemma LowestEmptyUnique(b: nat, a: nat, y: nat)
    requires a < BoardWidth && ValidMove(b, a) && y < BoardHeight
    requires CodeAt(b, a, y) == 0
    requires forall y' | 0 <= y' < y :: CodeAt(b, a, y') != 0
    ensures LowestEmpty(b, a) == y
  {
  }

  /** `set(x, y, v)` writes `v` at `(x, y)` and leaves every other cell of the board as it was. */
  lemma SetGet(b: nat, x: nat, y: nat, v: nat, x': nat, y': nat)
    requires b < WordBound && x < BoardWidth && y < BoardHeight && v < 4
    requires x' < BoardWidth && y' < BoardHeight
    ensures Put(b, Index(x, y), v) < WordBound
    ensures CodeAt(Put(b, Index(x, y), v), x', y') == if x' == x && y' == y then v else CodeAt(b, x', y')
  {
    IndexInjective(x, y, x', y');
    PutCell(b, Index(x, y), v);
  }

  lemma IndexInjective(x: nat, y: nat, x': nat, y': nat)
    requires x < BoardWidth && x' < BoardWidth
    ensures Index(x, y) == Index(x', y') <==> x == x' && y == y'
  {
    if y < y' {
      assert Index(x, y) < Index(x', y');
    } else if y > y' {
      assert Index(x, y) > Index(x', y');
    }
  }

  /** Every packed cell index is `Index(x, y)` for the column `k % 7` and row `k / 7`. */
  lemma Split(k: nat)
    ensures k % BoardWidth < BoardWidth && k == Index(k % BoardWidth, k / BoardWidth)
  {
  }

  /** The bound of the board is 4 to the number of board cells. */
  lemma BoardBoundCells(n: nat)
    requires n == BoardCells
    ensures Pow4(n) == BoardBound && BoardBound < WordBound
  {
    assert Pow4(5) == 0x400;
    Pow4Double(5, 0x400);
    Pow4Double(10, 0x10_0000);
    assert Pow4(21) == 4 * Pow4(20);
    Pow4Double(21, 0x400_0000_0000);
  }

  /** A word below the bound has no piece outside the board. */
  lemma OffBoardEmpty(b: nat, x: nat, y: nat)
    requires b < BoardBound && x < BoardWidth && BoardHeight <= y
    ensures Cell(b, Index(x, y)) == 0
  {
    var n := BoardCells;
    BoardBoundCells(n);
    CellAbove(b, n, Index(x, y));
  }

  /** A word whose cells off the board are empty lies below the bound. */
  lemma BelowBoardBound(b: nat)
    requires forall x: nat, y: nat {:trigger Cell(b, Index(x, y))} | x < BoardWidth && BoardHeight <= y :: Cell(b, Index(x, y)) == 0
    ensures b < BoardBound
  {
    var n := BoardCells;
    forall k: nat | n <= k
      ensures Cell(b, k) == 0
    {
      Split(k);
    }
    BelowFromCells(b, n);
    BoardBoundCells(n);
  }

  /**
   * Two words inside the bound that agree on every board cell are equal:
   * the board, and so `uid`, is determined by its 42 cells.
   */
  lemma BoardEqual(a: nat, c: nat)
    requires a < BoardBound && c < BoardBound
    requires forall x, y | 0 <= x < BoardWidth && 0 <= y < BoardHeight :: CodeAt(a, x, y) == CodeAt(c, x, y)
    ensures a == c
  {
    forall k: nat
      ensures Cell(a, k) == Cell(c, k)
    {
      Split(k);
      if k / BoardWidth >= BoardHeight {
        OffBoardEmpty(a, k % BoardWidth, k / BoardWidth);
        OffBoardEmpty(c, k % BoardWidth, k / BoardWidth);
      } else {
        assert CodeAt(a, k % BoardWidth, k / BoardWidth) == CodeAt(c, k % BoardWidth, k / BoardWidth);
      }
    }
    CellsEqual(a, c);
  }

  // ---------------------------------------------------------------------------
  // Mirror symmetry

  /** `m` is `b` mirrored about the middle column: cell `(x, y)` of `m` is cell `(6 - x, y)` of `b`, and `m` has nothing off the board. */
  predicate MirrorOf(m: nat, b: nat)
  {
    && m < BoardBound
    && forall x, y | 0 <= x < BoardWidth && 0 <= y < BoardHeight :: CodeAt(m, x, y) == CodeAt(b, BoardWidth - 1 - x, y)
  }

  /** The cells of `col_mask` after `n` rounds: 3 in column 0 of the rows below `n`, 0 everywhere else. */
  ghost predicate ColumnMask(cm: nat, n: nat)
  {
    forall x: nat, y: nat {:trigger Cell(cm, Index(x, y))} | x < BoardWidth :: Cell(cm, Index(x, y)) == if x == 0 && y < n then 3 else 0
  }

  /** `t` holds column `from` of `b` placed in column `to`, and nothing else. */
  ghost predicate ColumnAt(t: nat, b: nat, from: nat, to: nat)
  {
    forall x: nat, y: nat {:trigger Cell(t, Index(x, y))} | x < BoardWidth :: Cell(t, Index(x, y)) == if x == to && y < BoardHeight then CodeAt(b, from, y) else 0
  }

  /** The columns mirrored so far: those from `lo` on, leaving out the middle one until `middle`. */
  predicate Done(x: nat, lo: nat, middle: bool)
  {
    lo <= x && (x != 3 || middle)
  }

  /** `t` holds the mirror image of each column that is `Done`, and nothing else. */
  ghost predicate MirroredColumns(t: nat, b: nat, lo: nat, middle: bool)
  {
    forall x: nat, y: nat {:trigger Cell(t, Index(x, y))} | x < BoardWidth ::
      Cell(t, Index(x, y)) == if Done(x, lo, middle) && y < BoardHeight then CodeAt(b, BoardWidth - 1 - x, y) else 0
  }

  lemma EmptyColumnMask()
    ensures ColumnMask(0, 0)
  {
    forall x: nat, y: nat | x < BoardWidth
      ensures Cell(0, Index(x, y)) == 0
    {
      CellOfDigit(0, Index(x, y));
    }
  }

  lemma EmptyMirrored(b: nat)
    ensures MirroredColumns(0, b, BoardWidth, false)
  {
    forall x: nat, y: nat | x < BoardWidth
      ensures Cell(0, Index(x, y)) == 0
    {
      CellOfDigit(0, Index(x, y));
    }
  }

  /** One round of `col_mask = (col_mask << 14) + 3` adds the next row to the mask. */
  lemma ColumnMaskStep(cm: nat, n: nat)
    requires ColumnMask(cm, n)
    ensures ColumnMask(Shl(cm, BoardWidth) + 3, n + 1)
  {
    forall j: nat
      ensures Cell(Shl(cm, BoardWidth), j) + Cell(3, j) < 4
    {
      CellShiftUp(cm, BoardWidth, j);
      CellOfDigit(3, j);
    }
    forall x: nat, y: nat | x < BoardWidth
      ensures Cell(Shl(cm, BoardWidth) + 3, Index(x, y)) == if x == 0 && y < n + 1 then 3 else 0
    {
      CellAdd(Shl(cm, BoardWidth), 3, Index(x, y));
      ColumnMaskStepCell(cm, n, x, y);
    }
  }

  lemma ColumnMaskStepCell(cm: nat, n: nat, x: nat, y: nat)
    requires ColumnMask(cm, n) && x < BoardWidth
    ensures Cell(Shl(cm, BoardWidth), Index(x, y)) + Cell(3, Index(x, y)) == if x == 0 && y < n + 1 then 3 else 0
  {
    var k := Index(x, y);
    CellShiftUp(cm, BoardWidth, k);
    CellOfDigit(3, k);
    if y > 0 {
      assert k - BoardWidth == Index(x, y - 1);
      assert Cell(cm, k - BoardWidth) == Cell(cm, Index(x, y - 1));
    }
  }

  /** The full mask shifted by `c` cells covers exactly column `c` of the board. */
  lemma ShiftedMaskCell(cm: nat, c: nat, x: nat, y: nat)
    requires ColumnMask(cm, BoardHeight) && c < BoardWidth && x < BoardWidth
    ensures Cell(Shl(cm, c), Index(x, y)) == if x == c && y < BoardHeight then 3 else 0
  {
    var k := Index(x, y);
    CellShiftUp(cm, c, k);
    if k < c {
    } else if x >= c {
      assert k - c == Index(x - c, y);
      assert Cell(cm, k - c) == Cell(cm, Index(x - c, y));
    } else {
      assert k - c == Index(x - c + BoardWidth, y - 1);
      assert Cell(cm, k - c) == Cell(cm, Index(x - c + BoardWidth, y - 1));
    }
  }

  /** `board & (col_mask << 2c)` keeps column `c` and clears the rest. */
  lemma MaskedColumn(b: nat, cm: nat, c: nat)
    requires ColumnMask(cm, BoardHeight) && c < BoardWidth
    ensures ColumnAt(And(b, Shl(cm, c)), b, c, c)
  {
    forall x: nat, y: nat | x < BoardWidth
      ensures Cell(And(b, Shl(cm, c)), Index(x, y)) == if x == c && y < BoardHeight then CodeAt(b, c, y) else 0
    {
      CellAnd(b, Shl(cm, c), Index(x, y));
      ShiftedMaskCell(cm, c, x, y);
      AndDigit(Cell(b, Index(x, y)), Cell(Shl(cm, c), Index(x, y)));
    }
  }

  /** Shifting a lone column left by `to - from` cells moves it to column `to`. */
  lemma ShiftColumnUp(t: nat, b: nat, from: nat, to: nat)
    requires ColumnAt(t, b, from, from) && from < to < BoardWidth
    ensures ColumnAt(Shl(t, to - from), b, from, to)
  {
    forall x: nat, y: nat | x < BoardWidth
      ensures Cell(Shl(t, to - from), Index(x, y)) == if x == to && y < BoardHeight then CodeAt(b, from, y) else 0
    {
      ShiftUpCell(t, b, from, to, x, y);
    }
  }

  lemma ShiftUpCell(t: nat, b: nat, from: nat, to: nat, x: nat, y: nat)
    requires ColumnAt(t, b, from, from) && from < to < BoardWidth && x < BoardWidth
    ensures Cell(Shl(t, to - from), Index(x, y)) == if x == to && y < BoardHeight then CodeAt(b, from, y) else 0
  {
    var d, k := to - from, Index(x, y);
    CellShiftUp(t, d, k);
    if k < d {
    } else if x >= d {
      assert k - d == Index(x - d, y);
      assert Cell(t, k - d) == Cell(t, Index(x - d, y));
    } else {
      assert k - d == Index(x - d + BoardWidth, y - 1);
      assert Cell(t, k - d) == Cell(t, Index(x - d + BoardWidth, y - 1));
    }
  }

  /** Shifting a lone column right by `from - to` cells moves it to column `to`. */
  lemma ShiftColumnDown(t: nat, b: nat, from: nat, to: nat)
    requires ColumnAt(t, b, from, from) && to < from < BoardWidth
    ensures ColumnAt(Shr(t, from - to), b, from, to)
  {
    forall x: nat, y: nat | x < BoardWidth
      ensures Cell(Shr(t, from - to), Index(x, y)) == if x == to && y < BoardHeight then CodeAt(b, from, y) else 0
    {
      ShiftDownCell(t, b, from, to, x, y);
    }
  }

  lemma ShiftDownCell(t: nat, b: nat, from: nat, to: nat, x: nat, y: nat)
    requires ColumnAt(t, b, from, from) && to < from < BoardWidth && x < BoardWidth
    ensures Cell(Shr(t, from - to), Index(x, y)) == if x == to && y < BoardHeight then CodeAt(b, from, y) else 0
  {
    var d, k := from - to, Index(x, y);
    CellShiftDown(t, d, k);
    if x + d < BoardWidth {
      assert k + d == Index(x + d, y);
      assert Cell(t, k + d) == Cell(t, Index(x + d, y));
      assert x + d == from <==> x == to;
    } else {
      assert k + d == Index(x + d - BoardWidth, y + 1);
      assert Cell(t, k + d) == Cell(t, Index(x + d - BoardWidth, y + 1)) == 0;
    }
  }

  /** Adding the mirror image of a new column: the two words share no occupied cell, so no carry. */
  lemma AddMirroredColumn(t: nat, c: nat, b: nat, lo: nat, middle: bool, to: nat, lo': nat, middle': bool)
    requires MirroredColumns(t, b, lo, middle) && to < BoardWidth && !Done(to, lo, middle)
    requires forall x: nat | x < BoardWidth :: Done(x, lo', middle') <==> Done(x, lo, middle) || x == to
    requires ColumnAt(c, b, BoardWidth - 1 - to, to)
    ensures MirroredColumns(t + c, b, lo', middle')
  {
    forall j: nat
      ensures Cell(t, j) + Cell(c, j) < 4
    {
      Split(j);
      var x, y := j % BoardWidth, j / BoardWidth;
      assert Cell(t, j) == Cell(t, Index(x, y)) && Cell(c, j) == Cell(c, Index(x, y));
    }
    forall x: nat, y: nat | x < BoardWidth
      ensures Cell(t + c, Index(x, y)) == if Done(x, lo', middle') && y < BoardHeight then CodeAt(b, BoardWidth - 1 - x, y) else 0
    {
      CellAdd(t, c, Index(x, y));
    }
  }

  /** Column `i` cut out and shifted left by `2(3 - i)` cells lands in column `6 - i`. */
  lemma LeftColumn(b: nat, cm: nat, i: nat)
    requires ColumnMask(cm, BoardHeight) && i < 3
    ensures ColumnAt(Shl(And(b, Shl(cm, i)), 2 * (3 - i)), b, i, 6 - i)
  {
    MaskedColumn(b, cm, i);
    ShiftColumnUp(And(b, Shl(cm, i)), b, i, 6 - i);
  }

  /** Column `4 + i` cut out and shifted right by `2(i + 1)` cells lands in column `2 - i`. */
  lemma RightColumn(b: nat, cm: nat, i: nat)
    requires ColumnMask(cm, BoardHeight) && i < 3
    ensures ColumnAt(Shr(And(b, Shl(cm, 4 + i)), 2 * (i + 1)), b, 4 + i, 2 - i)
  {
    MaskedColumn(b, cm, 4 + i);
    ShiftColumnDown(And(b, Shl(cm, 4 + i)), b, 4 + i, 2 - i);
  }

  /** One round of the first loop of `symmetry`: column `i` goes to column `6 - i`. */
  lemma MirrorLeftHalf(t: nat, b: nat, cm: nat, i: nat)
    requires ColumnMask(cm, BoardHeight) && i < 3
    requires MirroredColumns(t, b, BoardWidth - i, false)
    ensures MirroredColumns(t + Shl(And(b, Shl(cm, i)), 2 * (3 - i)), b, 6 - i, false)
  {
    LeftColumn(b, cm, i);
    AddMirroredColumn(t, Shl(And(b, Shl(cm, i)), 2 * (3 - i)), b, BoardWidth - i, false, 6 - i, 6 - i, false);
  }

  /** One round of the second loop of `symmetry`: column `4 + i` goes to column `2 - i`. */
  lemma MirrorRightHalf(t: nat, b: nat, cm: nat, i: nat)
    requires ColumnMask(cm, BoardHeight) && i < 3
    requires MirroredColumns(t, b, if i == 0 then 4 else 3 - i, false)
    ensures MirroredColumns(t + Shr(And(b, Shl(cm, 4 + i)), 2 * (i + 1)), b, 2 - i, false)
  {
    var lo: nat := if i == 0 then 4 else 3 - i;
    RightColumn(b, cm, i);
    RightDone(lo, i);
    AddMirroredColumn(t, Shr(And(b, Shl(cm, 4 + i)), 2 * (i + 1)), b, lo, false, 2 - i, 2 - i, false);
  }

  /** Column `2 - i` is the one the `i`-th round of the second loop adds to those done. */
  lemma RightDone(lo: nat, i: nat)
    requires i < 3 && lo == if i == 0 then 4 else 3 - i
    ensures forall x: nat | x < BoardWidth :: Done(x, 2 - i, false) <==> Done(x, lo, false) || x == 2 - i
  {
    forall x: nat | x < BoardWidth
      ensures Done(x, 2 - i, false) <==> Done(x, lo, false) || x == 2 - i
    {
      if i == 0 {
        assert lo == 4;
      } else if i == 1 {
        assert lo == 2;
      } else {
        assert lo == 1;
      }
    }
  }

  /** The last step of `symmetry`: the middle column stays where it is, and the word is the mirror of the board. */
  lemma MirrorMiddle(t: nat, b: nat, cm: nat)
    requires ColumnMask(cm, BoardHeight)
    requires MirroredColumns(t, b, 0, false)
    ensures MirrorOf(t + And(b, Shl(cm, 3)), b)
  {
    MaskedColumn(b, cm, 3);
    AddMirroredColumn(t, And(b, Shl(cm, 3)), b, 0, false, 3, 0, true);
    BelowBoardBound(t + And(b, Shl(cm, 3)));
  }

  /** The mirror of a board is unique. */
  lemma MirrorUnique(m1: nat, m2: nat, b: nat)
    requires MirrorOf(m1, b) && MirrorOf(m2, b)
    ensures m1 == m2
  {
    BoardEqual(m1, m2);
  }

  /** `symmetry` applied twice gives back the board. */
  lemma MirrorTwice(b: nat, m: nat, m2: nat)
    requires b < BoardBound && MirrorOf(m, b) && MirrorOf(m2, m)
    ensures m2 == b
  {
    forall x, y | 0 <= x < BoardWidth && 0 <= y < BoardHeight
      ensures CodeAt(m2, x, y) == CodeAt(b, x, y)
    {
      assert CodeAt(m, BoardWidth - 1 - x, y) == CodeAt(b, x, y);
    }
    BoardEqual(m2, b);
  }

  /** Column `a` of the mirror accepts a move exactly when column `6 - a` of the board does, and gravity carries over. */
  lemma MirrorMoves(m: nat, b: nat)
    requires MirrorOf(m, b)
    ensures forall a | 0 <= a < BoardWidth :: ValidMove(m, a) <==> ValidMove(b, BoardWidth - 1 - a)
    ensures BoardFull(m) <==> BoardFull(b)
    ensures Wellformed(b) ==> Wellformed(m)
  {
    if !BoardFull(b) {
      var a :| 0 <= a < BoardWidth && ValidMove(b, a);
      assert ValidMove(m, BoardWidth - 1 - a);
    }
  }

  // ---------------------------------------------------------------------------
  // Playing and reversing

  /**
   * `play_action` on a full column changes nothing; on a valid column it
   * writes the mover's code into the lowest empty cell of that column,
   * leaves every other cell as it was and hands the move to the opponent.
   */
  lemma PlayCells(p: Position, a: nat)
    requires p.board < BoardBound && p.state == InProgress && a < BoardWidth
    ensures !ValidMove(p.board, a) ==> Play(p, a) == p
    ensures ValidMove(p.board, a) ==>
      && Play(p, a).cur == Not(p.cur)
      && Play(p, a).board < BoardBound
      && forall x, y | 0 <= x < BoardWidth && 0 <= y < BoardHeight ::
           CodeAt(Play(p, a).board, x, y) == if x == a && y == LowestEmpty(p.board, a) then Code(p.cur) else CodeAt(p.board, x, y)
  {
    if ValidMove(p.board, a) {
      var y := LowestEmpty(p.board, a);
      BoardBoundCells(BoardCells);
      forall x', y' | 0 <= x' < BoardWidth && 0 <= y' < BoardHeight
        ensures CodeAt(Play(p, a).board, x', y') == if x' == a && y' == y then Code(p.cur) else CodeAt(p.board, x', y')
      {
        SetGet(p.board, a, y, Code(p.cur), x', y');
      }
      PutStaysOnBoard(p.board, a, y, Code(p.cur));
    }
  }

  /** Writing a board cell of a word inside the bound keeps it inside the bound. */
  lemma PutStaysOnBoard(b: nat, x: nat, y: nat, v: nat)
    requires b < BoardBound && x < BoardWidth && y < BoardHeight && v < 4
    ensures Put(b, Index(x, y), v) < BoardBound
  {
    BoardBoundCells(BoardCells);
    PutCell(b, Index(x, y), v);
    forall x': nat, y': nat | x' < BoardWidth && BoardHeight <= y'
      ensures Cell(Put(b, Index(x, y), v), Index(x', y')) == 0
    {
      IndexInjective(x, y, x', y');
      OffBoardEmpty(b, x', y');
    }
    BelowBoardBound(Put(b, Index(x, y), v));
  }

  /** A move keeps the board inside its 42 cells and keeps every column filled from the bottom. */
  lemma PlayKeepsWellformed(p: Position, a: nat)
    requires Wellformed(p.board) && p.state == InProgress && a < BoardWidth
    ensures Wellformed(Play(p, a).board)
  {
    PlayCells(p, a);
    if ValidMove(p.board, a) {
      var b, b' := p.board, Play(p, a).board;
      var y := LowestEmpty(b, a);
      forall x, y' | 0 <= x < BoardWidth && 0 <= y' < BoardHeight - 1 && CodeAt(b', x, y') == 0
        ensures CodeAt(b', x, y' + 1) == 0
      {
        assert CodeAt(b, x, y') == 0;
      }
    }
  }

  /** Under gravity, only the lowest empty cell has all the cells below it occupied. */
  lemma {:induction false} GravityBelow(b: nat, a: nat, y: nat, y': nat)
    requires Gravity(b) && a < BoardWidth && y' <= y < BoardHeight
    requires CodeAt(b, a, y') == 0
    ensures CodeAt(b, a, y) == 0
    decreases y - y'
  {
    if y' < y {
      GravityBelow(b, a, y, y' + 1);
    }
  }

  /** `pos_from_action` names the row `y` when rows 1 to `y` are occupied and the one above, if any, is empty. */
  lemma TopPieceIs(b: nat, a: nat, y: nat)
    requires a < BoardWidth && y < BoardHeight
    requires forall y' | 1 <= y' <= y :: CodeAt(b, a, y') != 0
    requires y < BoardHeight - 1 ==> CodeAt(b, a, y + 1) == 0
    ensures TopPiece(b, a) == y
  {
    TopPieceFromSpec(b, a, 1);
  }

  /**
   * `play_action(a)` followed by `reverse_last_action(a)` gives back the
   * word and the player to move exactly, and the game is in progress again.
   */
  lemma ReverseUndoesPlay(p: Position, a: nat)
    requires Wellformed(p.board) && p.state == InProgress && a < BoardWidth && ValidMove(p.board, a)
    ensures Reverse(Play(p, a), a) == p
  {
    var b := p.board;
    var y := LowestEmpty(b, a);
    var b' := Play(p, a).board;
    PlayCells(p, a);
    forall y' | 1 <= y' <= y
      ensures CodeAt(b', a, y') != 0
    {
    }
    if y < BoardHeight - 1 {
      assert CodeAt(b, a, y + 1) == 0;
    }
    TopPieceIs(b', a, y);
    BoardBoundCells(BoardCells);
    PutRestore(b, Index(a, y), Code(p.cur));
    NotInvolution(p.cur);
  }

  /** `reverse_last_action(a)` empties the top piece of column `a` and no other cell. */
  lemma ReverseCells(p: Position, a: nat)
    requires p.board < BoardBound && a < BoardWidth
    ensures Reverse(p, a).board < BoardBound
    ensures Reverse(p, a).cur == Not(p.cur) && Reverse(p, a).state == InProgress
    ensures forall x, y | 0 <= x < BoardWidth && 0 <= y < BoardHeight ::
      CodeAt(Reverse(p, a).board, x, y) == if x == a && y == TopPiece(p.board, a) then 0 else CodeAt(p.board, x, y)
  {
    var y := TopPiece(p.board, a);
    BoardBoundCells(BoardCells);
    forall x', y' | 0 <= x' < BoardWidth && 0 <= y' < BoardHeight
      ensures CodeAt(Reverse(p, a).board, x', y') == if x' == a && y' == y then 0 else CodeAt(p.board, x', y')
    {
      SetGet(p.board, a, y, 0, x', y');
    }
    PutStaysOnBoard(p.board, a, y, 0);
  }

  /** A board is full exactly when no column is listed as legal, and, under gravity, when no cell is empty. */
  lemma FullSpec(b: nat)
    ensures BoardFull(b) <==> ValidColumns(b) == []
    ensures Gravity(b) ==> (BoardFull(b) <==> forall x, y | 0 <= x < BoardWidth && 0 <= y < BoardHeight :: CodeAt(b, x, y) != 0)
  {
    ValidColumnsSpec(b);
    if Gravity(b) {
      FullIffNoEmpty(b);
    }
    if !BoardFull(b) {
      var a :| 0 <= a < BoardWidth && ValidMove(b, a);
      assert a in ValidColumns(b);
    }
  }

  /** On a board that fills from the bottom, `is_full` holds exactly when no cell is empty. */
  lemma FullIffNoEmpty(b: nat)
    requires Gravity(b)
    ensures BoardFull(b) <==> forall x, y | 0 <= x < BoardWidth && 0 <= y < BoardHeight :: CodeAt(b, x, y) != 0
  {
    if BoardFull(b) {
      forall x, y | 0 <= x < BoardWidth && 0 <= y < BoardHeight
        ensures CodeAt(b, x, y) != 0
      {
        if CodeAt(b, x, y) == 0 {
          GravityBelow(b, x, BoardHeight - 1, y);
          assert ValidMove(b, x);
        }
      }
    }
  }
}

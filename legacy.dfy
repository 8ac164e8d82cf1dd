/**
 * The first Connect Four board of the project: a vector of seven columns of
 * six tiles (`board[x][y]`, `(0, 0)` the bottom-left corner), the last
 * column played and the game state.  Unlike the bitboard game it does not
 * track whose turn it is: the caller names the player of every move.
 *
 * The class `Connect4` updates its fields in place; `Play` on `Position`
 * snapshots says what a move does, and the lemmas state the rules it keeps.
 */
module LegacyConnect4 {
  import opened Games
  import WinCheck

  const BoardWidth: nat := 7
  const BoardHeight: nat := 6

  /** Columns of tiles, bottom tile first. */
  type Board = seq<seq<Tile>>

  /** Seven columns of six tiles each. */
  predicate Shaped(b: Board)
  {
    |b| == BoardWidth && forall x | 0 <= x < |b| :: |b[x]| == BoardHeight
  }

  /** The tiles as the win check reads them: the code of each board tile. */
  function Grid(b: Board): (int, int) -> nat
    requires Shaped(b)
  {
    (x: int, y: int) => if 0 <= x < BoardWidth && 0 <= y < BoardHeight then TileCode(b[x][y]) else 0
  }

  /** `is_valid_move`: the top tile of column `a` is empty. */
  predicate ValidMove(b: Board, a: nat)
    requires Shaped(b) && a < BoardWidth
  {
    b[a][BoardHeight - 1] == Empty
  }

  /** `is_full`: no column accepts a move. */
  predicate BoardFull(b: Board)
    requires Shaped(b)
  {
    forall a | 0 <= a < BoardWidth :: !ValidMove(b, a)
  }

  /** No tile of the board is empty. */
  predicate NoEmptyTile(b: Board)
    requires Shaped(b)
  {
    forall x, y | 0 <= x < BoardWidth && 0 <= y < BoardHeight :: b[x][y] != Empty
  }

  /** Every column fills from the bottom. */
  predicate Gravity(b: Board)
    requires Shaped(b)
  {
    forall x, y | 0 <= x < BoardWidth && 0 <= y < BoardHeight - 1 :: b[x][y] == Empty ==> b[x][y + 1] == Empty
  }

  /** The first empty tile of column `a` at or above row `y`. */
  function LowestEmptyFrom(b: Board, a: nat, y: nat): (r: nat)
    requires Shaped(b) && a < BoardWidth && y < BoardHeight && ValidMove(b, a)
    ensures y <= r < BoardHeight && b[a][r] == Empty
    ensures forall y' | y <= y' < r :: b[a][y'] != Empty
    decreases BoardHeight - y
  {
    if b[a][y] == Empty then y else LowestEmptyFrom(b, a, y + 1)
  }

  /** The tile a piece dropped into column `a` lands on. */
  function LowestEmpty(b: Board, a: nat): nat
    requires Shaped(b) && a < BoardWidth && ValidMove(b, a)
  {
    LowestEmptyFrom(b, a, 0)
  }

  /**
   * The win test as `player_won` is written: only the three directions
   * (1, 0), (0, 1) and (-1, 1), the first three of `WinCheck.Directions`.
   */
  predicate WonAtAsWritten(get: (int, int) -> nat, w: nat, h: nat, x: int, y: int)
  {
    exists e | 0 <= e < 3 ::
      WinCheck.LineLength(get, w, h, x, y, WinCheck.Directions[e].0, WinCheck.Directions[e].1, get(x, y)) >= 4
  }

  /** The state after `player`'s piece lands at `(x, y)` of the new board `b`, with the four-direction win test. */
  function Outcome(b: Board, x: nat, y: nat, player: Player): GameState
    requires Shaped(b) && x < BoardWidth && y < BoardHeight
  {
    if WinCheck.WonAt(Grid(b), BoardWidth, BoardHeight, x, y) then Won(player)
    else if BoardFull(b) then Draw
    else InProgress
  }

  /** The same state with the three-direction test of the code as written. */
  function OutcomeAsWritten(b: Board, x: nat, y: nat, player: Player): GameState
    requires Shaped(b) && x < BoardWidth && y < BoardHeight
  {
    if WonAtAsWritten(Grid(b), BoardWidth, BoardHeight, x, y) then Won(player)
    else if BoardFull(b) then Draw
    else InProgress
  }

  /** A snapshot of the three fields of a `Connect4`. */
  datatype Position = Position(board: Board, lastAction: nat, state: GameState)

  /**
   * `play_move(a, player)`: the column is recorded as the last action in
   * every case; a full column changes nothing else; otherwise the piece
   * lands on the lowest empty tile and the state is recomputed.
   */
  function Play(p: Position, a: nat, player: Player): Position
    requires Shaped(p.board) && a < BoardWidth
  {
    if !ValidMove(p.board, a) then p.(lastAction := a)
    else
      var y := LowestEmpty(p.board, a);
      var b := p.board[a := p.board[a][y := Full(player)]];
      Position(b, a, Outcome(b, a, y, player))
  }

  /** A tile of the board, as `action_pos` returns it. */
  datatype Pos = Pos(x: nat, y: nat)

  class Connect4 {
    var board: Board
    var lastAction: nat
    var gameState: GameState

    function Snapshot(): Position
      reads this
    {
      Position(board, lastAction, gameState)
    }

    /** `new()`: seven empty columns, last action 0, game in progress. */
    constructor ()
      ensures Shaped(board) && Gravity(board)
      ensures forall x, y | 0 <= x < BoardWidth && 0 <= y < BoardHeight :: board[x][y] == Empty
      ensures lastAction == 0 && gameState == InProgress
    {
      var column := seq(BoardHeight, _ => Empty);
      board := seq(BoardWidth, _ => column);
      lastAction := 0;
      gameState := InProgress;
    }

    /** `play_move(action, player)`; the source asserts that the game is still in progress. */
    method PlayMove(action: nat, player: Player)
      requires Shaped(board) && action < BoardWidth && gameState == InProgress
      modifies this
      ensures Snapshot() == Play(old(Snapshot()), action, player)
    {
      lastAction := action;
      if !IsValidMove(action) {
        return;
      }
      var ap := ActionPos(action);
      LowestEmptyUnique(board, action, ap.y);
      board := board[ap.x := board[ap.x][ap.y := Full(player)]];
      var won := PlayerWon(ap.x, ap.y);
      if won {
        gameState := Won(player);
      } else {
        var full := IsFull();
        if full {
          gameState := Draw;
        } else {
          gameState := InProgress;
        }
      }
    }

    /**
     * `player_won(piece_pos)` with the rising diagonal (1, 1) among the
     * directions; the source panics on an empty tile.
     */
    method PlayerWon(x: nat, y: nat) returns (won: bool)
      requires Shaped(board) && x < BoardWidth && y < BoardHeight && board[x][y] != Empty
      ensures won == WinCheck.WonAt(Grid(board), BoardWidth, BoardHeight, x, y)
    {
      won := WinCheck.PlayerWon(Grid(board), BoardWidth, BoardHeight, x, y);
    }

    /** `player_won(piece_pos)` as written, looking along three directions only. */
    method PlayerWonAsWritten(x: nat, y: nat) returns (won: bool)
      requires Shaped(board) && x < BoardWidth && y < BoardHeight && board[x][y] != Empty
      ensures won == WonAtAsWritten(Grid(board), BoardWidth, BoardHeight, x, y)
    {
      won := ThreeDirectionWin(Grid(board), x, y);
    }

    /** `in_board(x, y)`. */
    static predicate InBoard(x: int, y: int)
    {
      WinCheck.InGrid(BoardWidth, BoardHeight, x, y)
    }

    /**
     * `action_pos(action)`: the lowest empty tile of the column, or `(0, 0)`
     * when the column has none.
     */
    method ActionPos(action: nat) returns (p: Pos)
      requires Shaped(board) && action < BoardWidth
      ensures p.y < BoardHeight
      ensures (exists y | 0 <= y < BoardHeight :: board[action][y] == Empty) ==>
        p.x == action && board[action][p.y] == Empty && forall y' | 0 <= y' < p.y :: board[action][y'] != Empty
      ensures (forall y | 0 <= y < BoardHeight :: board[action][y] != Empty) ==> p == Pos(0, 0)
    {
      for y := 0 to BoardHeight
        invariant forall y' | 0 <= y' < y :: board[action][y'] != Empty
      {
        if board[action][y] == Empty {
          return Pos(action, y);
        }
      }
      return Pos(0, 0);
    }

    /** `is_full`: no column is a valid move. */
    method IsFull() returns (full: bool)
      requires Shaped(board)
      ensures full <==> BoardFull(board)
    {
      for a := 0 to BoardWidth
        invariant forall a' | 0 <= a' < a :: !ValidMove(board, a')
      {
        if IsValidMove(a) {
          return false;
        }
      }
      return true;
    }

    /**
     * `is_valid_move(action)`: under gravity, exactly when the column still
     * has an empty tile; the source asserts that the column exists.
     */
    predicate IsValidMove(action: nat)
      reads this
      requires Shaped(board) && action < BoardWidth
      ensures Gravity(board) ==> (IsValidMove(action) <==> exists y | 0 <= y < BoardHeight :: board[action][y] == Empty)
    {
      ValidColumnSpec(board, action);
      ValidMove(board, action)
    }

    /**
     * `vectorize(player)`: the 42 tiles column by column (tile `(x, y)` at
     * `6x + y`), 1 for the player's pieces, -1 for the opponent's, 0 for empty.
     */
    method Vectorize(player: Player) returns (v: seq<real>)
      requires Shaped(board)
      ensures |v| == BoardWidth * BoardHeight
      ensures forall x, y | 0 <= x < BoardWidth && 0 <= y < BoardHeight ::
        v[6 * x + y] == VectorEntry(TileCode(board[x][y]), player)
    {
      v := [];
      for x := 0 to BoardWidth
        invariant |v| == 6 * x
        invariant forall x', y | 0 <= x' < x && 0 <= y < BoardHeight ::
          v[6 * x' + y] == VectorEntry(TileCode(board[x'][y]), player)
      {
        for y := 0 to BoardHeight
          invariant |v| == 6 * x + y
          invariant forall x', y' | 0 <= x' < x && 0 <= y' < BoardHeight ::
            v[6 * x' + y'] == VectorEntry(TileCode(board[x'][y']), player)
          invariant forall y' | 0 <= y' < y :: v[6 * x + y'] == VectorEntry(TileCode(board[x][y']), player)
        {
          var t := board[x][y];
          if t == Full(player) {
            v := v + [1.0];
          } else if t == Full(Not(player)) {
            v := v + [-1.0];
          } else {
            v := v + [0.0];
          }
        }
      }
    }
  }

  /** The loop of `player_won` as written, over the tiles read through `get`. */
  method ThreeDirectionWin(get: (int, int) -> nat, x: nat, y: nat) returns (won: bool)
    ensures won == WonAtAsWritten(get, BoardWidth, BoardHeight, x, y)
  {
    var player := get(x, y);
    var e := 0;
    while e < 3
      invariant 0 <= e <= 3
      invariant forall f | 0 <= f < e ::
        WinCheck.LineLength(get, BoardWidth, BoardHeight, x, y, WinCheck.Directions[f].0, WinCheck.Directions[f].1, player) < 4
    {
      var dx, dy := WinCheck.Directions[e].0, WinCheck.Directions[e].1;
      var forwards := WinCheck.CountRun(get, BoardWidth, BoardHeight, x, y, dx, dy, player, false);
      var backwards := WinCheck.CountRun(get, BoardWidth, BoardHeight, x, y, dx, dy, player, true);
      var sm := 1 + forwards + backwards;
      if sm >= 4 {
        return true;
      }
      e := e + 1;
    }
    return false;
  }

  // ---------------------------------------------------------------------------
  // What a move does

  /** The lowest empty tile is the only empty tile with every tile below it filled. */
  lemma LowestEmptyUnique(b: Board, a: nat, y: nat)
    requires Shaped(b) && a < BoardWidth && ValidMove(b, a) && y < BoardHeight
    requires b[a][y] == Empty && forall y' | 0 <= y' < y :: b[a][y'] != Empty
    ensures LowestEmpty(b, a) == y
  {
  }

  /**
   * A move on a full column only records the column; any other move fills
   * exactly the lowest empty tile of the column with the player's piece.
   */
  lemma PlayTiles(p: Position, a: nat, player: Player)
    requires Shaped(p.board) && a < BoardWidth
    ensures Shaped(Play(p, a, player).board) && Play(p, a, player).lastAction == a
    ensures !ValidMove(p.board, a) ==> Play(p, a, player) == p.(lastAction := a)
    ensures ValidMove(p.board, a) ==>
      forall x, y | 0 <= x < BoardWidth && 0 <= y < BoardHeight ::
        Play(p, a, player).board[x][y] == if x == a && y == LowestEmpty(p.board, a) then Full(player) else p.board[x][y]
  {
  }

  /** Moves keep every column filled from the bottom. */
  lemma PlayKeepsGravity(p: Position, a: nat, player: Player)
    requires Shaped(p.board) && Gravity(p.board) && a < BoardWidth
    ensures Shaped(Play(p, a, player).board) && Gravity(Play(p, a, player).board)
  {
    if ValidMove(p.board, a) {
      var y := LowestEmpty(p.board, a);
      var b := Play(p, a, player).board;
      forall x, y' | 0 <= x < BoardWidth && 0 <= y' < BoardHeight - 1 && b[x][y'] == Empty
        ensures b[x][y' + 1] == Empty
      {
      }
    }
  }

  /** On a board filled from the bottom, `is_full` means that no tile is empty. */
  lemma FullIffNoEmpty(b: Board)
    requires Shaped(b) && Gravity(b)
    ensures BoardFull(b) <==> NoEmptyTile(b)
  {
    if BoardFull(b) {
      forall x, y | 0 <= x < BoardWidth && 0 <= y < BoardHeight
        ensures b[x][y] != Empty
      {
        if b[x][y] == Empty {
          GravityAbove(b, x, y, BoardHeight - 1);
          assert ValidMove(b, x);
        }
      }
    }
  }

  /** Under gravity a column accepts a piece exactly when one of its tiles is empty. */
  lemma ValidColumnSpec(b: Board, a: nat)
    requires Shaped(b) && a < BoardWidth
    ensures Gravity(b) ==> (ValidMove(b, a) <==> exists y | 0 <= y < BoardHeight :: b[a][y] == Empty)
  {
    if Gravity(b) && exists y | 0 <= y < BoardHeight :: b[a][y] == Empty {
      var y :| 0 <= y < BoardHeight && b[a][y] == Empty;
      GravityAbove(b, a, y, BoardHeight - 1);
    }
  }

  /** Above an empty tile every tile of the column is empty. */
  lemma {:induction false} GravityAbove(b: Board, x: nat, y: nat, y': nat)
    requires Shaped(b) && Gravity(b) && x < BoardWidth && y <= y' < BoardHeight && b[x][y] == Empty
    ensures b[x][y'] == Empty
    decreases y' - y
  {
    if y < y' {
      GravityAbove(b, x, y, y' - 1);
    }
  }

  /** A move never ends a game as a draw while a tile is left empty, and a winning move is reported as a win. */
  lemma PlayOutcome(p: Position, a: nat, player: Player)
    requires Shaped(p.board) && Gravity(p.board) && a < BoardWidth && ValidMove(p.board, a)
    ensures var q := Play(p, a, player);
      && (q.state == Draw ==> NoEmptyTile(q.board))
      && (q.state == Won(player) <==> WinCheck.WonAt(Grid(q.board), BoardWidth, BoardHeight, a, LowestEmpty(p.board, a)))
  {
    PlayKeepsGravity(p, a, player);
    FullIffNoEmpty(Play(p, a, player).board);
  }

  // ---------------------------------------------------------------------------
  // The missing rising diagonal

  /** The four-direction test reports a win exactly when the three-direction test does or four rise along (1, 1). */
  lemma CorrectedAddsDiagonal(b: Board, x: nat, y: nat)
    requires Shaped(b) && x < BoardWidth && y < BoardHeight
    ensures WinCheck.WonAt(Grid(b), BoardWidth, BoardHeight, x, y)
        <==> WonAtAsWritten(Grid(b), BoardWidth, BoardHeight, x, y)
             || WinCheck.FourThrough(Grid(b), BoardWidth, BoardHeight, x, y, 1, 1, TileCode(b[x][y]))
  {
    WinCheck.LineLengthFour(Grid(b), BoardWidth, BoardHeight, x, y, 1, 1);
    var get := Grid(b);
    if WinCheck.WonAt(get, BoardWidth, BoardHeight, x, y) {
      var e :| 0 <= e < 4 && WinCheck.LineLength(get, BoardWidth, BoardHeight, x, y, WinCheck.Directions[e].0, WinCheck.Directions[e].1, get(x, y)) >= 4;
      if e < 3 {
        assert WonAtAsWritten(get, BoardWidth, BoardHeight, x, y);
      }
    }
    if WinCheck.FourThrough(get, BoardWidth, BoardHeight, x, y, 1, 1, TileCode(b[x][y])) {
      assert WinCheck.LineLength(get, BoardWidth, BoardHeight, x, y, WinCheck.Directions[3].0, WinCheck.Directions[3].1, get(x, y)) >= 4;
    }
    if WonAtAsWritten(get, BoardWidth, BoardHeight, x, y) {
      var e :| 0 <= e < 3 && WinCheck.LineLength(get, BoardWidth, BoardHeight, x, y, WinCheck.Directions[e].0, WinCheck.Directions[e].1, get(x, y)) >= 4;
      assert WinCheck.WonAt(get, BoardWidth, BoardHeight, x, y);
    }
  }

  /**
   * Red to play column 3 of the board below (`R` red, `Y` yellow, bottom row
   * first); the piece lands at (3, 3) and completes the rising diagonal
   * (0, 0), (1, 1), (2, 2), (3, 3).
   *
   *     column:  0  1  2  3  4
   *     row 2:         R  Y
   *     row 1:      R  Y  R
   *     row 0:   R  Y  R  Y  Y
   */
  function DiagonalBoard(): (b: Board)
    ensures Shaped(b)
  {
    var E, R, Y := Empty, Full(Red), Full(Yellow);
    [ [R, E, E, E, E, E],
      [Y, R, E, E, E, E],
      [R, Y, R, E, E, E],
      [Y, R, Y, E, E, E],
      [Y, E, E, E, E, E],
      [E, E, E, E, E, E],
      [E, E, E, E, E, E] ]
  }

  /** `DiagonalBoard` after Red's piece lands at (3, 3). */
  function DiagonalAfter(): (b: Board)
    ensures Shaped(b)
  {
    var E, R, Y := Empty, Full(Red), Full(Yellow);
    [ [R, E, E, E, E, E],
      [Y, R, E, E, E, E],
      [R, Y, R, E, E, E],
      [Y, R, Y, R, E, E],
      [Y, E, E, E, E, E],
      [E, E, E, E, E, E],
      [E, E, E, E, E, E] ]
  }

  /** Column 3 takes the piece at row 3. */
  lemma DiagonalDrop()
    ensures ValidMove(DiagonalBoard(), 3) && LowestEmpty(DiagonalBoard(), 3) == 3
    ensures DiagonalBoard()[3 := DiagonalBoard()[3][3 := Full(Red)]] == DiagonalAfter()
  {
    LowestEmptyUnique(DiagonalBoard(), 3, 3);
    assert DiagonalBoard()[3][3 := Full(Red)] == DiagonalAfter()[3];
  }

  /** A piece with no neighbour of its code on either side along a direction is a line of one. */
  lemma Isolated(get: (int, int) -> nat, x: int, y: int, dx: int, dy: int, c: nat)
    requires !WinCheck.Match(get, BoardWidth, BoardHeight, x + dx, y + dy, c)
    requires !WinCheck.Match(get, BoardWidth, BoardHeight, x - dx, y - dy, c)
    ensures WinCheck.LineLength(get, BoardWidth, BoardHeight, x, y, dx, dy, c) == 1
  {
    WinCheck.ForwardRun(get, BoardWidth, BoardHeight, x, y, dx, dy, c);
    WinCheck.BackwardRun(get, BoardWidth, BoardHeight, x, y, dx, dy, c);
  }

  /** Red's piece at (3, 3) of `DiagonalAfter` has no red neighbour along `(dx, dy)`. */
  lemma DiagonalIsolated(dx: int, dy: int)
    requires (dx, dy) in [(1, 0), (0, 1), (-1, 1)]
    ensures WinCheck.LineLength(Grid(DiagonalAfter()), BoardWidth, BoardHeight, 3, 3, dx, dy, 1) == 1
  {
    var get := Grid(DiagonalAfter());
    assert get(3 + dx, 3 + dy) != 1 && get(3 - dx, 3 - dy) != 1;
    Isolated(get, 3, 3, dx, dy, 1);
  }

  /** Along each of the three directions of the code as written, Red's piece at (3, 3) has no neighbour of its colour. */
  lemma DiagonalMissedAsWritten()
    ensures !WonAtAsWritten(Grid(DiagonalAfter()), BoardWidth, BoardHeight, 3, 3)
  {
    assert Grid(DiagonalAfter())(3, 3) == 1;
    forall e | 0 <= e < 3
      ensures WinCheck.LineLength(Grid(DiagonalAfter()), BoardWidth, BoardHeight, 3, 3, WinCheck.Directions[e].0, WinCheck.Directions[e].1, 1) == 1
    {
      DiagonalIsolated(WinCheck.Directions[e].0, WinCheck.Directions[e].1);
    }
  }

  /** The four-direction test sees the rising diagonal through (3, 3). */
  lemma DiagonalFound()
    ensures WinCheck.Four(Grid(DiagonalAfter()), BoardWidth, BoardHeight, 0, 0, 1, 1, Code(Red))
    ensures WinCheck.WonAt(Grid(DiagonalAfter()), BoardWidth, BoardHeight, 3, 3)
  {
    var get := Grid(DiagonalAfter());
    assert get(3, 3) == Code(Red);
    CorrectedAddsDiagonal(DiagonalAfter(), 3, 3);
    assert WinCheck.FourThrough(get, BoardWidth, BoardHeight, 3, 3, 1, 1, Code(Red));
  }

  /**
   * Red plays column 3 of `DiagonalBoard`: the code as written reports no
   * win for the four in a rising diagonal and leaves the game in progress,
   * while the four-direction test ends it with Red's win.
   */
  lemma MissedRisingDiagonal()
    ensures var p := Position(DiagonalBoard(), 0, InProgress);
      && ValidMove(p.board, 3) && LowestEmpty(p.board, 3) == 3
      && var b := Play(p, 3, Red).board;
      && WinCheck.Four(Grid(b), BoardWidth, BoardHeight, 0, 0, 1, 1, Code(Red))
      && OutcomeAsWritten(b, 3, 3, Red) == InProgress
      && Play(p, 3, Red).state == Won(Red)
  {
    DiagonalDrop();
    DiagonalMissedAsWritten();
    DiagonalFound();
    assert ValidMove(DiagonalAfter(), 5);
  }
}

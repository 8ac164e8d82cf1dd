/**
 * The vocabulary shared by every game: the two players, the outcome of a
 * game and the content of a tile.  On a packed board a tile is the two-bit
 * code 0 (empty), 1 (red) or 2 (yellow).
 */
module Games {

  datatype Player = Red | Yellow

  datatype GameState = Won(winner: Player) | Draw | InProgress

  datatype Tile = Empty | Full(owner: Player)

  /** A value that may be missing; `None` also stands for a call that panics. */
  datatype Option<T> = None | Some(value: T)

  /** The discriminant of a player, which is also its code in a packed cell. */
  function Code(p: Player): (c: nat)
    ensures 1 <= c <= 2
    ensures c == 1 <==> p == Red
  {
    match p
    case Red => 1
    case Yellow => 2
  }

  /** The two-bit code of a tile: 0 for empty, otherwise the owner's code. */
  function TileCode(t: Tile): (c: nat)
    ensures c < 3
    ensures c == 0 <==> t == Empty
    ensures t.Full? ==> c == Code(t.owner)
  {
    match t
    case Empty => 0
    case Full(p) => Code(p)
  }

  /** `!player`: the opponent. */
  function Not(p: Player): (q: Player)
    ensures q != p
  {
    match p
    case Red => Yellow
    case Yellow => Red
  }

  /** Negation is an involution and never fixes a player. */
  lemma NotInvolution(p: Player)
    ensures Not(Not(p)) == p
    ensures Not(p) != p
  {
  }

  /** The codes of the two players are distinct, nonzero and differ from each other's opponent. */
  lemma CodeInjective(p: Player, q: Player)
    ensures Code(p) == Code(q) <==> p == q
    ensures Code(Not(p)) == 3 - Code(p)
  {
  }

  /**
   * One entry of `vectorize(player)` for a cell holding code `c`: 1 for the
   * player's piece, -1 for the opponent's, 0 otherwise.
   */
  function VectorEntry(c: nat, player: Player): real
  {
    if c == Code(player) then 1.0
    else if c == Code(Not(player)) then -1.0
    else 0.0
  }

  /** The vector seen by the opponent is the negation of the player's, and every entry is 1, -1 or 0 as the cell says. */
  lemma VectorEntryNegates(c: nat, player: Player)
    ensures VectorEntry(c, Not(player)) == -VectorEntry(c, player)
    ensures VectorEntry(c, player) == 1.0 <==> c == Code(player)
    ensures VectorEntry(c, player) == -1.0 <==> c == Code(Not(player))
    ensures VectorEntry(c, player) == 0.0 <==> c != Code(player) && c != Code(Not(player))
  {
    NotInvolution(player);
  }
}

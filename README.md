# rl-cs4 in Dafny

This project models the core of rl-cs4, a small reinforcement-learning
playground for two "four in a row" games, and proves properties of that
model:

- **Connect Four** (`src/games/connect4.rs`). The 7×6 board is packed two bits
  per cell into a `u128`, cell `(x, y)` at bit `2 * (x + 7y)`. The code's
  behaviours are all modelled: gravity drops, the four-direction win test,
  `legal_actions`, `reverse_last_action`, `vectorize` and the left–right
  `symmetry` built from column masks.
- **Stack Four** (`src/games/stack4.rs`). The 8×8 board is packed the same
  way. A piece is pushed inward from any edge, so the legal squares are the
  first empty squares on the 32 edge rays.
- **The legacy Connect Four** (`src/connect4.rs`), a vector-of-columns board,
  with its own `SimpleEval` (`src/evaluators.rs`).
- **The evaluators** (`src/evaluators/`): `SimpleEval`, `LinesEval`, and
  `ConsequtiveEval` (a linear model over six run-count features). The two
  dispatching enums `Connect4Evaluators` and `Stack4Evaluators` are modelled
  too.
- **The searches**: plain minimax and fail-soft alpha-beta pruning
  (`src/search.rs`), and the older minimax with ±10000 sentinels
  (`src/minimax.rs`). Both search by playing a move on the game object and
  taking it back.
- **The agents** (`src/agents.rs`), **the policies** (`src/policies.rs`),
  **the match maker** (`src/matchmaker.rs`) and **the Q-learning stub**
  (`src/qlearning.rs`).
- **The browser front end** (`static/game.js`): the 8×8 Stack Four page's
  board, the acceptable-move test, the win scan and the server board format.

How the code is modelled:

- Packed boards are `nat`s below 2^128. `get`, `set`, shifts and masks are
  written out as base-4 arithmetic in `packed.dfy`.
- Each game object is a `class` with the source's fields. Its methods are
  specified against a value snapshot (`Position`) and pure functions `Play`
  and `Reverse`. The search methods mutate one game object and are proved to
  leave it as they found it.
- A score is `NegInf | Fin(real) | PosInf`, standing for the `f64` infinities
  the evaluators return on wins and losses.
- Random draws (`fastrand`) are nondeterministic choices, or parameters of
  the functions that specify the choice.

## Model

| member | source | states |
|---|---|---|
| Games.Code | src/games/mod.rs:27-31 | Red's two-bit code is 1 and Yellow's is 2; codes are 1 or 2 and identify the player |
| Games.TileCode | src/games/mod.rs:20-25 | an empty tile is code 0, a full tile carries its owner's code |
| Games.Not | src/games/mod.rs:40-47 | `!player` is the other player |
| Games.NotInvolution | src/games/mod.rs:40-47 | negating twice gives the player back, and a player is never its own opponent |
| Games.CodeInjective | src/games/mod.rs:27-31 | equal codes mean equal players; the opponent's code is 3 minus one's own |
| Games.VectorEntryNegates | src/games/connect4.rs:197-204 | a `vectorize` entry is 1.0 exactly on one's own piece, -1.0 exactly on the opponent's and 0.0 otherwise; swapping the player negates it |
| Packed.PutCell | src/games/connect4.rs:124-128 | `set` writes the new code into cell k, leaves every other cell as it was, and stays below 2^128 |
| Packed.PutRestore | src/games/connect4.rs:124-128 | writing a cell's old code back after `set` restores the whole word |
| WinCheck.CountRun | src/games/connect4.rs:39-59 | each of `player_won`'s two inner loops counts the run of the piece's code along one direction, stopping off the board or at a mismatch |
| WinCheck.ForwardRun | src/games/connect4.rs:39-48 | the forward count is 0, 1, 2 or 3: the number of matching cells before the first mismatch or edge |
| WinCheck.BackwardRun | src/games/connect4.rs:49-59 | the same for the backward loop (`let i = -i`) |
| WinCheck.PlayerWon | src/games/connect4.rs:34-65 | the loop over the four directions returns true exactly when some direction's `sm` reaches 4 |
| WinCheck.LineLengthFour | src/games/connect4.rs:38-62 | `sm >= 4` for a direction iff four cells in a row of that direction, all holding the piece's code, pass through the piece |
| WinCheck.WonAtFour | src/games/connect4.rs:34-65 | `player_won` iff some four-in-a-row through the placed piece exists in one of the four directions |
| Connect4Game.LowestEmptyFrom | src/games/connect4.rs:72-79 | the row `action_pos` finds is empty and every row below it from the start row is occupied |
| Connect4Game.LowestEmptyUnique | src/games/connect4.rs:72-79 | any empty row with every row below it occupied is the landing row |
| Connect4Game.TopPieceFromSpec | src/games/connect4.rs:82-89 | the row `pos_from_action` returns is occupied from the start row up, and the row above it is empty unless it is the top row |
| Connect4Game.TopPieceIs | src/games/connect4.rs:82-89 | a row that is occupied with an empty row (or the top) above it is the row returned |
| Connect4Game.ValidColumnsFrom | src/games/connect4.rs:172-182 | the columns collected from column a onward lie in [a, 7) and number at most 7 - a |
| Connect4Game.ValidColumnsFromSpec | src/games/connect4.rs:172-182 | the collected columns increase strictly and each is a valid move |
| Connect4Game.ValidColumnsFromComplete | src/games/connect4.rs:172-182 | every valid column from a onward is collected |
| Connect4Game.ValidColumnsSpec | src/games/connect4.rs:172-182 | `legal_actions` lists, in increasing order, exactly the columns whose top cell is empty |
| Connect4Game.Connect4.constructor | src/games/connect4.rs:138-144 | an empty board, Red to move, game in progress |
| Connect4Game.EmptyWellformed | src/games/connect4.rs:138-144 | the empty board obeys gravity and lies on the 42 cells |
| Connect4Game.Connect4.Get | src/games/connect4.rs:130-132 | `get` reads a two-bit code |
| Connect4Game.SetGet | src/games/connect4.rs:124-132 | after `set(x, y, v)`, `get(x, y)` is v and every other cell reads as before |
| Connect4Game.Connect4.Set | src/games/connect4.rs:124-128 | the board becomes the word with cell (x, y) replaced; the player and game state are unchanged |
| Connect4Game.Connect4.PlayerWon | src/games/connect4.rs:34-65 | the result is the four-in-a-row test through (x, y) on the 7×6 board |
| Connect4Game.Connect4.ActionPos | src/games/connect4.rs:72-79 | the lowest empty cell of the column (the source panics when there is none) |
| Connect4Game.Connect4.PosFromAction | src/games/connect4.rs:82-89 | the cell of the column's top piece |
| Connect4Game.Connect4.PlayAction | src/games/connect4.rs:147-162 | on a game in progress (the source asserts it), the new game is `Play` of the old one: a full column changes nothing; otherwise the mover's piece lands, the state becomes won, draw or in progress, and the turn passes |
| Connect4Game.PlayCells | src/games/connect4.rs:147-162 | a move into a full column changes nothing; a valid move changes exactly the landing cell to the mover's code and flips the player |
| Connect4Game.PlayKeepsWellformed | src/games/connect4.rs:147-162 | a move keeps the board obeying gravity and within the 42 cells |
| Connect4Game.Connect4.ReverseLastAction | src/games/connect4.rs:165-170 | the new game is `Reverse` of the old one: the top piece of the column is cleared, the state is in progress and the turn passes back |
| Connect4Game.ReverseCells | src/games/connect4.rs:165-170 | reversing clears exactly the column's top cell, flips the player and sets the state to in progress |
| Connect4Game.ReverseUndoesPlay | src/games/connect4.rs:147-170 | on an unfinished well-formed game, reversing a valid move gives back exactly the game before it |
| Connect4Game.FullIffNoEmpty | src/games/connect4.rs:91-98 | under gravity, `is_full` holds iff no cell is empty |
| Connect4Game.Connect4.IsFull | src/games/connect4.rs:91-93 | `is_full` holds iff no column is legal, and, under gravity, iff no cell is empty |
| Connect4Game.FullSpec | src/games/connect4.rs:91-98 | a board is full iff its list of valid columns is empty, and, under gravity, iff every cell holds a piece |
| Connect4Game.Connect4.IsValidMove | src/games/connect4.rs:95-98 | a move is valid iff its column is among the legal columns |
| Connect4Game.Connect4.LegalActions | src/games/connect4.rs:172-182 | the result is the list of valid columns in increasing order |
| Connect4Game.Connect4.Vectorize | src/games/connect4.rs:192-209 | 42 entries; entry k is +1, -1 or 0 as cell k holds the player's piece, the opponent's or nothing |
| Connect4Game.BoardEqual | src/games/connect4.rs:210-212 | two boards within the 42 cells that agree on every cell are the same word, so `uid` identifies a position by its cells |
| Connect4Game.Connect4.Uid | src/games/connect4.rs:210-212 | the identifier holds, cell for cell, the same code as the board |
| Connect4Game.Connect4.Symmetry | src/games/connect4.rs:102-122 | a new game whose board is the left–right mirror image (column x holds column 6 - x), with the same player and state |
| Connect4Game.BuildColumnMask | src/games/connect4.rs:104-107 | the mask holds 3 in the six cells of column 0 and 0 elsewhere |
| Connect4Game.LeftColumn | src/games/connect4.rs:109-111 | masking column i and shifting it left as the source does puts its six cells in column 6 - i, with nothing elsewhere |
| Connect4Game.RightColumn | src/games/connect4.rs:112-114 | masking column 4 + i and shifting it right as the source does puts its six cells in column 2 - i, with nothing elsewhere |
| Connect4Game.MirrorSides | src/games/connect4.rs:108-114 | after the two loops, every column except the middle holds its mirror column |
| Connect4Game.MirrorMiddle | src/games/connect4.rs:115 | adding the masked middle column completes the mirror image |
| Connect4Game.MirrorUnique | src/games/connect4.rs:102-122 | a board has only one mirror image |
| Connect4Game.MirrorTwice | src/games/connect4.rs:102-122 | mirroring the mirror image gives the board back |
| Connect4Game.MirrorMoves | src/games/connect4.rs:102-122 | column a is a valid move of the mirror image iff column 6 - a is one of the board; fullness and gravity carry over |
| Stack4Game.Stack4.constructor | src/games/stack4.rs:22-28 | an empty board, Red to move, game in progress |
| Stack4Game.Stack4.Get | src/games/stack4.rs:77-79 | `get` reads a two-bit code |
| Stack4Game.SetGet | src/games/stack4.rs:71-79 | after `set(x, y, v)`, `get(x, y)` is v and every other cell reads as before |
| Stack4Game.Stack4.Set | src/games/stack4.rs:71-75 | the board becomes the word with cell (x, y) replaced; the player and game state are unchanged |
| Stack4Game.Stack4.PlayerWon | src/games/stack4.rs:30-61 | the result is the four-in-a-row test through (x, y) on the 8×8 board |
| Stack4Game.RaySquare | src/games/stack4.rs:171-182 | every square a ray visits (edge `s`, offset c, depth k) lies on the board |
| Stack4Game.RayHitSpec | src/games/stack4.rs:178-188 | the inner loop yields exactly the first empty square of the ray, or nothing when the ray is full |
| Stack4Game.Stack4.WalkRay | src/games/stack4.rs:178-188 | the walk along one ray pushes what `RayHit` describes |
| Stack4Game.Hits | src/games/stack4.rs:173-190 | the collected squares number at most one per ray (32 in all) |
| Stack4Game.Stack4.PushSide | src/games/stack4.rs:174-190 | one edge's eight rays extend the collected list by that edge's hits |
| Stack4Game.Stack4.PushedSquares | src/games/stack4.rs:171-190 | the loops over the four edges collect the hits of all 32 rays |
| Stack4Game.CollectUpTo | src/games/stack4.rs:174-190 | a square is collected up to a ray iff some earlier ray hit it |
| Stack4Game.HitsUpTo | src/games/stack4.rs:174-190 | the same for the board's rays |
| Stack4Game.PushedIffReachable | src/games/stack4.rs:171-190 | a square is hit by some of the 32 rays iff it is reachable: the first empty square inward from some edge cell |
| Stack4Game.HitsSpec | src/games/stack4.rs:171-190 | the collected squares are exactly the reachable ones, each empty and on the board |
| Stack4Game.Stack4.Distinct | src/games/stack4.rs:191-192 | the `HashSet` round trip keeps the same squares with no duplicates and no more of them |
| Stack4Game.CollectedHits | src/games/stack4.rs:191-194 | after deduplication the actions are still exactly the reachable squares, each empty and on the board |
| Stack4Game.Stack4.LegalActions | src/games/stack4.rs:170-195 | every action is an empty square on the board, none repeats, at most 32, and a square is listed iff it is reachable from an edge |
| Stack4Game.ReachableEmpty | src/games/stack4.rs:178-187 | a reachable square is empty and on the board |
| Stack4Game.NoActionsIffFull | src/games/stack4.rs:63-65 | `legal_actions` is empty iff the board has no empty cell |
| Stack4Game.Stack4.IsFull | src/games/stack4.rs:63-65 | `is_full` holds iff no cell is empty |
| Stack4Game.Stack4.PlayAction | src/games/stack4.rs:144-156 | on a game in progress (the source asserts it), the new game is `Play` of the old one: the mover's code is written at (x, y), the state becomes won, draw or in progress, and the turn passes |
| Stack4Game.Stack4.ReverseLastAction | src/games/stack4.rs:158-160 | only the cell is cleared; player and state stay |
| Stack4Game.ReverseRestoresBoardOnly | src/games/stack4.rs:144-160 | reversing a move on an empty square restores the board, but the player stays flipped and the state stays what the move made it |
| Stack4Game.Stack4.Vectorize | src/games/stack4.rs:197-214 | 64 entries; entry k is +1, -1 or 0 as cell k holds the player's piece, the opponent's or nothing |
| Stack4Game.Stack4.Uid | src/games/stack4.rs:215-217 | the identifier holds, cell for cell over the 64 cells, the same code as the board |
| LegacyConnect4.LowestEmptyFrom | src/connect4.rs:132-139 | the landing row is empty and every row below it is occupied |
| LegacyConnect4.LowestEmptyUnique | src/connect4.rs:132-139 | any empty row with every row below it occupied is the landing row |
| LegacyConnect4.Connect4.constructor | src/connect4.rs:52-58 | seven empty columns of six tiles, last action 0, game in progress |
| LegacyConnect4.Connect4.PlayMove | src/connect4.rs:72-87 | corrected (see Findings): the new game is `Play` of the old one: the last action is recorded even for a full column; a valid move drops the given player's tile and sets the state by the four-direction win test, where the source's `player_won` checks three directions |
| LegacyConnect4.PlayTiles | src/connect4.rs:72-87 | a full column changes only the last action; a valid move changes exactly the landing tile |
| LegacyConnect4.PlayKeepsGravity | src/connect4.rs:72-87 | a move keeps every column filled from the bottom |
| LegacyConnect4.PlayOutcome | src/connect4.rs:80-86 | corrected (see Findings): after a valid move, a draw means the board has no empty tile, and the mover has won iff a four-in-a-row in any of the four directions passes through the new tile; the source misses the rising diagonal |
| LegacyConnect4.Connect4.PlayerWonAsWritten | src/connect4.rs:89-124 | the source's test with its three directions (no rising diagonal) |
| LegacyConnect4.ThreeDirectionWin | src/connect4.rs:96-123 | the three-direction loop computes the as-written test |
| LegacyConnect4.Connect4.PlayerWon | src/connect4.rs:89-124 | the corrected test with all four directions |
| LegacyConnect4.CorrectedAddsDiagonal | src/connect4.rs:90 | the corrected test is the as-written test or a rising-diagonal four through the tile |
| LegacyConnect4.DiagonalMissedAsWritten | src/connect4.rs:89-124 | on the example board the as-written test reports no win |
| LegacyConnect4.DiagonalFound | src/connect4.rs:89-124 | on the example board a rising diagonal of four Red tiles runs through the new tile |
| LegacyConnect4.MissedRisingDiagonal | src/connect4.rs:72-87 | dropping Red into column 3 of the example board completes a diagonal four; the as-written outcome stays in progress while the model's `Play` records Red's win |
| LegacyConnect4.Connect4.ActionPos | src/connect4.rs:132-139 | the lowest empty tile of the column, or [0, 0] when the column is full |
| LegacyConnect4.Connect4.IsFull | src/connect4.rs:168-170 | `is_full` iff no column's top tile is empty |
| LegacyConnect4.FullIffNoEmpty | src/connect4.rs:168-175 | under gravity, `is_full` holds iff no tile is empty |
| LegacyConnect4.Connect4.IsValidMove | src/connect4.rs:172-175 | under gravity, a column accepts a piece iff one of its tiles is empty |
| LegacyConnect4.ValidColumnSpec | src/connect4.rs:172-175 | under gravity, the top tile of a column is empty iff some tile of it is |
| LegacyConnect4.Connect4.Vectorize | src/connect4.rs:183-198 | entry `6x + y` is +1, -1 or 0 as tile (x, y) holds the player's piece, the opponent's or nothing |
| LegacyEvaluator.ValueSpec | src/evaluators.rs:19-41 | the value is 1 iff the evaluator's player won, -1 iff the other player won, and 0 otherwise; switching the player negates it |
| LegacyEvaluator.Value | src/evaluators.rs:19-41 | the value is 1, -1 or 0, and 0 exactly when nobody has won |
| Scores.Max | src/search.rs:32 | `f64::max`: at least both arguments and one of them |
| Scores.Min | src/search.rs:44 | `f64::min`: at most both arguments and one of them |
| Scores.Neg | src/agents.rs:80 | negation swaps the infinities and negates finite values |
| Scores.NegAntitone | src/agents.rs:80 | negation reverses the order and is its own inverse |
| Scores.MaxOfSpec | src/search.rs:29-34 | the fold from -∞ with `max` bounds every value, is one of them when there are any, and is -∞ otherwise |
| Scores.MinOfSpec | src/search.rs:41-46 | the fold from +∞ with `min` is at most every value, is one of them when there are any, and is +∞ otherwise |
| Scores.MaxOfClamped | src/minimax.rs:29-33 | folding clamped values from the lower bound equals clamping the plain maximum |
| Scores.MinOfClamped | src/minimax.rs:41-45 | folding clamped values from the upper bound equals clamping the plain minimum |
| Evaluators.SimpleValueSpec | src/evaluators/simple.rs:16-26 | a win is positive and at most 1 for a positive length; a loss is negative and at least -1; otherwise 0; switching the player negates it |
| Evaluators.SimpleValue | src/evaluators/simple.rs:16-26 | the value is 0 exactly when nobody has won, and finite unless a game won at length 0 |
| Evaluators.Values | src/evaluators/mod.rs:24-30 | the default `values` loop gives the list of the per-board values, in order |
| Evaluators.MapAt | src/evaluators/mod.rs:24-30 | entry k of that list is the value of board k |
| Evaluators.Connect4EvalValue | src/evaluators/mod.rs:54-61 | dispatches to the simple, lines or consecutive evaluator |
| Evaluators.Connect4ValueWins | src/evaluators/mod.rs:18-21 | a won position is valued positive, and +∞ by every evaluator except `SimpleEval` |
| Evaluators.Connect4ValueLosses | src/evaluators/mod.rs:18-21 | a lost position is valued negative, and -∞ by every evaluator except `SimpleEval` |
| Evaluators.Connect4Values | src/evaluators/mod.rs:62-69 | one value per board, in order, each the evaluator's value of that board |
| Evaluators.Connect4Gradient | src/evaluators/mod.rs:70-77 | a gradient exists only for the consecutive evaluator (the others are unimplemented) and equals its features |
| Evaluators.Connect4ApplyUpdate | src/evaluators/mod.rs:78-85 | only the consecutive evaluator accepts an update, which adds it to the parameters |
| Evaluators.Connect4GetParams | src/evaluators/mod.rs:86-93 | the lines and consecutive evaluators return their parameters; the simple one has none |
| Evaluators.Stack4EvalValue | src/evaluators/mod.rs:98-103 | dispatches to the simple or consecutive evaluator; corrected (see Findings): the consecutive evaluator scans the whole 8×8 board |
| Evaluators.Stack4ValueWins | src/evaluators/mod.rs:18-21 | a won Stack Four position is valued positive, +∞ by the consecutive evaluator |
| Evaluators.Stack4ValueLosses | src/evaluators/mod.rs:18-21 | a lost Stack Four position is valued negative, -∞ by the consecutive evaluator |
| Evaluators.Stack4Values | src/evaluators/mod.rs:104-109 | one value per board, in order, each the evaluator's value of that board; corrected (see Findings): the full 8×8 scan |
| Evaluators.Stack4Gradient | src/evaluators/mod.rs:110-115 | a gradient exists only for the consecutive evaluator and equals its Stack Four features; corrected (see Findings): those features scan the whole 8×8 board |
| Evaluators.Stack4ApplyUpdate | src/evaluators/mod.rs:116-121 | only the consecutive evaluator accepts an update, which adds it to the parameters |
| Evaluators.Stack4GetParams | src/evaluators/mod.rs:122-127 | only the consecutive evaluator has parameters to return |
| LinesEvaluator.TileOf | src/evaluators/lines.rs:55-59 | codes 0, 1 and 2 decode to the tile they encode |
| LinesEvaluator.LastOpponent | src/evaluators/lines.rs:69-84 | `last_opponent` is -1 or the index of an opponent tile with no opponent tile after it |
| LinesEvaluator.RunStep | src/evaluators/lines.rs:73-84 | `count` resets at an opponent tile, grows at one's own tile and stays on an empty one |
| LinesEvaluator.LineValue | src/evaluators/lines.rs:68-91 | `line_value` sums `count` over the positions at least four past the last opponent tile |
| LinesEvaluator.NoOwnPiecesNoScore | src/evaluators/lines.rs:68-91 | a line without one's own piece scores 0 |
| LinesEvaluator.ShortLineNoScore | src/evaluators/lines.rs:86-88 | a line of at most three tiles scores 0 |
| LinesEvaluator.AllOwnLine | src/evaluators/lines.rs:68-91 | a line of n own tiles scores 4 + 5 + … + n |
| LinesEvaluator.NoOpponentLine | src/evaluators/lines.rs:68-91 | a line without an opponent tile scores the sum, over every prefix of at least four tiles, of the own tiles in it |
| LinesEvaluator.CollectLine | src/evaluators/lines.rs:49-61 | the loop gathers the tiles from the start along the direction until it leaves the board |
| LinesEvaluator.StartValue | src/evaluators/lines.rs:48-63 | the three direction lines from one start add up their line values |
| LinesEvaluator.LinesEvaluation | src/evaluators/lines.rs:43-66 | the total over the twelve start cells the source enumerates and the three directions |
| LinesEvaluator.NoOwnPiecesNoLines | src/evaluators/lines.rs:43-66 | a board without one's own piece evaluates to 0 |
| LinesEvaluator.LinesEval.constructor | src/evaluators/lines.rs:37-41 | the parameters start as [0, 0] |
| LinesEvaluator.LinesEval.GetParams | src/evaluators/lines.rs:30-32 | returns the parameters |
| LinesEvaluator.Evaluate | src/evaluators/lines.rs:13-23 | the lines evaluator's `value` |
| LinesEvaluator.ValueSpec | src/evaluators/lines.rs:13-23 | a win is +∞, a loss -∞, a draw 0; an unfinished game gets a finite value of at least 0, and 0 when the player has no piece |
| ConsequtiveEvaluator.RunLengthSpec | src/evaluators/consequtive.rs:7-20 | the run holds the player's code at every step and the step after it does not |
| ConsequtiveEvaluator.PiecesInRow | src/evaluators/consequtive.rs:7-35 | the `while` loop returns the run length along a direction (both games) |
| ConsequtiveEvaluator.DirLength | src/evaluators/consequtive.rs:126-128 | the combined run through an empty cell is capped at 3 |
| ConsequtiveEvaluator.DirLengthSymmetric | src/evaluators/consequtive.rs:126-128 | a direction and its reverse give the same capped length |
| ConsequtiveEvaluator.DirectionPass | src/evaluators/consequtive.rs:125-132 | one direction bumps feature `l - 1` (plus offset) when `l >= 1` |
| ConsequtiveEvaluator.CellPass | src/evaluators/consequtive.rs:122-132 | one empty cell adds its tally over the four directions |
| ConsequtiveEvaluator.ColumnPass | src/evaluators/consequtive.rs:121-133 | one column of the scan adds its cells' tallies |
| ConsequtiveEvaluator.GridPass | src/evaluators/consequtive.rs:120-134 | the whole scan adds every column's tally |
| ConsequtiveEvaluator.CountFeatures | src/evaluators/consequtive.rs:117-149 | the six raw counts: own runs of length 1, 2, 3+ then the opponent's |
| ConsequtiveEvaluator.CountsSwap | src/evaluators/consequtive.rs:117-149 | the own and opponent halves swap when the player is switched |
| ConsequtiveEvaluator.EmptyBoardNoCounts | src/evaluators/consequtive.rs:117-149 | an empty board gives six zero counts |
| ConsequtiveEvaluator.NeighbourInCounts | src/evaluators/consequtive.rs:120-134 | an empty scanned cell next to one's own piece makes some own count positive |
| ConsequtiveEvaluator.CellTallyBound | src/evaluators/consequtive.rs:125-132 | one cell's directions add at most one count each to the three lengths |
| ConsequtiveEvaluator.ColumnTallyBound | src/evaluators/consequtive.rs:121-133 | a column adds at most four counts per empty cell |
| ConsequtiveEvaluator.GridTallyBound | src/evaluators/consequtive.rs:120-134 | the scan adds at most four counts per empty scanned cell |
| ConsequtiveEvaluator.CountsBound | src/evaluators/consequtive.rs:117-149 | the player's three counts together, and the opponent's, are at most four times the number of empty scanned cells |
| ConsequtiveEvaluator.Stack4CountsAsWritten | src/evaluators/consequtive.rs:155-187 | the Stack Four counts scanning only the 7×6 Connect Four area |
| ConsequtiveEvaluator.CornerMissedAsWritten | src/evaluators/consequtive.rs:158-159 | a board whose only piece is at (7, 7) gives six zero counts as written |
| ConsequtiveEvaluator.Stack4Counts | src/evaluators/consequtive.rs:155-187 | the corrected counts scanning the whole 8×8 board |
| ConsequtiveEvaluator.CornerSeenByFullScan | src/evaluators/consequtive.rs:155-187 | with the full scan, the same board gives a positive own count |
| ConsequtiveEvaluator.Saturated | src/evaluators/consequtive.rs:150-153 | the saturation keeps one feature per count |
| ConsequtiveEvaluator.Updated | src/evaluators/consequtive.rs:66-70 | each parameter with a matching update entry is increased by it; the rest are kept (the zip stops at the shorter) |
| ConsequtiveEvaluator.UpdateUndone | src/evaluators/consequtive.rs:66-70 | applying the negated update afterwards restores the parameters |
| ConsequtiveEvaluator.DotLinear | src/evaluators/consequtive.rs:55-59 | the weighted sum is linear in the parameters: updating them adds the sum over the update |
| ConsequtiveEvaluator.DotZero | src/evaluators/consequtive.rs:55-59 | zero parameters give a zero sum |
| ConsequtiveEvaluator.ValueSpec | src/evaluators/consequtive.rs:43-62 | a win is +∞, a loss -∞, a draw 0; an unfinished game is finite, and 0 under zero parameters |
| ConsequtiveEvaluator.ConsequtiveEval.constructor | src/evaluators/consequtive.rs:111-115 | six zero parameters |
| ConsequtiveEvaluator.ConsequtiveEval.GetParams | src/evaluators/consequtive.rs:71-73 | returns the parameters |
| ConsequtiveEvaluator.ConsequtiveEval.ApplyUpdate | src/evaluators/consequtive.rs:66-70 | the parameters become the updated ones |
| ConsequtiveEvaluator.ConsequtiveEval.DotLoop | src/evaluators/consequtive.rs:55-59 | the zip loop computes the weighted sum of features and parameters |
| ConsequtiveEvaluator.ConsequtiveEval.ValueInProgress | src/evaluators/consequtive.rs:53-60 | an unfinished game is valued at that weighted sum |
| ConsequtiveEvaluator.ConsequtiveEval.GradientConnect4 | src/evaluators/consequtive.rs:63-65 | the gradient is the Connect Four feature vector |
| ConsequtiveEvaluator.ConsequtiveEval.ValueConnect4 | src/evaluators/consequtive.rs:43-62 | the Connect Four value over the features and parameters |
| ConsequtiveEvaluator.ConsequtiveEval.GradientStack4 | src/evaluators/consequtive.rs:97-99 | corrected (see Findings): the gradient is the Stack Four feature vector over the whole 8×8 board, where the source scans only the 7×6 corner |
| ConsequtiveEvaluator.ConsequtiveEval.ValueStack4 | src/evaluators/consequtive.rs:77-96 | corrected (see Findings): the Stack Four value (±∞ when finished, else the dot product of the parameters with the 8×8 features), where the source's features scan only the 7×6 corner |
| Search.MinimaxNode | src/search.rs:20-53 | an unfinished node with depth left is the maximum (or minimum) of its children's values, in column order |
| Search.MaxNodeSpec | src/search.rs:28-39 | a maximizing node's value is at least every child's, equals some child's, and is -∞ without valid columns |
| Search.MinNodeSpec | src/search.rs:40-52 | a minimizing node's value is at most every child's, equals some child's, and is +∞ without valid columns |
| Search.CloneGame | src/search.rs:9 | the clone is a new game equal to the original |
| Search.MinimaxSearch | src/search.rs:20-53 | `_minimax` returns the minimax value and leaves the game as it found it |
| Search.MinimaxRoot | src/search.rs:8-18 | `minimax` searches a clone as the maximizing player |
| Search.MinimaxAction | src/search.rs:55-66 | the minimizing value after the action; the game is put back (exactly so when the action was valid) |
| Search.MaxStep | src/search.rs:112-114 | one more child keeps the running maximum exact within the window |
| Search.MinStep | src/search.rs:125-127 | one more child keeps the running minimum exact within the window |
| Search.MaxCut | src/search.rs:116-118 | once the maximum reaches beta, stopping leaves the clamped result equal to the clamped maximum over all children |
| Search.MinCut | src/search.rs:128-130 | once the minimum reaches alpha, stopping leaves the clamped result equal to the clamped minimum over all children |
| Search.AlphaBeta | src/search.rs:102-133 | `_abpruning` leaves the game as it found it, and its value clamped to [alpha, beta] equals the clamped minimax value |
| Search.AlphaBetaMax | src/search.rs:108-120 | the maximizing loop's value, clamped, equals the clamped maximum of the children |
| Search.MaxChild | src/search.rs:110-118 | one iteration: play, search, take back, raise alpha, and stop exactly when the value reaches beta |
| Search.AlphaBetaMin | src/search.rs:121-132 | the minimizing loop's value, clamped, equals the clamped minimum of the children |
| Search.MinChild | src/search.rs:123-130 | one iteration: play, search, take back, lower beta, and stop exactly when the value falls to alpha |
| Search.AlphaBetaFullWindow | src/search.rs:71 | with the window (-∞, +∞), alpha-beta returns exactly the minimax value |
| Search.AlphaBetaAction | src/search.rs:68-74 | `abpruning_action` returns the minimax value after the action and puts the game back |
| Search.ActionValues | src/search.rs:85-89 | one value per valid column, in order, each that column's child value; the clone is put back |
| Search.ScoreOnClone | src/search.rs:83-89 | the valid columns and their child values, computed on a clone |
| Search.MaxValue | src/search.rs:95 | the fold from -∞ with `max` gives the maximum of the values |
| Search.Reaching | src/search.rs:96 | the indices listed are exactly those whose value equals the maximum |
| Search.PickBest | src/search.rs:95-98 | the drawn index carries the maximum value |
| Search.PickColumn | src/search.rs:83-98 | the chosen column is valid and its child value is the largest |
| Search.BestChild | src/search.rs:95-98 | a column with the largest child value carries the root's minimax value |
| Search.BestAction | src/search.rs:76-100 | `abpruning_best_action` returns a valid column whose subtree carries the minimax value of the root |
| SentinelMinimax.ValueNode | src/minimax.rs:18-52 | an unfinished node folds its children from -10000 with `max` (or from 10000 with `min`) |
| SentinelMinimax.SentinelsClamp | src/minimax.rs:18-52 | when the evaluator stays within ±10000, the sentinel search equals the exact minimax value clamped to [-10000, 10000] |
| SentinelMinimax.MinimaxSearch | src/minimax.rs:18-52 | `_minimax` returns the sentinel value, and the board is unchanged afterwards, as the source's panic check demands |
| SentinelMinimax.MinimaxRoot | src/minimax.rs:6-9 | `minimax` searches a clone as the maximizing player |
| SentinelMinimax.MinimaxAction | src/minimax.rs:11-16 | the minimizing value after the action; the game is put back |
| Policies.Best | src/policies.rs:47 | every listed index carries the maximum |
| Policies.BestSpec | src/policies.rs:47 | the list holds exactly the indices whose value equals the maximum, in increasing order |
| Policies.GreedySpec | src/policies.rs:45-49 | `Greedy::choose` returns an index whose value is the maximum, at least every other value |
| Policies.GreedyDefined | src/policies.rs:45-49 | there is something to draw iff the values are not empty |
| Policies.GreedyComplete | src/policies.rs:45-49 | every index carrying the maximum can be drawn |
| Policies.LastArgMax | src/policies.rs:29 | `max_by` returns an index of the values |
| Policies.LastArgMaxSpec | src/policies.rs:29 | `max_by` returns the last maximal index: its value is the maximum and every later value is smaller |
| Policies.EpsilonGreedySpec | src/policies.rs:25-31 | below epsilon the draw is returned; otherwise the last maximal index |
| Policies.EpsilonExtremes | src/policies.rs:25-31 | epsilon 0 always picks a maximum; epsilon 1 always returns the draw |
| Policies.Choose | src/policies.rs:6-7 | `choose` returns an index of the values |
| Policies.ChooseGreedy | src/policies.rs:43-49 | the greedy policy's choice carries the maximum |
| Policies.DrawsExist | src/policies.rs:25-49 | every policy has a draw for a non-empty list |
| Agents.MinimaxAgentAction | src/agents.rs:22-26 | the minimax agent plays a valid column carrying the root's minimax value |
| Agents.NewBatchAgent | src/agents.rs:34-42 | `BatchMinimaxAgent::new` keeps the search, the depth and the batch depth as given |
| Agents.BatchAgentAction | src/agents.rs:44-48 | the batch agent's `get_action` is exactly the column the batched search picks for the game at the agent's depth and for the player; the batch depth is not used |
| Agents.NewPolicyAgent | src/agents.rs:58-67 | the batch depth starts equal to the depth |
| Agents.WinningSpec | src/agents.rs:78-87 | `winning_moves` holds exactly the valid columns whose negated negamax value is +∞ |
| Agents.OpenSound | src/agents.rs:78-87 | every entry of `avs` is a valid column with its finite value |
| Agents.OpenComplete | src/agents.rs:78-87 | every valid column with a finite value appears in `avs`, paired with that value |
| Agents.MoveValueAfter | src/agents.rs:79-80 | a column's value is the negated negamax score of the opponent after the move |
| Agents.FilterStep | src/agents.rs:82-86 | each column adds itself to `winning_moves`, to `avs` or to neither |
| Agents.ScoreColumn | src/agents.rs:79-81 | playing, scoring and reversing one column gives its value and restores the game |
| Agents.ScoreColumns | src/agents.rs:74-87 | the loop builds `winning_moves` and `avs` and leaves the clone as it was |
| Agents.PolicyAgentAction | src/agents.rs:73-97 | `get_action` returns a winning column when there is one, else the open column the policy picks, else any valid column |
| Agents.ChoiceSpec | src/agents.rs:70-72 | the column is valid; a win is always taken; a losing column only when every column loses; the greedy policy picks an open column of largest value |
| MatchMaking.PlayFills | src/matchmaker.rs:52-60 | a valid move fills one more cell, so the game loop ends |
| MatchMaking.PlayPlayable | src/matchmaker.rs:52-60 | a valid move keeps the game playable and passes the turn |
| MatchMaking.StartPlayable | src/matchmaker.rs:48-51 | the new game is playable |
| MatchMaking.Playout | src/matchmaker.rs:52-60 | alternating the two agents from a playable game ends in a finished game |
| MatchMaking.GameResult | src/matchmaker.rs:47-62 | a game between two legal agents ends won or drawn |
| MatchMaking.PlayGame | src/matchmaker.rs:47-62 | `play_game` returns a new finished game whose state is the result of the playout with p1 as Red |
| MatchMaking.Zeros | src/matchmaker.rs:65 | one `[0, 0, 0]` per agent |
| MatchMaking.Count | src/matchmaker.rs:67-90 | one history entry keeps the table's length |
| MatchMaking.Scores | src/matchmaker.rs:64-93 | a successful tally has one triple per agent |
| MatchMaking.ScoresDefined | src/matchmaker.rs:87-89 | the tally fails (the source panics) iff some recorded game is unfinished |
| MatchMaking.CountSums | src/matchmaker.rs:67-90 | one entry adds one game to each of its two agents and balances wins against losses |
| MatchMaking.ScoresSums | src/matchmaker.rs:64-93 | in total, wins equal losses and the entries sum to twice the number of games |
| MatchMaking.ScoresPlayed | src/matchmaker.rs:64-93 | each agent's draws, wins and losses add up to the number of games it appears in (`nbgames`) |
| MatchMaking.NoneStaysNone | src/matchmaker.rs:87-89 | a panic on a prefix of the history means a panic on the whole of it |
| MatchMaking.MatchMaker.constructor | src/matchmaker.rs:18-24 | no agents, no history, no last game |
| MatchMaking.MatchMaker.AddAgent | src/matchmaker.rs:26-28 | one more agent at the end; the history stays |
| MatchMaking.MatchMaker.PlayNGames | src/matchmaker.rs:31-45 | with two agents, n entries are appended, each naming both agents once with the result of their game |
| MatchMaking.MatchMaker.PlayOne | src/matchmaker.rs:34-43 | one entry is appended naming both agents once, either of them as Red, with the result of their game; earlier entries stay |
| MatchMaking.MatchMaker.GetScores | src/matchmaker.rs:64-93 | `get_scores` returns the tally of the history, or fails where the source panics |
| QLearning.Mine | src/qlearning.rs:31-36 | the kept boards are no more than the history |
| QLearning.MineSpec | src/qlearning.rs:31-36 | a board is kept iff it is in the history with the learner's player to move |
| QLearning.MineAppend | src/qlearning.rs:31-36 | the filter distributes over concatenated histories |
| QLearning.MineNonempty | src/qlearning.rs:37 | something is kept iff some board has the learner to move |
| QLearning.QLearner.constructor | src/qlearning.rs:20-27 | the four fields as given |
| QLearning.QLearner.Update | src/qlearning.rs:29-42 | `update` keeps, in order, exactly the boards of the history where the learner is to move; there is at least one |
| WebGame.EmptyBoard | static/game.js:171-180 | the 8×8 board of zeros |
| WebGame.IsArrayEqual | static/game.js:312-322 | true iff the two arrays are equal element by element |
| WebGame.BoardToServerFormat | static/game.js:102-110 | 64 entries, entry `8x + y` is `board[x][y]` |
| WebGame.FromServerFormat | static/game.js:102-110 | the 64 entries regrouped as an 8×8 board |
| WebGame.ServerFormatRoundTrip | static/game.js:102-110 | regrouping the server format gives the board back |
| WebGame.FirstZeroStepSpec | static/game.js:207-214 | the search from step i finds step k iff k is empty and every step from i before it is occupied |
| WebGame.FirstZeroStepNone | static/game.js:207-214 | the search finds nothing iff every remaining step is occupied |
| WebGame.DropResult | static/game.js:207-214 | `dropResult` returns the first empty cell of the ray, or null |
| WebGame.Arrives | static/game.js:202-205 | one `isArrayEqual(dropResult(..), [x, y])` test: the ray's first empty cell is (x, y) |
| WebGame.FromEdge | static/game.js:202-205 | a ray's first empty cell is step k iff step k is empty and every earlier step is occupied |
| WebGame.FromLeft | static/game.js:202 | pushing from the left edge lands on (x, y) iff it is empty and every cell left of it is occupied |
| WebGame.FromRight | static/game.js:203 | the same from the right edge |
| WebGame.FromTop | static/game.js:204 | the same from the top edge |
| WebGame.FromBottom | static/game.js:205 | the same from the bottom edge |
| WebGame.IsAcceptableMove | static/game.js:198-206 | computes whether the cell is acceptable |
| WebGame.AcceptableSpec | static/game.js:198-206 | a cell is acceptable iff it is empty and every cell between it and one of the four edges, in its row or column, is occupied |
| WebGame.EmptyAcceptable | static/game.js:198-206 | on the empty board exactly the edge cells are acceptable |
| WebGame.FlipSpec | static/game.js:255 | `!(t - 1) + 1` swaps 1 and 2 and is its own inverse |
| WebGame.Stack4Page.constructor | static/game.js:171-180 | an empty board with kryss (2) to move |
| WebGame.Stack4Page.Start | static/game.js:171-180 | `start` sets an empty board with kryss (2) to move |
| WebGame.Stack4Page.Reset | static/game.js:295-309 | `reset` clears the board and gives the turn to kryss |
| WebGame.Stack4Page.PlacePiece | static/game.js:252-257 | an acceptable cell gets the mover's mark and the turn passes; otherwise nothing changes; the marks stay in {0, 1, 2} and the turn stays 1 or 2 |
| WebGame.PlaceSpec | static/game.js:252-257 | placing keeps the marks in {0, 1, 2}, changes only (x, y), and leaves that cell no longer acceptable |
| WebGame.Broken | static/game.js:274-283 | `isBroken` is false iff the four cells from (x, y) along the direction are on the board and hold the player's mark |
| WebGame.ScanCell | static/game.js:273-290 | the four directions at one cell add their winning lines: every added pair is a four, lines already found are kept, and each direction whose four cells hold the player's mark has its line recorded |
| WebGame.ScanColumn | static/game.js:272-291 | one column of cells adds its winning lines: every added pair is a four, lines already found are kept, and every four starting in the column is recorded |
| WebGame.RecordedKept | static/game.js:271-292 | a line recorded early in the scan is still recorded after more lines are appended |
| WebGame.HasWon | static/game.js:268-294 | the flag is true iff the player has four in a row somewhere, iff some line was recorded; every recorded pair is a start and end of such a four, and every four on the board is recorded |
| WebGame.AnyBeforeWon | static/game.js:271-292 | scanning all 64 start cells finds a four iff the player has won |

## Left out

- The CNN evaluator (`src/evaluators/cnn.rs`) and the `CNN` arms of `Connect4Evaluators` are not part of this model: they call a neural-network runtime.
- ConsequtiveEvaluator.Saturated: the feature saturation `10 * (1 - exp(-x / 10))` is floating point; it is a parameter `sat: nat -> real`, and nothing is assumed about it.
- Floating point as a whole: scores are `NegInf | Fin(real) | PosInf`. NaN, rounding and `partial_cmp(..).unwrap()` panics on NaN are not modelled.
- The static `count` of evaluated nodes in `src/search.rs` and its `println!` are left out; they do not affect any returned value.
- The searches and agents call an interface no single board provides (`valid_moves`, a one-argument `play_move`, `reverse_last_move`, and `Evaluator` without a player). They are modelled against the bitboard `Connect4` of `src/games/connect4.rs` (`legal_actions`, `play_action`, `reverse_last_action`), with the evaluator as a function `Position -> Score`.
- Evaluators.SimpleValueSpec: `board.length()` does not exist on either game; it is a `length` parameter, and a length of 0 gives the infinities `1.0 / 0.0` produces.
- Evaluators.Connect4ValueWins: the trait comment at `src/evaluators/mod.rs:20` promises ±∞ on wins and losses, but `SimpleEval` returns ±1/length. The model follows the code, and the contract states only the sign for `SimpleEval`.
- Evaluators.Connect4Values: the default `values` loop is specified against the evaluator's value function, not against the `Connect4EvalValue` method.
- The random distributions of `fastrand` are not modelled; each random choice is any value in the source's range.
- `LinesEval`'s parameters are never read by `lines_evaluation`; the model keeps them for `get_params` only.
- `next_board` in `src/connect4.rs` calls the commented-out `place_piece` and cannot compile; it is left out.
- `batch_negamax` and `batch_negamax_best_action` are called by `src/agents.rs` but defined nowhere in the repository's source, not even in `src/search.rs`, from which they are imported. `BatchMinimaxAgent` takes the best-action search and `MinimaxPolicyAgent` takes the negamax search as function parameters, and nothing is assumed about either.
- The `unimplemented!()` members (`gradient`, `apply_update` and `get_params` of `SimpleEval`, and `gradient` and `apply_update` of `LinesEval`) are modelled as `None` or `false` results, not as panics.
- Integer widths: `u32` depths, `i32` coordinates and `u32` counts cannot overflow within the board sizes. The `depth - 1` underflow at depth 0 is excluded by a `1 <= depth` precondition where the source would panic.
- MatchMaking.PlayGame: agents are required to answer every unfinished game with a valid column (`Legal`). The source also accepts a full column: `play_move` then leaves the game unchanged, the turn still passes to the other agent (`b = !b`) on a board whose player to move did not change, and the loop never ends if the agents keep answering full columns. Games with such answers are not modelled.
- QLearning.QLearner.Update: the source's loop body computes a gradient and a target and discards them, so there is no learning step to model. A history without the learner's positions makes `states.len() - 1` underflow; it is excluded by the precondition.
- The DOM, canvas, images, mouse handling, XHR (`getMoveFromServer`), `check_for_winners`, `draw_winning_line`, `renderBoard`, `highlightAccecpableMoves`, `showWhoseTurn`, `getRect` and `localGame` in `static/game.js` are rendering and I/O and are left out.
- WebGame.Stack4Page.Reset: the global `gameIsOver` and `winner` flags it clears are not modelled.
- WebGame.DropResult: requires the ray to stay on the board for all eight steps, which holds for the four edge rays `isAcceptableMove` uses; reading off the board in JavaScript is not modelled.
- WebGame.HasWon: returns the list of (start, end) pairs rather than the two flat coordinate arrays, and states which lines are in it but not their order.
- Stack4Game.Stack4.LegalActions: the order after the `HashSet` round trip is unspecified, so the contract states the set of actions and their distinctness but not their order. The `println!` of the count is left out.
- Stack4Game.Stack4.PlayAction: the source assumes the action is legal and does not check it; the model writes the cell whatever it held, as the code does.
- LegacyConnect4.Connect4.PlayMove: uses the corrected four-direction win test. The source's `play_move` calls the three-direction `player_won`, so on the board of the first Findings row it leaves the game in progress where the model records Red's win.
- LegacyConnect4.PlayOutcome: states the corrected outcome; the as-written one is `OutcomeAsWritten`, shown to differ by `MissedRisingDiagonal`.
- ConsequtiveEvaluator.ConsequtiveEval.GradientStack4: returns the corrected 8×8 features. The source's `features_stack4` scans only columns 0-6 and rows 0-5 (second Findings row), so on a board whose only piece is at (7, 7) the source gives zero features where the model gives a positive own count.
- ConsequtiveEvaluator.ConsequtiveEval.ValueStack4: values a game in progress by the corrected 8×8 features, not the source's 7×6 scan.
- Evaluators.Stack4EvalValue: the consecutive evaluator's value uses the corrected 8×8 features.
- Evaluators.Stack4Values: each value uses the corrected 8×8 features.
- Evaluators.Stack4Gradient: the gradient is the corrected 8×8 feature vector.
- The interactive console input (`get_action_from_user`, `get_move_from_user`, `user_vs_user`) and the `Debug` printing are I/O and are left out.

## Findings

| source | as written | input that shows it | evidently intended | confidence | as-written member | corrected member |
|---|---|---|---|---|---|---|
| src/connect4.rs:90 | `player_won` checks only the directions (1,0), (0,1) and (-1,1) | Red tiles at (0,0), (1,1) and (2,2), then Red dropped into column 3 landing at (3,3): a rising diagonal of four is not reported, and the game stays in progress | all four directions, including (1,1), as in `src/games/connect4.rs:35` | not executed | LegacyConnect4.Connect4.PlayerWonAsWritten, LegacyConnect4.MissedRisingDiagonal | LegacyConnect4.Connect4.PlayerWon, LegacyConnect4.CorrectedAddsDiagonal |
| src/evaluators/consequtive.rs:158-159 | `features_stack4` scans x in 0..BOARD_WIDTH and y in 0..BOARD_HEIGHT, Connect Four's 7×6, on the 8×8 Stack Four board | a Stack Four board whose only piece is Red's at (7, 7): the empty cell (6, 7) beside it is never scanned, so all six features are 0 | scan all 8×8 cells | not executed | ConsequtiveEvaluator.Stack4CountsAsWritten, ConsequtiveEvaluator.CornerMissedAsWritten | ConsequtiveEvaluator.Stack4Counts, ConsequtiveEvaluator.CornerSeenByFullScan |

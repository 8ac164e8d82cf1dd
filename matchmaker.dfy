/**
 * The match maker: a list of agents, the history of the games they played
 * (which agent had Red, which had Yellow, and how the game ended), and the
 * tally of draws, wins and losses per agent.
 *
 * An agent is seen through `get_action`: a function from the player it was
 * last set to and the game to the column it plays.  Agents are required to
 * answer every unfinished game with a valid column.  `play_game` alternates
 * the agents after every `play_move`, even one into a full column that
 * leaves the game and its player to move unchanged; with agents that may
 * answer a full column the game then goes on only as long as they keep
 * choosing valid ones, and never ends if they keep answering full columns.
 */
module MatchMaking {
  import opened Games
  import opened Packed
  import opened Connect4Game

  /** How an agent picks a column: from the player it plays and the game. */
  type Chooser = (Player, Position) -> nat

  /** A boxed `Agent`: its `get_action` and the player `set_player` gave it. */
  datatype Agent = Agent(choose: Chooser, player: Player)

  /** `agent.get_action(board)`. */
  function GetAction(agent: Agent, p: Position): nat
  {
    agent.choose(agent.player, p)
  }

  /** The agent answers every unfinished game that has a free column with a column that accepts a piece. */
  ghost predicate Legal(choose: Chooser)
  {
    forall pl: Player, q: Position | Playable(q) && q.state == InProgress :: Accepts(q, choose(pl, q))
  }

  predicate Accepts(q: Position, a: nat)
  {
    a < BoardWidth && ValidMove(q.board, a)
  }

  /** One entry of `hist`: the red agent's index, the yellow agent's index and the result. */
  datatype Record = Record(red: nat, yellow: nat, result: GameState)

  /** One `[draws, wins, losses]` triple of `get_scores`. */
  datatype Tally = Tally(draws: int, wins: int, losses: int)

  // ---------------------------------------------------------------------------
  // Playing one game

  /** The number of empty board cells among the first `n`. */
  function EmptyCount(b: nat, n: nat): nat
  {
    if n == 0 then 0 else EmptyCount(b, n - 1) + (if Cell(b, n - 1) == 0 then 1 else 0)
  }

  /** Boards agreeing on the first `n` cells have as many empty cells there. */
  lemma {:induction false} EmptyCountSame(b: nat, b': nat, n: nat)
    requires forall j | 0 <= j < n :: Cell(b', j) == Cell(b, j)
    ensures EmptyCount(b', n) == EmptyCount(b, n)
  {
    if n > 0 {
      EmptyCountSame(b, b', n - 1);
    }
  }

  /** Filling one empty cell and changing nothing else lowers the count. */
  lemma {:induction false} EmptyCountFill(b: nat, b': nat, k: nat, n: nat)
    requires k < n
    requires forall j | 0 <= j < n && j != k :: Cell(b', j) == Cell(b, j)
    requires Cell(b, k) == 0 && Cell(b', k) != 0
    ensures EmptyCount(b', n) < EmptyCount(b, n)
  {
    if n - 1 == k {
      EmptyCountSame(b, b', k);
    } else {
      EmptyCountFill(b, b', k, n - 1);
    }
  }

  /** A move on a valid column fills one empty board cell. */
  lemma PlayFills(p: Position, a: nat)
    requires Wellformed(p.board) && p.state == InProgress && a < BoardWidth && ValidMove(p.board, a)
    ensures EmptyCount(Play(p, a).board, BoardCells) < EmptyCount(p.board, BoardCells)
  {
    PlayCells(p, a);
    var b, b' := p.board, Play(p, a).board;
    var y := LowestEmpty(b, a);
    forall j | 0 <= j < BoardCells && j != Index(a, y)
      ensures Cell(b', j) == Cell(b, j)
    {
      Split(j);
      assert CodeAt(b', j % BoardWidth, j / BoardWidth) == CodeAt(b, j % BoardWidth, j / BoardWidth);
    }
    assert CodeAt(b', a, y) == Code(p.cur);
    EmptyCountFill(b, b', Index(a, y), BoardCells);
  }

  /** A game the loop of `play_game` can continue from: well formed, and unfinished only while a column is free. */
  predicate Playable(p: Position)
  {
    Wellformed(p.board) && (p.state == InProgress ==> !BoardFull(p.board))
  }

  /** A move keeps a game playable. */
  lemma PlayPlayable(p: Position, a: nat)
    requires Playable(p) && p.state == InProgress && a < BoardWidth && ValidMove(p.board, a)
    ensures Playable(Play(p, a)) && Play(p, a).cur == Not(p.cur)
  {
    PlayKeepsWellformed(p, a);
  }

  /** The start of every game: the empty board, Red to move. */
  const Start: Position := Position(0, Red, InProgress)

  lemma StartPlayable()
    ensures Playable(Start)
  {
    EmptyWellformed();
    CellOfDigit(0, Index(0, BoardHeight - 1));
    assert ValidMove(0, 0);
  }

  /**
   * The end of the game from `p` when the agent `red` plays Red's moves and
   * `yellow` plays Yellow's.
   */
  function Playout(p: Position, red: Agent, yellow: Agent): (r: Position)
    requires Playable(p) && Legal(red.choose) && Legal(yellow.choose)
    ensures r.state != InProgress && Playable(r)
    decreases EmptyCount(p.board, BoardCells)
  {
    if p.state != InProgress then p
    else
      var a := if p.cur == Red then GetAction(red, p) else GetAction(yellow, p);
      PlayFills(p, a);
      PlayPlayable(p, a);
      Playout(Play(p, a), red, yellow)
  }

  /** The result of a game from the empty board between `red` and `yellow`. */
  function GameResult(red: Agent, yellow: Agent): (r: GameState)
    requires Legal(red.choose) && Legal(yellow.choose)
    ensures r != InProgress
  {
    StartPlayable();
    Playout(Start, red, yellow).state
  }

  /**
   * One entry `play_n_games` adds for the agents choosing by `c0` and `c1`:
   * one of them plays Red and the other Yellow, and the result is their game's.
   */
  ghost predicate Fair(r: Record, c0: Chooser, c1: Chooser)
    requires Legal(c0) && Legal(c1)
  {
    && ((r.red, r.yellow) == (0, 1) || (r.red, r.yellow) == (1, 0))
    && r.result == GameResult(Agent(if r.red == 0 then c0 else c1, Red), Agent(if r.yellow == 0 then c0 else c1, Yellow))
  }

  /**
   * `play_game(p1, p2)`: a new game with Red to move, then `p1` and `p2`
   * take turns, `p1` first, until the game is over.  The turn flag follows
   * the player to move, so `p1` always plays Red.
   */
  method PlayGame(p1: Agent, p2: Agent) returns (board: Connect4)
    requires Legal(p1.choose) && Legal(p2.choose)
    ensures fresh(board)
    ensures board.gameState == GameResult(p1, p2)
  {
    board := new Connect4();
    var b := true;
    board.curPlayer := Red;
    StartPlayable();
    while board.gameState == InProgress
      invariant Playable(board.Snapshot())
      invariant b <==> board.curPlayer == Red
      invariant Playout(board.Snapshot(), p1, p2) == Playout(Start, p1, p2)
      decreases EmptyCount(board.board, BoardCells)
    {
      var p := board.Snapshot();
      var action := if b then GetAction(p1, p) else GetAction(p2, p);
      BoardBoundCells(BoardCells);
      board.PlayAction(action);
      PlayFills(p, action);
      PlayPlayable(p, action);
      b := !b;
    }
  }

  // ---------------------------------------------------------------------------
  // Tallying the history

  /** `[0; 3]` for each of `n` agents. */
  function Zeros(n: nat): (r: seq<Tally>)
    ensures |r| == n && forall i | 0 <= i < n :: r[i] == Tally(0, 0, 0)
  {
    seq(n, _ => Tally(0, 0, 0))
  }

  predicate InRange(r: Record, n: nat)
  {
    r.red < n && r.yellow < n
  }

  /** The triple `d` added into `a`. */
  function Plus(a: Tally, d: Tally): Tally
  {
    Tally(a.draws + d.draws, a.wins + d.wins, a.losses + d.losses)
  }

  /** What a finished game adds to the red agent's triple. */
  function RedDelta(result: GameState): Tally
  {
    match result
    case Won(Red) => Tally(0, 1, 0)
    case Won(Yellow) => Tally(0, 0, 1)
    case _ => Tally(1, 0, 0)
  }

  /** What a finished game adds to the yellow agent's triple. */
  function YellowDelta(result: GameState): Tally
  {
    match result
    case Won(Red) => Tally(0, 0, 1)
    case Won(Yellow) => Tally(0, 1, 0)
    case _ => Tally(1, 0, 0)
  }

  /** One loop turn of `get_scores`; `None` when the game is unfinished, where the source panics. */
  function Count(s: seq<Tally>, r: Record): (t: Option<seq<Tally>>)
    requires InRange(r, |s|)
    ensures t.Some? ==> |t.value| == |s|
  {
    if r.result == InProgress then None
    else
      var s1 := s[r.red := Plus(s[r.red], RedDelta(r.result))];
      Some(s1[r.yellow := Plus(s1[r.yellow], YellowDelta(r.result))])
  }

  /** The tally of `hist` over `n` agents, entry by entry. */
  function Scores(hist: seq<Record>, n: nat): (t: Option<seq<Tally>>)
    requires forall k | 0 <= k < |hist| :: InRange(hist[k], n)
    ensures t.Some? ==> |t.value| == n
  {
    if |hist| == 0 then Some(Zeros(n))
    else
      var m := |hist| - 1;
      match Scores(hist[..m], n)
      case None => None
      case Some(s) => Count(s, hist[m])
  }

  /** The tally fails exactly when some game of the history is unfinished. */
  lemma {:induction false} ScoresDefined(hist: seq<Record>, n: nat)
    requires forall k | 0 <= k < |hist| :: InRange(hist[k], n)
    ensures Scores(hist, n).None? <==> exists k | 0 <= k < |hist| :: hist[k].result == InProgress
  {
    if |hist| > 0 {
      var m := |hist| - 1;
      ScoresDefined(hist[..m], n);
      assert forall k | 0 <= k < m :: hist[..m][k] == hist[k];
    }
  }

  /** The triples of all agents added up. */
  function Total(s: seq<Tally>): Tally
  {
    if |s| == 0 then Tally(0, 0, 0) else Plus(Total(s[..|s| - 1]), s[|s| - 1])
  }

  /** Adding `d` into one agent's triple adds `d` to the total. */
  lemma {:induction false} TotalAdd(s: seq<Tally>, i: nat, d: Tally)
    requires i < |s|
    ensures Total(s[i := Plus(s[i], d)]) == Plus(Total(s), d)
  {
    var m := |s| - 1;
    if i < m {
      assert s[i := Plus(s[i], d)][..m] == s[..m][i := Plus(s[..m][i], d)];
      TotalAdd(s[..m], i, d);
    } else {
      assert s[i := Plus(s[i], d)][..m] == s[..m];
    }
  }

  /** The number of games a triple records. */
  function Played(t: Tally): int
  {
    t.draws + t.wins + t.losses
  }

  /** Games in which agent `i` took part, counted once per side it played. */
  function Appearances(hist: seq<Record>, i: nat): nat
  {
    if |hist| == 0 then 0
    else
      var r := hist[|hist| - 1];
      Appearances(hist[..|hist| - 1], i) + (if r.red == i then 1 else 0) + (if r.yellow == i then 1 else 0)
  }

  /** One counted game adds a win and a loss, or two draws, and one game to each side. */
  lemma CountSums(s: seq<Tally>, r: Record, t: seq<Tally>)
    requires InRange(r, |s|) && Count(s, r) == Some(t)
    ensures Total(t) == Plus(Plus(Total(s), RedDelta(r.result)), YellowDelta(r.result))
    ensures forall i | 0 <= i < |s| :: Played(t[i]) == Played(s[i]) + (if r.red == i then 1 else 0) + (if r.yellow == i then 1 else 0)
  {
    var s1 := s[r.red := Plus(s[r.red], RedDelta(r.result))];
    TotalAdd(s, r.red, RedDelta(r.result));
    TotalAdd(s1, r.yellow, YellowDelta(r.result));
  }

  /**
   * The tally is balanced: as many wins as losses over all agents, and two
   * entries per game in all.
   */
  lemma {:induction false} ScoresSums(hist: seq<Record>, n: nat, s: seq<Tally>)
    requires forall k | 0 <= k < |hist| :: InRange(hist[k], n)
    requires Scores(hist, n) == Some(s)
    ensures Total(s).wins == Total(s).losses
    ensures Played(Total(s)) == 2 * |hist|
  {
    if |hist| == 0 {
      ZeroTotal(n);
    } else {
      var m := |hist| - 1;
      var prefix := hist[..m];
      assert forall k | 0 <= k < m :: prefix[k] == hist[k];
      var s0 := Scores(prefix, n).value;
      ScoresSums(prefix, n, s0);
      CountSums(s0, hist[m], s);
    }
  }

  /** Each agent's triple adds up to the games it played, once per side (the source's `nbgames`). */
  lemma {:induction false} ScoresPlayed(hist: seq<Record>, n: nat, s: seq<Tally>)
    requires forall k | 0 <= k < |hist| :: InRange(hist[k], n)
    requires Scores(hist, n) == Some(s)
    ensures forall i | 0 <= i < n :: Played(s[i]) == Appearances(hist, i)
  {
    if |hist| > 0 {
      var m := |hist| - 1;
      var prefix := hist[..m];
      assert forall k | 0 <= k < m :: prefix[k] == hist[k];
      var s0 := Scores(prefix, n).value;
      ScoresPlayed(prefix, n, s0);
      CountSums(s0, hist[m], s);
    }
  }

  lemma {:induction false} ZeroTotal(n: nat)
    ensures Total(Zeros(n)) == Tally(0, 0, 0)
  {
    if n > 0 {
      assert Zeros(n)[..n - 1] == Zeros(n - 1);
      ZeroTotal(n - 1);
    }
  }

  // ---------------------------------------------------------------------------
  // The match maker

  class MatchMaker {
    var agents: seq<Agent>
    /** `(idx of red agent, idx of yellow agent, result)` per game played. */
    var hist: seq<Record>
    var lastGame: seq<nat>

    /** Every history entry names agents that exist. */
    predicate Valid()
      reads this
    {
      forall k | 0 <= k < |hist| :: InRange(hist[k], |agents|)
    }

    /** `new()`: no agents and no history. */
    constructor ()
      ensures agents == [] && hist == [] && lastGame == []
      ensures Valid()
    {
      agents, hist, lastGame := [], [], [];
    }

    /** `add_agent(agent)`: one more agent at the end; the history stays. */
    method AddAgent(agent: Agent)
      requires Valid()
      modifies this
      ensures agents == old(agents) + [agent]
      ensures hist == old(hist) && lastGame == old(lastGame)
      ensures Valid()
    {
      agents := agents + [agent];
    }

    /**
     * `play_n_games(n)`: with exactly two agents, `n` games, each with a
     * coin deciding which agent plays Red; every game adds one finished
     * entry naming the two agents once each.
     */
    method PlayNGames(n: nat)
      requires Valid() && |agents| == 2 && Legal(agents[0].choose) && Legal(agents[1].choose)
      modifies this
      ensures Valid() && |agents| == 2
      ensures forall i | 0 <= i < 2 :: agents[i].choose == old(agents[i].choose)
      ensures |hist| == |old(hist)| + n && hist[..|old(hist)|] == old(hist)
      ensures forall k | |old(hist)| <= k < |hist| :: Fair(hist[k], agents[0].choose, agents[1].choose)
      ensures lastGame == old(lastGame)
    {
      ghost var h0 := hist;
      ghost var c0, c1 := agents[0].choose, agents[1].choose;
      for i := 0 to n
        invariant Valid() && |agents| == 2 && agents[0].choose == c0 && agents[1].choose == c1
        invariant |hist| == |h0| + i && hist[..|h0|] == h0
        invariant forall k | |h0| <= k < |hist| :: Fair(hist[k], c0, c1)
        invariant lastGame == old(lastGame)
      {
        ghost var before := hist;
        PlayOne(c0, c1);
        assert forall k | 0 <= k < |before| :: hist[k] == hist[..|before|][k] == before[k];
        assert hist[..|h0|] == before[..|h0|];
      }
    }

    /** One turn of `play_n_games`: toss the coin, set the players, play, record. */
    method PlayOne(ghost c0: Chooser, ghost c1: Chooser)
      requires Valid() && |agents| == 2 && agents[0].choose == c0 && agents[1].choose == c1
      requires Legal(c0) && Legal(c1)
      modifies this
      ensures Valid() && |agents| == 2 && agents[0].choose == c0 && agents[1].choose == c1
      ensures |hist| == |old(hist)| + 1 && hist[..|old(hist)|] == old(hist)
      ensures Fair(hist[|old(hist)|], c0, c1)
      ensures lastGame == old(lastGame)
    {
      var coin: bool :| true;
      var red, yellow := if coin then 0 else 1, if coin then 1 else 0;
      agents := agents[red := agents[red].(player := Red)];
      agents := agents[yellow := agents[yellow].(player := Yellow)];
      var end := PlayGame(agents[red], agents[yellow]);
      hist := hist + [Record(red, yellow, end.gameState)];
    }

    /**
     * `get_scores()`: the `[draws, wins, losses]` triple of every agent;
     * `None` where the source panics on an unfinished game.
     */
    method GetScores() returns (scores: Option<seq<Tally>>)
      requires Valid()
      ensures scores == Scores(hist, |agents|)
    {
      var s := Zeros(|agents|);
      var i := 0;
      while i < |hist|
        invariant 0 <= i <= |hist|
        invariant Scores(hist[..i], |agents|) == Some(s)
      {
        assert hist[..i + 1][..i] == hist[..i];
        var r := hist[i];
        if r.result == InProgress {
          ScoresDefined(hist[..i + 1], |agents|);
          NoneStaysNone(hist, i + 1, |agents|);
          return None;
        }
        var t := Count(s, r);
        s := t.value;
        i := i + 1;
      }
      assert hist[..i] == hist;
      scores := Some(s);
    }
  }

  /** Once the tally of a prefix has failed, the tally of the whole history fails too. */
  lemma {:induction false} NoneStaysNone(hist: seq<Record>, i: nat, n: nat)
    requires i <= |hist| && forall k | 0 <= k < |hist| :: InRange(hist[k], n)
    requires Scores(hist[..i], n).None?
    ensures Scores(hist, n).None?
  {
    if i < |hist| {
      var m := |hist| - 1;
      assert hist[..m][..i] == hist[..i];
      NoneStaysNone(hist[..m], i, n);
    } else {
      assert hist[..i] == hist;
    }
  }
}

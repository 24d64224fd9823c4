/** The turn-stepped environment wrapped around the board (the program's
    `TTTEnv`): whose turn it is, a per-outcome tally of finished games that
    survives resets, and the reward table that scores a finished game from
    the agent's point of view.
 */
module TTTEnv {
  import opened Tokens
  import opened TTTBoard
  import opened WinLines

  /** The configured rewards, as opaque numbers. */
  datatype Rewards = Rewards(win: int, lose: int, draw: int)

  /** Games ended per outcome, keyed like the program's `nwon` dictionary. */
  type Tally = map<Outcome, nat>

  /** Every outcome has an entry. */
  ghost predicate TallyShape(t: Tally)
  {
    forall o: Outcome :: o in t
  }

  function TallySum(t: Tally): nat
    requires TallyShape(t)
  {
    t[Won(Agent)] + t[Won(Opponent)] + t[Draw]
  }

  /** `nwon[w] += 1`: one more game ended with outcome w. */
  function Record(t: Tally, w: Outcome): (t': Tally)
    requires TallyShape(t)
    ensures TallyShape(t')
    ensures t'[w] == t[w] + 1
    ensures forall o :: o in t' && o != w ==> t'[o] == t[o]
    ensures TallySum(t') == TallySum(t) + 1
  {
    OutcomeCases(w);
    t[w := t[w] + 1]
  }

  /** The board is None until the first reset. */
  datatype Env = Env(board: Option<Board>, turn: Player, nwon: Tally)

  ghost predicate EnvOk(n: nat, e: Env)
  {
    && n >= 1
    && TallyShape(e.nwon)
    && (e.board.Some? ==> WellFormed(n, e.board.value))
  }

  /** What one `step` hands back. */
  datatype StepResult = StepResult(env: Env, obs: seq<Cell>, reward: int, done: bool, nwon: Tally)

  /** A new environment: every tally entry at zero, no board yet, and the
      given player to move first (the program picks it at random). */
  function Init(n: nat, start: Player): (e: Env)
    requires n >= 1
    ensures EnvOk(n, e)
    ensures e.board == None && e.turn == start
    ensures TallySum(e.nwon) == 0
  {
    var t: Tally := map[Won(Agent) := 0, Won(Opponent) := 0, Draw := 0];
    assert TallyShape(t) by {
      forall o: Outcome
        ensures o in t
      {
        OutcomeCases(o);
      }
    }
    Env(None, start, t)
  }

  /** `get_obs`: the current cells. */
  function GetObs(e: Env): (obs: seq<Cell>)
    requires e.board.Some?
    ensures obs == e.board.value.cells
  {
    e.board.value.cells
  }

  /** `reset`: a fresh board; the tally and the player to move are kept. */
  function Reset(n: nat, e: Env): (r: (Env, seq<Cell>))
    requires EnvOk(n, e)
    ensures EnvOk(n, r.0)
    ensures r.0.board.Some? && Undecided(n, r.0.board.value)
    ensures |r.1| == n * n && r.1 == r.0.board.value.cells
    ensures forall i :: 0 <= i < |r.1| ==> r.1[i] == Empty
    ensures r.0.nwon == e.nwon && r.0.turn == e.turn
  {
    var e' := e.(board := Some(Fresh(n)));
    (e', GetObs(e'))
  }

  /** `switch_player`. */
  function SwitchPlayer(e: Env): (r: Env)
    ensures r.turn != e.turn
    ensures r.board == e.board && r.nwon == e.nwon
  {
    e.(turn := Other(e.turn))
  }

  /** The reward of a finished game: DRAW for a draw, WIN when the agent
      won, LOSE otherwise. */
  function RewardOf(rw: Rewards, o: Outcome): (v: int)
    ensures o == Draw ==> v == rw.draw
    ensures o == Won(Agent) ==> v == rw.win
    ensures o == Won(Opponent) ==> v == rw.lose
  {
    if o == Draw then rw.draw
    else if o == Won(Agent) then rw.win
    else rw.lose
  }

  /** `step`: the player to move places a stone at `action`, a position the
      board indexes as a Python list (negative values count from the end). If the board
      now records an outcome, the game is done, exactly that outcome's tally
      entry grows by one and the reward scores the outcome; otherwise the
      reward is 0 and the turn passes to the other player. */
  function Step(n: nat, rw: Rewards, e: Env, action: int): (r: StepResult)
    requires EnvOk(n, e) && e.board.Some? && -(n * n) <= action < n * n
    ensures EnvOk(n, r.env) && r.env.board.Some?
    ensures r.env.board.value == Move(n, e.board.value, action, e.turn)
    ensures r.obs == r.env.board.value.cells && r.nwon == r.env.nwon
    ensures r.done <==> r.env.board.value.winner.Some?
    ensures r.done ==> r.env.turn == e.turn
    ensures r.done ==>
              var w := r.env.board.value.winner.value;
              && r.nwon[w] == e.nwon[w] + 1
              && (forall o :: o in r.nwon && o != w ==> r.nwon[o] == e.nwon[o])
              && r.reward == RewardOf(rw, w)
    ensures !r.done ==> r.reward == 0 && r.nwon == e.nwon && r.env.turn == Other(e.turn)
    ensures TallySum(r.nwon) == TallySum(e.nwon) + (if r.done then 1 else 0)
  {
    var b := Move(n, e.board.value, action, e.turn);
    var e1 := e.(board := Some(b));
    match b.winner
    case Some(w) =>
      var e2 := e1.(nwon := Record(e1.nwon, w));
      StepResult(e2, GetObs(e2), RewardOf(rw, w), true, e2.nwon)
    case None =>
      var e2 := SwitchPlayer(e1);
      StepResult(e2, GetObs(e2), 0, false, e2.nwon)
  }

  // ----- properties -----

  /** Placing on an occupied cell, with no line completed, ends the game as
      a win for the other player, scored like any other win. */
  lemma StepForfeit(n: nat, rw: Rewards, e: Env, action: int)
    requires EnvOk(n, e) && e.board.Some? && -(n * n) <= action < n * n
    requires e.board.value.cells[Slot(n * n, action)] != Empty
    requires !AnyCompleted(n, e.board.value.cells)
    ensures Step(n, rw, e, action).done
    ensures Step(n, rw, e, action).env.board.value.winner == Some(Won(Other(e.turn)))
    ensures Step(n, rw, e, action).reward == (if e.turn == Agent then rw.lose else rw.win)
    ensures Step(n, rw, e, action).nwon[Won(Other(e.turn))] == e.nwon[Won(Other(e.turn))] + 1
  {
  }

  /** A legal move that completes a line ends the game as a win for the
      player who made it. */
  lemma StepWin(n: nat, rw: Rewards, e: Env, action: nat)
    requires EnvOk(n, e) && e.board.Some? && action < n * n
    requires Undecided(n, e.board.value) && e.board.value.cells[action] == Empty
    requires AnyCompleted(n, Move(n, e.board.value, action, e.turn).cells)
    ensures Step(n, rw, e, action).done
    ensures Step(n, rw, e, action).env.board.value.winner == Some(Won(e.turn))
    ensures Step(n, rw, e, action).reward == (if e.turn == Agent then rw.win else rw.lose)
    ensures Step(n, rw, e, action).nwon[Won(e.turn)] == e.nwon[Won(e.turn)] + 1
  {
    LegalMoveOutcome(n, e.board.value, action, e.turn);
  }

  /** A legal move that fills the last free cell without completing a line
      ends the game as a draw. */
  lemma StepDraw(n: nat, rw: Rewards, e: Env, action: nat)
    requires EnvOk(n, e) && e.board.Some? && action < n * n
    requires Undecided(n, e.board.value) && e.board.value.cells[action] == Empty
    requires Full(Move(n, e.board.value, action, e.turn).cells)
    requires !AnyCompleted(n, Move(n, e.board.value, action, e.turn).cells)
    ensures Step(n, rw, e, action).done
    ensures Step(n, rw, e, action).env.board.value.winner == Some(Draw)
    ensures Step(n, rw, e, action).reward == rw.draw
    ensures Step(n, rw, e, action).nwon[Draw] == e.nwon[Draw] + 1
  {
  }

  /** A legal move by a player whose stones then lie within fewer than n
      cells, leaving a free cell, does not end the game: the reward is 0 and
      the other player moves next. */
  lemma StepGoesOn(n: nat, rw: Rewards, e: Env, action: nat, stones: set<nat>)
    requires EnvOk(n, e) && e.board.Some? && action < n * n
    requires Undecided(n, e.board.value) && e.board.value.cells[action] == Empty
    requires |stones| < n
    requires forall i :: 0 <= i < n * n && Move(n, e.board.value, action, e.turn).cells[i] == Stone(e.turn) ==> i in stones
    requires !Full(Move(n, e.board.value, action, e.turn).cells)
    ensures !Step(n, rw, e, action).done && Step(n, rw, e, action).reward == 0
    ensures Undecided(n, Step(n, rw, e, action).env.board.value)
    ensures Step(n, rw, e, action).env.turn == Other(e.turn)
  {
    var r := Move(n, e.board.value, action, e.turn);
    LegalMoveOutcome(n, e.board.value, action, e.turn);
    if r.winner == Some(Won(e.turn)) {
      var k :| 0 <= k < |Lines(n)| && action in Lines(n)[k] && CompletedBy(r.cells, Lines(n)[k], e.turn);
      FewStonesOwnNoLine(n, r.cells, e.turn, stones, k);
    }
  }

  /** Two steps that both let the game go on hand the turn back to the
      player who moved first. */
  lemma TwoStepsRestoreTurn(n: nat, rw: Rewards, e: Env, a1: int, a2: int)
    requires EnvOk(n, e) && e.board.Some?
    requires -(n * n) <= a1 < n * n && -(n * n) <= a2 < n * n
    requires !Step(n, rw, e, a1).done
    requires !Step(n, rw, Step(n, rw, e, a1).env, a2).done
    ensures Step(n, rw, Step(n, rw, e, a1).env, a2).env.turn == e.turn
  {
    OtherInvolution(e.turn);
  }
}

/** Sequences of environment calls: the driver loop that resets the
    environment and steps it with the participants' moves. The program leaves
    this loop to its callers; it is modelled here to state what holds across
    many steps and games.
 */
module Episodes {
  import opened Tokens
  import opened TTTBoard
  import opened TTTEnv
  import opened Agents
  import opened WinLines

  /** One call made on the environment. */
  datatype Command = ResetCmd | StepCmd(action: int)

  /** Runs the calls in order and also counts the steps that reported a
      finished game. A step needs a board, so the first call must be a reset
      unless the environment already has one. */
  function Run(n: nat, rw: Rewards, e: Env, cmds: seq<Command>): (r: (Env, nat))
    requires EnvOk(n, e)
    requires e.board.Some? || (|cmds| > 0 && cmds[0] == ResetCmd)
    requires forall i :: 0 <= i < |cmds| && cmds[i].StepCmd? ==> -(n * n) <= cmds[i].action < n * n
    ensures EnvOk(n, r.0)
    ensures TallySum(r.0.nwon) == TallySum(e.nwon) + r.1
    ensures r.1 <= |cmds|
    decreases |cmds|
  {
    if |cmds| == 0 then (e, 0)
    else
      match cmds[0]
      case ResetCmd =>
        Run(n, rw, Reset(n, e).0, cmds[1..])
      case StepCmd(a) =>
        var s := Step(n, rw, e, a);
        var rest := Run(n, rw, s.env, cmds[1..]);
        (rest.0, rest.1 + (if s.done then 1 else 0))
  }

  /** Tally conservation: starting from a new environment, the tally always
      adds up to the number of steps that finished a game. */
  lemma TallyCountsFinishedGames(n: nat, rw: Rewards, start: Player, cmds: seq<Command>)
    requires n >= 1
    requires |cmds| > 0 && cmds[0] == ResetCmd
    requires forall i :: 0 <= i < |cmds| && cmds[i].StepCmd? ==> -(n * n) <= cmds[i].action < n * n
    ensures TallySum(Run(n, rw, Init(n, start), cmds).0.nwon) == Run(n, rw, Init(n, start), cmds).1
  {
  }

  /** The program keeps the player to move across `reset`: the player who
      made the last move of a game also moves first in the next one. */
  lemma NextGameStartsWithLastMover(n: nat, rw: Rewards, e: Env, action: int)
    requires EnvOk(n, e) && e.board.Some? && -(n * n) <= action < n * n
    requires Step(n, rw, e, action).done
    ensures Reset(n, Step(n, rw, e, action).env).0.turn == e.turn
  {
  }

  /** A move chooser for both participants that always names a position in
      the legal-move list. Within one game no board occurs twice (every
      legal move fills a cell), so any sequence of random draws is the
      choice of some such function. */
  ghost predicate LegalChooser(choose: (Player, Board) -> nat)
  {
    forall p: Player, b: Board :: |PossiblePos(b.cells)| > 0 ==> choose(p, b) < |PossiblePos(b.cells)|
  }

  /** Plays one game with the baseline participants for at most `fuel` steps
      and reports whether it finished. */
  function PlayGame(n: nat, rw: Rewards, e: Env, choose: (Player, Board) -> nat, fuel: nat): (r: (Env, bool))
    requires EnvOk(n, e) && e.board.Some? && Undecided(n, e.board.value)
    requires LegalChooser(choose)
    ensures EnvOk(n, r.0) && r.0.board.Some?
    ensures TallySum(r.0.nwon) == TallySum(e.nwon) + (if r.1 then 1 else 0)
    ensures fuel >= |PossiblePos(e.board.value.cells)| ==> r.1
    ensures !r.1 ==> Undecided(n, r.0.board.value)
    ensures r.1 && r.0.board.value.winner == Some(Draw) ==>
              Full(r.0.board.value.cells) && !AnyCompleted(n, r.0.board.value.cells)
    ensures r.1 ==> r.0.board.value.winner.Some?
    ensures r.1 && r.0.board.value.winner.value.Won? ==>
              r.0.board.value.winner.value.player == r.0.turn
              && FirstCompletedBy(n, r.0.board.value.cells, r.0.turn)
    decreases fuel
  {
    if fuel == 0 then (e, false)
    else
      var b := e.board.value;
      var pos := Act(b, choose(e.turn, b));
      var s := Step(n, rw, e, pos);
      LegalMoveOutcome(n, b, pos, e.turn);
      LegalMoveConsumesOne(n, b, pos, e.turn);
      if s.done then (s.env, true)
      else PlayGame(n, rw, s.env, choose, fuel - 1)
  }

  /** A game between baseline participants never ends in a forfeit, and it
      ends within n*n steps from a new board: the winner is the player who
      moved last through a completed line, or the board is full and it is a
      draw. */
  lemma BaselineGameFinishes(n: nat, rw: Rewards, e: Env, choose: (Player, Board) -> nat)
    requires EnvOk(n, e)
    requires LegalChooser(choose)
    ensures var g := PlayGame(n, rw, Reset(n, e).0, choose, n * n);
      && g.1
      && TallySum(g.0.nwon) == TallySum(e.nwon) + 1
      && (g.0.board.value.winner == Some(Draw) || g.0.board.value.winner == Some(Won(g.0.turn)))
  {
    var e0 := Reset(n, e).0;
    FreshBoardOpen(n);
    assert |PossiblePos(e0.board.value.cells)| == n * n;
    var g := PlayGame(n, rw, e0, choose, n * n);
    assert g.1;
    var w := g.0.board.value.winner.value;
    assert w == Draw || w == Won(g.0.turn) by {
      OutcomeCases(w);
    }
  }

  /** The forfeit scenario: the agent opens at `pos` on a new board of side
      at least 2, and the opponent then plays the same cell. The first step
      goes on, the second ends the game as an agent win scored WIN. */
  lemma ForfeitScenario(n: nat, rw: Rewards, pos: nat)
    requires n >= 2 && pos < n * n
    ensures var e0 := Reset(n, Init(n, Agent)).0;
      var s1 := Step(n, rw, e0, pos);
      var s2 := Step(n, rw, s1.env, pos);
      && !s1.done && s1.env.turn == Opponent
      && s2.done && s2.env.board.value.winner == Some(Won(Agent))
      && s2.reward == rw.win && TallySum(s2.nwon) == 1
  {
    var e0 := Reset(n, Init(n, Agent)).0;
    OpeningMove(n, pos, Agent);
    var s1 := Step(n, rw, e0, pos);
    assert !s1.done;
    assert Undecided(n, s1.env.board.value);
    StepForfeit(n, rw, s1.env, pos);
  }

  /** Stepping at -1 on a new board of side at least 2 places the mover's
      stone in the last cell, and the game goes on. */
  lemma StepFromTheEnd(n: nat, rw: Rewards, start: Player)
    requires n >= 2
    ensures var s := Step(n, rw, Reset(n, Init(n, start)).0, -1);
      && !s.done && s.obs[n * n - 1] == Stone(start)
      && forall i :: 0 <= i < n * n - 1 ==> s.obs[i] == Empty
  {
    MulLeq(2, n, n);
    OpeningMove(n, n * n - 1, start);
  }

  /** One step of a scripted game that does not end it: after the move,
      each player's stones lie within fewer than n cells and a cell is still
      free. */
  lemma ScriptedStepGoesOn(n: nat, rw: Rewards, e: Env, action: nat,
                           mine: set<nat>, theirs: set<nat>, after: seq<Cell>)
    requires EnvOk(n, e) && e.board.Some? && action < n * n
    requires e.board.value.winner == None && e.board.value.cells[action] == Empty
    requires after == e.board.value.cells[action := Stone(e.turn)]
    requires |mine| < n && |theirs| < n
    requires forall i :: 0 <= i < |after| && after[i] == Stone(e.turn) ==> i in mine
    requires forall i :: 0 <= i < |after| && after[i] == Stone(Other(e.turn)) ==> i in theirs
    requires !Full(after)
    ensures var s := Step(n, rw, e, action);
      && !s.done && s.reward == 0 && s.obs == after
      && s.env == Env(Some(Board(after, None)), Other(e.turn), e.nwon)
  {
    assert !AnyCompleted(n, after) by {
      forall k | 0 <= k < |Lines(n)|
        ensures !Completed(after, Lines(n)[k])
      {
        LineGeometry(n);
        FewStonesOwnNoLine(n, after, e.turn, mine, k);
        FewStonesOwnNoLine(n, after, Other(e.turn), theirs, k);
      }
    }
  }

  /** A reset 3-by-3 environment holds nine empty cells. */
  lemma ResetThreeByThree(n: nat, start: Player)
    requires n == 3
    ensures Reset(n, Init(n, start)).0
         == Env(Some(Board([Empty, Empty, Empty, Empty, Empty, Empty, Empty, Empty, Empty], None)),
                start, Init(n, start).nwon)
  {
    var cs := Reset(n, Init(n, start)).0.board.value.cells;
    assert |cs| == 9;
    assert forall i :: 0 <= i < 9 ==> cs[i] == Empty;
    assert cs == [Empty, Empty, Empty, Empty, Empty, Empty, Empty, Empty, Empty];
  }

  /** An environment in the middle of a game: `cells` on the board, nothing
      recorded, and `turn` to move. */
  function Playing(cells: seq<Cell>, turn: Player, z: Tally): Env
  {
    Env(Some(Board(cells, None)), turn, z)
  }

  /** The first step of the row scenario: the agent opens at 0 and the
      game goes on. */
  lemma TopRowFirst(n: nat, rw: Rewards, z: Tally)
    requires n == 3 && TallyShape(z)
    ensures var A, E := Stone(Agent), Empty;
      var e0 := Playing([E, E, E, E, E, E, E, E, E], Agent, z);
      var e1 := Playing([A, E, E, E, E, E, E, E, E], Opponent, z);
      Step(n, rw, e0, 0).env == e1 && !Step(n, rw, e0, 0).done
  {
    var A, E := Stone(Agent), Empty;
    var c1 := [A, E, E, E, E, E, E, E, E];
    assert c1[8] == E;
    ScriptedStepGoesOn(n, rw, Playing([E, E, E, E, E, E, E, E, E], Agent, z), 0, {0}, {}, c1);
  }

  /** The second step: the opponent answers at 3 and the game goes on. */
  lemma TopRowSecond(n: nat, rw: Rewards, z: Tally)
    requires n == 3 && TallyShape(z)
    ensures var A, O, E := Stone(Agent), Stone(Opponent), Empty;
      var e1 := Playing([A, E, E, E, E, E, E, E, E], Opponent, z);
      var e2 := Playing([A, E, E, O, E, E, E, E, E], Agent, z);
      Step(n, rw, e1, 3).env == e2 && !Step(n, rw, e1, 3).done
  {
    var A, O, E := Stone(Agent), Stone(Opponent), Empty;
    var c1 := [A, E, E, E, E, E, E, E, E];
    var c2 := [A, E, E, O, E, E, E, E, E];
    assert c2[8] == E;
    assert c2 == c1[3 := O];
    ScriptedStepGoesOn(n, rw, Playing(c1, Opponent, z), 3, {3}, {0}, c2);
  }

  /** The third step: the agent plays 1 and holds two cells, too few for a
      line; the game goes on. */
  lemma TopRowThird(n: nat, rw: Rewards, z: Tally)
    requires n == 3 && TallyShape(z)
    ensures var A, O, E := Stone(Agent), Stone(Opponent), Empty;
      var e2 := Playing([A, E, E, O, E, E, E, E, E], Agent, z);
      var e3 := Playing([A, A, E, O, E, E, E, E, E], Opponent, z);
      Step(n, rw, e2, 1).env == e3 && !Step(n, rw, e2, 1).done
  {
    var A, O, E := Stone(Agent), Stone(Opponent), Empty;
    var c2 := [A, E, E, O, E, E, E, E, E];
    var c3 := [A, A, E, O, E, E, E, E, E];
    assert c3[8] == E;
    assert c3 == c2[1 := A];
    assert |{0, 1}| == 2;
    ScriptedStepGoesOn(n, rw, Playing(c2, Agent, z), 1, {0, 1}, {3}, c3);
  }

  /** The fourth step: the opponent plays 4 and also holds two cells; the
      game goes on. */
  lemma TopRowFourth(n: nat, rw: Rewards, z: Tally)
    requires n == 3 && TallyShape(z)
    ensures var A, O, E := Stone(Agent), Stone(Opponent), Empty;
      var e3 := Playing([A, A, E, O, E, E, E, E, E], Opponent, z);
      var e4 := Playing([A, A, E, O, O, E, E, E, E], Agent, z);
      Step(n, rw, e3, 4).env == e4 && !Step(n, rw, e3, 4).done
  {
    var A, O, E := Stone(Agent), Stone(Opponent), Empty;
    var c3 := [A, A, E, O, E, E, E, E, E];
    var c4 := [A, A, E, O, O, E, E, E, E];
    assert c4[8] == E;
    assert c4 == c3[4 := O];
    assert |{3, 4}| == 2;
    ScriptedStepGoesOn(n, rw, Playing(c3, Opponent, z), 4, {3, 4}, {0, 1}, c4);
  }

  /** On a 3-by-3 board where the agent holds cells 0 and 1 and cell 2 is
      free, the agent's stone at 2 completes the top row, the first line of
      the scan, and wins whatever else is on the board. */
  lemma TopRowMoveWins(n: nat, b: Board)
    requires n == 3 && |b.cells| == 9
    requires b.cells[0] == Stone(Agent) && b.cells[1] == Stone(Agent) && b.cells[2] == Empty
    ensures Move(n, b, 2, Agent).winner == Some(Won(Agent))
  {
    var r := MoveAt(n, b, 2, Agent);
    assert r.cells[0] == Stone(Agent) && r.cells[1] == Stone(Agent) && r.cells[2] == Stone(Agent);
    var top := Lines(n)[0];
    assert top == Row(n, 0);
    assert |top| == 3 && top[0] == 0 && top[1] == 1 && top[2] == 2;
    FirstLineDecides(n, b, 2, Agent, Agent);
  }

  /** The last step: the agent plays 2, wins, and the win is scored and
      tallied. */
  lemma TopRowCompleted(n: nat, rw: Rewards, z: Tally)
    requires n == 3 && TallyShape(z)
    ensures var A, O, E := Stone(Agent), Stone(Opponent), Empty;
      var s := Step(n, rw, Playing([A, A, E, O, O, E, E, E, E], Agent, z), 2);
      && s.done && s.env.board.value.winner == Some(Won(Agent))
      && s.reward == rw.win && s.nwon[Won(Agent)] == z[Won(Agent)] + 1
  {
    var A, O, E := Stone(Agent), Stone(Opponent), Empty;
    var b := Board([A, A, E, O, O, E, E, E, E], None);
    assert |b.cells| == 9 && b.cells[0] == A && b.cells[1] == A && b.cells[2] == E;
    TopRowMoveWins(n, b);
  }

  /** The row scenario on a 3-by-3 board: the agent, moving first, plays
      0, 1, 2 while the opponent plays 3, 4. The first four steps go on; the
      fifth completes the top row and ends the game as an agent win scored
      WIN. */
  lemma TopRowScenario(n: nat, rw: Rewards)
    requires n == 3
    ensures var e0 := Reset(n, Init(n, Agent)).0;
      var s1 := Step(n, rw, e0, 0);
      var s2 := Step(n, rw, s1.env, 3);
      var s3 := Step(n, rw, s2.env, 1);
      var s4 := Step(n, rw, s3.env, 4);
      var s5 := Step(n, rw, s4.env, 2);
      && !s1.done && !s2.done && !s3.done && !s4.done
      && s5.done && s5.env.board.value.winner == Some(Won(Agent))
      && s5.reward == rw.win && s5.nwon[Won(Agent)] == 1
  {
    var z := Init(n, Agent).nwon;
    ResetThreeByThree(n, Agent);
    TopRowFirst(n, rw, z);
    TopRowSecond(n, rw, z);
    TopRowThird(n, rw, z);
    TopRowFourth(n, rw, z);
    TopRowCompleted(n, rw, z);
  }
}

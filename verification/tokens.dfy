/** The values a tic-tac-toe cell, a participant and a game outcome can take.

    The program draws all of these from one shared integer space read
    from a configuration file (EMPTY, PLAYER_AGENT, PLAYER_OPPONENT, DRAW) and
    computes the opponent of a player by negation. This module replaces that
    with closed enumerations, and `EncodingFaithful` shows that, for any configuration
    whose tokens are distinct and whose two players are negations of each
    other, the enumerations encode the integers faithfully.
 */
module Tokens {

  datatype Option<+T> = None | Some(value: T)

  /** The two participants: the learning agent and its opponent. */
  datatype Player = Agent | Opponent

  /** One square of the board. */
  datatype Cell = Empty | Stone(player: Player)

  /** A decided game: a winner, or a draw. */
  datatype Outcome = Won(player: Player) | Draw

  /** There are exactly three outcomes. */
  lemma OutcomeCases(o: Outcome)
    ensures o == Won(Agent) || o == Won(Opponent) || o == Draw
  {
    match o
    case Won(p) => assert p == Agent || p == Opponent;
    case Draw =>
  }

  /** The other participant; the program computes it as `-1*player`. */
  function Other(p: Player): (q: Player)
    ensures q != p
  {
    match p
    case Agent => Opponent
    case Opponent => Agent
  }

  lemma OtherInvolution(p: Player)
    ensures Other(Other(p)) == p
  {
  }

  /** The integer configuration of the program. */
  datatype Config = Config(empty: int, agent: int, opponent: int, draw: int)

  /** What the program silently relies on: four distinct tokens, and the
      opponent token is the negation of the agent token. */
  predicate ValidTokens(t: Config)
  {
    && t.empty != t.agent && t.empty != t.opponent && t.empty != t.draw
    && t.agent != t.opponent && t.agent != t.draw && t.opponent != t.draw
    && t.opponent == -t.agent
  }

  function PlayerToken(t: Config, p: Player): int
  {
    match p
    case Agent => t.agent
    case Opponent => t.opponent
  }

  function CellToken(t: Config, c: Cell): int
  {
    match c
    case Empty => t.empty
    case Stone(p) => PlayerToken(t, p)
  }

  function OutcomeToken(t: Config, o: Outcome): int
  {
    match o
    case Won(p) => PlayerToken(t, p)
    case Draw => t.draw
  }

  /** Under a valid configuration, `Other` is exactly the program's `-1*player`,
      and comparing enumeration values is the same as comparing tokens. */
  lemma EncodingFaithful(t: Config)
    requires ValidTokens(t)
    ensures forall p: Player :: PlayerToken(t, Other(p)) == -1 * PlayerToken(t, p)
    ensures forall c, d: Cell :: CellToken(t, c) == CellToken(t, d) <==> c == d
    ensures forall o, w: Outcome :: OutcomeToken(t, o) == OutcomeToken(t, w) <==> o == w
    ensures forall p: Player :: CellToken(t, Stone(p)) == OutcomeToken(t, Won(p))
    ensures forall o: Outcome :: OutcomeToken(t, o) != t.empty
  {
  }
}

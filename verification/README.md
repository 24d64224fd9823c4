# Generalized tic-tac-toe environment, modelled in Dafny

This project models the core of a small reinforcement-learning playground: an
N×N tic-tac-toe board (`TTTBoard`) and the turn-stepped environment around it
(`TTTEnv`), plus the baseline random participant (`PlayerRandom`) that feeds
it legal moves.

- `tokens.dfy` (module `Tokens`): players, cells and outcomes as closed
  enumerations. `Other` stands for the program's `-1*player`. The integer
  configuration tokens are related to the enumerations by `EncodingFaithful`.
- `win_lines.dfy` (module `WinLines`): the 2N+2 winning lines in scan order.
  The rows come first, then the columns, the main diagonal and the
  anti-diagonal. They are defined arithmetically and shown to be real rows,
  columns and diagonals of the grid.
- `board.dfy` (module `TTTBoard`): the board as an immutable value. It covers
  legal moves, the first-completed-line scan, `check_winner`, `check_draw`,
  `move` with its forfeit rule and Python's list indexing of the position
  (negative positions count from the end), and `clone`.
- `env.dfy` (module `TTTEnv`): the environment state. It covers the tally,
  `reset`, `step`, `get_obs`, `switch_player` and the reward table.
- `agent.dfy` (module `Agents`): `act`, which picks a legal move.
- `episodes.dfy` (module `Episodes`): the driver loop. It states tally
  conservation over any sequence of resets and steps. It also shows that a
  game between baseline participants ends within N·N steps, never by
  forfeit. Two concrete games are worked through: a forfeit on a reused
  cell, and a 3-by-3 game the agent wins along the top row.

Assumptions the program relies on without checking are stated explicitly:
- the four tokens are distinct, and `PLAYER_OPPONENT == -PLAYER_AGENT`
  (`Tokens.ValidTokens`);
- `SIZE >= 1` (`TTTBoard.WellFormed`);
- the participants passed to the environment carry the agent and opponent
  tokens.

Where the program's docstring or a natural reading of the game suggests
otherwise, the model follows the code:
- The anti-diagonal is scanned from the bottom-left corner, as `np.flipud`
  produces it. The docstring's example lists it from the top-right instead.
  The set of cells is the same.
- `reset` keeps the player to move, as the code does. It does not re-roll the
  turn, so the last mover of a game opens the next one
  (`Episodes.NextGameStartsWithLastMover`).
- The recorded winner is not write-once. A completed line found by
  `check_winner` overwrites an earlier forfeit. Stepping again after a game has
  finished re-runs the checks and counts the game again.

## Model

| member | source | states |
|---|---|---|
| Tokens.Other | TTT/src/TTT_env.py:106 | the forfeit winner `-1*player` is the other participant, never the mover |
| Tokens.EncodingFaithful | TTT/src/TTT_env.py:13-16 | for distinct tokens with opponent = -agent, `Other` is negation and comparing enumeration values is comparing tokens |
| WinLines.Lines | TTT/src/TTT_env.py:50-63 | there are 2n+2 lines: lines 0..n-1 are the rows, n..2n-1 the columns, then the main diagonal and the anti-diagonal |
| WinLines.IndexCoordinates | TTT/src/TTT_env.py:58 | the row-major reshape: grid position (r, c) has flat index < n·n, and that index has row r and column c |
| WinLines.LineGeometry | TTT/src/TTT_env.py:58-61 | 2n+2 lines of n cells each: lines 0..n-1 are rows, n..2n-1 columns, then the main diagonal, then the anti-diagonal read bottom-up |
| WinLines.LinesWellFormed | TTT/src/TTT_env.py:50-63 | every winning line is n distinct in-range indices, and there are 2n+2 of them |
| TTTBoard.FromCells | TTT/src/TTT_env.py:33-35 | a board built from a given cell list keeps those cells and records no winner |
| TTTBoard.Fresh | TTT/src/TTT_env.py:29-35 | a new board has n·n cells, all empty, no winner, no completed line and a free cell |
| TTTBoard.Clone | TTT/src/TTT_env.py:110-117 | a clone has the same cells and no recorded winner |
| TTTBoard.EmptyFrom | TTT/src/TTT_env.py:44-48 | the scan from i on yields exactly the empty indices ≥ i, strictly ascending |
| TTTBoard.PossiblePos | TTT/src/TTT_env.py:37-48 | legal moves are exactly the indices of empty cells, strictly ascending; the list is empty iff the board is full |
| TTTBoard.FreshBoardOpen | TTT/src/TTT_env.py:29-48 | on a new board the legal moves are 0, 1, …, n·n-1 in order and no line is completed |
| TTTBoard.Completed | TTT/src/TTT_env.py:75-77 | a line is completed exactly when it is non-empty, lies on the board, and every cell on it holds the same non-empty value as its last cell |
| TTTBoard.FirstCompletedFrom | TTT/src/TTT_env.py:74-80 | the scan stops at the first completed line, and every line before it is not completed |
| TTTBoard.LineWinner | TTT/src/TTT_env.py:65-80 | the scan result is None iff no line is completed, else the owner of the first completed line in scan order |
| TTTBoard.FirstCompletedByUnique | TTT/src/TTT_env.py:74-79 | the first completed line has one owner, so the scan result is determined |
| TTTBoard.LineWinnerExact | TTT/src/TTT_env.py:74-79 | if p owns the first completed line in scan order, the scan returns p (the converse of `LineWinner`'s contract) |
| TTTBoard.CheckWinner | TTT/src/TTT_env.py:65-80 | a completed line records its first owner as the winner; otherwise the recorded winner is untouched; cells never change |
| TTTBoard.CheckDraw | TTT/src/TTT_env.py:82-93 | a full board with no recorded winner becomes a draw; a recorded winner is never replaced; cells never change |
| TTTBoard.MoveAt | TTT/src/TTT_env.py:95-108 | an empty target gets the stone and no other cell changes; an occupied target leaves the cells alone and the other player wins unless a line is completed; a completed line always wins over a draw; a full board with nothing recorded is a draw; an undecided result has no completed line and a free cell |
| TTTBoard.Move | TTT/src/TTT_env.py:103-104 | the position indexes the cell list as Python does: a non-negative position is the cell itself, and a position from -n·n to -1 acts on the cell n·n places further on |
| TTTBoard.NegativePositionAliases | TTT/src/TTT_env.py:103-106 | moving at pos - n·n is the same move as moving at pos, and afterwards that cell is occupied |
| TTTBoard.LegalMoveCompletesMoversLine | TTT/src/TTT_env.py:103-107 | after a legal move on a board with no completed line, every completed line passes through the new stone and belongs to the mover |
| TTTBoard.LegalMoveOutcome | TTT/src/TTT_env.py:103-108 | a legal move on an undecided board leaves it undecided, wins for the mover through a line containing the new stone, or draws; it never makes the other player win |
| TTTBoard.LegalMoveConsumesOne | TTT/src/TTT_env.py:103-104 | a legal move shortens the legal-move list by exactly one |
| TTTBoard.EmptyFromAllEmpty | TTT/src/TTT_env.py:29-48 | on a board of empty cells, the scan from i yields i, i+1, …, up to the last index |
| TTTBoard.FewStonesOwnNoLine | TTT/src/TTT_env.py:74-79 | a player whose stones lie within fewer than n cells owns no line, since a line needs n distinct cells |
| TTTBoard.OpeningMove | TTT/src/TTT_env.py:95-108 | on a new 1-by-1 board the first stone wins for its player; on any larger new board it records nothing |
| TTTBoard.FirstLineDecides | TTT/src/TTT_env.py:95-108 | when a move leaves the first line of the scan completed by p, p is the recorded winner |
| TTTBoard.LoneStoneOpening | TTT/src/TTT_env.py:95-108 | on a new board of side at least 2 the first stone records nothing |
| TTTBoard.CloneMovesAlike | TTT/src/TTT_env.py:110-117 | a move on a clone changes the cells like the same move on the original, and the results are equal when nothing was recorded |
| TTTEnv.Record | TTT/src/TTT_env.py:166 | `nwon[winner] += 1` raises that entry by one, leaves the others alone and raises the total by one |
| TTTEnv.Init | TTT/src/TTT_env.py:122-135 | a new environment has an entry for each outcome, all zero, no board, and the given player to move |
| TTTEnv.GetObs | TTT/src/TTT_env.py:185-192 | the observation is the current cell sequence |
| TTTEnv.Reset | TTT/src/TTT_env.py:137-147 | reset installs an undecided board of n·n empty cells, returns those cells, and keeps the tally and the player to move |
| TTTEnv.SwitchPlayer | TTT/src/TTT_env.py:194-201 | the player to move changes and nothing else does |
| TTTEnv.RewardOf | TTT/src/TTT_env.py:169-175 | a draw scores DRAW, an agent win scores WIN, an opponent win scores LOSE |
| TTTEnv.Step | TTT/src/TTT_env.py:149-183 | a step delegates to `move` at the position as given, negative positions included; it is done iff an outcome is recorded; when done, exactly that outcome's tally entry grows by one, the reward scores it and the turn is kept; otherwise the reward is 0, the tally is unchanged and the turn passes; the total grows by one exactly when done |
| TTTEnv.StepForfeit | TTT/src/TTT_env.py:161-175 | a step onto an occupied cell, named by a non-negative or a negative position, with no completed line ends the game as a win for the other player and is scored like any other win |
| TTTEnv.StepWin | TTT/src/TTT_env.py:161-175 | a legal move that completes a line ends the game as a win for the mover, scored WIN or LOSE by who moved, with that tally entry one higher |
| TTTEnv.StepDraw | TTT/src/TTT_env.py:161-171 | a legal move that fills the last cell without completing a line ends the game as a draw scored DRAW, with the draw entry one higher |
| TTTEnv.StepGoesOn | TTT/src/TTT_env.py:161-181 | a legal move after which the mover holds fewer than n cells and a cell is free does not end the game: reward 0, undecided board, the other player to move |
| TTTEnv.TwoStepsRestoreTurn | TTT/src/TTT_env.py:177-201 | two steps that both let the game go on hand the turn back to the player who moved first |
| Agents.Act | TTT/src/TTT_agent.py:15-32 | the chosen position is an empty in-range cell, and positions earlier in the list are smaller |
| Episodes.Run | TTT/src/TTT_env.py:137-183 | over any sequence of resets and steps, the tally total grows by exactly the number of steps that reported done |
| Episodes.TallyCountsFinishedGames | TTT/src/TTT_env.py:132-183 | from a new environment, the tally total equals the number of finished-game steps |
| Episodes.NextGameStartsWithLastMover | TTT/src/TTT_env.py:137-183 | after a game-ending step and a reset, the player who made the last move moves first |
| Episodes.PlayGame | TTT/src/TTT_agent.py:26-32 | with legal choices, a game started with at least as many steps as free cells finishes; a win belongs to the player who moved last through the first completed line; a draw has a full board with no completed line |
| Episodes.BaselineGameFinishes | TTT/src/TTT_env.py:137-183 | a game between baseline participants from a reset board finishes within n·n steps, adds one to the tally, and ends in a draw or a win by the last mover, never by forfeit |
| Episodes.ForfeitScenario | TTT/src/TTT_env.py:149-183 | on a new board of side at least 2, the agent's opening goes on and the opponent's reply on the same cell ends the game as an agent win scored WIN, with one game tallied |
| Episodes.StepFromTheEnd | TTT/src/TTT_env.py:149-183 | on a new board of side at least 2, `step(-1)` puts the mover's stone in the last cell, leaves every other cell empty, and the game goes on |
| Episodes.ScriptedStepGoesOn | TTT/src/TTT_env.py:161-181 | a legal move after which each player holds fewer than n cells and a cell is free leaves exactly the updated cells with nothing recorded, the tally unchanged, reward 0 and the other player to move |
| Episodes.ResetThreeByThree | TTT/src/TTT_env.py:137-147 | a reset 3-by-3 environment holds nine empty cells, nothing recorded, the starting player and the new tally |
| Episodes.TopRowFirst | TTT/src/TTT_env.py:161-181 | on a new 3-by-3 board the agent's stone at 0 leaves that board with nothing recorded and the opponent to move |
| Episodes.TopRowSecond | TTT/src/TTT_env.py:161-181 | the opponent's answer at 3 leaves that board with nothing recorded and the agent to move |
| Episodes.TopRowThird | TTT/src/TTT_env.py:161-181 | the agent's second stone at 1 leaves that board with nothing recorded and the opponent to move |
| Episodes.TopRowFourth | TTT/src/TTT_env.py:161-181 | the opponent's second stone at 4 leaves that board with nothing recorded and the agent to move |
| Episodes.TopRowMoveWins | TTT/src/TTT_env.py:95-108 | on any 3-by-3 board where the agent holds 0 and 1 and 2 is free, the agent playing 2 wins |
| Episodes.TopRowCompleted | TTT/src/TTT_env.py:161-173 | on a 3-by-3 board where the agent holds 0 and 1 and the opponent 3 and 4, the agent playing 2 completes the top row and wins, scored WIN |
| Episodes.TopRowScenario | TTT/src/TTT_env.py:137-183 | from a new 3-by-3 environment with the agent to move, the plays 0, 3, 1, 4 go on and the play 2 ends the game as an agent win scored WIN with one agent win tallied |

## Left out

- Loading the YAML configuration and the file system access it needs. The
  tokens, `SIZE` and the reward table are parameters here.
- Floating-point rewards. Rewards are opaque integers.
- `random.randrange`. The starting player of `TTTEnv.__init__` is a parameter
  of `Init`. The draw of `PlayerRandom.act` is the position argument of
  `Agents.Act`.
- The participants' `name` attribute, which plays no part in the game.
- numpy. The winning lines are defined arithmetically.
- Aliasing. Boards and tallies here are values, so a later call can never
  change a value handed out earlier. In the program:
  - the list returned by `get_obs` is the board's live list;
  - the `nwon` dictionary returned by `step` is the environment's live tally,
    so a tally a caller kept from an earlier step changes with later steps;
  - `TTTBoard(board)` keeps the caller's list without copying it, which
    `FromCells` models as a value;
  - `clone` makes separate storage, which values give for free.
- Python runtime errors are preconditions, not modelled behaviour: a
  position outside -N·N .. N·N-1 (IndexError), `step` before `reset`
  (`board_env` is None), and `SIZE = 0`, where `current_cond[0]` fails on
  the empty diagonals (`LineWinner`, `CheckWinner` and `MoveAt` require
  n >= 1).
- TTTBoard.EmptyFrom: scans the whole cell list, while the program scans
  indices below SIZE·SIZE only. The two agree on boards of exactly SIZE·SIZE
  cells, the only boards the program itself builds. Boards whose list is of
  any other length are out of scope: a longer list passed to the constructor
  has its extra cells ignored by the program, and a shorter one raises
  IndexError.
- TTTBoard.PossiblePos: lists the empty indices of the whole cell list, for the
  same reason as `EmptyFrom`. Boards whose list is not SIZE·SIZE long are out
  of scope.
- TTTBoard.CheckDraw: counts free cells over the whole list, for the same
  reason as `EmptyFrom`. Boards whose list is not SIZE·SIZE long are out of
  scope.
- `PlayerRandom.act` on a full board, where `randrange(0)` raises. `Act`
  requires a legal move to exist.

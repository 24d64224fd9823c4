/** The tic-tac-toe board (the program's `TTTBoard`): a row-major flat
    sequence of n*n cells and a recorded winner. The board is an immutable
    value here; every operation that mutates the program's object returns the
    updated board instead.
 */
module TTTBoard {
  import opened Tokens
  import opened WinLines

  datatype Board = Board(cells: seq<Cell>, winner: Option<Outcome>)

  /** An n-by-n board; the program needs n >= 1 (with n = 0 its win scan
      indexes an empty line). */
  predicate WellFormed(n: nat, b: Board)
  {
    n >= 1 && |b.cells| == n * n
  }

  predicate Full(cells: seq<Cell>)
  {
    forall i :: 0 <= i < |cells| ==> cells[i] != Empty
  }

  /** A game still in progress: nothing recorded, no line completed, and a
      free cell left. */
  ghost predicate Undecided(n: nat, b: Board)
  {
    b.winner == None && !AnyCompleted(n, b.cells) && !Full(b.cells)
  }

  predicate StrictlyAscending(s: seq<nat>)
  {
    forall i, j :: 0 <= i < j < |s| ==> s[i] < s[j]
  }

  // ----- construction -----

  /** A board built around an existing cell list: nothing is decided yet. */
  function FromCells(cells: seq<Cell>): (b: Board)
    ensures b.cells == cells
    ensures b.winner == None
  {
    Board(cells, None)
  }

  /** The board of a new game: n*n empty cells, nothing decided. */
  function Fresh(n: nat): (b: Board)
    ensures |b.cells| == n * n
    ensures forall i :: 0 <= i < |b.cells| ==> b.cells[i] == Empty
    ensures b.winner == None
    ensures n >= 1 ==> Undecided(n, b)
  {
    var b := FromCells(seq(n * n, _ => Empty));
    assert n >= 1 ==> Undecided(n, b) by {
      if n >= 1 {
        assert b.cells[0] == Empty;
        forall k | 0 <= k < |Lines(n)|
          ensures !Completed(b.cells, Lines(n)[k])
        {
        }
      }
    }
    b
  }

  /** A copy of the cells with the recorded winner forgotten. */
  function Clone(b: Board): (c: Board)
    ensures c.cells == b.cells
    ensures c.winner == None
  {
    FromCells(b.cells)
  }

  // ----- legal moves -----

  /** The indices from i on whose cell is empty, in ascending order. */
  function EmptyFrom(cells: seq<Cell>, i: nat): (r: seq<nat>)
    requires i <= |cells|
    ensures forall k :: 0 <= k < |r| ==> i <= r[k] < |cells| && cells[r[k]] == Empty
    ensures forall j :: i <= j < |cells| && cells[j] == Empty ==> j in r
    ensures StrictlyAscending(r)
    decreases |cells| - i
  {
    if i == |cells| then []
    else if cells[i] == Empty then [i] + EmptyFrom(cells, i + 1)
    else EmptyFrom(cells, i + 1)
  }

  /** The legal moves: exactly the indices of the empty cells, ascending. */
  function PossiblePos(cells: seq<Cell>): (r: seq<nat>)
    ensures StrictlyAscending(r)
    ensures forall k :: 0 <= k < |r| ==> r[k] < |cells| && cells[r[k]] == Empty
    ensures forall i :: 0 <= i < |cells| && cells[i] == Empty ==> i in r
    ensures |r| == 0 <==> Full(cells)
  {
    var r := EmptyFrom(cells, 0);
    assert !Full(cells) ==> |r| > 0 by {
      if !Full(cells) {
        var i :| 0 <= i < |cells| && cells[i] == Empty;
        assert i in r;
      }
    }
    assert |r| > 0 ==> !Full(cells) by {
      if |r| > 0 {
        assert cells[r[0]] == Empty;
      }
    }
    r
  }

  // ----- win detection -----

  /** All cells of the line are the same stone. */
  predicate Completed(cells: seq<Cell>, line: seq<nat>): (r: bool)
    ensures r ==> |line| > 0 && forall j :: 0 <= j < |line| ==>
                    line[j] < |cells| && line[|line| - 1] < |cells|
                    && cells[line[j]] == cells[line[|line| - 1]] != Empty
    ensures (&& |line| > 0
             && (forall j :: 0 <= j < |line| ==> line[j] < |cells|)
             && cells[line[|line| - 1]] != Empty
             && (forall j :: 0 <= j < |line| ==> cells[line[j]] == cells[line[|line| - 1]]))
            ==> r
  {
    && |line| > 0
    && (forall j :: 0 <= j < |line| ==> line[j] < |cells|)
    && cells[line[0]] != Empty
    && forall j :: 0 <= j < |line| ==> cells[line[j]] == cells[line[0]]
  }

  predicate CompletedBy(cells: seq<Cell>, line: seq<nat>, p: Player)
  {
    Completed(cells, line) && cells[line[0]] == Stone(p)
  }

  ghost predicate AnyCompleted(n: nat, cells: seq<Cell>)
  {
    exists k :: 0 <= k < |Lines(n)| && Completed(cells, Lines(n)[k])
  }

  /** The first line of the scan that is completed is completed by p. */
  ghost predicate FirstCompletedBy(n: nat, cells: seq<Cell>, p: Player)
  {
    exists k :: 0 <= k < |Lines(n)| && CompletedBy(cells, Lines(n)[k], p)
      && forall j :: 0 <= j < k ==> !Completed(cells, Lines(n)[j])
  }

  /** Position of the first completed line at or after i, or |lines|. */
  function FirstCompletedFrom(cells: seq<Cell>, lines: seq<seq<nat>>, i: nat): (k: nat)
    requires i <= |lines|
    ensures i <= k <= |lines|
    ensures k < |lines| ==> Completed(cells, lines[k])
    ensures forall j :: i <= j < k ==> !Completed(cells, lines[j])
    decreases |lines| - i
  {
    if i == |lines| then i
    else if Completed(cells, lines[i]) then i
    else FirstCompletedFrom(cells, lines, i + 1)
  }

  /** The value `check_winner` finds: the owner of the first completed line
      in scan order, or None when no line is completed. */
  function LineWinner(n: nat, cells: seq<Cell>): (r: Option<Player>)
    requires n >= 1
    ensures r == None <==> !AnyCompleted(n, cells)
    ensures r.Some? ==> FirstCompletedBy(n, cells, r.value)
  {
    var lines := Lines(n);
    var k := FirstCompletedFrom(cells, lines, 0);
    if k < |lines| then Some(cells[lines[k][0]].player) else None
  }

  /** Only one player can own the first completed line. */
  lemma FirstCompletedByUnique(n: nat, cells: seq<Cell>, p: Player, q: Player)
    requires FirstCompletedBy(n, cells, p) && FirstCompletedBy(n, cells, q)
    ensures p == q
  {
    var k1 :| 0 <= k1 < |Lines(n)| && CompletedBy(cells, Lines(n)[k1], p)
      && forall j :: 0 <= j < k1 ==> !Completed(cells, Lines(n)[j]);
    var k2 :| 0 <= k2 < |Lines(n)| && CompletedBy(cells, Lines(n)[k2], q)
      && forall j :: 0 <= j < k2 ==> !Completed(cells, Lines(n)[j]);
  }

  /** Conversely, whoever owns the first completed line is what the scan
      finds. */
  lemma LineWinnerExact(n: nat, cells: seq<Cell>, p: Player)
    requires n >= 1
    requires FirstCompletedBy(n, cells, p)
    ensures LineWinner(n, cells) == Some(p)
  {
    var k :| 0 <= k < |Lines(n)| && CompletedBy(cells, Lines(n)[k], p)
      && forall j :: 0 <= j < k ==> !Completed(cells, Lines(n)[j]);
    assert AnyCompleted(n, cells);
    FirstCompletedByUnique(n, cells, p, LineWinner(n, cells).value);
  }

  /** `check_winner`: records the first completed line's owner, and leaves
      the recorded winner alone when no line is completed. */
  function CheckWinner(n: nat, b: Board): (r: Board)
    requires n >= 1
    ensures r.cells == b.cells
    ensures !AnyCompleted(n, b.cells) ==> r.winner == b.winner
    ensures AnyCompleted(n, b.cells) ==>
              r.winner.Some? && r.winner.value.Won? && FirstCompletedBy(n, b.cells, r.winner.value.player)
  {
    match LineWinner(n, b.cells)
    case Some(p) => b.(winner := Some(Won(p)))
    case None => b
  }

  /** `check_draw`: a full board with nothing recorded yet is a draw. */
  function CheckDraw(b: Board): (r: Board)
    ensures r.cells == b.cells
    ensures b.winner.Some? ==> r.winner == b.winner
    ensures b.winner == None && Full(b.cells) ==> r.winner == Some(Draw)
    ensures b.winner == None && !Full(b.cells) ==> r.winner == None
  {
    if |PossiblePos(b.cells)| == 0 && b.winner == None then b.(winner := Some(Draw)) else b
  }

  // ----- moves -----

  /** `move` at cell index `pos`: a stone on an empty cell is placed; a
      stone on an occupied cell is a forfeit won by the other player. Then a
      completed line, if any, decides the winner; otherwise a full board with
      nothing recorded is a draw. */
  function MoveAt(n: nat, b: Board, pos: nat, player: Player): (r: Board)
    requires WellFormed(n, b) && pos < |b.cells|
    ensures |r.cells| == |b.cells|
    ensures forall i :: 0 <= i < |b.cells| && i != pos ==> r.cells[i] == b.cells[i]
    ensures b.cells[pos] == Empty ==> r.cells[pos] == Stone(player)
    ensures b.cells[pos] != Empty ==> r.cells == b.cells
    ensures AnyCompleted(n, r.cells) ==>
              r.winner.Some? && r.winner.value.Won? && FirstCompletedBy(n, r.cells, r.winner.value.player)
    ensures !AnyCompleted(n, r.cells) && b.cells[pos] != Empty ==> r.winner == Some(Won(Other(player)))
    ensures !AnyCompleted(n, r.cells) && b.cells[pos] == Empty && Full(r.cells) ==>
              r.winner == (if b.winner == None then Some(Draw) else b.winner)
    ensures !AnyCompleted(n, r.cells) && b.cells[pos] == Empty && !Full(r.cells) ==> r.winner == b.winner
    ensures r.winner == None ==> !AnyCompleted(n, r.cells) && !Full(r.cells)
  {
    var placed :=
      if b.cells[pos] == Empty then b.(cells := b.cells[pos := Stone(player)])
      else b.(winner := Some(Won(Other(player))));
    CheckDraw(CheckWinner(n, placed))
  }

  /** The cell a Python list index names: a position from -size to -1
      counts back from the end. */
  function Slot(size: nat, pos: int): (i: nat)
    requires -(size as int) <= pos < size
    ensures i < size
    ensures i == pos || i == pos + size
  {
    if pos < 0 then pos + size else pos
  }

  /** `move` as the program calls it: the position indexes the cell list,
      so a negative position names a cell counted from the end. */
  function Move(n: nat, b: Board, pos: int, player: Player): (r: Board)
    requires WellFormed(n, b) && -|b.cells| <= pos < |b.cells|
    ensures 0 <= pos ==> r == MoveAt(n, b, pos, player)
    ensures pos < 0 ==> r == MoveAt(n, b, pos + |b.cells|, player)
  {
    MoveAt(n, b, Slot(|b.cells|, pos), player)
  }

  // ----- properties -----

  /** The indices i, i+1, ..., m-1 in order. */
  function Range(i: nat, m: nat): (r: seq<nat>)
    requires i <= m
    ensures |r| == m - i
    ensures forall k :: 0 <= k < |r| ==> r[k] == i + k
    decreases m - i
  {
    if i == m then [] else [i] + Range(i + 1, m)
  }

  /** On a board of empty cells the scan from i yields every index from i
      on. */
  lemma {:induction false} EmptyFromAllEmpty(cells: seq<Cell>, i: nat)
    requires i <= |cells|
    requires forall j :: 0 <= j < |cells| ==> cells[j] == Empty
    ensures EmptyFrom(cells, i) == Range(i, |cells|)
    decreases |cells| - i
  {
    if i < |cells| {
      assert cells[i] == Empty;
      EmptyFromAllEmpty(cells, i + 1);
    }
  }

  /** A new game: every index is a legal move, in order, and no line is
      completed. */
  lemma FreshBoardOpen(n: nat)
    requires n >= 1
    ensures |PossiblePos(Fresh(n).cells)| == n * n
    ensures forall i :: 0 <= i < n * n ==> PossiblePos(Fresh(n).cells)[i] == i
    ensures LineWinner(n, Fresh(n).cells) == None
  {
    EmptyFromAllEmpty(Fresh(n).cells, 0);
  }

  /** A legal move on a board with no completed line can only complete
      lines through the placed stone, and those belong to the mover. */
  lemma LegalMoveCompletesMoversLine(n: nat, b: Board, pos: nat, player: Player, k: nat)
    requires WellFormed(n, b) && pos < |b.cells| && b.cells[pos] == Empty
    requires !AnyCompleted(n, b.cells)
    requires k < |Lines(n)| && Completed(Move(n, b, pos, player).cells, Lines(n)[k])
    ensures pos in Lines(n)[k]
    ensures CompletedBy(Move(n, b, pos, player).cells, Lines(n)[k], player)
  {
    var r := Move(n, b, pos, player);
    var line := Lines(n)[k];
    if pos !in line {
      assert false;
    }
    var j :| 0 <= j < |line| && line[j] == pos;
    assert r.cells[line[j]] == Stone(player);
  }

  /** On an undecided board with no completed line, a legal move never makes
      the other player the winner: the game goes on, the mover wins through
      a line containing the new stone, or it is a draw. */
  lemma LegalMoveOutcome(n: nat, b: Board, pos: nat, player: Player)
    requires WellFormed(n, b) && pos < |b.cells| && b.cells[pos] == Empty
    requires b.winner == None && !AnyCompleted(n, b.cells)
    ensures Move(n, b, pos, player).winner in {None, Some(Won(player)), Some(Draw)}
    ensures Move(n, b, pos, player).winner == Some(Won(player)) ==>
              exists k :: 0 <= k < |Lines(n)| && pos in Lines(n)[k]
                && CompletedBy(Move(n, b, pos, player).cells, Lines(n)[k], player)
  {
    var r := Move(n, b, pos, player);
    if AnyCompleted(n, r.cells) {
      var q := r.winner.value.player;
      var k :| 0 <= k < |Lines(n)| && CompletedBy(r.cells, Lines(n)[k], q)
        && forall j :: 0 <= j < k ==> !Completed(r.cells, Lines(n)[j]);
      LegalMoveCompletesMoversLine(n, b, pos, player, k);
    }
  }

  lemma {:induction false} EmptyFromFill(cells: seq<Cell>, pos: nat, player: Player, i: nat)
    requires i <= |cells| && pos < |cells| && cells[pos] == Empty
    ensures |EmptyFrom(cells[pos := Stone(player)], i)| == |EmptyFrom(cells, i)| - (if i <= pos then 1 else 0)
    decreases |cells| - i
  {
    if i < |cells| {
      EmptyFromFill(cells, pos, player, i + 1);
    }
  }

  /** A legal move uses up exactly one legal move. */
  lemma LegalMoveConsumesOne(n: nat, b: Board, pos: nat, player: Player)
    requires WellFormed(n, b) && pos < |b.cells| && b.cells[pos] == Empty
    ensures |PossiblePos(Move(n, b, pos, player).cells)| == |PossiblePos(b.cells)| - 1
  {
    var r := Move(n, b, pos, player);
    assert r.cells == b.cells[pos := Stone(player)];
    EmptyFromFill(b.cells, pos, player, 0);
  }

  lemma {:induction false} DistinctWithin(line: seq<nat>, s: set<nat>)
    requires forall j1, j2 :: 0 <= j1 < j2 < |line| ==> line[j1] != line[j2]
    requires forall j :: 0 <= j < |line| ==> line[j] in s
    ensures |line| <= |s|
  {
    if |line| > 0 {
      var last := line[|line| - 1];
      DistinctWithin(line[..|line| - 1], s - {last});
    }
  }

  /** A player whose stones all lie within fewer than n cells owns no
      line. */
  lemma FewStonesOwnNoLine(n: nat, cells: seq<Cell>, p: Player, s: set<nat>, k: nat)
    requires n >= 1 && |s| < n && k < 2 * n + 2
    requires forall i :: 0 <= i < |cells| && cells[i] == Stone(p) ==> i in s
    ensures !CompletedBy(cells, Lines(n)[k], p)
  {
    LinesWellFormed(n);
    var line := Lines(n)[k];
    if CompletedBy(cells, line, p) {
      DistinctWithin(line, s);
    }
  }

  /** On a board of side at least 2, a single stone completes no line. */
  lemma LoneStoneCompletesNothing(n: nat, cells: seq<Cell>, pos: nat)
    requires n >= 2 && |cells| == n * n
    requires forall i :: 0 <= i < |cells| && i != pos ==> cells[i] == Empty
    ensures !AnyCompleted(n, cells)
  {
    LinesWellFormed(n);
    forall k | 0 <= k < |Lines(n)|
      ensures !Completed(cells, Lines(n)[k])
    {
      assert Lines(n)[k][0] != Lines(n)[k][1];
    }
  }

  /** The opening move of a game: on a 1-by-1 board it wins at once; on any
      larger board a lone stone completes no line and the game goes on. */
  lemma OpeningMove(n: nat, pos: nat, player: Player)
    requires n >= 1 && pos < n * n
    ensures n == 1 ==> Move(n, Fresh(n), pos, player).winner == Some(Won(player))
    ensures n >= 2 ==> Move(n, Fresh(n), pos, player).winner == None
  {
    if n == 1 {
      var top := Lines(n)[0];
      assert top == Row(n, 0);
      assert |top| == 1 && top[0] == 0 == pos;
      FirstLineDecides(n, Fresh(n), pos, player, player);
    } else {
      LoneStoneOpening(n, pos, player);
    }
  }

  /** On a board of side at least 2 the first stone leaves no completed
      line and a free cell. */
  lemma LoneStoneOpening(n: nat, pos: nat, player: Player)
    requires n >= 2 && pos < n * n
    ensures Move(n, Fresh(n), pos, player).winner == None
  {
    var r := Move(n, Fresh(n), pos, player);
    LoneStoneCompletesNothing(n, r.cells, pos);
    MulLeq(2, n, n);
    var other := if pos == 0 then 1 else 0;
    assert r.cells[other] == Empty;
  }

  /** The first line of the scan decides: when a move leaves it completed
      by p, p is the recorded winner, whatever else holds. */
  lemma FirstLineDecides(n: nat, b: Board, pos: nat, player: Player, p: Player)
    requires WellFormed(n, b) && pos < |b.cells|
    requires CompletedBy(MoveAt(n, b, pos, player).cells, Lines(n)[0], p)
    ensures MoveAt(n, b, pos, player).winner == Some(Won(p))
  {
    var r := MoveAt(n, b, pos, player);
    assert FirstCompletedBy(n, r.cells, p);
    FirstCompletedByUnique(n, r.cells, p, r.winner.value.player);
  }

  /** A negative position and the position it counts back to make the same
      move. */
  lemma NegativePositionAliases(n: nat, b: Board, pos: nat, player: Player)
    requires WellFormed(n, b) && pos < |b.cells|
    ensures Move(n, b, pos - |b.cells|, player) == Move(n, b, pos, player)
    ensures Move(n, b, pos - |b.cells|, player).cells[pos] != Empty
  {
  }

  /** A clone moves exactly like the original, except that it has forgotten
      any recorded winner. */
  lemma CloneMovesAlike(n: nat, b: Board, pos: nat, player: Player)
    requires WellFormed(n, b) && pos < |b.cells|
    ensures Move(n, Clone(b), pos, player).cells == Move(n, b, pos, player).cells
    ensures b.winner == None ==> Move(n, Clone(b), pos, player) == Move(n, b, pos, player)
  {
  }
}

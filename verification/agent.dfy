/** The baseline participant (the program's `PlayerRandom`): it picks one of
    the board's legal moves. The uniform random draw over the positions of
    the legal-move list is replaced by the drawn position itself, passed in.
 */
module Agents {
  import opened Tokens
  import opened TTTBoard

  /** `act`: the legal move at position i of the legal-move list. */
  function Act(b: Board, i: nat): (pos: nat)
    requires i < |PossiblePos(b.cells)|
    ensures pos < |b.cells| && b.cells[pos] == Empty
    ensures forall j :: 0 <= j < i ==> PossiblePos(b.cells)[j] < pos
  {
    PossiblePos(b.cells)[i]
  }
}

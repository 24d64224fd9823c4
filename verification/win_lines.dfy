/** The fixed set of winning lines of an n-by-n board stored row-major as a
    flat sequence: n rows, then n columns, then the main diagonal, then the
    anti-diagonal. The program builds them with numpy; here they are defined
    arithmetically, and `LineGeometry` shows that each one really is a row, a
    column or a diagonal of the grid, where flat index i sits at row i / n and
    column i % n.
 */
module WinLines {

  /** Flat index of grid position (r, c). */
  function Index(n: nat, r: nat, c: nat): nat
  {
    r * n + c
  }

  function RowOf(n: nat, i: nat): nat
    requires n >= 1
  {
    i / n
  }

  function ColOf(n: nat, i: nat): nat
    requires n >= 1
  {
    i % n
  }

  function Row(n: nat, r: nat): seq<nat>
  {
    seq(n, c requires 0 <= c < n => Index(n, r, c))
  }

  function Column(n: nat, c: nat): seq<nat>
  {
    seq(n, r requires 0 <= r < n => Index(n, r, c))
  }

  function Diagonal(n: nat): seq<nat>
  {
    seq(n, k requires 0 <= k < n => Index(n, k, k))
  }

  /** The diagonal of the vertically flipped grid: it starts at the
      bottom-left corner and ends at the top-right one. */
  function AntiDiagonal(n: nat): seq<nat>
  {
    seq<nat>(n, k requires 0 <= k < n => Index(n, n - 1 - k, k))
  }

  /** All winning lines in scan order. */
  function Lines(n: nat): (r: seq<seq<nat>>)
    ensures |r| == 2 * n + 2
    ensures forall k :: 0 <= k < n ==> r[k] == Row(n, k) && r[n + k] == Column(n, k)
    ensures n > 0 ==> r[2 * n] == Diagonal(n) && r[2 * n + 1] == AntiDiagonal(n)
  {
    seq(n, r requires 0 <= r < n => Row(n, r))
    + seq(n, c requires 0 <= c < n => Column(n, c))
    + [Diagonal(n), AntiDiagonal(n)]
  }

  // ----- arithmetic on flat indices -----

  lemma MulLeq(a: nat, b: nat, n: nat)
    requires a <= b
    ensures a * n <= b * n
  {
  }

  lemma MulDiff(a: nat, b: nat, n: nat)
    requires a <= b
    ensures b * n - a * n == (b - a) * n
  {
  }

  /** Euclidean division recovers quotient and remainder. */
  lemma DivModUnique(n: nat, q: nat, m: nat)
    requires m < n
    ensures (q * n + m) / n == q
    ensures (q * n + m) % n == m
  {
    var i := q * n + m;
    var q', m' := i / n, i % n;
    assert i == q' * n + m' && 0 <= m' < n;
    if q' < q {
      MulDiff(q', q, n);
      MulLeq(1, q - q', n);
      assert false;
    } else if q < q' {
      MulDiff(q, q', n);
      MulLeq(1, q' - q, n);
      assert false;
    }
  }

  /** Grid positions inside the board have flat indices inside the board,
      and the flat index determines the position. */
  lemma IndexCoordinates(n: nat, r: nat, c: nat)
    requires r < n && c < n
    ensures Index(n, r, c) < n * n
    ensures RowOf(n, Index(n, r, c)) == r
    ensures ColOf(n, Index(n, r, c)) == c
  {
    MulLeq(r, n - 1, n);
    MulDiff(n - 1, n, n);
    DivModUnique(n, r, c);
  }

  // ----- properties of the line set -----

  /** Where the k-th line of the scan lies on the grid. */
  ghost predicate OnLine(n: nat, k: nat, j: nat, i: nat)
    requires n >= 1
  {
    if k < n then RowOf(n, i) == k && ColOf(n, i) == j
    else if k < 2 * n then RowOf(n, i) == j && ColOf(n, i) == k - n
    else if k == 2 * n then RowOf(n, i) == j && ColOf(n, i) == j
    else RowOf(n, i) == n - 1 - j && ColOf(n, i) == j
  }

  /** The scan covers 2n+2 lines: rows first, then columns, then the main
      diagonal, then the anti-diagonal; the j-th cell of each lies where
      `OnLine` says. */
  lemma {:induction false} LineGeometry(n: nat)
    requires n >= 1
    ensures |Lines(n)| == 2 * n + 2
    ensures forall k :: 0 <= k < |Lines(n)| ==> |Lines(n)[k]| == n
    ensures forall k, j :: 0 <= k < |Lines(n)| && 0 <= j < n ==>
              Lines(n)[k][j] < n * n && OnLine(n, k, j, Lines(n)[k][j])
  {
    var ls := Lines(n);
    forall k, j | 0 <= k < |ls| && 0 <= j < n
      ensures |ls[k]| == n
      ensures ls[k][j] < n * n && OnLine(n, k, j, ls[k][j])
    {
      if k < n {
        assert ls[k] == Row(n, k);
        IndexCoordinates(n, k, j);
      } else if k < 2 * n {
        assert ls[k] == Column(n, k - n);
        IndexCoordinates(n, j, k - n);
      } else if k == 2 * n {
        assert ls[k] == Diagonal(n);
        IndexCoordinates(n, j, j);
      } else {
        assert ls[k] == AntiDiagonal(n);
        IndexCoordinates(n, n - 1 - j, j);
      }
    }
  }

  /** Every line is made of n distinct in-range indices. */
  lemma LinesWellFormed(n: nat)
    requires n >= 1
    ensures |Lines(n)| == 2 * n + 2
    ensures forall k :: 0 <= k < |Lines(n)| ==> |Lines(n)[k]| == n
    ensures forall k, j :: 0 <= k < |Lines(n)| && 0 <= j < n ==> Lines(n)[k][j] < n * n
    ensures forall k, j1, j2 :: 0 <= k < |Lines(n)| && 0 <= j1 < j2 < n ==>
              Lines(n)[k][j1] != Lines(n)[k][j2]
  {
    LineGeometry(n);
    var ls := Lines(n);
    forall k, j1, j2 | 0 <= k < |ls| && 0 <= j1 < j2 < n
      ensures ls[k][j1] != ls[k][j2]
    {
      assert OnLine(n, k, j1, ls[k][j1]) && OnLine(n, k, j2, ls[k][j2]);
    }
  }
}

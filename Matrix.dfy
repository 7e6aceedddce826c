/**
 * Row-major matrices stored as flat sequences, the layout used by the host
 * code of the matrix-multiply example: element (r, c) of a matrix with
 * `cols` columns sits at flat position r * cols + c.
 *
 * The build-time element type `real_t` (float or double) is modelled as `int`:
 * every value the program produces is a whole number (see MatrixGenerator and
 * ReferenceMultiplier.DigitProductBound), and all of them are exactly
 * representable in either precision.
 */
module Matrix {

  /** The flat position of element (r, c) lies inside a rows x cols matrix. */
  lemma FlatIndexInBounds(r: nat, c: nat, rows: nat, cols: nat)
    requires r < rows && c < cols
    ensures r * cols + c < rows * cols
  {
    MulMonotone(r + 1, rows, cols);
    assert (r + 1) * cols == r * cols + cols;
  }

  lemma {:induction false} MulMonotone(a: nat, b: nat, k: nat)
    requires a <= b
    ensures a * k <= b * k
  {
    if a < b {
      MulMonotone(a, b - 1, k);
      assert b * k == (b - 1) * k + k;
    }
  }

  /** Element (r, c) of the rows x cols row-major matrix stored at the front of M. */
  function Entry(M: seq<int>, rows: nat, cols: nat, r: nat, c: nat): int
    requires |M| >= rows * cols
    requires r < rows && c < cols
  {
    FlatIndexInBounds(r, c, rows, cols);
    M[r * cols + c]
  }

  /** Every element lies in [0, 10): what the generator produces. */
  predicate IsDigitMatrix(M: seq<int>)
  {
    forall i :: 0 <= i < |M| ==> 0 <= M[i] < 10
  }

  lemma EntryIsDigit(M: seq<int>, rows: nat, cols: nat, r: nat, c: nat)
    requires IsDigitMatrix(M) && |M| >= rows * cols
    requires r < rows && c < cols
    ensures 0 <= Entry(M, rows, cols, r, c) < 10
  {
    FlatIndexInBounds(r, c, rows, cols);
  }
}

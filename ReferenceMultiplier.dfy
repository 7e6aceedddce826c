/**
 * The host-side reference product `host_matmul`: C = A * B, where A is
 * treated as an aColumns x aColumns matrix (the row count is taken from
 * aColumns, so A is assumed square) and B as aColumns x bColumns.
 */
module ReferenceMultiplier {
  import opened Matrix

  /**
   * The first k terms of the dot product of row r of A with column c of B,
   * summed left to right in the order the innermost loop accumulates them.
   */
  function Dot(A: seq<int>, B: seq<int>, n: nat, m: nat, r: nat, c: nat, k: nat): int
    requires |A| >= n * n && |B| >= n * m
    requires r < n && c < m && k <= n
  {
    if k == 0 then 0
    else Dot(A, B, n, m, r, c, k - 1) + Entry(A, n, n, r, k - 1) * Entry(B, n, m, k - 1, c)
  }

  /** Row r of the product: its m dot products. */
  function ProductRow(A: seq<int>, B: seq<int>, n: nat, m: nat, r: nat): seq<int>
    requires |A| >= n * n && |B| >= n * m && r < n
  {
    seq(m, c requires 0 <= c < m => Dot(A, B, n, m, r, c, n))
  }

  /** The first `rows` rows of the product, flattened row-major. */
  function ProductRows(A: seq<int>, B: seq<int>, n: nat, m: nat, rows: nat): (P: seq<int>)
    requires |A| >= n * n && |B| >= n * m && rows <= n
    ensures |P| == rows * m
  {
    if rows == 0 then []
    else ProductRows(A, B, n, m, rows - 1) + ProductRow(A, B, n, m, rows - 1)
  }

  /** The full n x m product A * B, flattened row-major. */
  function Product(A: seq<int>, B: seq<int>, n: nat, m: nat): seq<int>
    requires |A| >= n * n && |B| >= n * m
  {
    ProductRows(A, B, n, m, n)
  }

  /** Each cell of the product is the dot product of a row of A and a column of B. */
  lemma {:induction false} ProductRowsAt(A: seq<int>, B: seq<int>, n: nat, m: nat, rows: nat, r: nat, c: nat)
    requires |A| >= n * n && |B| >= n * m && rows <= n
    requires r < rows && c < m
    ensures Entry(ProductRows(A, B, n, m, rows), rows, m, r, c) == Dot(A, B, n, m, r, c, n)
  {
    var prefix := ProductRows(A, B, n, m, rows - 1);
    assert ProductRows(A, B, n, m, rows) == prefix + ProductRow(A, B, n, m, rows - 1);
    FlatIndexInBounds(r, c, rows, m);
    if r < rows - 1 {
      FlatIndexInBounds(r, c, rows - 1, m);
      ProductRowsAt(A, B, n, m, rows - 1, r, c);
    } else {
      assert r * m + c == |prefix| + c;
    }
  }

  /** The product has n * m cells, and cell (r, c) is the dot product of row r of A and column c of B. */
  lemma ProductAt(A: seq<int>, B: seq<int>, n: nat, m: nat, r: nat, c: nat)
    requires |A| >= n * n && |B| >= n * m
    requires r < n && c < m
    ensures |Product(A, B, n, m)| == n * m
    ensures Entry(Product(A, B, n, m), n, m, r, c) == Dot(A, B, n, m, r, c, n)
  {
    ProductRowsAt(A, B, n, m, n, r, c);
  }

  /** ProductAt in terms of the flat position that host_matmul writes. */
  lemma ProductCell(A: seq<int>, B: seq<int>, n: nat, m: nat, r: nat, c: nat)
    requires |A| >= n * n && |B| >= n * m
    requires r < n && c < m
    ensures r * m + c < n * m == |Product(A, B, n, m)|
    ensures Product(A, B, n, m)[r * m + c] == Dot(A, B, n, m, r, c, n)
  {
    ProductAt(A, B, n, m, r, c);
    FlatIndexInBounds(r, c, n, m);
  }

  /** A is the n x n identity matrix. */
  predicate IsIdentity(A: seq<int>, n: nat)
  {
    |A| >= n * n &&
    forall r, c :: 0 <= r < n && 0 <= c < n ==> Entry(A, n, n, r, c) == if r == c then 1 else 0
  }

  /** With A the identity, the first k terms of the dot product pick out B's entry when r < k. */
  lemma {:induction false} DotIdentity(A: seq<int>, B: seq<int>, n: nat, m: nat, r: nat, c: nat, k: nat)
    requires IsIdentity(A, n) && |B| >= n * m
    requires r < n && c < m && k <= n
    ensures Dot(A, B, n, m, r, c, k) == if r < k then Entry(B, n, m, r, c) else 0
  {
    if k > 0 {
      DotIdentity(A, B, n, m, r, c, k - 1);
    }
  }

  /** Multiplying by the identity reproduces the first n * m elements of B. */
  lemma {:induction false} IdentityProduct(A: seq<int>, B: seq<int>, n: nat, m: nat)
    requires IsIdentity(A, n) && |B| >= n * m
    ensures Product(A, B, n, m) == B[..n * m]
  {
    IdentityProductRows(A, B, n, m, n);
  }

  lemma {:induction false} IdentityProductRows(A: seq<int>, B: seq<int>, n: nat, m: nat, rows: nat)
    requires IsIdentity(A, n) && |B| >= n * m && rows <= n
    ensures rows * m <= |B|
    ensures ProductRows(A, B, n, m, rows) == B[..rows * m]
  {
    MulMonotone(rows, n, m);
    if rows > 0 {
      var r := rows - 1;
      IdentityProductRows(A, B, n, m, r);
      NextRowBase(r, m);
      var row := ProductRow(A, B, n, m, r);
      forall c | 0 <= c < m
        ensures row[c] == B[r * m + c]
      {
        DotIdentity(A, B, n, m, r, c, n);
      }
      assert row == B[r * m .. rows * m];
      assert B[..rows * m] == B[..r * m] + B[r * m .. rows * m];
    }
  }

  /** With digit inputs, every partial dot product is in [0, 81 * k]. */
  lemma {:induction false} DigitDotBound(A: seq<int>, B: seq<int>, n: nat, m: nat, r: nat, c: nat, k: nat)
    requires |A| >= n * n && |B| >= n * m && IsDigitMatrix(A) && IsDigitMatrix(B)
    requires r < n && c < m && k <= n
    ensures 0 <= Dot(A, B, n, m, r, c, k) <= 81 * k
  {
    if k > 0 {
      DigitDotBound(A, B, n, m, r, c, k - 1);
      EntryIsDigit(A, n, n, r, k - 1);
      EntryIsDigit(B, n, m, k - 1, c);
      DigitTimesDigit(Entry(A, n, n, r, k - 1), Entry(B, n, m, k - 1, c));
    }
  }

  lemma DigitTimesDigit(a: int, b: int)
    requires 0 <= a < 10 && 0 <= b < 10
    ensures 0 <= a * b <= 81
  {
    assert a * b <= 9 * b by { assert a * b == b * a; }
  }

  /**
   * Every cell of the product of two n x n digit matrices lies in [0, 81 * n]:
   * whole numbers small enough (below 2^24 for n = 16) that float and double
   * hold them exactly.
   */
  lemma DigitProductBound(A: seq<int>, B: seq<int>, n: nat, r: nat, c: nat)
    requires |A| >= n * n && |B| >= n * n && IsDigitMatrix(A) && IsDigitMatrix(B)
    requires r < n && c < n
    ensures 0 <= Entry(Product(A, B, n, n), n, n, r, c) <= 81 * n
  {
    ProductAt(A, B, n, n, r, c);
    DigitDotBound(A, B, n, n, r, c, n);
  }

  /** One more term of the dot product; the two elements read are in bounds. */
  lemma DotStep(A: seq<int>, B: seq<int>, n: nat, m: nat, r: nat, c: nat, k: nat)
    requires |A| >= n * n && |B| >= n * m
    requires r < n && c < m && k < n
    ensures r * n + k < |A| && k * m + c < |B|
    ensures Dot(A, B, n, m, r, c, k + 1) == Dot(A, B, n, m, r, c, k) + A[r * n + k] * B[k * m + c]
  {
    FlatIndexInBounds(r, k, n, n);
    FlatIndexInBounds(k, c, n, m);
  }

  lemma NextRowBase(r: nat, m: nat)
    ensures r * m + m == (r + 1) * m
  {
  }

  /**
   * The body of host_matmul's column loop for one output cell k = r * bColumns + c:
   * zero the cell, then run the innermost loop, which adds the terms of the
   * dot product one at a time.
   */
  method AccumulateCell(A: seq<int>, B: seq<int>, C: array<int>, aColumns: nat, bColumns: nat, r: nat, c: nat, k: nat)
    requires |A| >= aColumns * aColumns && |B| >= aColumns * bColumns
    requires r < aColumns && c < bColumns
    requires k == r * bColumns + c && k < aColumns * bColumns <= C.Length
    modifies C
    ensures C[k] == Product(A, B, aColumns, bColumns)[k]
    ensures forall i :: 0 <= i < C.Length && i != k ==> C[i] == old(C[i])
  {
    C[k] := 0;
    var ic := 0;
    while ic != aColumns
      invariant 0 <= ic <= aColumns
      invariant C[k] == Dot(A, B, aColumns, bColumns, r, c, ic)
      invariant forall i :: 0 <= i < C.Length && i != k ==> C[i] == old(C[i])
    {
      DotStep(A, B, aColumns, bColumns, r, c, ic);
      C[k] := C[k] + A[r * aColumns + ic] * B[ic * bColumns + c];
      ic := ic + 1;
    }
    ProductCell(A, B, aColumns, bColumns, r, c);
  }

  /**
   * host_matmul: fills the first aColumns * bColumns cells of C with the
   * product, zeroing each cell before accumulating into it, and leaves the
   * rest of C alone.
   */
  method HostMatmul(A: seq<int>, B: seq<int>, C: array<int>, aColumns: nat, bColumns: nat)
    requires |A| >= aColumns * aColumns
    requires |B| >= aColumns * bColumns
    requires C.Length >= aColumns * bColumns
    modifies C
    ensures C[..aColumns * bColumns] == Product(A, B, aColumns, bColumns)
    ensures C[aColumns * bColumns..] == old(C[aColumns * bColumns..])
  {
    ghost var P := Product(A, B, aColumns, bColumns);
    ghost var C0 := C[..];
    var rows := aColumns;
    var columns := bColumns;
    var r := 0;
    ghost var base := 0;
    while r != rows
      invariant 0 <= r <= aColumns
      invariant base == r * bColumns && base <= aColumns * bColumns == |P|
      invariant forall i :: 0 <= i < base ==> C[i] == P[i]
      invariant forall i :: base <= i < C.Length ==> C[i] == C0[i]
    {
      var c := 0;
      while c != columns
        invariant 0 <= c <= bColumns
        invariant base + c <= aColumns * bColumns
        invariant forall i :: 0 <= i < base + c ==> C[i] == P[i]
        invariant forall i :: base + c <= i < C.Length ==> C[i] == C0[i]
      {
        FlatIndexInBounds(r, c, aColumns, bColumns);
        AccumulateCell(A, B, C, aColumns, bColumns, r, c, r * bColumns + c);
        c := c + 1;
      }
      NextRowBase(r, bColumns);
      base := base + bColumns;
      r := r + 1;
    }
    assert C[..aColumns * bColumns] == P;
  }
}

/**
 * `create_matrix`: a cols x rows matrix whose elements are successive values
 * of the C library's rand() reduced modulo 10.
 *
 * The random source (reseeded from the wall clock on every call) is a
 * parameter: draws(i) is the value the i-th call to rand() returns after the
 * reseed. rand() never returns a negative number, so C's truncating `%` and
 * Dafny's Euclidean `%` agree on it.
 */
module MatrixGenerator {
  import opened Matrix

  /** The first `count` draws, each reduced to a digit. */
  function RandomDigits(count: nat, draws: nat -> nat): (m: seq<int>)
    ensures |m| == count
    ensures IsDigitMatrix(m)
  {
    seq(count, i requires 0 <= i => draws(i) % 10)
  }

  /** create_matrix: allocates cols * rows elements and fills them in order from the random source. */
  method CreateMatrix(cols: nat, rows: nat, draws: nat -> nat) returns (m: seq<int>)
    ensures |m| == cols * rows
    ensures IsDigitMatrix(m)
    ensures forall i :: 0 <= i < |m| ==> m[i] == draws(i) % 10
    ensures m == RandomDigits(cols * rows, draws)
  {
    var a := new int[cols * rows](_ => 0);
    for i := 0 to a.Length
      invariant forall j :: 0 <= j < i ==> a[j] == draws(j) % 10
    {
      a[i] := draws(i) % 10;
    }
    m := a[..];
  }
}

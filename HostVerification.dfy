/**
 * The host side of `main`: generate A and B, take the matrix read back from
 * the device, compute the reference product and compare the two within EPS.
 * Everything between the generation and the read-back (device buffers,
 * kernel arguments, the launch itself) happens in the OpenCL runtime and is
 * represented only by the read-back contents.
 */
module HostVerification {
  import opened Matrix
  import opened MatrixGenerator
  import opened ReferenceMultiplier
  import opened ResultComparator
  import opened LaunchGeometry

  /**
   * The PASSED/FAILED verdict of one run. drawsA and drawsB are the random
   * values seen by the two create_matrix calls; deviceC is what the blocking
   * read of BYTE_SIZE bytes leaves in the host vector C. PASSED is reported
   * exactly when the device returned the product of the generated matrices.
   */
  method VerifyOffload(drawsA: nat -> nat, drawsB: nat -> nat, deviceC: seq<int>, p: Precision)
    returns (passed: bool)
    requires |deviceC| == SIZE * SIZE
    ensures passed <==>
      deviceC == Product(RandomDigits(SIZE * SIZE, drawsA), RandomDigits(SIZE * SIZE, drawsB), SIZE, SIZE)
  {
    var A := CreateMatrix(SIZE, SIZE, drawsA);
    var B := CreateMatrix(SIZE, SIZE, drawsB);
    var C := deviceC;
    var refC := new int[SIZE * SIZE](_ => 0);
    HostMatmul(A, B, refC, SIZE, SIZE);
    assert refC[..] == refC[..SIZE * SIZE];
    passed := CheckResult(refC[..], C, Eps(p));
    ToleranceBelowOneIsEquality(refC[..], C, Eps(p));
    assert C[..|refC[..]|] == C;
  }

  /**
   * Every cell of the reference product of two generated matrices is a whole
   * number in [0, 1296]: below 2^24, so float and double compute it exactly
   * and the integer model agrees with the program's arithmetic.
   */
  lemma ReferenceIsExact(drawsA: nat -> nat, drawsB: nat -> nat, r: nat, c: nat)
    requires r < SIZE && c < SIZE
    ensures 0 <= Entry(Product(RandomDigits(SIZE * SIZE, drawsA), RandomDigits(SIZE * SIZE, drawsB), SIZE, SIZE), SIZE, SIZE, r, c) <= 1296 < 0x100_0000
  {
    DigitProductBound(RandomDigits(SIZE * SIZE, drawsA), RandomDigits(SIZE * SIZE, drawsB), SIZE, r, c);
  }
}

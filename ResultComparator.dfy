/**
 * `check_result`: element-wise comparison of a reference vector with the
 * vector read back from the device, within an absolute tolerance eps.
 */
module ResultComparator {

  function Abs(x: int): (a: nat)
    ensures a == x || a == -x
  {
    if x < 0 then -x else x
  }

  /** Every element of v1 is within eps of the element of v2 at the same index. */
  predicate WithinTolerance(v1: seq<int>, v2: seq<int>, eps: real)
    requires |v1| <= |v2|
  {
    forall i :: 0 <= i < |v1| ==> Abs(v1[i] - v2[i]) as real <= eps
  }

  /**
   * check_result: walks v1 and stops with false at the first index whose
   * absolute difference exceeds eps. Only the first |v1| elements of v2 are read.
   */
  method CheckResult(v1: seq<int>, v2: seq<int>, eps: real) returns (ok: bool)
    requires |v1| <= |v2|
    ensures ok <==> WithinTolerance(v1, v2, eps)
    ensures !ok <==> exists i :: 0 <= i < |v1| && Abs(v1[i] - v2[i]) as real > eps
  {
    var i := 0;
    while i != |v1|
      invariant 0 <= i <= |v1|
      invariant forall j :: 0 <= j < i ==> Abs(v1[j] - v2[j]) as real <= eps
    {
      if Abs(v1[i] - v2[i]) as real > eps {
        return false;
      }
      i := i + 1;
    }
    return true;
  }

  /** Reflexivity: a vector always passes against itself when eps >= 0. */
  lemma ToleranceReflexive(v: seq<int>, eps: real)
    requires eps >= 0.0
    ensures WithinTolerance(v, v, eps)
  {
    assert Abs(0) == 0;
  }

  /** Symmetry: for equal lengths the order of the two vectors does not matter. */
  lemma ToleranceSymmetric(v1: seq<int>, v2: seq<int>, eps: real)
    requires |v1| == |v2|
    ensures WithinTolerance(v1, v2, eps) <==> WithinTolerance(v2, v1, eps)
  {
  }

  /** Monotonicity: a pass at eps is a pass at every larger tolerance. */
  lemma ToleranceMonotone(v1: seq<int>, v2: seq<int>, eps: real, eps': real)
    requires |v1| <= |v2| && eps <= eps'
    requires WithinTolerance(v1, v2, eps)
    ensures WithinTolerance(v1, v2, eps')
  {
  }

  /**
   * For whole-number data and a tolerance below 1 (both EPS values of the
   * program are), passing means the vectors agree exactly on v1's length.
   */
  lemma ToleranceBelowOneIsEquality(v1: seq<int>, v2: seq<int>, eps: real)
    requires |v1| <= |v2| && 0.0 <= eps < 1.0
    ensures WithinTolerance(v1, v2, eps) <==> v1 == v2[..|v1|]
  {
  }

  /** A result off by one everywhere (a faulty kernel) fails for any tolerance below 1. */
  lemma OffByOneFails(v: seq<int>, w: seq<int>, eps: real)
    requires |v| == |w| > 0 && eps < 1.0
    requires forall i :: 0 <= i < |v| ==> w[i] == v[i] + 1
    ensures !WithinTolerance(v, w, eps)
  {
    assert Abs(v[0] - w[0]) == 1;
  }
}

/** Dense parameter vectors with exact real arithmetic standing in for the
    numeric backend's floating-point vectors. */
module Vectors {

  type Vec = seq<real>

  /** A vector of `n` zeros (what a freshly made or cleared vector holds). */
  function Zeros(n: nat): (z: Vec)
    ensures |z| == n
    ensures forall i :: 0 <= i < n ==> z[i] == 0.0
  {
    seq(n, i => 0.0)
  }

  predicate IsZero(u: Vec) {
    forall i :: 0 <= i < |u| ==> u[i] == 0.0
  }

  function Add(u: Vec, v: Vec): (w: Vec)
    requires |u| == |v|
    ensures |w| == |u|
  {
    seq(|u|, i requires 0 <= i < |u| => u[i] + v[i])
  }

  function Sub(u: Vec, v: Vec): (w: Vec)
    requires |u| == |v|
    ensures |w| == |u|
  {
    seq(|u|, i requires 0 <= i < |u| => u[i] - v[i])
  }

  function Scale(u: Vec, c: real): (w: Vec)
    ensures |w| == |u|
  {
    seq(|u|, i requires 0 <= i < |u| => c * u[i])
  }

  function Dot(u: Vec, v: Vec): real
    requires |u| == |v|
  {
    if |u| == 0 then 0.0 else u[0] * v[0] + Dot(u[1..], v[1..])
  }

  function Abs(x: real): real {
    if x < 0.0 then -x else x
  }

  /** Sum of absolute values of the entries. */
  function AbsSum(u: Vec): real {
    if |u| == 0 then 0.0 else Abs(u[0]) + AbsSum(u[1..])
  }

  lemma {:induction false} AbsSumNonNegative(u: Vec)
    ensures AbsSum(u) >= 0.0
    decreases |u|
  {
    if |u| > 0 {
      AbsSumNonNegative(u[1..]);
    }
  }

  /** The exact-zero test on the absolute sum holds precisely for all-zero vectors. */
  lemma {:induction false} AbsSumZeroIff(u: Vec)
    ensures AbsSum(u) == 0.0 <==> IsZero(u)
    decreases |u|
  {
    if |u| > 0 {
      AbsSumZeroIff(u[1..]);
      AbsSumNonNegative(u[1..]);
      if IsZero(u) {
        assert IsZero(u[1..]) by {
          forall i | 0 <= i < |u[1..]| ensures u[1..][i] == 0.0 {
            assert u[1..][i] == u[i + 1];
          }
        }
      }
      if AbsSum(u) == 0.0 {
        forall i | 0 <= i < |u| ensures u[i] == 0.0 {
          if i > 0 {
            assert u[i] == u[1..][i - 1];
          }
        }
      }
    }
  }

  /** Dotting with any all-zero vector gives zero. */
  lemma {:induction false} DotZeroRight(u: Vec, z: Vec)
    requires |u| == |z| && IsZero(z)
    ensures Dot(u, z) == 0.0
    decreases |u|
  {
    if |u| > 0 {
      assert IsZero(z[1..]) by {
        forall i | 0 <= i < |z[1..]| ensures z[1..][i] == 0.0 {
          assert z[1..][i] == z[i + 1];
        }
      }
      DotZeroRight(u[1..], z[1..]);
    }
  }

  /** Scaling the second vector scales the dot product. */
  lemma {:induction false} DotScaleRight(u: Vec, v: Vec, c: real)
    requires |u| == |v|
    ensures Dot(u, Scale(v, c)) == c * Dot(u, v)
    decreases |u|
  {
    if |u| > 0 {
      assert Scale(v, c)[1..] == Scale(v[1..], c) by {
        forall i | 0 <= i < |v| - 1 ensures Scale(v, c)[1..][i] == Scale(v[1..], c)[i] {
          assert Scale(v, c)[1..][i] == Scale(v, c)[i + 1];
        }
      }
      DotScaleRight(u[1..], v[1..], c);
    }
  }
}

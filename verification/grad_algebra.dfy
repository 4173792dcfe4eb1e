/** Gradients keyed by parameter, and the algebra the natural-gradient solver
    builds on (`copyGrad`, `zeroGrad`, `dotGrad`, `addToGrad`, `subFromGrad`,
    `setGrad`, `allZeros` in anypg/natural_pg.go, plus the library's in-place
    `Scale`).  The Go functions mutate their destination in place; here each one
    returns the new map and leaves its arguments untouched. */
module GradAlgebra {
  import opened Outcomes
  import opened Vectors

  /** A stable, comparable handle for one parameter variable of the policy. */
  datatype ParamId = ParamId(id: nat)

  /** A gradient: one dense vector per parameter it mentions. */
  type Grad = map<ParamId, Vec>

  /** Every key of `dst` is present in `src` with a vector of the same length:
      what the in-place operations need of their source. */
  predicate Covers(dst: Grad, src: Grad) {
    forall k :: k in dst ==> k in src && |src[k]| == |dst[k]|
  }

  /** Same keys and same vector length under every key. */
  predicate SameShape(a: Grad, b: Grad) {
    a.Keys == b.Keys && Covers(a, b)
  }

  /** Deep copy: same keys, equal vectors. */
  function CopyGrad(g: Grad): (r: Grad)
    ensures r.Keys == g.Keys
    ensures forall k :: k in g ==> r[k] == g[k]
  {
    map k | k in g :: g[k]
  }

  /** A copy whose vectors have been cleared. */
  function ZeroGrad(g: Grad): (r: Grad)
    ensures SameShape(r, g)
    ensures forall k, i :: k in r && 0 <= i < |r[k]| ==> r[k][i] == 0.0
  {
    var c := CopyGrad(g);
    map k | k in c :: Zeros(|c[k]|)
  }

  /** Multiplies every vector by the scalar `c`. */
  function ScaleGrad(g: Grad, c: real): (r: Grad)
    ensures SameShape(r, g)
    ensures forall k, i :: k in g && 0 <= i < |g[k]| ==> r[k][i] == c * g[k][i]
  {
    map k | k in g :: Scale(g[k], c)
  }

  /** `dst[k] += src[k]` for every key of `dst`; keys only in `src` are ignored. */
  function AddToGrad(dst: Grad, src: Grad): (r: Grad)
    requires Covers(dst, src)
    ensures SameShape(r, dst)
    ensures forall k, i :: k in dst && 0 <= i < |dst[k]| ==> r[k][i] == dst[k][i] + src[k][i]
  {
    map k | k in dst :: Add(dst[k], src[k])
  }

  /** `dst[k] -= src[k]` for every key of `dst`; keys only in `src` are ignored. */
  function SubFromGrad(dst: Grad, src: Grad): (r: Grad)
    requires Covers(dst, src)
    ensures SameShape(r, dst)
    ensures forall k, i :: k in dst && 0 <= i < |dst[k]| ==> r[k][i] == dst[k][i] - src[k][i]
  {
    map k | k in dst :: Sub(dst[k], src[k])
  }

  /** `dst[k] := src[k]` for every key of `dst`; keys only in `src` are ignored. */
  function SetGrad(dst: Grad, src: Grad): (r: Grad)
    requires Covers(dst, src)
    ensures SameShape(r, dst)
    ensures forall k :: k in dst ==> r[k] == src[k]
  {
    map k | k in dst :: src[k]
  }

  /** The exact-zero test on every vector's absolute sum. */
  predicate AllZeros(g: Grad): (b: bool)
    ensures b <==> forall k, i :: k in g && 0 <= i < |g[k]| ==> g[k][i] == 0.0
  {
    AbsSumsZeroIff(g);
    forall k | k in g :: AbsSum(g[k]) == 0.0
  }

  lemma AbsSumsZeroIff(g: Grad)
    ensures (forall k | k in g :: AbsSum(g[k]) == 0.0)
        <==> (forall k, i :: k in g && 0 <= i < |g[k]| ==> g[k][i] == 0.0)
  {
    forall k | k in g {
      AbsSumZeroIff(g[k]);
    }
  }

  /** The sum, over the keys `ks` of `g1`, of the per-key dot products with `g2`.
      The key is picked arbitrarily, like the iteration order of a Go map;
      `SumDotsRemove` shows the choice does not matter. */
  ghost function SumDots(g1: Grad, g2: Grad, ks: set<ParamId>): real
    requires ks <= g1.Keys && Covers(g1, g2)
    decreases ks
  {
    if ks == {} then 0.0
    else
      var k := Pick(ks);
      Dot(g1[k], g2[k]) + SumDots(g1, g2, ks - {k})
  }

  /** Some key of a non-empty key set. */
  ghost function Pick(ks: set<ParamId>): (k: ParamId)
    requires ks != {}
    ensures k in ks
  {
    var k :| k in ks; k
  }

  /** Order independence: any key may be summed first. */
  lemma {:induction false} SumDotsRemove(g1: Grad, g2: Grad, ks: set<ParamId>, j: ParamId)
    requires ks <= g1.Keys && Covers(g1, g2) && j in ks
    ensures SumDots(g1, g2, ks) == Dot(g1[j], g2[j]) + SumDots(g1, g2, ks - {j})
    decreases ks
  {
    var k := Pick(ks);
    if k != j {
      SumDotsRemove(g1, g2, ks - {k}, j);
      SumDotsRemove(g1, g2, ks - {j}, k);
      assert ks - {k} - {j} == ks - {j} - {k};
    }
  }

  /** The value `dotGrad` computes, or the failure it raises on an empty `g1`. */
  ghost function GradDot(g1: Grad, g2: Grad): Result<real>
    requires Covers(g1, g2)
  {
    if |g1| == 0 then Err(EmptyDot) else Ok(SumDots(g1, g2, g1.Keys))
  }

  /** `dotGrad`: visits the keys of `g1` in an arbitrary order, accumulating
      the per-key dot products with `g2`; fails when there is nothing to sum. */
  method DotGrad(g1: Grad, g2: Grad) returns (r: Result<real>)
    requires Covers(g1, g2)
    ensures r.Err? <==> |g1| == 0
    ensures r.Err? ==> r.error == EmptyDot
    ensures r == GradDot(g1, g2)
  {
    var remaining := g1.Keys;
    var sum: Option<real> := None;
    while remaining != {}
      invariant remaining <= g1.Keys
      invariant sum.None? <==> remaining == g1.Keys
      invariant sum.Some? ==> sum.value == SumDots(g1, g2, g1.Keys - remaining)
      decreases remaining
    {
      var k :| k in remaining;
      var d := Dot(g1[k], g2[k]);
      ghost var done := g1.Keys - remaining;
      SumDotsRemove(g1, g2, done + {k}, k);
      assert done + {k} - {k} == done;
      if sum.None? {
        assert done == {};
        sum := Some(d);
      } else {
        sum := Some(sum.value + d);
      }
      remaining := remaining - {k};
      assert g1.Keys - remaining == done + {k};
    }
    if sum.None? {
      return Err(EmptyDot);
    }
    assert g1.Keys - remaining == g1.Keys;
    return Ok(sum.value);
  }

  /** Summing dot products against all-zero vectors gives zero. */
  lemma {:induction false} SumDotsZero(g1: Grad, g2: Grad, ks: set<ParamId>)
    requires ks <= g1.Keys && Covers(g1, g2)
    requires forall k :: k in ks ==> IsZero(g2[k])
    ensures SumDots(g1, g2, ks) == 0.0
    decreases ks
  {
    if ks != {} {
      var k := Pick(ks);
      DotZeroRight(g1[k], g2[k]);
      SumDotsZero(g1, g2, ks - {k});
    }
  }

  /** Scaling the second gradient scales the dot sum. */
  lemma {:induction false} SumDotsScaleRight(g1: Grad, g2: Grad, h: Grad, c: real, ks: set<ParamId>)
    requires ks <= g1.Keys && Covers(g1, g2) && Covers(g1, h)
    requires forall k :: k in ks ==> h[k] == Scale(g2[k], c)
    ensures SumDots(g1, h, ks) == c * SumDots(g1, g2, ks)
    decreases ks
  {
    if ks != {} {
      var k := Pick(ks);
      DotScaleRight(g1[k], g2[k], c);
      SumDotsScaleRight(g1, g2, h, c, ks - {k});
    }
  }

  /** A non-empty gradient is orthogonal to its zeroed copy; an empty one cannot be dotted. */
  lemma DotWithZeroGrad(g: Grad)
    ensures GradDot(g, ZeroGrad(g)) == if |g| == 0 then Err(EmptyDot) else Ok(0.0)
  {
    var z := ZeroGrad(g);
    if |g| > 0 {
      SumDotsZero(g, z, g.Keys);
    }
  }

  /** A gradient passes the all-zeros test exactly when zeroing it changes nothing. */
  lemma AllZerosIffZeroFixed(g: Grad)
    ensures AllZeros(g) <==> ZeroGrad(g) == g
  {
    var z := ZeroGrad(g);
    if AllZeros(g) {
      forall k | k in g ensures z[k] == g[k] {
        assert |z[k]| == |g[k]|;
      }
    }
    if z == g {
      forall k, i | k in g && 0 <= i < |g[k]| ensures g[k][i] == 0.0 {
        assert g[k][i] == z[k][i];
      }
    }
  }

  /** Subtracting what was just added restores the destination. */
  lemma AddThenSub(dst: Grad, src: Grad)
    requires Covers(dst, src)
    ensures SubFromGrad(AddToGrad(dst, src), src) == dst
  {
    var a := AddToGrad(dst, src);
    var s := SubFromGrad(a, src);
    forall k | k in dst ensures s[k] == dst[k] {
      assert |s[k]| == |dst[k]|;
      forall i | 0 <= i < |dst[k]| ensures s[k][i] == dst[k][i] {
        assert s[k][i] == a[k][i] - src[k][i] == dst[k][i] + src[k][i] - src[k][i];
      }
    }
  }

  /** Subtracting two gradients in turn is subtracting their sum. */
  lemma SubThenSub(d: Grad, u: Grad, v: Grad)
    requires Covers(d, u) && Covers(u, v)
    ensures Covers(d, v)
    ensures SubFromGrad(SubFromGrad(d, u), v) == SubFromGrad(d, AddToGrad(u, v))
  {
    var lhs := SubFromGrad(SubFromGrad(d, u), v);
    var rhs := SubFromGrad(d, AddToGrad(u, v));
    forall k | k in d ensures lhs[k] == rhs[k] {
      assert |lhs[k]| == |rhs[k]|;
    }
  }

  /** Subtracting an all-zero gradient changes nothing. */
  lemma SubZeroGrad(d: Grad, z: Grad)
    requires Covers(d, z)
    requires forall k, i :: k in z && 0 <= i < |z[k]| ==> z[k][i] == 0.0
    ensures SubFromGrad(d, z) == d
  {
    var r := SubFromGrad(d, z);
    forall k | k in d ensures r[k] == d[k] {
      assert |r[k]| == |d[k]|;
    }
  }

  /** Setting from a source of the same shape yields exactly that source. */
  lemma SetGradSameShape(dst: Grad, src: Grad)
    requires SameShape(dst, src)
    ensures SetGrad(dst, src) == src
  {
  }
}

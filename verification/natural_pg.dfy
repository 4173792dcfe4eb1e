/** `NaturalPG.run` and `NaturalPG.iters` (anypg/natural_pg.go): the
    zero-gradient short-circuit in front of the conjugate-gradients solve.

    The policy-gradient estimate, the rollout reduction and the Fisher-vector
    product on the reduced rollouts come from collaborators whose behaviour is
    not modelled: the estimate is an input, and the product is the operator
    `A`. */
module NaturalPG {
  import opened Outcomes
  import opened GradAlgebra
  import opened ConjGrad

  /** Iterations used when the configuration leaves the count at zero. */
  const DefaultConjGradIters: int := 10

  /** The iteration count: the configured one unless it is zero. */
  function Iters(configured: int): (n: int)
    ensures n != 0
    ensures configured != 0 ==> n == configured
    ensures configured == 0 ==> n == DefaultConjGradIters
  {
    if configured != 0 then configured else DefaultConjGradIters
  }

  /** The gradient handed back, whether the solve was skipped, and the events
      of the solve. */
  datatype NaturalRes = NaturalRes(grad: Grad, zeroGrad: bool, events: seq<Event>)

  /** An empty or all-zero estimate skips the solve. */
  predicate Skips(g: Grad) {
    |g| == 0 || AllZeros(g)
  }

  /** `run`: returns an empty or all-zero estimate untouched and flagged;
      otherwise the solve overwrites the estimate with the natural gradient. */
  ghost function Run(A: Grad -> Grad, g: Grad, configured: int): (res: NaturalRes)
    requires || Skips(g) || Iters(configured) < 0
             || (ShapePreserving(A, g) && Nondegenerate(A, g, CgInit(g), Iters(configured)))
    ensures res.zeroGrad <==> Skips(g)
    ensures res.zeroGrad ==> res.grad == g && res.events == []
    ensures !res.zeroGrad ==>
      && SameShape(res.grad, g)
      && |res.events| == 2 * Max0(Iters(configured))
      && Alternating(res.events)
  {
    if Skips(g) then NaturalRes(g, true, [])
    else
      var sol := CgSolve(A, g, Iters(configured));
      NaturalRes(sol.value.grad, false, sol.value.events)
  }

  /** A negative configuration never enters the loop: the estimate comes back
      all zeros on its own keys, and the operator is never applied. */
  lemma NegativeItersZeroGrad(A: Grad -> Grad, g: Grad, configured: int)
    requires !Skips(g) && configured < 0
    ensures Run(A, g, configured) == NaturalRes(ZeroGrad(g), false, [])
  {
    ZeroIterations(A, g, Iters(configured));
  }
}

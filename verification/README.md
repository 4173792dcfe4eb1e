# Natural policy gradients: a Dafny model of the solver's bookkeeping

This project models the core of `anypg/natural_pg.go` from anyrl, the part of
natural policy gradients that is not automatic differentiation:

- **Gradient algebra** (`GradAlgebra`, over `Vectors`): a gradient is a finite
  map from a parameter handle to a dense vector. `copyGrad`, `zeroGrad`,
  `dotGrad`, `addToGrad`, `subFromGrad`, `setGrad`, `allZeros` and the
  library's `Scale` become pure functions returning a new map. `dotGrad` is a
  method that visits the keys in an arbitrary order, like a Go `range` over a
  map, and fails with `EmptyDot` on an empty gradient. It is proved equal to
  an order-free ghost sum.
- **Conjugate gradients** (`ConjGrad`): `conjugateGradients` solves `F x = g`.
  The damped Fisher-vector product is an opaque operator `A: Grad -> Grad`.
  The loop is a recursive step function over the iteration count. Every
  iteration logs its two side effects as events: the rewind of the
  replayable policy output (`Reuse`), then one Fisher-vector product on the
  current direction (`ApplyFisher`).
- **Key bookkeeping of the Fisher-vector product** (`FisherProduct`):
  - `makeFwd` pairs clone parameters with the originals by position and seeds
    their tangents;
  - `applyFisher` selects its output keys and adds the damping term;
  - `surrogateGrad.Use` renames a forward-mode gradient back to the original
    parameters and aborts on a "superfluous" variable.
- **Orchestration** (`NaturalPG`): `iters()` with its default of ten, and the
  zero-gradient short-circuit of `run` in front of the solve.

Gradients are immutable values, so the Go code's in-place updates become new
maps. Its defensive copies are the identity. Three of the code's fatal
conditions become the `Err` cases of `Outcomes.Result`:

- the empty dot product;
- the superfluous gradient variable;
- the clone with more parameters than the original.

The other panics are excluded by `requires` clauses or left out (see
"## Left out"). Exact `real` arithmetic stands in for the numeric backend.
Every division the solver performs must therefore have a non-zero divisor;
the predicate `ConjGrad.Nondegenerate` states this.

The solver has no early exit, and the model follows it. Take the operator
`A = diag(2, 1)` and the gradient `b = (1, 0)`:

- one iteration returns `(0.5, 0)`, by `ConjGrad.EigenOneIteration`, which
  covers every gradient that is an eigenvector of the operator;
- that iteration leaves the residual exactly zero, so a second iteration
  computes `0 / 0` for its step length, by
  `ConjGrad.EigenSecondIterationDegenerate`.

In floating point that quotient is NaN. Asking for two or more iterations on
this input therefore does not return `(0.5, 0)`.

## Model

| member | source | states |
|---|---|---|
| `GradAlgebra.CopyGrad` | anypg/natural_pg.go:359-365 | the copy has exactly the input's keys and an equal vector under each |
| `GradAlgebra.ZeroGrad` | anypg/natural_pg.go:367-371 | same keys and vector lengths as the input, every entry zero |
| `GradAlgebra.ScaleGrad` | anypg/natural_pg.go:138-139 | same shape, every entry multiplied by the scalar |
| `GradAlgebra.AddToGrad` | anypg/natural_pg.go:389-393 | `dst`'s shape is kept and each entry becomes `dst + src`; keys only in `src` are ignored; `src` must hold every `dst` key at the same length |
| `GradAlgebra.SubFromGrad` | anypg/natural_pg.go:395-399 | `dst`'s shape is kept and each entry becomes `dst - src`, under the same demand on `src` |
| `GradAlgebra.SetGrad` | anypg/natural_pg.go:401-405 | `dst`'s keys are kept and each vector becomes `src`'s vector for that key |
| `GradAlgebra.AllZeros` | anypg/natural_pg.go:407-417 | true iff every entry of every vector is zero, which holds vacuously on the empty map |
| `Vectors.AbsSumZeroIff` | anypg/natural_pg.go:409-412 | a vector's absolute sum is exactly zero iff every entry is zero |
| `GradAlgebra.AllZerosIffZeroFixed` | anypg/natural_pg.go:407-417 | the all-zeros test holds iff zeroing the gradient changes nothing |
| `GradAlgebra.DotGrad` | anypg/natural_pg.go:373-387 | fails with `EmptyDot` iff `g1` is empty; otherwise, whatever order the keys are visited in, returns the sum over `g1`'s keys of the per-key dot products with `g2` |
| `GradAlgebra.SumDotsRemove` | anypg/natural_pg.go:375-382 | the sum of per-key dot products does not depend on which key is accumulated first |
| `GradAlgebra.DotWithZeroGrad` | anypg/natural_pg.go:373-387 | a non-empty gradient dotted with its zeroed copy is 0; an empty one is the `EmptyDot` failure |
| `GradAlgebra.AddThenSub` | anypg/natural_pg.go:389-399 | subtracting what was just added restores the destination |
| `GradAlgebra.SubThenSub` | anypg/natural_pg.go:395-399 | subtracting two gradients in turn equals subtracting their sum |
| `GradAlgebra.SubZeroGrad` | anypg/natural_pg.go:395-399 | subtracting an all-zero gradient changes nothing |
| `GradAlgebra.SetGradSameShape` | anypg/natural_pg.go:401-405 | setting from a source of the same shape yields that source |
| `ConjGrad.InitTracks` | anypg/natural_pg.go:118-127 | for a linear operator, the starting state `x = 0`, `r = p = b`, `rr = b·b` satisfies `r = b - A x` and `rr = r·r` |
| `ConjGrad.CgStep` | anypg/natural_pg.go:129-156 | one iteration keeps every gradient of the state shaped like `b` |
| `ConjGrad.CgStepEquations` | anypg/natural_pg.go:130-155 | one iteration, entry by entry: `x' = x + alpha p`, `r' = r - alpha Ap` with `alpha = rr / (p·Ap)`, `rr' = r'·r'`, `p' = r' + beta p` with `beta = rr' / rr`; it logs one rewind, then one product on the old `p` |
| `ConjGrad.StepTracks` | anypg/natural_pg.go:137-149 | for a linear operator, one iteration preserves `r = b - A x` and `rr = r·r` |
| `ConjGrad.CgIter` | anypg/natural_pg.go:129-156 | `n` iterations keep the shape, keep the events already logged, append `2 max(n, 0)` events alternating rewind and product, and preserve `r = b - A x` for a linear operator |
| `ConjGrad.CgSolve` | anypg/natural_pg.go:108-159 | fails with `EmptyDot` iff the gradient is empty; otherwise the result keeps the gradient's keys and lengths, and the operator is applied exactly once per iteration, each time right after a rewind |
| `ConjGrad.CgRun` | anypg/natural_pg.go:129-158 | the loop followed by `setGrad` keeps the gradient's keys and lengths and logs one rewind and product pair per iteration; the operator is constrained only when the count is positive |
| `ConjGrad.ZeroIterations` | anypg/natural_pg.go:118-158 | with a non-positive count the loop never runs, so for any operator a non-empty gradient comes back all zeros on its own keys with no events |
| `ConjGrad.SolveResidual` | anypg/natural_pg.go:108-159 | for a linear operator, the returned gradient `x` leaves exactly the residual the solver tracked: `b - A x = r` with `rr = r·r` |
| `ConjGrad.EigenInit` | anypg/natural_pg.go:118-127 | when `A b = c b` with `c != 0` and `b·b != 0`, the starting state has curvature `c rr` and a zero estimate |
| `ConjGrad.StepLength` | anypg/natural_pg.go:134-135 | when `p·Ap = c rr`, the step length is defined and equals `1 / c` |
| `ConjGrad.StepFromZeroEstimate` | anypg/natural_pg.go:134-140 | from a zero estimate along an eigen-direction, one step lands on `x = p / c` |
| `ConjGrad.StepResidualZero` | anypg/natural_pg.go:142-147 | when `A p = c r`, one step leaves every residual vector exactly zero and `rr = 0` |
| `ConjGrad.EigenOneIteration` | anypg/natural_pg.go:119-158 | when `A b = c b`, one iteration returns `b / c` and logs one rewind and one product on `b` |
| `ConjGrad.EigenSecondIterationDegenerate` | anypg/natural_pg.go:146-148 | when `A b = c b`, a second iteration would divide by `rr = 0` |
| `FisherProduct.Pairing` | anypg/natural_pg.go:225-229 | the pairing's keys are exactly the clone parameters, each mapped to the original at one of its positions |
| `FisherProduct.Seeds` | anypg/natural_pg.go:225-233 | exactly the clone parameters whose original has a direction vector are seeded, each with that vector |
| `FisherProduct.MakeFwd` | anypg/natural_pg.go:217-236 | fails iff the clone has more parameters than the original; otherwise the pairing covers every clone parameter |
| `FisherProduct.PairingByPosition` | anypg/natural_pg.go:227-229 | with distinct clone parameters, the i-th clone parameter is paired with the i-th original |
| `FisherProduct.PairingInjective` | anypg/natural_pg.go:225-229 | distinct originals make the pairing one-to-one |
| `FisherProduct.SeedsFollowPairing` | anypg/natural_pg.go:225-233 | a clone parameter is seeded iff its paired original has a direction vector, and then with exactly that vector |
| `FisherProduct.SlotsAreSeeded` | anypg/natural_pg.go:183-188 | the slots of the pairing built from the direction are exactly its seeded parameters |
| `FisherProduct.Damped` | anypg/natural_pg.go:197-201 | an output entry is the tangent, plus `damping` times the direction entry only when `damping > 0` |
| `FisherProduct.ApplyFisher` | anypg/natural_pg.go:194-205 | the output's keys are exactly the originals that are paired and in the direction; each entry is a damped tangent of one of its slots (its own slot when the pairing is one-to-one); the output is shaped like the direction when every direction key is paired |
| `FisherProduct.ApplyFisherShape` | anypg/natural_pg.go:194-205 | when every direction key has a partner, the product is shaped like the direction |
| `FisherProduct.SurrogateUse` | anypg/natural_pg.go:345-357 | fails with `SuperfluousVariable` iff some key has no original; otherwise the keys are the renamed keys and each entry is a tangent of one preimage; under a one-to-one renaming the entry count is kept and each entry is its own key's tangent |
| `FisherProduct.ImageSize` | anypg/natural_pg.go:348-353 | a renaming that is one-to-one on the keys keeps their number |
| `NaturalPG.Iters` | anypg/natural_pg.go:238-244 | the configured count when it is non-zero, otherwise the default of ten; never zero |
| `NaturalPG.Run` | anypg/natural_pg.go:74-106 | an empty or all-zero estimate comes back unchanged and flagged, with no solve and no products; otherwise the result is shaped like the estimate, with one rewind and product pair per iteration |
| `NaturalPG.NegativeItersZeroGrad` | anypg/natural_pg.go:129-158 | a negative configuration never enters the loop: for any operator, an estimate that is neither empty nor all zeros comes back all zeros with no events |

## Left out

- Forward-mode automatic differentiation (`anyfwd`), the KL divergence of the
  action space, the policy-gradient estimator `PG`, `Reduce` and
  `Regularizer` are external libraries or collaborators. The product
  `applyFisher` computes is the operator `A`. The propagated tangents are an
  input of `FisherProduct.ApplyFisher`. The base estimate is an input of
  `NaturalPG.Run`.
- `run`'s optional reduction of the rollouts (anypg/natural_pg.go:97-101)
  only changes which rollouts the operator `A` is built from, so it is part
  of the choice of `A`.
- `apply`, `serializer.Copy` and BPTT (anypg/natural_pg.go:208-222) are
  wrappers over unseen libraries. `Reuse()` is modelled as an event only.
- `makeFwdTape.ReadTape` and `unfwdRereader.Propagate`
  (anypg/natural_pg.go:271-285, 319-338) are goroutine and channel plumbing.
- Floating point: exact reals replace the backend, so `ops.Identical` is
  exact equality with zero and overflow does not arise.
- Pointer identity of `*anydiff.Var` is modelled as `ParamId` equality.
- `ConjGrad.CgSolve`: requires every divisor of the run to be non-zero
  (`Nondegenerate`). The code divides anyway and returns non-finite values,
  which exact reals cannot represent. `ConjGrad.CgIter` and `NaturalPG.Run`
  carry the same requirement.
- `GradAlgebra.DotGrad`: requires `g2` to hold every key of `g1` at the same
  length. The code dereferences a missing vector, or the vector library
  rejects the length mismatch. `AddToGrad`, `SubFromGrad` and `SetGrad`
  carry the same requirement.
- `FisherProduct.ApplyFisher`: requires back-propagation to have produced
  a tangent for every slot, as long as the direction's vector. The code
  allocates every slot before propagating, and the clone has the original's
  shapes.
- `FisherProduct.SurrogateUse`: keeping the number of entries is proved
  only for a renaming that is one-to-one on the gradient's keys. When two
  forward variables share an original, the Go map keeps one of their
  tangents. `FisherProduct.PairingInjective` shows that the pairing
  `makeFwd` builds is one-to-one when the original parameters are distinct.
- `FisherProduct.MakeFwd`: the index past the end of the original parameter
  list, a Go runtime panic, is the `ParamCountMismatch` error.
- `ConjGrad.CgSolve`: the copies the code makes to avoid aliasing
  (anypg/natural_pg.go:122-125, 138, 153) are invisible with immutable
  values. The order of the in-place `Scale` calls is therefore not modelled.
- `ConjGrad.CgSolve`: convergence is not proved in general. The code solves
  `F x = g` (anypg/natural_pg.go:113-114). The model proves an exact solve
  only for a gradient that is an eigenvector of the operator, in one
  iteration. Neither residual orthogonality nor conjugacy of the directions
  is proved for a symmetric operator. One consequence is not proved here:
  with exact reals and a symmetric operator, such as the damped Fisher
  product, the residuals are mutually orthogonal. So
  `Nondegenerate(A, b, CgInit(b), n)` cannot hold once `n` exceeds the
  number of scalar entries of `b`. For a gradient with fewer than ten
  entries, `NaturalPG.Run` with the default count then says nothing.
- `ConjGrad.ShapePreserving`: the solver requires the operator to map every
  gradient shaped like `b` to one of the same shape. If a gradient key has
  no policy partner, `applyFisher` leaves it out of its result. The dot
  product at anypg/natural_pg.go:135 then dereferences a missing vector and
  panics. The model excludes that case instead of representing the panic.
  It does so only on the paths that reach the loop body.
  - `ConjGrad.CgSolve` demands this only of a non-empty gradient and a
    positive count.
  - `NaturalPG.Run` demands it only when the solve is not skipped and the
    count is positive.

  So the short-circuit and the zero-iteration result hold for any
  operator. `FisherProduct.ApplyFisherShape` shows that the product has the right
  shape when every key has a partner.
- Every `*anyfwd.Vector` type assertion (anypg/natural_pg.go:178, 197,
  231, 279, 328, 352) and the panic it could raise is not modelled.
- `GradAlgebra.SumDotsRemove`: the sum is independent of key order only for
  exact reals. With the backend's floating point, the sum at
  anypg/natural_pg.go:375-382 depends on Go's randomized map order through
  rounding.
- `FisherProduct.SurrogateUse`: Go hands `f` the forward gradient's own
  `Jacobian[0]` vectors (anypg/natural_pg.go:352). The regular backward pass
  accumulates through them into the tangents that `applyFisher` reads at
  anypg/natural_pg.go:197. That write-back through shared vectors is not
  modelled. The model returns a value copy, and the `grads` input of
  `FisherProduct.ApplyFisher` stands for the result of that accumulation.

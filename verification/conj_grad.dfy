/** The conjugate-gradients solve of `NaturalPG.conjugateGradients`
    (anypg/natural_pg.go): `F x = b` for the base gradient `b`, with the damped
    Fisher-vector product available only as an operator `A`.

    The solver is a recursive step function over an iteration count.  Gradients
    are immutable values, so the Go code's defensive `copyGrad` calls are the
    identity here.  Exact real arithmetic stands in for the backend's floating
    point, so every division must have a non-zero divisor (`Nondegenerate`). */
module ConjGrad {
  import opened Outcomes
  import opened Vectors
  import opened GradAlgebra

  /** What one iteration does besides arithmetic: rewind the replayable policy
      output, then ask for one Fisher-vector product on a direction. */
  datatype Event = Reuse | ApplyFisher(direction: Grad)

  /** Solver state: estimate `x`, residual `r`, search direction `p`, the
      running `rr`, and the events issued so far. */
  datatype CgState = CgState(x: Grad, r: Grad, p: Grad, rr: real, events: seq<Event>)

  /** What the solver hands back: the new contents of the gradient, and the events. */
  datatype Solution = Solution(grad: Grad, events: seq<Event>)

  /** The operator maps every gradient shaped like `b` to one shaped like `b`
      (otherwise the Go code would dot or add against a missing vector). */
  ghost predicate ShapePreserving(A: Grad -> Grad, b: Grad) {
    forall g {:trigger A(g)} :: SameShape(g, b) ==> SameShape(A(g), b)
  }

  predicate Shaped(s: CgState, b: Grad) {
    SameShape(s.x, b) && SameShape(s.r, b) && SameShape(s.p, b)
  }

  /** `p·Ap`, the divisor of the step length. */
  ghost function Curvature(A: Grad -> Grad, b: Grad, s: CgState): real
    requires ShapePreserving(A, b) && Shaped(s, b)
  {
    SumDots(s.p, A(s.p), b.Keys)
  }

  /** Both divisions of one iteration have a non-zero divisor. */
  ghost predicate StepDefined(A: Grad -> Grad, b: Grad, s: CgState)
    requires ShapePreserving(A, b) && Shaped(s, b)
  {
    s.rr != 0.0 && Curvature(A, b, s) != 0.0
  }

  /** Before the loop: `x = 0`, `r = b`, `p = b`, `rr = b·b`. */
  ghost function CgInit(b: Grad): (s: CgState)
    ensures Shaped(s, b)
  {
    CgState(ZeroGrad(b), b, b, SumDots(b, b, b.Keys), [])
  }

  /** One pass of the loop body. */
  ghost function CgStep(A: Grad -> Grad, b: Grad, s: CgState): (t: CgState)
    requires ShapePreserving(A, b) && Shaped(s, b) && StepDefined(A, b, s)
    ensures Shaped(t, b)
  {
    var appliedProj := A(s.p);
    var alpha := s.rr / Curvature(A, b, s);
    var x := AddToGrad(s.x, ScaleGrad(s.p, alpha));
    var r := SubFromGrad(s.r, ScaleGrad(appliedProj, alpha));
    var newRr := SumDots(r, r, b.Keys);
    var beta := newRr / s.rr;
    var p := AddToGrad(r, ScaleGrad(s.p, beta));
    CgState(x, r, p, newRr, s.events + [Reuse, ApplyFisher(s.p)])
  }

  /** Every one of the next `n` iterations starting from `s` has non-zero divisors. */
  ghost predicate Nondegenerate(A: Grad -> Grad, b: Grad, s: CgState, n: int)
    requires ShapePreserving(A, b) && Shaped(s, b)
    decreases n
  {
    n <= 0 || (StepDefined(A, b, s) && Nondegenerate(A, b, CgStep(A, b, s), n - 1))
  }

  function Max0(n: int): nat {
    if n > 0 then n else 0
  }

  /** `n` iterations from `s`; a non-positive `n` runs none.  Each iteration
      appends exactly one `Reuse` followed by exactly one Fisher-vector product,
      and the events already logged are kept. */
  ghost function CgIter(A: Grad -> Grad, b: Grad, s: CgState, n: int): (t: CgState)
    requires ShapePreserving(A, b) && Shaped(s, b) && Nondegenerate(A, b, s, n)
    ensures Shaped(t, b)
    ensures |t.events| == |s.events| + 2 * Max0(n)
    ensures t.events[..|s.events|] == s.events
    ensures Alternating(t.events[|s.events|..])
    ensures Linear(A, b) && Tracks(A, b, s) ==> Tracks(A, b, t)
    decreases n
  {
    if n <= 0 then
      assert s.events[|s.events|..] == [];
      s
    else
      var s' := CgStep(A, b, s);
      var t := CgIter(A, b, s', n - 1);
      EventsExtend(s.events, s.p, s'.events, t.events, n - 1);
      if Linear(A, b) && Tracks(A, b, s) then
        StepTracks(A, b, s);
        t
      else
        t
  }

  /** Every even position is a `Reuse`, every odd one a Fisher product. */
  ghost predicate Alternating(evs: seq<Event>) {
    forall j :: 0 <= j < |evs| ==> (evs[j].Reuse? <==> j % 2 == 0)
  }

  /** If `mid` is `pre` followed by one iteration's two events, and `all` extends
      `mid` by `m` alternating pairs, then `all` extends `pre` by `m + 1` pairs. */
  lemma EventsExtend(pre: seq<Event>, p: Grad, mid: seq<Event>, all: seq<Event>, m: nat)
    requires mid == pre + [Reuse, ApplyFisher(p)]
    requires |all| == |mid| + 2 * m
    requires all[..|mid|] == mid
    requires Alternating(all[|mid|..])
    ensures |all| == |pre| + 2 * (m + 1)
    ensures all[..|pre|] == pre
    ensures Alternating(all[|pre|..])
  {
    var suffix := all[|mid|..];
    assert all == all[..|mid|] + suffix;
    assert all[|pre|..] == [Reuse, ApplyFisher(p)] + suffix;
    AlternatingCons(p, suffix);
  }

  lemma AlternatingCons(p: Grad, evs: seq<Event>)
    requires Alternating(evs)
    ensures Alternating([Reuse, ApplyFisher(p)] + evs)
  {
    var all := [Reuse, ApplyFisher(p)] + evs;
    forall j | 2 <= j < |all| ensures (all[j].Reuse? <==> j % 2 == 0) {
      assert all[j] == evs[j - 2];
      assert (j - 2) % 2 == j % 2;
    }
  }

  /** `conjugateGradients` with `n` the value of `iters()`: the dot product before
      the loop fails on an empty gradient; otherwise every vector of the gradient
      is overwritten with the estimate `x`.  The result keeps the gradient's
      keys and vector lengths, and the events are one `Reuse`/Fisher-product pair
      per iteration.  The operator is constrained only when the loop runs. */
  ghost function CgSolve(A: Grad -> Grad, b: Grad, n: int): (res: Result<Solution>)
    requires |b| == 0 || n <= 0 || (ShapePreserving(A, b) && Nondegenerate(A, b, CgInit(b), n))
    ensures res.Err? <==> |b| == 0
    ensures res.Err? ==> res.error == EmptyDot
    ensures res.Ok? ==> SameShape(res.value.grad, b)
    ensures res.Ok? ==> |res.value.events| == 2 * Max0(n) && Alternating(res.value.events)
  {
    if |b| == 0 then Err(EmptyDot) else Ok(CgRun(A, b, n))
  }

  /** The loop and the final `setGrad` of `conjugateGradients` on a non-empty
      gradient; with no iterations the estimate stays at zero and the operator
      is never applied. */
  ghost function CgRun(A: Grad -> Grad, b: Grad, n: int): (sol: Solution)
    requires n <= 0 || (ShapePreserving(A, b) && Nondegenerate(A, b, CgInit(b), n))
    ensures SameShape(sol.grad, b)
    ensures |sol.events| == 2 * Max0(n) && Alternating(sol.events)
  {
    if n <= 0 then Solution(SetGrad(b, ZeroGrad(b)), [])
    else
      var fin := CgIter(A, b, CgInit(b), n);
      assert fin.events == fin.events[0..];
      Solution(SetGrad(b, fin.x), fin.events)
  }

  /** The update equations of one iteration, entry by entry: with
      `alpha = rr / (p·Ap)` and `beta = rr' / rr`, `x' = x + alpha p`,
      `r' = r - alpha Ap`, `rr' = r'·r'`, `p' = r' + beta p`; the operator is
      applied to the old direction `p`, once. */
  lemma CgStepEquations(A: Grad -> Grad, b: Grad, s: CgState)
    requires ShapePreserving(A, b) && Shaped(s, b) && StepDefined(A, b, s)
    ensures var t := CgStep(A, b, s);
      var alpha := s.rr / SumDots(s.p, A(s.p), b.Keys);
      var beta := t.rr / s.rr;
      && t.rr == SumDots(t.r, t.r, b.Keys)
      && t.events == s.events + [Reuse, ApplyFisher(s.p)]
      && (forall k, i :: k in b && 0 <= i < |b[k]| ==>
            && t.x[k][i] == s.x[k][i] + alpha * s.p[k][i]
            && t.r[k][i] == s.r[k][i] - alpha * A(s.p)[k][i]
            && t.p[k][i] == t.r[k][i] + beta * s.p[k][i])
  {
  }

  /** With zero (or fewer) iterations, a non-empty gradient comes back all zeros
      on its own keys and the operator is never used. */
  lemma ZeroIterations(A: Grad -> Grad, b: Grad, n: int)
    requires |b| > 0 && n <= 0
    ensures CgSolve(A, b, n) == Ok(Solution(ZeroGrad(b), []))
  {
    SetGradSameShape(b, ZeroGrad(b));
  }

  /** `A` is linear on gradients shaped like `b` (as the damped Fisher product
      is): it maps `g + c h` to `A g + c A h`. */
  ghost predicate Linear(A: Grad -> Grad, b: Grad) {
    && ShapePreserving(A, b)
    && forall g, h, c {:trigger A(AddToGrad(g, ScaleGrad(h, c)))} ::
         SameShape(g, b) && SameShape(h, b) ==>
         A(AddToGrad(g, ScaleGrad(h, c))) == AddToGrad(A(g), ScaleGrad(A(h), c))
  }

  /** The state's residual and `rr` are what their names promise:
      `r = b - A x` and `rr = r·r`. */
  ghost predicate Tracks(A: Grad -> Grad, b: Grad, s: CgState)
    requires ShapePreserving(A, b) && Shaped(s, b)
  {
    s.r == SubFromGrad(b, A(s.x)) && s.rr == SumDots(s.r, s.r, b.Keys)
  }

  /** A linear operator sends the zero gradient to itself. */
  lemma LinearZero(A: Grad -> Grad, b: Grad)
    requires Linear(A, b)
    ensures A(ZeroGrad(b)) == ZeroGrad(b)
  {
    var z := ZeroGrad(b);
    var z2 := AddToGrad(z, ScaleGrad(z, 1.0));
    forall k | k in z ensures z2[k] == z[k] {
      assert |z2[k]| == |z[k]|;
    }
    assert z2 == z;
    var az := A(z);
    assert az == AddToGrad(az, ScaleGrad(az, 1.0));
    forall k | k in az ensures az[k] == z[k] {
      forall i | 0 <= i < |az[k]| ensures az[k][i] == 0.0 {
        assert az[k][i] == az[k][i] + 1.0 * az[k][i];
      }
    }
  }

  /** Before the first iteration the state tracks its residual. */
  lemma {:induction false} InitTracks(A: Grad -> Grad, b: Grad)
    requires Linear(A, b)
    ensures Tracks(A, b, CgInit(b))
  {
    LinearZero(A, b);
    SubZeroGrad(b, ZeroGrad(b));
  }

  /** One iteration keeps `r = b - A x` and `rr = r·r`. */
  lemma {:induction false} StepTracks(A: Grad -> Grad, b: Grad, s: CgState)
    requires Linear(A, b) && Shaped(s, b) && StepDefined(A, b, s)
    requires Tracks(A, b, s)
    ensures Tracks(A, b, CgStep(A, b, s))
  {
    var t := CgStep(A, b, s);
    var alpha := s.rr / Curvature(A, b, s);
    var ap := A(s.p);
    assert t.x == AddToGrad(s.x, ScaleGrad(s.p, alpha));
    assert t.r == SubFromGrad(s.r, ScaleGrad(ap, alpha));
    assert A(t.x) == AddToGrad(A(s.x), ScaleGrad(ap, alpha));
    SubThenSub(b, A(s.x), ScaleGrad(ap, alpha));
  }

  /** For a linear operator the returned gradient `x` leaves exactly the
      residual the solver tracked: `b - A x = r`, with `rr = r·r`. */
  lemma SolveResidual(A: Grad -> Grad, b: Grad, n: int)
    requires Linear(A, b) && |b| > 0 && Nondegenerate(A, b, CgInit(b), n)
    ensures var fin := CgIter(A, b, CgInit(b), n);
      && CgSolve(A, b, n).value.grad == fin.x
      && SubFromGrad(b, A(fin.x)) == fin.r
      && fin.rr == SumDots(fin.r, fin.r, b.Keys)
  {
    var fin := CgIter(A, b, CgInit(b), n);
    InitTracks(A, b);
    SetGradSameShape(b, ZeroGrad(b));
    SetGradSameShape(b, fin.x);
  }

  /** The state's direction is an eigenvector of the operator for a non-zero
      eigenvalue `c` that maps it onto `c` times the residual, its `rr` is
      non-zero, and its estimate is zero: what the first iteration sees when
      `A b = c b`. */
  ghost predicate EigenStart(A: Grad -> Grad, b: Grad, s: CgState, c: real)
    requires ShapePreserving(A, b) && Shaped(s, b)
  {
    && c != 0.0 && s.rr != 0.0
    && Curvature(A, b, s) == c * s.rr
    && A(s.p) == ScaleGrad(s.r, c)
    && forall k, i :: k in b && 0 <= i < |b[k]| ==> s.x[k][i] == 0.0
  }

  /** When `b` is an eigenvector of the operator, `A b = c b` with `c != 0`,
      and `b·b != 0`, the starting state is such a state. */
  lemma EigenInit(A: Grad -> Grad, b: Grad, c: real)
    requires ShapePreserving(A, b) && A(b) == ScaleGrad(b, c)
    requires c != 0.0 && SumDots(b, b, b.Keys) != 0.0
    ensures EigenStart(A, b, CgInit(b), c)
  {
    SumDotsScaleRight(b, b, A(b), c, b.Keys);
  }

  /** When the curvature is `c` times `rr`, for non-zero `c` and `rr`, both
      divisors of the step are non-zero and the step length is `1 / c`. */
  lemma StepLength(A: Grad -> Grad, b: Grad, s: CgState, c: real)
    requires ShapePreserving(A, b) && Shaped(s, b)
    requires c != 0.0 && s.rr != 0.0 && Curvature(A, b, s) == c * s.rr
    ensures StepDefined(A, b, s)
    ensures s.rr / Curvature(A, b, s) == 1.0 / c
  {
    RatioCancel(s.rr, Curvature(A, b, s), c);
  }

  lemma CancelEntry(v: real, av: real, alpha: real, c: real)
    requires c != 0.0 && alpha == 1.0 / c && av == c * v
    ensures v - alpha * av == 0.0
  {
  }

  lemma RatioCancel(x: real, y: real, c: real)
    requires x != 0.0 && c != 0.0 && y == c * x
    ensures y != 0.0 && x / y == 1.0 / c
  {
  }

  /** A step from a zero estimate whose direction the operator scales by `c`
      lands on `x = p / c`, */
  lemma StepFromZeroEstimate(A: Grad -> Grad, b: Grad, s: CgState, c: real)
    requires ShapePreserving(A, b) && Shaped(s, b) && EigenStart(A, b, s, c)
    ensures StepDefined(A, b, s)
    ensures CgStep(A, b, s).x == ScaleGrad(s.p, 1.0 / c)
  {
    StepLength(A, b, s, c);
    var t := CgStep(A, b, s);
    var want := ScaleGrad(s.p, 1.0 / c);
    forall k | k in b ensures t.x[k] == want[k] {
      assert |t.x[k]| == |want[k]|;
    }
  }

  /** ... and leaves an exactly zero residual. */
  lemma StepResidualZero(A: Grad -> Grad, b: Grad, s: CgState, c: real)
    requires ShapePreserving(A, b) && Shaped(s, b) && EigenStart(A, b, s, c)
    ensures StepDefined(A, b, s)
    ensures forall k :: k in b ==> IsZero(CgStep(A, b, s).r[k])
    ensures CgStep(A, b, s).rr == 0.0
  {
    StepLength(A, b, s, c);
    var t := CgStep(A, b, s);
    ResidualCancels(s.r, A(s.p), s.rr / Curvature(A, b, s), c);
    SumDotsZero(t.r, t.r, b.Keys);
  }

  /** Removing `1 / c` times `c r` from `r` leaves zero under every key. */
  lemma ResidualCancels(r: Grad, ar: Grad, alpha: real, c: real)
    requires c != 0.0 && alpha == 1.0 / c && ar == ScaleGrad(r, c)
    ensures forall k :: k in r ==> IsZero(SubFromGrad(r, ScaleGrad(ar, alpha))[k])
  {
    var d := SubFromGrad(r, ScaleGrad(ar, alpha));
    forall k | k in r ensures IsZero(d[k]) {
      forall i | 0 <= i < |d[k]| ensures d[k][i] == 0.0 {
        CancelEntry(r[k][i], ar[k][i], alpha, c);
      }
    }
  }

  /** An eigenvector right-hand side is solved by one iteration, */
  lemma EigenOneIteration(A: Grad -> Grad, b: Grad, c: real)
    requires ShapePreserving(A, b) && |b| > 0 && A(b) == ScaleGrad(b, c)
    requires c != 0.0 && SumDots(b, b, b.Keys) != 0.0
    ensures Nondegenerate(A, b, CgInit(b), 1)
    ensures CgSolve(A, b, 1) == Ok(Solution(ScaleGrad(b, 1.0 / c), [Reuse, ApplyFisher(b)]))
  {
    EigenInit(A, b, c);
    var s := CgInit(b);
    StepFromZeroEstimate(A, b, s, c);
    var t := CgStep(A, b, s);
    assert CgIter(A, b, s, 1) == t;
    SetGradSameShape(b, t.x);
  }

  /** ... and a second iteration would divide by the zero `rr`: the loop has no
      early exit, so asking for more iterations leaves the exact model (in
      floating point the estimate becomes NaN). */
  lemma EigenSecondIterationDegenerate(A: Grad -> Grad, b: Grad, c: real)
    requires ShapePreserving(A, b) && A(b) == ScaleGrad(b, c)
    requires c != 0.0 && SumDots(b, b, b.Keys) != 0.0
    ensures !Nondegenerate(A, b, CgInit(b), 2)
  {
    EigenInit(A, b, c);
    StepResidualZero(A, b, CgInit(b), c);
  }
}

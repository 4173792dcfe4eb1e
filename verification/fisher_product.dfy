/** The key bookkeeping around one Fisher-vector product (`makeFwd`,
    `applyFisher` and `surrogateGrad.Use` in anypg/natural_pg.go).

    The product itself runs the policy in forward-mode autodiff: a clone of the
    policy whose parameters carry one tangent each, seeded with the direction
    being multiplied.  Here the clone's parameters and the original's are two
    lists of `ParamId`s, a forward-mode vector is a `Dual` (its value and its
    single tangent), and what back-propagation accumulates is an input. */
module FisherProduct {
  import opened Outcomes
  import opened Vectors
  import opened GradAlgebra

  /** A forward-mode vector with one tangent (`Jacobian[0]`). */
  datatype Dual = Dual(value: Vec, tangent: Vec)

  /** The forward-mode clone as `makeFwd` leaves it: each clone parameter's
      original, and the tangents it seeded (every other tangent stays zero). */
  datatype FwdClone = FwdClone(newToOld: map<ParamId, ParamId>, seeds: map<ParamId, Vec>)

  predicate Distinct(ps: seq<ParamId>) {
    forall i, j :: 0 <= i < j < |ps| ==> ps[i] != ps[j]
  }

  /** No two keys share an image. */
  predicate Injective(m: map<ParamId, ParamId>) {
    forall a, b :: a in m && b in m && m[a] == m[b] ==> a == b
  }

  /** No two of the keys `ks` share an image under `m`. */
  predicate InjectiveOn(m: map<ParamId, ParamId>, ks: set<ParamId>) {
    forall a, b :: a in ks && b in ks && a in m && b in m && m[a] == m[b] ==> a == b
  }

  // ---------------------------------------------------------------------------
  // makeFwd

  /** The clone-to-original map built by walking both parameter lists in step;
      a clone parameter listed twice keeps its last partner. */
  function Pairing(fwd: seq<ParamId>, orig: seq<ParamId>): (m: map<ParamId, ParamId>)
    requires |fwd| <= |orig|
    ensures m.Keys == set i | 0 <= i < |fwd| :: fwd[i]
    ensures forall k :: k in m ==> exists i :: 0 <= i < |fwd| && fwd[i] == k && m[k] == orig[i]
    decreases |fwd|
  {
    if |fwd| == 0 then map[]
    else
      var n := |fwd| - 1;
      var m := Pairing(fwd[..n], orig);
      assert forall i :: 0 <= i < n ==> fwd[..n][i] == fwd[i];
      m[fwd[n] := orig[n]]
  }

  /** The tangents seeded in the clone: a clone parameter is seeded with the
      direction's vector for its partner, when the direction has one. */
  function Seeds(fwd: seq<ParamId>, orig: seq<ParamId>, derivs: Grad): (m: map<ParamId, Vec>)
    requires |fwd| <= |orig|
    ensures m.Keys == set i | 0 <= i < |fwd| && orig[i] in derivs :: fwd[i]
    ensures forall k :: k in m ==>
      exists i :: 0 <= i < |fwd| && fwd[i] == k && orig[i] in derivs && m[k] == derivs[orig[i]]
    decreases |fwd|
  {
    if |fwd| == 0 then map[]
    else
      var n := |fwd| - 1;
      var m := Seeds(fwd[..n], orig, derivs);
      assert forall i :: 0 <= i < n ==> fwd[..n][i] == fwd[i];
      if orig[n] in derivs then m[fwd[n] := derivs[orig[n]]] else m
  }

  /** `makeFwd`: pairs the clone's parameters with the original's by position
      and seeds the tangents; a clone with more parameters than the original
      indexes past the original's list. */
  function MakeFwd(fwd: seq<ParamId>, orig: seq<ParamId>, derivs: Grad): (r: Result<FwdClone>)
    ensures r.Err? <==> |fwd| > |orig|
    ensures r.Err? ==> r.error == ParamCountMismatch
    ensures r.Ok? ==> r.value.newToOld.Keys == set i | 0 <= i < |fwd| :: fwd[i]
  {
    if |fwd| > |orig| then Err(ParamCountMismatch)
    else Ok(FwdClone(Pairing(fwd, orig), Seeds(fwd, orig, derivs)))
  }

  /** With distinct clone parameters, the i-th is paired with the i-th original. */
  lemma {:induction false} PairingByPosition(fwd: seq<ParamId>, orig: seq<ParamId>, i: int)
    requires |fwd| <= |orig| && Distinct(fwd) && 0 <= i < |fwd|
    ensures Pairing(fwd, orig)[fwd[i]] == orig[i]
    decreases |fwd|
  {
    var n := |fwd| - 1;
    if i < n {
      assert fwd[..n][i] == fwd[i];
      PairingByPosition(fwd[..n], orig, i);
    }
  }

  /** Distinct originals give an injective pairing: renaming through it never
      merges two clone parameters. */
  lemma PairingInjective(fwd: seq<ParamId>, orig: seq<ParamId>)
    requires |fwd| <= |orig| && Distinct(orig)
    ensures Injective(Pairing(fwd, orig))
  {
    var m := Pairing(fwd, orig);
    forall a, b | a in m && b in m && m[a] == m[b] ensures a == b {
      var i :| 0 <= i < |fwd| && fwd[i] == a && m[a] == orig[i];
      var j :| 0 <= j < |fwd| && fwd[j] == b && m[b] == orig[j];
      assert i == j;
    }
  }

  /** With distinct clone parameters, a clone parameter is seeded exactly when
      its original has a direction vector, and then with that vector. */
  lemma SeedsFollowPairing(fwd: seq<ParamId>, orig: seq<ParamId>, derivs: Grad)
    requires |fwd| <= |orig| && Distinct(fwd)
    ensures var m := Pairing(fwd, orig);
      var s := Seeds(fwd, orig, derivs);
      && (forall k :: k in m ==> (k in s <==> m[k] in derivs))
      && (forall k :: k in s ==> s[k] == derivs[m[k]])
  {
    var m := Pairing(fwd, orig);
    var s := Seeds(fwd, orig, derivs);
    forall k | k in m ensures k in s <==> m[k] in derivs {
      var i :| 0 <= i < |fwd| && fwd[i] == k;
      PairingByPosition(fwd, orig, i);
      if k in s {
        var j :| 0 <= j < |fwd| && fwd[j] == k && orig[j] in derivs && s[k] == derivs[orig[j]];
        assert i == j;
      }
    }
    forall k | k in s ensures s[k] == derivs[m[k]] {
      var j :| 0 <= j < |fwd| && fwd[j] == k && orig[j] in derivs && s[k] == derivs[orig[j]];
      PairingByPosition(fwd, orig, j);
    }
  }

  // ---------------------------------------------------------------------------
  // applyFisher

  /** The clone parameters that get a gradient slot: those whose original is
      in the direction `v`. */
  function Slots(pairing: map<ParamId, ParamId>, v: Grad): set<ParamId> {
    set n | n in pairing && pairing[n] in v
  }

  /** One output entry: the propagated tangent, plus `damping` times the
      direction when the damping is positive. */
  function Damped(tangent: Vec, dir: Vec, damping: real): (e: Vec)
    requires |tangent| == |dir|
    ensures |e| == |tangent|
    ensures forall i :: 0 <= i < |e| ==>
      e[i] == if damping > 0.0 then tangent[i] + damping * dir[i] else tangent[i]
  {
    if damping > 0.0 then Add(tangent, Scale(dir, damping)) else tangent
  }

  /** The tangents back-propagation left in every slot, each as long as its
      original's direction vector (the clone has the original's shapes). */
  predicate Propagated(pairing: map<ParamId, ParamId>, v: Grad, grads: map<ParamId, Dual>) {
    forall n :: n in pairing && pairing[n] in v ==>
      n in grads && |grads[n].tangent| == |v[pairing[n]]|
  }

  /** `applyFisher`'s output: visits the slots in an arbitrary order and files
      each slot's damped tangent under its original parameter. */
  method ApplyFisher(pairing: map<ParamId, ParamId>, v: Grad, grads: map<ParamId, Dual>, damping: real)
    returns (out: Grad)
    requires Propagated(pairing, v, grads)
    ensures out.Keys == set n | n in pairing && pairing[n] in v :: pairing[n]
    ensures forall o :: o in out ==>
      exists n :: n in Slots(pairing, v) && pairing[n] == o
        && out[o] == Damped(grads[n].tangent, v[o], damping)
    ensures Injective(pairing) ==> forall n :: n in Slots(pairing, v) ==>
      out[pairing[n]] == Damped(grads[n].tangent, v[pairing[n]], damping)
    ensures (forall o :: o in v ==> exists n :: n in pairing && pairing[n] == o) ==> SameShape(out, v)
  {
    var slots := Slots(pairing, v);
    var todo := slots;
    out := map[];
    while todo != {}
      invariant todo <= slots
      invariant out.Keys == set n | n in slots - todo :: pairing[n]
      invariant forall o :: o in out ==>
        exists n :: n in slots - todo && pairing[n] == o
          && out[o] == Damped(grads[n].tangent, v[o], damping)
      decreases todo
    {
      var n :| n in todo;
      var o := pairing[n];
      out := out[o := Damped(grads[n].tangent, v[o], damping)];
      todo := todo - {n};
    }
    assert slots - todo == slots;
    if Injective(pairing) {
      forall n | n in slots
        ensures out[pairing[n]] == Damped(grads[n].tangent, v[pairing[n]], damping)
      {
        var o := pairing[n];
        assert o in out;
        var m :| m in slots && pairing[m] == o && out[o] == Damped(grads[m].tangent, v[o], damping);
      }
    }
    if forall o :: o in v ==> exists n :: n in pairing && pairing[n] == o {
      ApplyFisherShape(pairing, v, grads, damping, out);
    }
  }

  /** When every parameter of the direction has a clone partner, the product is
      shaped like the direction: the operator the solver needs. */
  lemma ApplyFisherShape(pairing: map<ParamId, ParamId>, v: Grad, grads: map<ParamId, Dual>,
                         damping: real, out: Grad)
    requires Propagated(pairing, v, grads)
    requires forall o :: o in v ==> exists n :: n in pairing && pairing[n] == o
    requires out.Keys == set n | n in pairing && pairing[n] in v :: pairing[n]
    requires forall o :: o in out ==>
      exists n :: n in Slots(pairing, v) && pairing[n] == o
        && out[o] == Damped(grads[n].tangent, v[o], damping)
    ensures SameShape(out, v)
  {
    forall o | o in v ensures o in out {
      var n :| n in pairing && pairing[n] == o;
      assert n in Slots(pairing, v);
    }
    forall o | o in out ensures o in v && |v[o]| == |out[o]| {
      var n :| n in Slots(pairing, v) && pairing[n] == o
        && out[o] == Damped(grads[n].tangent, v[o], damping);
    }
  }

  /** For the pairing `makeFwd` builds from the direction itself (distinct
      parameters on both sides), the slots are exactly the seeded parameters. */
  lemma SlotsAreSeeded(fwd: seq<ParamId>, orig: seq<ParamId>, v: Grad)
    requires |fwd| <= |orig| && Distinct(fwd)
    ensures Slots(Pairing(fwd, orig), v) == Seeds(fwd, orig, v).Keys
  {
    SeedsFollowPairing(fwd, orig, v);
  }

  // ---------------------------------------------------------------------------
  // surrogateGrad.Use

  /** The image of the keys `ks` under `m`. */
  function Image(m: map<ParamId, ParamId>, ks: set<ParamId>): set<ParamId> {
    set k | k in ks && k in m :: m[k]
  }

  /** An injective renaming keeps the number of keys. */
  lemma {:induction false} ImageSize(m: map<ParamId, ParamId>, ks: set<ParamId>)
    requires ks <= m.Keys && InjectiveOn(m, ks)
    ensures |Image(m, ks)| == |ks|
    decreases ks
  {
    if ks != {} {
      var k :| k in ks;
      var rest := ks - {k};
      ImageSize(m, rest);
      assert Image(m, ks) == Image(m, rest) + {m[k]};
      assert m[k] !in Image(m, rest);
    }
  }

  /** `surrogateGrad.Use`: renames a forward-mode gradient to the original
      parameters, keeping each vector's tangent; a variable with no original
      aborts the product ("superfluous gradient variable"). */
  method SurrogateUse(g: map<ParamId, Dual>, fwdToRegular: map<ParamId, ParamId>)
    returns (r: Result<Grad>)
    ensures r.Err? <==> !(g.Keys <= fwdToRegular.Keys)
    ensures r.Err? ==> r.error == SuperfluousVariable
    ensures r.Ok? ==> r.value.Keys == Image(fwdToRegular, g.Keys)
    ensures r.Ok? ==> forall o :: o in r.value ==>
      exists k :: k in g && k in fwdToRegular && fwdToRegular[k] == o && r.value[o] == g[k].tangent
    ensures r.Ok? && InjectiveOn(fwdToRegular, g.Keys) ==>
      && |r.value| == |g|
      && forall k :: k in g ==> r.value[fwdToRegular[k]] == g[k].tangent
  {
    var todo := g.Keys;
    var out: Grad := map[];
    while todo != {}
      invariant todo <= g.Keys
      invariant g.Keys - todo <= fwdToRegular.Keys
      invariant out.Keys == Image(fwdToRegular, g.Keys - todo)
      invariant forall o :: o in out ==>
        exists k :: k in g.Keys - todo && k in fwdToRegular && fwdToRegular[k] == o && out[o] == g[k].tangent
      decreases todo
    {
      var k :| k in todo;
      if k !in fwdToRegular {
        return Err(SuperfluousVariable);
      }
      out := out[fwdToRegular[k] := g[k].tangent];
      todo := todo - {k};
    }
    assert g.Keys - todo == g.Keys;
    if InjectiveOn(fwdToRegular, g.Keys) {
      ImageSize(fwdToRegular, g.Keys);
      forall k | k in g ensures out[fwdToRegular[k]] == g[k].tangent {
        var o := fwdToRegular[k];
        assert o in out;
        var j :| j in g.Keys && j in fwdToRegular && fwdToRegular[j] == o && out[o] == g[j].tangent;
      }
    }
    return Ok(out);
  }
}

/**
 * The unprojected second-level relaxation (`second_level_stable_set_problem_sdp`):
 * maximise `b` subject to `⟨A[m], X⟩ = C[m]` for every non-constant monomial
 * `m`, in list order, and `⟨A[0], X⟩ + b = C[0]` for the constant monomial.
 */
module SecondLevel {
  import opened Monomials
  import opened Sdp

  /** The constraint of one non-constant monomial: `⟨A[m], X⟩ = C[m]`. */
  function MonomialConstraint(a: Matrix, target: int): Constraint
  {
    Eq([Term(1.0, Dot(a))], target)
  }

  /** The constraint of the constant monomial: `⟨A[0], X⟩ + b = C[0]`. */
  function ConstantConstraint(a: Matrix, target: int): Constraint
  {
    Eq([Term(1.0, Dot(a)), Term(1.0, B)], target)
  }

  /** The maximised objective of the unprojected relaxation: `b` alone. */
  function ScalarObjective(): seq<Term>
  {
    [Term(1.0, B)]
  }

  /**
   * Reference definition of the constraint loop: one constraint per
   * monomial of `ms`, stopping at the first monomial without a matrix.
   */
  function MonomialConstraints(ms: seq<Monomial>, A: map<Monomial, Matrix>, C: map<Monomial, int>)
    : Result<seq<Constraint>>
    requires forall m :: m in ms ==> m in C
  {
    if ms == [] then Ok([])
    else if ms[0] !in A then Err(MissingMatrix(ms[0]))
    else Prepend([MonomialConstraint(A[ms[0]], C[ms[0]])], MonomialConstraints(ms[1..], A, C))
  }

  /**
   * Reference definition of the whole build. The lookups happen in the
   * source's order: `A[monos[0]]` for the PSD size, then the loop, then
   * `A[zero]` and `C[zero]` for the constant constraint.
   */
  function Assemble(monos: seq<Monomial>, A: map<Monomial, Matrix>): Result<Instance>
  {
    if |monos| == 0 then Err(EmptyMonomialList)
    else if monos[0] !in A then Err(MissingMatrix(monos[0]))
    else
      var C := ObjectiveCoefficients(monos);
      var zero := ConstantMonomial(|monos[0]|);
      var nc := NonConstant(monos, zero);
      match MonomialConstraints(nc, A, C)
      case Err(e) => Err(e)
      case Ok(rows) =>
        if zero !in A then Err(MissingMatrix(zero))
        else if zero !in C then Err(MissingCoefficient(zero))
        else Ok(Instance(Dim(A[monos[0]]), 0, ScalarObjective(), rows, ConstantConstraint(A[zero], C[zero])))
  }

  /**
   * The builder: registers one constraint per non-constant monomial in a
   * loop, then the constraint of the constant monomial.
   */
  method Build(monos: seq<Monomial>, A: map<Monomial, Matrix>) returns (r: Result<Instance>)
    ensures r == Assemble(monos, A)
  {
    if |monos| == 0 {
      return Err(EmptyMonomialList);
    }
    var C := ObjectiveCoefficients(monos);
    if monos[0] !in A {
      return Err(MissingMatrix(monos[0]));
    }
    var sizePsdVariable := Dim(A[monos[0]]);
    var objective := ScalarObjective();
    var zero := ConstantMonomial(|monos[0]|);
    var nc := NonConstant(monos, zero);
    var constraints: seq<Constraint> := [];
    var i := 0;
    assert nc[0..] == nc;
    PrependNothing(MonomialConstraints(nc, A, C));
    while i < |nc|
      invariant 0 <= i <= |nc|
      invariant MonomialConstraints(nc, A, C) == Prepend(constraints, MonomialConstraints(nc[i..], A, C))
    {
      assert nc[i..][0] == nc[i] && nc[i..][1..] == nc[i + 1..];
      if nc[i] !in A {
        return Err(MissingMatrix(nc[i]));
      }
      var row := MonomialConstraint(A[nc[i]], C[nc[i]]);
      assert MonomialConstraints(nc[i..], A, C) == Prepend([row], MonomialConstraints(nc[i + 1..], A, C));
      PrependTwice(constraints, [row], MonomialConstraints(nc[i + 1..], A, C));
      constraints := constraints + [row];
      i := i + 1;
    }
    assert nc[i..] == [] && constraints + [] == constraints;
    assert MonomialConstraints(nc, A, C) == Ok(constraints);
    if zero !in A {
      return Err(MissingMatrix(zero));
    }
    if zero !in C {
      return Err(MissingCoefficient(zero));
    }
    r := Ok(Instance(sizePsdVariable, 0, objective, constraints, ConstantConstraint(A[zero], C[zero])));
  }

  // ---------------------------------------------------------------------
  // Properties of the reference definition

  /**
   * The loop succeeds exactly when every monomial has a matrix; it then
   * emits one constraint per monomial, in order, with target `C[m]`, and
   * otherwise reports the first monomial without a matrix.
   */
  lemma {:induction false} MonomialConstraintsResult(ms: seq<Monomial>, A: map<Monomial, Matrix>, C: map<Monomial, int>)
    requires forall m :: m in ms ==> m in C
    ensures MonomialConstraints(ms, A, C).Ok? <==> forall m :: m in ms ==> m in A
    ensures MonomialConstraints(ms, A, C).Ok? ==>
      var rows := MonomialConstraints(ms, A, C).value;
      && |rows| == |ms|
      && forall j :: 0 <= j < |ms| ==> rows[j] == MonomialConstraint(A[ms[j]], C[ms[j]])
    ensures MonomialConstraints(ms, A, C).Err? ==>
      exists j :: 0 <= j < |ms| && ms[j] !in A
        && MonomialConstraints(ms, A, C).error == MissingMatrix(ms[j])
        && forall k :: 0 <= k < j ==> ms[k] in A
  {
    if ms != [] {
      MonomialConstraintsResult(ms[1..], A, C);
      assert forall m :: m in ms <==> m == ms[0] || m in ms[1..];
      if ms[0] in A {
        var r := MonomialConstraints(ms[1..], A, C);
        if r.Err? {
          var j :| 0 <= j < |ms[1..]| && ms[1..][j] !in A
            && r.error == MissingMatrix(ms[1..][j])
            && forall k :: 0 <= k < j ==> ms[1..][k] in A;
          assert ms[j + 1] == ms[1..][j];
          assert forall k :: 0 < k < j + 1 ==> ms[k] == ms[1..][k - 1];
        }
      }
    }
  }

  /**
   * A build succeeds exactly when the list is not empty, lists the constant
   * monomial (the zero tuple as long as the first listed monomial) and every
   * listed monomial has a matrix.
   */
  lemma AssembleSucceeds(monos: seq<Monomial>, A: map<Monomial, Matrix>)
    ensures Assemble(monos, A).Ok? <==>
      && |monos| > 0
      && ConstantMonomial(|monos[0]|) in monos
      && forall m :: m in monos ==> m in A
  {
    if |monos| > 0 && monos[0] in A {
      var zero := ConstantMonomial(|monos[0]|);
      MonomialConstraintsResult(NonConstant(monos, zero), A, ObjectiveCoefficients(monos));
    }
  }

  /**
   * What a successful build contains: the PSD size is that of the first
   * listed monomial's matrix; the objective is `b`; one constraint per
   * non-constant monomial, in list order, each `⟨A[m], X⟩ = C[m]` with
   * `C[m]` -1 on degree-1 monomials and 0 otherwise; and the constant
   * constraint `⟨A[0], X⟩ + b = 0`. The scalar `b` occurs in the constant
   * constraint only, and there is exactly one more constraint than there
   * are non-constant monomials.
   */
  lemma AssembleShape(monos: seq<Monomial>, A: map<Monomial, Matrix>)
    requires Assemble(monos, A).Ok?
    ensures var inst := Assemble(monos, A).value;
      var zero := ConstantMonomial(|monos[0]|);
      var nc := NonConstant(monos, zero);
      && zero in monos && zero in A
      && inst.sizePsdVariable == Dim(A[monos[0]])
      && inst.slackLength == 0
      && inst.objective == [Term(1.0, B)]
      && |inst.constraints| == |nc|
      && |AllConstraints(inst)| == |nc| + 1
      && (forall j :: 0 <= j < |nc| ==>
            && nc[j] in A
            && inst.constraints[j] == Eq([Term(1.0, Dot(A[nc[j]]))], if Degree(nc[j]) == 1 then -1 else 0)
            && B !in Atoms(inst.constraints[j].lhs))
      && inst.constantConstraint == Eq([Term(1.0, Dot(A[zero])), Term(1.0, B)], 0)
      && B in Atoms(inst.constantConstraint.lhs)
  {
    var zero := ConstantMonomial(|monos[0]|);
    var C := ObjectiveCoefficients(monos);
    var nc := NonConstant(monos, zero);
    MonomialConstraintsResult(nc, A, C);
    var inst := Assemble(monos, A).value;
    forall j | 0 <= j < |nc|
      ensures B !in Atoms(inst.constraints[j].lhs)
    {
      assert inst.constraints[j].lhs[0].atom == Dot(A[nc[j]]);
    }
    assert inst.constantConstraint.lhs[1].atom == B;
  }

  /** With the constant monomial listed once, the instance has one constraint per listed monomial. */
  lemma ConstraintPerMonomial(monos: seq<Monomial>, A: map<Monomial, Matrix>)
    requires Assemble(monos, A).Ok?
    requires multiset(monos)[ConstantMonomial(|monos[0]|)] == 1
    ensures |AllConstraints(Assemble(monos, A).value)| == |monos|
  {
    AssembleShape(monos, A);
    NonConstantCount(monos, ConstantMonomial(|monos[0]|));
  }

  /**
   * The meaning of a successful build: a point satisfies every constraint
   * exactly when `⟨A[m], X⟩ = C[m]` for each non-constant monomial and
   * `⟨A[0], X⟩ + b = 0`; the objective's value is `b`.
   */
  lemma AssembleMeaning(monos: seq<Monomial>, A: map<Monomial, Matrix>, p: Point)
    requires Assemble(monos, A).Ok?
    ensures var inst := Assemble(monos, A).value;
      var zero := ConstantMonomial(|monos[0]|);
      var nc := NonConstant(monos, zero);
      var C := ObjectiveCoefficients(monos);
      && |inst.constraints| == |nc|
      && zero in A
      && (forall m :: m in nc ==> m in A && m in C)
      && (forall j :: 0 <= j < |nc| ==>
            (Holds(inst.constraints[j], p) <==> Inner(A[nc[j]], p.x) == C[nc[j]] as real))
      && (Holds(inst.constantConstraint, p) <==> Inner(A[zero], p.x) + p.b == 0.0)
      && Eval(inst.objective, p) == p.b
  {
    var inst := Assemble(monos, A).value;
    AssembleShape(monos, A);
    var zero := ConstantMonomial(|monos[0]|);
    var nc := NonConstant(monos, zero);
    var C := ObjectiveCoefficients(monos);
    forall j | 0 <= j < |nc|
      ensures Holds(inst.constraints[j], p) <==> Inner(A[nc[j]], p.x) == C[nc[j]] as real
    {
      var lhs := inst.constraints[j].lhs;
      assert lhs[..0] == [];
      assert Eval(lhs, p) == Inner(A[nc[j]], p.x);
    }
    var lhs := inst.constantConstraint.lhs;
    assert lhs[..1][..0] == [];
    assert Eval(lhs[..1], p) == Inner(A[zero], p.x);
    assert Eval(lhs, p) == Inner(A[zero], p.x) + p.b;
    assert inst.objective[..0] == [];
  }
}

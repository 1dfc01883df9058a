/**
 * The projected second-level relaxation
 * (`projected_second_level_stable_set_problem_sdp`): every matrix `A[m]` is
 * first mapped through the random projector; the instance then has the same
 * structure as the unprojected one, and, with `slack` on, the constraint of
 * the i-th non-constant monomial (0-based) carries the slack pair
 * `lb[i+1] - ub[i+1]`, and the objective penalises the slacks with the
 * dual-feasibility weights `0 - ε` and `1 + ε`.
 */
module ProjectedSecondLevel {
  import opened Monomials
  import opened Sdp
  import SecondLevel

  /** Width of the dual-feasibility margin. */
  const Epsilon: real := 0.00001
  /** Weight of the lower slacks in the objective: `0 - ε`. */
  const DualLowerBound: real := 0.0 - Epsilon
  /** Weight of the upper slacks in the objective: `1 + ε`. */
  const DualUpperBound: real := 1.0 + Epsilon

  /**
   * The projected matrices: the projector applied to the matrix of every
   * key of `A`, listed or not.
   */
  function ProjectMatrices(A: map<Monomial, Matrix>, project: Matrix -> Matrix): (PA: map<Monomial, Matrix>)
    ensures forall m :: m in PA <==> m in A
    ensures forall m :: m in A ==> PA[m] == project(A[m])
  {
    map m | m in A :: project(A[m])
  }

  // ---------------------------------------------------------------------
  // The objective

  /** The weight vector: `np.ones(n)` with its entry 0 set to 0. */
  function OnesVector(n: nat): seq<real>
    requires n > 0
  {
    seq(n, _ => 1.0)[0 := 0.0]
  }

  function SlackVariable(upper: bool, i: nat): Atom
  {
    if upper then Ub(i) else Lb(i)
  }

  /** `Expr.mul(coef, Expr.dot(v, w))` for the slack vector `v` (lower or upper) of length `|w|`. */
  function ScaledDot(coef: real, upper: bool, w: seq<real>): seq<Term>
  {
    if w == [] then []
    else ScaledDot(coef, upper, w[..|w| - 1]) + [Term(coef * w[|w| - 1], SlackVariable(upper, |w| - 1))]
  }

  /** `Expr.sub` of an expression from 0: every coefficient negated. */
  function Negated(ts: seq<Term>): seq<Term>
  {
    if ts == [] then []
    else Negated(ts[..|ts| - 1]) + [Term(-ts[|ts| - 1].coef, ts[|ts| - 1].atom)]
  }

  /** `b + (DualLowerBound · ⟨lb, w⟩ - DualUpperBound · ⟨ub, w⟩)` with the weight vector `w`. */
  function SlackObjective(n: nat): seq<Term>
    requires n > 0
  {
    var ones := OnesVector(n);
    [Term(1.0, B)] + (ScaledDot(DualLowerBound, false, ones) + Negated(ScaledDot(DualUpperBound, true, ones)))
  }

  /** The maximised objective: the slack-penalised one, or `b` alone. */
  function Objective(slack: bool, n: nat): seq<Term>
    requires n > 0
  {
    if slack then SlackObjective(n) else SecondLevel.ScalarObjective()
  }

  // ---------------------------------------------------------------------
  // The constraints

  /** `lb[i] - ub[i]` with slack on; nothing (the constant 0) without. */
  function SlackDifference(slack: bool, i: nat): seq<Term>
  {
    if slack then [Term(1.0, Lb(i)), Term(-1.0, Ub(i))] else []
  }

  /** The constraint of one non-constant monomial: `⟨A'[m], X⟩ + lb[i] - ub[i] = C[m]`. */
  function MonomialConstraint(a: Matrix, slack: bool, i: nat, target: int): Constraint
  {
    Eq([Term(1.0, Dot(a))] + SlackDifference(slack, i), target)
  }

  /**
   * Reference definition of the constraint loop: the monomials of `ms` use
   * the slack pairs `next`, `next + 1`, ...; the loop stops at the first
   * monomial without a matrix or, with slack on, at the first slack index
   * past the end of the slack vectors of length `n`.
   */
  function MonomialConstraints(ms: seq<Monomial>, PA: map<Monomial, Matrix>, C: map<Monomial, int>,
                               slack: bool, n: nat, next: nat): Result<seq<Constraint>>
    requires forall m :: m in ms ==> m in C
  {
    if ms == [] then Ok([])
    else if ms[0] !in PA then Err(MissingMatrix(ms[0]))
    else if slack && next >= n then Err(SlackIndexOutOfRange(next))
    else Prepend([MonomialConstraint(PA[ms[0]], slack, next, C[ms[0]])],
                 MonomialConstraints(ms[1..], PA, C, slack, n, next + 1))
  }

  /**
   * Reference definition of the whole build: project, take the PSD size from
   * the first listed monomial, declare slack vectors of length
   * `|monos|` when `slack` is on, then the constraints in the source's order.
   */
  function Assemble(monos: seq<Monomial>, A: map<Monomial, Matrix>, project: Matrix -> Matrix, slack: bool)
    : Result<Instance>
  {
    var C := ObjectiveCoefficients(monos);
    var PA := ProjectMatrices(A, project);
    if |monos| == 0 then Err(EmptyMonomialList)
    else if monos[0] !in PA then Err(MissingMatrix(monos[0]))
    else
      var n := |monos|;
      var zero := ConstantMonomial(|monos[0]|);
      var nc := NonConstant(monos, zero);
      match MonomialConstraints(nc, PA, C, slack, n, 1)
      case Err(e) => Err(e)
      case Ok(rows) =>
        if zero !in PA then Err(MissingMatrix(zero))
        else if zero !in C then Err(MissingCoefficient(zero))
        else Ok(Instance(Dim(PA[monos[0]]), if slack then n else 0, Objective(slack, n), rows,
                         SecondLevel.ConstantConstraint(PA[zero], C[zero])))
  }

  /**
   * The builder: projects the matrices, then registers one constraint per
   * non-constant monomial in a loop, the i-th with slack pair `i + 1`, then
   * the constraint of the constant monomial.
   */
  method Build(monos: seq<Monomial>, A: map<Monomial, Matrix>, project: Matrix -> Matrix, slack: bool)
    returns (r: Result<Instance>)
    ensures r == Assemble(monos, A, project, slack)
  {
    var C := ObjectiveCoefficients(monos);
    var PA := ProjectMatrices(A, project);
    if |monos| == 0 {
      return Err(EmptyMonomialList);
    }
    if monos[0] !in PA {
      return Err(MissingMatrix(monos[0]));
    }
    var sizePsdVariable := Dim(PA[monos[0]]);
    var n := |monos|;
    var slackLength := if slack then n else 0;
    var objective := Objective(slack, n);
    var zero := ConstantMonomial(|monos[0]|);
    var nc := NonConstant(monos, zero);
    var constraints: seq<Constraint> := [];
    var i := 0;
    assert nc[0..] == nc;
    PrependNothing(MonomialConstraints(nc, PA, C, slack, n, 1));
    while i < |nc|
      invariant 0 <= i <= |nc|
      invariant MonomialConstraints(nc, PA, C, slack, n, 1)
             == Prepend(constraints, MonomialConstraints(nc[i..], PA, C, slack, n, i + 1))
    {
      assert nc[i..][0] == nc[i] && nc[i..][1..] == nc[i + 1..];
      if nc[i] !in PA {
        return Err(MissingMatrix(nc[i]));
      }
      if slack && i + 1 >= n {
        return Err(SlackIndexOutOfRange(i + 1));
      }
      var row := MonomialConstraint(PA[nc[i]], slack, i + 1, C[nc[i]]);
      PrependTwice(constraints, [row], MonomialConstraints(nc[i + 1..], PA, C, slack, n, i + 2));
      constraints := constraints + [row];
      i := i + 1;
    }
    assert nc[i..] == [] && constraints + [] == constraints;
    assert MonomialConstraints(nc, PA, C, slack, n, 1) == Ok(constraints);
    if zero !in PA {
      return Err(MissingMatrix(zero));
    }
    if zero !in C {
      return Err(MissingCoefficient(zero));
    }
    r := Ok(Instance(sizePsdVariable, slackLength, objective, constraints,
                     SecondLevel.ConstantConstraint(PA[zero], C[zero])));
  }

  // ---------------------------------------------------------------------
  // Properties of the constraint loop

  /**
   * The loop succeeds exactly when every monomial has a matrix and, with
   * slack on, every slack index it uses is inside the slack vectors.
   */
  lemma {:induction false} MonomialConstraintsOk(ms: seq<Monomial>, PA: map<Monomial, Matrix>, C: map<Monomial, int>,
                                                 slack: bool, n: nat, next: nat)
    requires forall m :: m in ms ==> m in C
    ensures MonomialConstraints(ms, PA, C, slack, n, next).Ok? <==>
      (forall m :: m in ms ==> m in PA) && (slack && ms != [] ==> next + |ms| <= n)
  {
    if ms != [] {
      MonomialConstraintsOk(ms[1..], PA, C, slack, n, next + 1);
      assert forall m :: m in ms <==> m == ms[0] || m in ms[1..];
    }
  }

  /**
   * When every lookup succeeds, the loop emits one constraint per monomial,
   * in order, the j-th with slack pair `next + j`.
   */
  lemma {:induction false} MonomialConstraintsRows(ms: seq<Monomial>, PA: map<Monomial, Matrix>, C: map<Monomial, int>,
                                                   slack: bool, n: nat, next: nat)
    requires forall m :: m in ms ==> m in C && m in PA
    requires slack && ms != [] ==> next + |ms| <= n
    ensures MonomialConstraints(ms, PA, C, slack, n, next).Ok?
    ensures var rows := MonomialConstraints(ms, PA, C, slack, n, next).value;
      && |rows| == |ms|
      && forall j :: 0 <= j < |ms| ==> rows[j] == MonomialConstraint(PA[ms[j]], slack, next + j, C[ms[j]])
  {
    if ms != [] {
      MonomialConstraintsRows(ms[1..], PA, C, slack, n, next + 1);
      assert forall j :: 0 < j < |ms| ==> ms[j] == ms[1..][j - 1];
    }
  }

  /**
   * A failing loop reports the first monomial where a lookup fails: its
   * missing matrix, or with slack on its slack index past the end.
   */
  lemma {:induction false} MonomialConstraintsError(ms: seq<Monomial>, PA: map<Monomial, Matrix>, C: map<Monomial, int>,
                                                    slack: bool, n: nat, next: nat)
    requires forall m :: m in ms ==> m in C
    requires MonomialConstraints(ms, PA, C, slack, n, next).Err?
    ensures
      exists j :: 0 <= j < |ms|
        && (forall k :: 0 <= k < j ==> ms[k] in PA)
        && (ms[j] !in PA || (slack && next + j >= n))
        && MonomialConstraints(ms, PA, C, slack, n, next).error
           == (if ms[j] !in PA then MissingMatrix(ms[j]) else SlackIndexOutOfRange(next + j))
  {
    if ms[0] in PA && !(slack && next >= n) {
      assert forall m :: m in ms[1..] ==> m in ms;
      MonomialConstraintsError(ms[1..], PA, C, slack, n, next + 1);
      var j :| 0 <= j < |ms[1..]|
        && (forall k :: 0 <= k < j ==> ms[1..][k] in PA)
        && (ms[1..][j] !in PA || (slack && next + 1 + j >= n))
        && MonomialConstraints(ms[1..], PA, C, slack, n, next + 1).error
           == (if ms[1..][j] !in PA then MissingMatrix(ms[1..][j]) else SlackIndexOutOfRange(next + 1 + j));
      assert ms[j + 1] == ms[1..][j];
      assert forall k :: 0 < k < j + 1 ==> ms[k] == ms[1..][k - 1];
    } else {
      assert 0 < |ms|;
    }
  }

  /** Without slack, the loop emits exactly the unprojected builder's constraints. */
  lemma {:induction false} MonomialConstraintsWithoutSlack(ms: seq<Monomial>, PA: map<Monomial, Matrix>,
                                                           C: map<Monomial, int>, n: nat, next: nat)
    requires forall m :: m in ms ==> m in C
    ensures MonomialConstraints(ms, PA, C, false, n, next) == SecondLevel.MonomialConstraints(ms, PA, C)
  {
    if ms != [] && ms[0] in PA {
      MonomialConstraintsWithoutSlack(ms[1..], PA, C, n, next + 1);
      assert [Term(1.0, Dot(PA[ms[0]]))] + [] == [Term(1.0, Dot(PA[ms[0]]))];
    }
  }

  /**
   * The atoms of one monomial's constraint: no `b`, and the slack pair `i`
   * exactly when slack is on.
   */
  lemma MonomialConstraintAtoms(a: Matrix, slack: bool, i: nat, target: int)
    ensures B !in Atoms(MonomialConstraint(a, slack, i, target).lhs)
    ensures forall k :: Lb(k) in Atoms(MonomialConstraint(a, slack, i, target).lhs) <==> slack && k == i
    ensures forall k :: Ub(k) in Atoms(MonomialConstraint(a, slack, i, target).lhs) <==> slack && k == i
  {
    var lhs := MonomialConstraint(a, slack, i, target).lhs;
    assert lhs[0].atom == Dot(a);
    if slack {
      assert lhs[1].atom == Lb(i) && lhs[2].atom == Ub(i);
    }
  }

  /** A successful build, unfolded. */
  lemma AssembleOk(monos: seq<Monomial>, A: map<Monomial, Matrix>, project: Matrix -> Matrix, slack: bool)
    requires Assemble(monos, A, project, slack).Ok?
    ensures |monos| > 0
    ensures var zero := ConstantMonomial(|monos[0]|);
      var nc := NonConstant(monos, zero);
      var C := ObjectiveCoefficients(monos);
      var PA := ProjectMatrices(A, project);
      && monos[0] in PA && zero in PA && zero in C
      && MonomialConstraints(nc, PA, C, slack, |monos|, 1).Ok?
      && Assemble(monos, A, project, slack).value
         == Instance(Dim(PA[monos[0]]), if slack then |monos| else 0, Objective(slack, |monos|),
                     MonomialConstraints(nc, PA, C, slack, |monos|, 1).value,
                     SecondLevel.ConstantConstraint(PA[zero], C[zero]))
  {
  }

  // ---------------------------------------------------------------------
  // Properties of the build

  /**
   * With slack off, the projected builder assembles the unprojected
   * instance of the projected matrices: the same constraints, the same
   * objective `b` and the PSD size of the projected first matrix.
   */
  lemma WithoutSlackIsUnprojected(monos: seq<Monomial>, A: map<Monomial, Matrix>, project: Matrix -> Matrix)
    ensures Assemble(monos, A, project, false) == SecondLevel.Assemble(monos, ProjectMatrices(A, project))
  {
    if |monos| > 0 {
      var zero := ConstantMonomial(|monos[0]|);
      MonomialConstraintsWithoutSlack(NonConstant(monos, zero), ProjectMatrices(A, project),
                                      ObjectiveCoefficients(monos), |monos|, 1);
    }
  }

  /**
   * With the identity projector and slack off, the projected builder
   * assembles exactly the unprojected instance.
   */
  lemma IdentityProjectorIsUnprojected(monos: seq<Monomial>, A: map<Monomial, Matrix>, project: Matrix -> Matrix)
    requires forall a :: project(a) == a
    ensures Assemble(monos, A, project, false) == SecondLevel.Assemble(monos, A)
  {
    WithoutSlackIsUnprojected(monos, A, project);
    assert ProjectMatrices(A, project) == A;
  }

  /**
   * Whether slack is on or off, a build succeeds exactly when the list is
   * not empty, lists the constant monomial and every listed monomial has a
   * matrix. In particular, with the constant monomial listed, no slack index
   * falls outside the slack vectors.
   */
  lemma AssembleSucceeds(monos: seq<Monomial>, A: map<Monomial, Matrix>, project: Matrix -> Matrix, slack: bool)
    ensures Assemble(monos, A, project, slack).Ok? <==>
      && |monos| > 0
      && ConstantMonomial(|monos[0]|) in monos
      && forall m :: m in monos ==> m in A
  {
    if |monos| > 0 && monos[0] in A {
      var zero := ConstantMonomial(|monos[0]|);
      var nc := NonConstant(monos, zero);
      MonomialConstraintsOk(nc, ProjectMatrices(A, project), ObjectiveCoefficients(monos), slack, |monos|, 1);
      if zero in monos {
        NonConstantCount(monos, zero);
      }
    }
  }

  /**
   * With slack on and the constant monomial not listed, every listed
   * monomial gets a constraint, so the last one asks for slack index
   * `|monos|`, one past the end of the slack vectors, and the build stops
   * there.
   */
  lemma MissingConstantWithSlack(monos: seq<Monomial>, A: map<Monomial, Matrix>, project: Matrix -> Matrix)
    requires |monos| > 0 && ConstantMonomial(|monos[0]|) !in monos
    requires forall m :: m in monos ==> m in A
    ensures Assemble(monos, A, project, true) == Err(SlackIndexOutOfRange(|monos|))
  {
    var zero := ConstantMonomial(|monos[0]|);
    var nc := NonConstant(monos, zero);
    NonConstantMultiset(monos, zero);
    assert multiset(monos)[zero] == 0;
    SlackOverrun(nc, ProjectMatrices(A, project), ObjectiveCoefficients(monos), |monos|, 1);
  }

  /**
   * With every matrix present and slack on, a loop that starts at slack
   * index `next <= n` and has more monomials than indices left stops with
   * the first index past the end, `n`.
   */
  lemma {:induction false} SlackOverrun(ms: seq<Monomial>, PA: map<Monomial, Matrix>, C: map<Monomial, int>,
                                        n: nat, next: nat)
    requires forall m :: m in ms ==> m in C && m in PA
    requires next <= n < next + |ms|
    ensures MonomialConstraints(ms, PA, C, true, n, next) == Err(SlackIndexOutOfRange(n))
  {
    if next < n {
      assert forall m :: m in ms[1..] ==> m in ms;
      SlackOverrun(ms[1..], PA, C, n, next + 1);
    }
  }

  /**
   * What a successful build contains: the PSD size is that of the projected
   * matrix of the first listed monomial; slack vectors of length `|monos|`
   * exactly when slack is on; one constraint per non-constant monomial and
   * one more, `⟨project(A[0]), X⟩ + b = 0`, for the constant monomial.
   */
  lemma AssembleShape(monos: seq<Monomial>, A: map<Monomial, Matrix>, project: Matrix -> Matrix, slack: bool)
    requires Assemble(monos, A, project, slack).Ok?
    ensures var inst := Assemble(monos, A, project, slack).value;
      var zero := ConstantMonomial(|monos[0]|);
      && zero in monos && zero in A && monos[0] in A
      && inst.sizePsdVariable == Dim(project(A[monos[0]]))
      && inst.slackLength == (if slack then |monos| else 0)
      && inst.objective == Objective(slack, |monos|)
      && |inst.constraints| == |NonConstant(monos, zero)|
      && |AllConstraints(inst)| == |NonConstant(monos, zero)| + 1
      && inst.constantConstraint == Eq([Term(1.0, Dot(project(A[zero]))), Term(1.0, B)], 0)
      && B in Atoms(inst.constantConstraint.lhs)
  {
    AssembleOk(monos, A, project, slack);
    var zero := ConstantMonomial(|monos[0]|);
    MonomialConstraintsOk(NonConstant(monos, zero), ProjectMatrices(A, project),
                          ObjectiveCoefficients(monos), slack, |monos|, 1);
    MonomialConstraintsRows(NonConstant(monos, zero), ProjectMatrices(A, project),
                            ObjectiveCoefficients(monos), slack, |monos|, 1);
    assert Assemble(monos, A, project, slack).value.constantConstraint.lhs[1].atom == B;
  }

  /**
   * The constraints of a successful build, one per non-constant monomial in
   * list order: the j-th is `⟨project(A[m]), X⟩ (+ lb[j+1] - ub[j+1]) = C[m]`.
   */
  lemma AssembleRows(monos: seq<Monomial>, A: map<Monomial, Matrix>, project: Matrix -> Matrix, slack: bool)
    requires Assemble(monos, A, project, slack).Ok?
    ensures var inst := Assemble(monos, A, project, slack).value;
      var nc := NonConstant(monos, ConstantMonomial(|monos[0]|));
      var C := ObjectiveCoefficients(monos);
      && |inst.constraints| == |nc|
      && forall j :: 0 <= j < |nc| ==>
            && nc[j] in A && nc[j] in C
            && inst.constraints[j] == MonomialConstraint(project(A[nc[j]]), slack, j + 1, C[nc[j]])
  {
    AssembleOk(monos, A, project, slack);
    var nc := NonConstant(monos, ConstantMonomial(|monos[0]|));
    var C := ObjectiveCoefficients(monos);
    MonomialConstraintsOk(nc, ProjectMatrices(A, project), C, slack, |monos|, 1);
    ProjectedRows(nc, A, project, C, slack, |monos|);
  }

  /** The loop over projected matrices, when every lookup succeeds. */
  lemma ProjectedRows(nc: seq<Monomial>, A: map<Monomial, Matrix>, project: Matrix -> Matrix,
                      C: map<Monomial, int>, slack: bool, n: nat)
    requires forall m :: m in nc ==> m in C && m in ProjectMatrices(A, project)
    requires slack && nc != [] ==> 1 + |nc| <= n
    ensures MonomialConstraints(nc, ProjectMatrices(A, project), C, slack, n, 1).Ok?
    ensures var rows := MonomialConstraints(nc, ProjectMatrices(A, project), C, slack, n, 1).value;
      && |rows| == |nc|
      && forall j :: 0 <= j < |nc| ==>
            && nc[j] in A && nc[j] in C
            && rows[j] == MonomialConstraint(project(A[nc[j]]), slack, j + 1, C[nc[j]])
  {
    MonomialConstraintsRows(nc, ProjectMatrices(A, project), C, slack, n, 1);
  }

  /**
   * With slack on, the j-th constraint mentions exactly the slack pair
   * `j + 1`, which lies in `1 .. |monos| - 1`, inside the slack vectors; so
   * distinct constraints use distinct pairs and pair 0 is used by none.
   */
  lemma SlackPairs(monos: seq<Monomial>, A: map<Monomial, Matrix>, project: Matrix -> Matrix)
    requires Assemble(monos, A, project, true).Ok?
    ensures var inst := Assemble(monos, A, project, true).value;
      && inst.slackLength == |monos|
      && |inst.constraints| <= |monos| - 1
      && forall j, i :: 0 <= j < |inst.constraints| ==>
            && (Lb(i) in Atoms(inst.constraints[j].lhs) <==> i == j + 1)
            && (Ub(i) in Atoms(inst.constraints[j].lhs) <==> i == j + 1)
  {
    AssembleShape(monos, A, project, true);
    NonConstantCount(monos, ConstantMonomial(|monos[0]|));
    RowsScalars(monos, A, project, true);
    var rows := Assemble(monos, A, project, true).value.constraints;
    forall j | 0 <= j < |rows|
      ensures forall i :: && (Lb(i) in Atoms(rows[j].lhs) <==> i == j + 1)
                          && (Ub(i) in Atoms(rows[j].lhs) <==> i == j + 1)
    {
      SlackAtomsOfRow(rows[j], j + 1);
    }
  }

  /** A constraint whose scalars are the slack pair `k` mentions `lb[i]` or `ub[i]` exactly for `i == k`. */
  lemma SlackAtomsOfRow(c: Constraint, k: nat)
    requires RowScalars(c) == {Lb(k), Ub(k)}
    ensures forall i :: (Lb(i) in Atoms(c.lhs) <==> i == k) && (Ub(i) in Atoms(c.lhs) <==> i == k)
  {
    forall i
      ensures (Lb(i) in Atoms(c.lhs) <==> i == k) && (Ub(i) in Atoms(c.lhs) <==> i == k)
    {
      assert Lb(i) in Atoms(c.lhs) <==> Lb(i) in RowScalars(c);
      assert Ub(i) in Atoms(c.lhs) <==> Ub(i) in RowScalars(c);
    }
  }

  /** The constant constraint mentions no slack, whether slack is on or off. */
  lemma ConstantConstraintWithoutSlack(monos: seq<Monomial>, A: map<Monomial, Matrix>, project: Matrix -> Matrix, slack: bool)
    requires Assemble(monos, A, project, slack).Ok?
    ensures var c := Assemble(monos, A, project, slack).value.constantConstraint;
      forall i :: Lb(i) !in Atoms(c.lhs) && Ub(i) !in Atoms(c.lhs)
  {
    AssembleShape(monos, A, project, slack);
    var lhs := Assemble(monos, A, project, slack).value.constantConstraint.lhs;
    assert |lhs| == 2 && lhs[0].atom.Dot? && lhs[1].atom == B;
  }

  // ---------------------------------------------------------------------
  // The value of the objective and of the constraints at a point

  /** Σ_{i < |w|} (coef·w[i])·v[i], entries of `v` past its end counting as 0. */
  function ScaledSum(coef: real, w: seq<real>, v: seq<real>): real
  {
    if w == [] then 0.0 else ScaledSum(coef, w[..|w| - 1], v) + (coef * w[|w| - 1]) * Entry(v, |w| - 1)
  }

  /** `coef · ⟨v, w⟩` is worth Σ (coef·w[i])·v[i] over the slack vector `v` (lower or upper). */
  lemma {:induction false} ScaledDotValue(coef: real, upper: bool, w: seq<real>, p: Point)
    ensures Eval(ScaledDot(coef, upper, w), p) == ScaledSum(coef, w, if upper then p.ub else p.lb)
  {
    if w != [] {
      var t := Term(coef * w[|w| - 1], SlackVariable(upper, |w| - 1));
      ScaledDotValue(coef, upper, w[..|w| - 1], p);
      EvalAppend(ScaledDot(coef, upper, w[..|w| - 1]), [t], p);
      assert [t][..0] == [];
    }
  }

  /** Negating every coefficient negates the value. */
  lemma {:induction false} NegatedValue(ts: seq<Term>, p: Point)
    ensures Eval(Negated(ts), p) == -Eval(ts, p)
  {
    if ts != [] {
      var t := ts[|ts| - 1];
      NegatedValue(ts[..|ts| - 1], p);
      EvalAppend(Negated(ts[..|ts| - 1]), [Term(-t.coef, t.atom)], p);
      assert [Term(-t.coef, t.atom)][..0] == [];
    }
  }

  /** Weighting by the weight vector drops entry 0 and sums the rest, scaled by `coef`. */
  lemma {:induction false} OnesScaledSum(coef: real, v: seq<real>, k: nat)
    requires 1 <= k <= |v|
    ensures ScaledSum(coef, OnesVector(k), v) == coef * Sum(v[1..k])
  {
    if k == 1 {
      assert OnesVector(1)[..0] == [];
      assert v[1..1] == [];
    } else {
      OnesScaledSum(coef, v, k - 1);
      assert OnesVector(k)[..k - 1] == OnesVector(k - 1);
      assert v[1..k][..k - 2] == v[1..k - 1];
      Distribute(coef, Sum(v[1..k - 1]), v[k - 1]);
    }
  }

  lemma Distribute(c: real, x: real, y: real)
    ensures c * (x + y) == c * x + (c * 1.0) * y
  {
  }

  /**
   * The slack-penalised objective is worth
   * `b - ε·Σ_{i≥1} lb[i] - (1+ε)·Σ_{i≥1} ub[i]` at any point whose slack
   * vectors have the declared length: pair 0 carries weight 0.
   */
  lemma SlackObjectiveValue(n: nat, p: Point)
    requires n > 0 && |p.lb| == n && |p.ub| == n
    ensures Eval(SlackObjective(n), p) == p.b - Epsilon * Sum(p.lb[1..]) - (1.0 + Epsilon) * Sum(p.ub[1..])
  {
    var ones := OnesVector(n);
    var lower := ScaledDot(DualLowerBound, false, ones);
    var upper := Negated(ScaledDot(DualUpperBound, true, ones));
    LowerPenaltyValue(n, p);
    UpperPenaltyValue(n, p);
    assert Eval([Term(1.0, B)], p) == p.b by {
      assert [Term(1.0, B)][..0] == [];
    }
    EvalAppend([Term(1.0, B)], lower + upper, p);
    EvalAppend(lower, upper, p);
  }

  /** `coef · ⟨v, w⟩` with the weight vector `w` is worth `coef · Σ_{i≥1} v[i]`. */
  lemma OnesPenaltyValue(coef: real, upper: bool, v: seq<real>, p: Point)
    requires v == (if upper then p.ub else p.lb) && |v| > 0
    ensures Eval(ScaledDot(coef, upper, OnesVector(|v|)), p) == coef * Sum(v[1..])
  {
    ScaledDotValue(coef, upper, OnesVector(|v|), p);
    OnesScaledSum(coef, v, |v|);
    assert v[1..|v|] == v[1..];
  }

  /** The lower-slack penalty is worth `DualLowerBound · Σ_{i≥1} lb[i]`. */
  lemma LowerPenaltyValue(n: nat, p: Point)
    requires n > 0 && |p.lb| == n
    ensures Eval(ScaledDot(DualLowerBound, false, OnesVector(n)), p) == DualLowerBound * Sum(p.lb[1..])
  {
    OnesPenaltyValue(DualLowerBound, false, p.lb, p);
  }

  /** The upper-slack penalty is worth `-DualUpperBound · Σ_{i≥1} ub[i]`. */
  lemma UpperPenaltyValue(n: nat, p: Point)
    requires n > 0 && |p.ub| == n
    ensures Eval(Negated(ScaledDot(DualUpperBound, true, OnesVector(n))), p) == -(DualUpperBound * Sum(p.ub[1..]))
  {
    var t := ScaledDot(DualUpperBound, true, OnesVector(n));
    OnesPenaltyValue(DualUpperBound, true, p.ub, p);
    NegatedValue(t, p);
  }

  /** The objective does not depend on slack pair 0. */
  lemma SlackPairZeroIsFree(n: nat, p: Point, q: Point)
    requires n > 0 && |p.lb| == n && |p.ub| == n && |q.lb| == n && |q.ub| == n
    requires p.b == q.b && p.lb[1..] == q.lb[1..] && p.ub[1..] == q.ub[1..]
    ensures Eval(SlackObjective(n), p) == Eval(SlackObjective(n), q)
  {
    SlackObjectiveValue(n, p);
    SlackObjectiveValue(n, q);
  }

  /** The value of one monomial's constraint: `⟨a, X⟩ + lb[i] - ub[i]`, or `⟨a, X⟩` without slack. */
  lemma MonomialConstraintValue(a: Matrix, slack: bool, i: nat, target: int, p: Point)
    ensures Eval(MonomialConstraint(a, slack, i, target).lhs, p)
         == Inner(a, p.x) + (if slack then Entry(p.lb, i) - Entry(p.ub, i) else 0.0)
  {
    var head := [Term(1.0, Dot(a))];
    EvalAppend(head, SlackDifference(slack, i), p);
    assert head[..0] == [];
    if slack {
      var d := SlackDifference(slack, i);
      assert d[..1] == [Term(1.0, Lb(i))] && d[..1][..0] == [];
    }
  }

  /**
   * The meaning of a successful build's constraints: a point satisfies the
   * j-th exactly when `⟨project(A[m]), X⟩ + lb[j+1] - ub[j+1] = C[m]` for the
   * j-th non-constant monomial `m` (without the slack pair when slack is off).
   */
  lemma RowsMeaning(monos: seq<Monomial>, A: map<Monomial, Matrix>, project: Matrix -> Matrix, slack: bool, p: Point)
    requires Assemble(monos, A, project, slack).Ok?
    requires slack ==> |p.lb| == |monos| && |p.ub| == |monos|
    ensures var rows := Assemble(monos, A, project, slack).value.constraints;
      var nc := NonConstant(monos, ConstantMonomial(|monos[0]|));
      var C := ObjectiveCoefficients(monos);
      && |rows| == |nc| < |monos|
      && (forall m :: m in nc ==> m in A && m in C)
      && forall j :: 0 <= j < |nc| ==>
            (Holds(rows[j], p) <==>
             Inner(project(A[nc[j]]), p.x) + (if slack then p.lb[j + 1] - p.ub[j + 1] else 0.0) == C[nc[j]] as real)
  {
    AssembleRows(monos, A, project, slack);
    var zero := ConstantMonomial(|monos[0]|);
    NonConstantCount(monos, zero);
    var nc := NonConstant(monos, zero);
    var C := ObjectiveCoefficients(monos);
    var rows := Assemble(monos, A, project, slack).value.constraints;
    forall j | 0 <= j < |nc|
      ensures Holds(rows[j], p) <==>
              Inner(project(A[nc[j]]), p.x) + (if slack then p.lb[j + 1] - p.ub[j + 1] else 0.0) == C[nc[j]] as real
    {
      MonomialConstraintValue(project(A[nc[j]]), slack, j + 1, C[nc[j]], p);
    }
  }

  /** A point satisfies the constant constraint exactly when `⟨project(A[0]), X⟩ + b = 0`. */
  lemma ConstantMeaning(monos: seq<Monomial>, A: map<Monomial, Matrix>, project: Matrix -> Matrix, slack: bool, p: Point)
    requires Assemble(monos, A, project, slack).Ok?
    ensures var zero := ConstantMonomial(|monos[0]|);
      && zero in A
      && (Holds(Assemble(monos, A, project, slack).value.constantConstraint, p)
          <==> Inner(project(A[zero]), p.x) + p.b == 0.0)
  {
    AssembleShape(monos, A, project, slack);
    var lhs := Assemble(monos, A, project, slack).value.constantConstraint.lhs;
    assert lhs[..1][..0] == [];
    assert Eval(lhs[..1], p) == Inner(project(A[ConstantMonomial(|monos[0]|)]), p.x);
  }

  /**
   * The objective of a successful build is worth
   * `b - ε·Σ_{i≥1} lb[i] - (1+ε)·Σ_{i≥1} ub[i]` with slack and `b` without.
   */
  lemma ObjectiveMeaning(monos: seq<Monomial>, A: map<Monomial, Matrix>, project: Matrix -> Matrix, slack: bool, p: Point)
    requires Assemble(monos, A, project, slack).Ok?
    requires slack ==> |p.lb| == |monos| && |p.ub| == |monos|
    ensures Eval(Assemble(monos, A, project, slack).value.objective, p)
         == if slack then p.b - Epsilon * Sum(p.lb[1..]) - (1.0 + Epsilon) * Sum(p.ub[1..]) else p.b
  {
    AssembleShape(monos, A, project, slack);
    if slack {
      SlackObjectiveValue(|monos|, p);
    } else {
      assert [Term(1.0, B)][..0] == [];
    }
  }

  // ---------------------------------------------------------------------
  // The number of linear variables

  /** `linear_variables`: two slacks per constraint of `constraints` plus `b`, or `b` alone. */
  function LinearVariables(slack: bool, numConstraints: nat): nat
  {
    if slack then 2 * numConstraints + 1 else 1
  }

  /** The slack pairs `1 .. k`. */
  function SlackPairSet(k: nat): set<Atom>
  {
    if k == 0 then {} else SlackPairSet(k - 1) + {Lb(k), Ub(k)}
  }

  /** The slack pairs `1 .. k` hold `lb[i]` and `ub[i]` for `1 <= i <= k`, and no other scalar. */
  lemma {:induction false} SlackPairSetMembers(k: nat)
    ensures forall a :: a in SlackPairSet(k) ==> (a.Lb? || a.Ub?) && 1 <= a.i <= k
    ensures forall i :: 1 <= i <= k ==> Lb(i) in SlackPairSet(k) && Ub(i) in SlackPairSet(k)
  {
    if k > 0 {
      SlackPairSetMembers(k - 1);
    }
  }

  /** Neither `b` nor a slack pair past `k` is among the pairs `1 .. k`. */
  lemma {:induction false} SlackPairSetExcludes(k: nat, j: nat)
    requires k < j
    ensures Lb(j) !in SlackPairSet(k) && Ub(j) !in SlackPairSet(k)
    ensures B !in SlackPairSet(k)
  {
    if k > 0 {
      SlackPairSetExcludes(k - 1, j);
    }
  }

  /** The slack pairs `1 .. k` are `2k` distinct scalars. */
  lemma {:induction false} SlackPairSetSize(k: nat)
    ensures |SlackPairSet(k)| == 2 * k
  {
    if k > 0 {
      var prev := SlackPairSet(k - 1);
      SlackPairSetSize(k - 1);
      SlackPairSetExcludes(k - 1, k);
      var withLb := prev + {Lb(k)};
      assert |withLb| == |prev| + 1;
      assert Ub(k) !in withLb;
      assert SlackPairSet(k) == withLb + {Ub(k)};
    }
  }

  /** With slack on, the constraint of a monomial mentions the scalars `lb[i]` and `ub[i]`; without, none. */
  lemma MonomialConstraintScalars(a: Matrix, slack: bool, i: nat, target: int)
    ensures RowScalars(MonomialConstraint(a, slack, i, target)) == if slack then {Lb(i), Ub(i)} else {}
  {
    MonomialConstraintAtoms(a, slack, i, target);
    var lhs := MonomialConstraint(a, slack, i, target).lhs;
    if slack {
      assert lhs[1].atom == Lb(i) && lhs[2].atom == Ub(i);
    }
  }

  /** Constraints whose j-th mentions the slack pair `j + 1` (or no scalar) together mention the pairs `1 .. k`. */
  lemma {:induction false} ScalarAtomsOfRows(rows: seq<Constraint>, slack: bool, k: nat)
    requires k <= |rows|
    requires forall j :: 0 <= j < |rows| ==> RowScalars(rows[j]) == if slack then {Lb(j + 1), Ub(j + 1)} else {}
    ensures ScalarAtoms(rows[..k]) == if slack then SlackPairSet(k) else {}
  {
    if k > 0 {
      ScalarAtomsOfRows(rows, slack, k - 1);
      assert rows[..k][..k - 1] == rows[..k - 1];
      assert rows[..k][k - 1] == rows[k - 1];
    }
  }

  /** The j-th constraint of a successful build mentions the slack pair `j + 1` with slack on, no scalar without. */
  lemma RowsScalars(monos: seq<Monomial>, A: map<Monomial, Matrix>, project: Matrix -> Matrix, slack: bool)
    requires Assemble(monos, A, project, slack).Ok?
    ensures var rows := Assemble(monos, A, project, slack).value.constraints;
      forall j :: 0 <= j < |rows| ==> RowScalars(rows[j]) == if slack then {Lb(j + 1), Ub(j + 1)} else {}
  {
    AssembleRows(monos, A, project, slack);
    ScalarsOfMonomialConstraints(Assemble(monos, A, project, slack).value.constraints,
                                 NonConstant(monos, ConstantMonomial(|monos[0]|)), A, project,
                                 ObjectiveCoefficients(monos), slack);
  }

  /** Rows built from the monomials `nc` mention the slack pair `j + 1` in row j with slack on, no scalar without. */
  lemma ScalarsOfMonomialConstraints(rows: seq<Constraint>, nc: seq<Monomial>, A: map<Monomial, Matrix>,
                                     project: Matrix -> Matrix, C: map<Monomial, int>, slack: bool)
    requires |rows| == |nc|
    requires forall j :: 0 <= j < |nc| ==>
      && nc[j] in A && nc[j] in C
      && rows[j] == MonomialConstraint(project(A[nc[j]]), slack, j + 1, C[nc[j]])
    ensures forall j :: 0 <= j < |rows| ==> RowScalars(rows[j]) == if slack then {Lb(j + 1), Ub(j + 1)} else {}
  {
    forall j | 0 <= j < |rows|
      ensures RowScalars(rows[j]) == if slack then {Lb(j + 1), Ub(j + 1)} else {}
    {
      MonomialConstraintScalars(project(A[nc[j]]), slack, j + 1, C[nc[j]]);
    }
  }

  /** The constant constraint mentions the scalar `b` and no other. */
  lemma ConstantConstraintScalars(monos: seq<Monomial>, A: map<Monomial, Matrix>, project: Matrix -> Matrix, slack: bool)
    requires Assemble(monos, A, project, slack).Ok?
    ensures RowScalars(Assemble(monos, A, project, slack).value.constantConstraint) == {B}
  {
    AssembleShape(monos, A, project, slack);
    var lhs := Assemble(monos, A, project, slack).value.constantConstraint.lhs;
    assert lhs[0].atom.Dot? && lhs[1].atom == B;
  }

  /** Rows mentioning the slack pairs `1 .. |rows|` (or none), then a row mentioning `b` alone. */
  lemma CountScalars(rows: seq<Constraint>, last: Constraint, slack: bool)
    requires forall j :: 0 <= j < |rows| ==> RowScalars(rows[j]) == if slack then {Lb(j + 1), Ub(j + 1)} else {}
    requires RowScalars(last) == {B}
    ensures |ScalarAtoms(rows + [last])| == LinearVariables(slack, |rows|)
  {
    ScalarAtomsOfRows(rows, slack, |rows|);
    var all := rows + [last];
    assert all[..|all| - 1] == rows[..|rows|];
    var prev: set<Atom> := if slack then SlackPairSet(|rows|) else {};
    assert ScalarAtoms(all) == prev + {B};
    SlackPairSetExcludes(|rows|, |rows| + 1);
    SlackPairSetSize(|rows|);
  }

  /**
   * `linear_variables` counts exactly the scalar variables the instance's
   * constraints mention: `b` and, with slack, the pairs `1 .. len(constraints)`.
   */
  lemma LinearVariablesCountsScalars(monos: seq<Monomial>, A: map<Monomial, Matrix>,
                                     project: Matrix -> Matrix, slack: bool)
    requires Assemble(monos, A, project, slack).Ok?
    ensures var inst := Assemble(monos, A, project, slack).value;
      |ScalarAtoms(AllConstraints(inst))| == LinearVariables(slack, |inst.constraints|)
  {
    RowsScalars(monos, A, project, slack);
    ConstantConstraintScalars(monos, A, project, slack);
    var inst := Assemble(monos, A, project, slack).value;
    CountScalars(inst.constraints, inst.constantConstraint, slack);
  }
}

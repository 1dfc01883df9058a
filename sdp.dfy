/**
 * The symbolic SDP instance the builders assemble: linear expressions over
 * the inner products `⟨A, X⟩` with the PSD variable `X`, the free scalar `b`
 * and the two slack vectors `lb`, `ub`; equality constraints over them; the
 * outcome of a build; and the value of an expression at a candidate point.
 */
module Sdp {
  import opened Monomials

  /** A dense real matrix, as its sequence of rows (a numpy 2-D array). */
  type Matrix = seq<seq<real>>

  /** `shape[0]`: the number of rows. */
  function Dim(a: Matrix): nat
  {
    |a|
  }

  /** A scalar quantity of the SDP a linear expression can mention. */
  datatype Atom =
    | Dot(a: Matrix)   // the inner product ⟨a, X⟩ with the PSD variable X
    | B                // the free scalar b
    | Lb(i: nat)       // entry i of the lower slack vector
    | Ub(i: nat)       // entry i of the upper slack vector

  /** One summand `coef · atom` of a linear expression. */
  datatype Term = Term(coef: real, atom: Atom)

  /** The equality constraint `Σ lhs == rhs`. */
  datatype Constraint = Eq(lhs: seq<Term>, rhs: int)

  /**
   * An assembled instance: the size of the PSD variable, the length of each
   * slack vector (0 when none is declared), the maximised objective, the
   * constraints of the non-constant monomials in emission order, and the
   * constraint of the constant monomial.
   */
  datatype Instance = Instance(
    sizePsdVariable: nat,
    slackLength: nat,
    objective: seq<Term>,
    constraints: seq<Constraint>,
    constantConstraint: Constraint)

  /** Every constraint registered on the solver model, in order. */
  function AllConstraints(inst: Instance): (cs: seq<Constraint>)
    ensures |cs| == |inst.constraints| + 1
    ensures cs[|cs| - 1] == inst.constantConstraint
  {
    inst.constraints + [inst.constantConstraint]
  }

  /**
   * Why a build stops: the monomial list is empty (IndexError), a key is
   * missing from `A` or from `C` (KeyError), or a slack index is past the end
   * of the slack vectors (the solver's index error).
   */
  datatype BuildError =
    | EmptyMonomialList
    | MissingMatrix(m: Monomial)
    | MissingCoefficient(m: Monomial)
    | SlackIndexOutOfRange(i: nat)

  datatype Result<T> = Ok(value: T) | Err(error: BuildError)

  /** `rows` followed by the rows of `r`, or the error of `r`. */
  function Prepend(rows: seq<Constraint>, r: Result<seq<Constraint>>): Result<seq<Constraint>>
  {
    match r
    case Ok(rest) => Ok(rows + rest)
    case Err(e) => Err(e)
  }

  lemma PrependNothing(r: Result<seq<Constraint>>)
    ensures Prepend([], r) == r
  {
    if r.Ok? {
      assert [] + r.value == r.value;
    }
  }

  lemma PrependTwice(a: seq<Constraint>, b: seq<Constraint>, r: Result<seq<Constraint>>)
    ensures Prepend(a, Prepend(b, r)) == Prepend(a + b, r)
  {
    if r.Ok? {
      assert a + (b + r.value) == (a + b) + r.value;
    }
  }

  /** The atoms a linear expression mentions. */
  function Atoms(ts: seq<Term>): (s: set<Atom>)
    ensures forall a :: a in s <==> exists k :: 0 <= k < |ts| && ts[k].atom == a
  {
    if ts == [] then {}
    else
      assert forall k :: 0 < k < |ts| ==> ts[k] == ts[1..][k - 1];
      {ts[0].atom} + Atoms(ts[1..])
  }

  // ---------------------------------------------------------------------
  // Value of an expression at a candidate point

  /** A candidate point: values for X, b and the two slack vectors. */
  datatype Point = Point(x: Matrix, b: real, lb: seq<real>, ub: seq<real>)

  /** Σ_j r[j]·s[j] over the common length. */
  function RowInner(r: seq<real>, s: seq<real>): real
  {
    if r == [] || s == [] then 0.0 else r[0] * s[0] + RowInner(r[1..], s[1..])
  }

  /** The Frobenius inner product Σ_ij a[i][j]·x[i][j] (`Expr.dot(A, X)`). */
  function Inner(a: Matrix, x: Matrix): real
  {
    if a == [] || x == [] then 0.0 else RowInner(a[0], x[0]) + Inner(a[1..], x[1..])
  }

  /** Entry `i` of a vector, 0 past its end. */
  function Entry(v: seq<real>, i: nat): real
  {
    if i < |v| then v[i] else 0.0
  }

  function Value(atom: Atom, p: Point): real
  {
    match atom
    case Dot(a) => Inner(a, p.x)
    case B => p.b
    case Lb(i) => Entry(p.lb, i)
    case Ub(i) => Entry(p.ub, i)
  }

  /** The value of a linear expression at `p`. */
  function Eval(ts: seq<Term>, p: Point): real
  {
    if ts == [] then 0.0 else Eval(ts[..|ts| - 1], p) + ts[|ts| - 1].coef * Value(ts[|ts| - 1].atom, p)
  }

  /** Whether `p` satisfies the constraint. */
  predicate Holds(c: Constraint, p: Point)
  {
    Eval(c.lhs, p) == c.rhs as real
  }

  /** Evaluation is additive over concatenated expressions. */
  lemma {:induction false} EvalAppend(s: seq<Term>, t: seq<Term>, p: Point)
    ensures Eval(s + t, p) == Eval(s, p) + Eval(t, p)
  {
    if t == [] {
      assert s + t == s;
    } else {
      var u := s + t;
      assert u[..|u| - 1] == s + t[..|t| - 1];
      assert u[|u| - 1] == t[|t| - 1];
      EvalAppend(s, t[..|t| - 1], p);
    }
  }

  /** Σ v[i]. */
  function Sum(v: seq<real>): real
  {
    if v == [] then 0.0 else Sum(v[..|v| - 1]) + v[|v| - 1]
  }

  /** The scalar variables (`b` and slack entries) a constraint mentions. */
  function RowScalars(c: Constraint): set<Atom>
  {
    set a | a in Atoms(c.lhs) && !a.Dot?
  }

  /** The scalar variables a list of constraints mentions. */
  function ScalarAtoms(cs: seq<Constraint>): set<Atom>
  {
    if cs == [] then {} else ScalarAtoms(cs[..|cs| - 1]) + RowScalars(cs[|cs| - 1])
  }
}

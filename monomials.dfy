/**
 * Monomials of the second-level stable-set relaxation: the objective
 * coefficients `C`, the constant monomial and the list of non-constant
 * monomials that receive one equality constraint each.
 */
module Monomials {

  /** A monomial: one non-negative exponent per graph vertex (a Python tuple). */
  type Monomial = seq<nat>

  /** Total degree of a monomial: the sum of its exponents. */
  function Degree(m: Monomial): nat
  {
    if |m| == 0 then 0 else m[0] + Degree(m[1..])
  }

  /**
   * The objective coefficients `C`: one entry per listed monomial, -1 on
   * the monomials of degree exactly 1 (the vertex indicators) and 0 on all
   * the others.
   */
  function ObjectiveCoefficients(monos: seq<Monomial>): (C: map<Monomial, int>)
    ensures forall m :: m in C <==> m in monos
    ensures forall m :: m in C ==> (C[m] == -1 <==> Degree(m) == 1)
    ensures forall m :: m in C ==> (C[m] == 0 <==> Degree(m) != 1)
  {
    map m | m in monos :: if Degree(m) == 1 then -1 else 0
  }

  /** The constant monomial: the all-zero tuple of length `n`. */
  function ConstantMonomial(n: nat): (zero: Monomial)
    ensures |zero| == n && Degree(zero) == 0
  {
    if n == 0 then [] else [0] + ConstantMonomial(n - 1)
  }

  /**
   * Among the monomials of length `|m|`, the constant monomial is the only
   * one of degree 0; in particular its objective coefficient is 0.
   */
  lemma {:induction false} ConstantIsOnlyDegreeZero(m: Monomial)
    ensures m == ConstantMonomial(|m|) <==> Degree(m) == 0
  {
    if |m| > 0 {
      ConstantIsOnlyDegreeZero(m[1..]);
      assert ConstantMonomial(|m|) == [0] + ConstantMonomial(|m| - 1);
      if Degree(m) == 0 {
        assert m == [m[0]] + m[1..];
      }
    }
  }

  /**
   * The monomials that get a constraint of their own: the listed monomials
   * different from `zero`, in list order (duplicates kept).
   */
  function NonConstant(monos: seq<Monomial>, zero: Monomial): (nc: seq<Monomial>)
    ensures forall m :: m in nc <==> m in monos && m != zero
  {
    if monos == [] then []
    else if monos[0] == zero then NonConstant(monos[1..], zero)
    else [monos[0]] + NonConstant(monos[1..], zero)
  }

  /**
   * The filter drops every occurrence of `zero` and keeps every other
   * monomial as often as it is listed.
   */
  lemma {:induction false} NonConstantMultiset(monos: seq<Monomial>, zero: Monomial)
    ensures |NonConstant(monos, zero)| == |monos| - multiset(monos)[zero]
    ensures forall m :: m != zero ==> multiset(NonConstant(monos, zero))[m] == multiset(monos)[m]
  {
    if monos != [] {
      assert monos == [monos[0]] + monos[1..];
      NonConstantMultiset(monos[1..], zero);
    }
  }

  /** The filter keeps list order: it distributes over concatenation. */
  lemma {:induction false} NonConstantAppend(a: seq<Monomial>, b: seq<Monomial>, zero: Monomial)
    ensures NonConstant(a + b, zero) == NonConstant(a, zero) + NonConstant(b, zero)
  {
    if a != [] {
      assert (a + b)[0] == a[0];
      assert (a + b)[1..] == a[1..] + b;
      NonConstantAppend(a[1..], b, zero);
    } else {
      assert a + b == b;
    }
  }

  /**
   * When `zero` is listed exactly once, every other listed monomial gets a
   * constraint: one fewer than the number of listed monomials.
   */
  lemma NonConstantCount(monos: seq<Monomial>, zero: Monomial)
    requires zero in monos
    ensures |NonConstant(monos, zero)| < |monos|
    ensures multiset(monos)[zero] == 1 ==> |NonConstant(monos, zero)| == |monos| - 1
  {
    NonConstantMultiset(monos, zero);
    assert multiset(monos)[zero] > 0;
  }
}

/**
 * The integer part of the projected-dimension bound: `sum_ranks`, eight
 * times the rank of the solution plus the ranks of the constraint matrices.
 */
module DimensionBound {

  /** Σ r over a list of ranks. */
  function SumNat(rs: seq<nat>): nat
  {
    if rs == [] then 0 else SumNat(rs[..|rs| - 1]) + rs[|rs| - 1]
  }

  /** `sum_ranks = 8 * rank_solution + sum(ranks_Ai)`. */
  function SumRanks(ranksAi: seq<nat>, rankSolution: nat): nat
  {
    8 * rankSolution + SumNat(ranksAi)
  }

  /** The sum of a concatenation is the sum of the sums. */
  lemma {:induction false} SumNatAppend(a: seq<nat>, b: seq<nat>)
    ensures SumNat(a + b) == SumNat(a) + SumNat(b)
  {
    if b == [] {
      assert a + b == a;
    } else {
      assert (a + b)[..|a + b| - 1] == a + b[..|b| - 1];
      SumNatAppend(a, b[..|b| - 1]);
    }
  }

  /** The order in which the ranks are listed does not matter. */
  lemma {:induction false} SumNatPermutation(a: seq<nat>, b: seq<nat>)
    requires multiset(a) == multiset(b)
    ensures SumNat(a) == SumNat(b)
  {
    if a != [] {
      var x := a[|a| - 1];
      assert a == a[..|a| - 1] + [x];
      assert x in multiset(b);
      var i :| 0 <= i < |b| && b[i] == x;
      var rest := b[..i] + b[i + 1..];
      assert b == b[..i] + [x] + b[i + 1..];
      assert multiset(b) == multiset(rest) + multiset{x};
      assert multiset(a) == multiset(a[..|a| - 1]) + multiset{x};
      assert multiset(rest) == multiset(b) - multiset{x};
      assert multiset(a[..|a| - 1]) == multiset(a) - multiset{x};
      SumNatPermutation(a[..|a| - 1], rest);
      SumNatAppend(b[..i] + [x], b[i + 1..]);
      SumNatAppend(b[..i], [x]);
      SumNatAppend(b[..i], b[i + 1..]);
      assert [x][..0] == [];
    }
  }

  /** Every single rank is at most the sum. */
  lemma {:induction false} SumNatBoundsEach(rs: seq<nat>, k: nat)
    requires k < |rs|
    ensures rs[k] <= SumNat(rs)
  {
    if k < |rs| - 1 {
      SumNatBoundsEach(rs[..|rs| - 1], k);
    }
  }

  /** `n` matrices of rank `r` each: `sum_ranks = 8·rank_solution + n·r`. */
  lemma {:induction false} SumRanksOfEqualRanks(n: nat, r: nat, rankSolution: nat)
    ensures SumRanks(seq(n, _ => r), rankSolution) == 8 * rankSolution + n * r
  {
    if n > 0 {
      assert seq(n, _ => r)[..n - 1] == seq(n - 1, _ => r);
      SumRanksOfEqualRanks(n - 1, r, rankSolution);
    }
  }

  /** The call in the script's entry point: 500 matrices of rank 6 and a solution of rank 66. */
  lemma SumRanksOfEntryPointCall()
    ensures SumRanks(seq(500, _ => 6), 66) == 3528
  {
    SumRanksOfEqualRanks(500, 6, 66);
  }

  /** `sum_ranks` bounds both the solution's share and every matrix's rank. */
  lemma SumRanksBounds(ranksAi: seq<nat>, rankSolution: nat)
    ensures SumRanks(ranksAi, rankSolution) >= 8 * rankSolution
    ensures forall k :: 0 <= k < |ranksAi| ==> ranksAi[k] <= SumRanks(ranksAi, rankSolution)
  {
    forall k | 0 <= k < |ranksAi|
      ensures ranksAi[k] <= SumRanks(ranksAi, rankSolution)
    {
      SumNatBoundsEach(ranksAi, k);
    }
  }
}

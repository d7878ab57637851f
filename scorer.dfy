/**
 * Expected number of words remaining after a guess: for each of the 243
 * outcomes with k words of the pool left, add k * (k / N).
 */
module Scorer {
  import opened Rules
  import opened Filter
  import opened Outcomes

  /** Every word of the list has at least five letters. */
  predicate LongWords(words: seq<string>)
  {
    forall v :: v in words ==> |v| >= 5
  }

  /** Every rule set's positions index into `v`. */
  predicate FitsEach(v: string, perms: seq<seq<Rule>>)
  {
    forall j :: 0 <= j < |perms| ==> Fits(v, perms[j])
  }

  /** Every rule set's positions index into every word of the pool. */
  predicate AllFitEach(pool: seq<string>, perms: seq<seq<Rule>>)
  {
    forall j :: 0 <= j < |perms| ==> AllFit(pool, perms[j])
  }

  /** Sum over the rule sets of the number of pool words each one keeps. */
  function SumSizes(pool: seq<string>, perms: seq<seq<Rule>>): nat
    requires AllFitEach(pool, perms)
  {
    if perms == [] then 0
    else SumSizes(pool, perms[..|perms| - 1]) + |Filtered(pool, perms[|perms| - 1])|
  }

  /** Sum over the rule sets of the square of the number of pool words each one keeps. */
  function SumSquareSizes(pool: seq<string>, perms: seq<seq<Rule>>): nat
    requires AllFitEach(pool, perms)
  {
    if perms == [] then 0
    else
      var k := |Filtered(pool, perms[|perms| - 1])|;
      SumSquareSizes(pool, perms[..|perms| - 1]) + k * k
  }

  /** The score as the source accumulates it: the sum of k * (k / n) over the rule sets. */
  function Accumulated(pool: seq<string>, perms: seq<seq<Rule>>, n: real): real
    requires AllFitEach(pool, perms) && n > 0.0
  {
    if perms == [] then 0.0
    else
      var k := |Filtered(pool, perms[|perms| - 1])| as real;
      Accumulated(pool, perms[..|perms| - 1], n) + k * (k / n)
  }

  /** Number of the rule sets that word `v` satisfies. */
  function CountSatisfied(v: string, perms: seq<seq<Rule>>): nat
    requires FitsEach(v, perms)
  {
    if perms == [] then 0
    else CountSatisfied(v, perms[..|perms| - 1]) + (if SatisfiesAll(v, perms[|perms| - 1]) then 1 else 0)
  }

  /** The score of guess `w` against a non-empty pool of N words: (sum of k^2) / N. */
  function Score(pool: seq<string>, w: string): real
    requires LongWords(pool) && |w| >= 5 && |pool| > 0
  {
    OutcomesFit(pool, w);
    (SumSquareSizes(pool, AllOutcomes(w)) as real) / (|pool| as real)
  }

  /** The outcomes' positions index into every word of at least five letters. */
  lemma OutcomesFit(pool: seq<string>, w: string)
    requires LongWords(pool) && |w| >= 5
    ensures AllFitEach(pool, AllOutcomes(w))
  {
    forall j, v | 0 <= j < OutcomeCount && v in pool ensures Fits(v, AllOutcomes(w)[j]) {
      SatisfiesOutcomeIff(v, w, j);
    }
  }

  lemma LongWordsSnoc(pool: seq<string>, v: string)
    requires LongWords(pool + [v])
    ensures LongWords(pool) && |v| >= 5
  {
    assert v in pool + [v];
    forall u | u in pool ensures |u| >= 5 { assert u in pool + [v]; }
  }

  /** One more pool word raises the sum of sizes by the number of rule sets it satisfies. */
  lemma {:induction false} SumSizesSnoc(pool: seq<string>, v: string, perms: seq<seq<Rule>>)
    requires AllFitEach(pool + [v], perms)
    ensures AllFitEach(pool, perms) && FitsEach(v, perms)
    ensures SumSizes(pool + [v], perms) == SumSizes(pool, perms) + CountSatisfied(v, perms)
  {
    assert v in pool + [v];
    assert AllFitEach(pool, perms) by {
      forall j, u | 0 <= j < |perms| && u in pool ensures Fits(u, perms[j]) {
        assert u in pool + [v];
      }
    }
    if perms != [] {
      var init := perms[..|perms| - 1];
      SumSizesSnoc(pool, v, init);
      FilteredSnoc(pool, v, perms[|perms| - 1]);
    }
  }

  lemma {:induction false} SumSizesEmpty(perms: seq<seq<Rule>>)
    ensures AllFitEach([], perms)
    ensures SumSizes([], perms) == 0
  {
    if perms != [] {
      SumSizesEmpty(perms[..|perms| - 1]);
    }
  }

  /** If `v` satisfies exactly the rule set at index `s`, it satisfies one rule set when `s` is in range, else none. */
  lemma {:induction false} CountSatisfiedOnly(v: string, perms: seq<seq<Rule>>, s: nat)
    requires FitsEach(v, perms)
    requires forall j :: 0 <= j < |perms| ==> (SatisfiesAll(v, perms[j]) <==> j == s)
    ensures CountSatisfied(v, perms) == if s < |perms| then 1 else 0
  {
    if perms != [] {
      var init := perms[..|perms| - 1];
      assert forall j :: 0 <= j < |init| ==> init[j] == perms[j];
      CountSatisfiedOnly(v, init, s);
    }
  }

  /** A word of five or more letters satisfies exactly one of the 243 outcomes of `w`. */
  lemma OutcomeHits(v: string, w: string)
    requires |v| >= 5 && |w| >= 5
    ensures FitsEach(v, AllOutcomes(w))
    ensures CountSatisfied(v, AllOutcomes(w)) == 1
  {
    var os := AllOutcomes(w);
    forall j | 0 <= j < OutcomeCount
      ensures Fits(v, os[j])
      ensures SatisfiesAll(v, os[j]) <==> j == Signature(v, w)
    {
      SatisfiesOutcomeIff(v, w, j);
    }
    SatisfiesOutcomeIff(v, w, 0);
    CountSatisfiedOnly(v, os, Signature(v, w));
  }

  /** Partition: the 243 outcome pools of guess `w` add up to the whole pool. */
  lemma {:induction false} PartitionSum(pool: seq<string>, w: string)
    requires LongWords(pool) && |w| >= 5
    ensures AllFitEach(pool, AllOutcomes(w))
    ensures SumSizes(pool, AllOutcomes(w)) == |pool|
  {
    OutcomesFit(pool, w);
    if pool == [] {
      SumSizesEmpty(AllOutcomes(w));
    } else {
      var p := pool[..|pool| - 1];
      var v := pool[|pool| - 1];
      assert pool == p + [v];
      SumSizesSnoc(p, v, AllOutcomes(w));
      LongWordsSnoc(p, v);
      PartitionSum(p, w);
      OutcomeHits(v, w);
    }
  }

  /** With natural-number sizes, sum <= sum of squares <= square of the sum. */
  lemma {:induction false} SquaresBounds(pool: seq<string>, perms: seq<seq<Rule>>)
    requires AllFitEach(pool, perms)
    ensures SumSizes(pool, perms) <= SumSquareSizes(pool, perms)
    ensures SumSquareSizes(pool, perms) <= SumSizes(pool, perms) * SumSizes(pool, perms)
  {
    if perms != [] {
      var init := perms[..|perms| - 1];
      SquaresBounds(pool, init);
      StepBounds(SumSizes(pool, init), SumSquareSizes(pool, init), |Filtered(pool, perms[|perms| - 1])|);
    }
  }

  /** Adding a size k keeps sum <= sum of squares <= square of the sum. */
  lemma StepBounds(s: nat, q: nat, k: nat)
    requires s <= q <= s * s
    ensures s + k <= q + k * k <= (s + k) * (s + k)
  {
    assert k <= k * k by {
      if k > 0 { assert 1 * k <= k * k; }
    }
    assert (s + k) * (s + k) == s * s + 2 * (s * k) + k * k;
    assert 0 <= s * k;
  }

  /** For n > 0 and n <= q <= n * n, the quotient q / n lies in [1, n]. */
  lemma DivBounds(q: nat, n: nat)
    requires 0 < n && n <= q <= n * n
    ensures 1.0 <= (q as real) / (n as real) <= n as real
  {
    var r := (q as real) / (n as real);
    assert r * (n as real) == q as real;
    assert (n * n) as real == (n as real) * (n as real);
  }

  /** Score bounds: against a pool of N >= 1 words every guess scores between 1 and N. */
  lemma ScoreBounds(pool: seq<string>, w: string)
    requires LongWords(pool) && |w| >= 5 && |pool| > 0
    ensures 1.0 <= Score(pool, w) <= |pool| as real
  {
    PartitionSum(pool, w);
    SquaresBounds(pool, AllOutcomes(w));
    DivBounds(SumSquareSizes(pool, AllOutcomes(w)), |pool|);
  }

  /** A pool of a single word scores exactly 1, whatever the guess. */
  lemma SingleWordScore(v: string, w: string)
    requires |v| >= 5 && |w| >= 5
    ensures LongWords([v])
    ensures Score([v], w) == 1.0
  {
    ScoreBounds([v], w);
  }

  /** Accumulating k * (k / n) gives the sum of the squares divided by n. */
  lemma {:induction false} AccumulatedSquares(pool: seq<string>, perms: seq<seq<Rule>>, n: real)
    requires AllFitEach(pool, perms) && n > 0.0
    ensures Accumulated(pool, perms, n) == (SumSquareSizes(pool, perms) as real) / n
  {
    if perms != [] {
      var init := perms[..|perms| - 1];
      AccumulatedSquares(pool, init, n);
      var size := |Filtered(pool, perms[|perms| - 1])|;
      AccumulateStep(Accumulated(pool, init, n), SumSquareSizes(pool, init), size, size as real, n);
    }
  }

  /** One step: q / n + k * (k / n) == (q + k * k) / n. */
  lemma AccumulateStep(sum: real, q: nat, size: nat, k: real, n: real)
    requires n > 0.0 && sum == (q as real) / n && k == size as real
    ensures sum + k * (k / n) == ((q + size * size) as real) / n
  {
    assert (size * size) as real == k * k;
  }

  /** Extending the prefix of rule sets by one adds that set's term. */
  lemma AccumulatedPrefix(pool: seq<string>, perms: seq<seq<Rule>>, i: nat, n: real, reduced: seq<string>)
    requires AllFitEach(pool, perms) && i < |perms| && n > 0.0
    requires AllFit(pool, perms[i]) && reduced == Filtered(pool, perms[i])
    ensures AllFitEach(pool, perms[..i]) && AllFitEach(pool, perms[..i + 1])
    ensures Accumulated(pool, perms[..i + 1], n)
         == Accumulated(pool, perms[..i], n) + (|reduced| as real) * ((|reduced| as real) / n)
  {
    assert perms[..i + 1][..i] == perms[..i];
  }

  /**
   * CalcExpectedWordsRemaining: builds the outcomes of `w`, reduces the pool
   * by each and accumulates k * (k / N). The `rules` argument is not used.
   */
  method CalcExpectedWordsRemaining(available: seq<string>, rules: seq<Rule>, w: string)
    returns (expected: real)
    requires LongWords(available) && |w| >= 5 && |available| > 0
    ensures expected == Score(available, w)
    ensures 1.0 <= expected <= |available| as real
  {
    var perms := MakeRulePermutations(w);
    OutcomesFit(available, w);
    var sum := 0.0;
    var n := |available| as real;
    for i := 0 to |perms|
      invariant AllFitEach(available, perms[..i])
      invariant sum == Accumulated(available, perms[..i], n)
    {
      var reduced := Reduce(available, perms[i]);
      AccumulatedPrefix(available, perms, i, n, reduced);
      sum := sum + (|reduced| as real) * ((|reduced| as real) / n);
    }
    assert perms[..|perms|] == perms;
    AccumulatedSquares(available, perms, n);
    expected := sum;
    ScoreBounds(available, w);
  }
}

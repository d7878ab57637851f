/**
 * The 243 = 3^5 rule sets a five-letter guess could receive, numbered in
 * base 3 with position 0 as the most significant digit.
 */
module Outcomes {
  import opened Rules
  import opened Filter

  /** Number of outcomes of a five-letter guess. */
  const OutcomeCount: nat := 243

  /** Rule set number `i` for guess `w`: rule k has position k, letter w[k] and the k-th base-3 digit of `i`. */
  function Outcome(w: string, i: nat): seq<Rule>
    requires |w| >= 5 && i < OutcomeCount
  {
    [ Rule(0, w[0], MatchOf(i / 81)),
      Rule(1, w[1], MatchOf((i / 27) % 3)),
      Rule(2, w[2], MatchOf((i / 9) % 3)),
      Rule(3, w[3], MatchOf((i / 3) % 3)),
      Rule(4, w[4], MatchOf(i % 3)) ]
  }

  /** A feedback set for guess `w`: five rules, rule k at position k with letter w[k]. */
  predicate IsFeedbackFor(rs: seq<Rule>, w: string)
    requires |w| >= 5
  {
    |rs| == 5 && forall k :: 0 <= k < 5 ==> rs[k].pos == k && rs[k].letter == w[k]
  }

  /** The outcome number of a five-rule set: its signals read as base-3 digits. */
  function Index(rs: seq<Rule>): (i: nat)
    requires |rs| == 5
    ensures i < OutcomeCount
  {
    81 * Ord(rs[0].signal) + 27 * Ord(rs[1].signal) + 9 * Ord(rs[2].signal)
      + 3 * Ord(rs[3].signal) + Ord(rs[4].signal)
  }

  /** All 243 outcomes of guess `w`, in order of their numbers. */
  function AllOutcomes(w: string): (os: seq<seq<Rule>>)
    requires |w| >= 5
    ensures |os| == OutcomeCount
  {
    seq(OutcomeCount, i requires 0 <= i < OutcomeCount => Outcome(w, i))
  }

  /** MakeRulePermutations: appends outcome i for i = 0 .. 242. */
  method MakeRulePermutations(w: string) returns (res: seq<seq<Rule>>)
    requires |w| >= 5
    ensures |res| == OutcomeCount
    ensures forall i :: 0 <= i < OutcomeCount ==> res[i] == Outcome(w, i)
    ensures res == AllOutcomes(w)
  {
    res := [];
    for i := 0 to OutcomeCount
      invariant |res| == i
      invariant forall j :: 0 <= j < i ==> res[j] == Outcome(w, j)
    {
      var next := [
        Rule(0, w[0], MatchOf(i / 81)),
        Rule(1, w[1], MatchOf((i / 27) % 3)),
        Rule(2, w[2], MatchOf((i / 9) % 3)),
        Rule(3, w[3], MatchOf((i / 3) % 3)),
        Rule(4, w[4], MatchOf(i % 3)) ];
      res := res + [next];
    }
  }

  /** Every outcome is a feedback set for `w`, and its number is `i` again. */
  lemma OutcomeIndex(w: string, i: nat)
    requires |w| >= 5 && i < OutcomeCount
    ensures IsFeedbackFor(Outcome(w, i), w)
    ensures Index(Outcome(w, i)) == i
  {
    var q1 := i / 3;
    var q2 := q1 / 3;
    var q3 := q2 / 3;
    assert i / 9 == q2 && i / 27 == q3 && i / 81 == q3 / 3;
  }

  /** Every feedback set for `w` is exactly one of the outcomes: the one its signals number. */
  lemma IndexOutcome(w: string, rs: seq<Rule>)
    requires |w| >= 5 && IsFeedbackFor(rs, w)
    ensures Outcome(w, Index(rs)) == rs
  {
    var d0, d1, d2, d3, d4 := Ord(rs[0].signal), Ord(rs[1].signal), Ord(rs[2].signal),
                              Ord(rs[3].signal), Ord(rs[4].signal);
    var i := Index(rs);
    assert i / 3 == 27 * d0 + 9 * d1 + 3 * d2 + d3 && i % 3 == d4;
    assert i / 9 == 9 * d0 + 3 * d1 + d2;
    assert i / 27 == 3 * d0 + d1;
    assert i / 81 == d0;
    var o := Outcome(w, i);
    forall k | 0 <= k < 5 ensures o[k] == rs[k] {
      OrdInjective(o[k].signal, rs[k].signal);
    }
  }

  /** The 243 outcomes are pairwise distinct. */
  lemma OutcomesDistinct(w: string, i: nat, j: nat)
    requires |w| >= 5 && i < OutcomeCount && j < OutcomeCount
    ensures Outcome(w, i) == Outcome(w, j) <==> i == j
  {
    OutcomeIndex(w, i);
    OutcomeIndex(w, j);
  }

  /** The feedback set for `w` that `v` is consistent with, position by position. */
  function Classification(v: string, w: string): seq<Rule>
    requires |v| >= 5 && |w| >= 5
  {
    [ Rule(0, w[0], Classify(v, 0, w[0])),
      Rule(1, w[1], Classify(v, 1, w[1])),
      Rule(2, w[2], Classify(v, 2, w[2])),
      Rule(3, w[3], Classify(v, 3, w[3])),
      Rule(4, w[4], Classify(v, 4, w[4])) ]
  }

  /** The number of the one outcome of guess `w` that word `v` satisfies. */
  function Signature(v: string, w: string): nat
    requires |v| >= 5 && |w| >= 5
  {
    Index(Classification(v, w))
  }

  /** A word satisfies a feedback set for `w` exactly when it is the word's classification. */
  lemma SatisfiesFeedbackIff(v: string, w: string, rs: seq<Rule>)
    requires |v| >= 5 && |w| >= 5 && IsFeedbackFor(rs, w)
    ensures Fits(v, rs)
    ensures SatisfiesAll(v, rs) <==> rs == Classification(v, w)
  {
    var c := Classification(v, w);
    forall k | 0 <= k < 5 ensures MatchRule(v, rs[k]) <==> rs[k] == c[k] {
      RuleTrichotomy(v, k, w[k], rs[k].signal);
    }
    if SatisfiesAll(v, rs) {
      assert forall k :: 0 <= k < 5 ==> rs[k] == c[k];
    }
  }

  /**
   * Partition: a word with at least five letters satisfies exactly one of
   * the 243 outcomes of `w`, the one numbered `Signature(v, w)`.
   */
  lemma SatisfiesOutcomeIff(v: string, w: string, i: nat)
    requires |v| >= 5 && |w| >= 5 && i < OutcomeCount
    ensures Fits(v, Outcome(w, i))
    ensures Signature(v, w) < OutcomeCount
    ensures SatisfiesAll(v, Outcome(w, i)) <==> i == Signature(v, w)
  {
    var c := Classification(v, w);
    assert IsFeedbackFor(c, w);
    OutcomeIndex(w, i);
    SatisfiesFeedbackIff(v, w, Outcome(w, i));
    IndexOutcome(w, c);
    OutcomesDistinct(w, i, Index(c));
  }
}

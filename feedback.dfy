/**
 * The colours a true word gives a guess, with the program's own rule for
 * repeated letters: a letter that is not GREEN is YELLOW while its count in
 * the word is at least its count in the guess so far.
 */
module Feedback {
  import opened Rules
  import opened Filter
  import opened Outcomes

  /** A letter-frequency map read as Go reads a map: a missing key counts 0. */
  function Lookup(freq: map<char, nat>, c: char): nat
  {
    if c in freq then freq[c] else 0
  }

  /** The colour AnswerMatch gives `letter` guessed at `pos`, being its `count`-th occurrence in the guess. */
  function Response(word: string, letter: char, pos: nat, count: nat): Match
    requires pos < |word|
  {
    if word[pos] == letter then GREEN
    else if letter in word && Count(word, letter) >= count then YELLOW
    else GREY
  }

  /** The feedback `Answer(word, guess)` produces: one rule per guess position. */
  function Answered(word: string, guess: string): (rs: seq<Rule>)
    requires |guess| <= |word|
    ensures |rs| == |guess|
  {
    seq(|guess|, i requires 0 <= i < |guess| =>
      Rule(i, guess[i], Response(word, guess[i], i, Count(guess[..i + 1], guess[i]))))
  }

  /** AnswerMatch: GREEN on an exact hit, else counts the word's letters in a map. */
  method AnswerMatch(word: string, letter: char, pos: nat, count: nat) returns (m: Match)
    requires pos < |word|
    ensures m == Response(word, letter, pos, count)
  {
    if word[pos] == letter {
      return GREEN;
    }
    var freq: map<char, nat> := map[];
    for j := 0 to |word|
      invariant forall c :: Lookup(freq, c) == Count(word[..j], c)
    {
      var r := word[j];
      assert word[..j + 1][..j] == word[..j];
      freq := freq[r := Lookup(freq, r) + 1];
    }
    assert word[..|word|] == word;
    if letter in word && Lookup(freq, letter) >= count {
      return YELLOW;
    }
    return GREY;
  }

  /** Answer: walks the guess, counting each letter seen so far, and asks AnswerMatch. */
  method Answer(word: string, guess: string) returns (res: seq<Rule>)
    requires |guess| <= |word|
    ensures res == Answered(word, guess)
  {
    var freq: map<char, nat> := map[];
    res := [];
    for i := 0 to |guess|
      invariant |res| == i
      invariant forall j :: 0 <= j < i ==> res[j] == Answered(word, guess)[j]
      invariant forall c :: Lookup(freq, c) == Count(guess[..i], c)
    {
      var r := guess[i];
      assert guess[..i + 1][..i] == guess[..i];
      freq := freq[r := Lookup(freq, r) + 1];
      var m := AnswerMatch(word, r, i, Lookup(freq, r));
      res := res + [Rule(i, r, m)];
    }
  }

  /** EqualRules: same length and the same rule at every index. */
  method EqualRules(a: seq<Rule>, b: seq<Rule>) returns (eq: bool)
    ensures eq <==> a == b
  {
    if |a| != |b| {
      return false;
    }
    for i := 0 to |a|
      invariant forall j :: 0 <= j < i ==> a[j] == b[j]
    {
      if a[i] != b[i] {
        return false;
      }
    }
    return true;
  }

  /**
   * Feedback: rule i has position i and letter guess[i]; it is GREEN exactly
   * when word[i] == guess[i]; otherwise YELLOW exactly when the letter's
   * count in the word is at least its count in guess[..i+1], else GREY.
   */
  lemma FeedbackSignals(word: string, guess: string, i: nat)
    requires |guess| <= |word| && i < |guess|
    ensures Answered(word, guess)[i].pos == i && Answered(word, guess)[i].letter == guess[i]
    ensures Answered(word, guess)[i].signal == GREEN <==> word[i] == guess[i]
    ensures Answered(word, guess)[i].signal == YELLOW
        <==> word[i] != guess[i] && Count(word, guess[i]) >= Count(guess[..i + 1], guess[i])
    ensures Answered(word, guess)[i].signal == GREY
        <==> word[i] != guess[i] && Count(word, guess[i]) < Count(guess[..i + 1], guess[i])
  {
    CountPrefixStep(guess, i, guess[i]);
    CountPositive(word, guess[i]);
  }

  /** The example of the source's doc comment: word drink, guess snare. */
  lemma DrinkSnare()
    ensures Answered("drink", "snare")
         == [Rule(0, 's', GREY), Rule(1, 'n', YELLOW), Rule(2, 'a', GREY),
             Rule(3, 'r', YELLOW), Rule(4, 'e', GREY)]
  {
    var f := Answered("drink", "snare");
    forall i | 0 <= i < 5 ensures f[i].signal == [GREY, YELLOW, GREY, YELLOW, GREY][i] {
      FeedbackSignals("drink", "snare", i);
      CountFive("drink", "snare"[i]);
      CountFive("snare", "snare"[i]);
    }
  }

  /** Repeated letters: word sissy, guess assis gives grey, yellow, green, yellow, yellow. */
  lemma SissyAssis()
    ensures Answered("sissy", "assis")
         == [Rule(0, 'a', GREY), Rule(1, 's', YELLOW), Rule(2, 's', GREEN),
             Rule(3, 'i', YELLOW), Rule(4, 's', YELLOW)]
  {
    var f := Answered("sissy", "assis");
    assert f[0] == Rule(0, 'a', GREY) by {
      FeedbackSignals("sissy", "assis", 0);
      CountFive("sissy", 'a');
      CountFive("assis", 'a');
    }
    assert f[1] == Rule(1, 's', YELLOW) by {
      FeedbackSignals("sissy", "assis", 1);
      CountFive("sissy", 's');
      CountFive("assis", 's');
    }
    assert f[2] == Rule(2, 's', GREEN) by {
      FeedbackSignals("sissy", "assis", 2);
    }
    assert f[3] == Rule(3, 'i', YELLOW) by {
      FeedbackSignals("sissy", "assis", 3);
      CountFive("sissy", 'i');
      CountFive("assis", 'i');
    }
    assert f[4] == Rule(4, 's', YELLOW) by {
      FeedbackSignals("sissy", "assis", 4);
      CountFive("sissy", 's');
      CountFive("assis", 's');
    }
  }

  /**
   * A five-letter guess's feedback is one of its 243 outcomes, and exactly
   * one: the outcome numbered by its own signals.
   */
  lemma FeedbackIsOutcome(word: string, guess: string, i: nat)
    requires |guess| == 5 && |word| >= 5 && i < OutcomeCount
    ensures IsFeedbackFor(Answered(word, guess), guess)
    ensures Outcome(guess, i) == Answered(word, guess) <==> i == Index(Answered(word, guess))
  {
    var f := Answered(word, guess);
    IndexOutcome(guess, f);
    OutcomesDistinct(guess, i, Index(f));
  }

  /** No letter of `s` occurs twice. */
  predicate DistinctLetters(s: string)
  {
    forall i, j :: 0 <= i < j < |s| ==> s[i] != s[j]
  }

  /**
   * When the guess repeats no letter, its feedback is exactly the outcome the
   * scorer files the true word under, and the true word satisfies it.
   */
  lemma FeedbackMatchesClassification(word: string, guess: string)
    requires |guess| == 5 && |word| >= 5 && DistinctLetters(guess)
    ensures Answered(word, guess) == Classification(word, guess)
    ensures Fits(word, Answered(word, guess)) && SatisfiesAll(word, Answered(word, guess))
    ensures Index(Answered(word, guess)) == Signature(word, guess)
  {
    var f := Answered(word, guess);
    var c := Classification(word, guess);
    forall i | 0 <= i < 5 ensures f[i] == c[i] {
      FeedbackSignals(word, guess, i);
      CountPrefixStep(guess, i, guess[i]);
      CountPositive(guess[..i], guess[i]);
      CountPositive(word, guess[i]);
    }
    assert IsFeedbackFor(c, guess);
    SatisfiesFeedbackIff(word, guess, c);
  }

  /**
   * With a repeated guess letter the true word can fail its own feedback:
   * guessing error against drink marks the second r GREY, and the rule
   * filter then demands that drink contain no r.
   */
  lemma TrueWordRejectedByOwnFeedback()
    ensures Fits("drink", Answered("drink", "error"))
    ensures !SatisfiesAll("drink", Answered("drink", "error"))
  {
    var f := Answered("drink", "error");
    CountFive("drink", 'r');
    CountFive("error", 'r');
    FeedbackSignals("drink", "error", 2);
    assert f[2] == Rule(2, 'r', GREY);
    assert !MatchRule("drink", f[2]);
  }

  /**
   * The repeated-letter rule does not subtract later GREEN hits: against
   * those, the guess geese gets a YELLOW and a GREEN e although those has
   * a single e.
   */
  lemma TwoSignalsForOneLetter()
    ensures Count("those", 'e') == 1
    ensures Answered("those", "geese")[1].signal == YELLOW
    ensures Answered("those", "geese")[4].signal == GREEN
  {
    CountFive("those", 'e');
    CountFive("geese", 'e');
    FeedbackSignals("those", "geese", 1);
    FeedbackSignals("those", "geese", 4);
  }

  /**
   * Earlier occurrences use up the answer's letters: abcde has one a, which
   * the GREEN a at 0 of axaxx uses, so the a at 2 is GREY; likewise the
   * YELLOW a at 0 against xxxxa.
   */
  lemma EarlierHitSpends()
    ensures Count("abcde", 'a') == 1 && Count("xxxxa", 'a') == 1
    ensures Answered("abcde", "axaxx")[0].signal == GREEN
    ensures Answered("abcde", "axaxx")[2].signal == GREY
    ensures Answered("xxxxa", "axaxx")[0].signal == YELLOW
    ensures Answered("xxxxa", "axaxx")[2].signal == GREY
  {
    CountFive("abcde", 'a');
    CountFive("xxxxa", 'a');
    CountFive("axaxx", 'a');
    FeedbackSignals("abcde", "axaxx", 0);
    FeedbackSignals("abcde", "axaxx", 2);
    FeedbackSignals("xxxxa", "axaxx", 0);
    FeedbackSignals("xxxxa", "axaxx", 2);
  }
}

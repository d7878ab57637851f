/**
 * The program's driver with its I/O removed: the self-test against a known
 * answer, the choice of candidate words, and the selection of the guess
 * with the lowest expected number of words remaining.
 */
module Driver {
  import opened Rules
  import opened Filter
  import opened Scorer
  import opened Feedback
  import opened Parser

  /** math.MaxFloat64, the largest finite double, (2^53 - 1) * 2^971: the starting lowest score. */
  const MaxFloat64: real := 179769313486231570814527423731704356798070567525844996598917476803157260780028538760589558632766878171540458953514382464234321326889464182768467546703537516986049910576551282076245490090389328944075868508455133942304583236903222948165808559332123348274797826204144723168738177180919299881250404026184124858368.0

  /** The letters line of every complete record is no longer than the answer it is compared with. */
  predicate GuessesFit(testWord: string, lines: seq<string>)
  {
    forall j :: 0 <= j < |lines| - 1 && j % 2 == 0 ==> |lines[j]| <= |testWord|
  }

  /**
   * The self-test: reads the records from the guess lines and recomputes
   * each recorded guess's feedback against `testWord`; `passed[i]` says
   * whether it equals the recorded rules of lines 2i and 2i + 1, and the
   * exit code is 1 when any record disagrees, else 0.
   */
  method SelfTest(testWord: string, lines: seq<string>) returns (passed: seq<bool>, exitCode: int)
    requires LettersLinesLong(lines) && GuessesFit(testWord, lines)
    ensures |passed| == |lines| / 2
    ensures forall i :: 0 <= i < |lines| / 2 ==>
              (passed[i] <==> RecordRules(lines[2 * i], lines[2 * i + 1]) == Answered(testWord, lines[2 * i]))
    ensures exitCode == 0 || exitCode == 1
    ensures exitCode == 1 <==> exists i :: 0 <= i < |passed| && !passed[i]
  {
    var tests := ReadTestGuesses(lines);
    forall i | 0 <= i < |tests|
      ensures 2 * i + 1 < |lines| && |lines[2 * i]| >= 5
      ensures tests[i] == TestGuess(lines[2 * i], RecordRules(lines[2 * i], lines[2 * i + 1]))
    {
      ParsedTestsAt(lines, |lines| / 2, i);
    }
    var fail := 0;
    passed := [];
    for i := 0 to |tests|
      invariant |passed| == i
      invariant forall j :: 0 <= j < i ==>
                  (passed[j] <==> tests[j].rules == Answered(testWord, tests[j].word))
      invariant fail == 0 || fail == 1
      invariant fail == 1 <==> exists j :: 0 <= j < i && !passed[j]
    {
      var t := tests[i];
      var actual := Answer(testWord, t.word);
      var ok := EqualRules(actual, t.rules);
      passed := passed + [ok];
      if !ok {
        fail := 1;
      }
    }
    exitCode := fail;
  }

  /** The candidates: every word with `-a`, otherwise the words that satisfy the rules. */
  method ChooseOptions(words: seq<string>, rules: seq<Rule>, allWords: bool) returns (options: seq<string>)
    requires !allWords ==> AllFit(words, rules)
    ensures options == if allWords then words else Filtered(words, rules)
  {
    FilteredNoRules(words);
    options := Reduce(words, []);
    if !allWords {
      options := Reduce(words, rules);
    }
  }

  /** `scores[i]` is the score of guessing `options[i]` against the pool `options`. */
  predicate Scored(options: seq<string>, scores: seq<real>)
    requires LongWords(options)
  {
    |scores| == |options|
    && forall i :: 0 <= i < |options| ==> scores[i] == Score(options, options[i])
  }

  /** The scores of the first `n` options, each against the whole pool `options`. */
  function ScoresOf(options: seq<string>, n: nat): (scores: seq<real>)
    requires LongWords(options) && n <= |options|
    ensures |scores| == n
  {
    if n == 0 then []
    else ScoresOf(options, n - 1) + [Score(options, options[n - 1])]
  }

  /** Score i of `ScoresOf` is option i's score. */
  lemma {:induction false} ScoresOfScored(options: seq<string>, n: nat)
    requires LongWords(options) && n <= |options|
    ensures forall i :: 0 <= i < n ==> ScoresOf(options, n)[i] == Score(options, options[i])
    ensures n == |options| ==> Scored(options, ScoresOf(options, n))
  {
    if n > 0 {
      ScoresOfScored(options, n - 1);
    }
  }

  /** Index `b` holds the smallest score, and no earlier index holds one as small. */
  predicate FirstMinimum(scores: seq<real>, b: int)
  {
    0 <= b < |scores|
    && (forall j :: 0 <= j < b ==> scores[j] > scores[b])
    && (forall j :: b <= j < |scores| ==> scores[j] >= scores[b])
  }

  /**
   * The selection loop: scores every option against the options and keeps
   * the first strictly lower score, starting from MaxFloat64 and "".
   * `scores` is what `-l` lists, one line per option.
   */
  method SelectBestGuess(options: seq<string>, rules: seq<Rule>)
    returns (bestGuess: string, lowestExpected: real, scores: seq<real>)
    requires LongWords(options)
    ensures Scored(options, scores)
    ensures (forall i :: 0 <= i < |scores| ==> scores[i] >= MaxFloat64)
            ==> bestGuess == "" && lowestExpected == MaxFloat64
    ensures (exists i :: 0 <= i < |scores| && scores[i] < MaxFloat64)
            ==> exists b :: FirstMinimum(scores, b) && bestGuess == options[b] && lowestExpected == scores[b]
  {
    lowestExpected := MaxFloat64;
    bestGuess := "";
    scores := [];
    ghost var best := -1;
    for i := 0 to |options|
      invariant scores == ScoresOf(options, i)
      invariant Selection(scores, best, lowestExpected)
      invariant bestGuess == (if best < 0 then "" else options[best])
    {
      var w := options[i];
      var expected := CalcExpectedWordsRemaining(options, rules, w);
      SelectionStep(scores, best, lowestExpected, expected);
      scores := scores + [expected];
      if expected < lowestExpected {
        lowestExpected := expected;
        bestGuess := w;
        best := i;
      }
    }
    ScoresOfScored(options, |options|);
    SelectionOutcome(scores, best, lowestExpected);
  }

  /**
   * The selection loop's state after scoring the options so far: `best` is
   * -1 with `lowest` still MaxFloat64, or the first index of the smallest
   * score, which is below MaxFloat64.
   */
  predicate Selection(scores: seq<real>, best: int, lowest: real)
  {
    -1 <= best < |scores|
    && lowest == (if best < 0 then MaxFloat64 else scores[best])
    && (best >= 0 ==> lowest < MaxFloat64)
    && (forall j :: 0 <= j < best ==> scores[j] > lowest)
    && (forall j :: 0 <= j < |scores| ==> scores[j] >= lowest)
  }

  /** One iteration keeps the selection state: a strictly lower score takes over, any other leaves it. */
  lemma SelectionStep(scores: seq<real>, best: int, lowest: real, x: real)
    requires Selection(scores, best, lowest)
    ensures x < lowest ==> Selection(scores + [x], |scores|, x)
    ensures !(x < lowest) ==> Selection(scores + [x], best, lowest)
  {
  }

  /** At the end no index was kept exactly when no score is below MaxFloat64; otherwise the kept index is the first minimum. */
  lemma SelectionOutcome(scores: seq<real>, best: int, lowest: real)
    requires Selection(scores, best, lowest)
    ensures best < 0 <==> forall i :: 0 <= i < |scores| ==> scores[i] >= MaxFloat64
    ensures best >= 0 ==> FirstMinimum(scores, best)
  {
    if best >= 0 {
      assert scores[best] < MaxFloat64;
    }
  }

  /**
   * The first minimum's option is in the pool, scores within [1, N], no
   * option scores lower, and every earlier option scores strictly higher.
   */
  lemma MinimumIsLowest(options: seq<string>, scores: seq<real>, b: int)
    requires LongWords(options) && Scored(options, scores) && FirstMinimum(scores, b)
    ensures options[b] in options && scores[b] == Score(options, options[b])
    ensures 1.0 <= scores[b] <= |options| as real
    ensures forall v :: v in options ==> scores[b] <= Score(options, v)
    ensures forall j :: 0 <= j < b ==> Score(options, options[j]) > scores[b]
  {
    ScoreBounds(options, options[b]);
    forall v | v in options ensures scores[b] <= Score(options, v) {
      var j :| 0 <= j < |options| && options[j] == v;
      assert scores[j] >= scores[b];
    }
  }

  /** For a non-empty pool below the sentinel, the selection's answer is the first option with the lowest score. */
  lemma SelectedIsFirstLowest(options: seq<string>, scores: seq<real>, bestGuess: string, lowest: real)
    requires LongWords(options) && Scored(options, scores) && |options| as real < MaxFloat64 && options != []
    requires (exists i :: 0 <= i < |scores| && scores[i] < MaxFloat64)
             ==> exists b :: FirstMinimum(scores, b) && bestGuess == options[b] && lowest == scores[b]
    ensures bestGuess in options && lowest == Score(options, bestGuess)
    ensures 1.0 <= lowest <= |options| as real
    ensures forall v :: v in options ==> lowest <= Score(options, v)
    ensures exists b :: 0 <= b < |options| && bestGuess == options[b]
                        && forall j :: 0 <= j < b ==> Score(options, options[j]) > lowest
  {
    ScoresBelowSentinel(options, scores);
    assert scores[0] < MaxFloat64;
    var b :| FirstMinimum(scores, b) && bestGuess == options[b] && lowest == scores[b];
    MinimumIsLowest(options, scores, b);
  }

  /** With fewer options than MaxFloat64 every score is below it, so a non-empty pool always yields a guess. */
  lemma ScoresBelowSentinel(options: seq<string>, scores: seq<real>)
    requires LongWords(options) && Scored(options, scores)
    requires |options| as real < MaxFloat64
    ensures forall i :: 0 <= i < |scores| ==> 1.0 <= scores[i] < MaxFloat64
  {
    forall i | 0 <= i < |scores| ensures 1.0 <= scores[i] < MaxFloat64 {
      ScoreBounds(options, options[i]);
    }
  }

  /** Rules read from guess lines have positions 0 .. 4, so they apply to every word of five or more letters. */
  lemma ReadRulesFit(lines: seq<string>, words: seq<string>)
    requires LettersLinesLong(lines) && LongWords(words)
    ensures AllFit(words, Flatten(ParsedTests(lines, |lines| / 2)))
  {
    var rules := Flatten(ParsedTests(lines, |lines| / 2));
    forall j | 0 <= j < |rules| ensures rules[j].pos < 5 {
      ReadRulePosition(lines, j);
    }
  }

  /** The options the driver scores: every word with `-a`, else those satisfying the rules read from `lines`. */
  function Options(words: seq<string>, lines: seq<string>, allWords: bool): (options: seq<string>)
    requires LongWords(words) && LettersLinesLong(lines)
    ensures LongWords(options)
    ensures AllFit(words, Flatten(ParsedTests(lines, |lines| / 2)))
    ensures forall v :: v in options <==> v in words && (allWords || SatisfiesAll(v, Flatten(ParsedTests(lines, |lines| / 2))))
  {
    var rules := Flatten(ParsedTests(lines, |lines| / 2));
    ReadRulesFit(lines, words);
    FilteredNoRules(words);
    assert forall v :: v in Filtered(words, rules) <==> v in words && SatisfiesAll(v, rules) by {
      forall v {
        FilteredMembers(words, rules, v);
      }
    }
    if allWords then words else Filtered(words, rules)
  }

  /**
   * The solver without its I/O: reads the guess lines, chooses the options
   * and selects the first option with the lowest score, which lies in
   * [1, N] for N options; no options give "" and MaxFloat64.
   */
  method Solve(words: seq<string>, lines: seq<string>, allWords: bool)
    returns (bestGuess: string, lowestExpected: real)
    requires LongWords(words) && LettersLinesLong(lines)
    requires |words| as real < MaxFloat64
    ensures Options(words, lines, allWords) == [] ==> bestGuess == "" && lowestExpected == MaxFloat64
    ensures Options(words, lines, allWords) != [] ==>
              bestGuess in Options(words, lines, allWords)
              && lowestExpected == Score(Options(words, lines, allWords), bestGuess)
              && 1.0 <= lowestExpected <= |Options(words, lines, allWords)| as real
              && forall v :: v in Options(words, lines, allWords)
                   ==> lowestExpected <= Score(Options(words, lines, allWords), v)
    ensures Options(words, lines, allWords) != [] ==>
              exists b :: 0 <= b < |Options(words, lines, allWords)|
                && bestGuess == Options(words, lines, allWords)[b]
                && forall j :: 0 <= j < b ==> Score(Options(words, lines, allWords), Options(words, lines, allWords)[j]) > lowestExpected
  {
    var rules := ReadGuesses(lines);
    ReadRulesFit(lines, words);
    var options := ChooseOptions(words, rules, allWords);
    assert options == Options(words, lines, allWords);
    if !allWords {
      FilteredLength(words, rules);
    }
    var scores;
    bestGuess, lowestExpected, scores := SelectBestGuess(options, rules);
    if options != [] {
      SelectedIsFirstLowest(options, scores, bestGuess, lowestExpected);
    }
  }
}

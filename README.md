# wordle-solve: a verified model of the guess-scoring core

`wordle-solve` is a command-line Wordle helper written in Go. The user gives
the guesses made so far, each with the colours it received. The program keeps
the dictionary words consistent with that feedback. For every candidate guess
it then computes the expected number of words that would remain after that
guess, and prints the candidate with the lowest expectation. With `-t WORD` it
instead checks a file of recorded guesses and feedback against a known answer.

This project models that core in Dafny and proves properties of it. It has
seven modules, one file each:

- `Rules` (rules.dfy): the three signals GREY, YELLOW and GREEN; a feedback
  rule (position, letter, signal); `MatchRule`; and the letter count that
  the feedback generator relies on.
- `Filter` (filter.dfy): `Reduce`, the nested loop with a `valid` flag and an
  early `break`. It is proved equal to `Filtered`, the order-preserving
  sub-list of words that satisfy every rule. `Filtered` is shown to return
  its input for no rules, to compose over concatenated rule lists and to be
  idempotent.
- `Outcomes` (outcomes.dfy): `MakeRulePermutations`, the 243 rule sets of a
  guess, numbered in base 3. Position 0 is the most significant digit, with
  divisors 81, 27, 9, 3 and 1. The numbering is proved to be a bijection, and
  every word of at least five letters satisfies exactly one outcome of any
  guess.
- `Scorer` (scorer.dfy): `CalcExpectedWordsRemaining`. Its loop adds
  k * (k / N) for each outcome, where k is the number of words the outcome
  keeps. It is proved equal to (sum of k^2) / N. The outcome pools partition
  the pool, so the score lies in [1, N].
- `Feedback` (feedback.dfy): `Answer`, `AnswerMatch` and `EqualRules`,
  including the frequency maps that `Answer` and `AnswerMatch` build.
- `Parser` (parser.dfy): `ParseMatchSymbol`, `ReadTestGuesses` and
  `ReadGuesses`. The input is the sequence of its lines: pairs of a letters
  line and a signal line. The signal line is padded with spaces to five
  characters, and an unpaired last line is dropped.
- `Driver` (driver.dfy): the body of `main` without its I/O. That is the
  self-test against a known answer, the choice of candidates (`-a` or the
  rule-consistent words) and the selection loop. The loop keeps the first
  strictly lower score, starting from `math.MaxFloat64` and "".

The score is a `real`, so k * (k / N) is exact here, where Go accumulates
`float64`. The sentinel `math.MaxFloat64` is the exact real value of that
double.

Behaviour worth knowing:

- **Repeated letters.** They are coloured by the code's running-count rule,
  unlike the usual Wordle colouring. Each earlier occurrence of the letter in
  the guess, whatever its colour, uses up one occurrence in the answer, but no
  occurrence is set aside for a GREEN further right. A non-GREEN letter is
  YELLOW whenever its count in the answer is at least its count in the guess
  up to and including this position (main.go:183-184, main.go:203).
  - `Feedback.EarlierHitSpends`: against abcde, the guess axaxx gets a GREEN
    a at 0 and a GREY a at 2; against xxxxa, a YELLOW a at 0 and a GREY a
    at 2.
  - `Feedback.TwoSignalsForOneLetter`: guessing geese against those gives
    two non-grey e's.
  - `Feedback.TrueWordRejectedByOwnFeedback`: the GREY second r of error
    against drink makes the filter reject drink itself.
- **One-word pool.** A one-word pool scores 1 (k = N = 1) for every guess
  (`Scorer.SingleWordScore`).
- **No candidates left.** The program prints an empty line and reports no
  error (`Driver.SelectBestGuess`, `Driver.Solve`).

## Model

| member | source | states |
|---|---|---|
| Rules.MatchRule | main.go:127-138 | Holds exactly when the rule's signal is the word's classification of the letter at pos: GREY when the letter is not in the word, GREEN when word[pos] is the letter, YELLOW when it is in the word but not at pos (each case spelled out by RuleTrichotomy). |
| Rules.RuleTrichotomy | main.go:127-138 | A rule (pos, c, m) holds for a word exactly when m is the word's classification of c at pos, so exactly one of the three signals holds. GREEN means word[pos] == c. YELLOW means c is in the word but not at pos. GREY means c is not in the word. |
| Rules.CountPositive | main.go:198-203 | A letter's count in a word is positive exactly when the letter occurs in it. This ties the frequency map to `strings.ContainsRune`. |
| Filter.Reduce | main.go:110-125 | The loop returns `Filtered(words, rules)`: the words, in their order, that satisfy every rule. |
| Filter.FilteredMembers | main.go:110-125 | A word is in the result exactly when it is in the input and satisfies every rule. |
| Filter.FilteredLength | main.go:110-125 | The result is never longer than the input. |
| Filter.FilteredNoRules | main.go:279 | With no rules (`Reduce(words, nil)`) the list comes back unchanged. |
| Filter.FilteredCompose | main.go:110-125 | Filtering by r1 + r2 is filtering by r1 and then by r2. |
| Filter.FilteredIdempotent | main.go:110-125 | Filtering twice by the same rules equals filtering once. |
| Filter.FilteredMonotone | main.go:110-125 | One more rule never keeps more words. |
| Outcomes.MakeRulePermutations | main.go:141-164 | Returns 243 rule sets; set i has rule k = (k, w[k], k-th base-3 digit of i), with digits taken by 81, 27, 9, 3, 1. |
| Outcomes.OutcomeIndex | main.go:141-164 | Outcome i is a feedback set for w (positions 0..4, letters of w), and reading its signals back in base 3 gives i. |
| Outcomes.IndexOutcome | main.go:141-164 | Every feedback set for w is an outcome: the one its signals number. |
| Outcomes.OutcomesDistinct | main.go:141-164 | The 243 outcomes are pairwise distinct. |
| Outcomes.SatisfiesFeedbackIff | main.go:127-138 | A word satisfies a feedback set for w exactly when that set is the word's classification against w. |
| Outcomes.SatisfiesOutcomeIff | main.go:127-164 | A word of five or more letters satisfies outcome i of w exactly when i is the word's signature, so exactly one outcome. |
| Scorer.OutcomeHits | main.go:166-171 | A word of five or more letters satisfies exactly one of the 243 outcomes of any guess. |
| Scorer.PartitionSum | main.go:166-171 | The sizes of the 243 reduced pools add up to the pool size. |
| Scorer.ScoreBounds | main.go:166-174 | For a non-empty pool of N words the score lies in [1, N]. |
| Scorer.SingleWordScore | main.go:166-174 | A one-word pool scores exactly 1 for any guess. |
| Scorer.AccumulatedSquares | main.go:168-172 | Accumulating k * (k / N) over the outcomes gives (sum of k^2) / N. |
| Scorer.CalcExpectedWordsRemaining | main.go:166-174 | The loop returns (sum over the 243 outcomes of k^2) / N, which lies in [1, N]. The `rules` argument does not affect the result. |
| Feedback.AnswerMatch | main.go:194-207 | GREEN on an exact hit. Otherwise YELLOW when the letter is in the word and its frequency, counted by the map loop, is at least `count`. Otherwise GREY. |
| Feedback.Answer | main.go:180-192 | The result is `Answered(word, guess)`: rule i is (i, guess[i], AnswerMatch with the letter's running count through i). |
| Feedback.FeedbackSignals | main.go:180-207 | Rule i has position i and letter guess[i]. It is GREEN iff word[i] == guess[i]. Otherwise it is YELLOW iff count(word, c) >= count(guess[..i+1], c), else GREY. |
| Feedback.EqualRules | main.go:209-219 | True exactly when the two rule lists are equal. |
| Feedback.DrinkSnare | main.go:176-179 | drink against snare gives grey s, yellow n, grey a, yellow r, grey e. |
| Feedback.SissyAssis | main.go:180-207 | sissy against assis gives grey, yellow, green, yellow, yellow under the code's repeated-letter rule. |
| Feedback.FeedbackIsOutcome | main.go:141-164 | A five-letter guess's feedback is a feedback set for the guess, and equals outcome i exactly when i is its index. |
| Feedback.FeedbackMatchesClassification | main.go:127-138 | For a guess without repeated letters, the feedback equals the classification the scorer files the answer under. The answer satisfies its own feedback. |
| Feedback.TrueWordRejectedByOwnFeedback | main.go:127-138 | The feedback of error against drink marks the second r GREY, and drink then fails the filter. |
| Feedback.TwoSignalsForOneLetter | main.go:183-184 | those has one e, yet the guess geese gets a YELLOW e at 1 and a GREEN e at 4. |
| Feedback.EarlierHitSpends | main.go:180-207 | abcde and xxxxa each have one a. Against both, the guess axaxx gets a GREY a at 2, because its a at 0 (GREEN against abcde, YELLOW against xxxxa) used it up. |
| Parser.ParseMatchSymbol | main.go:29-37 | '.' is YELLOW, ' ' is GREY and every other character GREEN, each as an if-and-only-if. |
| Parser.Padded | main.go:48-50 | The padded signal line has length max(n, 5), starts with the line, and the added characters are spaces. |
| Parser.PadSignals | main.go:74-76 | The padding loop returns the padded line, of at least five characters. |
| Parser.ParseRecord | main.go:77-84 | The five-rule loop returns `RecordRules`: rule k is (k, letters[k], symbol k of the padded line). |
| Parser.RecordRulesAt | main.go:51-59 | Rule k has position k and letter letters[k]. Its signal is the parsed symbol k, or GREY when the signal line is shorter than k + 1. |
| Parser.RecordIsOutcome | main.go:51-59 | A parsed record is a feedback set for its letters, and hence one of their 243 outcomes. |
| Parser.ReadTestGuesses | main.go:39-63 | Returns one record per pair of lines, in order (`ParsedTests`). |
| Parser.ParsedTestsAt | main.go:39-63 | Record p is read from lines 2p and 2p + 1. |
| Parser.ReadGuesses | main.go:65-87 | Returns the records' rules concatenated in order. |
| Parser.ReadGuessesAt | main.go:65-87 | There are 5 rules per complete pair. Rule 5p + k is rule k of the record read from lines 2p and 2p + 1. |
| Parser.ReadGuessesLength | main.go:65-87 | ReadGuesses yields exactly 5 * (number of lines / 2) rules. |
| Parser.ReadRulePosition | main.go:77-84 | Rule j of ReadGuesses has position j mod 5. |
| Parser.TrailingLineDropped | main.go:68-72 | Adding an unpaired letters line after complete pairs adds no record. |
| Driver.SelfTest | main.go:261-274 | Reads the records from the guess lines. There is one result per complete pair, and `passed[i]` holds exactly when the rules parsed from lines 2i and 2i + 1 equal `Answer(testWord, lines[2i])`. The exit code is 1 exactly when some record fails, else 0. |
| Driver.ChooseOptions | main.go:279-282 | With `-a` the options are all words (`Reduce(words, nil)`). Otherwise they are the words that satisfy the rules. |
| Driver.SelectBestGuess | main.go:284-296 | Scores every option against the options. If no score is below MaxFloat64 (in particular, no options) the result is "" and MaxFloat64. Otherwise it is the first option with the smallest score, and no earlier option scores as low. |
| Driver.SelectionStep | main.go:292-295 | One iteration keeps the loop state: a strictly lower score takes over as the best, and an equal or higher one leaves it. |
| Driver.SelectionOutcome | main.go:284-296 | After the loop no option was kept exactly when no score is below MaxFloat64. Otherwise the kept index is the first minimum. |
| Driver.ScoresBelowSentinel | main.go:284-292 | With fewer than MaxFloat64 options every score lies in [1, MaxFloat64), so the first option always replaces the sentinel. |
| Driver.MinimumIsLowest | main.go:287-296 | The chosen option is in the pool, its score lies in [1, N], no option scores lower, and every earlier option scores strictly higher. |
| Driver.SelectedIsFirstLowest | main.go:284-296 | For a non-empty pool of fewer than MaxFloat64 words, the selection returns an option that scores in [1, N], no lower than any option, and strictly lower than every option before it. |
| Driver.ReadRulesFit | main.go:65-87 | Rules read from guess lines have positions 0..4, so they apply to every word of five or more letters. |
| Driver.Options | main.go:278-282 | The options are a list of words from the dictionary; a word is an option exactly when it is in the dictionary and (with `-a`) always, or (without) it satisfies the rules read. |
| Driver.Solve | main.go:276-300 | With no options the answer is "" and MaxFloat64. Otherwise it is the FIRST option with the lowest score (the strict `<` of main.go:292): its score lies in [1, N], is no higher than any option's score, and is strictly lower than every earlier option's. |

## Left out

- **I/O.** Reading the word list (`ReadWords`), opening files and standard input, `bufio.Scanner`, `flag` parsing, `os.Exit` and all printing are not modelled. The inputs become parameters: the word list, the lines of the guess file, the `-a` flag and the test word. `-l` only prints the scores, which `SelectBestGuess` returns as `scores`.
- **Colour rendering.** `GuessRules.String()` is presentation through a foreign colour library and is not modelled.
- **Floating point.** Scores are exact reals. Go's `float64` rounding, which could reorder near-ties, is not modelled.
- **Unicode.** Strings are sequences of characters. Go's `range` over a string yields byte offsets while `[]rune` indexes runes, and the two agree only for ASCII text, which the model assumes.
- **Panics.**
  - Indexing past a word's end becomes a precondition:
    - `requires |letters| >= 5` on the parser;
    - `LettersLinesLong`, for the letters line of every complete pair;
    - `|guess| <= |word|` on `Answer`;
    - `GuessesFit`, for the letters lines the self-test compares with the test word;
    - `|w| >= 5` on `Outcomes.MakeRulePermutations`, which reads letters 0..4 of the guess (main.go:146-158);
    - `LongWords` on `Scorer.CalcExpectedWordsRemaining` and `Driver.SelectBestGuess`: a shorter pool word would reach the lookup `word[pos]` of main.go:129 through `Reduce`.
    - `LongWords` on `Driver.Solve`, for every dictionary word. This is a little stronger than Go needs. Without `-a`, Go accepts a short dictionary word as long as a rule of the first guess at a position below the word's length rejects it before the lookup goes past its end.
  - `Filter.Reduce`: requires every rule's position to index into every word, although Go would only panic when it actually reaches such a rule.
- `Scorer.CalcExpectedWordsRemaining`: requires a non-empty pool. Go would return NaN (0/0) for an empty pool, but the selection loop never calls it with one.
- `Parser.ParseRecord`: the padding loop and the five-rule loop appear twice in the source, in `ReadTestGuesses` and `ReadGuesses`. They are written once here, and `ReadGuesses` appends each record's five rules in one step rather than one at a time. The resulting list is the same.
- `Driver.Solve`: requires fewer than MaxFloat64 dictionary words, so that the first option always beats the sentinel.

/**
 * Reading feedback text: records of two lines, the guessed letters and a
 * signal line where ' ' is GREY, '.' is YELLOW and anything else GREEN.
 * The input is given as its sequence of lines.
 */
module Parser {
  import opened Rules
  import opened Outcomes

  /** One recorded guess and the feedback it received. */
  datatype TestGuess = TestGuess(word: string, rules: seq<Rule>)

  /** ParseMatchSymbol: '.' is YELLOW, ' ' is GREY, any other character GREEN. */
  function ParseMatchSymbol(r: char): (m: Match)
    ensures m == YELLOW <==> r == '.'
    ensures m == GREY <==> r == ' '
    ensures m == GREEN <==> r != '.' && r != ' '
  {
    if r == '.' then YELLOW
    else if r == ' ' then GREY
    else GREEN
  }

  /** The signal line with spaces appended until it has at least five characters. */
  function Padded(s: string): (p: string)
    ensures |p| == if |s| >= 5 then |s| else 5
    ensures p[..|s|] == s
    ensures forall k :: |s| <= k < |p| ==> p[k] == ' '
    decreases 5 - |s|
  {
    if |s| >= 5 then s else Padded(s + " ")
  }

  /** The five rules of one record: rule k has position k, letter k of the letters line and signal k of the padded signal line. */
  function RecordRules(letters: string, matches: string): (rs: seq<Rule>)
    requires |letters| >= 5
    ensures |rs| == 5
  {
    var padded := Padded(matches);
    seq(5, k requires 0 <= k < 5 => Rule(k, letters[k], ParseMatchSymbol(padded[k])))
  }

  /** Every letters line that starts a complete record has at least five characters. */
  predicate LettersLinesLong(lines: seq<string>)
  {
    forall j :: 0 <= j < |lines| - 1 && j % 2 == 0 ==> |lines[j]| >= 5
  }

  /** The first `n` complete records of `lines`. */
  function ParsedTests(lines: seq<string>, n: nat): (ts: seq<TestGuess>)
    requires LettersLinesLong(lines) && n <= |lines| / 2
    ensures |ts| == n
  {
    if n == 0 then []
    else
      var j := 2 * (n - 1);
      ParsedTests(lines, n - 1) + [TestGuess(lines[j], RecordRules(lines[j], lines[j + 1]))]
  }

  /** Record n, read from lines 2n and 2n + 1, extends the records before it. */
  lemma ParsedTestsNext(lines: seq<string>, n: nat)
    requires LettersLinesLong(lines) && 2 * n + 1 < |lines|
    ensures |lines[2 * n]| >= 5 && n + 1 <= |lines| / 2
    ensures ParsedTests(lines, n + 1)
         == ParsedTests(lines, n) + [TestGuess(lines[2 * n], RecordRules(lines[2 * n], lines[2 * n + 1]))]
  {
  }

  /** All the rules of a list of records, in order. */
  function Flatten(ts: seq<TestGuess>): seq<Rule>
  {
    if ts == [] then [] else Flatten(ts[..|ts| - 1]) + ts[|ts| - 1].rules
  }

  /** The rules of the first n + 1 records are those of the first n followed by record n's. */
  lemma FlattenNext(lines: seq<string>, n: nat)
    requires LettersLinesLong(lines) && 2 * n + 1 < |lines|
    ensures |lines[2 * n]| >= 5 && n + 1 <= |lines| / 2
    ensures Flatten(ParsedTests(lines, n + 1))
         == Flatten(ParsedTests(lines, n)) + RecordRules(lines[2 * n], lines[2 * n + 1])
  {
    ParsedTestsNext(lines, n);
    var ts := ParsedTests(lines, n + 1);
    assert ts[..|ts| - 1] == ParsedTests(lines, n);
  }

  /** Appends spaces to a signal line while it has fewer than five characters. */
  method PadSignals(line: string) returns (matches: string)
    ensures matches == Padded(line)
    ensures |matches| >= 5
  {
    matches := line;
    while |matches| < 5
      invariant Padded(matches) == Padded(line)
      decreases 5 - |matches|
    {
      matches := matches + " ";
    }
  }

  /** Rule i of a record, appended to the first i, gives the first i + 1; after five, the whole record. */
  lemma RecordRulesStep(letters: string, line: string, matches: string, i: nat)
    requires |letters| >= 5 && i < 5 && matches == Padded(line)
    ensures RecordRules(letters, line)[..i + 1]
         == RecordRules(letters, line)[..i] + [Rule(i, letters[i], ParseMatchSymbol(matches[i]))]
  {
  }

  /**
   * The body shared by both readers: pads the signal line, then builds
   * rule i from letter i and signal i for i = 0 .. 4.
   */
  method ParseRecord(letters: string, line: string) returns (rules: seq<Rule>)
    requires |letters| >= 5
    ensures rules == RecordRules(letters, line)
  {
    var matches := PadSignals(line);
    rules := [];
    for i := 0 to 5
      invariant rules == RecordRules(letters, line)[..i]
    {
      RecordRulesStep(letters, line, matches, i);
      rules := rules + [Rule(i, letters[i], ParseMatchSymbol(matches[i]))];
    }
    assert RecordRules(letters, line)[..5] == RecordRules(letters, line);
  }

  /** ReadTestGuesses: one record per pair of lines; an unpaired last line is dropped. */
  method ReadTestGuesses(lines: seq<string>) returns (res: seq<TestGuess>)
    requires LettersLinesLong(lines)
    ensures res == ParsedTests(lines, |lines| / 2)
  {
    res := [];
    var k := 0;
    ghost var n := 0;
    while k < |lines|
      invariant k <= |lines| && k == 2 * n
      invariant res == ParsedTests(lines, n)
    {
      var letters := lines[k];
      if k + 1 >= |lines| {
        break;
      }
      ParsedTestsNext(lines, n);
      var rules := ParseRecord(letters, lines[k + 1]);
      res := res + [TestGuess(letters, rules)];
      k := k + 2;
      n := n + 1;
    }
    assert n == |lines| / 2;
  }

  /** ReadGuesses: the rules of every complete record, five per record, in order. */
  method ReadGuesses(lines: seq<string>) returns (res: seq<Rule>)
    requires LettersLinesLong(lines)
    ensures res == Flatten(ParsedTests(lines, |lines| / 2))
  {
    res := [];
    var k := 0;
    ghost var n := 0;
    while k < |lines|
      invariant k <= |lines| && k == 2 * n
      invariant res == Flatten(ParsedTests(lines, n))
    {
      var letters := lines[k];
      if k + 1 >= |lines| {
        break;
      }
      FlattenNext(lines, n);
      var rules := ParseRecord(letters, lines[k + 1]);
      res := res + rules;
      k := k + 2;
      n := n + 1;
    }
    assert n == |lines| / 2;
  }

  /**
   * A record's rules: position k, letter k of the letters line, and the
   * parsed signal k; a signal line shorter than k + 1 characters gives GREY.
   */
  lemma RecordRulesAt(letters: string, matches: string, k: nat)
    requires |letters| >= 5 && k < 5
    ensures RecordRules(letters, matches)[k].pos == k
    ensures RecordRules(letters, matches)[k].letter == letters[k]
    ensures k < |matches| ==> RecordRules(letters, matches)[k].signal == ParseMatchSymbol(matches[k])
    ensures k >= |matches| ==> RecordRules(letters, matches)[k].signal == GREY
  {
    var p := Padded(matches);
    if k < |matches| {
      assert p[..|matches|][k] == p[k];
    }
  }

  /** A record's rules form a feedback set for its letters, so they are one of the 243 outcomes. */
  lemma RecordIsOutcome(letters: string, matches: string)
    requires |letters| >= 5
    ensures IsFeedbackFor(RecordRules(letters, matches), letters)
    ensures Outcome(letters, Index(RecordRules(letters, matches))) == RecordRules(letters, matches)
  {
    IndexOutcome(letters, RecordRules(letters, matches));
  }

  /** Record p is read from lines 2p and 2p + 1. */
  lemma {:induction false} ParsedTestsAt(lines: seq<string>, n: nat, p: nat)
    requires LettersLinesLong(lines) && n <= |lines| / 2 && p < n
    ensures 2 * p + 1 < |lines| && |lines[2 * p]| >= 5
    ensures ParsedTests(lines, n)[p]
         == TestGuess(lines[2 * p], RecordRules(lines[2 * p], lines[2 * p + 1]))
  {
    if p < n - 1 {
      ParsedTestsAt(lines, n - 1, p);
    }
  }

  /** Records with five rules each flatten to five rules per record, record p at 5p .. 5p + 4. */
  lemma {:induction false} FlattenAt(ts: seq<TestGuess>, p: nat, k: nat)
    requires forall t :: t in ts ==> |t.rules| == 5
    requires p < |ts| && k < 5
    ensures |Flatten(ts)| == 5 * |ts|
    ensures Flatten(ts)[5 * p + k] == ts[p].rules[k]
  {
    var init := ts[..|ts| - 1];
    assert ts[|ts| - 1] in ts;
    assert forall t :: t in init ==> t in ts;
    if p < |ts| - 1 {
      FlattenAt(init, p, k);
    } else if init != [] {
      FlattenAt(init, 0, 0);
    }
  }

  /**
   * ReadGuesses yields five rules per complete record: rule 5p + k has
   * position k, letter k of line 2p, and the signal parsed from
   * character k of line 2p + 1 (GREY when that line is shorter).
   */
  lemma ReadGuessesAt(lines: seq<string>, p: nat, k: nat)
    requires LettersLinesLong(lines) && p < |lines| / 2 && k < 5
    ensures 2 * p + 1 < |lines| && |lines[2 * p]| >= 5
    ensures |Flatten(ParsedTests(lines, |lines| / 2))| == 5 * (|lines| / 2)
    ensures Flatten(ParsedTests(lines, |lines| / 2))[5 * p + k]
         == RecordRules(lines[2 * p], lines[2 * p + 1])[k]
  {
    var ts := ParsedTests(lines, |lines| / 2);
    forall t | t in ts ensures |t.rules| == 5 {
      var q :| 0 <= q < |ts| && ts[q] == t;
      ParsedTestsAt(lines, |lines| / 2, q);
    }
    ParsedTestsAt(lines, |lines| / 2, p);
    FlattenAt(ts, p, k);
  }

  /** ReadGuesses yields exactly five rules per complete record. */
  lemma ReadGuessesLength(lines: seq<string>)
    requires LettersLinesLong(lines)
    ensures |Flatten(ParsedTests(lines, |lines| / 2))| == 5 * (|lines| / 2)
  {
    if |lines| / 2 > 0 {
      ReadGuessesAt(lines, 0, 0);
    }
  }

  /** Rule j of ReadGuesses has position j mod 5. */
  lemma ReadRulePosition(lines: seq<string>, j: nat)
    requires LettersLinesLong(lines) && j < |Flatten(ParsedTests(lines, |lines| / 2))|
    ensures Flatten(ParsedTests(lines, |lines| / 2))[j].pos == j % 5
  {
    ReadGuessesLength(lines);
    var p, k := j / 5, j % 5;
    assert j == 5 * p + k;
    ReadGuessesAt(lines, p, k);
    RecordRulesAt(lines[2 * p], lines[2 * p + 1], k);
  }

  /** The records read depend only on the lines that form complete pairs. */
  lemma {:induction false} ParsedTestsPrefix(lines: seq<string>, more: seq<string>, n: nat)
    requires LettersLinesLong(lines) && LettersLinesLong(lines + more) && n <= |lines| / 2
    ensures ParsedTests(lines + more, n) == ParsedTests(lines, n)
  {
    if n > 0 {
      ParsedTestsPrefix(lines, more, n - 1);
      var j := 2 * (n - 1);
      assert (lines + more)[j] == lines[j] && (lines + more)[j + 1] == lines[j + 1];
    }
  }

  /** A trailing letters line without its signal line adds no rules. */
  lemma TrailingLineDropped(lines: seq<string>, last: string)
    requires |lines| % 2 == 0 && LettersLinesLong(lines)
    ensures LettersLinesLong(lines + [last])
    ensures ParsedTests(lines + [last], (|lines| + 1) / 2) == ParsedTests(lines, |lines| / 2)
  {
    assert forall j :: 0 <= j < |lines| ==> (lines + [last])[j] == lines[j];
    ParsedTestsPrefix(lines, [last], |lines| / 2);
  }
}

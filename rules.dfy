/** Letter signals, feedback rules and the per-letter rule check. */
module Rules {

  /** The three colours a guessed letter can receive; GREY = 0, YELLOW = 1, GREEN = 2. */
  datatype Match = GREY | YELLOW | GREEN

  /** One feedback rule: the letter guessed at `pos` received `signal`. */
  datatype Rule = Rule(pos: nat, letter: char, signal: Match)

  /** The integer value of a Match constant. */
  function Ord(m: Match): (d: nat)
    ensures d < 3
  {
    match m
    case GREY => 0
    case YELLOW => 1
    case GREEN => 2
  }

  /** The conversion `Match(d)` of an integer digit into a Match constant. */
  function MatchOf(d: nat): (m: Match)
    requires d < 3
    ensures Ord(m) == d
  {
    if d == 0 then GREY else if d == 1 then YELLOW else GREEN
  }

  lemma OrdInjective(m1: Match, m2: Match)
    ensures Ord(m1) == Ord(m2) ==> m1 == m2
  {
  }

  /** Number of occurrences of `c` in `s`. */
  function Count(s: string, c: char): (n: nat)
    ensures n <= |s|
  {
    if s == [] then 0
    else Count(s[..|s| - 1], c) + (if s[|s| - 1] == c then 1 else 0)
  }

  /** A letter occurs in a string exactly when its count there is positive. */
  lemma {:induction false} CountPositive(s: string, c: char)
    ensures Count(s, c) > 0 <==> c in s
  {
    if s != [] {
      var p := s[..|s| - 1];
      CountPositive(p, c);
      assert s == p + [s[|s| - 1]];
    }
  }

  /** Extending a prefix by one letter adds one to that letter's count. */
  lemma CountPrefixStep(s: string, i: nat, c: char)
    requires i < |s|
    ensures Count(s[..i + 1], c) == Count(s[..i], c) + (if s[i] == c then 1 else 0)
  {
    assert s[..i + 1][..i] == s[..i];
  }

  /** The counts in every prefix of a five-letter string, letter by letter. */
  lemma CountFive(s: string, c: char)
    requires |s| == 5
    ensures Count(s[..1], c) == (if s[0] == c then 1 else 0)
    ensures Count(s[..2], c) == Count(s[..1], c) + (if s[1] == c then 1 else 0)
    ensures Count(s[..3], c) == Count(s[..2], c) + (if s[2] == c then 1 else 0)
    ensures Count(s[..4], c) == Count(s[..3], c) + (if s[3] == c then 1 else 0)
    ensures Count(s, c) == Count(s[..5], c) == Count(s[..4], c) + (if s[4] == c then 1 else 0)
  {
    assert s[..0] == [];
    CountPrefixStep(s, 0, c);
    CountPrefixStep(s, 1, c);
    CountPrefixStep(s, 2, c);
    CountPrefixStep(s, 3, c);
    CountPrefixStep(s, 4, c);
    assert s[..5] == s;
  }

  /**
   * Whether `word` is consistent with one feedback rule: exactly when the
   * rule's signal is the word's own classification of the letter at `pos`.
   */
  predicate MatchRule(word: string, rule: Rule): (b: bool)
    requires rule.pos < |word|
    ensures b <==> rule.signal == Classify(word, rule.pos, rule.letter)
  {
    var inWord := rule.letter in word;
    var exactPos := word[rule.pos] == rule.letter;
    match rule.signal
    case GREY => !inWord
    case GREEN => exactPos
    case YELLOW => inWord && !exactPos
  }

  /** The one signal at `pos` for letter `c` that `word` is consistent with. */
  function Classify(word: string, pos: nat, c: char): Match
    requires pos < |word|
  {
    if word[pos] == c then GREEN else if c in word then YELLOW else GREY
  }

  /**
   * Rule trichotomy: for a fixed position and letter, exactly one of the
   * three signals is satisfied by `word` -- GREEN when the letter is at
   * `pos`, YELLOW when it is elsewhere only, GREY when it is absent.
   */
  lemma RuleTrichotomy(word: string, pos: nat, c: char, m: Match)
    requires pos < |word|
    ensures MatchRule(word, Rule(pos, c, m)) <==> m == Classify(word, pos, c)
    ensures Classify(word, pos, c) == GREEN <==> word[pos] == c
    ensures Classify(word, pos, c) == YELLOW <==> c in word && word[pos] != c
    ensures Classify(word, pos, c) == GREY <==> c !in word
  {
  }
}

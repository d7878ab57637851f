/** Reducing a word list to the words consistent with every rule. */
module Filter {
  import opened Rules

  /** Every rule's position indexes into `w`; otherwise MatchRule's lookup `word[pos]` would panic. */
  predicate Fits(w: string, rules: seq<Rule>)
  {
    forall j :: 0 <= j < |rules| ==> rules[j].pos < |w|
  }

  /** Every rule's position indexes into every word of the list. */
  predicate AllFit(words: seq<string>, rules: seq<Rule>)
  {
    forall w :: w in words ==> Fits(w, rules)
  }

  /** `w` satisfies every rule of `rules`. */
  predicate SatisfiesAll(w: string, rules: seq<Rule>)
    requires Fits(w, rules)
  {
    forall j :: 0 <= j < |rules| ==> MatchRule(w, rules[j])
  }

  /** The words of `words`, in their order, that satisfy every rule. */
  function Filtered(words: seq<string>, rules: seq<Rule>): seq<string>
    requires AllFit(words, rules)
  {
    if words == [] then []
    else
      var w := words[|words| - 1];
      Filtered(words[..|words| - 1], rules) + (if SatisfiesAll(w, rules) then [w] else [])
  }

  /** Reduce: the loop over the words with a `valid` flag and an early break. */
  method Reduce(words: seq<string>, rules: seq<Rule>) returns (res: seq<string>)
    requires AllFit(words, rules)
    ensures res == Filtered(words, rules)
  {
    res := [];
    for i := 0 to |words|
      invariant res == Filtered(words[..i], rules)
    {
      var w := words[i];
      assert w in words;
      var valid := true;
      for j := 0 to |rules|
        invariant valid
        invariant forall k :: 0 <= k < j ==> MatchRule(w, rules[k])
      {
        if !MatchRule(w, rules[j]) {
          valid := false;
          break;
        }
      }
      if valid {
        res := res + [w];
      }
      assert words[..i + 1][..i] == words[..i];
    }
    assert words[..|words|] == words;
  }

  /** Appending one word appends it to the result exactly when it satisfies the rules. */
  lemma FilteredSnoc(words: seq<string>, w: string, rules: seq<Rule>)
    requires AllFit(words + [w], rules)
    ensures AllFit(words, rules)
    ensures Filtered(words + [w], rules)
         == Filtered(words, rules) + (if SatisfiesAll(w, rules) then [w] else [])
  {
    assert (words + [w])[..|words|] == words;
  }

  /** Filtering distributes over concatenation, so it keeps the input order. */
  lemma {:induction false} FilteredAppend(a: seq<string>, b: seq<string>, rules: seq<Rule>)
    requires AllFit(a + b, rules)
    ensures AllFit(a, rules) && AllFit(b, rules)
    ensures Filtered(a + b, rules) == Filtered(a, rules) + Filtered(b, rules)
  {
    if b == [] {
      assert a + b == a;
    } else {
      var b' := b[..|b| - 1];
      var w := b[|b| - 1];
      assert b == b' + [w];
      assert a + b == (a + b') + [w];
      FilteredSnoc(a + b', w, rules);
      FilteredAppend(a, b', rules);
      FilteredSnoc(b', w, rules);
    }
  }

  /** Membership: the result holds exactly the listed words that satisfy every rule. */
  lemma {:induction false} FilteredMembers(words: seq<string>, rules: seq<Rule>, w: string)
    requires AllFit(words, rules)
    ensures w in Filtered(words, rules) <==> w in words && SatisfiesAll(w, rules)
  {
    if words != [] {
      var p := words[..|words| - 1];
      assert words == p + [words[|words| - 1]];
      FilteredMembers(p, rules, w);
    }
  }

  /** The result is never longer than the input. */
  lemma {:induction false} FilteredLength(words: seq<string>, rules: seq<Rule>)
    requires AllFit(words, rules)
    ensures |Filtered(words, rules)| <= |words|
  {
    if words != [] {
      var p := words[..|words| - 1];
      assert forall v :: v in p ==> v in words;
      FilteredLength(p, rules);
    }
  }

  /** With no rules the list comes back unchanged (`Reduce(words, nil)`). */
  lemma {:induction false} FilteredNoRules(words: seq<string>)
    ensures AllFit(words, [])
    ensures Filtered(words, []) == words
  {
    if words != [] {
      var p := words[..|words| - 1];
      assert words == p + [words[|words| - 1]];
      FilteredNoRules(p);
    }
  }

  /** Filtering by `r1 + r2` is filtering by `r1` and then by `r2`. */
  lemma {:induction false} FilteredCompose(words: seq<string>, r1: seq<Rule>, r2: seq<Rule>)
    requires AllFit(words, r1 + r2)
    ensures AllFit(words, r1)
    ensures AllFit(Filtered(words, r1), r2)
    ensures Filtered(words, r1 + r2) == Filtered(Filtered(words, r1), r2)
  {
    assert AllFit(words, r1) by {
      forall w | w in words ensures Fits(w, r1) {
        assert Fits(w, r1 + r2);
        forall j | 0 <= j < |r1| ensures r1[j].pos < |w| {
          assert (r1 + r2)[j] == r1[j];
        }
      }
    }
    assert AllFit(Filtered(words, r1), r2) by {
      forall w | w in Filtered(words, r1) ensures Fits(w, r2) {
        FilteredMembers(words, r1, w);
        assert Fits(w, r1 + r2);
        forall j | 0 <= j < |r2| ensures r2[j].pos < |w| {
          assert (r1 + r2)[|r1| + j] == r2[j];
        }
      }
    }
    if words != [] {
      var p := words[..|words| - 1];
      var w := words[|words| - 1];
      assert words == p + [w];
      FilteredCompose(p, r1, r2);
      FilteredSnoc(p, w, r1 + r2);
      FilteredSnoc(p, w, r1);
      assert SatisfiesAll(w, r1 + r2) <==> SatisfiesAll(w, r1) && SatisfiesAll(w, r2) by {
        if SatisfiesAll(w, r1) && SatisfiesAll(w, r2) {
          forall j | 0 <= j < |r1 + r2| ensures MatchRule(w, (r1 + r2)[j]) {
            if j < |r1| { assert (r1 + r2)[j] == r1[j]; }
            else { assert (r1 + r2)[j] == r2[j - |r1|]; }
          }
        }
        if SatisfiesAll(w, r1 + r2) {
          forall j | 0 <= j < |r1| ensures MatchRule(w, r1[j]) {
            assert (r1 + r2)[j] == r1[j];
          }
          forall j | 0 <= j < |r2| ensures MatchRule(w, r2[j]) {
            assert (r1 + r2)[|r1| + j] == r2[j];
          }
        }
      }
      if SatisfiesAll(w, r1) {
        assert Filtered(words, r1) == Filtered(p, r1) + [w];
        FilteredSnoc(Filtered(p, r1), w, r2);
        assert Filtered(Filtered(words, r1), r2)
            == Filtered(Filtered(p, r1), r2) + (if SatisfiesAll(w, r2) then [w] else []);
      } else {
        assert Filtered(words, r1) == Filtered(p, r1);
      }
    }
  }

  /** Filtering twice by the same rules is filtering once. */
  lemma {:induction false} FilteredIdempotent(words: seq<string>, rules: seq<Rule>)
    requires AllFit(words, rules)
    ensures AllFit(Filtered(words, rules), rules)
    ensures Filtered(Filtered(words, rules), rules) == Filtered(words, rules)
  {
    if words != [] {
      var p := words[..|words| - 1];
      var w := words[|words| - 1];
      assert words == p + [w];
      FilteredIdempotent(p, rules);
      if SatisfiesAll(w, rules) {
        assert Filtered(words, rules) == Filtered(p, rules) + [w];
        FilteredSnoc(Filtered(p, rules), w, rules);
      } else {
        assert Filtered(words, rules) == Filtered(p, rules);
      }
    }
  }

  /** One more rule can only shrink the result. */
  lemma FilteredMonotone(words: seq<string>, rules: seq<Rule>, r: Rule)
    requires AllFit(words, rules + [r])
    ensures AllFit(words, rules)
    ensures |Filtered(words, rules + [r])| <= |Filtered(words, rules)|
  {
    FilteredCompose(words, rules, [r]);
    FilteredLength(Filtered(words, rules), [r]);
  }
}

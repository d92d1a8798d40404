// Properties of the commit classifier: the cap, the score as a sum over
// exactly the matched keywords, case insensitivity and the precedence of
// the status rules.

module ClassifierLemmas {
  import opened Text
  import opened Classifier

  /** Every keyword of `table` occurs in `lowered`. */
  predicate AllMatch(table: seq<Keyword>, lowered: string) {
    forall i :: 0 <= i < |table| ==> Contains(lowered, table[i].word)
  }

  /** No keyword of `table` occurs in `lowered`. */
  predicate NoneMatch(table: seq<Keyword>, lowered: string) {
    forall i :: 0 <= i < |table| ==> !Contains(lowered, table[i].word)
  }

  /** Every keyword of `table` that occurs in `a` also occurs in `b`. */
  predicate MatchesWithin(table: seq<Keyword>, a: string, b: string) {
    forall i :: 0 <= i < |table| ==> Contains(a, table[i].word) ==> Contains(b, table[i].word)
  }

  predicate AllPositive(table: seq<Keyword>) {
    forall i :: 0 <= i < |table| ==> table[i].points > 0
  }

  /** The entries among the first `n` of `table` whose word occurs in `lowered`, in table order. */
  function Matched(table: seq<Keyword>, n: nat, lowered: string): seq<Keyword>
    requires n <= |table|
  {
    if n == 0 then []
    else Matched(table, n - 1, lowered) + (if Contains(lowered, table[n - 1].word) then [table[n - 1]] else [])
  }

  /** No entry appears twice in `entries`. */
  predicate Distinct(entries: seq<Keyword>) {
    forall i, j :: 0 <= i < j < |entries| ==> entries[i] != entries[j]
  }

  // ---------------------------------------------------------------------
  // The table

  /** All eight keywords together are worth 155 points, so the cap can bite. */
  lemma KeywordsTotal()
    ensures Sum(Keywords) == 155
    ensures AllPositive(Keywords)
  {
    assert Sum(Keywords[..1]) == 10;
    assert Keywords[..2][..1] == Keywords[..1];
    assert Sum(Keywords[..2]) == 25;
    assert Keywords[..3][..2] == Keywords[..2];
    assert Sum(Keywords[..3]) == 55;
    assert Keywords[..4][..3] == Keywords[..3];
    assert Sum(Keywords[..4]) == 60;
    assert Keywords[..5][..4] == Keywords[..4];
    assert Sum(Keywords[..5]) == 70;
    assert Keywords[..6][..5] == Keywords[..5];
    assert Sum(Keywords[..6]) == 90;
    assert Keywords[..7][..6] == Keywords[..6];
    assert Sum(Keywords[..7]) == 115;
    assert Sum(Keywords) == 155;
  }

  /** No word appears twice in the table, so a keyword can be counted at most once. */
  lemma KeywordsDistinct()
    ensures forall i, j :: 0 <= i < j < |Keywords| ==> Keywords[i].word != Keywords[j].word
    ensures Distinct(Keywords)
  {
  }

  /** The score of a lowered message written out entry by entry, as the table reads. */
  lemma ScoreTable(lowered: string)
    ensures Score(Keywords, |Keywords|, lowered) ==
      (if Contains(lowered, "init") then 10 else 0) + (if Contains(lowered, "setup") then 15 else 0)
      + (if Contains(lowered, "feature") then 30 else 0) + (if Contains(lowered, "fix") then 5 else 0)
      + (if Contains(lowered, "refactor") then 10 else 0) + (if Contains(lowered, "test") then 20 else 0)
      + (if Contains(lowered, "deploy") then 25 else 0) + (if Contains(lowered, "complete") then 40 else 0)
  {
    var l := lowered;
    assert Score(Keywords, 1, l) == Hit(Keywords[0], l);
    assert Score(Keywords, 2, l) == Score(Keywords, 1, l) + Hit(Keywords[1], l);
    assert Score(Keywords, 3, l) == Score(Keywords, 2, l) + Hit(Keywords[2], l);
    assert Score(Keywords, 4, l) == Score(Keywords, 3, l) + Hit(Keywords[3], l);
    assert Score(Keywords, 5, l) == Score(Keywords, 4, l) + Hit(Keywords[4], l);
    assert Score(Keywords, 6, l) == Score(Keywords, 5, l) + Hit(Keywords[5], l);
    assert Score(Keywords, 7, l) == Score(Keywords, 6, l) + Hit(Keywords[6], l);
    assert Score(Keywords, 8, l) == Score(Keywords, 7, l) + Hit(Keywords[7], l);
  }

  // ---------------------------------------------------------------------
  // The score is the sum over exactly the matched keywords

  lemma {:induction false} MatchedMembers(table: seq<Keyword>, n: nat, lowered: string, k: Keyword)
    requires n <= |table|
    ensures k in Matched(table, n, lowered) <==> k in table[..n] && Contains(lowered, k.word)
  {
    if n > 0 {
      MatchedMembers(table, n - 1, lowered, k);
      assert table[..n] == table[..n - 1] + [table[n - 1]];
    }
  }

  /** An entry that occurs once in the table occurs at most once among the matched entries. */
  lemma {:induction false} MatchedDistinct(table: seq<Keyword>, n: nat, lowered: string)
    requires n <= |table|
    requires Distinct(table)
    ensures Distinct(Matched(table, n, lowered))
  {
    if n > 0 {
      var prev, last := Matched(table, n - 1, lowered), table[n - 1];
      MatchedDistinct(table, n - 1, lowered);
      if Contains(lowered, last.word) {
        MatchedMembers(table, n - 1, lowered, last);
        assert last !in table[..n - 1];
        var m := prev + [last];
        forall i, j | 0 <= i < j < |m|
          ensures m[i] != m[j]
        {
          if j == |prev| {
            assert m[i] in prev;
          }
        }
      }
    }
  }

  /**
   * The score the loop accumulates equals the sum of the points of the
   * matched entries.
   */
  lemma {:induction false} ScoreIsSumOfMatched(table: seq<Keyword>, n: nat, lowered: string)
    requires n <= |table|
    ensures Score(table, n, lowered) == Sum(Matched(table, n, lowered))
  {
    if n > 0 {
      var prev, last := Matched(table, n - 1, lowered), table[n - 1];
      ScoreIsSumOfMatched(table, n - 1, lowered);
      if Contains(lowered, last.word) {
        assert (prev + [last])[..|prev|] == prev;
      } else {
        assert prev + [] == prev;
      }
    }
  }

  /**
   * RawScore is the sum of the points of exactly the keywords the lowered
   * message includes; each of them is in the list once, however often the
   * message repeats it.
   */
  lemma RawScoreIsSumOfMatched(commitMessage: string)
    ensures RawScore(commitMessage) == Sum(Matched(Keywords, |Keywords|, Lower(commitMessage)))
    ensures forall k :: k in Matched(Keywords, |Keywords|, Lower(commitMessage)) <==>
      k in Keywords && Contains(Lower(commitMessage), k.word)
    ensures Distinct(Matched(Keywords, |Keywords|, Lower(commitMessage)))
  {
    var l := Lower(commitMessage);
    KeywordsDistinct();
    MatchedDistinct(Keywords, |Keywords|, l);
    ScoreIsSumOfMatched(Keywords, |Keywords|, l);
    assert Keywords[..|Keywords|] == Keywords;
    forall k
      ensures k in Matched(Keywords, |Keywords|, l) <==> k in Keywords && Contains(l, k.word)
    {
      MatchedMembers(Keywords, |Keywords|, l, k);
    }
  }

  // ---------------------------------------------------------------------
  // The score depends only on which keywords occur

  lemma {:induction false} ScoreMonotone(table: seq<Keyword>, n: nat, a: string, b: string)
    requires n <= |table|
    requires MatchesWithin(table, a, b)
    ensures Score(table, n, a) <= Score(table, n, b)
  {
    if n > 0 {
      ScoreMonotone(table, n - 1, a, b);
    }
  }

  /** A message that includes every keyword another includes scores at least as much. */
  lemma ProgressMonotone(m1: string, m2: string)
    requires MatchesWithin(Keywords, Lower(m1), Lower(m2))
    ensures RawScore(m1) <= RawScore(m2)
    ensures Progress(m1) <= Progress(m2)
  {
    ScoreMonotone(Keywords, |Keywords|, Lower(m1), Lower(m2));
  }

  /** Two messages that include the same keywords get the same progress. */
  lemma ProgressDependsOnlyOnMatches(m1: string, m2: string)
    requires MatchesWithin(Keywords, Lower(m1), Lower(m2))
    requires MatchesWithin(Keywords, Lower(m2), Lower(m1))
    ensures Progress(m1) == Progress(m2)
  {
    ScoreMonotone(Keywords, |Keywords|, Lower(m1), Lower(m2));
    ScoreMonotone(Keywords, |Keywords|, Lower(m2), Lower(m1));
  }

  lemma {:induction false} ScoreOfAllMatch(table: seq<Keyword>, n: nat, lowered: string)
    requires n <= |table|
    requires AllMatch(table, lowered)
    ensures Score(table, n, lowered) == Sum(table[..n])
  {
    if n > 0 {
      ScoreOfAllMatch(table, n - 1, lowered);
      assert table[..n][..n - 1] == table[..n - 1];
    }
  }

  /** A message including all eight keywords scores 155 and is capped to 100. */
  lemma AllKeywordsCapped(commitMessage: string)
    requires AllMatch(Keywords, Lower(commitMessage))
    ensures RawScore(commitMessage) == 155
    ensures Progress(commitMessage) == ProgressCap
  {
    ScoreOfAllMatch(Keywords, |Keywords|, Lower(commitMessage));
    assert Keywords[..|Keywords|] == Keywords;
    KeywordsTotal();
  }

  /** With positive points, the first `n` entries score 0 exactly when none of them matches. */
  lemma {:induction false} ScoreZeroIff(table: seq<Keyword>, n: nat, lowered: string)
    requires n <= |table|
    requires AllPositive(table)
    ensures Score(table, n, lowered) == 0 <==>
      forall i :: 0 <= i < n ==> !Contains(lowered, table[i].word)
  {
    if n > 0 {
      ScoreZeroIff(table, n - 1, lowered);
    }
  }

  /** Progress is 0 exactly when the message includes none of the keywords. */
  lemma ProgressZeroIffNoKeyword(commitMessage: string)
    ensures Progress(commitMessage) == 0 <==> NoneMatch(Keywords, Lower(commitMessage))
  {
    KeywordsTotal();
    ScoreZeroIff(Keywords, |Keywords|, Lower(commitMessage));
  }

  lemma {:induction false} ScoreAtLeastHit(table: seq<Keyword>, n: nat, lowered: string, i: nat)
    requires i < n <= |table|
    requires Contains(lowered, table[i].word)
    ensures Score(table, n, lowered) >= table[i].points
  {
    if i < n - 1 {
      ScoreAtLeastHit(table, n - 1, lowered, i);
    }
  }

  // ---------------------------------------------------------------------
  // Case and the status rules

  /** Both classifiers ignore ASCII letter case. */
  lemma CaseInsensitive(commitMessage: string)
    ensures Progress(Lower(commitMessage)) == Progress(commitMessage)
    ensures DetermineStatus(Lower(commitMessage)) == DetermineStatus(commitMessage)
  {
    LowerIdempotent(commitMessage);
  }

  /**
   * A message labelled "Terminé" includes "complete" or "deploy", so its
   * progress is at least 25.
   */
  lemma TermineImpliesProgress(commitMessage: string)
    requires DetermineStatus(commitMessage) == Termine
    ensures Progress(commitMessage) >= 25
  {
    var l := Lower(commitMessage);
    if Contains(l, "deploy") {
      assert Keywords[6].word == "deploy";
      ScoreAtLeastHit(Keywords, |Keywords|, l, 6);
    } else {
      assert Keywords[7].word == "complete";
      ScoreAtLeastHit(Keywords, |Keywords|, l, 7);
    }
  }

  // ---------------------------------------------------------------------
  // Worked examples

  // Concrete messages. Each fact about a literal sits in a lemma of its
  // own: a keyword is shown absent by one of its characters (or one of its
  // adjacent pairs) that the message lacks.

  lemma DeployCompleteLowered(m: string)
    requires m == "deploy complete"
    ensures Lower(m) == m
  {
    LowerOfLowered(m);
  }

  lemma DeployCompleteFacts(m: string)
    requires m == "deploy complete"
    ensures Contains(m, "deploy") && Contains(m, "complete")
  {
    IncludesAt(m, "deploy", 0);
    assert m[7..15] == "complete";
    IncludesAt(m, "complete", 7);
  }

  lemma DeployCompleteLacks(m: string)
    requires m == "deploy complete"
    ensures !Contains(m, "init") && !Contains(m, "setup") && !Contains(m, "feature")
  {
    IncludedCharsOccur(m, "init", 0);
    IncludedCharsOccur(m, "setup", 0);
    IncludedCharsOccur(m, "feature", 0);
  }

  lemma DeployCompleteLacksMore(m: string)
    requires m == "deploy complete"
    ensures !Contains(m, "fix") && !Contains(m, "refactor") && !Contains(m, "test")
    ensures !Contains(m, "error")
  {
    IncludedCharsOccur(m, "fix", 0);
    IncludedCharsOccur(m, "refactor", 0);
    IncludedCharsOccur(m, "test", 2);
    IncludedCharsOccur(m, "error", 1);
  }

  /** Both delivery keywords and no rework keyword: 25 + 40 points, "Terminé". */
  lemma DeployComplete(m: string)
    requires m == "deploy complete"
    ensures Progress(m) == 65
    ensures DetermineStatus(m) == Termine
  {
    DeployCompleteLowered(m);
    DeployCompleteFacts(m);
    DeployCompleteLacks(m);
    DeployCompleteLacksMore(m);
    ScoreTable(m);
  }

  lemma InitSetupLowered(m: string)
    requires m == "init setup"
    ensures Lower(m) == m
  {
    LowerOfLowered(m);
  }

  lemma InitSetupFacts(m: string)
    requires m == "init setup"
    ensures Contains(m, "init") && Contains(m, "setup")
  {
    IncludesAt(m, "init", 0);
    assert m[5..10] == "setup";
    IncludesAt(m, "setup", 5);
  }

  lemma InitSetupLacks(m: string)
    requires m == "init setup"
    ensures !Contains(m, "feature") && !Contains(m, "fix") && !Contains(m, "refactor")
    ensures !Contains(m, "test")
  {
    IncludedCharsOccur(m, "feature", 0);
    IncludedCharsOccur(m, "fix", 0);
    IncludedCharsOccur(m, "refactor", 0);
    IncludedPairsOccur(m, "test", 0);
  }

  lemma InitSetupLacksMore(m: string)
    requires m == "init setup"
    ensures !Contains(m, "deploy") && !Contains(m, "complete") && !Contains(m, "error")
  {
    IncludedCharsOccur(m, "deploy", 0);
    IncludedCharsOccur(m, "complete", 0);
    IncludedCharsOccur(m, "error", 1);
  }

  /** 10 + 15 points, and no status rule fires, so the default label applies. */
  lemma InitSetup(m: string)
    requires m == "init setup"
    ensures Progress(m) == 25
    ensures DetermineStatus(m) == EnCours
  {
    InitSetupLowered(m);
    InitSetupFacts(m);
    InitSetupLacks(m);
    InitSetupLacksMore(m);
    ScoreTable(m);
  }

  lemma FixAndCompleteLowered(m: string)
    requires m == "fix and complete"
    ensures Lower(m) == m
  {
    LowerOfLowered(m);
  }

  lemma FixAndCompleteFacts(m: string)
    requires m == "fix and complete"
    ensures Contains(m, "fix") && Contains(m, "complete")
  {
    IncludesAt(m, "fix", 0);
    assert m[8..16] == "complete";
    IncludesAt(m, "complete", 8);
  }

  lemma FixAndCompleteLacks(m: string)
    requires m == "fix and complete"
    ensures !Contains(m, "init") && !Contains(m, "setup") && !Contains(m, "feature")
  {
    IncludedPairsOccur(m, "init", 1);
    IncludedCharsOccur(m, "setup", 0);
    IncludedCharsOccur(m, "feature", 4);
  }

  lemma FixAndCompleteLacksMore(m: string)
    requires m == "fix and complete"
    ensures !Contains(m, "refactor") && !Contains(m, "test") && !Contains(m, "deploy")
  {
    IncludedCharsOccur(m, "refactor", 0);
    IncludedCharsOccur(m, "test", 2);
    IncludedCharsOccur(m, "deploy", 5);
  }

  /** 5 + 40 points, but the fix rule is tried before the complete rule. */
  lemma FixAndComplete(m: string)
    requires m == "fix and complete"
    ensures Progress(m) == 45
    ensures DetermineStatus(m) == EnCours
  {
    FixAndCompleteLowered(m);
    FixAndCompleteFacts(m);
    FixAndCompleteLacks(m);
    FixAndCompleteLacksMore(m);
    ScoreTable(m);
  }

  lemma RepeatedFixLowered(m: string)
    requires m == "Fix FIX fix"
    ensures Lower(m) == "fix fix fix"
  {
  }

  lemma RepeatedFixFacts(l: string)
    requires l == "fix fix fix"
    ensures Contains(l, "fix")
    ensures !Contains(l, "init") && !Contains(l, "setup") && !Contains(l, "feature")
  {
    IncludesAt(l, "fix", 0);
    IncludedCharsOccur(l, "init", 1);
    IncludedCharsOccur(l, "setup", 0);
    IncludedCharsOccur(l, "feature", 1);
  }

  lemma RepeatedFixLacks(l: string)
    requires l == "fix fix fix"
    ensures !Contains(l, "refactor") && !Contains(l, "test") && !Contains(l, "deploy")
    ensures !Contains(l, "complete")
  {
    IncludedCharsOccur(l, "refactor", 0);
    IncludedCharsOccur(l, "test", 0);
    IncludedCharsOccur(l, "deploy", 0);
    IncludedCharsOccur(l, "complete", 0);
  }

  /** A repeated keyword counts once, and capitals are folded before matching. */
  lemma RepeatedFix(m: string)
    requires m == "Fix FIX fix"
    ensures Progress(m) == 5
    ensures DetermineStatus(m) == EnCours
  {
    RepeatedFixLowered(m);
    RepeatedFixFacts(Lower(m));
    RepeatedFixLacks(Lower(m));
    ScoreTable(Lower(m));
  }
}

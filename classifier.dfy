// The commit classifier of webhook.js: calculateProgress scores a commit
// message from a fixed keyword table and caps the score at 100;
// determineStatus labels the message with a first-rule-wins classification.

module Classifier {
  import opened Text

  /** One entry of the keyword table: a lower-case word and the points it adds. */
  datatype Keyword = Keyword(word: string, points: nat)

  /** The table, in the order `Object.entries` visits it. */
  const Keywords: seq<Keyword> := [
    Keyword("init", 10),
    Keyword("setup", 15),
    Keyword("feature", 30),
    Keyword("fix", 5),
    Keyword("refactor", 10),
    Keyword("test", 20),
    Keyword("deploy", 25),
    Keyword("complete", 40)
  ]

  /** The cap that `Math.min(progress, 100)` applies. */
  const ProgressCap: nat := 100

  /** Points of a list of entries, summed from the back. */
  function Sum(entries: seq<Keyword>): (r: nat) {
    if entries == [] then 0 else Sum(entries[..|entries| - 1]) + entries[|entries| - 1].points
  }

  /** What one entry adds to the score of an already lowered message. */
  function Hit(k: Keyword, lowered: string): (r: nat)
    ensures r == k.points <==> Contains(lowered, k.word) || k.points == 0
    ensures r == 0 <==> !Contains(lowered, k.word) || k.points == 0
  {
    if Contains(lowered, k.word) then k.points else 0
  }

  /**
   * The score the loop of calculateProgress has accumulated after visiting
   * the first `n` entries of `table`.
   */
  function Score(table: seq<Keyword>, n: nat, lowered: string): (r: nat)
    requires n <= |table|
    ensures r <= Sum(table[..n])
  {
    if n == 0 then 0
    else
      assert table[..n][..n - 1] == table[..n - 1];
      Score(table, n - 1, lowered) + Hit(table[n - 1], lowered)
  }

  /** The uncapped score of a commit message: never more than the whole table is worth. */
  function RawScore(commitMessage: string): (r: nat)
    ensures r <= Sum(Keywords)
  {
    assert Keywords[..|Keywords|] == Keywords;
    Score(Keywords, |Keywords|, Lower(commitMessage))
  }

  /** The value calculateProgress returns. */
  function Progress(commitMessage: string): (p: nat)
    ensures p <= ProgressCap
    ensures p <= RawScore(commitMessage)
    ensures RawScore(commitMessage) <= ProgressCap ==> p == RawScore(commitMessage)
    ensures ProgressCap <= RawScore(commitMessage) ==> p == ProgressCap
  {
    var raw := RawScore(commitMessage);
    if raw < ProgressCap then raw else ProgressCap
  }

  /**
   * calculateProgress: visit the table in order, add the points of each
   * keyword the lowered message includes, then cap the sum.
   */
  method CalculateProgress(commitMessage: string) returns (progress: nat)
    ensures progress == Progress(commitMessage)
    ensures progress <= ProgressCap
  {
    var sum: nat := 0;
    var i := 0;
    while i < |Keywords|
      invariant 0 <= i <= |Keywords|
      invariant sum == Score(Keywords, i, Lower(commitMessage))
    {
      var entry := Keywords[i];
      if Contains(Lower(commitMessage), entry.word) {
        sum := sum + entry.points;
      }
      i := i + 1;
    }
    progress := if sum < ProgressCap then sum else ProgressCap;
  }

  /** The two labels of the Statut column. */
  datatype Status = EnCours | Termine {
    function Label(): (s: string)
      ensures s == "En cours" || s == "Terminé"
      ensures s == "Terminé" <==> this == Termine
    {
      match this
      case EnCours => "En cours"
      case Termine => "Terminé"
    }
  }

  /** The message mentions an error or a fix. */
  predicate MentionsRework(lowered: string) {
    Contains(lowered, "error") || Contains(lowered, "fix")
  }

  /** The message mentions a completion or a deployment. */
  predicate MentionsDelivery(lowered: string) {
    Contains(lowered, "complete") || Contains(lowered, "deploy")
  }

  /**
   * determineStatus: the error/fix rule is tried first, then the
   * complete/deploy rule, and "En cours" is the default.
   */
  function DetermineStatus(commitMessage: string): (s: Status)
    ensures s == Termine <==>
      MentionsDelivery(Lower(commitMessage)) && !MentionsRework(Lower(commitMessage))
    ensures MentionsRework(Lower(commitMessage)) ==> s == EnCours
  {
    if Contains(Lower(commitMessage), "error") || Contains(Lower(commitMessage), "fix") then
      EnCours
    else if Contains(Lower(commitMessage), "complete") || Contains(Lower(commitMessage), "deploy") then
      Termine
    else
      EnCours
  }
}

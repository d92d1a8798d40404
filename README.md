# Commit classifier of the portfolio-tracking webhook

`webhook.js` receives commit events on `POST /webhook`. For each event it:

- scores the commit message against a fixed keyword table (`calculateProgress`);
- labels the message "En cours" or "Terminé" (`determineStatus`);
- builds a Notion page (title property "Oracle Portfolio Tracking", status, progress, description, date) and creates it in the configured database;
- replies with the progress and status.

This project models that classifier and the pure parts of the handler in Dafny. It proves what they compute.

- `text.dfy` (module `Text`) models three JavaScript string built-ins: `toLowerCase` as an ASCII case fold, `includes` as a substring predicate, and `substring` with its index clamping and swapping.
- `classifier.dfy` (module `Classifier`) models:
  - the keyword table;
  - the score as a recursive function over the table;
  - `calculateProgress` as a method whose loop is proved to compute that function, capped at 100;
  - `determineStatus` with its first-rule-wins order.
- `classifier_lemmas.dfy` (module `ClassifierLemmas`) proves:
  - the score is the sum of exactly the keywords the lowered message includes;
  - the cap is needed, because the table sums to 155;
  - progress is 0 exactly when no keyword occurs;
  - progress and status ignore case;
  - the rule order of the status;
  - worked examples.
- `webhook.dfy` (module `Webhook`) models:
  - the payload;
  - the page properties (title, status, progress, description);
  - the JSON reply;
  - the handler as a method that takes two inputs: whether the timestamp parses as a date, and the outcome of the page creation.

## Model

| member | source | states |
|---|---|---|
| `Text.LowerChar` | webhook.js:32 | one character is folded to lower case when it is an ASCII capital (code point plus 32), kept otherwise, and is never a capital afterwards |
| `Text.Lower` | webhook.js:32 | lowering keeps the length and folds each ASCII capital to its lower-case letter, leaving every other character as it is |
| `Text.LowerIdempotent` | webhook.js:32 | lowering an already lowered message changes nothing |
| `Text.Contains` | webhook.js:32-47 | `includes`: a string includes only strings no longer than itself, includes each of its prefixes, and includes the empty string |
| `Text.IncludedCharsOccur` | webhook.js:32 | every character of an included keyword occurs in the message (used to show a keyword absent) |
| `Text.IncludedPairsOccur` | webhook.js:32 | every two adjacent characters of an included keyword occur adjacently in the message |
| `Text.ClampIndex` | webhook.js:74 | `substring` clamps an index into `[0, length]`: a negative index becomes 0, an index past the end becomes the length, and an index in range is unchanged |
| `Text.Substring` | webhook.js:74 | `substring` returns a part of the string no longer than it; within bounds it is the slice, and from index 0 it is the prefix up to the clamped end |
| `Text.SubstringSymmetric` | webhook.js:74 | `substring` gives the same result with its two indices swapped |
| `Classifier.Hit` | webhook.js:32-34 | one entry adds its points exactly when the lowered message includes its word, and nothing otherwise |
| `Classifier.Score` | webhook.js:30-35 | the accumulated score never exceeds the points of the entries visited |
| `Classifier.RawScore` | webhook.js:30-35 | the sum before `Math.min` never exceeds what the whole table is worth |
| `Classifier.Progress` | webhook.js:37 | `Math.min(progress, 100)`: the progress equals the raw score when that is at most 100 and is exactly 100 when the raw score is 100 or more |
| `Classifier.CalculateProgress` | webhook.js:18-38 | the loop over the table returns the capped sum of the points of the keywords the lowered message includes, and at most 100 |
| `Classifier.Status.Label` | webhook.js:44-50 | the status is one of the two labels "En cours" and "Terminé", and "Terminé" only for `Termine` |
| `Classifier.DetermineStatus` | webhook.js:41-51 | "Terminé" exactly when the lowered message includes "complete" or "deploy" and neither "error" nor "fix"; "En cours" whenever it includes "error" or "fix" |
| `ClassifierLemmas.KeywordsTotal` | webhook.js:19-28 | the eight keywords together are worth 155 points, and each is worth some points |
| `ClassifierLemmas.KeywordsDistinct` | webhook.js:19-28 | no word, and so no entry, appears twice in the table |
| `ClassifierLemmas.ScoreTable` | webhook.js:19-35 | the table is init 10, setup 15, feature 30, fix 5, refactor 10, test 20, deploy 25, complete 40: the score is the sum of the points of those words the lowered message includes |
| `ClassifierLemmas.MatchedMembers` | webhook.js:31-32 | a keyword is among the matched entries exactly when it is in the table and the lowered message includes its word |
| `ClassifierLemmas.MatchedDistinct` | webhook.js:31-33 | visiting a table without repeated entries collects each matched entry once |
| `ClassifierLemmas.ScoreIsSumOfMatched` | webhook.js:30-35 | the loop's sum equals the sum of the points of exactly the matched entries |
| `ClassifierLemmas.RawScoreIsSumOfMatched` | webhook.js:19-35 | the raw score is the sum of the points of a list that holds exactly the keywords the lowered message includes, none of them twice |
| `ClassifierLemmas.ScoreMonotone` | webhook.js:31-35 | a message that includes at least the keywords of another scores at least as much |
| `ClassifierLemmas.ProgressMonotone` | webhook.js:18-38 | the same holds of the raw score and of the capped progress |
| `ClassifierLemmas.ProgressDependsOnlyOnMatches` | webhook.js:18-38 | two messages that include the same keywords get the same progress |
| `ClassifierLemmas.ScoreOfAllMatch` | webhook.js:30-35 | when every keyword matches, the score is the table's total |
| `ClassifierLemmas.AllKeywordsCapped` | webhook.js:28-37 | a message with all eight keywords scores 155 raw and is capped to 100 |
| `ClassifierLemmas.ScoreZeroIff` | webhook.js:30-35 | with positive points, the score is 0 exactly when no entry matches |
| `ClassifierLemmas.ProgressZeroIffNoKeyword` | webhook.js:18-38 | the progress is 0 exactly when the lowered message includes none of the eight keywords |
| `ClassifierLemmas.ScoreAtLeastHit` | webhook.js:31-35 | a matched entry's points are part of the score |
| `ClassifierLemmas.CaseInsensitive` | webhook.js:32 | progress and status are the same for a message and for its lowered form |
| `ClassifierLemmas.TermineImpliesProgress` | webhook.js:46-48 | a "Terminé" message includes "deploy" or "complete", so its progress is at least 25 |
| `ClassifierLemmas.DeployCompleteLowered` | webhook.js:32 | "deploy complete" is already lowered |
| `ClassifierLemmas.DeployCompleteFacts` | webhook.js:32 | "deploy complete" includes "deploy" and "complete" |
| `ClassifierLemmas.DeployCompleteLacks` | webhook.js:32 | "deploy complete" includes neither "init", "setup" nor "feature" |
| `ClassifierLemmas.DeployCompleteLacksMore` | webhook.js:32 | "deploy complete" includes neither "fix", "refactor", "test" nor "error" |
| `ClassifierLemmas.DeployComplete` | webhook.js:18-51 | "deploy complete" gets progress 65 and status "Terminé" |
| `ClassifierLemmas.InitSetupLowered` | webhook.js:32 | "init setup" is already lowered |
| `ClassifierLemmas.InitSetupFacts` | webhook.js:32 | "init setup" includes "init" and "setup" |
| `ClassifierLemmas.InitSetupLacks` | webhook.js:32 | "init setup" includes neither "feature", "fix", "refactor" nor "test" |
| `ClassifierLemmas.InitSetupLacksMore` | webhook.js:32 | "init setup" includes neither "deploy", "complete" nor "error" |
| `ClassifierLemmas.InitSetup` | webhook.js:18-51 | "init setup" gets progress 25 and the default status "En cours" |
| `ClassifierLemmas.FixAndCompleteLowered` | webhook.js:32 | "fix and complete" is already lowered |
| `ClassifierLemmas.FixAndCompleteFacts` | webhook.js:32 | "fix and complete" includes "fix" and "complete" |
| `ClassifierLemmas.FixAndCompleteLacks` | webhook.js:32 | "fix and complete" includes neither "init", "setup" nor "feature" |
| `ClassifierLemmas.FixAndCompleteLacksMore` | webhook.js:32 | "fix and complete" includes neither "refactor", "test" nor "deploy" |
| `ClassifierLemmas.FixAndComplete` | webhook.js:42-45 | "fix and complete" gets progress 45 but status "En cours", because the fix rule is tried first |
| `ClassifierLemmas.RepeatedFixLowered` | webhook.js:32 | "Fix FIX fix" lowers to "fix fix fix" |
| `ClassifierLemmas.RepeatedFixFacts` | webhook.js:32 | "fix fix fix" includes "fix" and neither "init", "setup" nor "feature" |
| `ClassifierLemmas.RepeatedFixLacks` | webhook.js:32 | "fix fix fix" includes neither "refactor", "test", "deploy" nor "complete" |
| `ClassifierLemmas.RepeatedFix` | webhook.js:18-51 | "Fix FIX fix" gets progress 5, because a repeated keyword counts once, and status "En cours" |
| `Webhook.Reply.Code` | webhook.js:104-107 | the reply is sent with code 200 exactly on success and with code 500 exactly on failure |
| `Webhook.Fallback` | webhook.js:91 | the or-default keeps a present non-empty value and otherwise gives the default, so it is never empty when the default is not |
| `Webhook.Title` | webhook.js:74 | the title is "Commit: ", then the first `min(50, length)` characters of the message, then "..." always, so it is at most 61 characters |
| `Webhook.Description` | webhook.js:91 | the description is "Auteur: ", the author or "Inconnu", then ", Branche: " and the branch or "main" |
| `Webhook.DateFails` | webhook.js:98 | building the date throws exactly when a present, non-empty timestamp does not parse; an absent or empty one falls back to the clock |
| `Webhook.PageFor` | webhook.js:61-102 | the page's title is "Commit: ", the first 50 characters and "..."; its status is "Terminé" exactly when the lowered message includes "complete" or "deploy" and neither "error" nor "fix", else "En cours"; its progress is the raw score capped at 100; its description names the author or "Inconnu" and the branch or "main" |
| `Webhook.HandleWebhook` | webhook.js:56-107 | when the date throws, no page is created and the reply is 500 "Invalid time value"; otherwise it creates that page and replies 200 with exactly the computed progress and status, or 500 with the message the creation failed with |
| `Webhook.TitleOfShortMessage` | webhook.js:74 | a message of at most 50 characters appears whole in the title, still followed by "..." |
| `Webhook.TitleTruncates` | webhook.js:74 | a longer message gives the title of its first 50 characters, 61 characters long |
| `Webhook.DescriptionDefaults` | webhook.js:91 | an absent or empty author and branch both give "Auteur: Inconnu, Branche: main" |
| `Webhook.DescriptionNamed` | webhook.js:91 | a non-empty author and branch appear as given |

## Left out

- The Express application is not modelled because it is HTTP plumbing. This covers CORS, JSON body parsing, routing, the `/health` endpoint and `app.listen` (webhook.js:1-15, 109-118).
- The Notion client call `notion.pages.create` (webhook.js:65-102) is a foreign API call. The handler takes its outcome as an input instead: created, or failed with a message.
- The value of the `Date` property (webhook.js:96-100) depends on the clock and on date parsing and ISO formatting, so the page has no date field. Whether a timestamp parses is an input of the handler, so the RangeError a present, unparseable timestamp throws is modelled with its 500 reply. The values for which `new Date` returns an invalid date are not.
- The `console.log` and `console.error` calls are logging only.
- A missing `commit_message` would throw at webhook.js:61 and reach the 500 reply. The model's payload always carries a string message.
- Author, branch and timestamp are modelled as optional strings. JavaScript values that are neither a string nor absent, such as a numeric timestamp, are not modelled.
- `toLowerCase` is modelled for ASCII only: Unicode case mappings are not.
- `substring` is modelled on characters rather than UTF-16 code units.
- monitoring.js is Firebase and Notion I/O, a network probe and random metrics. It is not part of this model.
- auto_tests.py, check_columns.js and test_notion.js are HTTP or Notion calls, plus a floating-point score. They are not part of this model.

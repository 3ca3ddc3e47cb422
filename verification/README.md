# Lumion Jobs matching engine, modelled in Dafny

This project models the offline job-matching engine of Lumion Jobs
(`js/match-engine.js`). The engine scores every job posting against every
candidate (a *user*) who opted into automatic application, and keeps each
user's five best matches. It has three layers:

- **Text primitives.** `normalize` trims and lower-cases text. `extractSalary`
  leniently parses a `"<number>–<number>"` range; the separator is the en dash
  U+2013. `locationMatch` is a two-way substring test. `skillMatch` is the
  share of a job's required skills that the user holds.
- **The scorer `matchJobToUser`.** It adds five factors in a fixed order:
  skills (up to 40 points, scaled by the skill share), location (20), work
  mode (15), salary (15) and experience (10). It records one reason per
  factor that fired. The score is `Math.min(100, Math.round(sum))`.
- **The batch runner `runMatchingEngine`.** It skips users without
  `autoApply`. For every other user it scores all jobs and keeps scores of 40
  or more. It stable-sorts them best first and keeps the first five.

The model is functional. Records are immutable datatypes
(`records.dfy`), the operations are pure functions, and the batch runner is a
method whose loop mirrors the source's `forEach`/`push`. No floating point is
used. The skill share is an exact `Ratio(num, den)`. The rounded skill points
are `(80·num + den) / (2·den)`, which is `Math.round(40·num/den)` for
non-negative values. The reason threshold `skillScore > 25` becomes
`8·num > 5·den`.

Modules, leaf first: `Wrappers` (an `Option` type standing for
`undefined`/`null`), `Text`, `Location`, `Salary`, `Skills`, `Records`,
`Scoring`, `Ranking`, `Engine`, and `Examples` (a worked scenario).

Notes on `extractSalary` and the output record:

- Only the maximum falls back to the other bound. A missing or zero minimum
  becomes `0` while the maximum is kept, so `"–90000"` gives `(0, 90000)`
  (`Salary.ExtractSalaryMissingMin`). A missing or zero maximum falls back to
  the minimum, so `"70000–0"` gives `(70000, 70000)` (`Salary.ExtractSalaryZeroMax`).
- Only the en dash splits a range. A range written with the ASCII hyphen is
  one piece whose digits run together, so `"5-7"` gives `(57, 57)`
  (`Salary.ExtractSalaryHyphenRange`).
- Characters other than digits are dropped before parsing, so `"$70,000"`
  reads as 70000 (`Salary.ParseIntSkipsNonDigits`).
- A value with more than one en dash keeps only the first two pieces, so
  `"a–b–c"` gives `(a, b)` (`Salary.ExtractSalaryOfFirstTwo`,
  `Salary.ExtractSalaryOfThreeNumbers`).
- Output summaries use the code's field names `userId` and `userName`.

## Model

| member | source | states |
|---|---|---|
| Text.SpacesFrom | js/match-engine.js:8 | the leading cut of `trim`: everything it skips is space and it stops at a non-space character or the end |
| Text.SpacesBefore | js/match-engine.js:8 | the trailing cut of `trim`: everything it skips is space and it stops at a non-space character or the leading cut |
| Text.Trim | js/match-engine.js:8 | `trim()`: the result has no outer space and is the middle of the input, with only spaces cut off on either side |
| Text.LowerChar | js/match-engine.js:8 | lower-casing never yields an upper-case ASCII letter, moves A–Z up by 32, leaves other characters alone and keeps space-ness |
| Text.Lower | js/match-engine.js:8 | `toLowerCase()` keeps the length and lower-cases each character in place |
| Text.Normalize | js/match-engine.js:7-9 | an absent or empty text gives `""`; the result has no outer space and no upper-case letter, and is no longer than the input |
| Text.NormalizeIdempotent | js/match-engine.js:7-9 | normalizing a normalized text changes nothing |
| Text.NormalizeOfTrimmed | js/match-engine.js:7-9 | a text with no outer space normalizes to its lower-cased form |
| Text.TrimUnique | js/match-engine.js:8 | `trim()` returns the one trimmed core that sits between a leading and a trailing run of spaces |
| Text.TrimIgnoresPadding | js/match-engine.js:8 | `trim()` of a trimmed core padded with spaces on either side is that core |
| Text.NormalizeIgnoresPadding | js/match-engine.js:7-9 | a text padded with spaces normalizes to its lower-cased core, so `" Remote "` gives `"remote"`; with `NormalizeOfTrimmed` this fixes every normalized value |
| Text.Contains | js/match-engine.js:18 | `includes`: a prefix is always contained, and a contained needle is no longer than the haystack |
| Text.ContainsIffOccurs | js/match-engine.js:18 | `includes` holds exactly when the needle occurs at some index of the haystack |
| Location.LocationMatch | js/match-engine.js:17-19 | true exactly when one normalized location occurs inside the other; true whenever either normalized side is empty |
| Location.LocationMatchSymmetric | js/match-engine.js:17-19 | swapping the job and user location does not change the answer |
| Location.LocationMatchReflexive | js/match-engine.js:17-19 | every location matches itself |
| Location.LocationMatchOnlyNormalized | js/match-engine.js:17-19 | inputs with the same normalized forms give the same answer |
| Location.LocationMatchIgnoresPadding | js/match-engine.js:17-19 | a location padded with spaces matches exactly what its core matches |
| Salary.IndexOf | js/match-engine.js:13 | finds the first occurrence of the separator: nothing before it is the separator |
| Salary.Split | js/match-engine.js:13 | `split("–")` gives at least one piece, no piece holds the separator, and there is one piece exactly when the separator is absent |
| Salary.JoinSplit | js/match-engine.js:13 | gluing the pieces back with the separator restores the input |
| Salary.SplitJoin | js/match-engine.js:13 | splitting separator-free pieces glued with the separator gives those pieces back |
| Salary.SplitAtFirst | js/match-engine.js:13 | `split` cuts at the first separator: the piece before it comes first and the rest is split on its own |
| Salary.StripNonDigits | js/match-engine.js:13 | `replace(/[^\d]/g, "")` leaves only digits, is the identity on digit strings, and is empty exactly when the input has no digit |
| Salary.StripNonDigitsOne | js/match-engine.js:13 | a single character is kept exactly when it is a digit |
| Salary.StripNonDigitsAppend | js/match-engine.js:13 | stripping a concatenation strips each part; with the one-character case, the result is the input's digits in order |
| Salary.ShowNat | js/match-engine.js:13 | the decimal numeral of a number is a non-empty digit string without the separator |
| Salary.DecimalValueOfShowNat | js/match-engine.js:13 | reading back the decimal numeral of `n` gives `n` |
| Salary.ParseInt | js/match-engine.js:13 | `parseInt(…, 10)` of the stripped text is NaN exactly when the text has no digit, and is the decimal value of a digit string; otherwise it is the decimal value of the input's digits |
| Salary.ParseIntSkipsNonDigits | js/match-engine.js:13 | non-digit characters before, between and after two digit groups are ignored: `"$70,000"` reads as 70000 |
| Salary.OrElse | js/match-engine.js:14 | JavaScript's `or` fallback on a parsed number: a non-zero number is kept; NaN and 0 give the fallback |
| Salary.ExtractSalary | js/match-engine.js:11-15 | an absent or empty value gives `(0,0)`; a zero maximum forces a zero minimum; a value without the en dash gives equal bounds |
| Salary.ExtractSalaryOfPieces | js/match-engine.js:11-15 | `"a–b"` parses piece by piece: the minimum is `a` or 0, and the maximum is `b` or else the minimum |
| Salary.ExtractSalaryOfNumbers | js/match-engine.js:11-15 | `"a–b"` with both figures non-zero gives `(a, b)` |
| Salary.ExtractSalaryOfFigure | js/match-engine.js:11-15 | a non-empty value without the en dash gives both bounds equal to its parsed value, or 0 when nothing parses |
| Salary.ExtractSalaryOfNumber | js/match-engine.js:11-15 | a single figure `n` gives `(n, n)` |
| Salary.ExtractSalaryOfFirstTwo | js/match-engine.js:13-14 | with one or more en dashes, only the first two pieces count: the minimum is the first piece or 0, the maximum the second piece or else the minimum |
| Salary.ExtractSalaryOfThreeNumbers | js/match-engine.js:13-14 | `"a–b–c"` with `a`, `b` non-zero gives `(a, b)`: a third figure is ignored |
| Salary.ExtractSalaryZeroMax | js/match-engine.js:14 | `"a–0"` gives `(a, a)`: a zero maximum falls back to the minimum |
| Salary.ExtractSalaryMissingMin | js/match-engine.js:14 | `"–b"` gives `(0, b)`: a missing minimum falls back to 0 |
| Salary.ExtractSalaryHyphenRange | js/match-engine.js:13 | `"5-7"` has no en dash and reads as the single figure 57 |
| Skills.NormalizeAll | js/match-engine.js:25 | `map(normalize)` keeps the length and normalizes each skill in place |
| Skills.CountHeld | js/match-engine.js:23-26 | the count is at most the number of wanted skills; it equals that number exactly when all are held, and is 0 exactly when none is |
| Skills.CountHeldAppend | js/match-engine.js:23-26 | the count over two lists in sequence is the sum of their counts |
| Skills.CountHeldOne | js/match-engine.js:25-26 | one wanted skill counts 1 when held and 0 otherwise; with `CountHeldAppend` this fixes every count |
| Skills.CountHeldTwoOfThree | js/match-engine.js:23-26 | two held skills out of three wanted give a count of 2 |
| Skills.SkillMatch | js/match-engine.js:21-28 | no required skills gives 1/1; otherwise the denominator is the number of required skills and `0 ≤ num ≤ den`; the share is full exactly when every required skill's normalized form is among the user's normalized skills; it is 0 exactly when none is; the numerator is the count of held required skills |
| Skills.SkillMatchNoRequirements | js/match-engine.js:22 | an absent or empty required list gives 1 whatever the user's skills |
| Scoring.RequiredSkills | js/match-engine.js:38 | `job.skills or job.requiredSkills` in the JavaScript sense: a present `skills` list is taken even when empty; `requiredSkills` only when `skills` is absent |
| Scoring.SkillFraction | js/match-engine.js:38 | the skill share is a fraction in [0,1], the match against `job.skills` when present and against `job.requiredSkills` otherwise |
| Scoring.EmptySkillListWins | js/match-engine.js:38 | an empty `skills` list wins over any `requiredSkills` and gives the full share |
| Scoring.StrongSkills | js/match-engine.js:40 | `skillScore > 25` with `skillScore = 40·num/den`: holds exactly when `40·num > 25·den` |
| Scoring.TwoThirdsShare | js/match-engine.js:38-40 | a 2/3 share gives 27 skill points and the strong-skill reason |
| Scoring.SalaryFits | js/match-engine.js:57 | a fit needs a non-empty window; against a single-figure window it holds exactly when the job's minimum is that figure |
| Scoring.SalaryFitsIgnoresJobMax | js/match-engine.js:55-57 | the job's maximum plays no part: jobs with the same minimum fit the same windows |
| Scoring.LocationFactor | js/match-engine.js:43 | the location factor fires when either normalized location is empty or both are equal |
| Scoring.WorkModeFactor | js/match-engine.js:49 | the work-mode factor fires for equal job types; an absent job type fires exactly when the user's normalizes to empty |
| Scoring.SalaryFactor | js/match-engine.js:55-57 | when it fires the job's minimum is at least the user's; with no user window it fires exactly when the job's minimum is 0 |
| Scoring.ExperienceFactor | js/match-engine.js:63 | the experience factor fires for equal levels; an absent job level fires exactly when the user's normalizes to empty |
| Scoring.Min | js/match-engine.js:73 | `Math.min`: no larger than either argument and equal to one of them |
| Scoring.SkillPoints | js/match-engine.js:73 | the rounded skill points are the integer nearest to 40·num/den, with halves rounded up; at most 40, and exactly 40 for a full share |
| Scoring.RoundedQuotient | js/match-engine.js:73 | the quotient used for rounding is bracketed by multiples of the divisor, and is at most 40 or exactly 40 in the matching ranges |
| Scoring.Explain | js/match-engine.js:37-66 | each reason is present exactly when its factor fired; reasons come in factor order without duplicates, at most five; their bonuses sum to the fired non-skill weights |
| Scoring.ExplainInOrder | js/match-engine.js:37-66 | the pushed reasons are in factor order and each is present exactly when its factor fired |
| Scoring.ExplainStep | js/match-engine.js:37-66 | evaluating the next factor keeps the pushed reasons in factor order and adds its reason exactly when it fires |
| Scoring.ExplainBonus | js/match-engine.js:39-65 | the bonus of the pushed reasons is 20, 15, 15 and 10 for the location, mode, salary and experience factors that fired |
| Scoring.Tally | js/match-engine.js:34-65 | the unclamped sum never exceeds 100 and equals the skill points plus the bonuses of the listed reasons |
| Scoring.Assemble | js/match-engine.js:68-75 | the result copies the job's id, title, company and location, and has a score in [0,100] equal to the skill points plus the listed bonuses |
| Scoring.MatchJobToUser | js/match-engine.js:33-76 | the job's id, title, company and location are copied; the score is in [0,100] and equals the skill points plus the bonuses of the listed reasons; each reason is listed exactly when its factor fires (skills iff `8·num > 5·den`, salary iff `userMin ≤ jobMin ≤ userMax`); reasons are in factor order, at most five |
| Scoring.ReasonsIffFactorsFire | js/match-engine.js:37-66 | a reason is in the result exactly when the factor table says its factor fires |
| Scoring.AssembleWeighted | js/match-engine.js:34-73 | the assembled score is the skill points plus 20, 15, 15 and 10 for the fired factors |
| Scoring.ScoreIsWeightedSum | js/match-engine.js:34-73 | the score is `round(40·num/den) + 20·[loc] + 15·[mode] + 15·[salary] + 10·[exp]`, so the `min(100, …)` clamp never changes it |
| Scoring.AllFactorsGiveFullScore | js/match-engine.js:34-74 | with a full skill share and every other factor firing, the score is exactly 100 and all five reasons appear in order |
| Scoring.ExplainAllFire | js/match-engine.js:37-66 | when every factor fires, the reasons are the five texts in evaluation order |
| Scoring.ReasonTextsDistinct | js/match-engine.js:40-65 | the five reason texts are pairwise different |
| Ranking.WithScoreOfPrefix | js/match-engine.js:91 | cutting a prefix keeps a prefix of every equal-score subsequence |
| Ranking.Insert | js/match-engine.js:90 | insertion adds exactly the one element: a permutation with it added |
| Ranking.PrependSorted | js/match-engine.js:90 | putting an element no smaller than the rest in front keeps the order |
| Ranking.InsertSorted | js/match-engine.js:90 | inserting into a score-descending sequence keeps it score-descending |
| Ranking.InsertWithScore | js/match-engine.js:90 | insertion puts the new element before all equal-score elements and otherwise leaves every equal-score subsequence alone |
| Ranking.SortByScore | js/match-engine.js:90 | the stable sort is score-descending, is a permutation of its input, and leaves every equal-score subsequence in input order |
| Ranking.Qualifying | js/match-engine.js:89 | the filter keeps exactly the results scoring 40 or more, and keeps each equal-score group in its original order |
| Ranking.QualifyingAppend | js/match-engine.js:89 | filtering a concatenation filters each part, so the kept results stay in their original order |
| Ranking.QualifyingOne | js/match-engine.js:89 | one result is kept exactly when it scores 40 or more |
| Ranking.TopMatches | js/match-engine.js:89-91 | at most five matches are kept, and exactly `min(5, #qualifying)`; they are a prefix of the stable descending sort of the qualifying results; each is one of the results and scores 40 or more |
| Ranking.TopMatchesSortedAndStable | js/match-engine.js:89-91 | the kept matches are score-descending, and the kept matches of each score are the first ones of that score in job order |
| Ranking.SortedCut | js/match-engine.js:90-91 | in a sorted sequence nothing after a cut outscores anything before it |
| Ranking.TopMatchesAreBest | js/match-engine.js:89-91 | the kept matches are drawn from the qualifying ones, and no qualifying result left out outscores a kept one |
| Engine.MatchAll | js/match-engine.js:87-88 | one result per job, in job order, each the score of that job for the user |
| Engine.Summarize | js/match-engine.js:87-97 | the summary carries the user's id and name and exactly `min(5, #qualifying)` matches, a prefix of the stable descending sort of the qualifying results; each is a result for the user scoring 40 or more; they are score-descending and stable among equal scores |
| Engine.OptedIn | js/match-engine.js:84-85 | the indices of opted-in users: each has `autoApply`, they increase strictly, and every opted-in user's index is there |
| Engine.Summaries | js/match-engine.js:84-97 | the reference list of summaries: one per opted-in user, the k-th being the summary of the k-th opted-in user |
| Engine.RunMatchingEngine | js/match-engine.js:81-102 | exactly one summary per user with `autoApply`, in input order and none for anyone else; the k-th summary is that of the k-th opted-in user; the loop builds exactly the reference list `Engine.Summaries` |
| Engine.NobodyOptedIn | js/match-engine.js:85 | when no user has `autoApply`, no summary is produced |
| Examples.JobSalaryParses | js/match-engine.js:11-15 | the sample job's salary text, built as the numerals of 70000 and 85000 around the en dash, reads as the range (70000, 85000) |
| Examples.LowerRemoteUS | js/match-engine.js:8 | `"Remote - US"` lower-cases to `"remote - us"` |
| Examples.LocationMatchOfPrefix | js/match-engine.js:18 | a location whose normalized form begins with the other's matches it |
| Examples.SampleScoresFull | js/match-engine.js:33-76 | a remote mid-level Python job and a user who fits every factor gives score 100 with all five reasons |

## Left out

- The `console.log` of the finished batch (js/match-engine.js:100) is an output side effect and is not modelled.
- The ambient `users` and `jobs` collections (js/match-engine.js:84, 87) are parameters of `Engine.RunMatchingEngine`.
- Lower-casing covers the ASCII letters only. Unicode case mapping, including mappings that change the length of a string, is not modelled. `trim` uses the full ECMAScript WhiteSpace and LineTerminator set.
- Floating point is replaced by exact integer arithmetic. The skill share is `Ratio(num, den)`, and `Math.round` is taken on the exact value of `40·num/den`. A binary quotient that lands just beside a `.5` boundary could round differently in JavaScript.
- `parseInt` on digit strings past 2^53 loses precision in JavaScript; the model reads them as unbounded natural numbers.
- Inputs that make the source throw are excluded by types or by `requires`. These are a non-string `salaryRange` reaching `split`, an absent `user.preferences`, and an absent `user.skills` when the job requires skills (`Scoring.SkillsReadable`).
- Text fields are strings or absent. `toString()` on numbers or other non-string values is not modelled. The same holds for falsy non-string values such as `0`, which `normalize` and `extractSalary` treat like absence. `autoApply` is a boolean, not an arbitrary truthy value.
- Job ids, titles and companies are strings that are copied unchanged. Their JavaScript types are not modelled.
- Reasons are a five-valued datatype, and `Reason.Text()` gives each one's exact string.

# RepoMirror repository scorer — a Dafny model

RepoMirror grades a GitHub repository. The back end fetches the repository's
metadata, its top-level file listing and its recent commits, then hands them to
`calculateScoreAndRoadmap`. That function starts at 100 and runs six checks in
a fixed order:

1. README;
2. `.gitignore`;
3. tests;
4. dependency manifest;
5. commit activity;
6. description.

Each check that fires subtracts its penalty and appends a roadmap line. Three of
them also record a summary fragment. The score *before* clamping picks one of
three base sentences, and the fragments are joined onto it. The score is clamped
at 0 at the end. Before any of this, the back end extracts owner and repository
from the submitted URL with the unanchored pattern `github\.com/([^/]+)/([^/]+)`;
when there is no match it answers with status 400. The React front end refuses
URLs without "github.com", colours the result card and the history badges by the
score, and shows a history entry under its stored name or under its URL with the
"https://github.com/" prefix cut out.

The model has seven modules:

- `Wrappers`: `Option`.
- `Text`: the JavaScript string operations used, namely ASCII `toLowerCase`,
  `includes`, first-occurrence `replace` and `join`.
- `Analyzer`: the scorer. `CalculateScoreAndRoadmap` is imperative and follows
  the source step by step, one method per check. Its contract ties the result to
  `Expected`, a function that applies a seven-row check table to a running
  `Tally`. The README check has two exclusive branches, hence seven rows.
- `CheckProperties`: each check's firing condition, stated as a quantifier over
  the listing instead of the recursive scan.
- `AnalyzerProperties`: the result described through `FiredChecks`, the list of
  table rows that fire:
  - the score is 100 minus their penalties, and never below 30;
  - the roadmap is their lines, in check order, at most six;
  - the summary is the tier sentence plus their fragments.
- `GithubUrl`: the regular expression as a leftmost scanner with greedy groups.
  The scanner is proved complete and sound against a declarative
  `PatternAt(url, i)`, and the route outcome is derived from it.
- `Frontend`: `getScoreStyles`, the badge colour, the URL guard, the error the
  page ends up showing, and the display-name fallback. It also states how these
  relate to the back end.

The front end and the back end use different thresholds: `>= 80` and
`>= 50` for the card, `> 80` and `> 50` for the summary. So a score of exactly
80 gets a "Gold Standard" card with a "Good start" summary, and exactly 50 gets
a "Silver Standard" card with a "needs immediate attention" summary. The
difference is stated as `Frontend.TiersAgreeExceptAtBoundaries` and not claimed
as a defect: either threshold could be the intended one.

## Model

| member | source | states |
|---|---|---|
| Analyzer.CalculateScoreAndRoadmap | github-backend/utils/analyzer.js:1-81 | the score, summary and roadmap returned are those of `Expected`: the check table applied in order from 100, the sentence of the unclamped score's tier plus the fragment suffix, the score clamped at 0 |
| Analyzer.CheckReadme | github-backend/utils/analyzer.js:6-21 | without a README entry: −20, the "Create a README.md…" line and "lacks documentation"; otherwise the first README in listing order under 300 bytes: −5 and the "Expand your README…" line only |
| Analyzer.CheckGitignore | github-backend/utils/analyzer.js:23-28 | no entry named exactly ".gitignore": −10 and its line, no fragment |
| Analyzer.CheckTests | github-backend/utils/analyzer.js:30-39 | no lower-cased name containing "test" or "spec": −15, its line and "has no visible tests" |
| Analyzer.CheckManifest | github-backend/utils/analyzer.js:41-48 | neither "package.json" nor "requirements.txt" listed: −10 and its line |
| Analyzer.CheckActivity | github-backend/utils/analyzer.js:50-55 | a commit list (not a non-array) with fewer than 5 entries: −10, its line and "shows low development activity" |
| Analyzer.CheckDescription | github-backend/utils/analyzer.js:57-61 | an absent or empty description: −5 and its line |
| Analyzer.PickSentence | github-backend/utils/analyzer.js:63-71 | the base sentence is that of the score's tier |
| Analyzer.SummaryTier | github-backend/utils/analyzer.js:65-71 | "Excellent" exactly above 80, "Good start" exactly for 51..80, "needs immediate attention" exactly at 50 or below |
| Analyzer.Summarize | github-backend/utils/analyzer.js:63-75 | the summary is the tier sentence followed by " Specifically, it " + fragments joined by " and " + ".", or by nothing when there are no fragments |
| Analyzer.FindReadme | github-backend/utils/analyzer.js:16 | `find` returns an index of a README entry, and none exactly when no entry is a README |
| CheckProperties.HasReadmeIff | github-backend/utils/analyzer.js:8 | `some` with the README test holds iff some entry's lower-cased name contains "readme" |
| CheckProperties.HasFileNamedIff | github-backend/utils/analyzer.js:24 | `some(f => f.name === name)` holds iff some entry has exactly that name (also the manifest names at analyzer.js:42-43) |
| CheckProperties.HasTestsIff | github-backend/utils/analyzer.js:31-34 | `some` with the test-name test holds iff some entry's lower-cased name contains "test" or "spec" |
| CheckProperties.UpperCaseTestName | github-backend/utils/analyzer.js:32-33 | "TESTS.py" counts as a test file, since the name is lower-cased first |
| CheckProperties.MixedCaseReadmeName | github-backend/utils/analyzer.js:8 | "Readme" counts as a README |
| CheckProperties.UpperCaseGitignoreIgnored | github-backend/utils/analyzer.js:24 | an entry named ".GITIGNORE" does not count as `.gitignore` |
| CheckProperties.FindReadmeIsFirst | github-backend/utils/analyzer.js:16 | the README found is the first in listing order |
| CheckProperties.ReadmeShortIff | github-backend/utils/analyzer.js:16-17 | the −5 branch fires iff the first README entry is under 300 bytes |
| CheckProperties.ReadmeBranchesExclusive | github-backend/utils/analyzer.js:10-21 | the two README penalties never both apply |
| CheckProperties.ReadmeMissingIff | github-backend/utils/analyzer.js:8-10 | −20 fires iff no entry's lower-cased name contains "readme" |
| CheckProperties.GitignoreMissingIff | github-backend/utils/analyzer.js:24-25 | −10 fires iff no entry is named exactly ".gitignore" |
| CheckProperties.TestsMissingIff | github-backend/utils/analyzer.js:31-35 | −15 fires iff no lower-cased name contains "test" or "spec" |
| CheckProperties.ManifestMissingIff | github-backend/utils/analyzer.js:42-45 | −10 fires iff no entry is named exactly "package.json" or "requirements.txt" |
| CheckProperties.LowActivityIff | github-backend/utils/analyzer.js:51 | fires iff the commits are a list of fewer than 5; a non-list never fires |
| CheckProperties.DescriptionMissingIff | github-backend/utils/analyzer.js:58 | fires iff the description is absent or empty |
| AnalyzerProperties.FiredChecksIff | github-backend/utils/analyzer.js:8-61 | a check is in the fired list iff its condition holds |
| AnalyzerProperties.ExpectedIsFiredSum | github-backend/utils/analyzer.js:2-61 | the tally after the six checks is 100 minus the fired penalties, the fired lines and the fired fragments |
| AnalyzerProperties.ScoreIsPenaltySum | github-backend/utils/analyzer.js:2-78 | the returned score is 100 minus the sum of the fired penalties, equals the unclamped score, and lies in 30..100 |
| AnalyzerProperties.FiredPenaltyBound | github-backend/utils/analyzer.js:11-59 | the fired penalties sum to at most 70 (20 or 5, then 10, 15, 10, 10, 5) |
| AnalyzerProperties.RoadmapIsFiredLines | github-backend/utils/analyzer.js:12-60 | the roadmap holds exactly the lines of the fired checks, one each, in check order |
| AnalyzerProperties.RoadmapAtMostSix | github-backend/utils/analyzer.js:3-60 | the roadmap has at most six lines |
| AnalyzerProperties.EvaluateFragments | github-backend/utils/analyzer.js:13-54 | the fragments are documentation, tests, activity, each present exactly when its check fires |
| AnalyzerProperties.SummaryIsTierAndFragments | github-backend/utils/analyzer.js:63-75 | the summary is the sentence of the unclamped score's tier plus the suffix of those fragments |
| AnalyzerProperties.PerfectScoreIff | github-backend/utils/analyzer.js:2-80 | score 100 iff no check fires iff the roadmap is empty; then the summary is exactly the "Excellent" sentence |
| AnalyzerProperties.AllGoodIsPerfect | github-backend/utils/analyzer.js:2-80 | a README entry whose first occurrence in listing order is at least 300 bytes, an entry named `.gitignore`, a test file, a manifest, 5 or more commits or no commit list at all, and a non-empty description give score 100, the bare "Excellent" sentence and an empty roadmap |
| AnalyzerProperties.OnlyReadmeMissing | github-backend/utils/analyzer.js:2-80 | with only the README missing: score 80, the "Good start" sentence with " Specifically, it lacks documentation.", one roadmap line |
| AnalyzerProperties.WorstCase | github-backend/utils/analyzer.js:2-80 | an empty listing, no description and a commit list of fewer than 5: score 30, the roadmap lines of all checks but the short-README one in check order, and the "needs immediate attention" sentence followed by " Specifically, it lacks documentation and has no visible tests and shows low development activity." |
| AnalyzerProperties.SuffixOfThree | github-backend/utils/analyzer.js:73-75 | three fragments give " Specifically, it " + a + " and " + b + " and " + c + "." |
| GithubUrl.ParseGithubUrl | github-backend/index.js:20-24 | a result's owner and repository are non-empty and free of '/', and the URL contains "github.com/" |
| GithubUrl.MatchAt | github-backend/index.js:21 | a match at a position yields groups the pattern captures there, the repository ending at a '/' or the end of the URL; no match when the host no longer fits |
| GithubUrl.FirstMatch | github-backend/index.js:21-22 | the first position from the start at which `MatchAt` succeeds, none being skipped; none exactly when no later position matches |
| GithubUrl.MatchAtComplete | github-backend/index.js:21-22 | the scanner matches at a position iff the pattern matches there |
| GithubUrl.ParseNoneIff | github-backend/index.js:21-23 | `null` exactly when the pattern matches at no position |
| GithubUrl.ParseIsLeftmost | github-backend/index.js:21-23 | the groups returned belong to a match at the leftmost position where the pattern matches, and the second group runs to the next '/' or the end |
| GithubUrl.MatchAtIsLongest | github-backend/index.js:21 | among the matches at one position, the groups returned have the same owner and the longest repository |
| GithubUrl.MatchAtExact | github-backend/index.js:21 | a match whose repository ends at a '/' or the end of the URL is the one returned |
| GithubUrl.ParseAfterPrefix | github-backend/index.js:21-23 | "github.com/owner/repo" followed by nothing or a '/'-path, with no earlier match, parses as (owner, repo) |
| GithubUrl.UnanchoredExample | github-backend/index.js:21 | "notgithub.com/a/b" parses as (a, b) |
| GithubUrl.LiteralDotExample | github-backend/index.js:21 | "githubXcom/a/b" does not parse |
| GithubUrl.LeftmostExample | github-backend/index.js:21-22 | "github.com//github.com/a/b" parses as (a, b) |
| GithubUrl.GitSuffixExample | github-backend/index.js:21 | "https://github.com/o/r.git" keeps ".git" in the repository |
| GithubUrl.PathSuffixExample | github-backend/index.js:21 | "https://github.com/o/r/tree/main" parses as (o, r) |
| GithubUrl.RouteAnalyze | github-backend/index.js:27-31 | status 400 with "Invalid GitHub URL" iff the URL does not parse; otherwise the parsed owner and repository are fetched |
| Frontend.GetScoreStyles | github-frontend/src/App.jsx:108-127 | "Gold Standard" iff score ≥ 80, "Silver Standard" iff 50 ≤ score < 80, "Needs Improvement" iff score < 50 |
| Frontend.BadgeColour | github-frontend/src/App.jsx:261 | green iff ≥ 80, yellow iff 50..79, red iff < 50 |
| Frontend.BadgeMatchesStyles | github-frontend/src/App.jsx:261 | the badge class is the first class of the card's text classes, for every score |
| Frontend.TiersAgreeExceptAtBoundaries | github-frontend/src/App.jsx:109-125 | the card label and the back end's summary tier agree iff the score is neither 80 nor 50 |
| Frontend.TierDisagreementAt80 | github-frontend/src/App.jsx:109 | at 80 the card is "Gold Standard" and the summary tier is "Good start" |
| Frontend.TierDisagreementAt50 | github-frontend/src/App.jsx:115 | at 50 the card is "Silver Standard" and the summary tier is "needs immediate attention" |
| Frontend.GoldCardWithGoodStartSummary | github-frontend/src/App.jsx:108-114 | a repository missing only its README gets a gold card and a "Good start" summary |
| Frontend.HandleAnalyze | github-frontend/src/App.jsx:75-79 | refused with "Please enter a valid GitHub URL" iff the URL lacks "github.com"; otherwise the URL is posted unchanged |
| Frontend.GuardAdmitsParsable | github-frontend/src/App.jsx:75 | every URL the back end can parse is posted |
| Frontend.GuardWeakerThanParser | github-frontend/src/App.jsx:75 | "github.com" alone passes the guard and is then refused by the back end with "Invalid GitHub URL" |
| Frontend.SubmitError | github-frontend/src/App.jsx:75-86 | the guard's message is shown iff the URL lacks "github.com" |
| Frontend.SubmitErrorIff | github-frontend/src/App.jsx:75-86 | no error before the GitHub requests iff the back end parses the URL; past the guard the error is "Invalid GitHub URL" |
| Frontend.DisplayName | github-frontend/src/App.jsx:257 | a non-empty `repoName` is shown as is; without one, a URL lacking "https://github.com/" is shown unchanged |
| Frontend.DisplayNameCutsFirstPrefix | github-frontend/src/App.jsx:257 | without a name, the first occurrence of "https://github.com/" is cut out and the rest kept |
| Frontend.DisplayNameOfRepositoryUrl | github-frontend/src/App.jsx:257 | "https://github.com/" + rest is shown as rest |
| Text.ContainsIff | github-backend/utils/analyzer.js:32-33 | `includes` holds iff the pattern occurs at some position (also used at analyzer.js:8 and App.jsx:75) |
| Text.IndexOf | github-backend/utils/analyzer.js:8 | the first index at which the pattern occurs, and none exactly when it occurs nowhere (`includes`) |
| Text.ReplaceFirst | github-frontend/src/App.jsx:257 | a string without the pattern is returned unchanged |
| Text.ReplaceAtFirst | github-frontend/src/App.jsx:257 | `replace` with a string pattern substitutes its first occurrence only |
| Text.Lower | github-backend/utils/analyzer.js:8 | lower-casing keeps the length of the name |
| Text.LowerChar | github-backend/utils/analyzer.js:8 | an upper-case ASCII letter becomes its lower-case letter (code point + 32), no upper-case ASCII letter survives, and every other character is kept |
| Text.JoinAppend | github-backend/utils/analyzer.js:74 | `join` of two non-empty lists of parts concatenated is the join of the first, one separator, then the join of the second |
| Text.LowerAt | github-backend/utils/analyzer.js:8 | each character of the lower-cased name is the lower-cased character at that position |

## Left out

- The Express server, its other routes, and the status codes other than the 400 for an unparsable URL (github-backend/index.js:1-19, 25-88). `RouteAnalyze` stops where the GitHub requests begin.
- The axios calls to the GitHub API and their error handling. The metadata, listing and commits are parameters of the scorer. In the front end, a network failure after the request is not modelled; `SubmitError` covers only the errors raised before any GitHub request.
- MongoDB: the connection, the save and the `Analysis` schema (github-backend/models/Analysis.js). Persistence carries no logic of the scorer.
- React state, effects, scrolling, the theme toggle and JSX rendering other than the two expressions at App.jsx:257 and 261. `handleAnalyze`'s state setters become the `Submission` result.
- `AnimatedScoreRing` (App.jsx:5-39): SVG geometry on floating-point numbers.
- github-frontend/tailwind.config.js: styling configuration.
- Text.Lower: lower-cases the ASCII letters A–Z only; the other upper-case letters that JavaScript's Unicode `toLowerCase` maps are kept unchanged.
- Analyzer.FileEntry: every entry has a string `name`. The guard `f.name &&` at analyzer.js:8 is false for the empty name `""`; the model leaves the guard out, which gives the same result because `""` contains no "readme". The JavaScript exception that lines 16 and 32 would raise on an entry without a name is not modelled.
- Analyzer.FileEntry: `size` is an integer. A non-numeric size, which makes `< 300` false in JavaScript, is not modelled.
- Analyzer.RepoData: `description` is `Option<string>`, where `None` stands for `null` or `undefined` and the empty string is `Some("")`; both fire the description check. Other JavaScript types are not modelled.
- Analyzer.CalculateScoreAndRoadmap: the clamp at 0 is modelled although it never changes the score, since the score is at least 30 (`ScoreIsPenaltySum`).
- Frontend.ScoreStyles: the source's field `label` is called `standard`, because `label` is a Dafny keyword.
- Frontend.DisplayName: `repoName` absent, `null` and `""` all fall through to the URL. The model writes them as `None` or `Some("")`.
- GithubUrl.RouteAnalyze: the request body's `url` is taken to be a string. A body without a string `url` makes `url.match` throw at index.js:22, so the route sends no 400; that case is not modelled.
- GithubUrl: the regular expression is modelled by a hand-written scanner over the one pattern used, not by a general regex engine.

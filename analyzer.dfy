/**
 * The repository quality scorer, `calculateScoreAndRoadmap`.
 *
 * The scorer starts from 100 and runs six checks in a fixed order (the README
 * check has two mutually exclusive branches, so the table below has seven
 * rows). A check that fires subtracts its penalty, adds one roadmap line and,
 * for three of them, one summary fragment. The summary sentence is picked from
 * the score before clamping; the score is clamped at 0 at the end.
 *
 * `CalculateScoreAndRoadmap` follows the source step by step. It is specified
 * by `Expected`, which applies the rows of the check table to a `Tally`; the
 * module AnalyzerProperties relates that to the list of checks that fire.
 */
module Analyzer {
  import opened Wrappers
  import opened Text

  /** One entry of the top-level file listing. */
  datatype FileEntry = FileEntry(name: string, size: int)

  /** Repository metadata; only the description is consulted. */
  datatype RepoData = RepoData(description: Option<string>)

  /** A commit record; the scorer only counts them. */
  datatype Commit = Commit(sha: string)

  datatype ScoreResult = ScoreResult(score: int, summary: string, roadmap: seq<string>)

  // ---------------------------------------------------------------------------
  // The membership tests over the listing (`some` and `find`)
  // ---------------------------------------------------------------------------

  /** The lower-cased name contains "readme". */
  predicate IsReadmeName(name: string) {
    Contains(Lower(name), "readme")
  }

  /** The lower-cased name contains "test" or "spec". */
  predicate IsTestName(name: string) {
    Contains(Lower(name), "test") || Contains(Lower(name), "spec")
  }

  /** `fileStructure.some(f => f.name.toLowerCase().includes('readme'))`. */
  predicate HasReadme(files: seq<FileEntry>) {
    files != [] && (IsReadmeName(files[0].name) || HasReadme(files[1..]))
  }

  /** `fileStructure.some(f => f.name === name)`: an exact, case-sensitive comparison. */
  predicate HasFileNamed(files: seq<FileEntry>, name: string) {
    files != [] && (files[0].name == name || HasFileNamed(files[1..], name))
  }

  /** `fileStructure.some(...)` with the test-name predicate. */
  predicate HasTests(files: seq<FileEntry>) {
    files != [] && (IsTestName(files[0].name) || HasTests(files[1..]))
  }

  /** `fileStructure.find(...)` with the README predicate, as the index of the entry found. */
  function FindReadme(files: seq<FileEntry>): (r: Option<nat>)
    ensures r.Some? ==> r.value < |files| && IsReadmeName(files[r.value].name)
    ensures r.None? <==> !HasReadme(files)
  {
    if files == [] then None
    else if IsReadmeName(files[0].name) then Some(0)
    else match FindReadme(files[1..])
      case None => None
      case Some(k) => Some(k + 1)
  }

  /** `repoData.description` is truthy: present and not empty. */
  predicate HasDescription(repo: RepoData) {
    repo.description.Some? && repo.description.value != ""
  }

  /** `Array.isArray(commitActivity) && commitActivity.length < 5`; `None` is a value that is not an array. */
  predicate IsSparse(commits: Option<seq<Commit>>) {
    commits.Some? && |commits.value| < 5
  }

  // ---------------------------------------------------------------------------
  // The check table
  // ---------------------------------------------------------------------------

  datatype Check =
    | ReadmeMissing
    | ReadmeTooShort
    | GitignoreMissing
    | TestsMissing
    | ManifestMissing
    | LowActivity
    | DescriptionMissing

  /** Position of a check in evaluation order. */
  function Rank(c: Check): nat {
    match c
    case ReadmeMissing => 0
    case ReadmeTooShort => 1
    case GitignoreMissing => 2
    case TestsMissing => 3
    case ManifestMissing => 4
    case LowActivity => 5
    case DescriptionMissing => 6
  }

  function Penalty(c: Check): nat {
    match c
    case ReadmeMissing => 20
    case ReadmeTooShort => 5
    case GitignoreMissing => 10
    case TestsMissing => 15
    case ManifestMissing => 10
    case LowActivity => 10
    case DescriptionMissing => 5
  }

  function RoadmapLine(c: Check): string {
    match c
    case ReadmeMissing => "Create a README.md file to explain your project."
    case ReadmeTooShort => "Expand your README with setup instructions and features."
    case GitignoreMissing => "Add a .gitignore file to exclude node_modules and env files."
    case TestsMissing => "Implement Unit Tests (e.g., using Jest or Mocha)."
    case ManifestMissing => "Include dependency definitions (package.json or requirements.txt)."
    case LowActivity => "Commit more frequently. The history is very sparse."
    case DescriptionMissing => "Add a repository description/about section on GitHub."
  }

  /** The summary fragment a check pushes when it fires: one for three of the checks, none for the rest. */
  function Fragment(c: Check): seq<string> {
    match c
    case ReadmeMissing => ["lacks documentation"]
    case TestsMissing => ["has no visible tests"]
    case LowActivity => ["shows low development activity"]
    case _ => []
  }

  /** The README that `find` returns is shorter than 300 bytes. */
  predicate IsReadmeShort(files: seq<FileEntry>) {
    var k := FindReadme(files);
    k.Some? && files[k.value].size < 300
  }

  /** Neither `package.json` nor `requirements.txt` is listed. */
  predicate LacksManifest(files: seq<FileEntry>) {
    !HasFileNamed(files, "package.json") && !HasFileNamed(files, "requirements.txt")
  }

  /** The condition under which a check fires. */
  predicate Fires(c: Check, repo: RepoData, files: seq<FileEntry>, commits: Option<seq<Commit>>) {
    match c
    case ReadmeMissing => !HasReadme(files)
    case ReadmeTooShort => IsReadmeShort(files)
    case GitignoreMissing => !HasFileNamed(files, ".gitignore")
    case TestsMissing => !HasTests(files)
    case ManifestMissing => LacksManifest(files)
    case LowActivity => IsSparse(commits)
    case DescriptionMissing => !HasDescription(repo)
  }

  /** The scorer's running state: the score so far, the roadmap and the summary fragments. */
  datatype Tally = Tally(score: int, roadmap: seq<string>, fragments: seq<string>)

  const Start := Tally(100, [], [])

  /** One row of the table: a check that fires takes its penalty and adds its line and fragment. */
  function Apply(t: Tally, fires: bool, c: Check): Tally {
    if !fires then t
    else Tally(
      t.score - Penalty(c),
      t.roadmap + [RoadmapLine(c)],
      t.fragments + Fragment(c))
  }

  /** All rows of the table, in check order. */
  function Evaluate(repo: RepoData, files: seq<FileEntry>, commits: Option<seq<Commit>>): Tally {
    var t1 := Apply(Start, Fires(ReadmeMissing, repo, files, commits), ReadmeMissing);
    var t2 := Apply(t1, Fires(ReadmeTooShort, repo, files, commits), ReadmeTooShort);
    var t3 := Apply(t2, Fires(GitignoreMissing, repo, files, commits), GitignoreMissing);
    var t4 := Apply(t3, Fires(TestsMissing, repo, files, commits), TestsMissing);
    var t5 := Apply(t4, Fires(ManifestMissing, repo, files, commits), ManifestMissing);
    var t6 := Apply(t5, Fires(LowActivity, repo, files, commits), LowActivity);
    Apply(t6, Fires(DescriptionMissing, repo, files, commits), DescriptionMissing)
  }

  // ---------------------------------------------------------------------------
  // The summary
  // ---------------------------------------------------------------------------

  datatype Tier = Excellent | GoodStart | NeedsAttention

  /** The tier of a score before clamping: above 80, 51 to 80, at most 50. */
  function SummaryTier(raw: int): (t: Tier)
    ensures t == Excellent <==> raw > 80
    ensures t == GoodStart <==> 50 < raw <= 80
    ensures t == NeedsAttention <==> raw <= 50
  {
    if raw > 80 then Excellent else if raw > 50 then GoodStart else NeedsAttention
  }

  function BaseSentence(t: Tier): string {
    match t
    case Excellent => "Excellent work! Your repository demonstrates strong engineering practices."
    case GoodStart => "Good start, but there is significant room for improvement in documentation and structure."
    case NeedsAttention => "The project needs immediate attention regarding structure and documentation to be production-ready."
  }

  /** " Specifically, it <fragments joined by ' and '>." when there are fragments, nothing otherwise. */
  function FragmentSuffix(parts: seq<string>): string {
    if parts == [] then "" else " Specifically, it " + Join(parts, " and ") + "."
  }

  /** What the scorer returns: the clamped score, the summary chosen by the unclamped score, the roadmap. */
  function Expected(repo: RepoData, files: seq<FileEntry>, commits: Option<seq<Commit>>): ScoreResult {
    var t := Evaluate(repo, files, commits);
    ScoreResult(
      if t.score < 0 then 0 else t.score,
      BaseSentence(SummaryTier(t.score)) + FragmentSuffix(t.fragments),
      t.roadmap)
  }

  // ---------------------------------------------------------------------------
  // The scorer, step by step
  // ---------------------------------------------------------------------------

  /** Step 1: no README costs 20, a README under 300 bytes costs 5. */
  method CheckReadme(repoData: RepoData, fileStructure: seq<FileEntry>, commitActivity: Option<seq<Commit>>, t: Tally) returns (r: Tally)
    ensures r == Apply(Apply(t, Fires(ReadmeMissing, repoData, fileStructure, commitActivity), ReadmeMissing), Fires(ReadmeTooShort, repoData, fileStructure, commitActivity), ReadmeTooShort)
  {
    var score, roadmap, summaryParts := t.score, t.roadmap, t.fragments;
    var hasReadme := HasReadme(fileStructure);
    if !hasReadme {
      score := score - 20;
      roadmap := roadmap + ["Create a README.md file to explain your project."];
      summaryParts := summaryParts + ["lacks documentation"];
    } else {
      var readmeFile := FindReadme(fileStructure);
      if readmeFile.Some? && fileStructure[readmeFile.value].size < 300 {
        score := score - 5;
        roadmap := roadmap + ["Expand your README with setup instructions and features."];
      }
    }
    r := Tally(score, roadmap, summaryParts);
  }

  /** Step 2: no `.gitignore` costs 10. */
  method CheckGitignore(repoData: RepoData, fileStructure: seq<FileEntry>, commitActivity: Option<seq<Commit>>, t: Tally) returns (r: Tally)
    ensures r == Apply(t, Fires(GitignoreMissing, repoData, fileStructure, commitActivity), GitignoreMissing)
  {
    var score, roadmap, summaryParts := t.score, t.roadmap, t.fragments;
    var hasGitIgnore := HasFileNamed(fileStructure, ".gitignore");
    if !hasGitIgnore {
      score := score - 10;
      roadmap := roadmap + ["Add a .gitignore file to exclude node_modules and env files."];
    }
    r := Tally(score, roadmap, summaryParts);
  }

  /** Step 3: no test-like name costs 15. */
  method CheckTests(repoData: RepoData, fileStructure: seq<FileEntry>, commitActivity: Option<seq<Commit>>, t: Tally) returns (r: Tally)
    ensures r == Apply(t, Fires(TestsMissing, repoData, fileStructure, commitActivity), TestsMissing)
  {
    var score, roadmap, summaryParts := t.score, t.roadmap, t.fragments;
    var hasTests := HasTests(fileStructure);
    if !hasTests {
      score := score - 15;
      roadmap := roadmap + ["Implement Unit Tests (e.g., using Jest or Mocha)."];
      summaryParts := summaryParts + ["has no visible tests"];
    }
    r := Tally(score, roadmap, summaryParts);
  }

  /** Step 4: neither dependency manifest costs 10. */
  method CheckManifest(repoData: RepoData, fileStructure: seq<FileEntry>, commitActivity: Option<seq<Commit>>, t: Tally) returns (r: Tally)
    ensures r == Apply(t, Fires(ManifestMissing, repoData, fileStructure, commitActivity), ManifestMissing)
  {
    var score, roadmap, summaryParts := t.score, t.roadmap, t.fragments;
    var hasPackageJson := HasFileNamed(fileStructure, "package.json");
    var hasRequirementsTxt := HasFileNamed(fileStructure, "requirements.txt");
    if !hasPackageJson && !hasRequirementsTxt {
      score := score - 10;
      roadmap := roadmap + ["Include dependency definitions (package.json or requirements.txt)."];
    }
    r := Tally(score, roadmap, summaryParts);
  }

  /** Step 5: a commit array with fewer than five entries costs 10; a non-array costs nothing. */
  method CheckActivity(repoData: RepoData, fileStructure: seq<FileEntry>, commitActivity: Option<seq<Commit>>, t: Tally) returns (r: Tally)
    ensures r == Apply(t, Fires(LowActivity, repoData, fileStructure, commitActivity), LowActivity)
  {
    var score, roadmap, summaryParts := t.score, t.roadmap, t.fragments;
    if commitActivity.Some? && |commitActivity.value| < 5 {
      score := score - 10;
      roadmap := roadmap + ["Commit more frequently. The history is very sparse."];
      summaryParts := summaryParts + ["shows low development activity"];
    }
    r := Tally(score, roadmap, summaryParts);
  }

  /** Step 6: a missing or empty description costs 5. */
  method CheckDescription(repoData: RepoData, fileStructure: seq<FileEntry>, commitActivity: Option<seq<Commit>>, t: Tally) returns (r: Tally)
    ensures r == Apply(t, Fires(DescriptionMissing, repoData, fileStructure, commitActivity), DescriptionMissing)
  {
    var score, roadmap, summaryParts := t.score, t.roadmap, t.fragments;
    if !HasDescription(repoData) {
      score := score - 5;
      roadmap := roadmap + ["Add a repository description/about section on GitHub."];
    }
    r := Tally(score, roadmap, summaryParts);
  }

  /** The base sentence, picked by the score before clamping. */
  method PickSentence(score: int) returns (summary: string)
    ensures summary == BaseSentence(SummaryTier(score))
  {
    if score > 80 {
      summary := BaseSentence(Excellent);
    } else if score > 50 {
      summary := BaseSentence(GoodStart);
    } else {
      summary := BaseSentence(NeedsAttention);
    }
  }

  /** The summary: the base sentence, then the fragments if there are any. */
  method Summarize(score: int, summaryParts: seq<string>) returns (summary: string)
    ensures summary == BaseSentence(SummaryTier(score)) + FragmentSuffix(summaryParts)
  {
    var base := PickSentence(score);
    var suffix := "";
    if |summaryParts| > 0 {
      suffix := " Specifically, it " + Join(summaryParts, " and ") + ".";
    }
    assert suffix == FragmentSuffix(summaryParts);
    summary := base + suffix;
  }

  /** The scorer: the six checks in order, the summary, then the clamp at 0. */
  method CalculateScoreAndRoadmap(repoData: RepoData, fileStructure: seq<FileEntry>, commitActivity: Option<seq<Commit>>)
    returns (result: ScoreResult)
    ensures result == Expected(repoData, fileStructure, commitActivity)
  {
    var t := Start;
    t := CheckReadme(repoData, fileStructure, commitActivity, t);
    t := CheckGitignore(repoData, fileStructure, commitActivity, t);
    t := CheckTests(repoData, fileStructure, commitActivity, t);
    t := CheckManifest(repoData, fileStructure, commitActivity, t);
    t := CheckActivity(repoData, fileStructure, commitActivity, t);
    t := CheckDescription(repoData, fileStructure, commitActivity, t);
    var summary := Summarize(t.score, t.fragments);
    var score := t.score;
    if score < 0 {
      score := 0;
    }
    result := ScoreResult(score, summary, t.roadmap);
  }
}

/**
 * The presentation rules of the React front end: the score styles of the
 * result card, the colour of a history badge, the `github.com` guard in front
 * of the analysis request and the name shown for a history entry, together
 * with how they line up with the back end's parser and summary tiers.
 */
module Frontend {
  import opened Wrappers
  import opened Text
  import opened Analyzer
  import opened GithubUrl
  import opened AnalyzerProperties

  // ---------------------------------------------------------------------------
  // Score styles and badge colour
  // ---------------------------------------------------------------------------

  /** The object `getScoreStyles` returns: three Tailwind class lists and the label, here `standard` (`label` is a Dafny keyword). */
  datatype ScoreStyles = ScoreStyles(text: string, border: string, bg: string, standard: string)

  /** `getScoreStyles`: gold from 80, silver from 50, otherwise "Needs Improvement". */
  function GetScoreStyles(score: int): (s: ScoreStyles)
    ensures s.standard == "Gold Standard" <==> score >= 80
    ensures s.standard == "Silver Standard" <==> 50 <= score < 80
    ensures s.standard == "Needs Improvement" <==> score < 50
  {
    if score >= 80 then
      ScoreStyles("text-green-600 dark:text-green-400", "border-green-500",
                  "bg-green-50 dark:bg-green-900/20", "Gold Standard")
    else if score >= 50 then
      ScoreStyles("text-yellow-600 dark:text-yellow-400", "border-yellow-500",
                  "bg-yellow-50 dark:bg-yellow-900/20", "Silver Standard")
    else
      ScoreStyles("text-red-600 dark:text-red-400", "border-red-500",
                  "bg-red-50 dark:bg-red-900/20", "Needs Improvement")
  }

  /** The colour class of a history entry's score badge. */
  function BadgeColour(score: int): (c: string)
    ensures c == "text-green-600" <==> score >= 80
    ensures c == "text-yellow-600" <==> 50 <= score < 80
    ensures c == "text-red-600" <==> score < 50
  {
    if score >= 80 then "text-green-600" else if score >= 50 then "text-yellow-600" else "text-red-600"
  }

  /** The badge of a history entry has the colour of the result card's text: its class opens the card's class list. */
  lemma BadgeMatchesStyles(score: int)
    ensures BadgeColour(score) <= GetScoreStyles(score).text
    ensures GetScoreStyles(score).text[|BadgeColour(score)|] == ' '
  {
  }

  /** The label the front end would give each of the back end's summary tiers. */
  function StandardOf(t: Tier): string {
    match t
    case Excellent => "Gold Standard"
    case GoodStart => "Silver Standard"
    case NeedsAttention => "Needs Improvement"
  }

  /**
   * The card label and the summary sentence use different thresholds: the
   * front end counts 80 and 50 into the upper band, the back end does not, so
   * the two agree on every score except exactly those two.
   */
  lemma TiersAgreeExceptAtBoundaries(score: int)
    ensures GetScoreStyles(score).standard == StandardOf(SummaryTier(score)) <==> score != 80 && score != 50
  {
  }

  /** At 80 the card reads "Gold Standard" while the summary opens with "Good start". */
  lemma TierDisagreementAt80()
    ensures GetScoreStyles(80).standard == "Gold Standard"
    ensures SummaryTier(80) == GoodStart
  {
  }

  /** At 50 the card reads "Silver Standard" while the summary says the project needs immediate attention. */
  lemma TierDisagreementAt50()
    ensures GetScoreStyles(50).standard == "Silver Standard"
    ensures SummaryTier(50) == NeedsAttention
  {
  }

  /** The disagreement is reachable: a repository whose only gap is a missing README gets a gold card and a "Good start" summary. */
  lemma GoldCardWithGoodStartSummary(repo: RepoData, files: seq<FileEntry>, commits: Option<seq<Commit>>)
    requires OnlyReadmeAbsent(repo, files, commits)
    ensures GetScoreStyles(Expected(repo, files, commits).score).standard == "Gold Standard"
    ensures BaseSentence(GoodStart) <= Expected(repo, files, commits).summary
  {
    OnlyReadmeMissing(repo, files, commits);
  }

  // ---------------------------------------------------------------------------
  // The URL guard in front of the request
  // ---------------------------------------------------------------------------

  /** What `handleAnalyze` does with the URL field. */
  datatype Submission = Rejected(error: string) | PostAnalyze(url: string)

  /** `handleAnalyze`: a URL without "github.com" is refused on the spot; any other is posted unchanged. */
  function HandleAnalyze(url: string): (s: Submission)
    ensures s.Rejected? <==> !Contains(url, "github.com")
    ensures s.Rejected? ==> s.error == "Please enter a valid GitHub URL"
    ensures s.PostAnalyze? ==> s.url == url
  {
    if !Contains(url, "github.com") then Rejected("Please enter a valid GitHub URL") else PostAnalyze(url)
  }

  /** Every URL the back end can parse gets past the front end's guard. */
  lemma GuardAdmitsParsable(url: string)
    requires ParseGithubUrl(url).Some?
    ensures HandleAnalyze(url) == PostAnalyze(url)
  {
    ContainsPrefix(url, Host, "github.com");
  }

  /** The guard is weaker than the parser: "github.com" alone is posted and then refused with status 400. */
  lemma GuardWeakerThanParser()
    ensures HandleAnalyze("github.com") == PostAnalyze("github.com")
    ensures RouteAnalyze("github.com") == BadRequest("Invalid GitHub URL")
  {
    var url := "github.com";
    assert OccursAt(url, "github.com", 0);
    assert FirstMatch(url, 0) == None;
  }

  /** The error message the page ends up showing for a URL, before any request to GitHub. */
  function SubmitError(url: string): (e: Option<string>)
    ensures e == Some("Please enter a valid GitHub URL") <==> !Contains(url, "github.com")
  {
    match HandleAnalyze(url)
    case Rejected(msg) => Some(msg)
    case PostAnalyze(u) =>
      match RouteAnalyze(u)
      case BadRequest(msg) => Some(msg)
      case FetchRepository(_, _) => None
  }

  /** The page shows no error before the GitHub requests exactly when the back end can parse the URL. */
  lemma SubmitErrorIff(url: string)
    ensures SubmitError(url).None? <==> ParseGithubUrl(url).Some?
    ensures SubmitError(url).Some? && Contains(url, "github.com") ==> SubmitError(url) == Some("Invalid GitHub URL")
  {
    if ParseGithubUrl(url).Some? {
      GuardAdmitsParsable(url);
    }
  }

  // ---------------------------------------------------------------------------
  // The name shown for a history entry
  // ---------------------------------------------------------------------------

  /** The prefix the history list strips from a stored URL. */
  const GithubPrefix: string := "https://github.com/"

  /** `h.repoName || h.repoUrl.replace('https://github.com/', '')`; an absent name is `None`. */
  function DisplayName(repoName: Option<string>, repoUrl: string): (r: string)
    ensures repoName.Some? && repoName.value != "" ==> r == repoName.value
    ensures (repoName.None? || repoName.value == "") && !Contains(repoUrl, GithubPrefix) ==> r == repoUrl
  {
    if repoName.Some? && repoName.value != "" then repoName.value
    else ReplaceFirst(repoUrl, GithubPrefix, "")
  }

  /** Without a name, the first occurrence of the prefix is cut out of the URL and the rest kept. */
  lemma DisplayNameCutsFirstPrefix(repoName: Option<string>, repoUrl: string, k: nat)
    requires repoName.None? || repoName.value == ""
    requires OccursAt(repoUrl, GithubPrefix, k)
    requires forall j :: 0 <= j < k ==> !OccursAt(repoUrl, GithubPrefix, j)
    ensures DisplayName(repoName, repoUrl) == repoUrl[..k] + repoUrl[k + |GithubPrefix|..]
  {
    ReplaceAtFirst(repoUrl, GithubPrefix, "", k);
  }

  /** A stored URL "https://github.com/owner/repo" without a name is shown as "owner/repo". */
  lemma DisplayNameOfRepositoryUrl(rest: string)
    ensures DisplayName(None, GithubPrefix + rest) == rest
  {
    var url := GithubPrefix + rest;
    assert url[..|GithubPrefix|] == GithubPrefix;
    DisplayNameCutsFirstPrefix(None, url, 0);
    assert url[|GithubPrefix|..] == rest;
  }
}

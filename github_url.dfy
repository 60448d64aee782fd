/**
 * The back end's URL parser: the regular expression
 * `/github\.com\/([^\/]+)\/([^\/]+)/` applied with `String.prototype.match`,
 * written as the leftmost-position scan a backtracking regex engine performs,
 * and the 400 response the endpoint sends when it finds no match.
 *
 * The pattern is unanchored and its dot is escaped, so it looks for the literal
 * text "github.com/" anywhere in the URL. The first group is followed by '/',
 * which forces it to be the whole run of non-'/' characters after the host; the
 * second group is greedy and runs to the next '/' or to the end of the URL.
 */
module GithubUrl {
  import opened Wrappers
  import opened Text

  /** The object `{ owner, repo }` built from the two capture groups. */
  datatype GithubRepo = GithubRepo(owner: string, repo: string)

  /** The literal part of the pattern before the first group. */
  const Host: string := "github.com/"

  // ---------------------------------------------------------------------------
  // What the pattern means
  // ---------------------------------------------------------------------------

  /** What `[^\/]+` matches: a non-empty run without '/'. */
  predicate Segment(s: string) {
    s != [] && forall k :: 0 <= k < |s| ==> s[k] != '/'
  }

  /** The pattern matches at index `i` with `owner` and `repo` as its two groups. */
  predicate Captures(url: string, i: nat, owner: string, repo: string) {
    Segment(owner) && Segment(repo)
    && i + |Host| + |owner| + 1 + |repo| <= |url|
    && url[i..i + |Host| + |owner| + 1 + |repo|] == Host + owner + "/" + repo
  }

  /** The second group cannot be extended: the match is followed by '/' or by the end of the URL. */
  predicate EndsSegment(url: string, i: nat, owner: string, repo: string) {
    var end := i + |Host| + |owner| + 1 + |repo|;
    end < |url| ==> url[end] == '/'
  }

  /** The pattern has some match starting at index `i`. */
  ghost predicate PatternAt(url: string, i: nat) {
    exists owner, repo :: Captures(url, i, owner, repo)
  }

  // ---------------------------------------------------------------------------
  // The scan
  // ---------------------------------------------------------------------------

  /** The first index at or after `from` holding '/', or the end of `s`. */
  function SegmentEnd(s: string, from: nat): (e: nat)
    requires from <= |s|
    decreases |s| - from
    ensures from <= e <= |s|
    ensures forall k :: from <= k < e ==> s[k] != '/'
    ensures e == |s| || s[e] == '/'
  {
    if from == |s| || s[from] == '/' then from else SegmentEnd(s, from + 1)
  }

  /** The match the engine finds when it starts at index `i`, with greedy groups. */
  function MatchAt(url: string, i: nat): (r: Option<GithubRepo>)
    ensures r.Some? ==> Captures(url, i, r.value.owner, r.value.repo)
    ensures r.Some? ==> EndsSegment(url, i, r.value.owner, r.value.repo)
    ensures |url| < i + |Host| ==> r.None?
  {
    if !OccursAt(url, Host, i) then None
    else
      var o := SegmentEnd(url, i + |Host|);
      if o == i + |Host| || o == |url| then None
      else
        var e := SegmentEnd(url, o + 1);
        if e == o + 1 then None
        else
          GroupsCapture(url, i, o, e);
          Some(GithubRepo(url[i + |Host|..o], url[o + 1..e]))
  }

  /** The host at `i`, a run of non-'/' characters up to the '/' at `o`, and one up to `e` form a match. */
  lemma GroupsCapture(url: string, i: nat, o: nat, e: nat)
    requires OccursAt(url, Host, i)
    requires i + |Host| < o && o + 1 < e <= |url| && url[o] == '/'
    requires forall k :: i + |Host| <= k < o ==> url[k] != '/'
    requires forall k :: o + 1 <= k < e ==> url[k] != '/'
    requires e == |url| || url[e] == '/'
    ensures Captures(url, i, url[i + |Host|..o], url[o + 1..e])
    ensures EndsSegment(url, i, url[i + |Host|..o], url[o + 1..e])
  {
    var owner, repo := url[i + |Host|..o], url[o + 1..e];
    assert Segment(owner) by {
      forall k | 0 <= k < |owner| ensures owner[k] != '/' {
        assert owner[k] == url[i + |Host| + k];
      }
    }
    assert Segment(repo) by {
      forall k | 0 <= k < |repo| ensures repo[k] != '/' {
        assert repo[k] == url[o + 1 + k];
      }
    }
    var b := i + |Host|;
    SliceSplit(url, i, b, e);
    SliceSplit(url, b, o, e);
    SliceSplit(url, o, o + 1, e);
    assert url[o..o + 1] == "/";
    assert url[i..e] == Host + (owner + ("/" + repo));
  }

  /** A slice is the concatenation of its two halves. */
  lemma SliceSplit(s: string, a: nat, b: nat, c: nat)
    requires a <= b <= c <= |s|
    ensures s[a..c] == s[a..b] + s[b..c]
  {
  }

  /** The leftmost index at or after `from` where the engine finds a match. */
  function FirstMatch(url: string, from: nat): (r: Option<nat>)
    decreases |url| - from
    ensures r.Some? ==> from <= r.value && MatchAt(url, r.value).Some?
    ensures r.Some? ==> forall j :: from <= j < r.value ==> MatchAt(url, j).None?
    ensures r.None? ==> forall j :: from <= j ==> MatchAt(url, j).None?
  {
    if from + |Host| > |url| then None
    else if MatchAt(url, from).Some? then Some(from)
    else FirstMatch(url, from + 1)
  }

  /** `parseGithubUrl`: the groups of the leftmost match, or `None` for `null`. */
  function ParseGithubUrl(url: string): (r: Option<GithubRepo>)
    ensures r.Some? ==> Segment(r.value.owner) && Segment(r.value.repo)
    ensures r.Some? ==> Contains(url, Host)
  {
    match FirstMatch(url, 0)
    case None => None
    case Some(i) => MatchAt(url, i)
  }

  /** What `POST /api/analyze` does with the URL before it calls the GitHub API. */
  datatype Route = BadRequest(error: string) | FetchRepository(owner: string, repo: string)

  /** A URL without a match is answered with status 400; otherwise its owner and repository are fetched. */
  function RouteAnalyze(url: string): (r: Route)
    ensures r.BadRequest? <==> ParseGithubUrl(url).None?
    ensures r.BadRequest? ==> r.error == "Invalid GitHub URL"
    ensures r.FetchRepository? ==> ParseGithubUrl(url) == Some(GithubRepo(r.owner, r.repo))
  {
    match ParseGithubUrl(url)
    case None => BadRequest("Invalid GitHub URL")
    case Some(p) => FetchRepository(p.owner, p.repo)
  }

  // ---------------------------------------------------------------------------
  // The scan finds exactly the matches of the pattern
  // ---------------------------------------------------------------------------

  /** A match of the pattern at `i` forces the first group to be the run of non-'/' characters after the host. */
  lemma CapturedOwnerIsRun(url: string, i: nat, owner: string, repo: string)
    requires Captures(url, i, owner, repo)
    ensures SegmentEnd(url, i + |Host|) == i + |Host| + |owner|
    ensures url[i + |Host|..i + |Host| + |owner|] == owner
    ensures url[i + |Host| + |owner|] == '/'
    ensures url[i + |Host| + |owner| + 1..i + |Host| + |owner| + 1 + |repo|] == repo
  {
    var b := i + |Host|;
    var o := b + |owner|;
    var m := url[i..o + 1 + |repo|];
    assert m == Host + owner + "/" + repo;
    forall k | b <= k < o
      ensures url[k] == owner[k - b]
    {
      assert url[k] == m[k - i];
      assert m[k - i] == (Host + owner + "/" + repo)[k - i];
    }
    assert url[o] == m[o - i];
    assert m[o - i] == (Host + owner + "/" + repo)[|Host| + |owner|];
    forall k | o + 1 <= k < o + 1 + |repo|
      ensures url[k] == repo[k - o - 1]
    {
      assert url[k] == m[k - i];
      assert m[k - i] == (Host + owner + "/" + repo)[k - i];
    }
  }

  /** The engine finds a match at `i` exactly when the pattern has one there. */
  lemma MatchAtComplete(url: string, i: nat)
    ensures MatchAt(url, i).Some? <==> PatternAt(url, i)
  {
    if PatternAt(url, i) {
      var owner, repo :| Captures(url, i, owner, repo);
      CapturedOwnerIsRun(url, i, owner, repo);
      assert url[i..i + |Host|] == Host by {
        assert url[i..i + |Host|] == url[i..i + |Host| + |owner| + 1 + |repo|][..|Host|];
      }
      var o := i + |Host| + |owner|;
      assert url[o + 1] == repo[0];
    }
    var r := MatchAt(url, i);
    if r.Some? {
      assert Captures(url, i, r.value.owner, r.value.repo);
    }
  }

  /** Of all the matches at `i`, the engine's has that first group and the longest second group. */
  lemma MatchAtIsLongest(url: string, i: nat, owner: string, repo: string)
    requires Captures(url, i, owner, repo)
    ensures MatchAt(url, i).Some?
    ensures MatchAt(url, i).value.owner == owner
    ensures |repo| <= |MatchAt(url, i).value.repo|
    ensures repo == MatchAt(url, i).value.repo[..|repo|]
  {
    MatchAtComplete(url, i);
    var p := MatchAt(url, i).value;
    LongerMatch(url, i, owner, repo, p.owner, p.repo);
  }

  /** A match at `i` whose second group ends a segment is at least as long as any other match at `i`, with the same first group. */
  lemma LongerMatch(url: string, i: nat, owner: string, repo: string, owner': string, repo': string)
    requires Captures(url, i, owner, repo)
    requires Captures(url, i, owner', repo') && EndsSegment(url, i, owner', repo')
    ensures owner' == owner
    ensures |repo| <= |repo'| && repo == repo'[..|repo|]
  {
    CapturedOwnerIsRun(url, i, owner, repo);
    CapturedOwnerIsRun(url, i, owner', repo');
    var s := i + |Host| + |owner| + 1;
    var e := s + |repo'|;
    SegmentWithin(url, s, repo, e);
    SlicePrefix(url, s, s + |repo|, e);
  }

  /** A run without '/' that starts at `s` ends before the '/' (or the end of the string) at `e`. */
  lemma SegmentWithin(url: string, s: nat, seg: string, e: nat)
    requires s <= e <= |url| && (e == |url| || url[e] == '/')
    requires Segment(seg) && s + |seg| <= |url| && url[s..s + |seg|] == seg
    ensures s + |seg| <= e
  {
    forall k | s <= k < s + |seg|
      ensures url[k] != '/'
    {
      assert url[k] == url[s..s + |seg|][k - s];
    }
  }

  /** A shorter slice from the same start is a prefix of the longer one. */
  lemma SlicePrefix(url: string, s: nat, m: nat, e: nat)
    requires s <= m <= e <= |url|
    ensures url[s..m] == url[s..e][..m - s]
  {
  }

  /** `null` comes back exactly when the pattern matches nowhere in the URL. */
  lemma ParseNoneIff(url: string)
    ensures ParseGithubUrl(url).None? <==> forall i :: !PatternAt(url, i)
  {
    var f := FirstMatch(url, 0);
    if f.Some? {
      MatchAtComplete(url, f.value);
    } else {
      forall i: nat
        ensures !PatternAt(url, i)
      {
        MatchAtComplete(url, i);
      }
    }
  }

  /**
   * A successful parse is the leftmost match: it starts at an index where the
   * pattern matches, with the greedy groups, and the pattern matches at no
   * earlier index.
   */
  lemma ParseIsLeftmost(url: string)
    requires ParseGithubUrl(url).Some?
    ensures exists i: nat ::
      && Captures(url, i, ParseGithubUrl(url).value.owner, ParseGithubUrl(url).value.repo)
      && EndsSegment(url, i, ParseGithubUrl(url).value.owner, ParseGithubUrl(url).value.repo)
      && (forall j: nat :: j < i ==> !PatternAt(url, j))
  {
    var i := FirstMatch(url, 0).value;
    forall j: nat | j < i
      ensures !PatternAt(url, j)
    {
      MatchAtComplete(url, j);
    }
    var p := ParseGithubUrl(url).value;
    assert Captures(url, i, p.owner, p.repo) && EndsSegment(url, i, p.owner, p.repo);
  }

  /** A match at `i` that cannot be extended is the one the engine finds there. */
  lemma MatchAtExact(url: string, i: nat, owner: string, repo: string)
    requires Captures(url, i, owner, repo) && EndsSegment(url, i, owner, repo)
    ensures MatchAt(url, i) == Some(GithubRepo(owner, repo))
  {
    MatchAtIsLongest(url, i, owner, repo);
    var p := MatchAt(url, i).value;
    assert p.repo == p.repo[..|repo|];
  }

  /** An index whose text differs from the host at some offset cannot start a match. */
  lemma HostMismatch(url: string, j: nat, k: nat)
    requires k < |Host| && j + k < |url| && url[j + k] != Host[k]
    ensures MatchAt(url, j).None?
  {
  }

  /** No index inside a stretch of text without 'g' can start a match. */
  lemma NoMatchWithin(head: string, part: string, rest: string)
    requires 'g' !in part
    ensures forall j :: |head| <= j < |head| + |part| ==> MatchAt(head + part + rest, j).None?
  {
    var url := head + part + rest;
    forall j | |head| <= j < |head| + |part|
      ensures MatchAt(url, j).None?
    {
      assert url[j] == part[j - |head|];
      HostMismatch(url, j, 0);
    }
  }

  /** The scan stops at the first index where the engine finds a match. */
  lemma {:induction false} FirstMatchAt(url: string, from: nat, i: nat)
    requires from <= i && MatchAt(url, i).Some?
    requires forall j :: from <= j < i ==> MatchAt(url, j).None?
    decreases i - from
    ensures FirstMatch(url, from) == Some(i)
  {
    if from < i {
      FirstMatchAt(url, from + 1, i);
    }
  }

  /** A match after a stretch where none starts is what the parser returns. */
  lemma ParseAfterPrefix(pre: string, owner: string, repo: string, tail: string)
    requires Segment(owner) && Segment(repo) && (tail == [] || tail[0] == '/')
    requires forall j :: 0 <= j < |pre| ==> MatchAt(pre + (Host + owner + "/" + repo + tail), j).None?
    ensures ParseGithubUrl(pre + (Host + owner + "/" + repo + tail)) == Some(GithubRepo(owner, repo))
  {
    var m := Host + owner + "/" + repo;
    var url := pre + (m + tail);
    var i := |pre|;
    assert url[i..i + |m|] == m;
    if i + |m| < |url| {
      assert url[i + |m|] == tail[0];
    }
    assert Captures(url, i, owner, repo);
    MatchAtExact(url, i, owner, repo);
    FirstMatchAt(url, 0, i);
  }

  // ---------------------------------------------------------------------------
  // Examples
  // ---------------------------------------------------------------------------

  /** The pattern is unanchored: text before the host is skipped. */
  lemma UnanchoredExample(url: string)
    requires url == "notgithub.com/a/b"
    ensures ParseGithubUrl(url) == Some(GithubRepo("a", "b"))
  {
    var rest := Host + "a" + "/" + "b" + [];
    assert url == [] + "not" + rest;
    NoMatchWithin([], "not", rest);
    ParseAfterPrefix([] + "not", "a", "b", []);
  }

  /** The dot of the host is literal. */
  lemma LiteralDotExample(url: string)
    requires url == "githubXcom/a/b"
    ensures ParseGithubUrl(url) == None
  {
    HostMismatch(url, 0, 6);
    HostMismatch(url, 1, 0);
    HostMismatch(url, 2, 0);
    HostMismatch(url, 3, 0);
    assert FirstMatch(url, 0) == FirstMatch(url, 1) == FirstMatch(url, 2) == FirstMatch(url, 3) == FirstMatch(url, 4) == None;
  }

  /** A host with an empty owner does not match; the next occurrence does. */
  lemma LeftmostExample(url: string)
    requires url == "github.com//github.com/a/b"
    ensures ParseGithubUrl(url) == Some(GithubRepo("a", "b"))
  {
    var rest := Host + "a" + "/" + "b" + [];
    assert url == "g" + "ithub.com//" + rest;
    assert SegmentEnd(url, 11) == 11;
    assert MatchAt(url, 0).None?;
    NoMatchWithin("g", "ithub.com//", rest);
    ParseAfterPrefix("g" + "ithub.com//", "a", "b", []);
  }

  /** The repository group keeps a ".git" suffix. */
  lemma GitSuffixExample(url: string)
    requires url == "https://github.com/o/r.git"
    ensures ParseGithubUrl(url) == Some(GithubRepo("o", "r.git"))
  {
    var rest := Host + "o" + "/" + "r.git" + [];
    assert url == [] + "https://" + rest;
    NoMatchWithin([], "https://", rest);
    assert Segment("r.git");
    ParseAfterPrefix([] + "https://", "o", "r.git", []);
  }

  /** The repository group stops at the next '/'. */
  lemma PathSuffixExample(url: string)
    requires url == "https://github.com/o/r/tree/main"
    ensures ParseGithubUrl(url) == Some(GithubRepo("o", "r"))
  {
    var rest := Host + "o" + "/" + "r" + "/tree/main";
    assert url == [] + "https://" + rest;
    NoMatchWithin([], "https://", rest);
    ParseAfterPrefix([] + "https://", "o", "r", "/tree/main");
  }
}

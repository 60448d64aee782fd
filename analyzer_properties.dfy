/**
 * What the scorer promises, stated over the list of checks that fire.
 *
 * `FiredChecks` keeps, in evaluation order, the checks of the table whose
 * condition holds. The lemmas below show that the scorer's result is fully
 * described by that list: the score is 100 minus the fired penalties (at least
 * 30, so the clamp at 0 never changes it), the roadmap holds exactly the lines
 * of the fired checks in check order, and the summary carries exactly the
 * fragments of the fired documentation, tests and activity checks, in that
 * order.
 */
module AnalyzerProperties {
  import opened Wrappers
  import opened Text
  import opened Analyzer

  const AllChecks: seq<Check> :=
    [ReadmeMissing, ReadmeTooShort, GitignoreMissing, TestsMissing, ManifestMissing, LowActivity, DescriptionMissing]

  /** Which checks fire on one input. */
  function Firing(repo: RepoData, files: seq<FileEntry>, commits: Option<seq<Commit>>): Check -> bool {
    c => Fires(c, repo, files, commits)
  }

  /** The checks of `cs` that fire, in the order of `cs`. */
  function FiredAmong(cs: seq<Check>, fires: Check -> bool): seq<Check>
  {
    if cs == [] then []
    else (if fires(cs[0]) then [cs[0]] else []) + FiredAmong(cs[1..], fires)
  }

  function FiredChecks(repo: RepoData, files: seq<FileEntry>, commits: Option<seq<Commit>>): seq<Check> {
    FiredAmong(AllChecks, Firing(repo, files, commits))
  }

  function TotalPenalty(cs: seq<Check>): int {
    if cs == [] then 0 else Penalty(cs[0]) + TotalPenalty(cs[1..])
  }

  function Lines(cs: seq<Check>): seq<string> {
    if cs == [] then [] else [RoadmapLine(cs[0])] + Lines(cs[1..])
  }

  function FragmentsOf(cs: seq<Check>): seq<string> {
    if cs == [] then []
    else Fragment(cs[0]) + FragmentsOf(cs[1..])
  }

  /** The rows of `cs` applied one after another to `t`. */
  function Run(t: Tally, cs: seq<Check>, fires: Check -> bool): Tally
    decreases |cs|
  {
    if cs == [] then t
    else Run(Apply(t, fires(cs[0]), cs[0]), cs[1..], fires)
  }

  // ---------------------------------------------------------------------------
  // Running the table is subtracting, and appending for, the checks that fire
  // ---------------------------------------------------------------------------

  lemma RunIsFiredSum(t: Tally, cs: seq<Check>, fires: Check -> bool)
    ensures var f := FiredAmong(cs, fires);
      Run(t, cs, fires)
      == Tally(t.score - TotalPenalty(f), t.roadmap + Lines(f), t.fragments + FragmentsOf(f))
  {
    RunScore(t, cs, fires);
    RunRoadmap(t, cs, fires);
    RunFragments(t, cs, fires);
  }

  lemma {:induction false} RunScore(t: Tally, cs: seq<Check>, fires: Check -> bool)
    decreases |cs|
    ensures Run(t, cs, fires).score == t.score - TotalPenalty(FiredAmong(cs, fires))
  {
    if cs != [] {
      var head := if fires(cs[0]) then [cs[0]] else [];
      var t' := Apply(t, fires(cs[0]), cs[0]);
      assert Run(t, cs, fires) == Run(t', cs[1..], fires);
      assert FiredAmong(cs, fires) == head + FiredAmong(cs[1..], fires);
      RunScore(t', cs[1..], fires);
      assert t'.score == t.score - TotalPenalty(head) by {
        if fires(cs[0]) { assert head[1..] == []; }
      }
      ConcatPenalty(head, FiredAmong(cs[1..], fires));
    }
  }

  lemma {:induction false} RunRoadmap(t: Tally, cs: seq<Check>, fires: Check -> bool)
    decreases |cs|
    ensures Run(t, cs, fires).roadmap == t.roadmap + Lines(FiredAmong(cs, fires))
  {
    if cs != [] {
      var head := if fires(cs[0]) then [cs[0]] else [];
      var rest := FiredAmong(cs[1..], fires);
      var t' := Apply(t, fires(cs[0]), cs[0]);
      assert Run(t, cs, fires) == Run(t', cs[1..], fires);
      assert FiredAmong(cs, fires) == head + FiredAmong(cs[1..], fires);
      RunRoadmap(t', cs[1..], fires);
      assert t'.roadmap == t.roadmap + Lines(head) by {
        if fires(cs[0]) { assert head[1..] == []; }
      }
      ConcatLines(head, rest);
      assert (t.roadmap + Lines(head)) + Lines(rest) == t.roadmap + (Lines(head) + Lines(rest));
    }
  }

  lemma {:induction false} RunFragments(t: Tally, cs: seq<Check>, fires: Check -> bool)
    decreases |cs|
    ensures Run(t, cs, fires).fragments == t.fragments + FragmentsOf(FiredAmong(cs, fires))
  {
    if cs != [] {
      var head := if fires(cs[0]) then [cs[0]] else [];
      var rest := FiredAmong(cs[1..], fires);
      var t' := Apply(t, fires(cs[0]), cs[0]);
      assert Run(t, cs, fires) == Run(t', cs[1..], fires);
      assert FiredAmong(cs, fires) == head + FiredAmong(cs[1..], fires);
      RunFragments(t', cs[1..], fires);
      ApplyFragments(t, fires(cs[0]), cs[0]);
      ConcatFragments(head, rest);
      assert (t.fragments + FragmentsOf(head)) + FragmentsOf(rest) == t.fragments + (FragmentsOf(head) + FragmentsOf(rest));
    }
  }

  /** One row adds the fragments of the one-element list of its check, or nothing. */
  lemma ApplyFragments(t: Tally, b: bool, c: Check)
    ensures Apply(t, b, c).fragments == t.fragments + FragmentsOf(if b then [c] else [])
  {
    if b {
      assert [c][1..] == [];
    }
  }

  lemma {:induction false} ConcatPenalty(a: seq<Check>, b: seq<Check>)
    ensures TotalPenalty(a + b) == TotalPenalty(a) + TotalPenalty(b)
  {
    if a == [] {
      assert a + b == b;
    } else {
      assert (a + b)[1..] == a[1..] + b;
      ConcatPenalty(a[1..], b);
    }
  }

  lemma {:induction false} ConcatLines(a: seq<Check>, b: seq<Check>)
    ensures Lines(a + b) == Lines(a) + Lines(b)
  {
    if a == [] {
      assert a + b == b;
    } else {
      assert (a + b)[1..] == a[1..] + b;
      ConcatLines(a[1..], b);
    }
  }

  lemma {:induction false} ConcatFragments(a: seq<Check>, b: seq<Check>)
    ensures FragmentsOf(a + b) == FragmentsOf(a) + FragmentsOf(b)
  {
    if a == [] {
      assert a + b == b;
    } else {
      assert (a + b)[1..] == a[1..] + b;
      ConcatFragments(a[1..], b);
    }
  }

  /** `Run` over all checks is the seven rows applied in check order. */
  lemma RunAllChecks(t: Tally, fires: Check -> bool)
    ensures Run(t, AllChecks, fires)
      == Apply(Apply(Apply(Apply(Apply(Apply(Apply(t,
           fires(ReadmeMissing), ReadmeMissing),
           fires(ReadmeTooShort), ReadmeTooShort),
           fires(GitignoreMissing), GitignoreMissing),
           fires(TestsMissing), TestsMissing),
           fires(ManifestMissing), ManifestMissing),
           fires(LowActivity), LowActivity),
           fires(DescriptionMissing), DescriptionMissing)
  {
    var cs := AllChecks;
    assert cs[1..] == [ReadmeTooShort, GitignoreMissing, TestsMissing, ManifestMissing, LowActivity, DescriptionMissing];
    assert cs[1..][1..] == [GitignoreMissing, TestsMissing, ManifestMissing, LowActivity, DescriptionMissing];
    assert cs[1..][1..][1..] == [TestsMissing, ManifestMissing, LowActivity, DescriptionMissing];
    assert cs[1..][1..][1..][1..] == [ManifestMissing, LowActivity, DescriptionMissing];
    assert cs[1..][1..][1..][1..][1..] == [LowActivity, DescriptionMissing];
    assert cs[1..][1..][1..][1..][1..][1..] == [DescriptionMissing];
    assert cs[1..][1..][1..][1..][1..][1..][1..] == [];
  }

  /** The step-by-step table in `Evaluate` is `Run` over all checks from `Start`. */
  lemma EvaluateIsRun(repo: RepoData, files: seq<FileEntry>, commits: Option<seq<Commit>>)
    ensures Evaluate(repo, files, commits) == Run(Start, AllChecks, Firing(repo, files, commits))
  {
    var fires := Firing(repo, files, commits);
    RunAllChecks(Start, fires);
  }

  /** The scorer's output in terms of the checks that fire. */
  lemma {:induction false} ExpectedIsFiredSum(repo: RepoData, files: seq<FileEntry>, commits: Option<seq<Commit>>)
    ensures var f := FiredChecks(repo, files, commits);
      var raw := 100 - TotalPenalty(f);
      Evaluate(repo, files, commits) == Tally(raw, Lines(f), FragmentsOf(f))
  {
    EvaluateIsRun(repo, files, commits);
    RunIsFiredSum(Start, AllChecks, Firing(repo, files, commits));
  }

  // ---------------------------------------------------------------------------
  // Filtering keeps membership, order and bounds
  // ---------------------------------------------------------------------------

  lemma {:induction false} FiredAmongMembers(cs: seq<Check>, fires: Check -> bool, c: Check)
    ensures c in FiredAmong(cs, fires) <==> c in cs && fires(c)
  {
    if cs != [] {
      FiredAmongMembers(cs[1..], fires, c);
      assert cs == [cs[0]] + cs[1..];
    }
  }

  lemma {:induction false} FiredAmongNone(cs: seq<Check>, fires: Check -> bool)
    requires forall c :: c in cs ==> !fires(c)
    ensures FiredAmong(cs, fires) == []
  {
    if cs != [] {
      assert cs[0] in cs;
      FiredAmongNone(cs[1..], fires);
    }
  }

  lemma {:induction false} FiredAmongBounds(cs: seq<Check>, fires: Check -> bool)
    ensures |FiredAmong(cs, fires)| <= |cs|
    ensures TotalPenalty(FiredAmong(cs, fires)) <= TotalPenalty(cs)
  {
    if cs != [] {
      var head := if fires(cs[0]) then [cs[0]] else [];
      FiredAmongBounds(cs[1..], fires);
      ConcatPenalty(head, FiredAmong(cs[1..], fires));
      if fires(cs[0]) {
        assert head[1..] == [];
      }
    }
  }

  /** Strictly increasing in evaluation order. */
  predicate InCheckOrder(cs: seq<Check>) {
    forall i, j :: 0 <= i < j < |cs| ==> Rank(cs[i]) < Rank(cs[j])
  }

  lemma {:induction false} FiredAmongOrdered(cs: seq<Check>, fires: Check -> bool)
    requires InCheckOrder(cs)
    ensures InCheckOrder(FiredAmong(cs, fires))
  {
    if cs != [] {
      var rest := FiredAmong(cs[1..], fires);
      OrderedTail(cs);
      FiredAmongOrdered(cs[1..], fires);
      if fires(cs[0]) {
        forall k | 0 <= k < |rest|
          ensures Rank(cs[0]) < Rank(rest[k])
        {
          FiredAmongMembers(cs[1..], fires, rest[k]);
        }
        OrderedCons(cs[0], rest);
      } else {
        assert FiredAmong(cs, fires) == [] + rest;
        assert [] + rest == rest;
      }
    }
  }

  /** The tail of an ordered sequence is ordered and comes after its head. */
  lemma OrderedTail(cs: seq<Check>)
    requires InCheckOrder(cs) && cs != []
    ensures InCheckOrder(cs[1..])
    ensures forall c :: c in cs[1..] ==> Rank(cs[0]) < Rank(c)
  {
    forall i, j | 0 <= i < j < |cs[1..]|
      ensures Rank(cs[1..][i]) < Rank(cs[1..][j])
    {
      assert cs[1..][i] == cs[i + 1] && cs[1..][j] == cs[j + 1];
    }
    forall c | c in cs[1..]
      ensures Rank(cs[0]) < Rank(c)
    {
      var m :| 0 <= m < |cs[1..]| && cs[1..][m] == c;
      assert cs[m + 1] == c;
    }
  }

  /** A check ranked before every element of an ordered sequence can be put in front of it. */
  lemma OrderedCons(c: Check, rest: seq<Check>)
    requires InCheckOrder(rest)
    requires forall k :: 0 <= k < |rest| ==> Rank(c) < Rank(rest[k])
    ensures InCheckOrder([c] + rest)
  {
    var f := [c] + rest;
    forall i, j | 0 <= i < j < |f|
      ensures Rank(f[i]) < Rank(f[j])
    {
      if i == 0 {
        assert f[j] == rest[j - 1];
      } else {
        assert f[i] == rest[i - 1] && f[j] == rest[j - 1];
      }
    }
  }

  lemma {:induction false} LinesAt(cs: seq<Check>)
    ensures |Lines(cs)| == |cs|
    ensures forall i :: 0 <= i < |cs| ==> Lines(cs)[i] == RoadmapLine(cs[i])
  {
    if cs != [] {
      LinesAt(cs[1..]);
      forall i | 1 <= i < |cs|
        ensures Lines(cs)[i] == RoadmapLine(cs[i])
      {
        assert Lines(cs)[i] == Lines(cs[1..])[i - 1];
        assert cs[1..][i - 1] == cs[i];
      }
    }
  }

  lemma AllChecksInOrder()
    ensures InCheckOrder(AllChecks)
    ensures forall c :: c in AllChecks
  {
    forall c
      ensures c in AllChecks
    {
      assert AllChecks[Rank(c)] == c;
    }
  }

  /** The two README rows first, then the five other checks. */
  lemma FiredSplit(repo: RepoData, files: seq<FileEntry>, commits: Option<seq<Commit>>)
    ensures var fires := Firing(repo, files, commits);
      FiredChecks(repo, files, commits)
      == (if fires(ReadmeMissing) then [ReadmeMissing] else [])
         + ((if fires(ReadmeTooShort) then [ReadmeTooShort] else [])
         + FiredAmong(AllChecks[2..], fires))
  {
    var fires := Firing(repo, files, commits);
    assert AllChecks[1..][1..] == AllChecks[2..];
  }

  // ---------------------------------------------------------------------------
  // The scorer's promises
  // ---------------------------------------------------------------------------

  /** At most 70 points are lost: the two README rows exclude each other and the other five sum to 50. */
  lemma FiredPenaltyBound(repo: RepoData, files: seq<FileEntry>, commits: Option<seq<Commit>>)
    ensures 0 <= TotalPenalty(FiredChecks(repo, files, commits)) <= 70
  {
    var fires := Firing(repo, files, commits);
    var h0 := if fires(ReadmeMissing) then [ReadmeMissing] else [];
    var h1 := if fires(ReadmeTooShort) then [ReadmeTooShort] else [];
    var rest := FiredAmong(AllChecks[2..], fires);
    FiredSplit(repo, files, commits);
    ConcatPenalty(h0, h1 + rest);
    ConcatPenalty(h1, rest);
    FiredAmongBounds(AllChecks[2..], fires);
    OtherPenalties();
    assert TotalPenalty(h0) + TotalPenalty(h1) <= 20 by {
      if fires(ReadmeMissing) { assert h0[1..] == []; }
      if fires(ReadmeTooShort) { assert h1[1..] == []; }
    }
    PenaltyNonNegative(FiredChecks(repo, files, commits));
  }

  lemma OtherPenalties()
    ensures TotalPenalty(AllChecks[2..]) == 50
  {
    var cs := AllChecks[2..];
    assert cs == [GitignoreMissing, TestsMissing, ManifestMissing, LowActivity, DescriptionMissing];
    assert cs[1..] == [TestsMissing, ManifestMissing, LowActivity, DescriptionMissing];
    assert cs[1..][1..] == [ManifestMissing, LowActivity, DescriptionMissing];
    assert cs[1..][1..][1..] == [LowActivity, DescriptionMissing];
    assert cs[1..][1..][1..][1..] == [DescriptionMissing];
    assert cs[1..][1..][1..][1..][1..] == [];
    assert TotalPenalty(cs[1..][1..][1..][1..]) == 5;
    assert TotalPenalty(cs[1..][1..][1..]) == 15;
    assert TotalPenalty(cs[1..][1..]) == 25;
    assert TotalPenalty(cs[1..]) == 40;
  }

  /** The score is 100 minus the penalties of the checks that fire; it never drops below 30, so the clamp never applies. */
  lemma ScoreIsPenaltySum(repo: RepoData, files: seq<FileEntry>, commits: Option<seq<Commit>>)
    ensures Expected(repo, files, commits).score == 100 - TotalPenalty(FiredChecks(repo, files, commits))
    ensures Expected(repo, files, commits).score == Evaluate(repo, files, commits).score
    ensures 30 <= Expected(repo, files, commits).score <= 100
  {
    ExpectedIsFiredSum(repo, files, commits);
    FiredPenaltyBound(repo, files, commits);
  }

  lemma {:induction false} PenaltyNonNegative(cs: seq<Check>)
    ensures 0 <= TotalPenalty(cs)
    ensures TotalPenalty(cs) == 0 <==> cs == []
  {
    if cs != [] {
      PenaltyNonNegative(cs[1..]);
    }
  }

  /** The roadmap holds the lines of the checks that fire, in check order. */
  lemma RoadmapIsFiredLines(repo: RepoData, files: seq<FileEntry>, commits: Option<seq<Commit>>)
    ensures var f := FiredChecks(repo, files, commits);
      var r := Expected(repo, files, commits).roadmap;
      |r| == |f| && forall i :: 0 <= i < |r| ==> r[i] == RoadmapLine(f[i])
    ensures InCheckOrder(FiredChecks(repo, files, commits))
  {
    ExpectedIsFiredSum(repo, files, commits);
    LinesAt(FiredChecks(repo, files, commits));
    AllChecksInOrder();
    FiredAmongOrdered(AllChecks, Firing(repo, files, commits));
  }

  /** A check is among the fired ones exactly when its condition holds. */
  lemma FiredChecksIff(repo: RepoData, files: seq<FileEntry>, commits: Option<seq<Commit>>, c: Check)
    ensures c in FiredChecks(repo, files, commits) <==> Fires(c, repo, files, commits)
  {
    AllChecksInOrder();
    FiredAmongMembers(AllChecks, Firing(repo, files, commits), c);
  }

  /** The roadmap has at most six lines. */
  lemma RoadmapAtMostSix(repo: RepoData, files: seq<FileEntry>, commits: Option<seq<Commit>>)
    ensures |Expected(repo, files, commits).roadmap| <= 6
  {
    RoadmapIsFiredLines(repo, files, commits);
    FiredAtMostSix(repo, files, commits);
  }

  /** At most six checks fire, because the two README checks exclude each other. */
  lemma FiredAtMostSix(repo: RepoData, files: seq<FileEntry>, commits: Option<seq<Commit>>)
    ensures |FiredChecks(repo, files, commits)| <= 6
  {
    var fires := Firing(repo, files, commits);
    var h0 := if fires(ReadmeMissing) then [ReadmeMissing] else [];
    var h1 := if fires(ReadmeTooShort) then [ReadmeTooShort] else [];
    FiredSplit(repo, files, commits);
    FiredAmongBounds(AllChecks[2..], fires);
    assert |h0 + h1| <= 1;
  }

  /** The summary fragments: documentation, then tests, then activity, each only when its check fires. */
  function ExpectedFragments(repo: RepoData, files: seq<FileEntry>, commits: Option<seq<Commit>>): seq<string> {
    (if Fires(ReadmeMissing, repo, files, commits) then ["lacks documentation"] else [])
    + ((if Fires(TestsMissing, repo, files, commits) then ["has no visible tests"] else [])
       + (if Fires(LowActivity, repo, files, commits) then ["shows low development activity"] else []))
  }

  /** The fragments of the fired checks, for any firing condition. */
  lemma FiredFragments(fires: Check -> bool)
    ensures FragmentsOf(FiredAmong(AllChecks, fires))
      == (if fires(ReadmeMissing) then ["lacks documentation"] else [])
         + ((if fires(TestsMissing) then ["has no visible tests"] else [])
            + (if fires(LowActivity) then ["shows low development activity"] else []))
  {
    var cs := AllChecks;
    var a := if fires(ReadmeMissing) then ["lacks documentation"] else [];
    var bc := FragmentsOf(FiredAmong(cs[3..], fires));
    FiredFragmentsFromTests(fires);
    assert FragmentsOf(FiredAmong(cs[2..], fires)) == bc by {
      FragmentStep(cs[2..], GitignoreMissing, fires);
      assert cs[2..][1..] == cs[3..];
    }
    assert FragmentsOf(FiredAmong(cs[1..], fires)) == bc by {
      FragmentStep(cs[1..], ReadmeTooShort, fires);
      assert cs[1..][1..] == cs[2..];
    }
    assert FragmentsOf(FiredAmong(cs, fires)) == a + bc by {
      FragmentStep(cs, ReadmeMissing, fires);
    }
  }

  /** The fragments of the fired checks from the tests check on. */
  lemma FiredFragmentsFromTests(fires: Check -> bool)
    ensures FragmentsOf(FiredAmong(AllChecks[3..], fires))
      == (if fires(TestsMissing) then ["has no visible tests"] else [])
         + (if fires(LowActivity) then ["shows low development activity"] else [])
  {
    var cs := AllChecks[3..];
    assert cs == [TestsMissing, ManifestMissing, LowActivity, DescriptionMissing];
    var c := FragmentsOf(FiredAmong(cs[2..], fires));
    assert cs[2..] == AllChecks[5..];
    FiredFragmentsFromActivity(fires);
    assert FragmentsOf(FiredAmong(cs[1..], fires)) == c by {
      FragmentStep(cs[1..], ManifestMissing, fires);
      assert cs[1..][1..] == cs[2..];
    }
    FragmentStep(cs, TestsMissing, fires);
  }

  /** The fragments of the fired checks from the activity check on. */
  lemma FiredFragmentsFromActivity(fires: Check -> bool)
    ensures FragmentsOf(FiredAmong(AllChecks[5..], fires))
      == (if fires(LowActivity) then ["shows low development activity"] else [])
  {
    var cs := AllChecks[5..];
    assert cs == [LowActivity, DescriptionMissing];
    assert FragmentsOf(FiredAmong(cs[1..], fires)) == [] by {
      FragmentStep(cs[1..], DescriptionMissing, fires);
      assert cs[1..][1..] == [];
    }
    FragmentStep(cs, LowActivity, fires);
  }

  /** Peeling off the first check of a filtered list. */
  lemma FragmentStep(cs: seq<Check>, c: Check, fires: Check -> bool)
    requires cs != [] && cs[0] == c
    ensures FragmentsOf(FiredAmong(cs, fires))
      == (if fires(c) then Fragment(c) else []) + FragmentsOf(FiredAmong(cs[1..], fires))
  {
    var head := if fires(cs[0]) then [cs[0]] else [];
    assert FiredAmong(cs, fires) == head + FiredAmong(cs[1..], fires);
    ConcatFragments(head, FiredAmong(cs[1..], fires));
    if fires(cs[0]) {
      assert head[1..] == [];
      assert FragmentsOf(head) == Fragment(cs[0]) + [];
    }
  }

  lemma EvaluateFragments(repo: RepoData, files: seq<FileEntry>, commits: Option<seq<Commit>>)
    ensures Evaluate(repo, files, commits).fragments == ExpectedFragments(repo, files, commits)
  {
    ExpectedIsFiredSum(repo, files, commits);
    FiredFragments(Firing(repo, files, commits));
  }

  /** The summary: the sentence of the tier of the (never clamped) score, then the fired fragments in order. */
  lemma SummaryIsTierAndFragments(repo: RepoData, files: seq<FileEntry>, commits: Option<seq<Commit>>)
    ensures Expected(repo, files, commits).summary
      == BaseSentence(SummaryTier(Expected(repo, files, commits).score)) + FragmentSuffix(ExpectedFragments(repo, files, commits))
  {
    ScoreIsPenaltySum(repo, files, commits);
    EvaluateFragments(repo, files, commits);
  }

  /** A perfect score, an empty roadmap and no fired check are the same thing; the summary is then the bare "Excellent" sentence. */
  lemma PerfectScoreIff(repo: RepoData, files: seq<FileEntry>, commits: Option<seq<Commit>>)
    ensures Expected(repo, files, commits).score == 100 <==> FiredChecks(repo, files, commits) == []
    ensures Expected(repo, files, commits).score == 100 <==> Expected(repo, files, commits).roadmap == []
    ensures Expected(repo, files, commits).score == 100 ==> Expected(repo, files, commits).summary == BaseSentence(Excellent)
  {
    var f := FiredChecks(repo, files, commits);
    ScoreIsPenaltySum(repo, files, commits);
    PenaltyNonNegative(f);
    RoadmapIsFiredLines(repo, files, commits);
    if f == [] {
      FiredChecksIff(repo, files, commits, ReadmeMissing);
      FiredChecksIff(repo, files, commits, TestsMissing);
      FiredChecksIff(repo, files, commits, LowActivity);
      SummaryIsTierAndFragments(repo, files, commits);
      assert ExpectedFragments(repo, files, commits) == [];
    }
  }

  /** Input on which no check fires: a README of at least 300 bytes, `.gitignore`, a test file, a manifest, a description and enough (or no list of) commits. */
  predicate AllGood(repo: RepoData, files: seq<FileEntry>, commits: Option<seq<Commit>>) {
    HasReadme(files) && !IsReadmeShort(files) && HasFileNamed(files, ".gitignore") && HasTests(files)
    && !LacksManifest(files) && !IsSparse(commits) && HasDescription(repo)
  }

  /** All-good input scores 100 with an empty roadmap and the bare "Excellent" sentence. */
  lemma AllGoodIsPerfect(repo: RepoData, files: seq<FileEntry>, commits: Option<seq<Commit>>)
    requires AllGood(repo, files, commits)
    ensures Expected(repo, files, commits) == ScoreResult(100, BaseSentence(Excellent), [])
  {
    ReadmeChecksOnPresence(repo, files, commits);
    GitignoreSilent(repo, files, commits);
    TestsSilent(repo, files, commits);
    ManifestSilent(repo, files, commits);
    ActivitySilent(repo, files, commits);
    DescriptionSilent(repo, files, commits);
    NoneFires(Firing(repo, files, commits));
    PerfectScoreIff(repo, files, commits);
  }

  /** With only the README missing the score is 80: the summary is the "Good start" sentence with the documentation fragment. */
  lemma OnlyReadmeMissing(repo: RepoData, files: seq<FileEntry>, commits: Option<seq<Commit>>)
    requires OnlyReadmeAbsent(repo, files, commits)
    ensures Expected(repo, files, commits).score == 80
    ensures Expected(repo, files, commits).summary == BaseSentence(GoodStart) + FragmentSuffix(["lacks documentation"])
    ensures Expected(repo, files, commits).roadmap == [RoadmapLine(ReadmeMissing)]
  {
    OnlyReadmeFires(repo, files, commits);
    OnlyReadmeTally(repo, files, commits);
  }

  /** Input that passes every check except that no README is listed. */
  predicate OnlyReadmeAbsent(repo: RepoData, files: seq<FileEntry>, commits: Option<seq<Commit>>) {
    !HasReadme(files) && HasFileNamed(files, ".gitignore") && HasTests(files)
    && !LacksManifest(files) && !IsSparse(commits) && HasDescription(repo)
  }

  /** On that input the README check is the only fired check. */
  lemma OnlyReadmeFires(repo: RepoData, files: seq<FileEntry>, commits: Option<seq<Commit>>)
    requires OnlyReadmeAbsent(repo, files, commits)
    ensures FiredChecks(repo, files, commits) == [ReadmeMissing]
  {
    ReadmeChecksOnAbsence(repo, files, commits);
    GitignoreSilent(repo, files, commits);
    TestsSilent(repo, files, commits);
    ManifestSilent(repo, files, commits);
    ActivitySilent(repo, files, commits);
    DescriptionSilent(repo, files, commits);
    OnlyFirstFires(Firing(repo, files, commits));
  }

  lemma ReadmeChecksOnAbsence(repo: RepoData, files: seq<FileEntry>, commits: Option<seq<Commit>>)
    requires !HasReadme(files)
    ensures Fires(ReadmeMissing, repo, files, commits) && !Fires(ReadmeTooShort, repo, files, commits)
  {
  }

  lemma ReadmeChecksOnPresence(repo: RepoData, files: seq<FileEntry>, commits: Option<seq<Commit>>)
    requires HasReadme(files) && !IsReadmeShort(files)
    ensures !Fires(ReadmeMissing, repo, files, commits) && !Fires(ReadmeTooShort, repo, files, commits)
  {
  }

  lemma GitignoreSilent(repo: RepoData, files: seq<FileEntry>, commits: Option<seq<Commit>>)
    requires HasFileNamed(files, ".gitignore")
    ensures !Fires(GitignoreMissing, repo, files, commits)
  {
  }

  lemma TestsSilent(repo: RepoData, files: seq<FileEntry>, commits: Option<seq<Commit>>)
    requires HasTests(files)
    ensures !Fires(TestsMissing, repo, files, commits)
  {
  }

  lemma ManifestSilent(repo: RepoData, files: seq<FileEntry>, commits: Option<seq<Commit>>)
    requires !LacksManifest(files)
    ensures !Fires(ManifestMissing, repo, files, commits)
  {
  }

  lemma ActivitySilent(repo: RepoData, files: seq<FileEntry>, commits: Option<seq<Commit>>)
    requires !IsSparse(commits)
    ensures !Fires(LowActivity, repo, files, commits)
  {
  }

  lemma DescriptionSilent(repo: RepoData, files: seq<FileEntry>, commits: Option<seq<Commit>>)
    requires HasDescription(repo)
    ensures !Fires(DescriptionMissing, repo, files, commits)
  {
  }

  /** When no check's condition holds, no check fires. */
  lemma NoneFires(fires: Check -> bool)
    requires !fires(ReadmeMissing) && !fires(ReadmeTooShort) && !fires(GitignoreMissing) && !fires(TestsMissing)
    requires !fires(ManifestMissing) && !fires(LowActivity) && !fires(DescriptionMissing)
    ensures FiredAmong(AllChecks, fires) == []
  {
    FiredAmongNone(AllChecks, fires);
  }

  /** When the README check is the only one whose condition holds, it is the only fired check. */
  lemma OnlyFirstFires(fires: Check -> bool)
    requires fires(ReadmeMissing) && !fires(ReadmeTooShort) && !fires(GitignoreMissing) && !fires(TestsMissing)
    requires !fires(ManifestMissing) && !fires(LowActivity) && !fires(DescriptionMissing)
    ensures FiredAmong(AllChecks, fires) == [ReadmeMissing]
  {
    assert AllChecks[1..] == [ReadmeTooShort, GitignoreMissing, TestsMissing, ManifestMissing, LowActivity, DescriptionMissing];
    FiredAmongNone(AllChecks[1..], fires);
  }

  /** The tally of an input whose only fired check is the README check. */
  lemma OnlyReadmeTally(repo: RepoData, files: seq<FileEntry>, commits: Option<seq<Commit>>)
    requires FiredChecks(repo, files, commits) == [ReadmeMissing]
    ensures Evaluate(repo, files, commits) == Tally(80, [RoadmapLine(ReadmeMissing)], ["lacks documentation"])
  {
    var f := FiredChecks(repo, files, commits);
    ExpectedIsFiredSum(repo, files, commits);
    assert f[1..] == [];
    assert TotalPenalty(f) == 20;
    assert Lines(f) == [RoadmapLine(ReadmeMissing)];
    assert FragmentsOf(f) == ["lacks documentation"] + [];
  }

  // ---------------------------------------------------------------------------
  // The worst case: everything but the short-README check fires
  // ---------------------------------------------------------------------------

  /** The checks that fire on an empty listing with a sparse commit list and no description. */
  const WorstFired: seq<Check> :=
    [ReadmeMissing, GitignoreMissing, TestsMissing, ManifestMissing, LowActivity, DescriptionMissing]

  /** An empty listing, no description and fewer than five commits: score 30, the roadmap lines of the six fired checks in check order, the lowest sentence with all three fragments. */
  lemma WorstCase(repo: RepoData, files: seq<FileEntry>, commits: Option<seq<Commit>>)
    requires repo.description.None? && files == [] && commits.Some? && |commits.value| < 5
    ensures Expected(repo, files, commits).score == 30
    ensures Expected(repo, files, commits).roadmap == Lines(WorstFired)
    ensures Expected(repo, files, commits).summary
      == BaseSentence(NeedsAttention)
         + (" Specifically, it " + "lacks documentation" + " and " + "has no visible tests" + " and "
            + "shows low development activity" + ".")
  {
    WorstFires(repo, files, commits);
    WorstTally(repo, files, commits);
    SuffixOfThree("lacks documentation", "has no visible tests", "shows low development activity");
  }

  /** On that input every check but the short-README one fires. */
  lemma WorstFires(repo: RepoData, files: seq<FileEntry>, commits: Option<seq<Commit>>)
    requires repo.description.None? && files == [] && commits.Some? && |commits.value| < 5
    ensures FiredChecks(repo, files, commits) == WorstFired
  {
    assert !HasReadme(files) && !IsReadmeShort(files);
    assert !HasFileNamed(files, ".gitignore") && !HasTests(files) && LacksManifest(files);
    AllButShortFire(Firing(repo, files, commits));
  }

  /** When exactly the checks of `WorstFired` hold, they are the fired list. */
  lemma AllButShortFire(fires: Check -> bool)
    requires fires(ReadmeMissing) && !fires(ReadmeTooShort) && fires(GitignoreMissing) && fires(TestsMissing)
    requires fires(ManifestMissing) && fires(LowActivity) && fires(DescriptionMissing)
    ensures FiredAmong(AllChecks, fires) == WorstFired
  {
    var cs := AllChecks;
    assert FiredAmong(cs[6..], fires) == [DescriptionMissing] by {
      assert cs[6..] == [DescriptionMissing];
      assert cs[6..][1..] == [];
    }
    assert FiredAmong(cs[5..], fires) == [LowActivity, DescriptionMissing] by {
      assert cs[5..][1..] == cs[6..];
    }
    assert FiredAmong(cs[4..], fires) == [ManifestMissing, LowActivity, DescriptionMissing] by {
      assert cs[4..][1..] == cs[5..];
    }
    assert FiredAmong(cs[3..], fires) == WorstFired[2..] by {
      assert cs[3..][1..] == cs[4..];
    }
    assert FiredAmong(cs[2..], fires) == WorstFired[1..] by {
      assert cs[2..][1..] == cs[3..];
    }
    assert FiredAmong(cs[1..], fires) == WorstFired[1..] by {
      assert cs[1..][1..] == cs[2..];
    }
  }

  /** The tally of that input. */
  lemma WorstTally(repo: RepoData, files: seq<FileEntry>, commits: Option<seq<Commit>>)
    requires FiredChecks(repo, files, commits) == WorstFired
    ensures Evaluate(repo, files, commits)
      == Tally(30, Lines(WorstFired), ["lacks documentation", "has no visible tests", "shows low development activity"])
  {
    ExpectedIsFiredSum(repo, files, commits);
    WorstPenalty();
    WorstFragments();
  }

  lemma WorstPenalty()
    ensures TotalPenalty(WorstFired) == 70
  {
    var w := WorstFired;
    assert TotalPenalty(w[5..]) == 5 by { assert w[5..][1..] == []; }
    assert TotalPenalty(w[4..]) == 15 by { assert w[4..][1..] == w[5..]; }
    assert TotalPenalty(w[3..]) == 25 by { assert w[3..][1..] == w[4..]; }
    assert TotalPenalty(w[2..]) == 40 by { assert w[2..][1..] == w[3..]; }
    assert TotalPenalty(w[1..]) == 50 by { assert w[1..][1..] == w[2..]; }
  }

  lemma WorstFragments()
    ensures FragmentsOf(WorstFired) == ["lacks documentation", "has no visible tests", "shows low development activity"]
  {
    var w := WorstFired;
    assert FragmentsOf(w[5..]) == [] by { assert w[5..][1..] == []; }
    assert FragmentsOf(w[4..]) == ["shows low development activity"] by { assert w[4..][1..] == w[5..]; }
    assert FragmentsOf(w[3..]) == ["shows low development activity"] by { assert w[3..][1..] == w[4..]; }
    assert FragmentsOf(w[2..]) == ["has no visible tests", "shows low development activity"] by { assert w[2..][1..] == w[3..]; }
    assert FragmentsOf(w[1..]) == ["has no visible tests", "shows low development activity"] by { assert w[1..][1..] == w[2..]; }
  }

  /** Three fragments joined as the summary joins them. */
  lemma SuffixOfThree(a: string, b: string, c: string)
    ensures FragmentSuffix([a, b, c]) == " Specifically, it " + a + " and " + b + " and " + c + "."
  {
    JoinCons(a, [b, c], " and ");
    JoinCons(b, [c], " and ");
    assert [a] + [b, c] == [a, b, c];
    assert [b] + [c] == [b, c];
  }
}

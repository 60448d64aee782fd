/**
 * The conditions of the individual checks, stated without the scans that
 * compute them: which entry of the listing makes a check pass or fail, that
 * the README examined for size is the first one in listing order, that the
 * two README branches exclude each other, and which inputs leave the
 * activity and description checks silent.
 */
module CheckProperties {
  import opened Wrappers
  import opened Text
  import opened Analyzer

  // ---------------------------------------------------------------------------
  // The `some` scans are existentials over the listing
  // ---------------------------------------------------------------------------

  lemma {:induction false} HasReadmeIff(files: seq<FileEntry>)
    ensures HasReadme(files) <==> exists i :: 0 <= i < |files| && IsReadmeName(files[i].name)
  {
    if files != [] {
      HasReadmeIff(files[1..]);
      if HasReadme(files[1..]) {
        var i :| 0 <= i < |files[1..]| && IsReadmeName(files[1..][i].name);
        assert files[i + 1] == files[1..][i];
      }
      if exists i :: 0 <= i < |files| && IsReadmeName(files[i].name) {
        var i :| 0 <= i < |files| && IsReadmeName(files[i].name);
        if i > 0 {
          assert files[1..][i - 1] == files[i];
        }
      }
    }
  }

  /** The name comparison of the `.gitignore` and manifest checks is exact. */
  lemma {:induction false} HasFileNamedIff(files: seq<FileEntry>, name: string)
    ensures HasFileNamed(files, name) <==> exists i :: 0 <= i < |files| && files[i].name == name
  {
    if files != [] {
      HasFileNamedIff(files[1..], name);
      if HasFileNamed(files[1..], name) {
        var i :| 0 <= i < |files[1..]| && files[1..][i].name == name;
        assert files[i + 1] == files[1..][i];
      }
      if exists i :: 0 <= i < |files| && files[i].name == name {
        var i :| 0 <= i < |files| && files[i].name == name;
        if i > 0 {
          assert files[1..][i - 1] == files[i];
        }
      }
    }
  }

  lemma {:induction false} HasTestsIff(files: seq<FileEntry>)
    ensures HasTests(files) <==> exists i :: 0 <= i < |files| && IsTestName(files[i].name)
  {
    if files != [] {
      HasTestsIff(files[1..]);
      if HasTests(files[1..]) {
        var i :| 0 <= i < |files[1..]| && IsTestName(files[1..][i].name);
        assert files[i + 1] == files[1..][i];
      }
      if exists i :: 0 <= i < |files| && IsTestName(files[i].name) {
        var i :| 0 <= i < |files| && IsTestName(files[i].name);
        if i > 0 {
          assert files[1..][i - 1] == files[i];
        }
      }
    }
  }

  // ---------------------------------------------------------------------------
  // The README that `find` returns
  // ---------------------------------------------------------------------------

  /** `find` returns the first entry whose lower-cased name contains "readme". */
  lemma {:induction false} FindReadmeIsFirst(files: seq<FileEntry>)
    ensures match FindReadme(files)
      case Some(k) => forall j :: 0 <= j < k ==> !IsReadmeName(files[j].name)
      case None => forall j :: 0 <= j < |files| ==> !IsReadmeName(files[j].name)
  {
    if files != [] && !IsReadmeName(files[0].name) {
      FindReadmeIsFirst(files[1..]);
      forall j | 1 <= j < |files|
        ensures files[j] == files[1..][j - 1]
      {
      }
    }
  }

  /** The size check looks at the first README of the listing and at no other. */
  lemma ReadmeShortIff(files: seq<FileEntry>)
    ensures IsReadmeShort(files) <==>
      exists k :: 0 <= k < |files| && IsReadmeName(files[k].name) && files[k].size < 300
        && forall j :: 0 <= j < k ==> !IsReadmeName(files[j].name)
  {
    FindReadmeIsFirst(files);
    if exists k :: 0 <= k < |files| && IsReadmeName(files[k].name) && files[k].size < 300
        && forall j :: 0 <= j < k ==> !IsReadmeName(files[j].name) {
      var k :| 0 <= k < |files| && IsReadmeName(files[k].name) && files[k].size < 300
        && forall j :: 0 <= j < k ==> !IsReadmeName(files[j].name);
      var r := FindReadme(files);
      assert r.Some?;
      assert r.value == k;
    }
  }

  /** At most one of the two README penalties applies. */
  lemma ReadmeBranchesExclusive(repo: RepoData, files: seq<FileEntry>, commits: Option<seq<Commit>>)
    ensures !(Fires(ReadmeMissing, repo, files, commits) && Fires(ReadmeTooShort, repo, files, commits))
  {
  }

  // ---------------------------------------------------------------------------
  // Each check's condition over the listing and the metadata
  // ---------------------------------------------------------------------------

  lemma ReadmeMissingIff(repo: RepoData, files: seq<FileEntry>, commits: Option<seq<Commit>>)
    ensures Fires(ReadmeMissing, repo, files, commits)
      <==> forall i :: 0 <= i < |files| ==> !Contains(Lower(files[i].name), "readme")
  {
    HasReadmeIff(files);
  }

  /** Only an entry named exactly ".gitignore" satisfies the check. */
  lemma GitignoreMissingIff(repo: RepoData, files: seq<FileEntry>, commits: Option<seq<Commit>>)
    ensures Fires(GitignoreMissing, repo, files, commits)
      <==> forall i :: 0 <= i < |files| ==> files[i].name != ".gitignore"
  {
    HasFileNamedIff(files, ".gitignore");
  }

  lemma TestsMissingIff(repo: RepoData, files: seq<FileEntry>, commits: Option<seq<Commit>>)
    ensures Fires(TestsMissing, repo, files, commits)
      <==> forall i :: 0 <= i < |files| ==>
             !Contains(Lower(files[i].name), "test") && !Contains(Lower(files[i].name), "spec")
  {
    HasTestsIff(files);
  }

  /** Only an entry named exactly "package.json" or "requirements.txt" satisfies the check. */
  lemma ManifestMissingIff(repo: RepoData, files: seq<FileEntry>, commits: Option<seq<Commit>>)
    ensures Fires(ManifestMissing, repo, files, commits)
      <==> forall i :: 0 <= i < |files| ==> files[i].name != "package.json" && files[i].name != "requirements.txt"
  {
    HasFileNamedIff(files, "package.json");
    HasFileNamedIff(files, "requirements.txt");
  }

  /** A commit list that is not an array never fires; an array fires when it has fewer than five entries. */
  lemma LowActivityIff(repo: RepoData, files: seq<FileEntry>, commits: Option<seq<Commit>>)
    ensures Fires(LowActivity, repo, files, commits) <==> commits.Some? && |commits.value| < 5
    ensures commits.None? ==> !Fires(LowActivity, repo, files, commits)
  {
  }

  /** An absent and an empty description fire alike. */
  lemma DescriptionMissingIff(repo: RepoData, files: seq<FileEntry>, commits: Option<seq<Commit>>)
    ensures Fires(DescriptionMissing, repo, files, commits) <==> repo.description == None || repo.description == Some("")
  {
  }

  // ---------------------------------------------------------------------------
  // Case: the README and tests checks ignore it, the exact-name checks do not
  // ---------------------------------------------------------------------------

  /** "TESTS.py" counts as a test file: its lower-cased name contains "test". */
  lemma UpperCaseTestName()
    ensures IsTestName("TESTS.py")
  {
    var name := "TESTS.py";
    LowerAt(name, 0);
    LowerAt(name, 1);
    LowerAt(name, 2);
    LowerAt(name, 3);
    assert Lower(name)[..4] == "test";
    assert OccursAt(Lower(name), "test", 0);
  }

  /** "Readme" counts as a README. */
  lemma MixedCaseReadmeName()
    ensures IsReadmeName("Readme")
  {
    var name := "Readme";
    LowerAt(name, 0);
    LowerAt(name, 1);
    LowerAt(name, 2);
    LowerAt(name, 3);
    LowerAt(name, 4);
    LowerAt(name, 5);
    assert Lower(name) == "readme";
    assert OccursAt(Lower(name), "readme", 0);
  }

  /** ".GITIGNORE" does not satisfy the `.gitignore` check: the comparison is case-sensitive. */
  lemma UpperCaseGitignoreIgnored()
    ensures !HasFileNamed([FileEntry(".GITIGNORE", 0)], ".gitignore")
  {
    var files := [FileEntry(".GITIGNORE", 0)];
    assert files[0].name[1] != ".gitignore"[1];
    assert files[1..] == [];
  }
}


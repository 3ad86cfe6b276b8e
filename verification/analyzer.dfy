/**
 The analyzer's decision for one package (the `run` closure): the early
 exits, the "not imported" path that reports every test function, and
 the report of the test functions the merged extraction leaves uncovered.
 */
module Analyzer {
  import opened Strings
  import opened Syntax
  import opened Patterns
  import opened Alias
  import opened Extract
  import opened Merge

  const NotImported: string := "goleak not imported"
  const MissingDefer: string := "missing defer goleak.VerifyNone(t)"
  const MainWithoutVerify: string := "TestMain exists but doesn't call goleak.VerifyTestMain"

  /** A report: the test function it is placed at and the reason given. */
  datatype Diagnostic = Diagnostic(at: TestFunc, reason: string)

  const MessageHead: string := "test function "
  const MessageMid: string := " is not covered by goleak "

  /**
   The text of a report: the test function's name after the fixed head,
   the reason in parentheses at the end.
   */
  function Message(d: Diagnostic): (r: string)
    ensures HasPrefix(r, MessageHead + d.at.name)
    ensures HasSuffix(r, "(" + d.reason + ")")
  {
    var front, back := MessageHead + d.at.name, "(" + d.reason + ")";
    var r := front + (MessageMid + back);
    assert r[..|front|] == front;
    assert r == (front + MessageMid) + back;
    assert r[|r| - |back|..] == back;
    r
  }

  /** Two reports with the same reason have the same text only when they name the same function. */
  lemma {:induction false} MessageNamesTest(d1: Diagnostic, d2: Diagnostic)
    requires d1.reason == d2.reason
    requires Message(d1) == Message(d2)
    ensures d1.at.name == d2.at.name
  {
    var n1, n2 := d1.at.name, d2.at.name;
    var tail := MessageMid + ("(" + d1.reason + ")");
    assert Message(d1) == MessageHead + n1 + tail;
    assert Message(d2) == MessageHead + n2 + tail;
    assert |n1| == |n2|;
    var h := |MessageHead|;
    assert Message(d1)[h..h + |n1|] == n1;
    assert Message(d2)[h..h + |n2|] == n2;
  }

  /**
   `shouldExcludeFileWithConfig` under one configuration, as the filter
   the report loops apply to file names.
   */
  function FileFilter(regex: RegexMatcher, config: Config): (excluded: string -> bool)
    ensures forall filename :: excluded(filename) == ShouldExcludeFile(regex, filename, config)
  {
    filename => ShouldExcludeFile(regex, filename, config)
  }

  /** The file takes part in the analysis: a test file the filter lets through. */
  predicate Admitted(excluded: string -> bool, filename: string) {
    IsTestFile(filename) && !excluded(filename)
  }

  /** `hasNonExcludedTestFiles`: the scan stops at the first admitted file. */
  function HasNonExcludedTestFiles(excluded: string -> bool, files: seq<File>): (r: bool)
    ensures r <==> exists i :: 0 <= i < |files| && Admitted(excluded, files[i].filename)
    decreases |files|
  {
    if |files| == 0 then false
    else if Admitted(excluded, files[0].filename) then true
    else
      var r := HasNonExcludedTestFiles(excluded, files[1..]);
      assert r ==> exists i :: 0 <= i < |files| && Admitted(excluded, files[i].filename) by {
        if r {
          var i :| 0 <= i < |files[1..]| && Admitted(excluded, files[1..][i].filename);
          assert files[i + 1] == files[1..][i];
        }
      }
      assert (exists i :: 0 <= i < |files| && Admitted(excluded, files[i].filename)) ==> r by {
        if exists i :: 0 <= i < |files| && Admitted(excluded, files[i].filename) {
          var i :| 0 <= i < |files| && Admitted(excluded, files[i].filename);
          assert files[1..][i - 1] == files[i];
        }
      }
      r
  }

  /** One report per test function in `tfs`, in order. */
  function ReportEach(tfs: seq<TestFunc>, reason: string): (r: seq<Diagnostic>)
    ensures |r| == |tfs| && forall k :: 0 <= k < |r| ==> r[k] == Diagnostic(tfs[k], reason)
    ensures forall d :: d in r <==> d.at in tfs && d.reason == reason
    decreases |tfs|
  {
    if |tfs| == 0 then []
    else
      var rest := ReportEach(tfs[1..], reason);
      var r := [Diagnostic(tfs[0], reason)] + rest;
      assert forall k :: 0 <= k < |r| ==> r[k] == Diagnostic(tfs[k], reason) by {
        forall k | 1 <= k < |r| ensures r[k] == Diagnostic(tfs[k], reason) {
          assert r[k] == rest[k - 1] && tfs[1..][k - 1] == tfs[k];
        }
      }
      assert forall d :: d in r <==> d.at in tfs && d.reason == reason by {
        forall d ensures d in r <==> d.at in tfs && d.reason == reason {
          if d.at in tfs && d.reason == reason {
            var k :| 0 <= k < |tfs| && tfs[k] == d.at;
            assert r[k] == d;
          }
        }
      }
      r
  }

  /** Each test function in `tfs` is reported as often as it occurs there, and nothing else is. */
  lemma {:induction false} ReportEachCounts(tfs: seq<TestFunc>, reason: string, d: Diagnostic)
    ensures multiset(ReportEach(tfs, reason))[d] == if d.reason == reason then multiset(tfs)[d.at] else 0
    decreases |tfs|
  {
    if |tfs| > 0 {
      ReportEachCounts(tfs[1..], reason, d);
      assert tfs == [tfs[0]] + tfs[1..];
      assert ReportEach(tfs, reason) == [Diagnostic(tfs[0], reason)] + ReportEach(tfs[1..], reason);
    }
  }

  /** Reporting a concatenation reports each part in turn. */
  lemma {:induction false} ReportEachAppend(a: seq<TestFunc>, b: seq<TestFunc>, reason: string)
    ensures ReportEach(a + b, reason) == ReportEach(a, reason) + ReportEach(b, reason)
  {
    var l, r := ReportEach(a + b, reason), ReportEach(a, reason) + ReportEach(b, reason);
    assert |l| == |r|;
    forall k | 0 <= k < |l| ensures l[k] == r[k] {
      if k < |a| {
        assert r[k] == ReportEach(a, reason)[k];
      } else {
        assert r[k] == ReportEach(b, reason)[k - |a|];
      }
    }
  }

  /**
   The test declarations of every file the filter lets through, test file
   or not, in file order and declaration order.
   */
  function FilteredDecls(excluded: string -> bool, files: seq<File>): (r: seq<TestFunc>)
    ensures forall t :: t in r <==>
              exists i :: 0 <= i < |files| && !excluded(files[i].filename)
                          && t in TestDecls(files[i].nodes, files[i].filename)
    decreases |files|
  {
    if |files| == 0 then []
    else
      var f := files[0];
      var head := if excluded(f.filename) then [] else TestDecls(f.nodes, f.filename);
      var rest := FilteredDecls(excluded, files[1..]);
      forall t | t in rest
        ensures exists i :: 0 <= i < |files| && !excluded(files[i].filename)
                            && t in TestDecls(files[i].nodes, files[i].filename)
      {
        var i :| 0 <= i < |files[1..]| && !excluded(files[1..][i].filename)
                 && t in TestDecls(files[1..][i].nodes, files[1..][i].filename);
        assert files[i + 1] == files[1..][i];
      }
      forall t | exists i :: 0 <= i < |files| && !excluded(files[i].filename)
                             && t in TestDecls(files[i].nodes, files[i].filename)
        ensures t in head + rest
      {
        var i :| 0 <= i < |files| && !excluded(files[i].filename)
                 && t in TestDecls(files[i].nodes, files[i].filename);
        if i > 0 {
          assert files[1..][i - 1] == files[i];
        }
      }
      head + rest
  }

  /**
   `reportUncoveredTestFunctionsWithContext`: every named declaration with
   the test prefix in every file the filter lets through, in file order
   and declaration order. The file need not be a test file.
   */
  function ReportAllTests(excluded: string -> bool, files: seq<File>, reason: string)
    : (r: seq<Diagnostic>)
    ensures r == ReportEach(FilteredDecls(excluded, files), reason)
    ensures forall d :: d in r <==>
              && d.reason == reason
              && exists i :: 0 <= i < |files| && !excluded(files[i].filename)
                             && d.at in TestDecls(files[i].nodes, files[i].filename)
    decreases |files|
  {
    if |files| == 0 then []
    else
      var f := files[0];
      var decls := if excluded(f.filename) then [] else TestDecls(f.nodes, f.filename);
      var head := if excluded(f.filename) then [] else ReportEach(decls, reason);
      var rest := ReportAllTests(excluded, files[1..], reason);
      ReportEachAppend(decls, FilteredDecls(excluded, files[1..]), reason);
      head + rest
  }

  /**
   The "not imported" path reports each test declaration of the files the
   filter lets through exactly as often as it is declared there.
   */
  lemma {:induction false} ReportAllTestsCounts(excluded: string -> bool, files: seq<File>, reason: string, d: Diagnostic)
    ensures multiset(ReportAllTests(excluded, files, reason))[d] ==
              if d.reason == reason then multiset(FilteredDecls(excluded, files))[d.at] else 0
  {
    ReportEachCounts(FilteredDecls(excluded, files), reason, d);
  }

  /**
   The loop over the merged test functions: one report for each that no
   deferred check covers and whose file the filter lets through, in order.
   */
  function Uncovered(excluded: string -> bool, tfs: seq<TestFunc>, covered: set<string>, reason: string)
    : (r: seq<Diagnostic>)
    ensures |r| <= |tfs|
    ensures forall d :: d in r <==>
              && d.at in tfs
              && d.at.name !in covered
              && !excluded(d.at.filename)
              && d.reason == reason
    ensures forall d :: multiset(r)[d] ==
              if d.at.name !in covered && !excluded(d.at.filename) && d.reason == reason
              then multiset(tfs)[d.at] else 0
    decreases |tfs|
  {
    if |tfs| == 0 then []
    else
      var t := tfs[0];
      var reported := t.name !in covered && !excluded(t.filename);
      var rest := Uncovered(excluded, tfs[1..], covered, reason);
      var r := if reported then [Diagnostic(t, reason)] + rest else rest;
      assert tfs == [t] + tfs[1..];
      UncoveredStep(excluded, t, tfs[1..], covered, reason, rest);
      CountsGiveMembers(excluded, tfs, covered, reason, r);
      r
  }

  /** One turn of the report loop: the head is reported, or not, in front of the rest. */
  lemma {:induction false} UncoveredStep(excluded: string -> bool, t: TestFunc, tail: seq<TestFunc>,
                                         covered: set<string>, reason: string, rest: seq<Diagnostic>)
    requires forall d :: multiset(rest)[d] ==
               if d.at.name !in covered && !excluded(d.at.filename) && d.reason == reason
               then multiset(tail)[d.at] else 0
    ensures var r := if t.name !in covered && !excluded(t.filename) then [Diagnostic(t, reason)] + rest else rest;
            forall d :: multiset(r)[d] ==
              if d.at.name !in covered && !excluded(d.at.filename) && d.reason == reason
              then multiset([t] + tail)[d.at] else 0
  {
    var r := if t.name !in covered && !excluded(t.filename) then [Diagnostic(t, reason)] + rest else rest;
    forall d: Diagnostic ensures multiset(r)[d] ==
                     if d.at.name !in covered && !excluded(d.at.filename) && d.reason == reason
                     then multiset([t] + tail)[d.at] else 0 {
      assert multiset([t] + tail)[d.at] == multiset([t])[d.at] + multiset(tail)[d.at];
      if t.name !in covered && !excluded(t.filename) {
        assert multiset(r)[d] == multiset([Diagnostic(t, reason)])[d] + multiset(rest)[d];
      }
    }
  }

  /** Reports counted as the loop counts them are exactly its reports. */
  lemma {:induction false} CountsGiveMembers(excluded: string -> bool, tfs: seq<TestFunc>, covered: set<string>,
                                             reason: string, r: seq<Diagnostic>)
    requires forall d :: multiset(r)[d] ==
               if d.at.name !in covered && !excluded(d.at.filename) && d.reason == reason
               then multiset(tfs)[d.at] else 0
    ensures forall d :: d in r <==>
              && d.at in tfs
              && d.at.name !in covered
              && !excluded(d.at.filename)
              && d.reason == reason
  {
    forall d: Diagnostic ensures d in r <==> multiset(r)[d] > 0 {}
    forall u: TestFunc ensures u in tfs <==> multiset(tfs)[u] > 0 {}
  }

  /** The reason given to every uncovered test function of an importing package. */
  function ReasonFor(a: Analysis): (r: string)
    ensures r == MainWithoutVerify <==> a.hasTestMain && !a.hasVerifyTestMain
    ensures r == MissingDefer || r == MainWithoutVerify
  {
    if a.hasTestMain && !a.hasVerifyTestMain then MainWithoutVerify else MissingDefer
  }

  /**
   The report step of `run` once the package imports goleak: nothing
   when an entry point verifies the whole package, else the uncovered test
   functions.
   */
  function ReportUncovered(excluded: string -> bool, a: Analysis): (r: seq<Diagnostic>)
    ensures a.hasTestMain && a.hasVerifyTestMain ==> r == []
    ensures !(a.hasTestMain && a.hasVerifyTestMain) ==>
              forall d :: d in r <==>
                && d.at in a.testFuncs
                && d.at.name !in a.covered
                && !excluded(d.at.filename)
                && d.reason == (if a.hasTestMain then MainWithoutVerify else MissingDefer)
  {
    if a.hasTestMain && a.hasVerifyTestMain then []
    else Uncovered(excluded, a.testFuncs, a.covered, ReasonFor(a))
  }

  /**
   The body of `run` once the two exclusion rules are decided: no files,
   an excluded package or no admitted test file give no report; a package
   that does not import goleak gets one report per test function;
   otherwise the merged extraction decides.
   */
  function Decide(excluded: string -> bool, packageExcluded: bool, files: seq<File>)
    : (r: seq<Diagnostic>)
    ensures |files| == 0 || packageExcluded ==> r == []
    ensures (forall i :: 0 <= i < |files| ==> !Admitted(excluded, files[i].filename)) ==> r == []
    ensures forall d :: d in r ==>
              && !excluded(d.at.filename)
              && IsTestFunction(d.at.name)
              && d.reason in {NotImported, MissingDefer, MainWithoutVerify}
              && exists i :: 0 <= i < |files| && d.at in TestDecls(files[i].nodes, files[i].filename)
    ensures forall d :: d in r && d.reason == NotImported ==> GoleakAlias(files) == []
  {
    if |files| == 0 then []
    else if packageExcluded then []
    else if !HasNonExcludedTestFiles(excluded, files) then []
    else
      var alias := GoleakAlias(files);
      if alias == [] then
        AllTestsAreTests(excluded, files, NotImported);
        ReportAllTests(excluded, files, NotImported)
      else
        UncoveredAreTests(excluded, files, alias);
        ReportUncovered(excluded, Analyze(files, alias))
  }

  /** Every report of the "not imported" path names a test declaration. */
  lemma {:induction false} AllTestsAreTests(excluded: string -> bool, files: seq<File>, reason: string)
    ensures forall d :: d in ReportAllTests(excluded, files, reason) ==> IsTestFunction(d.at.name)
  {
    forall d | d in ReportAllTests(excluded, files, reason) ensures IsTestFunction(d.at.name) {
      var i :| 0 <= i < |files| && d.at in TestDecls(files[i].nodes, files[i].filename);
      var k :| 0 <= k < |TestDecls(files[i].nodes, files[i].filename)|
               && TestDecls(files[i].nodes, files[i].filename)[k] == d.at;
    }
  }

  /** Every report of the merged extraction names a test declaration of some file. */
  lemma {:induction false} UncoveredAreTests(excluded: string -> bool, files: seq<File>, alias: string)
    ensures forall d :: d in ReportUncovered(excluded, Analyze(files, alias)) ==>
              && IsTestFunction(d.at.name)
              && exists i :: 0 <= i < |files| && d.at in TestDecls(files[i].nodes, files[i].filename)
  {
    forall d | d in ReportUncovered(excluded, Analyze(files, alias))
      ensures IsTestFunction(d.at.name)
      ensures exists i :: 0 <= i < |files| && d.at in TestDecls(files[i].nodes, files[i].filename)
    {
      var a := Analyze(files, alias);
      assert d.at in a.testFuncs;
      DeclaredIsTest(files, d.at);
    }
  }

  /** A test function the unit's extraction records is a test declaration of one of its files. */
  lemma {:induction false} DeclaredIsTest(files: seq<File>, t: TestFunc)
    requires exists i :: 0 <= i < |files| && IsTestFile(files[i].filename)
                         && t in TestDecls(files[i].nodes, files[i].filename)
    ensures IsTestFunction(t.name)
    ensures exists i :: 0 <= i < |files| && t in TestDecls(files[i].nodes, files[i].filename)
  {
    var i :| 0 <= i < |files| && IsTestFile(files[i].filename)
             && t in TestDecls(files[i].nodes, files[i].filename);
    var k :| 0 <= k < |TestDecls(files[i].nodes, files[i].filename)|
             && TestDecls(files[i].nodes, files[i].filename)[k] == t;
  }

  /**
   `run` for one package: the exclusion rules of the configuration
   decide which files and whether the package take part.
   */
  function Run(regex: RegexMatcher, config: Config, pkgPath: string, files: seq<File>)
    : (r: seq<Diagnostic>)
    ensures |files| == 0 ==> r == []
    ensures ShouldExcludePackage(regex, pkgPath, config) ==> r == []
    ensures (forall i :: 0 <= i < |files| ==> !Admitted(FileFilter(regex, config), files[i].filename))
              ==> r == []
    ensures forall d :: d in r ==>
              && !ShouldExcludeFile(regex, d.at.filename, config)
              && IsTestFunction(d.at.name)
              && d.reason in {NotImported, MissingDefer, MainWithoutVerify}
              && exists i :: 0 <= i < |files| && d.at in TestDecls(files[i].nodes, files[i].filename)
    ensures forall d :: d in r && d.reason == NotImported ==> GoleakAlias(files) == []
  {
    Decide(FileFilter(regex, config), ShouldExcludePackage(regex, pkgPath, config), files)
  }

  /**
   Once the package is not excluded and some test file is admitted, a
   package that imports goleak gets the reports of its merged
   extraction.
   */
  lemma {:induction false} DecideImported(excluded: string -> bool, files: seq<File>, i: int)
    requires 0 <= i < |files| && Admitted(excluded, files[i].filename)
    requires GoleakAlias(files) != []
    ensures Decide(excluded, false, files) == ReportUncovered(excluded, Analyze(files, GoleakAlias(files)))
  {
    assert HasNonExcludedTestFiles(excluded, files);
  }

  /**
   Once the package is not excluded and some test file is admitted, a
   package that does not import goleak gets every test function of
   the admitted files reported, with the "not imported" reason.
   */
  lemma {:induction false} DecideNotImported(excluded: string -> bool, files: seq<File>, i: int)
    requires 0 <= i < |files| && Admitted(excluded, files[i].filename)
    requires GoleakAlias(files) == []
    ensures Decide(excluded, false, files) == ReportAllTests(excluded, files, NotImported)
  {
    assert HasNonExcludedTestFiles(excluded, files);
  }

  /**
   A package that does not import goleak (the alias is empty): the
   reports are exactly the test functions of the files the filter lets
   through, each with the "not imported" reason, provided the package is
   not excluded and at least one admitted test file exists.
   */
  lemma {:induction false} NotImportedReports(excluded: string -> bool, packageExcluded: bool,
                                              files: seq<File>, d: Diagnostic)
    requires GoleakAlias(files) == []
    ensures d in Decide(excluded, packageExcluded, files) <==>
              && !packageExcluded
              && (exists i :: 0 <= i < |files| && Admitted(excluded, files[i].filename))
              && d.reason == NotImported
              && exists i :: 0 <= i < |files| && !excluded(files[i].filename)
                             && d.at in TestDecls(files[i].nodes, files[i].filename)
  {
  }

  /**
   A package that imports goleak: a test function is reported exactly
   when it is declared in a test file the filter lets through, no deferred
   check in any test file covers its name, and the package has no entry
   point that calls `VerifyTestMain`. The reason names the entry point
   when one exists.
   */
  lemma {:induction false} ImportedReports(excluded: string -> bool, packageExcluded: bool,
                                           files: seq<File>, d: Diagnostic)
    requires GoleakAlias(files) != []
    ensures d in Decide(excluded, packageExcluded, files) <==>
              && !packageExcluded
              && !(UnitHasTestMain(files) && UnitVerifiesTestMain(files, GoleakAlias(files)))
              && (exists i :: 0 <= i < |files| && IsTestFile(files[i].filename)
                              && d.at in TestDecls(files[i].nodes, files[i].filename))
              && !excluded(d.at.filename)
              && !UnitCovers(files, GoleakAlias(files), d.at.name)
              && d.reason == (if UnitHasTestMain(files) then MainWithoutVerify else MissingDefer)
  {
    var alias := GoleakAlias(files);
    AnalyzeFacts(files, alias, d.at.name);
    if exists i :: 0 <= i < |files| && IsTestFile(files[i].filename)
                   && d.at in TestDecls(files[i].nodes, files[i].filename) {
      var i :| 0 <= i < |files| && IsTestFile(files[i].filename)
               && d.at in TestDecls(files[i].nodes, files[i].filename);
      var k :| 0 <= k < |TestDecls(files[i].nodes, files[i].filename)|
               && TestDecls(files[i].nodes, files[i].filename)[k] == d.at;
      if !excluded(d.at.filename) {
        assert Admitted(excluded, files[i].filename);
      }
    }
  }

  /**
   A package that imports goleak, is not excluded and has an admitted
   test file: each test function of the merged extraction is reported as
   often as it occurs there, unless an entry point verifies the package,
   a deferred check covers its name or the filter drops its file; nothing
   else is reported.
   */
  lemma {:induction false} ImportedReportCounts(excluded: string -> bool, files: seq<File>, i: int, d: Diagnostic)
    requires 0 <= i < |files| && Admitted(excluded, files[i].filename)
    requires GoleakAlias(files) != []
    ensures var a := Analyze(files, GoleakAlias(files));
            multiset(Decide(excluded, false, files))[d] ==
              if && !(a.hasTestMain && a.hasVerifyTestMain)
                 && d.at.name !in a.covered
                 && !excluded(d.at.filename)
                 && d.reason == ReasonFor(a)
              then multiset(a.testFuncs)[d.at] else 0
  {
    DecideImported(excluded, files, i);
  }

  /** A name some deferred check covers is never reported, once the package imports goleak. */
  lemma {:induction false} CoveredNeverReported(excluded: string -> bool, packageExcluded: bool, files: seq<File>, x: string)
    requires GoleakAlias(files) != []
    requires UnitCovers(files, GoleakAlias(files), x)
    ensures forall d :: d in Decide(excluded, packageExcluded, files) ==> d.at.name != x
  {
    forall d | d in Decide(excluded, packageExcluded, files) ensures d.at.name != x {
      ImportedReports(excluded, packageExcluded, files, d);
    }
  }

  /**
   An entry point that calls `VerifyTestMain` anywhere in the package's
   test files silences every report.
   */
  lemma {:induction false} EntryPointDominance(regex: RegexMatcher, config: Config, pkgPath: string, files: seq<File>)
    requires GoleakAlias(files) != []
    requires UnitHasTestMain(files)
    requires UnitVerifiesTestMain(files, GoleakAlias(files))
    ensures Run(regex, config, pkgPath, files) == []
  {
    DecideEntryPoint(FileFilter(regex, config), ShouldExcludePackage(regex, pkgPath, config), files);
  }

  /** `EntryPointDominance` once the exclusion rules are decided. */
  lemma {:induction false} DecideEntryPoint(excluded: string -> bool, packageExcluded: bool, files: seq<File>)
    requires GoleakAlias(files) != []
    requires UnitHasTestMain(files)
    requires UnitVerifiesTestMain(files, GoleakAlias(files))
    ensures Decide(excluded, packageExcluded, files) == []
  {
    var a := Analyze(files, GoleakAlias(files));
    AnalyzeFacts(files, GoleakAlias(files), []);
    assert a.hasTestMain && a.hasVerifyTestMain;
  }

  /**
   A test function that defers `VerifyNone` is never reported, once the
   package imports goleak.
   */
  lemma {:induction false} DeferSilences(excluded: string -> bool, packageExcluded: bool, files: seq<File>,
                      i: int, j: int, x: string)
    requires GoleakAlias(files) != []
    requires 0 <= i < |files| && IsTestFile(files[i].filename)
    requires DeferCoversAt(files[i].nodes, j, GoleakAlias(files), x)
    ensures forall d :: d in Decide(excluded, packageExcluded, files) ==> d.at.name != x
  {
    assert UnitCovers(files, GoleakAlias(files), x);
    CoveredNeverReported(excluded, packageExcluded, files, x);
  }

  /**
   The worker pool merges the per-file extractions in whatever order the
   workers finish. Any order yields the same reports, up to their order.
   */
  lemma {:induction false} ReportOrderIndependent(regex: RegexMatcher, config: Config, rs: seq<Analysis>, rs': seq<Analysis>)
    requires multiset(rs) == multiset(rs')
    ensures multiset(ReportUncovered(FileFilter(regex, config), MergeAll(rs))) ==
            multiset(ReportUncovered(FileFilter(regex, config), MergeAll(rs')))
  {
    MergeOrderIndependent(rs, rs');
    var a, a' := MergeAll(rs), MergeAll(rs');
    var excluded := FileFilter(regex, config);
    if !(a.hasTestMain && a.hasVerifyTestMain) {
      assert ReasonFor(a) == ReasonFor(a');
      var u := Uncovered(excluded, a.testFuncs, a.covered, ReasonFor(a));
      var u' := Uncovered(excluded, a'.testFuncs, a'.covered, ReasonFor(a'));
      assert forall d :: multiset(u)[d] == multiset(u')[d];
    }
  }
}

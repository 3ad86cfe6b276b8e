/**
 Combining per-file extractions (`mergeResults`) and the sequential
 analysis of a whole unit (`analyzeTestFunctionsSequential`).
 */
module Merge {
  import opened Syntax
  import opened Extract

  /**
   `mergeResults`: the flags are or-ed, the test functions appended and
   the coverage sets joined; consistency survives the merge.
   */
  function MergeResults(result: Analysis, local: Analysis): (r: Analysis)
    ensures Consistent(result) && Consistent(local) ==> Consistent(r)
    ensures Names(r.testFuncs) == Names(result.testFuncs) + Names(local.testFuncs)
  {
    var r := Analysis(
      result.hasTestMain || local.hasTestMain,
      result.hasVerifyTestMain || local.hasVerifyTestMain,
      result.testFuncs + local.testFuncs,
      result.covered + local.covered);
    assert forall t :: t in r.testFuncs <==> t in result.testFuncs || t in local.testFuncs;
    r
  }

  /**
   Merging a sequence of extractions into an initially empty result, in
   order. The flags and the coverage set are those of some element, and
   the test functions are those of the elements.
   */
  function MergeAll(rs: seq<Analysis>): (r: Analysis)
    ensures (forall i :: 0 <= i < |rs| ==> Consistent(rs[i])) ==> Consistent(r)
    ensures r.hasTestMain <==> exists i :: 0 <= i < |rs| && rs[i].hasTestMain
    ensures r.hasVerifyTestMain <==> exists i :: 0 <= i < |rs| && rs[i].hasVerifyTestMain
    ensures forall x :: x in r.covered <==> exists i :: 0 <= i < |rs| && x in rs[i].covered
    ensures forall t :: t in r.testFuncs <==> exists i :: 0 <= i < |rs| && t in rs[i].testFuncs
    decreases |rs|
  {
    if |rs| == 0 then NoAnalysis
    else
      var init := rs[..|rs| - 1];
      var before := MergeAll(init);
      assert forall i :: 0 <= i < |init| ==> init[i] == rs[i];
      MergeResults(before, rs[|rs| - 1])
  }

  /** An element of one sequence sits at some index of the other. */
  lemma {:induction false} IndexIn(rs: seq<Analysis>, rs': seq<Analysis>, i: int) returns (i': int)
    requires multiset(rs) == multiset(rs')
    requires 0 <= i < |rs|
    ensures 0 <= i' < |rs'| && rs'[i'] == rs[i]
  {
    assert rs[i] in multiset(rs);
    assert rs[i] in multiset(rs');
    assert rs[i] in rs';
    i' :| 0 <= i' < |rs'| && rs'[i'] == rs[i];
  }

  /** The flags of a merge depend only on the multiset of its inputs. */
  lemma {:induction false} MergeFlagsOrderIndependent(rs: seq<Analysis>, rs': seq<Analysis>)
    requires multiset(rs) == multiset(rs')
    ensures MergeAll(rs).hasTestMain == MergeAll(rs').hasTestMain
    ensures MergeAll(rs).hasVerifyTestMain == MergeAll(rs').hasVerifyTestMain
  {
    if MergeAll(rs).hasTestMain {
      var i :| 0 <= i < |rs| && rs[i].hasTestMain;
      var i' := IndexIn(rs, rs', i);
    }
    if MergeAll(rs').hasTestMain {
      var i' :| 0 <= i' < |rs'| && rs'[i'].hasTestMain;
      var i := IndexIn(rs', rs, i');
    }
    if MergeAll(rs).hasVerifyTestMain {
      var i :| 0 <= i < |rs| && rs[i].hasVerifyTestMain;
      var i' := IndexIn(rs, rs', i);
    }
    if MergeAll(rs').hasVerifyTestMain {
      var i' :| 0 <= i' < |rs'| && rs'[i'].hasVerifyTestMain;
      var i := IndexIn(rs', rs, i');
    }
  }

  /** What one merge covers, the other covers. */
  lemma {:induction false} MergeCoveredSub(rs: seq<Analysis>, rs': seq<Analysis>)
    requires multiset(rs) == multiset(rs')
    ensures MergeAll(rs).covered <= MergeAll(rs').covered
  {
    forall x | x in MergeAll(rs).covered ensures x in MergeAll(rs').covered {
      var i :| 0 <= i < |rs| && x in rs[i].covered;
      var i' := IndexIn(rs, rs', i);
    }
  }

  /** What one merge lists as a test function, the other lists too. */
  lemma {:induction false} MergeTestFuncsSub(rs: seq<Analysis>, rs': seq<Analysis>)
    requires multiset(rs) == multiset(rs')
    ensures forall t :: t in MergeAll(rs).testFuncs ==> t in MergeAll(rs').testFuncs
  {
    forall t | t in MergeAll(rs).testFuncs ensures t in MergeAll(rs').testFuncs {
      var i :| 0 <= i < |rs| && t in rs[i].testFuncs;
      var i' := IndexIn(rs, rs', i);
    }
  }

  /** The test functions of the extractions, concatenated in order. */
  function AllTestFuncs(rs: seq<Analysis>): seq<TestFunc>
    decreases |rs|
  {
    if |rs| == 0 then [] else AllTestFuncs(rs[..|rs| - 1]) + rs[|rs| - 1].testFuncs
  }

  /** A merge lists the test functions of its inputs, in input order. */
  lemma {:induction false} MergeTestFuncs(rs: seq<Analysis>)
    ensures MergeAll(rs).testFuncs == AllTestFuncs(rs)
    decreases |rs|
  {
    if |rs| > 0 {
      MergeTestFuncs(rs[..|rs| - 1]);
    }
  }

  /** Concatenating the test functions of two sequences of extractions, in turn. */
  lemma {:induction false} AllTestFuncsAppend(a: seq<Analysis>, b: seq<Analysis>)
    ensures AllTestFuncs(a + b) == AllTestFuncs(a) + AllTestFuncs(b)
    decreases |b|
  {
    if |b| == 0 {
      assert a + b == a;
    } else {
      var init := b[..|b| - 1];
      assert (a + b)[..|a + b| - 1] == a + init;
      AllTestFuncsAppend(a, init);
    }
  }

  /** Taking the same element out of two permutations of each other leaves permutations. */
  lemma {:induction false} RemoveMatching(rs: seq<Analysis>, rs': seq<Analysis>, j: int)
    requires multiset(rs) == multiset(rs')
    requires |rs| > 0 && 0 <= j < |rs'| && rs'[j] == rs[|rs| - 1]
    ensures multiset(rs[..|rs| - 1]) == multiset(rs'[..j] + rs'[j + 1..])
  {
    var last, init, front, back := rs[|rs| - 1], rs[..|rs| - 1], rs'[..j], rs'[j + 1..];
    assert rs == init + [last];
    assert rs' == front + [last] + back;
    assert multiset(rs) == multiset(init) + multiset{last};
    assert multiset(rs') == multiset(front + back) + multiset{last};
    assert forall x :: multiset(init)[x] == multiset(front + back)[x] by {
      forall x ensures multiset(init)[x] + multiset{last}[x] == multiset(front + back)[x] + multiset{last}[x] {
        assert multiset(rs)[x] == multiset(rs')[x];
      }
    }
  }

  /** The test functions of a sequence of extractions, split at one of them. */
  lemma {:induction false} AllTestFuncsSplit(rs: seq<Analysis>, j: int)
    requires 0 <= j < |rs|
    ensures AllTestFuncs(rs) == AllTestFuncs(rs[..j]) + rs[j].testFuncs + AllTestFuncs(rs[j + 1..])
  {
    assert rs == rs[..j] + ([rs[j]] + rs[j + 1..]);
    AllTestFuncsAppend(rs[..j], [rs[j]] + rs[j + 1..]);
    AllTestFuncsAppend([rs[j]], rs[j + 1..]);
    assert [rs[j]][..0] == [];
  }

  /**
   Concatenating the same extractions in another order yields the same
   test functions, each as often.
   */
  lemma {:induction false} AllTestFuncsPermutation(rs: seq<Analysis>, rs': seq<Analysis>)
    requires multiset(rs) == multiset(rs')
    ensures multiset(AllTestFuncs(rs)) == multiset(AllTestFuncs(rs'))
    decreases |rs|
  {
    if |rs| == 0 {
      assert |multiset(rs')| == 0;
      assert rs' == [];
    } else {
      var j := IndexIn(rs, rs', |rs| - 1);
      var init, front, back := rs[..|rs| - 1], rs'[..j], rs'[j + 1..];
      var l, a, b := rs'[j].testFuncs, AllTestFuncs(front), AllTestFuncs(back);
      assert multiset(AllTestFuncs(init)) == multiset(a + b) by {
        RemoveMatching(rs, rs', j);
        AllTestFuncsPermutation(init, front + back);
        AllTestFuncsAppend(front, back);
      }
      assert AllTestFuncs(rs) == AllTestFuncs(init) + l;
      assert AllTestFuncs(rs') == a + l + b by {
        AllTestFuncsSplit(rs', j);
      }
      assert multiset(a + l + b) == multiset(a + b) + multiset(l);
    }
  }

  /**
   Merging the same extractions in another order yields the same test
   functions, each as often: only their order changes.
   */
  lemma {:induction false} MergeTestFuncsPermutation(rs: seq<Analysis>, rs': seq<Analysis>)
    requires multiset(rs) == multiset(rs')
    ensures multiset(MergeAll(rs).testFuncs) == multiset(MergeAll(rs').testFuncs)
  {
    MergeTestFuncs(rs);
    MergeTestFuncs(rs');
    AllTestFuncsPermutation(rs, rs');
  }

  /**
   The order in which the per-file extractions are merged decides nothing
   but the order of the test functions.
   */
  lemma {:induction false} MergeOrderIndependent(rs: seq<Analysis>, rs': seq<Analysis>)
    requires multiset(rs) == multiset(rs')
    ensures MergeAll(rs).hasTestMain == MergeAll(rs').hasTestMain
    ensures MergeAll(rs).hasVerifyTestMain == MergeAll(rs').hasVerifyTestMain
    ensures MergeAll(rs).covered == MergeAll(rs').covered
    ensures multiset(MergeAll(rs).testFuncs) == multiset(MergeAll(rs').testFuncs)
  {
    MergeTestFuncsPermutation(rs, rs');
    MergeFlagsOrderIndependent(rs, rs');
    MergeCoveredSub(rs, rs');
    MergeCoveredSub(rs', rs);
    MergeTestFuncsSub(rs, rs');
    MergeTestFuncsSub(rs', rs);
  }

  /** The per-file extractions of a unit, in file order. */
  function PerFile(files: seq<File>, alias: string): (rs: seq<Analysis>)
    ensures |rs| == |files|
    ensures forall i :: 0 <= i < |files| ==> rs[i] == ProcessFile(files[i], alias)
  {
    seq(|files|, i requires 0 <= i < |files| => ProcessFile(files[i], alias))
  }

  /**
   `analyzeTestFunctionsSequential`: the merge of every file's extraction.
   Its test functions are exactly the test declarations of the test
   files.
   */
  function Analyze(files: seq<File>, alias: string): (r: Analysis)
    ensures Consistent(r)
    ensures forall t :: t in r.testFuncs <==>
              exists i :: 0 <= i < |files| && IsTestFile(files[i].filename)
                          && t in TestDecls(files[i].nodes, files[i].filename)
  {
    var rs := PerFile(files, alias);
    var r := MergeAll(rs);
    assert forall t :: t in r.testFuncs ==>
              exists i :: 0 <= i < |files| && IsTestFile(files[i].filename)
                          && t in TestDecls(files[i].nodes, files[i].filename) by {
      forall t | t in r.testFuncs
        ensures exists i :: 0 <= i < |files| && IsTestFile(files[i].filename)
                            && t in TestDecls(files[i].nodes, files[i].filename)
      {
        var i :| 0 <= i < |rs| && t in rs[i].testFuncs;
        assert IsTestFile(files[i].filename);
      }
    }
    r
  }

  /** Some test file of the unit declares the entry point. */
  ghost predicate UnitHasTestMain(files: seq<File>) {
    exists i, j :: 0 <= i < |files| && IsTestFile(files[i].filename) && TestMainAt(files[i].nodes, j)
  }

  /** Some test file of the unit calls `alias.VerifyTestMain` inside the entry point. */
  ghost predicate UnitVerifiesTestMain(files: seq<File>, alias: string) {
    exists i, j :: 0 <= i < |files| && IsTestFile(files[i].filename)
                   && VerifyTestMainAt(files[i].nodes, j, alias)
  }

  /** Some test file of the unit defers `alias.VerifyNone` inside a test function named `x`. */
  ghost predicate UnitCovers(files: seq<File>, alias: string, x: string) {
    exists i, j :: 0 <= i < |files| && IsTestFile(files[i].filename)
                   && DeferCoversAt(files[i].nodes, j, alias, x)
  }

  /** What one file's extraction records, stated over its node stream. */
  lemma {:induction false} PerFileFacts(files: seq<File>, alias: string, x: string, i: int)
    requires 0 <= i < |files|
    ensures ProcessFile(files[i], alias).hasTestMain <==>
              IsTestFile(files[i].filename) && exists j :: TestMainAt(files[i].nodes, j)
    ensures ProcessFile(files[i], alias).hasVerifyTestMain <==>
              IsTestFile(files[i].filename) && exists j :: VerifyTestMainAt(files[i].nodes, j, alias)
    ensures x in ProcessFile(files[i], alias).covered <==>
              IsTestFile(files[i].filename) && exists j :: DeferCoversAt(files[i].nodes, j, alias, x)
  {
    if IsTestFile(files[i].filename) {
      FileFacts(files[i], alias, x);
    }
  }

  /** The merged entry-point flag, stated over the unit's node streams. */
  lemma {:induction false} AnalyzeHasTestMain(files: seq<File>, alias: string)
    ensures Analyze(files, alias).hasTestMain <==> UnitHasTestMain(files)
  {
    var rs := PerFile(files, alias);
    assert Analyze(files, alias) == MergeAll(rs);
    if Analyze(files, alias).hasTestMain {
      var i :| 0 <= i < |rs| && rs[i].hasTestMain;
      PerFileFacts(files, alias, [], i);
      var j :| TestMainAt(files[i].nodes, j);
    }
    if UnitHasTestMain(files) {
      var i, j :| 0 <= i < |files| && IsTestFile(files[i].filename) && TestMainAt(files[i].nodes, j);
      PerFileFacts(files, alias, [], i);
      assert rs[i].hasTestMain;
    }
  }

  /** The merged entry-point call flag, stated over the unit's node streams. */
  lemma {:induction false} AnalyzeVerifiesTestMain(files: seq<File>, alias: string)
    ensures Analyze(files, alias).hasVerifyTestMain <==> UnitVerifiesTestMain(files, alias)
  {
    var rs := PerFile(files, alias);
    assert Analyze(files, alias) == MergeAll(rs);
    if Analyze(files, alias).hasVerifyTestMain {
      var i :| 0 <= i < |rs| && rs[i].hasVerifyTestMain;
      PerFileFacts(files, alias, [], i);
      var j :| VerifyTestMainAt(files[i].nodes, j, alias);
    }
    if UnitVerifiesTestMain(files, alias) {
      var i, j :| 0 <= i < |files| && IsTestFile(files[i].filename) && VerifyTestMainAt(files[i].nodes, j, alias);
      PerFileFacts(files, alias, [], i);
      assert rs[i].hasVerifyTestMain;
    }
  }

  /** The merged coverage, stated over the unit's node streams. */
  lemma {:induction false} AnalyzeCovers(files: seq<File>, alias: string, x: string)
    ensures x in Analyze(files, alias).covered <==> UnitCovers(files, alias, x)
  {
    var rs := PerFile(files, alias);
    assert Analyze(files, alias) == MergeAll(rs);
    if x in Analyze(files, alias).covered {
      var i :| 0 <= i < |rs| && x in rs[i].covered;
      PerFileFacts(files, alias, x, i);
      var j :| DeferCoversAt(files[i].nodes, j, alias, x);
    }
    if UnitCovers(files, alias, x) {
      var i, j :| 0 <= i < |files| && IsTestFile(files[i].filename) && DeferCoversAt(files[i].nodes, j, alias, x);
      PerFileFacts(files, alias, x, i);
      assert x in rs[i].covered;
    }
  }

  /** The merged flags and coverage, stated over the unit's node streams. */
  lemma {:induction false} AnalyzeFacts(files: seq<File>, alias: string, x: string)
    ensures Analyze(files, alias).hasTestMain <==> UnitHasTestMain(files)
    ensures Analyze(files, alias).hasVerifyTestMain <==> UnitVerifiesTestMain(files, alias)
    ensures x in Analyze(files, alias).covered <==> UnitCovers(files, alias, x)
  {
    AnalyzeHasTestMain(files, alias);
    AnalyzeVerifiesTestMain(files, alias);
    AnalyzeCovers(files, alias, x);
  }
}

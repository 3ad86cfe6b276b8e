/**
 The analyzer's own fixture packages (testdata/src), as node streams,
 with the reports their `want` comments expect. Positions are the
 fixtures' line numbers; a package's files are given in file-name order.
 */
module Scenarios {
  import opened Options
  import opened Strings
  import opened Syntax
  import opened Patterns
  import opened Alias
  import opened Extract
  import opened Merge
  import opened Analyzer

  const NoExclusions: Config := Config([], [])
  const Testing: ImportSpec := ImportSpec(None, Some("\"testing\""))
  const Goleak: ImportSpec := ImportSpec(None, Some(GoleakUberPath))

  /** `defer alias.VerifyNone(…)` as the walk sees it: the defer, then its call. */
  function DeferredVerifyNone(alias: string): seq<Node> {
    var target := Selector(Ident(alias), VerifyNone);
    [Defer(target), Call(target)]
  }

  /** `alias.VerifyTestMain(m)`. */
  function CallVerifyTestMain(alias: string): Node {
    Call(Selector(Ident(alias), VerifyTestMain))
  }

  function Decl(name: string, line: int): Node {
    FuncDecl(Some(name), line)
  }

  /** The walk over four nodes is four steps from the start. */
  lemma {:induction false} Walk4(n0: Node, n1: Node, n2: Node, n3: Node, alias: string, filename: string)
    ensures Walk([n0, n1, n2, n3], alias, filename)
         == Step(Step(Step(Step(Start, n0, alias, filename), n1, alias, filename), n2, alias, filename),
                 n3, alias, filename)
  {
    var w1 := Walk([n0], alias, filename);
    assert w1 == Step(Start, n0, alias, filename) by {
      assert [n0][..0] == [];
      assert Walk([], alias, filename) == Start;
    }
    var w2 := Walk([n0, n1], alias, filename);
    assert w2 == Step(w1, n1, alias, filename) by { assert [n0, n1][..1] == [n0]; }
    var w3 := Walk([n0, n1, n2], alias, filename);
    assert w3 == Step(w2, n2, alias, filename) by { assert [n0, n1, n2][..2] == [n0, n1]; }
    assert Walk([n0, n1, n2, n3], alias, filename) == Step(w3, n3, alias, filename) by {
      assert [n0, n1, n2, n3][..3] == [n0, n1, n2];
    }
  }

  /** A one-file package whose file imports `testing` and then goleak. */
  lemma {:induction false} SecondImportAlias(f: File, imp: ImportSpec)
    requires f.imports == [Testing, imp] && IsGoleakImport(imp)
    ensures GoleakAlias([f]) == LocalName(imp)
  {
    assert AllImports([f]) == [Testing, imp];
    assert AliasIn([imp]) == Some(LocalName(imp));
    assert AliasIn([Testing, imp]) == Some(LocalName(imp)) by {
      assert [Testing, imp][1..] == [imp];
    }
  }

  /** The merge of a one-file package is that file's extraction. */
  lemma {:induction false} AnalyzeOne(f: File, alias: string, a: Analysis)
    requires ProcessFile(f, alias) == a
    ensures Analyze([f], alias) == a
  {
    assert PerFile([f], alias) == [a];
    assert MergeAll([a]) == a by { assert [a][..0] == []; }
  }

  /** Without exclusions every test file takes part. */
  lemma {:induction false} NoExclusionsAdmit(regex: RegexMatcher, filename: string)
    requires IsTestFile(filename)
    ensures Admitted(FileFilter(regex, NoExclusions), filename)
  {
    assert !ShouldExcludeFile(regex, filename, NoExclusions);
  }

  /** Without exclusions no package is excluded. */
  lemma {:induction false} RunNoExclusions(regex: RegexMatcher, pkgPath: string, files: seq<File>)
    ensures Run(regex, NoExclusions, pkgPath, files) == Decide(FileFilter(regex, NoExclusions), false, files)
  {
    assert !ShouldExcludePackage(regex, pkgPath, NoExclusions);
  }

  /** The reports of a package that imports goleak, once its merged extraction is known. */
  lemma {:induction false} ImportedRun(regex: RegexMatcher, pkgPath: string, files: seq<File>, a: Analysis)
    requires |files| > 0 && IsTestFile(files[0].filename)
    requires GoleakAlias(files) != []
    requires Analyze(files, GoleakAlias(files)) == a
    ensures Run(regex, NoExclusions, pkgPath, files) == ReportUncovered(FileFilter(regex, NoExclusions), a)
  {
    RunNoExclusions(regex, pkgPath, files);
    NoExclusionsAdmit(regex, files[0].filename);
    DecideImported(FileFilter(regex, NoExclusions), files, 0);
  }

  /** The reports of a one-file package that does not import goleak. */
  lemma {:induction false} NotImportedRun(regex: RegexMatcher, pkgPath: string, f: File)
    requires IsTestFile(f.filename)
    requires GoleakAlias([f]) == []
    ensures Run(regex, NoExclusions, pkgPath, [f]) == ReportEach(TestDecls(f.nodes, f.filename), NotImported)
  {
    var excluded := FileFilter(regex, NoExclusions);
    RunNoExclusions(regex, pkgPath, [f]);
    NoExclusionsAdmit(regex, f.filename);
    DecideNotImported(excluded, [f], 0);
    assert ReportAllTests(excluded, [f], NotImported)
        == ReportEach(TestDecls(f.nodes, f.filename), NotImported) + ReportAllTests(excluded, [], NotImported) by {
      assert [f][1..] == [];
    }
  }

  /** The reports of an importing package with two test functions, in order. */
  lemma {:induction false} ReportTwo(excluded: string -> bool, a: Analysis, t1: TestFunc, t2: TestFunc)
    requires a.testFuncs == [t1, t2] && !(a.hasTestMain && a.hasVerifyTestMain)
    requires !excluded(t1.filename) && !excluded(t2.filename)
    ensures ReportUncovered(excluded, a)
         == (if t1.name !in a.covered then [Diagnostic(t1, ReasonFor(a))] else [])
            + (if t2.name !in a.covered then [Diagnostic(t2, ReasonFor(a))] else [])
    ensures t1.name !in a.covered && t2.name !in a.covered ==>
              ReportUncovered(excluded, a) == [Diagnostic(t1, ReasonFor(a)), Diagnostic(t2, ReasonFor(a))]
  {
    var reason := ReasonFor(a);
    var d1, d2 := Diagnostic(t1, reason), Diagnostic(t2, reason);
    var tail := if t2.name !in a.covered then [d2] else [];
    assert Uncovered(excluded, [t2], a.covered, reason) == tail by {
      assert [t2][1..] == [];
    }
    assert Uncovered(excluded, [t1, t2], a.covered, reason)
        == (if t1.name !in a.covered then [d1] else []) + tail by {
      assert [t1, t2][1..] == [t2];
    }
    assert [d1] + [d2] == [d1, d2];
  }

  // testdata/src/basic

  const BasicName: string := "basic_test.go"
  const BasicNodes: seq<Node> :=
    [Decl("TestWithGoleak", 10)] + DeferredVerifyNone(DefaultAlias) + [Decl("TestWithoutGoleak", 16)]
  const BasicFile: File := File(BasicName, [Testing, Goleak], BasicNodes)

  lemma {:induction false} BasicWalk()
    ensures ProcessFile(BasicFile, DefaultAlias)
         == Analysis(false, false, [TestFunc("TestWithGoleak", 10, BasicName),
                                    TestFunc("TestWithoutGoleak", 16, BasicName)], {"TestWithGoleak"})
  {
    var name := BasicName;
    var target := Selector(Ident(DefaultAlias), VerifyNone);
    var n0, n1, n2, n3 := Decl("TestWithGoleak", 10), Defer(target), Call(target), Decl("TestWithoutGoleak", 16);
    assert BasicNodes == [n0, n1, n2, n3];
    assert IsTestFile(name) by { assert name[|name| - |TestFileSuffix|..] == TestFileSuffix; }
    Walk4(n0, n1, n2, n3, DefaultAlias, name);
    var t1 := TestFunc("TestWithGoleak", 10, name);
    var t2 := TestFunc("TestWithoutGoleak", 16, name);
    var w1 := WalkState(t1.name, false, Analysis(false, false, [t1], {}));
    assert Step(Start, n0, DefaultAlias, name) == w1 by {
      assert t1.name[..4] == TestPrefix;
    }
    var w2 := WalkState(t1.name, false, Analysis(false, false, [t1], {t1.name}));
    assert Step(w1, n1, DefaultAlias, name) == w2;
    assert Step(w2, n2, DefaultAlias, name) == w2;
    assert Step(w2, n3, DefaultAlias, name) == WalkState(t2.name, false, Analysis(false, false, [t1, t2], {t1.name})) by {
      assert t2.name[..4] == TestPrefix;
    }
  }

  /** basic: the test without a deferred check is the one report. */
  lemma {:induction false} BasicScenario(regex: RegexMatcher, pkgPath: string)
    ensures Run(regex, NoExclusions, pkgPath, [BasicFile])
         == [Diagnostic(TestFunc("TestWithoutGoleak", 16, BasicName), MissingDefer)]
  {
    var t1 := TestFunc("TestWithGoleak", 10, BasicName);
    var t2 := TestFunc("TestWithoutGoleak", 16, BasicName);
    var a := Analysis(false, false, [t1, t2], {"TestWithGoleak"});
    SecondImportAlias(BasicFile, Goleak);
    BasicWalk();
    AnalyzeOne(BasicFile, DefaultAlias, a);
    assert IsTestFile(BasicName) by { assert BasicName[|BasicName| - |TestFileSuffix|..] == TestFileSuffix; }
    ImportedRun(regex, pkgPath, [BasicFile], a);
    NoExclusionsAdmit(regex, BasicName);
    ReportTwo(FileFilter(regex, NoExclusions), a, t1, t2);
  }

  // testdata/src/alias

  const AliasName: string := "alias_test.go"
  const Gl: ImportSpec := ImportSpec(Some("gl"), Some(GoleakUberPath))
  const AliasNodes: seq<Node> :=
    [Decl("TestWithAlias", 9), Decl("TestWithAliasCorrect", 13)] + DeferredVerifyNone("gl")
  const AliasFile: File := File(AliasName, [Testing, Gl], AliasNodes)

  lemma {:induction false} AliasWalk()
    ensures ProcessFile(AliasFile, "gl")
         == Analysis(false, false, [TestFunc("TestWithAlias", 9, AliasName),
                                    TestFunc("TestWithAliasCorrect", 13, AliasName)], {"TestWithAliasCorrect"})
  {
    var name := AliasName;
    var target := Selector(Ident("gl"), VerifyNone);
    var n0, n1, n2, n3 := Decl("TestWithAlias", 9), Decl("TestWithAliasCorrect", 13), Defer(target), Call(target);
    assert AliasNodes == [n0, n1, n2, n3];
    assert IsTestFile(name) by { assert name[|name| - |TestFileSuffix|..] == TestFileSuffix; }
    Walk4(n0, n1, n2, n3, "gl", name);
    var t1 := TestFunc("TestWithAlias", 9, name);
    var t2 := TestFunc("TestWithAliasCorrect", 13, name);
    var w1 := WalkState(t1.name, false, Analysis(false, false, [t1], {}));
    assert Step(Start, n0, "gl", name) == w1 by {
      assert t1.name[..4] == TestPrefix;
    }
    var w2 := WalkState(t2.name, false, Analysis(false, false, [t1, t2], {}));
    assert Step(w1, n1, "gl", name) == w2 by {
      assert t2.name[..4] == TestPrefix;
    }
    var w3 := WalkState(t2.name, false, Analysis(false, false, [t1, t2], {t2.name}));
    assert Step(w2, n2, "gl", name) == w3;
    assert Step(w3, n3, "gl", name) == w3;
  }

  /** alias: a deferred check through the `gl` alias covers its test; the other is reported. */
  lemma {:induction false} AliasScenario(regex: RegexMatcher, pkgPath: string)
    ensures Run(regex, NoExclusions, pkgPath, [AliasFile])
         == [Diagnostic(TestFunc("TestWithAlias", 9, AliasName), MissingDefer)]
  {
    var t1 := TestFunc("TestWithAlias", 9, AliasName);
    var t2 := TestFunc("TestWithAliasCorrect", 13, AliasName);
    var a := Analysis(false, false, [t1, t2], {"TestWithAliasCorrect"});
    SecondImportAlias(AliasFile, Gl);
    AliasWalk();
    AnalyzeOne(AliasFile, "gl", a);
    assert IsTestFile(AliasName) by { assert AliasName[|AliasName| - |TestFileSuffix|..] == TestFileSuffix; }
    ImportedRun(regex, pkgPath, [AliasFile], a);
    NoExclusionsAdmit(regex, AliasName);
    ReportTwo(FileFilter(regex, NoExclusions), a, t1, t2);
    assert t1.name !in a.covered by { assert |t1.name| < |t2.name|; }
  }

  // testdata/src/main_with_verify

  const WithVerifyName: string := "main_with_verify_test.go"
  const WithVerifyNodes: seq<Node> :=
    [Decl("TestWithVerify", 10), Decl("TestAnotherWithVerify", 14), Decl("TestMain", 18),
     CallVerifyTestMain(DefaultAlias)]
  const WithVerifyFile: File := File(WithVerifyName, [Testing, Goleak], WithVerifyNodes)

  lemma {:induction false} WithVerifyWalk()
    ensures ProcessFile(WithVerifyFile, DefaultAlias)
         == Analysis(true, true, [TestFunc("TestWithVerify", 10, WithVerifyName),
                                  TestFunc("TestAnotherWithVerify", 14, WithVerifyName)], {})
  {
    var name := WithVerifyName;
    var n0, n1, n2, n3 := Decl("TestWithVerify", 10), Decl("TestAnotherWithVerify", 14), Decl("TestMain", 18),
                          CallVerifyTestMain(DefaultAlias);
    assert IsTestFile(name) by { assert name[|name| - |TestFileSuffix|..] == TestFileSuffix; }
    Walk4(n0, n1, n2, n3, DefaultAlias, name);
    var t1 := TestFunc("TestWithVerify", 10, name);
    var t2 := TestFunc("TestAnotherWithVerify", 14, name);
    var w1 := WalkState(t1.name, false, Analysis(false, false, [t1], {}));
    assert Step(Start, n0, DefaultAlias, name) == w1 by {
      assert t1.name[..4] == TestPrefix;
    }
    var w2 := WalkState(t2.name, false, Analysis(false, false, [t1, t2], {}));
    assert Step(w1, n1, DefaultAlias, name) == w2 by {
      assert t2.name[..4] == TestPrefix;
    }
    var w3 := WalkState([], true, Analysis(true, false, [t1, t2], {}));
    assert Step(w2, n2, DefaultAlias, name) == w3;
    assert Step(w3, n3, DefaultAlias, name) == WalkState([], true, Analysis(true, true, [t1, t2], {}));
  }

  /** main_with_verify: an entry point that calls `VerifyTestMain` covers every test. */
  lemma {:induction false} MainWithVerifyScenario(regex: RegexMatcher, pkgPath: string)
    ensures Run(regex, NoExclusions, pkgPath, [WithVerifyFile]) == []
  {
    var t1 := TestFunc("TestWithVerify", 10, WithVerifyName);
    var t2 := TestFunc("TestAnotherWithVerify", 14, WithVerifyName);
    var a := Analysis(true, true, [t1, t2], {});
    SecondImportAlias(WithVerifyFile, Goleak);
    WithVerifyWalk();
    AnalyzeOne(WithVerifyFile, DefaultAlias, a);
    assert IsTestFile(WithVerifyName) by {
      assert WithVerifyName[|WithVerifyName| - |TestFileSuffix|..] == TestFileSuffix;
    }
    ImportedRun(regex, pkgPath, [WithVerifyFile], a);
  }

  // testdata/src/main_without_verify

  const WithoutVerifyName: string := "main_without_verify_test.go"
  const WithoutVerifyNodes: seq<Node> :=
    [Decl("TestWithoutVerify", 11), Decl("TestAnotherWithoutVerify", 15), Decl("TestMain", 20),
     Call(Selector(Ident("m"), "Run"))]
  const WithoutVerifyFile: File := File(WithoutVerifyName, [Testing, Goleak], WithoutVerifyNodes)

  lemma {:induction false} WithoutVerifyWalk()
    ensures ProcessFile(WithoutVerifyFile, DefaultAlias)
         == Analysis(true, false, [TestFunc("TestWithoutVerify", 11, WithoutVerifyName),
                                   TestFunc("TestAnotherWithoutVerify", 15, WithoutVerifyName)], {})
  {
    var name := WithoutVerifyName;
    var n0, n1, n2, n3 := Decl("TestWithoutVerify", 11), Decl("TestAnotherWithoutVerify", 15),
                          Decl("TestMain", 20), Call(Selector(Ident("m"), "Run"));
    assert IsTestFile(name) by { assert name[|name| - |TestFileSuffix|..] == TestFileSuffix; }
    Walk4(n0, n1, n2, n3, DefaultAlias, name);
    var t1 := TestFunc("TestWithoutVerify", 11, name);
    var t2 := TestFunc("TestAnotherWithoutVerify", 15, name);
    var w1 := WalkState(t1.name, false, Analysis(false, false, [t1], {}));
    assert Step(Start, n0, DefaultAlias, name) == w1 by {
      assert t1.name[..4] == TestPrefix;
    }
    var w2 := WalkState(t2.name, false, Analysis(false, false, [t1, t2], {}));
    assert Step(w1, n1, DefaultAlias, name) == w2 by {
      assert t2.name[..4] == TestPrefix;
    }
    var w3 := WalkState([], true, Analysis(true, false, [t1, t2], {}));
    assert Step(w2, n2, DefaultAlias, name) == w3;
    assert Step(w3, n3, DefaultAlias, name) == w3;
  }

  /** main_without_verify: an entry point without `VerifyTestMain` gets both tests reported, naming it. */
  lemma {:induction false} MainWithoutVerifyScenario(regex: RegexMatcher, pkgPath: string)
    ensures Run(regex, NoExclusions, pkgPath, [WithoutVerifyFile])
         == [Diagnostic(TestFunc("TestWithoutVerify", 11, WithoutVerifyName), MainWithoutVerify),
             Diagnostic(TestFunc("TestAnotherWithoutVerify", 15, WithoutVerifyName), MainWithoutVerify)]
  {
    var t1 := TestFunc("TestWithoutVerify", 11, WithoutVerifyName);
    var t2 := TestFunc("TestAnotherWithoutVerify", 15, WithoutVerifyName);
    var a := Analysis(true, false, [t1, t2], {});
    SecondImportAlias(WithoutVerifyFile, Goleak);
    WithoutVerifyWalk();
    AnalyzeOne(WithoutVerifyFile, DefaultAlias, a);
    assert IsTestFile(WithoutVerifyName) by {
      assert WithoutVerifyName[|WithoutVerifyName| - |TestFileSuffix|..] == TestFileSuffix;
    }
    ImportedRun(regex, pkgPath, [WithoutVerifyFile], a);
    NoExclusionsAdmit(regex, WithoutVerifyName);
    ReportTwo(FileFilter(regex, NoExclusions), a, t1, t2);
  }

  // testdata/src/no_import

  const NoImportName: string := "no_import_test.go"
  const NoImportFile: File :=
    File(NoImportName, [Testing], [Decl("TestWithoutGoleakImport", 8), Decl("TestAnotherWithoutImport", 12)])

  /** Two test declarations in a row are the file's two test functions. */
  lemma {:induction false} DeclsTwo(t1: TestFunc, t2: TestFunc, filename: string)
    requires IsTestFunction(t1.name) && IsTestFunction(t2.name)
    requires t1.filename == filename && t2.filename == filename
    ensures TestDecls([Decl(t1.name, t1.pos), Decl(t2.name, t2.pos)], filename) == [t1, t2]
  {
    var nodes := [Decl(t1.name, t1.pos), Decl(t2.name, t2.pos)];
    assert TestDecls(nodes[1..], filename) == [t2] by {
      assert nodes[1..][1..] == [];
    }
  }

  /** One report for each of two test functions, in order. */
  lemma {:induction false} ReportEachTwo(t1: TestFunc, t2: TestFunc, reason: string)
    ensures ReportEach([t1, t2], reason) == [Diagnostic(t1, reason), Diagnostic(t2, reason)]
  {
    assert ReportEach([t2], reason) == [Diagnostic(t2, reason)] by {
      assert [t2][1..] == [];
    }
    assert [t1, t2][1..] == [t2];
  }

  /** The no_import package imports `testing` only. */
  lemma {:induction false} NoImportAlias()
    ensures GoleakAlias([NoImportFile]) == []
  {
    assert AllImports([NoImportFile]) == [Testing] by {
      assert [NoImportFile][1..] == [];
    }
    assert AliasIn([Testing]) == None by {
      assert [Testing][1..] == [];
    }
  }

  /** no_import: without the import every test function is reported, with that reason. */
  lemma {:induction false} NoImportScenario(regex: RegexMatcher, pkgPath: string)
    ensures Run(regex, NoExclusions, pkgPath, [NoImportFile])
         == [Diagnostic(TestFunc("TestWithoutGoleakImport", 8, NoImportName), NotImported),
             Diagnostic(TestFunc("TestAnotherWithoutImport", 12, NoImportName), NotImported)]
  {
    var t1 := TestFunc("TestWithoutGoleakImport", 8, NoImportName);
    var t2 := TestFunc("TestAnotherWithoutImport", 12, NoImportName);
    assert IsTestFile(NoImportName) by {
      assert NoImportName[|NoImportName| - |TestFileSuffix|..] == TestFileSuffix;
    }
    assert IsTestFunction(t1.name) by { assert t1.name[..4] == TestPrefix; }
    assert IsTestFunction(t2.name) by { assert t2.name[..4] == TestPrefix; }
    NoImportAlias();
    NotImportedRun(regex, pkgPath, NoImportFile);
    DeclsTwo(t1, t2, NoImportName);
    ReportEachTwo(t1, t2, NotImported);
  }

  // testdata/src/multiple_files_with_main

  const File1: File := File("file1_test.go", [Testing, Goleak],
                            [Decl("TestFileOneWithMain", 10), Decl("TestAnotherInFileOne", 16)])
  const File2: File := File("file2_test.go", [Testing, Goleak],
                            [Decl("TestFileTwoWithMain", 10), Decl("TestYetAnotherTest", 16)])
  const MainFile: File := File("main_test.go", [Testing, Goleak],
                               [Decl("TestMain", 10), CallVerifyTestMain(DefaultAlias)])

  /** multiple_files_with_main: an entry point in one file covers the tests of the others. */
  lemma {:induction false} MultipleFilesWithMainScenario(regex: RegexMatcher)
    ensures Run(regex, NoExclusions, "multiple_files_with_main", [File1, File2, MainFile]) == []
  {
    var files := [File1, File2, MainFile];
    assert AllImports(files)[..2] == [Testing, Goleak];
    FirstAliasFromHead(files);
    assert "main_test.go"[4..] == TestFileSuffix;
    assert IsTestFile(files[2].filename);
    assert TestMainAt(files[2].nodes, 0);
    assert UnitHasTestMain(files);
    assert MainFile.nodes[..1] == [Decl("TestMain", 10)];
    assert VerifyTestMainAt(files[2].nodes, 1, DefaultAlias);
    assert UnitVerifiesTestMain(files, DefaultAlias);
    EntryPointDominance(regex, NoExclusions, "multiple_files_with_main", files);
  }

  // testdata/src/alias_main

  const AliasMainFile: File := File("alias_main_test.go", [Testing, Gl],
                                    [Decl("TestMain", 9), CallVerifyTestMain("gl"), Decl("TestWithMainAlias", 13)])

  /** alias_main: the entry point verifies the package through the `gl` alias. */
  lemma {:induction false} AliasMainScenario(regex: RegexMatcher, pkgPath: string)
    ensures Run(regex, NoExclusions, pkgPath, [AliasMainFile]) == []
  {
    var files := [AliasMainFile];
    SecondImportAlias(AliasMainFile, Gl);
    assert IsTestFile(files[0].filename) by {
      assert files[0].filename[|files[0].filename| - |TestFileSuffix|..] == TestFileSuffix;
    }
    assert UnitHasTestMain(files) by {
      assert TestMainAt(files[0].nodes, 0);
    }
    assert UnitVerifiesTestMain(files, "gl") by {
      assert files[0].nodes[..1] == [Decl("TestMain", 9)];
      assert VerifyTestMainAt(files[0].nodes, 1, "gl");
    }
    EntryPointDominance(regex, NoExclusions, pkgPath, files);
  }

  /** A package whose first file imports `testing` and then goleak. */
  lemma {:induction false} FirstAliasFromHead(files: seq<File>)
    requires |files| > 0 && files[0].imports == [Testing, Goleak]
    ensures GoleakAlias(files) == DefaultAlias
  {
    assert AliasIn([Goleak]) == Some(DefaultAlias);
    assert AliasIn([Testing, Goleak]) == Some(DefaultAlias) by {
      assert [Testing, Goleak][1..] == [Goleak];
    }
  }

  // leakcheck_test.go: package exclusion

  /** A single pattern, free of commas and surrounding space, that matches the path excludes the package. */
  lemma {:induction false} SinglePatternExcludes(regex: RegexMatcher, p: string, pkgPath: string, files: seq<File>)
    requires p != [] && Comma !in p && TrimSpace(p) == p
    requires MatchesPattern(regex, pkgPath, p)
    ensures Run(regex, Config(p, []), pkgPath, files) == []
  {
    assert ShouldExcludePackage(regex, pkgPath, Config(p, []));
  }

  /** `exclude_package` is a single, trimmed pattern. */
  lemma {:induction false} PlainPatternText(p: string)
    requires p == "exclude_package"
    ensures Comma !in p && TrimSpace(p) == p
  {
    assert Comma !in p by {
      assert forall i :: 0 <= i < |p| ==> p[i] != Comma;
    }
    assert TrimSpace(p) == p by {
      assert !IsSpace(p[0]) && !IsSpace(p[|p| - 1]);
      TrimSpaceKeeps(p);
    }
  }

  /** `.*exclude.*` is a single, trimmed pattern with regular-expression metacharacters. */
  lemma {:induction false} RegexPatternText(p: string)
    requires p == ".*exclude.*"
    ensures Comma !in p && TrimSpace(p) == p && ContainsRegexMetachars(p)
  {
    RegexPatternTrimmed(p);
    RegexPatternMeta(p);
  }

  lemma {:induction false} RegexPatternTrimmed(p: string)
    requires p == ".*exclude.*"
    ensures Comma !in p && TrimSpace(p) == p
  {
    assert forall i :: 0 <= i < |p| ==> p[i] != Comma;
    assert !IsSpace(p[0]) && !IsSpace(p[|p| - 1]);
    TrimSpaceKeeps(p);
  }

  lemma {:induction false} RegexPatternMeta(p: string)
    requires p == ".*exclude.*"
    ensures ContainsRegexMetachars(p)
  {
    assert p[0] in RegexMetachars;
  }

  /** A pattern with metacharacters matches whatever the engine accepts, the pattern's own text aside. */
  lemma {:induction false} RegexPatternMatches(regex: RegexMatcher, path: string, p: string)
    requires path == "exclude_package" && p == ".*exclude.*"
    requires ContainsRegexMetachars(p) && regex(path, p)
    ensures MatchesPattern(regex, path, p)
  {
    assert path != p by { assert path[0] != p[0]; }
  }

  /** A package named exactly by the exclusion list gets no report, whatever its files. */
  lemma {:induction false} ExcludePackageByName(regex: RegexMatcher, files: seq<File>)
    ensures Run(regex, Config("exclude_package", []), "exclude_package", files) == []
  {
    var p := "exclude_package";
    PlainPatternText(p);
    SinglePatternExcludes(regex, p, p, files);
  }

  /** `.*exclude.*` goes to the regular-expression engine, which decides the exclusion. */
  lemma {:induction false} ExcludePackageByRegex(regex: RegexMatcher, p: string, path: string, files: seq<File>)
    requires p == ".*exclude.*" && path == "exclude_package"
    requires regex(path, p)
    ensures Run(regex, Config(p, []), path, files) == []
  {
    RegexPatternText(p);
    RegexPatternMatches(regex, path, p);
    SinglePatternExcludes(regex, p, path, files);
  }
}

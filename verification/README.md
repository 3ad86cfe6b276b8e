# leakcheck: which test functions goleak covers

This project models the decision core of `leakcheck`, a Go static analyzer.
For each test function of a package, `leakcheck` decides whether goleak's
goroutine-leak check covers it. A test function is covered by a deferred
`goleak.VerifyNone(t)` in its own body. Every test function is covered by a
`TestMain` that calls `goleak.VerifyTestMain(m)`. The analyzer reports every
test function that is not covered, and it reports all of them when the
package never imports goleak.

The model is a set of pure functions over immutable datatypes:

- **Options** (`options.dfy`) is the optional value that stands in for Go's nil pointers.
- **Strings** (`strings.dfy`) holds the Go `strings` functions the core uses.
  These are `Contains`, `LastIndex`, `Split` and `TrimSpace`, with Go's
  `unicode.IsSpace` table.
- **Glob** (`glob.dfy`) is the glob branch of the matcher as a recursive
  whole-string match. It is proved equal to a language definition: the
  pattern's literal pieces, with newline-free fills in between.
- **Patterns** (`patterns.dfy`) holds the exclusion rules:
  `matchesAnyPattern`, `matchesPattern`, `containsSpecialChars`,
  `containsRegexMetachars`, `shouldExcludePackage` and
  `shouldExcludeFileWithConfig`. Regular-expression matching is a parameter
  `regex: (string, string) -> bool`.
- **Syntax** (`syntax.dfy`) is the slice of the Go syntax tree the walk
  visits. A file is its name, its import specs and its preorder stream of
  function declarations, calls and defer statements. It also holds
  `isTestFile`, `isTestFunction` and `isGoleakCall`.
- **Alias** (`alias.dfy`) is `getGoleakAlias`.
- **Extract** (`extract.dfy`) is `processFileForAnalysis`, a left fold of a
  step function over the node stream. Its result is characterised by
  position-based predicates: "position `j` defers `alias.VerifyNone` inside
  test function `x`".
- **Merge** (`merge.dfy`) holds `mergeResults` and the sequential analysis.
  It proves that the merge order, which the worker pool leaves open, changes
  nothing but the order of the test functions.
- **Analyzer** (`analyzer.dfy`) is the `run` closure and
  `reportUncoveredTestFunctionsWithContext`. It covers the early exits, the
  "goleak not imported" path and the report loop with its two reasons.
- **Scenarios** (`scenarios.dfy`) holds the analyzer's fixture packages and
  package-exclusion tests. Each is a concrete unit whose reports the model
  derives.

## Model

| member | source | states |
|---|---|---|
| Strings.Contains | leakcheck.go:463 | `strings.Contains` is true exactly when the substring occurs at some position |
| Strings.LastIndex | leakcheck.go:406-410 | `strings.LastIndex` returns -1 iff the character is absent, otherwise a position holding it with no later occurrence |
| Strings.AfterLast | leakcheck.go:406-410 | what follows the last occurrence of the separator (or the whole string) is a suffix free of it, preceded by the separator when shorter |
| Strings.Split | leakcheck.go:434 | `strings.Split` yields at least one piece, no piece holds the separator, and joining the pieces gives back the input |
| Strings.SplitJoin | leakcheck.go:434 | splitting a join of separator-free pieces gives back the pieces |
| Strings.SplitAppend | leakcheck.go:434 | appending a separator and a separator-free tail appends exactly one piece |
| Strings.TrimLeft | leakcheck.go:431 | the result is a suffix of the input after an all-white-space prefix, and does not start with white space |
| Strings.TrimRight | leakcheck.go:431 | the result is a prefix of the input before an all-white-space suffix, and does not end with white space |
| Strings.TrimSpace | leakcheck.go:431 | `strings.TrimSpace` keeps a contiguous slice framed by white space, with no white space at either end, and is empty iff the input is all white space |
| Strings.TrimSpaceKeeps | leakcheck.go:435 | a string with no white space at either end is left unchanged |
| Strings.TrimSpaceIdempotent | leakcheck.go:435 | trimming twice is trimming once |
| Glob.GlobMatch | leakcheck.go:476-509 | the anchored match of a `*`-only pattern; what it accepts is stated by `Glob.GlobMatchIsLanguage`, `Glob.Sound`, `Glob.Complete` and `Glob.LiteralOnly` |
| Glob.GlobMatchIsLanguage | leakcheck.go:476-509 | the anchored glob match holds iff the string is the pattern's literal pieces with newline-free fills |
| Glob.Sound | leakcheck.go:478-479 | every interleaving of the pieces with newline-free fills matches the pattern |
| Glob.Complete | leakcheck.go:478-479 | every match is such an interleaving, and the lemma returns the fills |
| Glob.LiteralOnly | leakcheck.go:478-479 | a pattern without `*` matches only itself, because every other character is quoted |
| Glob.StarAlone | leakcheck.go:478-479 | the pattern `*` matches exactly the strings without a newline |
| Glob.SelfMatch | leakcheck.go:478-479 | every pattern matches its own text |
| Patterns.ContainsRegexMetachars | leakcheck.go:548-557 | true iff some character is one of the thirteen metacharacters other than `*` |
| Patterns.ContainsSpecialChars | leakcheck.go:543-545 | a pattern has a special character iff it has `*` or one of the thirteen other metacharacters, so the glob branch is reached only by patterns whose only special character is `*` |
| Patterns.MatchesPattern | leakcheck.go:450-473 | an exact match always succeeds, and an empty pattern matches only the empty string; a pattern without special characters is a substring test, a `*`-only pattern is the glob language, and otherwise the regular expression decides |
| Patterns.AnyPieceMatches | leakcheck.go:434-441 | the loop over the split pieces is true iff some piece, trimmed and non-empty, matches |
| Patterns.MatchesAnyPattern | leakcheck.go:424-442 | an empty list matches nothing; a list without a comma is its one trimmed pattern (empty after trimming included); otherwise some trimmed, non-empty piece matches |
| Patterns.PatternListSemantics | leakcheck.go:424-442 | the two paths of `matchesAnyPattern` agree: for a non-empty list, a match is some trimmed non-empty piece that matches, or the blank single pattern matching an empty string |
| Patterns.AppendPattern | leakcheck.go:424-442 | a list extended by a comma and one more pattern matches iff some piece of the old list matches or the new pattern, trimmed and non-blank, matches |
| Patterns.Basename | leakcheck.go:405-411 | the base name is a suffix free of both separators, preceded in the path by one of them when shorter |
| Patterns.BaseOfBase | leakcheck.go:406-411 | cutting after the last '/' and then after the last '\\' leaves a separator-free suffix preceded by a separator |
| Patterns.ShouldExcludePackage | leakcheck.go:395-400 | the package is excluded iff its path matches the package pattern list |
| Patterns.ShouldExcludeFile | leakcheck.go:403-421 | the file is excluded iff its full path or its base name matches the file pattern list, and never when that list is empty |
| Patterns.ExcludeByBaseName | leakcheck.go:403-421 | in a comma-separated list, a piece whose trimmed text is the file's base name excludes the file, whatever directory it is in |
| Patterns.TestSuffixPatternIsRegex | leakcheck.go:462-472 | `*_test.go` contains '.', so it goes to the regular-expression branch and not the glob branch |
| Patterns.LeadingStarMatchesOnlyItself | leakcheck.go:462-472 | a pattern that starts with `*` and has another metacharacter, which no regular expression accepts, matches only the string equal to it |
| Syntax.IsTestFile | leakcheck.go:352-354 | a file is a test file iff its name is some text followed by `_test.go` |
| Syntax.IsTestFunction | leakcheck.go:357-359 | a name is a test function iff it is the test prefix followed by anything and is not `TestMain` |
| Syntax.IsGoleakCall | leakcheck.go:362-372 | the call is a goleak call iff its target is the selector of that method on the plain identifier `alias`; any other receiver is refused |
| Alias.AliasIn | leakcheck.go:382-389 | the inner loop finds nothing iff no spec names either goleak path, else the local name of the first that does |
| Alias.GoleakAlias | leakcheck.go:375-392 | "" when no import of any file names goleak, else the local name of the first such import in file and declaration order |
| Alias.AliasEmptyIff | leakcheck.go:375-392 | since import names are never empty, the alias is "" exactly when goleak is not imported |
| Extract.Walk | leakcheck.go:290-334 | the walk keeps the covered names among the recorded test functions, and raises the entry-point flag when inside `TestMain` |
| Extract.Step | leakcheck.go:295-333 | one visit of a node appends the test function it declares, if any, and keeps the walk's invariant |
| Extract.TestDecls | leakcheck.go:307-315 | every recorded declaration passes `isTestFunction` and carries the file's name |
| Extract.TestDeclsMembers | leakcheck.go:296-315 | a test function is recorded iff the stream declares it under a test name, with its position, in this file |
| Extract.WalkFollowsLastDecl | leakcheck.go:296-315 | the current test function and the entry-point flag follow the last named declaration before the node |
| Extract.WalkTestFuncs | leakcheck.go:307-315 | the walk records exactly the file's test declarations, in order |
| Extract.WalkHasTestMain | leakcheck.go:304-306 | the entry-point flag is set iff the stream declares `TestMain` |
| Extract.WalkVerifyTestMain | leakcheck.go:317-322 | the entry-point call flag is set iff some call of `alias.VerifyTestMain` lies inside `TestMain` |
| Extract.WalkCovered | leakcheck.go:324-331 | a name is covered iff some deferred `alias.VerifyNone` lies inside the test function of that name |
| Extract.ProcessFile | leakcheck.go:277-337 | a non-test file contributes nothing, and a test file contributes its test declarations in order |
| Extract.FileFacts | leakcheck.go:277-337 | a test file's flags and coverage set, each an iff over positions in its node stream |
| Merge.MergeResults | leakcheck.go:263-274 | merging keeps consistency, and the test-function names are the union of both sides |
| Merge.MergeAll | leakcheck.go:243-260 | each merged flag and each covered name comes from some input, and each test function belongs to some input, both ways |
| Merge.MergeTestFuncs | leakcheck.go:263-274 | a merge lists the test functions of its inputs, in input order |
| Merge.AllTestFuncsAppend | leakcheck.go:263-274 | the test functions of two runs of inputs, concatenated, are those of the first run followed by those of the second |
| Merge.AllTestFuncsPermutation | leakcheck.go:166-240 | a permutation of the inputs yields the same test functions, each as often |
| Merge.MergeTestFuncsPermutation | leakcheck.go:166-240 | merging the inputs in any order yields the same multiset of test functions |
| Merge.MergeOrderIndependent | leakcheck.go:166-240 | any permutation of the per-file results gives the same flags, the same coverage and the same test functions, each as often |
| Merge.Analyze | leakcheck.go:243-260 | the unit's test functions are exactly the test declarations of its test files |
| Merge.AnalyzeFacts | leakcheck.go:243-337 | the unit's flags and coverage, stated over the test files' node streams |
| Analyzer.HasNonExcludedTestFiles | leakcheck.go:560-568 | true iff some file is a test file the file filter lets through |
| Analyzer.Message | leakcheck.go:141 | the report text starts with "test function " and the function's name, and ends with the reason in parentheses |
| Analyzer.MessageNamesTest | leakcheck.go:594 | two report texts with the same reason are equal only when they name the same function |
| Analyzer.ReportEach | leakcheck.go:584-595 | the k-th report is at the k-th test function with the one reason; a report is given iff its function is in the list |
| Analyzer.ReportEachCounts | leakcheck.go:584-595 | each test function is reported as often as it occurs in the list, and nothing with another reason is reported |
| Analyzer.ReportEachAppend | leakcheck.go:584-595 | reporting two lists one after the other is reporting their concatenation |
| Analyzer.FilteredDecls | leakcheck.go:584-595 | a function is listed iff some file the filter lets through declares it as a test function |
| Analyzer.ReportAllTests | leakcheck.go:571-600 | the reports are exactly one per test declaration of the files the filter lets through, test file or not, in order, with the given reason |
| Analyzer.ReportAllTestsCounts | leakcheck.go:571-600 | each such declaration is reported as often as it is declared, and nothing else is reported |
| Analyzer.Uncovered | leakcheck.go:127-144 | reports exactly the test functions not covered by a defer whose file the filter lets through, each as often as it occurs in the merged list and nothing else |
| Analyzer.ReasonFor | leakcheck.go:135-138 | the reason names `TestMain` iff an entry point exists without the `VerifyTestMain` call, and is the missing-defer reason otherwise |
| Analyzer.ReportUncovered | leakcheck.go:121-144 | nothing when `TestMain` calls `VerifyTestMain`; otherwise the uncovered test functions, naming `TestMain` as the reason when it exists |
| Analyzer.Decide | leakcheck.go:78-146 | no files, an excluded package or no admitted test file give no report; every report is at a test declaration in a file the exclude filter lets through, with one of the three reasons, and "not imported" only when the alias is empty |
| Analyzer.Run | leakcheck.go:64-146 | `run` with the configuration's two exclusion rules, with the same guarantees in the configuration's terms |
| Analyzer.DecideNotImported | leakcheck.go:102-105 | with no goleak import and an admitted test file, the reports are the not-imported reports of every test function |
| Analyzer.DecideImported | leakcheck.go:100-144 | with a goleak import and an admitted test file, the merged extraction decides the reports |
| Analyzer.NotImportedReports | leakcheck.go:89-105 | without the import, a report is given iff the package is not excluded, some test file is admitted, and the test function is declared in a file the filter lets through; its reason is "goleak not imported" |
| Analyzer.ImportedReports | leakcheck.go:89-144 | with the import, a report is given iff the package is not excluded, no `TestMain` calls `VerifyTestMain`, the function is declared in a test file the filter lets through, and no deferred `VerifyNone` covers its name; the reason names `TestMain` iff one exists |
| Analyzer.ImportedReportCounts | leakcheck.go:100-144 | with the import, no package exclusion and an admitted test file, each merged test function is reported as often as it occurs in the merged list, unless a verifying entry point, a covering defer or the file filter removes it; nothing else is reported |
| Analyzer.CoveredNeverReported | leakcheck.go:134 | a name some deferred `VerifyNone` covers is never reported |
| Analyzer.DeferSilences | leakcheck.go:324-331 | a test function that defers `alias.VerifyNone` is never reported |
| Analyzer.EntryPointDominance | leakcheck.go:121-124 | a `TestMain` calling `VerifyTestMain` in any test file silences every report |
| Analyzer.ReportOrderIndependent | leakcheck.go:166-240 | the worker pool's merge order changes the reports' order only: the same reports are given, each as often |
| Scenarios.BasicScenario | testdata/src/basic/basic_test.go:9-18 | only `TestWithoutGoleak` is reported, with the missing-defer reason |
| Scenarios.AliasScenario | testdata/src/alias/alias_test.go:6-16 | the `gl` alias's deferred check covers its test, and only `TestWithAlias` is reported |
| Scenarios.MainWithVerifyScenario | testdata/src/main_with_verify/main_with_verify_test.go:10-20 | `TestMain` with `VerifyTestMain` silences both tests |
| Scenarios.MainWithoutVerifyScenario | testdata/src/main_without_verify/main_without_verify_test.go:11-25 | both tests are reported with the "TestMain exists" reason |
| Scenarios.NoImportScenario | testdata/src/no_import/no_import_test.go:3-14 | both tests are reported with the "goleak not imported" reason |
| Scenarios.MultipleFilesWithMainScenario | testdata/src/multiple_files_with_main/main_test.go:9-12 | `TestMain` in a third file covers the tests of the other two |
| Scenarios.AliasMainScenario | testdata/src/alias_main/alias_main_test.go:6-15 | `TestMain` calling `gl.VerifyTestMain` silences the package |
| Scenarios.SinglePatternExcludes | leakcheck.go:395-400 | a single trimmed pattern that matches the package path excludes the package, so nothing is reported |
| Scenarios.ExcludePackageByName | leakcheck_test.go:39-47 | the pattern `exclude_package` excludes the package of that name |
| Scenarios.ExcludePackageByRegex | leakcheck_test.go:49-57 | the pattern `.*exclude.*` goes to the regular-expression branch and, when it matches, excludes the package |

## Left out

- Context deadlines and cancellation (`Config.Timeout`, the `ctx.Done()` checks) are not modelled. Every run here completes.
- The worker pool, the mutex and the semaphore are not modelled. In their place, the merge is proved independent of the order in which workers finish (`Merge.MergeOrderIndependent`, `Analyzer.ReportOrderIndependent`).
- The choice between sequential and pooled analysis (at most three files) is not modelled. Both paths merge the same per-file results.
- `matchRegexPattern` is the parameter `regex`, with Go's `regexp` semantics and compile errors folded into it (a pattern that does not compile matches nothing). The regular-expression cache and its eviction are left out, because they do not change a result.
- The parameter `regex` is otherwise unconstrained, so the model does not know that Go's `regexp.Compile` rejects a pattern starting with `*`. With that rejection (leakcheck.go:519-521), `*_test.go` and `*exclude_test.go` reach the regular-expression branch and exclude only a file named exactly like the pattern (`Patterns.LeadingStarMatchesOnlyItself`). This is at odds with the intent of leakcheck_test.go:65 and of the glob branch at leakcheck.go:448.
- Patterns.MatchesPattern: the glob branch states Go's default `.`, which does not match '\n', so a `*` never spans a newline.
- `New`, `NewWithConfig`, the `Analyzer` variable and the defaults for `Concurrency` and `Timeout` are plumbing, as are the `analysis.Pass` and `token.FileSet` look-ups. Positions are kept as integers.
- `cmd/leakcheck/main.go` (flag parsing) is not part of this model.
- Go strings are byte strings, while the model's strings are sequences of Unicode scalar values. On valid UTF-8, every operation the core uses (`HasSuffix`, `HasPrefix`, `Contains`, `LastIndex`, `Split`, `TrimSpace`) gives the same result either way. A file name or pattern holding invalid UTF-8 cannot be represented in the model.
- A function declaration with a nil name is skipped everywhere in the model. In the analyzer only `processFileForAnalysis` skips it (leakcheck.go:297-299). `reportUncoveredTestFunctionsWithContext` reads the name without a check (leakcheck.go:591) and would panic on one, while `Extract.TestDecls` and `Analyzer.ReportAllTests` skip it. The Go parser never yields such a declaration.
- Scenarios: the report texts (`Analyzer.Message`) are modelled but not restated in the fixtures' lemmas. The lemmas state the test function, position and reason of each report.
- The `exclude_package` and `exclude_files` fixture files are not part of this model. The package-exclusion tests hold for any files, and `TestExcludeFiles` is not restated.
- The `multiple_files` and `exclude_multiple_files` fixtures are not restated as scenarios. The behaviour of `multiple_files` follows from `Analyzer.ImportedReports`. The file `exclude_multiple_files/normal_test.go` imports only "testing", and its expected reports say "goleak not imported", so its behaviour follows from `Analyzer.NotImportedReports`.

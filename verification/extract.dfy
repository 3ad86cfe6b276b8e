/**
 Per-file extraction (`processFileForAnalysis`): one walk over a file's
 node stream, tracking the enclosing test function and whether the walk
 is inside the entry point `TestMain`.
 */
module Extract {
  import opened Options
  import opened Strings
  import opened Syntax

  /** `testFuncInfo`. */
  datatype TestFunc = TestFunc(name: string, pos: int, filename: string)

  /**
   `analysisResult`. The analyzer's `funcsCoveredByDefer` map only ever
   stores `true`, so it is the set of its keys here.
   */
  datatype Analysis = Analysis(
    hasTestMain: bool,
    hasVerifyTestMain: bool,
    testFuncs: seq<TestFunc>,
    covered: set<string>)

  const NoAnalysis: Analysis := Analysis(false, false, [], {})

  function Names(tfs: seq<TestFunc>): set<string> {
    set t | t in tfs :: t.name
  }

  /**
   What every extraction and every merge of extractions keeps: the
   entry-point call is only recorded alongside an entry point, and only
   recorded test functions are marked covered.
   */
  predicate Consistent(a: Analysis) {
    && (a.hasVerifyTestMain ==> a.hasTestMain)
    && a.covered <= Names(a.testFuncs)
  }

  /** The walk's variables: `currentTestFunc`, `inTestMain` and the result so far. */
  datatype WalkState = WalkState(current: string, inTestMain: bool, acc: Analysis)

  const Start: WalkState := WalkState([], false, NoAnalysis)

  /**
   The visitor applied to one node. It appends the test function the node
   declares, if any, and keeps the walk's invariant.
   */
  function Step(w: WalkState, n: Node, alias: string, filename: string): (r: WalkState)
    ensures r.acc.testFuncs == w.acc.testFuncs + DeclaredTest(n, filename)
    ensures WalkInvariant(w) ==> WalkInvariant(r)
  {
    match n
    case FuncDecl(name, pos) =>
      if name.None? then w
      else if name.value == TestMainFunc then
        WalkState([], true, w.acc.(hasTestMain := true))
      else if IsTestFunction(name.value) then
        NamesSnoc(w.acc.testFuncs, TestFunc(name.value, pos, filename));
        WalkState(name.value, false,
                  w.acc.(testFuncs := w.acc.testFuncs + [TestFunc(name.value, pos, filename)]))
      else
        WalkState([], false, w.acc)
    case Call(fun) =>
      if w.inTestMain && IsGoleakCall(fun, VerifyTestMain, alias) then
        w.(acc := w.acc.(hasVerifyTestMain := true))
      else w
    case Defer(fun) =>
      if w.current != [] && IsGoleakCall(fun, VerifyNone, alias) then
        w.(acc := w.acc.(covered := w.acc.covered + {w.current}))
      else w
  }

  lemma {:induction false} NamesSnoc(tfs: seq<TestFunc>, t: TestFunc)
    ensures Names(tfs + [t]) == Names(tfs) + {t.name}
  {
    assert forall u :: u in tfs + [t] <==> u in tfs || u == t;
  }

  /**
   The walk's invariant: the result is consistent, the entry-point flag
   is raised whenever the walk is inside the entry point, and the
   enclosing test function is one already recorded.
   */
  predicate WalkInvariant(w: WalkState) {
    && Consistent(w.acc)
    && (w.inTestMain ==> w.acc.hasTestMain)
    && (w.current != [] ==> w.current in Names(w.acc.testFuncs))
  }

  /** The walk over a node stream, from the first node to the last; it keeps its invariant. */
  function Walk(nodes: seq<Node>, alias: string, filename: string): (w: WalkState)
    ensures Consistent(w.acc)
    ensures w.inTestMain ==> w.acc.hasTestMain
    ensures w.current != [] ==> w.current in Names(w.acc.testFuncs)
    decreases |nodes|
  {
    if |nodes| == 0 then Start
    else
      var before := Walk(nodes[..|nodes| - 1], alias, filename);
      Step(before, nodes[|nodes| - 1], alias, filename)
  }

  /** The name of the last named declaration in `nodes`: the function the walk is in. */
  function LastDecl(nodes: seq<Node>): Option<string>
    decreases |nodes|
  {
    if |nodes| == 0 then None
    else
      var n := nodes[|nodes| - 1];
      if n.FuncDecl? && n.name.Some? then n.name else LastDecl(nodes[..|nodes| - 1])
  }

  /** The test function declared at the head of the stream, if any. */
  function DeclaredTest(n: Node, filename: string): seq<TestFunc> {
    if n.FuncDecl? && n.name.Some? && IsTestFunction(n.name.value)
    then [TestFunc(n.name.value, n.pos, filename)]
    else []
  }

  /**
   The test functions a file declares, in declaration order: every named
   declaration whose name has the test prefix and is not the entry point.
   */
  function TestDecls(nodes: seq<Node>, filename: string): (r: seq<TestFunc>)
    ensures forall k :: 0 <= k < |r| ==> IsTestFunction(r[k].name) && r[k].filename == filename
    decreases |nodes|
  {
    if |nodes| == 0 then []
    else DeclaredTest(nodes[0], filename) + TestDecls(nodes[1..], filename)
  }

  lemma {:induction false} TestDeclsSnoc(nodes: seq<Node>, n: Node, filename: string)
    ensures TestDecls(nodes + [n], filename) == TestDecls(nodes, filename) + DeclaredTest(n, filename)
    decreases |nodes|
  {
    if |nodes| == 0 {
      assert [n][1..] == [];
    } else {
      assert (nodes + [n])[1..] == nodes[1..] + [n];
      TestDeclsSnoc(nodes[1..], n, filename);
    }
  }

  /** Exactly the declarations of `TestDecls`, located in the stream. */
  lemma {:induction false} TestDeclsMembers(nodes: seq<Node>, filename: string, t: TestFunc)
    ensures t in TestDecls(nodes, filename) <==>
              && t.filename == filename
              && IsTestFunction(t.name)
              && exists i :: 0 <= i < |nodes| && nodes[i] == FuncDecl(Some(t.name), t.pos)
    decreases |nodes|
  {
    if |nodes| > 0 {
      TestDeclsMembers(nodes[1..], filename, t);
      if exists i :: 0 <= i < |nodes| && nodes[i] == FuncDecl(Some(t.name), t.pos) {
        var i :| 0 <= i < |nodes| && nodes[i] == FuncDecl(Some(t.name), t.pos);
        if i > 0 {
          assert nodes[1..][i - 1] == nodes[i];
        }
      }
      if exists i :: 0 <= i < |nodes[1..]| && nodes[1..][i] == FuncDecl(Some(t.name), t.pos) {
        var i :| 0 <= i < |nodes[1..]| && nodes[1..][i] == FuncDecl(Some(t.name), t.pos);
        assert nodes[i + 1] == nodes[1..][i];
      }
    }
  }

  /** The walk's `currentTestFunc` for a given last declaration. */
  function CurrentFor(last: Option<string>): string {
    if last.Some? && IsTestFunction(last.value) then last.value else []
  }

  /** The walk's position is fixed by the last named declaration seen. */
  lemma {:induction false} WalkFollowsLastDecl(nodes: seq<Node>, alias: string, filename: string)
    ensures Walk(nodes, alias, filename).current == CurrentFor(LastDecl(nodes))
    ensures Walk(nodes, alias, filename).inTestMain <==> LastDecl(nodes) == Some(TestMainFunc)
    decreases |nodes|
  {
    if |nodes| > 0 {
      WalkFollowsLastDecl(nodes[..|nodes| - 1], alias, filename);
    }
  }

  /** The test functions recorded by the walk are those of `TestDecls`. */
  lemma {:induction false} WalkTestFuncs(nodes: seq<Node>, alias: string, filename: string)
    ensures Walk(nodes, alias, filename).acc.testFuncs == TestDecls(nodes, filename)
    decreases |nodes|
  {
    if |nodes| > 0 {
      var init, last := nodes[..|nodes| - 1], nodes[|nodes| - 1];
      WalkTestFuncs(init, alias, filename);
      TestDeclsSnoc(init, last, filename);
      assert init + [last] == nodes;
    }
  }

  /** Position `i` declares the entry point. */
  ghost predicate TestMainAt(nodes: seq<Node>, i: int) {
    0 <= i < |nodes| && nodes[i].FuncDecl? && nodes[i].name == Some(TestMainFunc)
  }

  /** Position `j` calls `alias.VerifyTestMain` inside the entry point. */
  ghost predicate VerifyTestMainAt(nodes: seq<Node>, j: int, alias: string) {
    && 0 <= j < |nodes|
    && nodes[j].Call?
    && IsGoleakCall(nodes[j].fun, VerifyTestMain, alias)
    && LastDecl(nodes[..j]) == Some(TestMainFunc)
  }

  /** Position `j` defers `alias.VerifyNone` inside the test function `x`. */
  ghost predicate DeferCoversAt(nodes: seq<Node>, j: int, alias: string, x: string) {
    && 0 <= j < |nodes|
    && nodes[j].Defer?
    && IsGoleakCall(nodes[j].fun, VerifyNone, alias)
    && LastDecl(nodes[..j]) == Some(x)
    && IsTestFunction(x)
  }

  /** The entry-point flag is raised exactly when the stream declares `TestMain`. */
  lemma {:induction false} WalkHasTestMain(nodes: seq<Node>, alias: string, filename: string)
    ensures Walk(nodes, alias, filename).acc.hasTestMain <==> exists i :: TestMainAt(nodes, i)
    decreases |nodes|
  {
    if |nodes| > 0 {
      var init := nodes[..|nodes| - 1];
      var n := nodes[|nodes| - 1];
      WalkHasTestMain(init, alias, filename);
      var w := Walk(init, alias, filename);
      assert Walk(nodes, alias, filename) == Step(w, n, alias, filename);
      assert Step(w, n, alias, filename).acc.hasTestMain <==>
               w.acc.hasTestMain || (n.FuncDecl? && n.name == Some(TestMainFunc));
      assert forall i :: 0 <= i < |init| ==> (TestMainAt(init, i) <==> TestMainAt(nodes, i));
      if n.FuncDecl? && n.name == Some(TestMainFunc) {
        assert TestMainAt(nodes, |init|);
      }
      if exists i :: TestMainAt(nodes, i) {
        var i :| TestMainAt(nodes, i);
        if i < |init| {
          assert TestMainAt(init, i);
        }
      }
    }
  }

  /**
   The entry-point call is recorded exactly when some call of
   `alias.VerifyTestMain` lies inside `TestMain`, deferred or not.
   */
  lemma {:induction false} WalkVerifyTestMain(nodes: seq<Node>, alias: string, filename: string)
    ensures Walk(nodes, alias, filename).acc.hasVerifyTestMain <==>
              exists j :: VerifyTestMainAt(nodes, j, alias)
    decreases |nodes|
  {
    if |nodes| > 0 {
      var init := nodes[..|nodes| - 1];
      var n := nodes[|nodes| - 1];
      VerifyTestMainSnoc(nodes, init, alias);
      WalkVerifyTestMain(init, alias, filename);
      WalkFollowsLastDecl(init, alias, filename);
      var w := Walk(init, alias, filename);
      assert Walk(nodes, alias, filename) == Step(w, n, alias, filename);
      assert nodes[..|init|] == init;
    }
  }

  /** A call of `VerifyTestMain` inside `TestMain` lies in the prefix or at the last position. */
  lemma {:induction false} VerifyTestMainSnoc(nodes: seq<Node>, init: seq<Node>, alias: string)
    requires |nodes| > 0 && init == nodes[..|nodes| - 1]
    ensures (exists j :: VerifyTestMainAt(nodes, j, alias)) <==>
              (exists j :: VerifyTestMainAt(init, j, alias)) || VerifyTestMainAt(nodes, |init|, alias)
  {
    forall j | 0 <= j < |init|
      ensures VerifyTestMainAt(init, j, alias) <==> VerifyTestMainAt(nodes, j, alias)
    {
      assert nodes[..j] == init[..j];
    }
    if exists j :: VerifyTestMainAt(nodes, j, alias) {
      var j :| VerifyTestMainAt(nodes, j, alias);
      if j < |init| {
        assert VerifyTestMainAt(init, j, alias);
      }
    }
  }

  /**
   A test function is marked covered exactly when a deferred call of
   `alias.VerifyNone` lies inside its body.
   */
  lemma {:induction false} WalkCovered(nodes: seq<Node>, alias: string, filename: string, x: string)
    ensures x in Walk(nodes, alias, filename).acc.covered <==>
              exists j :: DeferCoversAt(nodes, j, alias, x)
    decreases |nodes|
  {
    if |nodes| > 0 {
      var init := nodes[..|nodes| - 1];
      var n := nodes[|nodes| - 1];
      CoversSnoc(nodes, init, alias, x);
      WalkCovered(init, alias, filename, x);
      WalkFollowsLastDecl(init, alias, filename);
      var w := Walk(init, alias, filename);
      assert Walk(nodes, alias, filename) == Step(w, n, alias, filename);
      assert nodes[..|init|] == init;
      var last := LastDecl(init);
      assert last.Some? && IsTestFunction(last.value) ==> last.value != [] by {
        if last.Some? && IsTestFunction(last.value) {
          assert TestPrefix <= last.value;
        }
      }
    }
  }

  /** A covering deferred call lies in the prefix or at the last position. */
  lemma {:induction false} CoversSnoc(nodes: seq<Node>, init: seq<Node>, alias: string, x: string)
    requires |nodes| > 0 && init == nodes[..|nodes| - 1]
    ensures (exists j :: DeferCoversAt(nodes, j, alias, x)) <==>
              (exists j :: DeferCoversAt(init, j, alias, x)) || DeferCoversAt(nodes, |init|, alias, x)
  {
    forall j | 0 <= j < |init|
      ensures DeferCoversAt(init, j, alias, x) <==> DeferCoversAt(nodes, j, alias, x)
    {
      assert nodes[..j] == init[..j];
    }
    if exists j :: DeferCoversAt(nodes, j, alias, x) {
      var j :| DeferCoversAt(nodes, j, alias, x);
      if j < |init| {
        assert DeferCoversAt(init, j, alias, x);
      }
    }
  }

  /**
   `processFileForAnalysis`: a file whose name lacks the `_test.go`
   suffix contributes nothing; otherwise the walk's result, whose test
   functions are the file's test declarations in order.
   */
  function ProcessFile(file: File, alias: string): (r: Analysis)
    ensures !IsTestFile(file.filename) ==> r == NoAnalysis
    ensures IsTestFile(file.filename) ==> r.testFuncs == TestDecls(file.nodes, file.filename)
    ensures Consistent(r)
  {
    if !IsTestFile(file.filename) then NoAnalysis
    else
      WalkTestFuncs(file.nodes, alias, file.filename);
      Walk(file.nodes, alias, file.filename).acc
  }

  /**
   The flags and the coverage set of a test file's extraction, stated
   over the node stream alone.
   */
  lemma {:induction false} FileFacts(file: File, alias: string, x: string)
    requires IsTestFile(file.filename)
    ensures ProcessFile(file, alias).hasTestMain <==> exists i :: TestMainAt(file.nodes, i)
    ensures ProcessFile(file, alias).hasVerifyTestMain <==>
              exists j :: VerifyTestMainAt(file.nodes, j, alias)
    ensures x in ProcessFile(file, alias).covered <==>
              exists j :: DeferCoversAt(file.nodes, j, alias, x)
  {
    WalkHasTestMain(file.nodes, alias, file.filename);
    WalkVerifyTestMain(file.nodes, alias, file.filename);
    WalkCovered(file.nodes, alias, file.filename, x);
  }
}

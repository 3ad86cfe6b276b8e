/**
 The slice of Go's syntax tree the analyzer looks at. A file is its name,
 its import specs and the preorder stream of the nodes `ast.Inspect` would
 visit, keeping only function declarations, call expressions and defer
 statements. A defer statement is followed in the stream by the call it
 wraps, as in the preorder walk.
 */
module Syntax {
  import opened Options
  import opened Strings

  const GoleakUberPath: string := "\"go.uber.org/goleak\""
  const GoleakGithubPath: string := "\"github.com/uber-go/goleak\""
  const DefaultAlias: string := "goleak"
  const VerifyTestMain: string := "VerifyTestMain"
  const VerifyNone: string := "VerifyNone"
  const TestPrefix: string := "Test"
  const TestMainFunc: string := "TestMain"
  const TestFileSuffix: string := "_test.go"

  /** The receiver of a selector: an identifier or any other expression. */
  datatype Expr = Ident(name: string) | OtherExpr

  /** The function part of a call: `x.Sel` or anything else. */
  datatype CallTarget = Selector(x: Expr, sel: string) | OtherTarget

  /**
   The visited nodes. `pos` is the declaration's `token.Pos`, an offset
   the host framework resolves to file, line and column.
   */
  datatype Node =
    | FuncDecl(name: Option<string>, pos: int)
    | Call(fun: CallTarget)
    | Defer(fun: CallTarget)

  /** An import spec: the optional local name and the quoted path literal. */
  datatype ImportSpec = ImportSpec(name: Option<string>, path: Option<string>)

  datatype File = File(filename: string, imports: seq<ImportSpec>, nodes: seq<Node>)

  /** `isTestFile`: the name is some text followed by `_test.go`. */
  function IsTestFile(filename: string): (r: bool)
    ensures r <==> exists stem :: filename == stem + TestFileSuffix
  {
    assert HasSuffix(filename, TestFileSuffix) ==>
             filename == filename[..|filename| - |TestFileSuffix|] + TestFileSuffix;
    HasSuffix(filename, TestFileSuffix)
  }

  /** `isTestFunction`: the test prefix followed by anything, but not the entry point itself. */
  function IsTestFunction(name: string): (r: bool)
    ensures r <==> name != TestMainFunc && exists rest :: name == TestPrefix + rest
  {
    assert HasPrefix(name, TestPrefix) ==> name == TestPrefix + name[|TestPrefix|..];
    HasPrefix(name, TestPrefix) && name != TestMainFunc
  }

  /**
   `isGoleakCall`: the call target is the selector `alias.methodName` on a
   plain identifier; any other receiver expression is refused.
   */
  function IsGoleakCall(fun: CallTarget, methodName: string, alias: string): (r: bool)
    ensures r <==> fun == Selector(Ident(alias), methodName)
  {
    && fun.Selector?
    && fun.sel == methodName
    && fun.x.Ident?
    && fun.x.name == alias
  }

}

/**
 Import/alias resolution (`getGoleakAlias`): the local name under which
 the leak checker's package is visible, or "" when no file imports it.
 */
module Alias {
  import opened Options
  import opened Syntax

  /** The spec imports the package under one of its two recognised paths. */
  predicate IsGoleakImport(imp: ImportSpec) {
    imp.path == Some(GoleakUberPath) || imp.path == Some(GoleakGithubPath)
  }

  /** The name the import binds: the explicit one, else the package's own. */
  function LocalName(imp: ImportSpec): string {
    if imp.name.Some? then imp.name.value else DefaultAlias
  }

  /** All import specs of the unit, in file order then declaration order. */
  function AllImports(files: seq<File>): seq<ImportSpec> {
    if |files| == 0 then [] else files[0].imports + AllImports(files[1..])
  }

  ghost predicate NoGoleakImport(imports: seq<ImportSpec>) {
    forall k :: 0 <= k < |imports| ==> !IsGoleakImport(imports[k])
  }

  /** Position `k` holds the first import of the package. */
  ghost predicate FirstGoleakAt(imports: seq<ImportSpec>, k: int) {
    && 0 <= k < |imports|
    && IsGoleakImport(imports[k])
    && forall j :: 0 <= j < k ==> !IsGoleakImport(imports[j])
  }

  /** The inner loop over one file's imports. */
  function AliasIn(imports: seq<ImportSpec>): (r: Option<string>)
    ensures r == None <==> NoGoleakImport(imports)
    ensures forall k :: FirstGoleakAt(imports, k) ==> r == Some(LocalName(imports[k]))
    decreases |imports|
  {
    if |imports| == 0 then None
    else if IsGoleakImport(imports[0]) then Some(LocalName(imports[0]))
    else
      var r := AliasIn(imports[1..]);
      assert forall k :: 1 <= k < |imports| ==> imports[1..][k - 1] == imports[k];
      assert forall k :: FirstGoleakAt(imports, k) ==> FirstGoleakAt(imports[1..], k - 1);
      r
  }

  /**
   `getGoleakAlias`: "" when no import of any file names the package;
   otherwise the local name of the first such import.
   */
  function GoleakAlias(files: seq<File>): (r: string)
    ensures NoGoleakImport(AllImports(files)) ==> r == []
    ensures forall k :: FirstGoleakAt(AllImports(files), k) ==> r == LocalName(AllImports(files)[k])
    decreases |files|
  {
    if |files| == 0 then []
    else
      var head := files[0].imports;
      var all := AllImports(files);
      assert all == head + AllImports(files[1..]);
      match AliasIn(head)
      case Some(a) =>
        assert forall k :: FirstGoleakAt(all, k) ==> FirstGoleakAt(head, k) by {
          forall k | FirstGoleakAt(all, k) ensures FirstGoleakAt(head, k) {
            var k' :| 0 <= k' < |head| && IsGoleakImport(head[k']);
            assert all[k'] == head[k'];
            assert k <= k';
            assert forall j :: 0 <= j < k ==> all[j] == head[j];
          }
        }
        a
      case None =>
        var r := GoleakAlias(files[1..]);
        var rest := AllImports(files[1..]);
        assert NoGoleakImport(all) ==> NoGoleakImport(rest) by {
          if NoGoleakImport(all) {
            forall j | 0 <= j < |rest| ensures !IsGoleakImport(rest[j]) {
              assert rest[j] == all[j + |head|];
            }
          }
        }
        forall k | FirstGoleakAt(all, k)
          ensures FirstGoleakAt(rest, k - |head|) && all[k] == rest[k - |head|]
        {
          assert all[..|head|] == head;
          forall j | 0 <= j < k - |head| ensures !IsGoleakImport(rest[j]) {
            assert rest[j] == all[j + |head|];
          }
        }
        r
  }

  /**
   Import names are identifiers, never empty, so the alias is "" exactly
   when no file imports the package.
   */
  lemma {:induction false} AliasEmptyIff(files: seq<File>)
    requires forall k :: 0 <= k < |AllImports(files)| && AllImports(files)[k].name.Some?
               ==> AllImports(files)[k].name.value != []
    ensures GoleakAlias(files) == [] <==> NoGoleakImport(AllImports(files))
  {
    var all := AllImports(files);
    if !NoGoleakImport(all) {
      var k := FirstIndex(all);
      assert FirstGoleakAt(all, k);
    }
  }

  /** The first import of the package, when there is one. */
  lemma {:induction false} FirstIndex(imports: seq<ImportSpec>) returns (k: nat)
    requires !NoGoleakImport(imports)
    ensures FirstGoleakAt(imports, k)
    decreases |imports|
  {
    if IsGoleakImport(imports[0]) {
      k := 0;
    } else {
      assert !NoGoleakImport(imports[1..]) by {
        var j :| 0 <= j < |imports| && IsGoleakImport(imports[j]);
        assert imports[1..][j - 1] == imports[j];
      }
      var k' := FirstIndex(imports[1..]);
      k := k' + 1;
      assert forall j :: 1 <= j < k ==> imports[j] == imports[1..][j - 1];
    }
  }
}

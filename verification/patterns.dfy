/**
 Exclusion rules: a comma-separated list of patterns, each tried in turn
 as an exact string, a substring, an anchored glob or a regular
 expression (leakcheck.go, matchesAnyPattern and its helpers).
 */
module Patterns {
  import opened Strings
  import opened Glob

  /**
   Go's `regexp` package seen from the matcher: whether `pattern` compiles
   and then matches somewhere in `str`. A pattern that does not compile
   matches nothing, so the matcher is total.
   */
  type RegexMatcher = (string, string) -> bool

  /** The user's exclusion settings; the worker count and deadline are not modelled. */
  datatype Config = Config(excludePackages: string, excludeFiles: string)

  const Comma: char := ','

  /** Characters that send a pattern past the substring test. */
  const SpecialChars: set<char> :=
    {'.', '*', '+', '?', '^', '$', '{', '}', '(', ')', '[', ']', '|', '\\'}

  /** Regular-expression metacharacters other than `*`. */
  const RegexMetachars: set<char> :=
    {'.', '^', '$', '+', '?', '[', ']', '(', ')', '{', '}', '|', '\\'}

  /**
   `containsSpecialChars`: `strings.ContainsAny` over the special list,
   which is the star together with every metacharacter.
   */
  function ContainsSpecialChars(p: string): (r: bool)
    ensures r <==> Star in p || ContainsRegexMetachars(p)
  {
    assert SpecialChars == RegexMetachars + {Star};
    assert Star in p ==> ContainsAny(p, SpecialChars) by {
      if Star in p {
        var i :| 0 <= i < |p| && p[i] == Star;
        assert p[i] in SpecialChars;
      }
    }
    ContainsAny(p, SpecialChars)
  }

  /** A scan of the pattern that stops at the first metacharacter. */
  function ContainsRegexMetachars(p: string): (r: bool)
    ensures r <==> exists i :: 0 <= i < |p| && p[i] in RegexMetachars
    decreases |p|
  {
    if |p| == 0 then false
    else if p[0] in RegexMetachars then true
    else
      var r := ContainsRegexMetachars(p[1..]);
      assert r ==> exists i :: 0 <= i < |p| && p[i] in RegexMetachars by {
        if r {
          var i :| 0 <= i < |p[1..]| && p[1..][i] in RegexMetachars;
          assert p[i + 1] in RegexMetachars;
        }
      }
      assert (exists i :: 0 <= i < |p| && p[i] in RegexMetachars) ==> r by {
        if exists i :: 0 <= i < |p| && p[i] in RegexMetachars {
          var i :| 0 <= i < |p| && p[i] in RegexMetachars;
          assert p[1..][i - 1] == p[i];
        }
      }
      r
  }

  /** The glob branch applies: a star and no other metacharacter. */
  predicate IsSimpleGlob(p: string) {
    Star in p && !ContainsRegexMetachars(p)
  }

  /**
   One pattern against one candidate: equality first; the empty pattern
   matches nothing else; a pattern without special characters is a
   substring test; a simple glob must match the whole candidate; anything
   else is handed to the regular-expression engine.
   */
  function MatchesPattern(regex: RegexMatcher, s: string, p: string): (r: bool)
    ensures s == p ==> r
    ensures p == [] ==> (r <==> s == [])
    ensures p != [] && !ContainsSpecialChars(p) ==> (r <==> Occurs(p, s))
    ensures IsSimpleGlob(p) ==> (r <==> InLanguage(s, p))
    ensures ContainsRegexMetachars(p) && s != p ==> (r <==> regex(s, p))
  {
    GlobMatchIsLanguage(s, p);
    if s == p then
      SelfMatch(p);
      assert OccursAt(p, s, 0);
      true
    else if p == [] then false
    else if !ContainsSpecialChars(p) then Contains(s, p)
    else if IsSimpleGlob(p) then GlobMatch(s, p)
    else regex(s, p)
  }

  /** A piece of the list counts when it is non-blank and its trimmed text matches. */
  predicate PieceMatches(regex: RegexMatcher, s: string, piece: string) {
    TrimSpace(piece) != [] && MatchesPattern(regex, s, TrimSpace(piece))
  }

  /** Some piece of the split list matches. */
  ghost predicate SomePieceMatches(regex: RegexMatcher, s: string, pieces: seq<string>) {
    exists i :: 0 <= i < |pieces| && PieceMatches(regex, s, pieces[i])
  }

  /** The loop over the split pattern list, stopping at the first match. */
  function AnyPieceMatches(regex: RegexMatcher, s: string, pieces: seq<string>): (r: bool)
    ensures r <==> SomePieceMatches(regex, s, pieces)
    decreases |pieces|
  {
    if |pieces| == 0 then false
    else if PieceMatches(regex, s, pieces[0]) then true
    else
      var r := AnyPieceMatches(regex, s, pieces[1..]);
      assert SomePieceMatches(regex, s, pieces) ==> r by {
        if SomePieceMatches(regex, s, pieces) {
          var i :| 0 <= i < |pieces| && PieceMatches(regex, s, pieces[i]);
          assert pieces[1..][i - 1] == pieces[i];
        }
      }
      assert r ==> SomePieceMatches(regex, s, pieces) by {
        if r {
          var i :| 0 <= i < |pieces[1..]| && PieceMatches(regex, s, pieces[1..][i]);
          assert pieces[i + 1] == pieces[1..][i];
        }
      }
      r
  }

  /**
   `matchesAnyPattern`: the empty list matches nothing; a list without a
   comma is trimmed and tried as one pattern, blank or not; otherwise the
   non-blank trimmed pieces are tried.
   */
  function MatchesAnyPattern(regex: RegexMatcher, s: string, patterns: string): (r: bool)
    ensures patterns == [] ==> !r
    ensures Comma !in patterns && patterns != [] ==>
              (r <==> MatchesPattern(regex, s, TrimSpace(patterns)))
    ensures Comma in patterns ==> (r <==> SomePieceMatches(regex, s, Split(patterns, Comma)))
  {
    if patterns == [] then false
    else if Comma !in patterns then MatchesPattern(regex, s, TrimSpace(patterns))
    else AnyPieceMatches(regex, s, Split(patterns, Comma))
  }

  /**
   One rule for every list: some non-blank piece matches, or the whole
   list is a single blank pattern, which (being trimmed to "") matches
   only the empty candidate.
   */
  lemma {:induction false} PatternListSemantics(regex: RegexMatcher, s: string, patterns: string)
    ensures MatchesAnyPattern(regex, s, patterns) <==>
              || SomePieceMatches(regex, s, Split(patterns, Comma))
              || (patterns != [] && Comma !in patterns && AllSpace(patterns) && s == [])
  {
    if patterns != [] && Comma !in patterns {
      assert Split(patterns, Comma) == [patterns];
      assert SomePieceMatches(regex, s, [patterns]) <==> PieceMatches(regex, s, patterns) by {
        if SomePieceMatches(regex, s, [patterns]) {
          var i :| 0 <= i < 1 && PieceMatches(regex, s, [patterns][i]);
        }
        if PieceMatches(regex, s, patterns) {
          assert PieceMatches(regex, s, [patterns][0]);
        }
      }
    } else if patterns == [] {
      assert Split(patterns, Comma) == [[]];
      assert !SomePieceMatches(regex, s, [[]]) by {
        if SomePieceMatches(regex, s, [[]]) {
          var i :| 0 <= i < 1 && PieceMatches(regex, s, [[]][i]);
        }
      }
    }
  }

  /**
   Adding a comma and a further pattern to a list keeps every piece that
   matched and adds the new one.
   */
  lemma {:induction false} AppendPattern(regex: RegexMatcher, s: string, patterns: string, q: string)
    requires Comma !in q
    ensures MatchesAnyPattern(regex, s, patterns + [Comma] + q) <==>
              SomePieceMatches(regex, s, Split(patterns, Comma)) || PieceMatches(regex, s, q)
  {
    var ps := patterns + [Comma] + q;
    assert ps[|patterns|] == Comma;
    SplitAppend(patterns, Comma, q);
    SomePieceSnoc(regex, s, Split(patterns, Comma), q);
  }

  /** Some piece of a list with one more piece matches when the old ones or the new one does. */
  lemma {:induction false} SomePieceSnoc(regex: RegexMatcher, s: string, before: seq<string>, q: string)
    ensures SomePieceMatches(regex, s, before + [q]) <==>
              SomePieceMatches(regex, s, before) || PieceMatches(regex, s, q)
  {
    var pieces := before + [q];
    if SomePieceMatches(regex, s, before) {
      var i :| 0 <= i < |before| && PieceMatches(regex, s, before[i]);
      assert pieces[i] == before[i];
    }
    if PieceMatches(regex, s, q) {
      assert pieces[|before|] == q;
    }
    if SomePieceMatches(regex, s, pieces) {
      var i :| 0 <= i < |pieces| && PieceMatches(regex, s, pieces[i]);
      if i < |before| {
        assert pieces[i] == before[i];
      }
    }
  }

  /**
   The file name with its directories removed, cutting first at the last
   '/' and then at the last '\\': the longest suffix with neither.
   */
  function Basename(filename: string): (r: string)
    ensures |r| <= |filename| && r == filename[|filename| - |r|..]
    ensures '/' !in r && '\\' !in r
    ensures |r| < |filename| ==> filename[|filename| - |r| - 1] in {'/', '\\'}
  {
    var afterSlash := AfterLast(filename, '/');
    var r := AfterLast(afterSlash, '\\');
    BaseOfBase(filename, afterSlash, r);
    r
  }

  /** The two cuts of `Basename` compose into one suffix. */
  lemma {:induction false} BaseOfBase(s: string, a: string, r: string)
    requires CutAfter(s, '/', a) && CutAfter(a, '\\', r)
    ensures |r| <= |s| && r == s[|s| - |r|..]
    ensures '/' !in r && '\\' !in r
    ensures |r| < |s| ==> s[|s| - |r| - 1] in {'/', '\\'}
  {
    assert r == s[|s| - |r|..];
    if |r| < |a| {
      assert s[|s| - |r| - 1] == a[|a| - |r| - 1];
    }
    forall i | 0 <= i < |r| ensures r[i] != '/' {
      assert r[i] == a[|a| - |r| + i];
    }
  }

  /** `shouldExcludePackage`. */
  function ShouldExcludePackage(regex: RegexMatcher, pkgPath: string, config: Config): (r: bool)
    ensures r <==> MatchesAnyPattern(regex, pkgPath, config.excludePackages)
  {
    if config.excludePackages == [] then false
    else MatchesAnyPattern(regex, pkgPath, config.excludePackages)
  }

  /** `shouldExcludeFileWithConfig`: the full path or the bare file name matches. */
  function ShouldExcludeFile(regex: RegexMatcher, filename: string, config: Config): (r: bool)
    ensures r <==> || MatchesAnyPattern(regex, filename, config.excludeFiles)
                   || MatchesAnyPattern(regex, Basename(filename), config.excludeFiles)
    ensures r ==> config.excludeFiles != []
  {
    if config.excludeFiles != [] then
      MatchesAnyPattern(regex, filename, config.excludeFiles)
      || MatchesAnyPattern(regex, Basename(filename), config.excludeFiles)
    else false
  }

  /**
   A file can be excluded by its bare name wherever it lives: a non-blank
   piece whose trimmed text is the base name excludes the file.
   */
  lemma {:induction false} ExcludeByBaseName(regex: RegexMatcher, filename: string, config: Config, i: nat)
    requires Comma in config.excludeFiles
    requires i < |Split(config.excludeFiles, Comma)|
    requires TrimSpace(Split(config.excludeFiles, Comma)[i]) == Basename(filename) != []
    ensures ShouldExcludeFile(regex, filename, config)
  {
    var pieces := Split(config.excludeFiles, Comma);
    var b := Basename(filename);
    assert MatchesPattern(regex, b, TrimSpace(pieces[i]));
    assert PieceMatches(regex, b, pieces[i]);
    assert SomePieceMatches(regex, b, pieces);
  }

  /**
   `*_test.go` holds a '.', so it is not a simple glob: it reaches the
   regular-expression engine unless the candidate is that exact text.
   */
  lemma {:induction false} TestSuffixPatternIsRegex(regex: RegexMatcher, s: string)
    requires s != "*_test.go"
    ensures MatchesPattern(regex, s, "*_test.go") == regex(s, "*_test.go")
  {
    assert "*_test.go"[6] in RegexMetachars;
  }

  /**
   Go's `regexp.Compile` refuses a pattern that opens with `*`, a
   repetition with nothing to repeat, and a pattern that does not compile
   matches nothing. Such a pattern that also holds a metacharacter, as
   `*_test.go` and `*exclude_test.go` do, is then matched by the candidate
   spelled exactly like it and by nothing else.
   */
  lemma {:induction false} LeadingStarMatchesOnlyItself(regex: RegexMatcher, s: string, p: string)
    requires |p| > 0 && p[0] == Star && ContainsRegexMetachars(p)
    requires forall t :: !regex(t, p)
    ensures MatchesPattern(regex, s, p) <==> s == p
  {
  }
}

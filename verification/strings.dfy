/**
 The few operations of Go's `strings` package the analyzer relies on,
 over strings as sequences of Unicode scalar values.
 */
module Strings {

  /** `strings.HasSuffix`. */
  predicate HasSuffix(s: string, suffix: string) {
    |suffix| <= |s| && s[|s| - |suffix|..] == suffix
  }

  /** `strings.HasPrefix`. */
  predicate HasPrefix(s: string, prefix: string) {
    prefix <= s
  }

  /** `sub` occurs in `s` starting at position `i`. */
  ghost predicate OccursAt(sub: string, s: string, i: int) {
    0 <= i <= |s| - |sub| && s[i..i + |sub|] == sub
  }

  /** `sub` occurs somewhere in `s` as a contiguous slice. */
  ghost predicate Occurs(sub: string, s: string) {
    exists i :: OccursAt(sub, s, i)
  }

  /** `strings.Contains`: a scan over every start position of `s`. */
  function Contains(s: string, sub: string): (r: bool)
    ensures r <==> Occurs(sub, s)
    decreases |s|
  {
    OccursFirstOrLater(sub, s);
    if sub <= s then true
    else if |s| == 0 then false
    else Contains(s[1..], sub)
  }

  /** An occurrence starts at the front or in the rest of the string. */
  lemma {:induction false} OccursFirstOrLater(sub: string, s: string)
    ensures Occurs(sub, s) <==> sub <= s || (|s| > 0 && Occurs(sub, s[1..]))
  {
    if sub <= s {
      assert OccursAt(sub, s, 0);
    }
    if |s| > 0 && Occurs(sub, s[1..]) {
      var i :| OccursAt(sub, s[1..], i);
      assert s[i + 1..i + 1 + |sub|] == s[1..][i..i + |sub|];
      assert OccursAt(sub, s, i + 1);
    }
    if Occurs(sub, s) {
      var i :| OccursAt(sub, s, i);
      if i > 0 {
        assert s[1..][i - 1..i - 1 + |sub|] == s[i..i + |sub|];
        assert OccursAt(sub, s[1..], i - 1);
      }
    }
  }

  /** `strings.ContainsAny`, with the character list given as a set. */
  predicate ContainsAny(s: string, chars: set<char>) {
    exists i :: 0 <= i < |s| && s[i] in chars
  }

  /** `strings.LastIndex` for a one-character separator: -1 when absent. */
  function LastIndex(s: string, c: char): (r: int)
    ensures -1 <= r < |s|
    ensures r == -1 <==> c !in s
    ensures r >= 0 ==> s[r] == c && c !in s[r + 1..]
    decreases |s|
  {
    if |s| == 0 then -1
    else if s[|s| - 1] == c then
      assert s[|s| - 1 + 1..] == [];
      |s| - 1
    else
      var r := LastIndex(s[..|s| - 1], c);
      LastIndexBefore(s, s[..|s| - 1], c, r);
      r
  }

  /** The last `c` of `s`, when `s` does not end with `c`, is the last `c` of the rest. */
  lemma {:induction false} LastIndexBefore(s: string, init: string, c: char, r: int)
    requires |s| > 0 && init == s[..|s| - 1] && s[|s| - 1] != c
    requires -1 <= r < |init|
    requires r == -1 <==> c !in init
    requires r >= 0 ==> init[r] == c && c !in init[r + 1..]
    ensures r == -1 <==> c !in s
    ensures r >= 0 ==> s[r] == c && c !in s[r + 1..]
  {
    assert s == init + [s[|s| - 1]];
    if r >= 0 {
      assert s[r + 1..] == init[r + 1..] + [s[|s| - 1]];
    }
  }

  /** `r` is the longest suffix of `s` without `c`: all of `s`, or what follows a `c`. */
  predicate CutAfter(s: string, c: char, r: string) {
    && |r| <= |s|
    && c !in r
    && r == s[|s| - |r|..]
    && (|r| < |s| ==> s[|s| - |r| - 1] == c)
  }

  /** The part of `s` after the last occurrence of `c`, or all of `s`. */
  function AfterLast(s: string, c: char): (r: string)
    ensures CutAfter(s, c, r)
  {
    var k := LastIndex(s, c);
    s[k + 1..]
  }

  /** First position of `c` in `s`. */
  function IndexOf(s: string, c: char): (r: nat)
    requires c in s
    ensures r < |s| && s[r] == c && c !in s[..r]
  {
    if s[0] == c then 0
    else
      assert c in s[1..];
      var r := IndexOf(s[1..], c);
      assert s[..r + 1] == [s[0]] + s[1..][..r];
      r + 1
  }

  /** The inverse of `Split`: the pieces with `sep` placed between them. */
  function Join(pieces: seq<string>, sep: char): string
    requires |pieces| >= 1
  {
    if |pieces| == 1 then pieces[0]
    else pieces[0] + [sep] + Join(pieces[1..], sep)
  }

  /**
   `strings.Split` with a one-character separator: one more piece than
   there are separators, none of which contains the separator, and
   joining them again gives back the input.
   */
  function Split(s: string, sep: char): (r: seq<string>)
    ensures |r| >= 1
    ensures forall i :: 0 <= i < |r| ==> sep !in r[i]
    ensures Join(r, sep) == s
    decreases |s|
  {
    if sep !in s then [s]
    else
      var k := IndexOf(s, sep);
      assert s == s[..k] + [sep] + s[k + 1..];
      [s[..k]] + Split(s[k + 1..], sep)
  }

  /** Splitting a joined list of separator-free pieces gives them back. */
  lemma {:induction false} SplitJoin(pieces: seq<string>, sep: char)
    requires |pieces| >= 1
    requires forall i :: 0 <= i < |pieces| ==> sep !in pieces[i]
    ensures Split(Join(pieces, sep), sep) == pieces
    decreases |pieces|
  {
    if |pieces| > 1 {
      var s := Join(pieces, sep);
      var rest := Join(pieces[1..], sep);
      assert s == pieces[0] + [sep] + rest;
      assert s[|pieces[0]|] == sep;
      assert s[..|pieces[0]|] == pieces[0];
      assert IndexOf(s, sep) == |pieces[0]|;
      assert s[|pieces[0]| + 1..] == rest;
      SplitJoin(pieces[1..], sep);
      assert Split(s, sep) == [pieces[0]] + Split(rest, sep);
    }
  }

  /** Appending `sep + tail` (tail free of `sep`) adds exactly one piece. */
  lemma {:induction false} SplitAppend(s: string, sep: char, tail: string)
    requires sep !in tail
    ensures Split(s + [sep] + tail, sep) == Split(s, sep) + [tail]
  {
    var pieces := Split(s, sep) + [tail];
    forall i | 0 <= i < |pieces|
      ensures sep !in pieces[i]
    {
      if i < |pieces| - 1 {
        assert pieces[i] == Split(s, sep)[i];
      }
    }
    JoinSnoc(Split(s, sep), sep, tail);
    SplitJoin(pieces, sep);
  }

  lemma {:induction false} JoinSnoc(pieces: seq<string>, sep: char, tail: string)
    requires |pieces| >= 1
    ensures Join(pieces + [tail], sep) == Join(pieces, sep) + [sep] + tail
    decreases |pieces|
  {
    if |pieces| > 1 {
      assert (pieces + [tail])[1..] == pieces[1..] + [tail];
      JoinSnoc(pieces[1..], sep, tail);
    }
  }

  /**
   White space as Go's `unicode.IsSpace` defines it: within Latin-1 the
   controls tab to carriage return, space, U+0085 and U+00A0; beyond it
   the remaining ranges of the Unicode White_Space property.
   */
  predicate IsSpace(c: char) {
    if c <= '\U{00FF}' then
      ('\t' <= c <= '\r') || c == ' ' || c == '\U{0085}' || c == '\U{00A0}'
    else
      || c == '\U{1680}'
      || ('\U{2000}' <= c <= '\U{200A}')
      || c == '\U{2028}' || c == '\U{2029}' || c == '\U{202F}' || c == '\U{205F}'
      || c == '\U{3000}'
  }

  /** Every character of `s` is white space. */
  predicate AllSpace(s: string) {
    forall i :: 0 <= i < |s| ==> IsSpace(s[i])
  }

  /** `r` is a slice of `s` with nothing but white space on either side. */
  ghost predicate Framed(s: string, r: string) {
    exists a :: 0 <= a <= |s| - |r| && r == s[a..a + |r|] && AllSpace(s[..a]) && AllSpace(s[a + |r|..])
  }

  /** `r` is what is left of `s` once its leading white space is dropped. */
  predicate LeftTrimmed(s: string, r: string) {
    && |r| <= |s|
    && r == s[|s| - |r|..]
    && AllSpace(s[..|s| - |r|])
    && (|r| > 0 ==> !IsSpace(r[0]))
  }

  /** Drops leading white space. */
  function TrimLeft(s: string): (r: string)
    ensures LeftTrimmed(s, r)
    decreases |s|
  {
    if |s| > 0 && IsSpace(s[0]) then
      var r := TrimLeft(s[1..]);
      TrimLeftStep(s, s[1..], r);
      r
    else
      assert s[..0] == [];
      s
  }

  /** Leading white space of the rest, after one white-space character, is leading white space. */
  lemma {:induction false} TrimLeftStep(s: string, rest: string, r: string)
    requires |s| > 0 && IsSpace(s[0]) && rest == s[1..]
    requires LeftTrimmed(rest, r)
    ensures LeftTrimmed(s, r)
  {
    assert s[..|s| - |r|] == [s[0]] + rest[..|rest| - |r|];
  }

  /** Drops trailing white space. */
  function TrimRight(s: string): (r: string)
    ensures |r| <= |s|
    ensures r == s[..|r|]
    ensures AllSpace(s[|r|..])
    ensures |r| > 0 ==> !IsSpace(r[|r| - 1])
    decreases |s|
  {
    if |s| > 0 && IsSpace(s[|s| - 1]) then
      var r := TrimRight(s[..|s| - 1]);
      assert s[|r|..] == s[..|s| - 1][|r|..] + [s[|s| - 1]];
      r
    else s
  }

  /**
   `strings.TrimSpace`: the slice of `s` left after removing white space
   on both ends. The result neither starts nor ends with white space,
   and everything removed was white space.
   */
  function TrimSpace(s: string): (r: string)
    ensures |r| <= |s|
    ensures Framed(s, r)
    ensures |r| > 0 ==> !IsSpace(r[0]) && !IsSpace(r[|r| - 1])
    ensures r == [] <==> AllSpace(s)
  {
    var left := TrimLeft(s);
    var r := TrimRight(left);
    TrimBoth(s, left, r);
    r
  }

  /** What trimming the front and then the back of `s` leaves. */
  lemma {:induction false} TrimBoth(s: string, left: string, r: string)
    requires |left| <= |s| && left == s[|s| - |left|..] && AllSpace(s[..|s| - |left|])
    requires |left| > 0 ==> !IsSpace(left[0])
    requires |r| <= |left| && r == left[..|r|] && AllSpace(left[|r|..])
    requires |r| > 0 ==> !IsSpace(r[|r| - 1])
    ensures Framed(s, r)
    ensures |r| > 0 ==> !IsSpace(r[0]) && !IsSpace(r[|r| - 1])
    ensures r == [] <==> AllSpace(s)
  {
    var a := |s| - |left|;
    TrimmedSlice(s, left, r, a);
    if |r| > 0 {
      assert r[0] == left[0] == s[a];
    } else {
      assert left == left[|r|..];
      assert |left| == 0;
      assert s == s[..a];
    }
  }

  /** Trimming both ends leaves a slice framed by white space. */
  lemma {:induction false} TrimmedSlice(s: string, left: string, r: string, a: nat)
    requires a <= |s| && left == s[a..] && AllSpace(s[..a])
    requires |r| <= |left| && r == left[..|r|] && AllSpace(left[|r|..])
    ensures Framed(s, r)
  {
    assert s[a + |r|..] == left[|r|..];
    assert r == s[a..a + |r|];
  }

  /** A string that neither starts nor ends with white space is left as it is. */
  lemma {:induction false} TrimSpaceKeeps(s: string)
    requires s != [] ==> !IsSpace(s[0]) && !IsSpace(s[|s| - 1])
    ensures TrimSpace(s) == s
  {
    assert TrimLeft(s) == s;
  }

  /** Trimming twice trims nothing more. */
  lemma {:induction false} TrimSpaceIdempotent(s: string)
    ensures TrimSpace(TrimSpace(s)) == TrimSpace(s)
  {
    TrimSpaceKeeps(TrimSpace(s));
  }
}

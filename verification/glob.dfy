/**
 The glob branch of the pattern matcher. The analyzer turns a pattern whose
 only metacharacter is `*` into the regular expression `^…$`, with every
 other character quoted and every `*` replaced by `.*`. Go's `.` does not
 match a newline unless the `s` flag is set, so each `*` stands for any
 run of characters other than '\n'.
 */
module Glob {
  import opened Strings

  const Star: char := '*'
  const Newline: char := '\n'

  /** Whole-string match of `s` against the glob `p`. */
  predicate GlobMatch(s: string, p: string)
    decreases |s| + |p|
  {
    if |p| == 0 then |s| == 0
    else if p[0] == Star then
      GlobMatch(s, p[1..]) || (|s| > 0 && s[0] != Newline && GlobMatch(s[1..], p))
    else
      |s| > 0 && s[0] == p[0] && GlobMatch(s[1..], p[1..])
  }

  /** The literal pieces interleaved with the strings chosen for the stars. */
  function Interleave(pieces: seq<string>, fills: seq<string>): string
    requires |pieces| == |fills| + 1
    decreases |fills|
  {
    if |fills| == 0 then pieces[0]
    else pieces[0] + fills[0] + Interleave(pieces[1..], fills[1..])
  }

  /** A choice of newline-free strings, one per star. */
  ghost predicate ValidFills(pieces: seq<string>, fills: seq<string>) {
    && |pieces| == |fills| + 1
    && forall k :: 0 <= k < |fills| ==> Newline !in fills[k]
  }

  /**
   The language of a glob, stated without `GlobMatch`: split the pattern at
   its stars; a string belongs to it when it is the literal pieces in
   order with a newline-free string in place of each star.
   */
  ghost predicate InLanguage(s: string, p: string) {
    exists fills :: ValidFills(Split(p, Star), fills) && s == Interleave(Split(p, Star), fills)
  }

  /** Matching the glob and belonging to its language coincide. */
  lemma {:induction false} GlobMatchIsLanguage(s: string, p: string)
    ensures GlobMatch(s, p) <==> InLanguage(s, p)
  {
    var pieces := Split(p, Star);
    if GlobMatch(s, p) {
      var fills := Complete(s, pieces);
    }
    if InLanguage(s, p) {
      var fills :| ValidFills(pieces, fills) && s == Interleave(pieces, fills);
      Sound(pieces, fills);
    }
  }

  /** A pattern without stars matches exactly itself: every character but `*` is quoted. */
  lemma {:induction false} LiteralOnly(s: string, w: string)
    requires Star !in w
    ensures GlobMatch(s, w) <==> s == w
    decreases |w|
  {
    if |w| > 0 {
      if |s| > 0 {
        LiteralOnly(s[1..], w[1..]);
        if s[0] == w[0] && s[1..] == w[1..] {
          assert s == [s[0]] + s[1..];
          assert w == [w[0]] + w[1..];
        }
      }
    }
  }

  /** A star-free prefix of the pattern consumes the same prefix of the string. */
  lemma {:induction false} LiteralPrefix(w: string, t: string, q: string)
    requires Star !in w
    ensures GlobMatch(w + t, w + q) <==> GlobMatch(t, q)
    decreases |w|
  {
    if |w| == 0 {
      assert w + t == t && w + q == q;
    } else {
      assert (w + t)[1..] == w[1..] + t;
      assert (w + q)[1..] == w[1..] + q;
      LiteralPrefix(w[1..], t, q);
    }
  }

  /** The converse direction: a match of `w + q` starts with `w`. */
  lemma {:induction false} LiteralPrefixInv(s: string, w: string, q: string)
    requires Star !in w
    requires GlobMatch(s, w + q)
    ensures w <= s && GlobMatch(s[|w|..], q)
    decreases |w|
  {
    if |w| == 0 {
      assert w + q == q && s[|w|..] == s;
    } else {
      assert (w + q)[1..] == w[1..] + q;
      assert (w + q)[0] == w[0] != Star;
      LiteralPrefixInv(s[1..], w[1..], q);
      assert s[|w|..] == s[1..][|w| - 1..];
    }
  }

  /** A leading star absorbs any newline-free prefix. */
  lemma {:induction false} StarAbsorb(f: string, t: string, q: string)
    requires Newline !in f
    requires GlobMatch(t, q)
    ensures GlobMatch(f + t, [Star] + q)
    decreases |f|
  {
    assert ([Star] + q)[1..] == q;
    if |f| == 0 {
      assert f + t == t;
    } else {
      StarAbsorb(f[1..], t, q);
      assert (f + t)[1..] == f[1..] + t;
    }
  }

  /** A match of `*q` splits into a newline-free prefix and a match of `q`. */
  lemma {:induction false} StarSplit(t: string, q: string) returns (k: nat)
    requires GlobMatch(t, [Star] + q)
    ensures k <= |t| && Newline !in t[..k] && GlobMatch(t[k..], q)
    decreases |t|
  {
    assert ([Star] + q)[1..] == q;
    if GlobMatch(t, q) {
      k := 0;
    } else {
      var k' := StarSplit(t[1..], q);
      k := k' + 1;
      assert t[..k] == [t[0]] + t[1..][..k'];
      assert t[k..] == t[1..][k'..];
    }
  }

  /** Every interleaving of star-free pieces with valid fills matches. */
  lemma {:induction false} Sound(pieces: seq<string>, fills: seq<string>)
    requires ValidFills(pieces, fills)
    requires forall i :: 0 <= i < |pieces| ==> Star !in pieces[i]
    ensures GlobMatch(Interleave(pieces, fills), Join(pieces, Star))
    decreases |fills|
  {
    var w := pieces[0];
    if |fills| == 0 {
      LiteralOnly(w, w);
      assert Interleave(pieces, fills) == w && Join(pieces, Star) == w;
    } else {
      var rest := Interleave(pieces[1..], fills[1..]);
      var restP := Join(pieces[1..], Star);
      assert GlobMatch(w + (fills[0] + rest), w + ([Star] + restP)) by {
        Sound(pieces[1..], fills[1..]);
        StarAbsorb(fills[0], rest, restP);
        LiteralPrefix(w, fills[0] + rest, [Star] + restP);
      }
      assert Interleave(pieces, fills) == w + (fills[0] + rest);
      assert Join(pieces, Star) == w + ([Star] + restP);
    }
  }

  /** Every match of the joined pieces is such an interleaving. */
  lemma {:induction false} Complete(s: string, pieces: seq<string>) returns (fills: seq<string>)
    requires |pieces| >= 1
    requires forall i :: 0 <= i < |pieces| ==> Star !in pieces[i]
    requires GlobMatch(s, Join(pieces, Star))
    ensures ValidFills(pieces, fills) && s == Interleave(pieces, fills)
    decreases |pieces|
  {
    var w := pieces[0];
    if |pieces| == 1 {
      fills := [];
      assert Join(pieces, Star) == w;
      LiteralOnly(s, w);
    } else {
      var restP := Join(pieces[1..], Star);
      assert w <= s && GlobMatch(s[|w|..], [Star] + restP) by {
        assert Join(pieces, Star) == w + ([Star] + restP);
        LiteralPrefixInv(s, w, [Star] + restP);
      }
      var t := s[|w|..];
      var k := StarSplit(t, restP);
      var fills' := Complete(t[k..], pieces[1..]);
      fills := [t[..k]] + fills';
      assert fills[1..] == fills' && fills[0] == t[..k];
      assert ValidFills(pieces, fills) by {
        assert forall j :: 1 <= j < |fills| ==> fills[j] == fills'[j - 1];
      }
      assert s == Interleave(pieces, fills) by {
        assert s == w + (t[..k] + t[k..]);
        assert Interleave(pieces, fills) == w + t[..k] + Interleave(pieces[1..], fills');
      }
    }
  }

  /** Every pattern matches itself: a star may stand for the star character. */
  lemma {:induction false} SelfMatch(p: string)
    ensures GlobMatch(p, p)
    decreases |p|
  {
    if |p| > 0 {
      SelfMatch(p[1..]);
      if p[0] == Star {
        assert GlobMatch(p[1..], p[1..]);
        assert GlobMatch(p[1..], p);
      }
    }
  }

  /** The lone star matches exactly the strings without a newline. */
  lemma {:induction false} StarAlone(s: string)
    ensures GlobMatch(s, [Star]) <==> Newline !in s
    decreases |s|
  {
    assert [Star][1..] == [];
    if |s| > 0 {
      StarAlone(s[1..]);
      assert s == [s[0]] + s[1..];
    }
  }
}

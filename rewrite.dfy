/**
 * The identifier rewrite applied to a group expression before it is compiled:
 * `expression.replace(/(\w+)/g, m => 'g.' + m)`. Every maximal run of `\w`
 * characters (the CharacterClassEscape `\w` of ECMA-262 section 22.2, that is
 * `[A-Za-z0-9_]`) is replaced by the same run prefixed with `g.`.
 */
module Rewriting {

  /** The characters matched by the regular-expression escape `\w`. */
  predicate IsWordChar(c: char) {
    ('a' <= c <= 'z') || ('A' <= c <= 'Z') || ('0' <= c <= '9') || c == '_'
  }

  predicate IsDigit(c: char) {
    '0' <= c <= '9'
  }

  predicate AllWordChars(s: string) {
    forall i :: 0 <= i < |s| ==> IsWordChar(s[i])
  }

  /**
   * The rewrite as a scan: `g.` goes in front of every character that starts a
   * run of word characters, that is a word character whose predecessor is not
   * one. `afterWord` says whether the character before `s` was a word
   * character.
   */
  function RewriteFrom(s: string, afterWord: bool): string
  {
    if s == [] then []
    else (if IsWordChar(s[0]) && !afterWord then "g." else "") + [s[0]] + RewriteFrom(s[1..], IsWordChar(s[0]))
  }

  function Rewrite(s: string): string {
    RewriteFrom(s, false)
  }

  /** Whether the text read so far ends in a word character. */
  function EndsInWord(s: string, afterWord: bool): bool {
    if s == [] then afterWord else IsWordChar(s[|s| - 1])
  }

  /** Length of the maximal run of word characters at the start of `s`. */
  function WordPrefixLength(s: string): (n: nat)
    ensures n <= |s|
    ensures AllWordChars(s[..n])
    ensures n < |s| ==> !IsWordChar(s[n])
  {
    if s == [] || !IsWordChar(s[0]) then 0 else 1 + WordPrefixLength(s[1..])
  }

  /**
   * The global replace as the regular-expression engine performs it: `\w+`
   * is greedy, so each match is a maximal run; the search resumes right after
   * the match, and characters between matches are copied.
   */
  function ReplaceRuns(s: string): string
    decreases |s|
  {
    if s == [] then []
    else if IsWordChar(s[0]) then
      var n := WordPrefixLength(s);
      "g." + s[..n] + ReplaceRuns(s[n..])
    else [s[0]] + ReplaceRuns(s[1..])
  }

  /**
   * Deletes every `g.` that starts a run of word characters and is followed
   * by a word character: in rewritten text these are exactly the inserted
   * prefixes.
   */
  function Unrewrite(t: string, afterWord: bool): string
  {
    if t == [] then []
    else if !afterWord && |t| >= 3 && t[0] == 'g' && t[1] == '.' && IsWordChar(t[2]) then
      [t[2]] + Unrewrite(t[3..], true)
    else [t[0]] + Unrewrite(t[1..], IsWordChar(t[0]))
  }

  /** Number of maximal runs of word characters in `s`, counted run by run. */
  function RunCount(s: string): nat
    decreases |s|
  {
    if s == [] then 0
    else if IsWordChar(s[0]) then 1 + RunCount(s[WordPrefixLength(s)..])
    else RunCount(s[1..])
  }

  // ---------------------------------------------------------------------
  // Properties of the rewrite.

  /** Deleting the inserted prefixes gives back the original expression. */
  lemma {:induction false} UnrewriteRewrite(s: string, afterWord: bool)
    ensures Unrewrite(RewriteFrom(s, afterWord), afterWord) == s
    decreases |s|
  {
    if s != [] {
      var c := s[0];
      var tail := RewriteFrom(s[1..], IsWordChar(c));
      UnrewriteRewrite(s[1..], IsWordChar(c));
      if IsWordChar(c) && !afterWord {
        var t := "g." + [c] + tail;
        assert t[0] == 'g' && t[1] == '.' && t[2] == c && t[3..] == tail;
      } else {
        assert RewriteFrom(s, afterWord) == [c] + tail;
        assert ([c] + tail)[1..] == tail;
      }
      assert [c] + s[1..] == s;
    }
  }

  /** The scan can be run piece by piece, carrying whether a run is open. */
  lemma {:induction false} RewriteConcat(a: string, b: string, afterWord: bool)
    ensures RewriteFrom(a + b, afterWord) == RewriteFrom(a, afterWord) + RewriteFrom(b, EndsInWord(a, afterWord))
    decreases |a|
  {
    if a == [] {
      assert a + b == b;
    } else {
      var c := a[0];
      assert (a + b)[0] == c && (a + b)[1..] == a[1..] + b;
      RewriteConcat(a[1..], b, IsWordChar(c));
      assert EndsInWord(a[1..], IsWordChar(c)) == EndsInWord(a, afterWord);
    }
  }

  /** Inside an open run, word characters are copied without a prefix. */
  lemma {:induction false} RewriteInsideRun(w: string)
    requires AllWordChars(w)
    ensures RewriteFrom(w, true) == w
    decreases |w|
  {
    if w != [] {
      assert AllWordChars(w[1..]) by {
        forall i | 0 <= i < |w[1..]| ensures IsWordChar(w[1..][i]) { assert w[1..][i] == w[i + 1]; }
      }
      RewriteInsideRun(w[1..]);
      assert [w[0]] + w[1..] == w;
    }
  }

  /** A non-word character closes any open run, so the flag no longer matters. */
  lemma RewriteAfterNonWord(s: string, afterWord: bool)
    requires s != [] && !IsWordChar(s[0])
    ensures RewriteFrom(s, afterWord) == RewriteFrom(s, false)
  {
  }

  /** A whole word becomes a single `g.` member access. */
  lemma RewriteWord(w: string)
    requires w != [] && AllWordChars(w)
    ensures Rewrite(w) == "g." + w
  {
    assert w == [w[0]] + w[1..];
    assert AllWordChars(w[1..]) by {
      forall i | 0 <= i < |w[1..]| ensures IsWordChar(w[1..][i]) { assert w[1..][i] == w[i + 1]; }
    }
    RewriteInsideRun(w[1..]);
  }

  /** The scan does what the greedy global replace does. */
  lemma {:induction false} RewriteIsReplace(s: string)
    ensures Rewrite(s) == ReplaceRuns(s)
    decreases |s|
  {
    if s != [] && IsWordChar(s[0]) {
      var n := WordPrefixLength(s);
      var w, rest := s[..n], s[n..];
      assert s == w + rest;
      RewriteConcat(w, rest, false);
      RewriteWord(w);
      assert EndsInWord(w, false);
      if rest != [] {
        RewriteAfterNonWord(rest, true);
      }
      RewriteIsReplace(rest);
    } else if s != [] {
      RewriteIsReplace(s[1..]);
    }
  }

  /** Each run gains the two characters of `g.`; nothing else is added or removed. */
  lemma {:induction false} RewriteLength(s: string)
    ensures |Rewrite(s)| == |s| + 2 * RunCount(s)
    decreases |s|
  {
    if s != [] && IsWordChar(s[0]) {
      var n := WordPrefixLength(s);
      var w, rest := s[..n], s[n..];
      assert s == w + rest;
      RewriteConcat(w, rest, false);
      RewriteWord(w);
      assert EndsInWord(w, false);
      if rest != [] {
        RewriteAfterNonWord(rest, true);
      }
      RewriteLength(rest);
    } else if s != [] {
      RewriteLength(s[1..]);
    }
  }

  /** Text without word characters is left unchanged. */
  lemma {:induction false} RewriteNoWords(s: string, afterWord: bool)
    requires forall i :: 0 <= i < |s| ==> !IsWordChar(s[i])
    ensures RewriteFrom(s, afterWord) == s
    decreases |s|
  {
    if s != [] {
      RewriteNoWords(s[1..], false);
      assert [s[0]] + s[1..] == s;
    }
  }

  /** The leading run of `w + rest` is `w` when `rest` does not continue it. */
  lemma WordPrefixOfConcat(w: string, rest: string)
    requires AllWordChars(w)
    requires rest == [] || !IsWordChar(rest[0])
    ensures WordPrefixLength(w + rest) == |w|
  {
    var t := w + rest;
    var n := WordPrefixLength(t);
    assert forall i :: 0 <= i < |w| ==> t[i] == w[i];
    assert |w| < |t| ==> t[|w|] == rest[0];
    assert forall i :: 0 <= i < n ==> t[..n][i] == t[i];
  }

  /** A separator without word characters is copied and closes any open run. */
  lemma RewriteSeparator(sep: string, s: string, afterWord: bool)
    requires sep != [] && forall i :: 0 <= i < |sep| ==> !IsWordChar(sep[i])
    ensures RewriteFrom(sep + s, afterWord) == sep + RewriteFrom(s, false)
  {
    RewriteConcat(sep, s, afterWord);
    RewriteNoWords(sep, afterWord);
  }
}

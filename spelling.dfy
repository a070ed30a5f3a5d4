/**
 * Different spellings of one expression: the compiler does not care about
 * blanks around operators, around the whole text, or about a redundant pair
 * of parentheses; and a word that starts with a digit, which the rewrite
 * turns into `g.` followed by a number, never compiles.
 */
module Spelling {
  import opened Wrappers
  import opened Rewriting
  import opened Syntax
  import opened Printer

  // ---------------------------------------------------------------------
  // What follows a complete parse does not disturb it, unless it continues
  // an operator chain.

  /** Tokens that cannot extend a `&&` or `||` chain. */
  predicate EndsChain(s: seq<Token>) {
    s == [] || (s[0] != AndAnd && s[0] != OrOr)
  }

  lemma {:induction false} OrSuffix(t: seq<Token>, s: seq<Token>)
    requires ParseOr(t).Some? && EndsChain(s)
    ensures ParseOr(t + s) == Some(Parsed(ParseOr(t).value.e, ParseOr(t).value.rest + s))
    decreases |t|, 3
  {
    var p := ParseAnd(t).value;
    AndSuffix(t, s);
    OrTailSuffix(p.e, p.rest, s);
  }

  lemma {:induction false} OrTailSuffix(left: Expr, t: seq<Token>, s: seq<Token>)
    requires OrTail(left, t).Some? && EndsChain(s)
    ensures OrTail(left, t + s) == Some(Parsed(OrTail(left, t).value.e, OrTail(left, t).value.rest + s))
    decreases |t|, 0
  {
    if t == [] {
      assert t + s == s;
    } else if t[0] == OrOr {
      assert (t + s)[1..] == t[1..] + s;
      var p := ParseAnd(t[1..]).value;
      AndSuffix(t[1..], s);
      OrTailSuffix(Or(left, p.e), p.rest, s);
    }
  }

  lemma {:induction false} AndSuffix(t: seq<Token>, s: seq<Token>)
    requires ParseAnd(t).Some? && EndsChain(s)
    ensures ParseAnd(t + s) == Some(Parsed(ParseAnd(t).value.e, ParseAnd(t).value.rest + s))
    decreases |t|, 2
  {
    var p := ParseUnary(t).value;
    UnarySuffix(t, s);
    AndTailSuffix(p.e, p.rest, s);
  }

  lemma {:induction false} AndTailSuffix(left: Expr, t: seq<Token>, s: seq<Token>)
    requires AndTail(left, t).Some? && EndsChain(s)
    ensures AndTail(left, t + s) == Some(Parsed(AndTail(left, t).value.e, AndTail(left, t).value.rest + s))
    decreases |t|, 0
  {
    if t == [] {
      assert t + s == s;
    } else if t[0] == AndAnd {
      assert (t + s)[1..] == t[1..] + s;
      var p := ParseUnary(t[1..]).value;
      UnarySuffix(t[1..], s);
      AndTailSuffix(And(left, p.e), p.rest, s);
    }
  }

  lemma {:induction false} UnarySuffix(t: seq<Token>, s: seq<Token>)
    requires ParseUnary(t).Some? && EndsChain(s)
    ensures ParseUnary(t + s) == Some(Parsed(ParseUnary(t).value.e, ParseUnary(t).value.rest + s))
    decreases |t|, 1
  {
    assert (t + s)[1..] == t[1..] + s;
    if t[0] == Bang {
      UnarySuffix(t[1..], s);
    } else {
      PrimarySuffix(t, s);
    }
  }

  lemma {:induction false} PrimarySuffix(t: seq<Token>, s: seq<Token>)
    requires ParsePrimary(t).Some? && EndsChain(s)
    ensures ParsePrimary(t + s) == Some(Parsed(ParsePrimary(t).value.e, ParsePrimary(t).value.rest + s))
    decreases |t|, 0
  {
    assert (t + s)[1..] == t[1..] + s;
    if t[0] == LParen {
      var p := ParseOr(t[1..]).value;
      OrSuffix(t[1..], s);
      assert (p.rest + s)[1..] == p.rest[1..] + s;
    }
  }

  // ---------------------------------------------------------------------
  // Lexing splits at any point where no token can straddle the cut.

  predicate AllBlank(b: string) {
    forall i :: 0 <= i < |b| ==> IsBlank(b[i])
  }

  /**
   * Text that lexes can be followed by any text without changing its tokens,
   * provided the cut does not fall inside a word.
   */
  lemma {:induction false} LexJoin(s: string, u: string)
    requires Lex(s).Some?
    requires s == [] || u == [] || !IsWordChar(u[0]) || !IsWordChar(s[|s| - 1])
    ensures Lex(s + u) == Prepend(Lex(s).value, Lex(u))
    decreases |s|
  {
    if s == [] {
      assert s + u == u;
      assert Lex(s) == Some([]);
      PrependNothing(Lex(u));
    } else {
      var k, head := LexHead(s, u);
      LexJoin(s[k..], u);
      PrependAssoc(head, Lex(s[k..]).value, Lex(u));
    }
  }

  lemma PrependNothing(r: Option<seq<Token>>)
    ensures Prepend([], r) == r
  {
    if r.Some? {
      assert [] + r.value == r.value;
    }
  }

  /** The first `k` characters of lexable text give the same tokens whatever follows the text. */
  lemma LexHead(s: string, u: string) returns (k: nat, head: seq<Token>)
    requires s != [] && Lex(s).Some?
    requires u == [] || !IsWordChar(u[0]) || !IsWordChar(s[|s| - 1])
    ensures 1 <= k <= |s|
    ensures Lex(s) == Prepend(head, Lex(s[k..]))
    ensures Lex(s + u) == Prepend(head, Lex(s[k..] + u))
  {
    if IsBlank(s[0]) || s[0] == '(' || s[0] == ')' || s[0] == '!' {
      k, head := LexSingleHead(s, u);
    } else if s[0] == '&' || s[0] == '|' {
      k, head := LexPairHead(s, u);
    } else {
      k, head := LexMemberHead(s, u);
    }
  }

  lemma LexSingleHead(s: string, u: string) returns (k: nat, head: seq<Token>)
    requires s != [] && (IsBlank(s[0]) || s[0] == '(' || s[0] == ')' || s[0] == '!')
    ensures k == 1
    ensures Lex(s) == Prepend(head, Lex(s[k..]))
    ensures Lex(s + u) == Prepend(head, Lex(s[k..] + u))
  {
    var t := s + u;
    assert t[0] == s[0] && t[1..] == s[1..] + u;
    k := 1;
    if IsBlank(s[0]) {
      head := [];
      PrependNothing(Lex(s[1..]));
      PrependNothing(Lex(s[1..] + u));
    } else if s[0] == '(' {
      head := [LParen];
    } else if s[0] == ')' {
      head := [RParen];
    } else {
      head := [Bang];
    }
  }

  lemma LexPairHead(s: string, u: string) returns (k: nat, head: seq<Token>)
    requires |s| >= 2 && s[0] == s[1] && (s[0] == '&' || s[0] == '|')
    ensures k == 2
    ensures Lex(s) == Prepend(head, Lex(s[k..]))
    ensures Lex(s + u) == Prepend(head, Lex(s[k..] + u))
  {
    var t := s + u;
    assert t[0] == s[0] && t[1] == s[1] && t[2..] == s[2..] + u;
    k := 2;
    head := if s[0] == '&' then [AndAnd] else [OrOr];
  }

  lemma LexMemberHead(s: string, u: string) returns (k: nat, head: seq<Token>)
    requires |s| >= 3 && s[0] == 'g' && s[1] == '.' && IsWordChar(s[2]) && !IsDigit(s[2])
    requires u == [] || !IsWordChar(u[0]) || !IsWordChar(s[|s| - 1])
    ensures 1 <= k <= |s|
    ensures Lex(s) == Prepend(head, Lex(s[k..]))
    ensures Lex(s + u) == Prepend(head, Lex(s[k..] + u))
  {
    var n := WordPrefixLength(s[2..]);
    var name, rest := s[2..2 + n], s[2 + n..];
    assert s[2..][..n] == name;
    assert name[0] == s[2];
    assert s == "g." + name + rest;
    assert s + u == "g." + name + (rest + u);
    if rest == [] {
      assert s[2..][..n][n - 1] == s[|s| - 1];
      assert rest + u == u;
    } else {
      assert (rest + u)[0] == rest[0];
    }
    LexMember(name, rest);
    LexMember(name, rest + u);
    k, head := 2 + n, [Member(name)];
  }

  lemma {:induction false} LexSkipsBlanks(b: string, x: string)
    requires AllBlank(b)
    ensures Lex(b + x) == Lex(x)
    decreases |b|
  {
    if b == [] {
      assert b + x == x;
    } else {
      assert (b + x)[0] == b[0] && (b + x)[1..] == b[1..] + x;
      LexSkipsBlanks(b[1..], x);
    }
  }

  // ---------------------------------------------------------------------
  // Spellings of the same expression.

  /** Wrapping a compiled expression in one more pair of parentheses keeps its meaning. */
  lemma ParenthesesKeepMeaning(t: string, e: Expr)
    requires CompileBody(Rewrite(t)) == Some(ReturnValue(e))
    ensures CompileBody(Rewrite("(" + t + ")")) == Some(ReturnValue(e))
  {
    var r := Rewrite(t);
    var ts := Lex(r).value;
    assert Rewrite("(" + t + ")") == "(" + (r + ")") by {
      assert "(" + t + ")" == "(" + (t + ")");
      RewriteSeparator("(", t + ")", false);
      RewriteConcat(t, ")", false);
      RewriteNoWords(")", EndsInWord(t, false));
    }
    assert Lex("(" + (r + ")")) == Some([LParen] + (ts + [RParen])) by {
      assert Lex(")") == Some([RParen]) by {
        assert ")"[1..] == [];
        assert [RParen] + [] == [RParen];
      }
      LexJoin(r, ")");
      var full := "(" + (r + ")");
      assert full[0] == '(' && full[1..] == r + ")";
    }
    WrappedParse(ts, e);
  }

  /** Parenthesised tokens of a complete expression parse to that expression. */
  lemma WrappedParse(ts: seq<Token>, e: Expr)
    requires ParseExpression(ts) == Some(e)
    ensures ParseExpression([LParen] + (ts + [RParen])) == Some(e)
  {
    var toks := [LParen] + (ts + [RParen]);
    assert ParseOr(ts) == Some(Parsed(e, []));
    OrSuffix(ts, [RParen]);
    assert ParseOr(ts).value.rest + [RParen] == [RParen];
    assert ParseOr(ts + [RParen]) == Some(Parsed(e, [RParen]));
    assert toks[1..] == ts + [RParen];
    assert ParsePrimary(toks) == Some(Parsed(e, []));
    assert ParseUnary(toks) == Some(Parsed(e, []));
    assert AndTail(e, []) == Some(Parsed(e, []));
    assert ParseAnd(toks) == Some(Parsed(e, []));
    assert OrTail(e, []) == Some(Parsed(e, []));
    assert ParseOr(toks) == Some(Parsed(e, []));
  }

  /** Blanks before and after text that compiles change nothing. */
  lemma BlanksKeepMeaning(b1: string, t: string, b2: string)
    requires AllBlank(b1) && AllBlank(b2)
    requires CompileBody(Rewrite(t)).Some?
    ensures CompileBody(Rewrite(b1 + t + b2)) == CompileBody(Rewrite(t))
  {
    var r := Rewrite(t);
    assert Rewrite(b1 + t + b2) == b1 + (r + b2) by {
      assert b1 + t + b2 == b1 + (t + b2);
      RewriteConcat(b1, t + b2, false);
      RewriteNoWords(b1, false);
      RewriteConcat(t, b2, false);
      RewriteNoWords(b2, EndsInWord(t, false));
    }
    assert Lex(b1 + (r + b2)) == Lex(r) by {
      LexSkipsBlanks(b1, r + b2);
      LexJoin(r, b2);
      LexSkipsBlanks(b2, []);
      assert b2 + [] == b2;
      assert Lex(b2) == Some([]);
      assert Lex(r).value + [] == Lex(r).value;
    }
  }

  /** Writing `a&&b` or `a && b` (and likewise for `||`) makes no difference. */
  lemma OperatorSpacing(a: string, b: string, op: string, tok: Token)
    requires (op == "&&" && tok == AndAnd) || (op == "||" && tok == OrOr)
    requires Lex(Rewrite(a)).Some?
    ensures CompileBody(Rewrite(a + op + b)) == CompileBody(Rewrite(a + " " + op + " " + b))
  {
    var spaced := " " + op + " ";
    assert a + " " + op + " " + b == a + spaced + b;
    OperatorLexes(a, b, op, tok);
    OperatorLexes(a, b, spaced, tok);
  }

  /** The text around an operator, with or without blanks, lexes to the two sides' tokens around it. */
  lemma OperatorLexes(a: string, b: string, op: string, tok: Token)
    requires (op == "&&" && tok == AndAnd) || (op == "||" && tok == OrOr)
      || (op == " && " && tok == AndAnd) || (op == " || " && tok == OrOr)
    requires Lex(Rewrite(a)).Some?
    ensures Lex(Rewrite(a + op + b)) == Prepend(Lex(Rewrite(a)).value, Prepend([tok], Lex(Rewrite(b))))
  {
    var ra, rb := Rewrite(a), Rewrite(b);
    assert Rewrite(a + op + b) == ra + (op + rb) by {
      assert a + op + b == a + (op + b);
      RewriteConcat(a, op + b, false);
      RewriteSeparator(op, b, EndsInWord(a, false));
    }
    assert Lex(op + rb) == Prepend([tok], Lex(rb)) by {
      if |op| == 2 {
        assert (op + rb)[0] == op[0] && (op + rb)[1] == op[1] && (op + rb)[2..] == rb;
      } else {
        LexOperator(op, tok, rb);
      }
    }
    LexJoin(ra, op + rb);
  }

  /**
   * A word that starts with a digit becomes `g.` followed by a number after
   * the rewrite, which is not a property access: the text does not compile,
   * wherever the word stands after text that lexes.
   */
  lemma DigitWordIsRejected(a: string, d: char, rest: string)
    requires IsDigit(d)
    requires a == [] || !IsWordChar(a[|a| - 1])
    requires Lex(Rewrite(a)).Some?
    ensures CompileBody(Rewrite(a + [d] + rest)) == None
  {
    var ra := Rewrite(a);
    var x := "g." + [d] + RewriteFrom(rest, true);
    assert Rewrite(a + [d] + rest) == ra + x by {
      assert a + [d] + rest == a + ([d] + rest);
      RewriteConcat(a, [d] + rest, false);
      assert ([d] + rest)[0] == d && ([d] + rest)[1..] == rest;
    }
    assert Lex(x) == None by {
      assert x[0] == 'g' && x[1] == '.' && x[2] == d;
    }
    assert ra == [] || !IsWordChar(ra[|ra| - 1]) by {
      RewriteKeepsLastSeparator(a);
    }
    LexJoin(ra, x);
  }

  /** Text that ends outside a word is rewritten into text that ends outside a word. */
  lemma RewriteKeepsLastSeparator(a: string)
    requires a == [] || !IsWordChar(a[|a| - 1])
    ensures var r := Rewrite(a); r == [] || !IsWordChar(r[|r| - 1])
  {
    if a != [] {
      var init, c := a[..|a| - 1], a[|a| - 1];
      assert a == init + [c];
      RewriteConcat(init, [c], false);
      RewriteNoWords([c], EndsInWord(init, false));
    }
  }

  /** The compact spelling `a&&b` compiles to the conjunction of `a` and `b`. */
  lemma CompactConjunction()
    ensures CompileBody(Rewrite("a&&b")) == Some(ReturnValue(And(Var("a"), Var("b"))))
  {
    var e := And(Var("a"), Var("b"));
    assert IsIdentifier("a") && IsIdentifier("b");
    assert Lex(Rewrite("a")).Some? by {
      RewriteWord("a");
      LexMember("a", []);
      assert "g." + "a" + [] == "g.a";
    }
    OperatorSpacing("a", "b", "&&", AndAnd);
    assert "a" + "&&" + "b" == "a&&b";
    assert "a" + " " + "&&" + " " + "b" == OrText(e);
    CompilePrinted(e);
  }
}

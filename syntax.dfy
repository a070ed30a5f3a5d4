/**
 * The boolean subset of the JavaScript that `new Function('g', 'return ' + text)`
 * compiles, where `text` is the rewritten group expression: member accesses
 * `g.name`, `&&`, `||`, `!` and parentheses, with the precedence of ECMA-262
 * (`!` binds tighter than `&&`, which binds tighter than `||`; both binary
 * operators associate to the left). Anything else is a syntax error.
 */
module Syntax {
  import opened Wrappers
  import opened Rewriting

  datatype Token = Member(name: string) | AndAnd | OrOr | Bang | LParen | RParen

  datatype Expr = Var(name: string) | Not(operand: Expr) | And(left: Expr, right: Expr) | Or(left: Expr, right: Expr)

  /** The group names an expression mentions. */
  function Names(e: Expr): set<string> {
    match e
    case Var(n) => {n}
    case Not(x) => Names(x)
    case And(a, b) => Names(a) + Names(b)
    case Or(a, b) => Names(a) + Names(b)
  }

  /** The compiled function body: `return` alone yields `undefined`. */
  datatype Statement = ReturnUndefined | ReturnValue(e: Expr)

  /** A parse of a prefix of the tokens, with the tokens left over. */
  datatype Parsed = Parsed(e: Expr, rest: seq<Token>)

  function Prepend(ts: seq<Token>, r: Option<seq<Token>>): (r': Option<seq<Token>>)
    ensures r'.Some? <==> r.Some?
    ensures r.Some? ==> r'.value == ts + r.value
  {
    match r
    case None => None
    case Some(s) => Some(ts + s)
  }

  /** Separators the lexer skips: the two that an HTTP header value may hold. */
  predicate IsBlank(c: char) {
    c == ' ' || c == '\t'
  }

  /**
   * Splits rewritten text into tokens. A word character may only appear as
   * `g.` followed by a run whose first character is not a digit (after `g.` a
   * digit would start a numeric literal).
   */
  function Lex(t: string): Option<seq<Token>>
    decreases |t|
  {
    if t == [] then Some([])
    else if IsBlank(t[0]) then Lex(t[1..])
    else if t[0] == '(' then Prepend([LParen], Lex(t[1..]))
    else if t[0] == ')' then Prepend([RParen], Lex(t[1..]))
    else if t[0] == '!' then Prepend([Bang], Lex(t[1..]))
    else if |t| >= 2 && t[0] == '&' && t[1] == '&' then Prepend([AndAnd], Lex(t[2..]))
    else if |t| >= 2 && t[0] == '|' && t[1] == '|' then Prepend([OrOr], Lex(t[2..]))
    else if |t| >= 3 && t[0] == 'g' && t[1] == '.' && IsWordChar(t[2]) && !IsDigit(t[2]) then
      var n := WordPrefixLength(t[2..]);
      Prepend([Member(t[2..2 + n])], Lex(t[2 + n..]))
    else None
  }

  // ---------------------------------------------------------------------
  // Recursive descent, one function per precedence level. Each successful
  // parse consumes at least one token, which is what makes the mutual
  // recursion terminate.

  function ParseOr(t: seq<Token>): (r: Option<Parsed>)
    ensures r.Some? ==> |r.value.rest| < |t|
    decreases |t|, 3
  {
    match ParseAnd(t)
    case None => None
    case Some(p) => OrTail(p.e, p.rest)
  }

  function OrTail(left: Expr, t: seq<Token>): (r: Option<Parsed>)
    ensures r.Some? ==> |r.value.rest| <= |t|
    decreases |t|, 0
  {
    if t != [] && t[0] == OrOr then
      match ParseAnd(t[1..])
      case None => None
      case Some(p) => OrTail(Or(left, p.e), p.rest)
    else Some(Parsed(left, t))
  }

  function ParseAnd(t: seq<Token>): (r: Option<Parsed>)
    ensures r.Some? ==> |r.value.rest| < |t|
    decreases |t|, 2
  {
    match ParseUnary(t)
    case None => None
    case Some(p) => AndTail(p.e, p.rest)
  }

  function AndTail(left: Expr, t: seq<Token>): (r: Option<Parsed>)
    ensures r.Some? ==> |r.value.rest| <= |t|
    decreases |t|, 0
  {
    if t != [] && t[0] == AndAnd then
      match ParseUnary(t[1..])
      case None => None
      case Some(p) => AndTail(And(left, p.e), p.rest)
    else Some(Parsed(left, t))
  }

  function ParseUnary(t: seq<Token>): (r: Option<Parsed>)
    ensures r.Some? ==> |r.value.rest| < |t|
    decreases |t|, 1
  {
    if t != [] && t[0] == Bang then
      match ParseUnary(t[1..])
      case None => None
      case Some(p) => Some(Parsed(Not(p.e), p.rest))
    else ParsePrimary(t)
  }

  function ParsePrimary(t: seq<Token>): (r: Option<Parsed>)
    ensures r.Some? ==> |r.value.rest| < |t|
    decreases |t|, 0
  {
    if t == [] then None
    else match t[0]
      case Member(n) => Some(Parsed(Var(n), t[1..]))
      case LParen =>
        (match ParseOr(t[1..])
         case None => None
         case Some(p) =>
           if p.rest != [] && p.rest[0] == RParen then Some(Parsed(p.e, p.rest[1..])) else None)
      case _ => None
  }

  /** The whole token sequence must form one expression. */
  function ParseExpression(t: seq<Token>): Option<Expr> {
    match ParseOr(t)
    case None => None
    case Some(p) => if p.rest == [] then Some(p.e) else None
  }

  /** What `new Function('g', 'return ' + text)` accepts, or None for a SyntaxError. */
  function CompileBody(text: string): Option<Statement> {
    match Lex(text)
    case None => None
    case Some(tokens) =>
      if tokens == [] then Some(ReturnUndefined)
      else
        match ParseExpression(tokens)
        case None => None
        case Some(e) => Some(ReturnValue(e))
  }
}

/**
 * A printer for the expression language, the inverse of the parser: it
 * writes the fewest parentheses the precedence rules allow, so the round
 * trip below pins down precedence and associativity.
 */
module Printer {
  import opened Wrappers
  import opened Rewriting
  import opened Syntax

  // The three printers call one another on the same expression (an `And`
  // printed at the unary level goes through the `||` level in parentheses);
  // the second component of each `decreases` orders those calls.

  function OrTokens(e: Expr): (r: seq<Token>)
    ensures r != []
    decreases e, if e.Or? then 0 else if e.And? then 1 else 2
  {
    match e
    case Or(a, b) => OrTokens(a) + [OrOr] + AndTokens(b)
    case _ => AndTokens(e)
  }

  function AndTokens(e: Expr): (r: seq<Token>)
    ensures r != []
    decreases e, if e.Or? then 2 else if e.And? then 0 else 1
  {
    match e
    case And(a, b) => AndTokens(a) + [AndAnd] + UnaryTokens(b)
    case _ => UnaryTokens(e)
  }

  function UnaryTokens(e: Expr): (r: seq<Token>)
    ensures r != []
    decreases e, if e.Or? then 1 else if e.And? then 2 else 0
  {
    match e
    case Var(n) => [Member(n)]
    case Not(x) => [Bang] + UnaryTokens(x)
    case _ => [LParen] + OrTokens(e) + [RParen]
  }

  /** The same printer producing the text a caller puts in the header. */
  function OrText(e: Expr): string
    decreases e, if e.Or? then 0 else if e.And? then 1 else 2
  {
    match e
    case Or(a, b) => OrText(a) + " || " + AndText(b)
    case _ => AndText(e)
  }

  function AndText(e: Expr): string
    decreases e, if e.Or? then 2 else if e.And? then 0 else 1
  {
    match e
    case And(a, b) => AndText(a) + " && " + UnaryText(b)
    case _ => UnaryText(e)
  }

  function UnaryText(e: Expr): string
    decreases e, if e.Or? then 1 else if e.And? then 2 else 0
  {
    match e
    case Var(n) => n
    case Not(x) => "!" + UnaryText(x)
    case _ => "(" + OrText(e) + ")"
  }

  /** A group name that survives the rewrite as one member access. */
  predicate IsIdentifier(n: string) {
    n != [] && AllWordChars(n) && !IsDigit(n[0])
  }

  /** Every name the expression mentions is an identifier. */
  predicate ValidNames(e: Expr) {
    match e
    case Var(n) => IsIdentifier(n)
    case Not(x) => ValidNames(x)
    case And(a, b) => ValidNames(a) && ValidNames(b)
    case Or(a, b) => ValidNames(a) && ValidNames(b)
  }

  // ---------------------------------------------------------------------
  // Parsing printed tokens gives the expression back.

  lemma {:induction false} ParseUnaryTokens(e: Expr, rest: seq<Token>)
    ensures ParseUnary(UnaryTokens(e) + rest) == Some(Parsed(e, rest))
    decreases e, if e.Or? then 1 else if e.And? then 2 else 0
  {
    match e
    case Var(n) =>
      assert ([Member(n)] + rest)[1..] == rest;
    case Not(x) =>
      ParseUnaryTokens(x, rest);
      assert ([Bang] + UnaryTokens(x) + rest)[1..] == UnaryTokens(x) + rest;
    case _ =>
      var t := [LParen] + OrTokens(e) + [RParen] + rest;
      ParseOrTokens(e, [RParen] + rest);
      assert t[1..] == OrTokens(e) + ([RParen] + rest);
  }

  lemma {:induction false} ParseAndTokens(e: Expr, rest: seq<Token>)
    ensures ParseAnd(AndTokens(e) + rest) == AndTail(e, rest)
    decreases e, if e.Or? then 2 else if e.And? then 0 else 1
  {
    match e
    case And(a, b) =>
      var more := [AndAnd] + UnaryTokens(b) + rest;
      ParseAndTokens(a, more);
      ParseUnaryTokens(b, rest);
      assert AndTokens(e) + rest == AndTokens(a) + more;
      assert more[1..] == UnaryTokens(b) + rest;
    case _ =>
      ParseUnaryTokens(e, rest);
  }

  lemma {:induction false} ParseOrTokens(e: Expr, rest: seq<Token>)
    requires rest == [] || rest[0] != AndAnd
    ensures ParseOr(OrTokens(e) + rest) == OrTail(e, rest)
    decreases e, if e.Or? then 0 else if e.And? then 1 else 2
  {
    match e
    case Or(a, b) =>
      var more := [OrOr] + AndTokens(b) + rest;
      ParseOrTokens(a, more);
      ParseAndTokens(b, rest);
      assert OrTokens(e) + rest == OrTokens(a) + more;
      assert more[1..] == AndTokens(b) + rest;
    case _ =>
      ParseAndTokens(e, rest);
  }

  /** The parser inverts the printer: precedence and left associativity agree. */
  lemma ParsePrintedTokens(e: Expr)
    ensures ParseExpression(OrTokens(e)) == Some(e)
  {
    ParseOrTokens(e, []);
    assert OrTokens(e) + [] == OrTokens(e);
  }

  // ---------------------------------------------------------------------
  // Rewriting and lexing printed text gives the printed tokens.

  predicate ClosesToken(rest: string) {
    rest == [] || rest[0] == ' ' || rest[0] == ')'
  }

  lemma LexMember(n: string, rest: string)
    requires IsIdentifier(n)
    requires rest == [] || !IsWordChar(rest[0])
    ensures Lex("g." + n + rest) == Prepend([Member(n)], Lex(rest))
  {
    var t := "g." + n + rest;
    assert t[2..] == n + rest;
    WordPrefixOfConcat(n, rest);
    assert t[2..2 + |n|] == n;
    assert t[2 + |n|..] == rest;
  }

  lemma LexOperator(op: string, tok: Token, rest: string)
    requires (op == " || " && tok == OrOr) || (op == " && " && tok == AndAnd)
    ensures Lex(op + rest) == Prepend([tok], Lex(rest))
  {
    var t := op + rest;
    var t1 := t[1..];
    var t2 := t1[2..];
    assert t[0] == ' ' && IsBlank(t[0]);
    assert Lex(t) == Lex(t1);
    assert t1[0] == op[1] && t1[1] == op[2];
    assert Lex(t1) == Prepend([tok], Lex(t2));
    assert t2[0] == ' ' && t2[1..] == rest;
    assert Lex(t2) == Lex(rest);
  }

  lemma PrependAssoc(a: seq<Token>, b: seq<Token>, r: Option<seq<Token>>)
    ensures Prepend(a, Prepend(b, r)) == Prepend(a + b, r)
  {
    if r.Some? {
      assert a + (b + r.value) == a + b + r.value;
    }
  }

  lemma {:induction false} LexUnaryText(e: Expr, rest: string)
    requires ValidNames(e) && ClosesToken(rest)
    ensures Lex(Rewrite(UnaryText(e)) + rest) == Prepend(UnaryTokens(e), Lex(rest))
    decreases e, if e.Or? then 1 else if e.And? then 2 else 0
  {
    match e
    case Var(n) =>
      RewriteWord(n);
      LexMember(n, rest);
    case Not(x) =>
      LexUnaryText(x, rest);
      LexNot(x, rest);
    case _ =>
      LexOrText(e, ")" + rest);
      LexParenthesised(e, rest);
  }

  lemma LexNot(x: Expr, rest: string)
    requires Lex(Rewrite(UnaryText(x)) + rest) == Prepend(UnaryTokens(x), Lex(rest))
    ensures Lex(Rewrite(UnaryText(Not(x))) + rest) == Prepend(UnaryTokens(Not(x)), Lex(rest))
  {
    RewriteSeparator("!", UnaryText(x), false);
    var t := "!" + Rewrite(UnaryText(x)) + rest;
    assert t[1..] == Rewrite(UnaryText(x)) + rest;
    PrependAssoc([Bang], UnaryTokens(x), Lex(rest));
  }

  lemma RewriteParenthesised(e: Expr)
    requires e.And? || e.Or?
    ensures Rewrite(UnaryText(e)) == "(" + Rewrite(OrText(e)) + ")"
  {
    var x := OrText(e);
    assert UnaryText(e) == "(" + (x + ")");
    RewriteSeparator("(", x + ")", false);
    RewriteConcat(x, ")", false);
    RewriteNoWords(")", EndsInWord(x, false));
    assert "(" + (Rewrite(x) + ")") == "(" + Rewrite(x) + ")";
  }

  lemma LexParenthesised(e: Expr, rest: string)
    requires e.And? || e.Or?
    requires Lex(Rewrite(OrText(e)) + (")" + rest)) == Prepend(OrTokens(e), Lex(")" + rest))
    ensures Lex(Rewrite(UnaryText(e)) + rest) == Prepend(UnaryTokens(e), Lex(rest))
  {
    var inner := Rewrite(OrText(e));
    RewriteParenthesised(e);
    var t := "(" + inner + ")" + rest;
    assert t[1..] == inner + (")" + rest);
    assert Rewrite(UnaryText(e)) + rest == t;
    assert t[0] == '(';
    assert Lex(t) == Prepend([LParen], Lex(t[1..]));
    assert UnaryTokens(e) == [LParen] + (OrTokens(e) + [RParen]);
    assert (")" + rest)[0] == ')' && (")" + rest)[1..] == rest;
    assert Lex(")" + rest) == Prepend([RParen], Lex(rest));
    PrependAssoc(OrTokens(e), [RParen], Lex(rest));
    PrependAssoc([LParen], OrTokens(e) + [RParen], Lex(rest));
  }

  lemma {:induction false} LexAndText(e: Expr, rest: string)
    requires ValidNames(e) && ClosesToken(rest)
    ensures Lex(Rewrite(AndText(e)) + rest) == Prepend(AndTokens(e), Lex(rest))
    decreases e, if e.Or? then 2 else if e.And? then 0 else 1
  {
    match e
    case And(a, b) =>
      var ra, rb := Rewrite(AndText(a)), Rewrite(UnaryText(b));
      RewriteConcat(AndText(a), " && " + UnaryText(b), false);
      RewriteSeparator(" && ", UnaryText(b), EndsInWord(AndText(a), false));
      assert AndText(e) == AndText(a) + (" && " + UnaryText(b));
      assert Rewrite(AndText(e)) + rest == ra + (" && " + (rb + rest));
      LexAndText(a, " && " + (rb + rest));
      LexOperator(" && ", AndAnd, rb + rest);
      LexUnaryText(b, rest);
      PrependAssoc([AndAnd], UnaryTokens(b), Lex(rest));
      PrependAssoc(AndTokens(a), [AndAnd] + UnaryTokens(b), Lex(rest));
      assert AndTokens(a) + ([AndAnd] + UnaryTokens(b)) == AndTokens(e);
    case _ =>
      LexUnaryText(e, rest);
  }

  lemma {:induction false} LexOrText(e: Expr, rest: string)
    requires ValidNames(e) && ClosesToken(rest)
    ensures Lex(Rewrite(OrText(e)) + rest) == Prepend(OrTokens(e), Lex(rest))
    decreases e, if e.Or? then 0 else if e.And? then 1 else 2
  {
    match e
    case Or(a, b) =>
      var ra, rb := Rewrite(OrText(a)), Rewrite(AndText(b));
      RewriteConcat(OrText(a), " || " + AndText(b), false);
      RewriteSeparator(" || ", AndText(b), EndsInWord(OrText(a), false));
      assert OrText(e) == OrText(a) + (" || " + AndText(b));
      assert Rewrite(OrText(e)) + rest == ra + (" || " + (rb + rest));
      LexOrText(a, " || " + (rb + rest));
      LexOperator(" || ", OrOr, rb + rest);
      LexAndText(b, rest);
      PrependAssoc([OrOr], AndTokens(b), Lex(rest));
      PrependAssoc(OrTokens(a), [OrOr] + AndTokens(b), Lex(rest));
      assert OrTokens(a) + ([OrOr] + AndTokens(b)) == OrTokens(e);
    case _ =>
      LexAndText(e, rest);
  }

  /**
   * Every expression of the subset, written with the fewest parentheses,
   * compiles after the rewrite to a function returning exactly that expression.
   */
  lemma CompilePrinted(e: Expr)
    requires ValidNames(e)
    ensures CompileBody(Rewrite(OrText(e))) == Some(ReturnValue(e))
  {
    LexOrText(e, []);
    assert Rewrite(OrText(e)) + [] == Rewrite(OrText(e));
    assert Lex([]) == Some([]);
    assert OrTokens(e) + [] == OrTokens(e);
    ParsePrintedTokens(e);
  }
}

/**
 * What the compiler rejects: text whose parentheses do not balance, and token
 * sequences that end in an operator or an opening parenthesis.
 */
module Rejection {
  import opened Wrappers
  import opened Rewriting
  import opened Syntax

  /** Opening minus closing parenthesis tokens. */
  function Parens(t: seq<Token>): int {
    if t == [] then 0
    else (if t[0] == LParen then 1 else if t[0] == RParen then -1 else 0) + Parens(t[1..])
  }

  /** Opening minus closing parenthesis characters. */
  function ParenChars(s: string): int {
    if s == [] then 0
    else (if s[0] == '(' then 1 else if s[0] == ')' then -1 else 0) + ParenChars(s[1..])
  }

  /** A successful parse ends with a name or a closing parenthesis. */
  predicate EndsWithOperand(t: seq<Token>, rest: seq<Token>) {
    |rest| < |t| && t[|t| - |rest|..] == rest
    && (t[|t| - |rest| - 1].Member? || t[|t| - |rest| - 1] == RParen)
  }

  /** What every successful parse of a prefix of `t` leaving `rest` satisfies. */
  predicate WellConsumed(t: seq<Token>, rest: seq<Token>) {
    Parens(t) == Parens(rest) && EndsWithOperand(t, rest)
  }

  lemma {:induction false} OrConsumes(t: seq<Token>)
    requires ParseOr(t).Some?
    ensures WellConsumed(t, ParseOr(t).value.rest)
    decreases |t|, 3
  {
    var p := ParseAnd(t).value;
    AndConsumes(t);
    OrTailConsumes(p.e, p.rest);
    var q := OrTail(p.e, p.rest).value;
    if q.rest != p.rest {
      TransitiveConsumption(t, p.rest, q.rest);
    }
  }

  lemma {:induction false} OrTailConsumes(left: Expr, t: seq<Token>)
    requires OrTail(left, t).Some?
    ensures var q := OrTail(left, t).value; q.rest == t || WellConsumed(t, q.rest)
    decreases |t|, 0
  {
    if t != [] && t[0] == OrOr {
      var p := ParseAnd(t[1..]).value;
      AndConsumes(t[1..]);
      OrTailConsumes(Or(left, p.e), p.rest);
      StepConsumption(t, p.rest);
      var q := OrTail(Or(left, p.e), p.rest).value;
      if q.rest != p.rest {
        TransitiveConsumption(t, p.rest, q.rest);
      }
    }
  }

  lemma {:induction false} AndConsumes(t: seq<Token>)
    requires ParseAnd(t).Some?
    ensures WellConsumed(t, ParseAnd(t).value.rest)
    decreases |t|, 2
  {
    var p := ParseUnary(t).value;
    UnaryConsumes(t);
    AndTailConsumes(p.e, p.rest);
    var q := AndTail(p.e, p.rest).value;
    if q.rest != p.rest {
      TransitiveConsumption(t, p.rest, q.rest);
    }
  }

  lemma {:induction false} AndTailConsumes(left: Expr, t: seq<Token>)
    requires AndTail(left, t).Some?
    ensures var q := AndTail(left, t).value; q.rest == t || WellConsumed(t, q.rest)
    decreases |t|, 0
  {
    if t != [] && t[0] == AndAnd {
      var p := ParseUnary(t[1..]).value;
      UnaryConsumes(t[1..]);
      AndTailConsumes(And(left, p.e), p.rest);
      StepConsumption(t, p.rest);
      var q := AndTail(And(left, p.e), p.rest).value;
      if q.rest != p.rest {
        TransitiveConsumption(t, p.rest, q.rest);
      }
    }
  }

  lemma {:induction false} UnaryConsumes(t: seq<Token>)
    requires ParseUnary(t).Some?
    ensures WellConsumed(t, ParseUnary(t).value.rest)
    decreases |t|, 1
  {
    if t != [] && t[0] == Bang {
      UnaryConsumes(t[1..]);
      StepConsumption(t, ParseUnary(t[1..]).value.rest);
    } else {
      PrimaryConsumes(t);
    }
  }

  lemma {:induction false} PrimaryConsumes(t: seq<Token>)
    requires ParsePrimary(t).Some?
    ensures WellConsumed(t, ParsePrimary(t).value.rest)
    decreases |t|, 0
  {
    if t[0] == LParen {
      var p := ParseOr(t[1..]).value;
      OrConsumes(t[1..]);
      var r := p.rest[1..];
      assert Parens(p.rest) == -1 + Parens(r);
      assert t[|t| - |r|..] == r by {
        assert t[1..][|t[1..]| - |p.rest|..] == p.rest;
        assert t[|t| - |p.rest|..] == p.rest;
      }
      assert t[|t| - |r| - 1] == p.rest[0];
    }
  }

  /** One non-parenthesis token followed by a well-consumed stretch. */
  lemma StepConsumption(t: seq<Token>, rest: seq<Token>)
    requires t != [] && t[0] != LParen && t[0] != RParen
    requires WellConsumed(t[1..], rest)
    ensures WellConsumed(t, rest)
  {
    assert t[1..][|t[1..]| - |rest|..] == t[|t| - |rest|..];
    assert t[1..][|t[1..]| - |rest| - 1] == t[|t| - |rest| - 1];
  }

  lemma TransitiveConsumption(t: seq<Token>, mid: seq<Token>, rest: seq<Token>)
    requires WellConsumed(t, mid) && WellConsumed(mid, rest)
    ensures WellConsumed(t, rest)
  {
    var k := |t| - |mid|;
    assert t[k..] == mid;
    assert t[|t| - |rest|..] == mid[|mid| - |rest|..];
    assert t[|t| - |rest| - 1] == mid[|mid| - |rest| - 1];
  }

  /** A complete expression has balanced parentheses and ends with an operand. */
  lemma {:induction false} ParsedExpressionShape(t: seq<Token>)
    requires ParseExpression(t).Some?
    ensures Parens(t) == 0
    ensures t != [] && (t[|t| - 1].Member? || t[|t| - 1] == RParen)
  {
    OrConsumes(t);
  }

  // ---------------------------------------------------------------------
  // Parentheses survive the rewrite and the lexer one for one.

  lemma {:induction false} ParenCharsConcat(a: string, b: string)
    ensures ParenChars(a + b) == ParenChars(a) + ParenChars(b)
    decreases |a|
  {
    if a == [] {
      assert a + b == b;
    } else {
      assert (a + b)[1..] == a[1..] + b;
      ParenCharsConcat(a[1..], b);
    }
  }

  lemma {:induction false} RewriteKeepsParens(s: string, afterWord: bool)
    ensures ParenChars(RewriteFrom(s, afterWord)) == ParenChars(s)
    decreases |s|
  {
    if s != [] {
      var c := s[0];
      var prefix := if IsWordChar(c) && !afterWord then "g." else "";
      RewriteKeepsParens(s[1..], IsWordChar(c));
      ParenCharsConcat(prefix + [c], RewriteFrom(s[1..], IsWordChar(c)));
      ParenCharsConcat(prefix, [c]);
      assert ParenChars("g.") == 0;
    }
  }

  lemma {:induction false} NoParensPrefix(s: string, k: nat)
    requires k <= |s|
    requires forall i :: 0 <= i < k ==> s[i] != '(' && s[i] != ')'
    ensures ParenChars(s) == ParenChars(s[k..])
    decreases k
  {
    if k > 0 {
      NoParensPrefix(s[1..], k - 1);
      assert s[1..][k - 1..] == s[k..];
    }
  }

  lemma {:induction false} LexKeepsParens(t: string)
    requires Lex(t).Some?
    ensures Parens(Lex(t).value) == ParenChars(t)
    decreases |t|
  {
    if t == [] {
    } else if IsBlank(t[0]) || t[0] == '(' || t[0] == ')' || t[0] == '!' {
      LexKeepsParens(t[1..]);
    } else if |t| >= 2 && t[0] == '&' && t[1] == '&' {
      LexKeepsParens(t[2..]);
      NoParensPrefix(t, 2);
    } else if |t| >= 2 && t[0] == '|' && t[1] == '|' {
      LexKeepsParens(t[2..]);
      NoParensPrefix(t, 2);
    } else {
      var n := WordPrefixLength(t[2..]);
      LexKeepsParens(t[2 + n..]);
      forall i | 2 <= i < 2 + n ensures t[i] != '(' && t[i] != ')' {
        assert t[2..][..n][i - 2] == t[i];
      }
      NoParensPrefix(t, 2 + n);
    }
  }

  /** An expression whose parentheses do not balance is a syntax error. */
  lemma UnbalancedIsRejected(text: string)
    requires ParenChars(text) != 0
    ensures CompileBody(Rewrite(text)) == None
  {
    var body := Rewrite(text);
    RewriteKeepsParens(text, false);
    if Lex(body).Some? {
      var tokens := Lex(body).value;
      LexKeepsParens(body);
      assert tokens != [];
      if ParseExpression(tokens).Some? {
        ParsedExpressionShape(tokens);
      }
    }
  }

  /** A token sequence that ends in an operator or `(` is a syntax error. */
  lemma DanglingOperatorIsRejected(t: seq<Token>)
    requires t != [] && (t[|t| - 1] == AndAnd || t[|t| - 1] == OrOr || t[|t| - 1] == Bang || t[|t| - 1] == LParen)
    ensures ParseExpression(t) == None
  {
    if ParseExpression(t).Some? {
      ParsedExpressionShape(t);
    }
  }
}

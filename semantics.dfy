/**
 * Running the compiled function `f(g)` and coercing its result with `!!`.
 * The evaluator follows ECMAScript: `g.name` reads the property (absent is
 * `undefined`), `!` yields a boolean (ECMA-262 section 13.5.7), and `&&`/`||`
 * short-circuit and yield one of their operands' values, not a boolean
 * (section 13.13).
 */
module Semantics {
  import opened Wrappers
  import opened Rewriting
  import opened Syntax

  /** The only values a property of the group object can have. */
  datatype JsValue = Undefined | Boolean(b: bool)

  /** ToBoolean, which is what `!!` computes. */
  predicate Truthy(v: JsValue) {
    v.Boolean? && v.b
  }

  /** `g[name]` on the group object. */
  function Lookup(groups: map<string, bool>, name: string): JsValue {
    if name in groups then Boolean(groups[name]) else Undefined
  }

  function JsEval(e: Expr, groups: map<string, bool>): JsValue {
    match e
    case Var(n) => Lookup(groups, n)
    case Not(x) => Boolean(!Truthy(JsEval(x, groups)))
    case And(a, b) =>
      var l := JsEval(a, groups);
      if Truthy(l) then JsEval(b, groups) else l
    case Or(a, b) =>
      var l := JsEval(a, groups);
      if Truthy(l) then l else JsEval(b, groups)
  }

  function Run(s: Statement, groups: map<string, bool>): JsValue {
    match s
    case ReturnUndefined => Undefined
    case ReturnValue(e) => JsEval(e, groups)
  }

  /**
   * The whole of `f = new Function('g', 'return ' + rewritten); f(groups)`:
   * None is the SyntaxError that `new Function` throws.
   */
  function Evaluate(expression: string, groups: map<string, bool>): Option<JsValue> {
    match CompileBody(Rewrite(expression))
    case None => None
    case Some(s) => Some(Run(s, groups))
  }

  /** The reference meaning of an expression: plain boolean logic over membership. */
  predicate Holds(e: Expr, groups: map<string, bool>) {
    match e
    case Var(n) => n in groups && groups[n]
    case Not(x) => !Holds(x, groups)
    case And(a, b) => Holds(a, groups) && Holds(b, groups)
    case Or(a, b) => Holds(a, groups) || Holds(b, groups)
  }

  /**
   * After `!!`, the JavaScript result is the boolean meaning: an absent name is
   * false, `!` is negation, `&&` conjunction and `||` disjunction.
   */
  lemma {:induction false} CoercedResultIsBoolean(e: Expr, groups: map<string, bool>)
    ensures Truthy(JsEval(e, groups)) == Holds(e, groups)
  {
    match e
    case Var(n) =>
    case Not(x) =>
      CoercedResultIsBoolean(x, groups);
    case And(a, b) =>
      CoercedResultIsBoolean(a, groups);
      CoercedResultIsBoolean(b, groups);
    case Or(a, b) =>
      CoercedResultIsBoolean(a, groups);
      CoercedResultIsBoolean(b, groups);
  }

  /**
   * `&&` and `||` return an operand, so the uncoerced result is `undefined`
   * only when a name that decided the outcome is absent.
   */
  lemma {:induction false} UndefinedComesFromAbsentName(e: Expr, groups: map<string, bool>)
    requires JsEval(e, groups) == Undefined
    ensures exists n :: n in Names(e) && n !in groups
  {
    match e
    case Var(n) =>
      assert n in Names(e);
    case Not(x) =>
    case And(a, b) =>
      if Truthy(JsEval(a, groups)) {
        UndefinedComesFromAbsentName(b, groups);
      } else {
        UndefinedComesFromAbsentName(a, groups);
      }
    case Or(a, b) =>
      if !Truthy(JsEval(a, groups)) {
        UndefinedComesFromAbsentName(b, groups);
      }
  }

  /** The result depends only on the entries for the names the expression mentions. */
  lemma {:induction false} EvaluationReadsOnlyNames(e: Expr, g1: map<string, bool>, g2: map<string, bool>)
    requires forall n :: n in Names(e) ==> Lookup(g1, n) == Lookup(g2, n)
    ensures JsEval(e, g1) == JsEval(e, g2)
  {
    match e
    case Var(n) =>
      assert n in Names(e);
    case Not(x) =>
      EvaluationReadsOnlyNames(x, g1, g2);
    case And(a, b) =>
      EvaluationReadsOnlyNames(a, g1, g2);
      EvaluationReadsOnlyNames(b, g1, g2);
    case Or(a, b) =>
      EvaluationReadsOnlyNames(a, g1, g2);
      EvaluationReadsOnlyNames(b, g1, g2);
  }

  /** So the decision, too, depends only on the entries for the mentioned names. */
  lemma HoldsReadsOnlyNames(e: Expr, g1: map<string, bool>, g2: map<string, bool>)
    requires forall n :: n in Names(e) ==> Lookup(g1, n) == Lookup(g2, n)
    ensures Holds(e, g1) == Holds(e, g2)
  {
    CoercedResultIsBoolean(e, g1);
    CoercedResultIsBoolean(e, g2);
    EvaluationReadsOnlyNames(e, g1, g2);
  }
}

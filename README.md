# nginx_cerbero authorization core in Dafny

nginx_cerbero is an authorization gateway. Login stores the user's groups
under a fresh session token. The `/check` route then answers whether the
session may proceed. The caller sends a boolean expression over group names
in the `group-expression` header, and the session token in the `sid` cookie.
The server rewrites every word of the expression into a property read
`g.<word>`. It compiles `return <rewritten>` with `new Function('g', …)` and
calls the result on the session's group object. It coerces the result with
`!!`. Then it replies 204 with header `allowed: 1`, or 403 with body `{}`.

The model has seven modules:

- `Wrappers` holds `Option` and `Result`.
- `Rewriting` is the `\w+` rewrite (index.js line 119). It is a
  character-by-character scan, proved equal to the greedy global replace
  `ReplaceRuns`. It is invertible and adds exactly two characters per run.
- `Syntax` models the JavaScript that the rewritten text can compile to:
  - a lexer for `g.name`, `&&`, `||`, `!`, parentheses and blanks;
  - a recursive-descent parser with ECMAScript precedence and left
    associativity.

  `CompileBody` is `new Function`: None is the thrown SyntaxError. Text made
  only of blanks compiles to a bare `return`.
- `Printer` is a minimal-parenthesis printer. It is the parser's inverse: for
  every expression whose names are identifiers, the printed text, rewritten,
  lexed and parsed, gives the expression back.
- `Spelling` shows that other spellings of an expression compile the same:
  redundant parentheses, blanks around the text and blanks around an
  operator. It also shows that a word starting with a digit never compiles.
- `Rejection` proves that unbalanced parentheses and dangling operators are
  syntax errors.
- `Semantics` is the JavaScript evaluator: property reads, `undefined`,
  short-circuit `&&` and `||` that return operand values, and `!`. It is
  proved equal, after `!!`, to the plain boolean meaning `Holds`.
- `Groups` covers the group object:
  - the login `reduce` that builds the dictionary, both as a fold and as the
    loop `BuildGroupMap`;
  - the literal overrides `true` and `false`;
  - the class `GroupObject`, whose properties are assigned in place.
- `Gateway` covers the session store, the two handlers and the decision:
  - the session store is the class `SessionStore`, holding a map from token
    to record;
  - `HandleLogin` and `HandleAuth` model the two handlers;
  - `DoGroupsMeetGroupExpression` mutates the caller's object;
  - `Authorize` is the function that specifies the check;
  - the lemmas relate login, session resolution, evaluation and the reply.

Points of index.js that the model keeps as written:

- **Blank expression.** A header of only blanks compiles to `return`
  followed by blanks, which yields `undefined`. The request is denied, not
  rejected as a syntax error (`Gateway.BlankTextIsDenied`).
- **Errors.** A missing header and a syntax error are thrown as errors. The
  model returns them as `Err` values.
- **Replies.** index.js replies only 204 or 403, and sends no `user-id`
  header. A store failure is thrown like any other error.
- **test.js.** The test file expects replies that index.js does not produce.
  The model follows index.js.
- **Unknown tokens.** The Redis client answers `hgetall` on an unknown key
  with `null`, so an unknown token follows the anonymous branch. `SessionStore.Get`
  models this as `None`.

## Model

| member | source | states |
|---|---|---|
| Groups.BuildGroupMap | index.js:74-77 | The loop over the user's groups yields the left fold `GroupMapOf`. Its keys are exactly the listed groups, and every value is `true`. |
| Groups.GroupMapEntries | index.js:74-77 | The dictionary built at login has exactly the user's groups as keys, and each key maps to `true`. |
| Groups.GroupMapSize | index.js:74-77 | Repeated group names collapse into one key. The dictionary has at most as many entries as the list, and the same number exactly when the list has no duplicates. |
| Gateway.SessionStore.constructor | index.js:36 | The store starts empty. |
| Gateway.SessionStore.Put | index.js:80-83 | Storing a session replaces the record under that token and leaves every other token unchanged. |
| Gateway.SessionStore.Get | index.js:97 | The lookup returns a record exactly when the token is known, and then returns that token's record. |
| Gateway.HandleLogin | index.js:60-86 | An unknown user or a wrong password fails with "No user found" and leaves the store unchanged. Otherwise the token is returned, and the store gains, under that token, the user's id and the dictionary of their groups. |
| Gateway.Respond | index.js:107-113 | The status is 403 exactly when the request is denied. The `allowed` header is present exactly when it is allowed. An allow is 204 with `allowed: 1` and no body. A deny has body `{}` and no headers. |
| Gateway.Authorize | index.js:88-114 | A missing or empty header is an error, in both directions. The error is a syntax error exactly when the rewritten expression does not compile. |
| Gateway.HandleAuth | index.js:88-114 | The handler's reply is `Authorize` applied to the request and the current sessions. It checks the header, builds `{logged: false}` or the stored dictionary with `logged = true`, evaluates and coerces with `!!`, and replies. |
| Gateway.DoGroupsMeetGroupExpression | index.js:116-123 | The caller's group object gets `true` and `false` set in place. The result is the rewritten expression compiled and run on that object, or None for a syntax error. |
| Gateway.MissingExpressionFailsFirst | index.js:89-90 | A missing or empty header fails the same way whatever the sessions hold. |
| Gateway.AnonymousGroups | index.js:92 | Without a session, only `true` reads as truthy. `logged`, `false` and every group read as false or undefined. |
| Gateway.SessionGroups | index.js:96-102 | With a session, `logged` and `true` read as true and `false` as false. Every other name reads as stored, and a missing `groups` field reads as the empty dictionary. |
| Gateway.UnknownTokenIsAnonymous | index.js:94-98 | An empty token, or one the store does not know, gives the same answer as no cookie at all. |
| Gateway.PrintedTextIsNotEmpty | index.js:90 | A printed expression is never the empty header. |
| Gateway.DecisionIsBooleanMeaning | index.js:105-122 | For every expression whose names are identifiers, printed with the fewest parentheses, the reply is allow exactly when the expression holds as boolean logic over the resolved groups with the literals forced. |
| Gateway.DecisionForAnyText | index.js:88-122 | For any non-empty header text, however spelled, that compiles to an expression, the reply is allow exactly when that expression holds over the resolved groups with the literals forced. |
| Gateway.BlankTextIsDenied | index.js:88-122 | A non-empty header made only of blanks compiles to a bare `return` and is denied, not rejected. |
| Gateway.LoggedInGroupCheck | index.js:74-105 | After a login, checking one group name other than `logged`, `true` and `false` is allowed exactly when the user has that group. |
| Gateway.ExampleGroups | index.js:74-101 | After the example user logs in with `group1` and `group2`, both read as true. |
| Gateway.ExampleDecision | index.js:88-122 | After that login, any expression over `group1` and `group2` is decided by its boolean meaning with both groups true. |
| Gateway.BothGroupsAllowed | index.js:88-122 | `group1 && group2` is allowed for that user. |
| Gateway.EitherGroupAllowed | index.js:88-122 | `group1 \|\| group2` is allowed for that user. |
| Gateway.NegatedGroupDenied | index.js:88-122 | `group1 && !group2` is denied for that user. |
| Gateway.AnonymousNameCheck | index.js:92-113 | Without a cookie, a single name is allowed exactly when it is `true`. |
| Gateway.AnonymousExamples | index.js:92-113 | Without a cookie, `true` is allowed, and `logged` and `group1` are denied. |
| Groups.RepeatedLast | index.js:74-77 | A list whose last group already occurs earlier has a duplicate. |
| Groups.DistinctSnoc | index.js:74-77 | Appending a group not yet listed keeps the list duplicate-free exactly when it was before. |
| Groups.LiteralsOverride | index.js:117-118 | `true` reads as true and `false` as false whatever was stored. Every other name reads as before. The keys gain exactly those two names. |
| Groups.GroupObject.constructor | index.js:92 | A fresh group object holds the given entries. |
| Groups.GroupObject.Assign | index.js:101 | Assigning a property changes that one entry and leaves the others unchanged. |
| Rewriting.WordPrefixLength | index.js:119 | The leading run of word characters is maximal: all its characters are word characters, and the next character is not one. |
| Rewriting.RewriteIsReplace | index.js:119 | The scan produces the same text as the greedy global `\w+` replace. |
| Rewriting.UnrewriteRewrite | index.js:119 | Deleting the inserted `g.` prefixes gives back the original expression, so the rewrite loses nothing. |
| Rewriting.RewriteLength | index.js:119 | The rewritten text is longer by exactly two characters per run of word characters. |
| Rewriting.RewriteConcat | index.js:119 | The rewrite of a concatenation is the rewrite of the first part followed by the rewrite of the second. The second part is rewritten knowing whether the first ended inside a word. |
| Rewriting.RewriteInsideRun | index.js:119 | Word characters that continue a run get no prefix. |
| Rewriting.RewriteAfterNonWord | index.js:119 | Text that starts with a non-word character is rewritten the same way whatever came before it. |
| Rewriting.RewriteWord | index.js:119 | A single word `w` becomes `g.w`. |
| Rewriting.RewriteNoWords | index.js:119 | Text without word characters is left unchanged. |
| Rewriting.WordPrefixOfConcat | index.js:119 | The leading run of a word followed by a non-word character is that word. |
| Rewriting.RewriteSeparator | index.js:119 | A separator without word characters is copied unchanged and closes any open run. |
| Printer.ParseUnaryTokens | index.js:121 | A printed unary-level expression parses back to itself and leaves the following tokens. |
| Printer.ParseAndTokens | index.js:121 | A printed `&&`-level expression parses back to itself, continued by the same `&&` tail. |
| Printer.ParseOrTokens | index.js:121 | A printed `\|\|`-level expression parses back to itself, continued by the same `\|\|` tail. |
| Printer.ParsePrintedTokens | index.js:121 | Parsing the printed tokens gives the expression back, so precedence and associativity agree with the printer. |
| Printer.LexMember | index.js:119-121 | `g.` followed by a name that does not start with a digit lexes as one property read. |
| Printer.LexOperator | index.js:121 | ` && ` and ` \|\| ` lex as one operator token each. |
| Printer.LexUnaryText | index.js:119-121 | A printed unary expression, rewritten, lexes to its printed tokens. |
| Printer.LexNot | index.js:119-121 | A `!` in front of a printed operand, rewritten, lexes to `!` followed by the operand's tokens. |
| Printer.RewriteParenthesised | index.js:119 | Rewriting a parenthesised expression rewrites its inside and keeps the parentheses. |
| Printer.LexParenthesised | index.js:119-121 | A parenthesised printed expression, rewritten, lexes to the parentheses around its tokens. |
| Printer.LexAndText | index.js:119-121 | A printed `&&` chain, rewritten, lexes to its printed tokens. |
| Printer.LexOrText | index.js:119-121 | A printed `\|\|` chain, rewritten, lexes to its printed tokens. |
| Printer.CompilePrinted | index.js:119-121 | Every expression whose names are identifiers, printed and then rewritten, compiles to a function that returns exactly that expression. |
| Rejection.OrConsumes | index.js:121 | An `\|\|`-level parse consumes a stretch with balanced parentheses that ends in an operand. |
| Rejection.OrTailConsumes | index.js:121 | An `\|\|` tail consumes nothing, or such a balanced stretch. |
| Rejection.AndConsumes | index.js:121 | An `&&`-level parse consumes a balanced stretch that ends in an operand. |
| Rejection.AndTailConsumes | index.js:121 | An `&&` tail consumes nothing, or such a balanced stretch. |
| Rejection.UnaryConsumes | index.js:121 | A unary-level parse consumes a balanced stretch that ends in an operand. |
| Rejection.PrimaryConsumes | index.js:121 | A name, or a parenthesised expression, is a balanced stretch that ends in an operand. |
| Rejection.StepConsumption | index.js:121 | A leading token that is not a parenthesis keeps a stretch balanced. |
| Rejection.TransitiveConsumption | index.js:121 | Two balanced stretches in a row form a balanced stretch. |
| Rejection.ParsedExpressionShape | index.js:121 | Any token sequence that compiles to an expression has balanced parentheses and ends in a name or `)`. |
| Rejection.ParenCharsConcat | index.js:119 | The parenthesis balance of a concatenation is the sum of the parts' balances. |
| Rejection.RewriteKeepsParens | index.js:119 | The rewrite leaves the parenthesis balance unchanged. |
| Rejection.NoParensPrefix | index.js:119 | A prefix without parentheses does not change the balance. |
| Rejection.LexKeepsParens | index.js:121 | The lexer keeps the balance of parentheses between the characters and the tokens. |
| Rejection.UnbalancedIsRejected | index.js:119-121 | An expression whose parentheses do not balance is a syntax error. |
| Rejection.DanglingOperatorIsRejected | index.js:121 | Tokens ending in `&&`, `\|\|`, `!` or `(` are a syntax error. |
| Semantics.CoercedResultIsBoolean | index.js:105 | After `!!`, the JavaScript result is the plain boolean meaning of the expression. An absent name is false, and `!`, `&&` and `\|\|` are negation, conjunction and disjunction. |
| Semantics.UndefinedComesFromAbsentName | index.js:122 | An uncoerced result of `undefined` always comes from a name the expression mentions that is not on the group object. |
| Semantics.EvaluationReadsOnlyNames | index.js:122 | The result depends only on the group object's entries for the names the expression mentions. |
| Semantics.HoldsReadsOnlyNames | index.js:105 | The coerced decision, too, depends only on the entries for the mentioned names. |
| Spelling.OrSuffix | index.js:121 | Appending tokens that do not continue an `\|\|` or `&&` chain leaves an `\|\|`-level parse unchanged and hands the extra tokens back. |
| Spelling.OrTailSuffix | index.js:121 | The same holds for an `\|\|` tail. |
| Spelling.AndSuffix | index.js:121 | The same holds for an `&&`-level parse. |
| Spelling.AndTailSuffix | index.js:121 | The same holds for an `&&` tail. |
| Spelling.UnarySuffix | index.js:121 | The same holds for a unary-level parse. |
| Spelling.PrimarySuffix | index.js:121 | The same holds for a name or a parenthesised expression. |
| Spelling.LexJoin | index.js:119-121 | Text that lexes, joined to text without merging a word across the seam, lexes to the first part's tokens followed by the second's. |
| Spelling.LexHead | index.js:121 | Text that lexes starts with one token's worth of characters, and that token is the same whatever text follows, when no word is merged. |
| Spelling.LexSingleHead | index.js:121 | A blank, `(`, `)` or `!` is one character's worth of tokens. |
| Spelling.LexPairHead | index.js:121 | `&&` and `\|\|` are two characters' worth of one token. |
| Spelling.LexMemberHead | index.js:119-121 | `g.` and a whole name are one property read, whatever non-word text follows. |
| Spelling.PrependNothing | index.js:121 | Prepending no tokens changes nothing. |
| Spelling.LexSkipsBlanks | index.js:121 | Leading blanks produce no tokens. |
| Spelling.WrappedParse | index.js:121 | Parenthesised tokens of a complete expression parse to that same expression. |
| Spelling.ParenthesesKeepMeaning | index.js:119-121 | Header text that compiles to an expression compiles to the same expression inside one more pair of parentheses. |
| Spelling.BlanksKeepMeaning | index.js:119-121 | Blanks before and after header text that compiles do not change what it compiles to. |
| Spelling.OperatorLexes | index.js:119-121 | Text around `&&` or `\|\|`, with or without blanks, lexes to the left side's tokens, the operator, and the right side's tokens. |
| Spelling.OperatorSpacing | index.js:119-121 | `a&&b` and `a && b` (and the same for `\|\|`) compile to the same thing, whatever `b` is. |
| Spelling.RewriteKeepsLastSeparator | index.js:119 | Text that ends outside a word still ends outside a word after the rewrite. |
| Spelling.DigitWordIsRejected | index.js:119-121 | A word starting with a digit, after text that lexes, becomes `g.` and a number, and the header is a syntax error. |
| Spelling.CompactConjunction | index.js:119-121 | `a&&b` compiles to the conjunction of `a` and `b`. |

## Left out

- Signup and password hashing (index.js:51-58) are not modelled. Login
  takes the stored user and whether the password matched as parameters.
- The user lookup in the credential store and the password scrub before the
  reply (index.js:63-72, 85) are not modelled. The reply body of login is
  not modelled either.
- The random token generator is not modelled. Login takes the token as a
  parameter.
- Setting the cookie (index.js:84) is not modelled. The check takes the
  cookie's value as a parameter.
- JSON encoding of the group dictionary is not modelled. The record stores
  the dictionary itself, and a missing or empty field is `None`. A corrupt
  field, which makes `JSON.parse` throw, is not modelled.
- The Redis round trips are not modelled. The store is a class holding a
  map, and connection failures are left out.
- Logging, plugin registration and the environment schema
  (index.js:1-49, 95, 99, 106) are not modelled.
- The language covers names, `&&`, `||`, `!`, parentheses, spaces and tabs.
  Any other JavaScript the header could hold is a syntax error in the
  model. That includes literals, other operators, comments, `;`, a second
  statement, non-ASCII identifier characters and other whitespace.
- Properties inherited from `Object.prototype` are not modelled. Names such
  as `constructor`, `toString` or `__proto__` read as absent.
- Stored values other than booleans are not modelled. A `groups` list that
  is missing or holds non-strings is not modelled.
- The framework's mapping of thrown errors to HTTP statuses is not
  modelled. The handlers return `Err` values instead.
- Gateway.HandleLogin does not model the asynchronous interleaving of
  concurrent requests. Each handler runs atomically against the store.

/**
 * The two request handlers: login records the user's groups under a fresh
 * session token; the check resolves the session, evaluates the caller's group
 * expression against it and answers 204 (allowed) or 403 (denied).
 */
module Gateway {
  import opened Wrappers
  import opened Rewriting
  import opened Syntax
  import opened Printer
  import opened Semantics
  import opened Groups
  import opened Spelling

  /** A user record as the credential store returns it (password omitted). */
  datatype User = User(id: string, groups: seq<string>)

  /**
   * A session hash in the key-value store. `groups` is None when the field
   * is missing or empty, which the check reads as `'{}'`.
   */
  datatype SessionRecord = SessionRecord(userId: string, groups: Option<map<string, bool>>)

  /** The check request: the `group-expression` header and the `sid` cookie. */
  datatype AuthRequest = AuthRequest(groupExpression: Option<string>, sid: Option<string>)

  datatype Response = Response(status: nat, headers: map<string, string>, body: string)

  /** The errors the handlers throw (the web framework turns them into error replies). */
  datatype AuthError = NoGroupExpression | SyntaxError

  datatype LoginError = NoUserFound

  /** The session store: hashes keyed by session token. */
  class SessionStore {
    var sessions: map<string, SessionRecord>

    constructor ()
      ensures sessions == map[]
    {
      sessions := map[];
    }

    /** `hmset(sid, record)`: both fields are written, so the record is replaced. */
    method Put(sid: string, record: SessionRecord)
      modifies this
      ensures sessions == old(sessions)[sid := record]
    {
      sessions := sessions[sid := record];
    }

    /** `hgetall(sid)`: the record, or nothing for an unknown token. */
    method Get(sid: string) returns (r: Option<SessionRecord>)
      ensures r.Some? <==> sid in sessions
      ensures r.Some? ==> r.value == sessions[sid]
    {
      r := if sid in sessions then Some(sessions[sid]) else None;
    }
  }

  // ---------------------------------------------------------------------
  // Login

  /** The record login stores: the user's id and the dictionary of their groups. */
  function LoginRecord(user: User): SessionRecord {
    SessionRecord(user.id, Some(GroupMapOf(user.groups)))
  }

  /**
   * `handleLogin` after the user lookup: `user` is what the credential store
   * found, `passwordValid` whether the password matched the stored hash, and
   * `sid` the freshly generated token. Returns the token set as cookie.
   */
  method HandleLogin(store: SessionStore, user: Option<User>, passwordValid: bool, sid: string)
    returns (r: Result<string, LoginError>)
    modifies store
    ensures user.None? || !passwordValid ==> r == Err(NoUserFound) && store.sessions == old(store.sessions)
    ensures user.Some? && passwordValid ==>
      r == Ok(sid) && store.sessions == old(store.sessions)[sid := LoginRecord(user.value)]
  {
    if user.None? {
      return Err(NoUserFound);
    }
    if !passwordValid {
      return Err(NoUserFound);
    }
    var groupMap := BuildGroupMap(user.value.groups);
    store.Put(sid, SessionRecord(user.value.id, Some(groupMap)));
    return Ok(sid);
  }

  // ---------------------------------------------------------------------
  // Check

  /** `JSON.parse(session.groups || '{}')`. */
  function StoredGroups(record: SessionRecord): map<string, bool> {
    match record.groups
    case None => map[]
    case Some(m) => m
  }

  predicate HasSession(sid: Option<string>, sessions: map<string, SessionRecord>) {
    sid.Some? && sid.value != "" && sid.value in sessions
  }

  /**
   * The `groups` object before evaluation: `{logged: false}` without a
   * usable session, otherwise the stored dictionary with `logged` set to true.
   */
  function ResolveGroups(sid: Option<string>, sessions: map<string, SessionRecord>): map<string, bool> {
    if HasSession(sid, sessions) then StoredGroups(sessions[sid.value])["logged" := true]
    else map["logged" := false]
  }

  /** The reply for a decision. */
  function Respond(allowed: bool): (r: Response)
    ensures r.status == 403 <==> !allowed
    ensures "allowed" in r.headers <==> allowed
    ensures allowed ==> r.status == 204 && r.headers["allowed"] == "1" && r.body == ""
    ensures !allowed ==> r.body == "{}" && r.headers == map[]
  {
    if allowed then Response(204, map["allowed" := "1"], "")
    else Response(403, map[], "{}")
  }

  /** What a check request gets, given the contents of the session store. */
  function Authorize(request: AuthRequest, sessions: map<string, SessionRecord>): (r: Result<Response, AuthError>)
    ensures request.groupExpression.None? || request.groupExpression == Some("") <==> r == Err(NoGroupExpression)
    ensures r == Err(SyntaxError) <==>
      request.groupExpression.Some? && request.groupExpression.value != "" &&
      CompileBody(Rewrite(request.groupExpression.value)).None?
  {
    if request.groupExpression.None? || request.groupExpression.value == "" then Err(NoGroupExpression)
    else
      match Evaluate(request.groupExpression.value, WithLiterals(ResolveGroups(request.sid, sessions)))
      case None => Err(SyntaxError)
      case Some(v) => Ok(Respond(Truthy(v)))
  }

  /**
   * `doGroupsMeetGroupExpression`: sets `true` and `false` on the caller's
   * object, then compiles and runs the rewritten expression against it.
   * None is the SyntaxError thrown by `new Function`.
   */
  method DoGroupsMeetGroupExpression(expression: string, groups: GroupObject) returns (r: Option<JsValue>)
    modifies groups
    ensures groups.entries == WithLiterals(old(groups.entries))
    ensures r == Evaluate(expression, groups.entries)
  {
    groups.Assign("true", true);
    groups.Assign("false", false);
    var body := Rewrite(expression);
    var compiled := CompileBody(body);
    match compiled {
      case None =>
        r := None;
      case Some(f) =>
        r := Some(Run(f, groups.entries));
    }
  }

  /** `handleAuth`. */
  method HandleAuth(request: AuthRequest, store: SessionStore) returns (r: Result<Response, AuthError>)
    ensures r == Authorize(request, store.sessions)
  {
    if request.groupExpression.None? || request.groupExpression.value == "" {
      return Err(NoGroupExpression);
    }
    var expression := request.groupExpression.value;
    var groups := new GroupObject(map["logged" := false]);
    if request.sid.Some? && request.sid.value != "" {
      var session := store.Get(request.sid.value);
      if session.Some? {
        groups := new GroupObject(StoredGroups(session.value));
        groups.Assign("logged", true);
      }
    }
    assert groups.entries == ResolveGroups(request.sid, store.sessions);
    var result := DoGroupsMeetGroupExpression(expression, groups);
    match result {
      case None =>
        r := Err(SyntaxError);
      case Some(v) =>
        var allowed := Truthy(v);
        r := Ok(Respond(allowed));
    }
  }

  // ---------------------------------------------------------------------
  // Properties of the decision

  /** Without a session, `logged` and every real group read as false; only `true` holds. */
  lemma AnonymousGroups(sid: Option<string>, sessions: map<string, SessionRecord>, n: string)
    requires !HasSession(sid, sessions)
    ensures Truthy(Lookup(WithLiterals(ResolveGroups(sid, sessions)), n)) <==> n == "true"
  {
  }

  /**
   * With a session, `logged` holds whatever the stored dictionary says, the
   * literals are forced, and every other name reads as stored (a missing
   * `groups` field reads as the empty dictionary).
   */
  lemma SessionGroups(sid: Option<string>, sessions: map<string, SessionRecord>, n: string)
    requires HasSession(sid, sessions)
    ensures var g := WithLiterals(ResolveGroups(sid, sessions));
      Lookup(g, n) ==
        if n == "logged" || n == "true" then Boolean(true)
        else if n == "false" then Boolean(false)
        else Lookup(StoredGroups(sessions[sid.value]), n)
  {
  }

  /** A missing or empty header fails before the session is looked at. */
  lemma MissingExpressionFailsFirst(request: AuthRequest, s1: map<string, SessionRecord>, s2: map<string, SessionRecord>)
    requires request.groupExpression.None? || request.groupExpression == Some("")
    ensures Authorize(request, s1) == Authorize(request, s2) == Err(NoGroupExpression)
  {
  }

  /** An unknown or empty token is treated exactly like a missing cookie. */
  lemma UnknownTokenIsAnonymous(expression: Option<string>, sid: string, sessions: map<string, SessionRecord>)
    requires sid == "" || sid !in sessions
    ensures Authorize(AuthRequest(expression, Some(sid)), sessions) == Authorize(AuthRequest(expression, None), map[])
  {
  }

  lemma PrintedTextIsNotEmpty(e: Expr)
    requires ValidNames(e)
    ensures OrText(e) != ""
  {
    CompilePrinted(e);
  }

  /**
   * The decision for any expression of the subset: allowed exactly when the
   * expression holds, as plain boolean logic, over the resolved groups.
   */
  lemma DecisionIsBooleanMeaning(e: Expr, sid: Option<string>, sessions: map<string, SessionRecord>)
    requires ValidNames(e)
    ensures Authorize(AuthRequest(Some(OrText(e)), sid), sessions)
      == Ok(Respond(Holds(e, WithLiterals(ResolveGroups(sid, sessions)))))
  {
    PrintedTextIsNotEmpty(e);
    CompilePrinted(e);
    CoercedResultIsBoolean(e, WithLiterals(ResolveGroups(sid, sessions)));
  }

  /**
   * The decision for any header text that compiles to an expression, however
   * it is spelled: allowed exactly when that expression holds over the
   * resolved groups.
   */
  lemma DecisionForAnyText(t: string, e: Expr, sid: Option<string>, sessions: map<string, SessionRecord>)
    requires t != "" && CompileBody(Rewrite(t)) == Some(ReturnValue(e))
    ensures Authorize(AuthRequest(Some(t), sid), sessions)
      == Ok(Respond(Holds(e, WithLiterals(ResolveGroups(sid, sessions)))))
  {
    CoercedResultIsBoolean(e, WithLiterals(ResolveGroups(sid, sessions)));
  }

  /**
   * A header of blanks only compiles to a bare `return`, whose `undefined`
   * result denies the request: it is not rejected as a syntax error.
   */
  lemma BlankTextIsDenied(t: string, sid: Option<string>, sessions: map<string, SessionRecord>)
    requires t != "" && AllBlank(t)
    ensures Authorize(AuthRequest(Some(t), sid), sessions) == Ok(Respond(false))
  {
    assert Rewrite(t) == t by {
      assert forall i :: 0 <= i < |t| ==> !IsWordChar(t[i]) by {
        forall i | 0 <= i < |t| ensures !IsWordChar(t[i]) {
          assert IsBlank(t[i]);
        }
      }
      RewriteNoWords(t, false);
    }
    assert Lex(t) == Some([]) by {
      LexSkipsBlanks(t, []);
      assert t + [] == t;
    }
    assert CompileBody(Rewrite(t)) == Some(ReturnUndefined);
  }

  /**
   * After a successful login, checking a single group name is allowed exactly
   * when the user has that group (names other than the three synthetic ones).
   */
  lemma LoggedInGroupCheck(sessions: map<string, SessionRecord>, user: User, sid: string, n: string)
    requires sid != "" && IsIdentifier(n)
    requires n != "logged" && n != "true" && n != "false"
    ensures var after := sessions[sid := LoginRecord(user)];
      Authorize(AuthRequest(Some(n), Some(sid)), after) == Ok(Respond(n in user.groups))
  {
    var after := sessions[sid := LoginRecord(user)];
    assert UnaryText(Var(n)) == n;
    assert AndText(Var(n)) == n;
    assert OrText(Var(n)) == n;
    DecisionIsBooleanMeaning(Var(n), Some(sid), after);
    GroupMapEntries(user.groups);
    var g := WithLiterals(ResolveGroups(Some(sid), after));
    assert ResolveGroups(Some(sid), after) == GroupMapOf(user.groups)["logged" := true];
    assert Holds(Var(n), g) <==> n in GroupMapOf(user.groups) && GroupMapOf(user.groups)[n];
  }

  // ---------------------------------------------------------------------
  // Worked requests: signup with groups `group1` and `group2`, login, then
  // checks with the session cookie; and checks without any cookie.

  /** The session a login of the example user stores under `sid`. */
  function ExampleLogin(sessions: map<string, SessionRecord>, sid: string): map<string, SessionRecord>
  {
    sessions[sid := LoginRecord(User("u", ["group1", "group2"]))]
  }

  lemma ExampleGroups(sessions: map<string, SessionRecord>, sid: string)
    requires sid != ""
    ensures var g := WithLiterals(ResolveGroups(Some(sid), ExampleLogin(sessions, sid)));
      && g["group1"] && g["group2"]
  {
    GroupMapEntries(["group1", "group2"]);
  }

  /** Checking any printed expression of the example groups after the example login. */
  lemma ExampleDecision(sessions: map<string, SessionRecord>, sid: string, e: Expr)
    requires sid != "" && ValidNames(e)
    requires Names(e) <= {"group1", "group2"}
    ensures Authorize(AuthRequest(Some(OrText(e)), Some(sid)), ExampleLogin(sessions, sid))
      == Ok(Respond(Holds(e, map["group1" := true, "group2" := true])))
  {
    var g := WithLiterals(ResolveGroups(Some(sid), ExampleLogin(sessions, sid)));
    var h := map["group1" := true, "group2" := true];
    ExampleGroups(sessions, sid);
    DecisionIsBooleanMeaning(e, Some(sid), ExampleLogin(sessions, sid));
    HoldsReadsOnlyNames(e, g, h);
  }

  lemma BothGroupsAllowed(sessions: map<string, SessionRecord>, sid: string)
    requires sid != ""
    ensures Authorize(AuthRequest(Some("group1 && group2"), Some(sid)), ExampleLogin(sessions, sid)) == Ok(Respond(true))
  {
    var e := And(Var("group1"), Var("group2"));
    assert AndText(e) == "group1" + " && " + "group2";
    assert OrText(e) == "group1 && group2";
    assert Holds(e, map["group1" := true, "group2" := true]);
    assert IsIdentifier("group1") && IsIdentifier("group2");
    ExampleDecision(sessions, sid, e);
  }

  lemma EitherGroupAllowed(sessions: map<string, SessionRecord>, sid: string)
    requires sid != ""
    ensures Authorize(AuthRequest(Some("group1 || group2"), Some(sid)), ExampleLogin(sessions, sid)) == Ok(Respond(true))
  {
    var e := Or(Var("group1"), Var("group2"));
    assert OrText(e) == "group1" + " || " + "group2";
    assert OrText(e) == "group1 || group2";
    assert Holds(e, map["group1" := true, "group2" := true]);
    assert IsIdentifier("group1") && IsIdentifier("group2");
    ExampleDecision(sessions, sid, e);
  }

  lemma NegatedGroupDenied(sessions: map<string, SessionRecord>, sid: string)
    requires sid != ""
    ensures Authorize(AuthRequest(Some("group1 && !group2"), Some(sid)), ExampleLogin(sessions, sid)) == Ok(Respond(false))
  {
    var e := And(Var("group1"), Not(Var("group2")));
    assert UnaryText(Not(Var("group2"))) == "!group2";
    assert AndText(e) == "group1" + " && " + "!group2";
    assert OrText(e) == "group1 && !group2";
    assert !Holds(e, map["group1" := true, "group2" := true]);
    assert IsIdentifier("group1") && IsIdentifier("group2");
    ExampleDecision(sessions, sid, e);
  }

  /** Without a cookie a single name is allowed exactly when it is `true`. */
  lemma AnonymousNameCheck(sessions: map<string, SessionRecord>, n: string)
    requires IsIdentifier(n)
    ensures Authorize(AuthRequest(Some(n), None), sessions) == Ok(Respond(n == "true"))
  {
    assert UnaryText(Var(n)) == n;
    assert AndText(Var(n)) == n;
    assert OrText(Var(n)) == n;
    DecisionIsBooleanMeaning(Var(n), None, sessions);
    AnonymousGroups(None, sessions, n);
  }

  lemma AnonymousExamples(sessions: map<string, SessionRecord>)
    ensures Authorize(AuthRequest(Some("true"), None), sessions) == Ok(Respond(true))
    ensures Authorize(AuthRequest(Some("logged"), None), sessions) == Ok(Respond(false))
    ensures Authorize(AuthRequest(Some("group1"), None), sessions) == Ok(Respond(false))
  {
    assert IsIdentifier("true") && IsIdentifier("logged") && IsIdentifier("group1");
    AnonymousNameCheck(sessions, "true");
    AnonymousNameCheck(sessions, "logged");
    AnonymousNameCheck(sessions, "group1");
  }
}

/**
 * The request checks of the authentication routes (src/backend/auth_routes.py): the
 * `require_auth` guard, which looks for a session token in the Authorization header
 * (the Bearer scheme of section 2.1 of RFC 6750, matched as a case-sensitive
 * "Bearer " prefix), then in the query string of a GET, then in the JSON body of a
 * POST, and the required-field checks of `signup`, `login`, `validate`, `logout` and
 * `profile`. Session validation itself is an oracle passed in as a function.
 */
module Auth {
  import opened Wrappers
  import opened Text

  // ---------------------------------------------------------------------------
  // require_auth

  /**
   * A value read from the JSON body: a string, or any other JSON value, of which
   * only its Python truthiness matters to the guard.
   */
  datatype TokenValue = Str(s: string) | NonString(truthy: bool)

  /** Python's `bool(value)`: a string is true when non-empty. */
  predicate Truthy(t: Option<TokenValue>) {
    match t
    case None => false
    case Some(Str(s)) => s != []
    case Some(NonString(b)) => b
  }

  /**
   * The parts of a request the guard reads. `authorization` is the header or "" when
   * it is absent; `query` is the `session_token` query argument; `body` is what
   * `get_json()` returned for a JSON request (`None` for `null`), as an object.
   */
  datatype Request = Request(verb: string, path: string, authorization: string,
                             query: Option<string>, isJson: bool, body: Option<map<string, TokenValue>>)

  /** What `validate_session` answers. */
  datatype Validation = SessionValid(userId: string, username: string) | SessionInvalid(error: string)

  /**
   * The guard's decision: a redirect to the login page, a 401 with an error, or the
   * wrapped handler running with `request.user` set to the validator's user.
   */
  datatype Guard = Redirect(location: string) | Unauthorized(error: string) | Proceed(userId: string, username: string)

  const BearerPrefix: string := "Bearer "

  /** The header's token: the stripped rest after a case-sensitive "Bearer " prefix. */
  function HeaderToken(r: Request): (t: Option<TokenValue>)
    ensures t.Some? <==> StartsWith(r.authorization, BearerPrefix)
    ensures t.Some? ==> t.value.Str? && t.value.s == Strip(r.authorization[7..])
  {
    if StartsWith(r.authorization, BearerPrefix) then Some(Str(Strip(r.authorization[7..]))) else None
  }

  /** The query argument, unstripped. */
  function QueryToken(r: Request): Option<TokenValue> {
    if r.query.Some? then Some(Str(r.query.value)) else None
  }

  /** `data.get('session_token')` when the body is a non-empty object, else nothing. */
  function BodyToken(r: Request): Option<TokenValue> {
    if r.body.Some? && r.body.value != map[] && "session_token" in r.body.value then
      Some(r.body.value["session_token"])
    else None
  }

  /** The places the guard may look, in its order of precedence, for this request. */
  function Candidates(r: Request): seq<Option<TokenValue>> {
    [HeaderToken(r)]
    + (if r.verb == "GET" then [QueryToken(r)] else [])
    + (if r.verb == "POST" && r.isJson then [BodyToken(r)] else [])
  }

  /** The first truthy candidate. */
  function FirstTruthy(ts: seq<Option<TokenValue>>): (t: Option<TokenValue>)
    ensures t.Some? ==> Truthy(t) && t in ts
    ensures t.None? <==> forall i :: 0 <= i < |ts| ==> !Truthy(ts[i])
  {
    if ts == [] then None
    else if Truthy(ts[0]) then ts[0]
    else FirstTruthy(ts[1..])
  }

  /** The candidate chosen comes before every other truthy one. */
  lemma {:induction false} FirstTruthyIsFirst(ts: seq<Option<TokenValue>>, k: int)
    requires 0 <= k < |ts| && Truthy(ts[k])
    ensures exists j :: 0 <= j <= k && ts[j] == FirstTruthy(ts) && forall i :: 0 <= i < j ==> !Truthy(ts[i])
  {
    if !Truthy(ts[0]) {
      FirstTruthyIsFirst(ts[1..], k - 1);
      var j :| 0 <= j <= k - 1 && ts[1..][j] == FirstTruthy(ts[1..]) && forall i :: 0 <= i < j ==> !Truthy(ts[1..][i]);
      assert ts[j + 1] == FirstTruthy(ts);
      forall i | 0 <= i < j + 1
        ensures !Truthy(ts[i])
      {
        if i > 0 {
          assert ts[i] == ts[1..][i - 1];
        }
      }
    } else {
      assert ts[0] == FirstTruthy(ts);
    }
  }

  /** The token the guard hands to the validator, if any. */
  function Chosen(r: Request): Option<TokenValue> {
    FirstTruthy(Candidates(r))
  }

  /** A page load: a GET to a path outside "/api/". */
  predicate IsPage(r: Request) {
    r.verb == "GET" && !StartsWith(r.path, "/api/")
  }

  /** A refusal: page loads go to the login page, API calls get a 401 with `error`. */
  function Refusal(r: Request, error: string): (g: Guard)
    ensures g.Redirect? <==> IsPage(r)
    ensures g.Redirect? ==> g.location == "/login"
    ensures g.Unauthorized? ==> g.error == error
  {
    if IsPage(r) then Redirect("/login") else Unauthorized(error)
  }

  /**
   * `require_auth`'s `decorated_function`: the token is reassigned down the chain of
   * checks, and the guard refuses without one, refuses when the validator does, and
   * otherwise lets the handler run as the validator's user.
   */
  method RequireAuth(r: Request, validate: TokenValue -> Validation) returns (g: Guard)
    ensures Chosen(r).None? ==> g == Refusal(r, "Authorization required")
    ensures Chosen(r).Some? && validate(Chosen(r).value).SessionInvalid? ==>
      g == Refusal(r, validate(Chosen(r).value).error)
    ensures Chosen(r).Some? && validate(Chosen(r).value).SessionValid? ==>
      g == Proceed(validate(Chosen(r).value).userId, validate(Chosen(r).value).username)
  {
    var token: Option<TokenValue> := None;
    if StartsWith(r.authorization, BearerPrefix) {
      token := Some(Str(Strip(r.authorization[7..])));
    }
    if !Truthy(token) && r.verb == "GET" {
      token := if r.query.Some? then Some(Str(r.query.value)) else None;
    }
    if !Truthy(token) && r.verb == "POST" && r.isJson {
      var data := r.body;
      if data.Some? && data.value != map[] {
        token := if "session_token" in data.value then Some(data.value["session_token"]) else None;
      }
    }
    ChosenIsToken(r, token);
    if !Truthy(token) {
      return Refusal(r, "Authorization required");
    }
    var result := validate(token.value);
    if result.SessionInvalid? {
      return Refusal(r, result.error);
    }
    g := Proceed(result.userId, result.username);
  }

  /**
   * The token the chain of reassignments ends with is falsy exactly when no candidate
   * is truthy, and otherwise it is the first truthy candidate.
   */
  lemma ChosenIsToken(r: Request, token: Option<TokenValue>)
    requires var h := HeaderToken(r);
      var q := if !Truthy(h) && r.verb == "GET" then QueryToken(r) else h;
      var b := if !Truthy(q) && r.verb == "POST" && r.isJson && r.body.Some? && r.body.value != map[]
               then BodyToken(r) else q;
      token == b
    ensures Truthy(token) <==> Chosen(r).Some?
    ensures Truthy(token) ==> Chosen(r) == token
  {
    var c := Candidates(r);
    if r.verb == "GET" {
      assert c == [HeaderToken(r), QueryToken(r)];
      assert FirstTruthy(c[1..]) == FirstTruthy([QueryToken(r)]);
    } else if r.verb == "POST" && r.isJson {
      assert c == [HeaderToken(r), BodyToken(r)];
      assert FirstTruthy(c[1..]) == FirstTruthy([BodyToken(r)]);
    } else {
      assert c == [HeaderToken(r)];
    }
  }

  /** A header with a non-blank Bearer token decides the token, whatever else the request carries. */
  lemma HeaderTakesPrecedence(r: Request)
    requires StartsWith(r.authorization, BearerPrefix) && Strip(r.authorization[7..]) != []
    ensures Chosen(r) == Some(Str(Strip(r.authorization[7..])))
  {
    assert Candidates(r)[0] == HeaderToken(r);
  }

  /** The scheme is matched case-sensitively: without the exact prefix the header gives no token. */
  lemma SchemeIsCaseSensitive(r: Request)
    requires !StartsWith(r.authorization, BearerPrefix)
    ensures r.verb != "GET" && !(r.verb == "POST" && r.isJson) ==> Chosen(r).None?
    ensures r.verb == "GET" ==> Chosen(r) == FirstTruthy([QueryToken(r)])
  {
    var c := Candidates(r);
    if r.verb == "GET" {
      assert c == [None, QueryToken(r)];
      assert c[1..] == [QueryToken(r)];
    } else if !(r.verb == "POST" && r.isJson) {
      assert c == [None];
    }
  }

  /**
   * A header of "Bearer " and white space counts as no token: a GET then falls
   * through to the query argument, which is used unstripped.
   */
  lemma BlankHeaderFallsThrough(r: Request, q: string)
    requires StartsWith(r.authorization, BearerPrefix) && Strip(r.authorization[7..]) == []
    requires r.verb == "GET" && r.query == Some(q) && q != []
    ensures Chosen(r) == Some(Str(q))
  {
    var c := Candidates(r);
    assert c == [Some(Str([])), Some(Str(q))];
    assert c[1..] == [Some(Str(q))];
    assert !Truthy(c[0]) && Truthy(c[1]);
    assert FirstTruthy(c[1..]) == Some(Str(q));
    assert FirstTruthy(c) == FirstTruthy(c[1..]);
  }

  /** The query argument counts for GET only, and the body for JSON POST only. */
  lemma ChannelsByMethod(r: Request, q: Option<string>, b: Option<map<string, TokenValue>>)
    ensures r.verb != "GET" ==> Chosen(r.(query := q)) == Chosen(r)
    ensures !(r.verb == "POST" && r.isJson) ==> Chosen(r.(body := b)) == Chosen(r)
  {
    assert Candidates(r.(query := q))[0] == HeaderToken(r);
    assert Candidates(r.(body := b))[0] == HeaderToken(r);
    if r.verb != "GET" {
      assert Candidates(r.(query := q)) == Candidates(r);
    }
    if !(r.verb == "POST" && r.isJson) {
      assert Candidates(r.(body := b)) == Candidates(r);
    }
  }

  /** The body's token counts only when the body is a non-empty object holding the field. */
  lemma BodyNeedsObject(r: Request)
    requires r.verb == "POST" && r.isJson && !Truthy(HeaderToken(r))
    ensures r.body.None? || r.body.value == map[] || "session_token" !in r.body.value ==> Chosen(r).None?
    ensures r.body.Some? && "session_token" in r.body.value && Truthy(Some(r.body.value["session_token"])) ==>
      Chosen(r) == Some(r.body.value["session_token"])
  {
    assert Candidates(r) == [HeaderToken(r), BodyToken(r)];
  }

  // ---------------------------------------------------------------------------
  // Required fields of the JSON routes

  /**
   * What a route does after its field checks: refuse with a status and an error, or
   * call the user store with the cleaned fields.
   */
  datatype FieldCheck =
    | Refused(status: nat, error: string)
    | CreateUser(username: string, email: string, password: string, fullName: string)
    | Authenticate(username: string, password: string)
    | CheckSession(token: string)

  /** `data.get(key, '')` on a JSON object of strings. */
  function FieldOr(data: map<string, string>, key: string): string {
    if key in data then data[key] else ""
  }

  /** `if not data`: no body, or an empty object. */
  predicate NoData(data: Option<map<string, string>>) {
    data.None? || data.value == map[]
  }

  /** `signup`: stripped username and email and the raw password must be non-empty. */
  function SignupFields(data: Option<map<string, string>>): (c: FieldCheck)
    ensures NoData(data) ==> c == Refused(400, "No data provided")
  {
    if NoData(data) then Refused(400, "No data provided")
    else
      var d := data.value;
      var username := Strip(FieldOr(d, "username"));
      var email := Strip(FieldOr(d, "email"));
      var password := FieldOr(d, "password");
      if username == [] || email == [] || password == [] then
        Refused(400, "Username, email, and password are required")
      else CreateUser(username, email, password, Strip(FieldOr(d, "full_name")))
  }

  /** `login`: the stripped username and the raw password must be non-empty. */
  function LoginFields(data: Option<map<string, string>>): (c: FieldCheck)
    ensures NoData(data) ==> c == Refused(400, "No data provided")
  {
    if NoData(data) then Refused(400, "No data provided")
    else
      var username := Strip(FieldOr(data.value, "username"));
      var password := FieldOr(data.value, "password");
      if username == [] || password == [] then Refused(400, "Username and password are required")
      else Authenticate(username, password)
  }

  /** `validate` and `logout`: the stripped `session_token` field must be non-empty. */
  function SessionFields(data: Option<map<string, string>>): (c: FieldCheck)
    ensures NoData(data) ==> c == Refused(400, "No data provided")
  {
    if NoData(data) then Refused(400, "No data provided")
    else
      var token := Strip(FieldOr(data.value, "session_token"));
      if token == [] then Refused(400, "Session token is required") else CheckSession(token)
  }

  /** `profile`: the header must start with "Bearer " and carry a non-blank token. */
  function ProfileHeader(authorization: string): (c: FieldCheck)
    ensures !StartsWith(authorization, BearerPrefix) ==> c == Refused(401, "Invalid authorization header")
  {
    if !StartsWith(authorization, BearerPrefix) then Refused(401, "Invalid authorization header")
    else
      var token := Strip(authorization[7..]);
      if token == [] then Refused(400, "Session token is required") else CheckSession(token)
  }

  /**
   * Signup reaches the user store exactly when its three required fields are present
   * after the checks, and then with the username and e-mail stripped and the password
   * as sent.
   */
  lemma SignupAccepts(data: Option<map<string, string>>)
    ensures SignupFields(data).CreateUser? <==>
      !NoData(data) && Strip(FieldOr(data.value, "username")) != [] && Strip(FieldOr(data.value, "email")) != []
      && FieldOr(data.value, "password") != []
    ensures SignupFields(data).Refused? ==> SignupFields(data).status == 400
    ensures SignupFields(data).CreateUser? ==>
      var c := SignupFields(data);
      && c.username == Strip(FieldOr(data.value, "username")) && Strip(c.username) == c.username
      && c.email == Strip(FieldOr(data.value, "email")) && Strip(c.email) == c.email
      && c.password == data.value["password"]
  {
    if !NoData(data) {
      StripIdempotent(FieldOr(data.value, "username"));
      StripIdempotent(FieldOr(data.value, "email"));
    }
  }

  /** Login reaches the user store exactly when the stripped username and the password are non-empty. */
  lemma LoginAccepts(data: Option<map<string, string>>)
    ensures LoginFields(data).Authenticate? <==>
      !NoData(data) && Strip(FieldOr(data.value, "username")) != [] && FieldOr(data.value, "password") != []
    ensures LoginFields(data).Refused? ==> LoginFields(data).status == 400
    ensures LoginFields(data).Authenticate? ==>
      LoginFields(data).username == Strip(data.value["username"]) && LoginFields(data).password == data.value["password"]
  {
  }

  /**
   * Validate and logout reach the session store exactly when the stripped token is
   * non-empty, refuse a blank one with "Session token is required", and pass the token
   * on stripped.
   */
  lemma SessionAccepts(data: Option<map<string, string>>)
    ensures SessionFields(data).CheckSession? <==> !NoData(data) && Strip(FieldOr(data.value, "session_token")) != []
    ensures !NoData(data) && Strip(FieldOr(data.value, "session_token")) == [] ==>
      SessionFields(data) == Refused(400, "Session token is required")
    ensures SessionFields(data).CheckSession? ==>
      var token := SessionFields(data).token;
      && token == Strip(data.value["session_token"]) && Strip(token) == token
  {
    if !NoData(data) {
      StripIdempotent(FieldOr(data.value, "session_token"));
    }
  }

  /**
   * A password is never stripped: one made only of spaces is accepted as it is, while
   * a username made only of spaces is refused.
   */
  lemma BlankPasswordKept(data: map<string, string>, spaces: string)
    requires spaces != [] && forall i :: 0 <= i < |spaces| ==> spaces[i] == ' '
    requires "username" in data && Strip(data["username"]) != [] && "password" in data && data["password"] == spaces
    ensures LoginFields(Some(data)) == Authenticate(Strip(data["username"]), spaces)
    ensures LoginFields(Some(data["username" := spaces])) == Refused(400, "Username and password are required")
  {
    var d' := data["username" := spaces];
    assert FieldOr(d', "username") == spaces;
    assert forall i :: 0 <= i < |spaces| ==> IsSpace(spaces[i]);
    assert FieldOr(d', "password") == spaces;
  }

  /**
   * The profile route and the guard read the header alike: when the profile route
   * accepts a header token, the guard chooses the same token for any request with
   * that header.
   */
  lemma ProfileAgreesWithGuard(r: Request)
    ensures ProfileHeader(r.authorization).CheckSession? ==>
      Chosen(r) == Some(Str(ProfileHeader(r.authorization).token))
    ensures ProfileHeader(r.authorization).CheckSession? <==> Truthy(HeaderToken(r))
  {
    if ProfileHeader(r.authorization).CheckSession? {
      HeaderTakesPrecedence(r);
    }
  }

  /** The profile route refuses a missing scheme with 401 and a blank token with 400. */
  lemma ProfileRefusals(authorization: string)
    ensures ProfileHeader(authorization).Refused? ==>
      (ProfileHeader(authorization).status == 401 <==> !StartsWith(authorization, BearerPrefix))
    ensures ProfileHeader(authorization).Refused? ==>
      (ProfileHeader(authorization).status == 400 <==> StartsWith(authorization, BearerPrefix) && Strip(authorization[7..]) == [])
  {
  }
}

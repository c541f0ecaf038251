/** The authentication endpoints (login.ts, checkSession.ts and logout.ts under
    frontend/pages/api/auth) and the session they share.

    The session service (an encrypted, signed cookie) is a `Session` object
    holding an optional user; the store query for users is the parameter
    `query` (email to the query's `Items`), and password verification is the
    uninterpreted parameter `verify(hash, password, salt)`. */
module Auth {
  import opened Wrappers
  import opened Dynamo

  /** `{ email }`, the user in a response body and in the page state. */
  datatype User = User(email: string)

  /** The user record the session holds. The session is a loosely typed bag,
      so the email may be missing. */
  datatype SessionUser = SessionUser(email: Option<string>)

  /** An HTTP response: status and, when present, the body `{ user: { email } }`. */
  datatype Reply = Reply(status: int, user: Option<User>)

  /** What the handler has done to the session cookie. */
  datatype CookieWrite = Untouched | Saved(saved: Option<SessionUser>) | Cleared

  /** JavaScript truthiness of an optional string: present and non-empty. */
  predicate Filled(x: Option<string>)
  {
    x.Some? && x.value != ""
  }

  /** The session of one request. */
  class Session {
    var user: Option<SessionUser>
    var cookie: CookieWrite

    /** The session as loaded from the request's cookie. */
    constructor (user: Option<SessionUser>)
      ensures this.user == user && cookie == Untouched
    {
      this.user := user;
      cookie := Untouched;
    }

    /** `session.save()`: the current contents go into the response cookie. */
    method Save()
      modifies this
      ensures user == old(user) && cookie == Saved(user)
    {
      cookie := Saved(user);
    }

    /** `session.destroy()`: the contents are dropped and the cookie is cleared. */
    method Destroy()
      modifies this
      ensures user == None && cookie == Cleared
    {
      user := None;
      cookie := Cleared;
    }
  }

  /** The request body of a login: both fields may be missing. */
  datatype LoginBody = LoginBody(email: Option<string>, password: Option<string>)

  /** A decoded user record (lines 36-41). */
  datatype StoredUser = StoredUser(email: Option<string>, passwordHash: Option<string>)

  /** `items.map(...)` of lines 36-41: every item is decoded, and the first one
      lacking `email` or `password_hash` throws. */
  function DecodeUsers(items: seq<Item>): (r: Result<seq<StoredUser>, Thrown>)
    ensures r.Ok? <==> forall i :: 0 <= i < |items| ==> "email" in items[i] && "password_hash" in items[i]
    ensures r.Ok? ==> |r.value| == |items|
    ensures r.Ok? ==> forall i :: 0 <= i < |items| ==>
      r.value[i] == StoredUser(OrNull(SValue(items[i]["email"])), OrNull(SValue(items[i]["password_hash"])))
  {
    if |items| == 0 then Ok([])
    else
      var email :- Field(items[0], "email");
      var hash :- Field(items[0], "password_hash");
      var rest :- DecodeUsers(items[1..]);
      Ok([StoredUser(email, hash)] + rest)
  }

  /** The password hash of the first user record, `None` when it is missing or empty. */
  function FirstHash(users: seq<StoredUser>): Option<string>
  {
    if |users| == 0 then None else users[0].passwordHash
  }

  /** A request without a usable email or password is refused with 400 before
      the store is queried: the outcome does not depend on the store at all. */
  lemma BadRequestSkipsStore(body: LoginBody, query: string -> Option<seq<Item>>, other: string -> Option<seq<Item>>,
                             verify: (string, string, string) -> bool, salt: string)
    requires !Filled(body.email) || !Filled(body.password)
    ensures LoginDecision(body, query, verify, salt) == LoginDecision(body, other, verify, salt) == Answer(Reply(400, None), None)
  {
  }

  /** The login handler's outcome: a response and, on success, the user to be
      written into the session; or a TypeError thrown out of the handler. */
  datatype LoginOutcome = Answer(reply: Reply, grant: Option<User>) | Crashed(error: Thrown)

  /** The decision chain of login.ts. */
  function LoginDecision(body: LoginBody, query: string -> Option<seq<Item>>,
                         verify: (string, string, string) -> bool, salt: string): (r: LoginOutcome)
    ensures !Filled(body.email) || !Filled(body.password) ==> r == Answer(Reply(400, None), None)
    ensures Filled(body.email) && Filled(body.password)
            && (query(body.email.value).None? || query(body.email.value) == Some([])) ==>
      r == Answer(Reply(401, None), None)
    ensures r.Crashed? <==>
      && Filled(body.email) && Filled(body.password)
      && query(body.email.value).Some? && |query(body.email.value).value| > 0
      && DecodeUsers(query(body.email.value).value).Err?
    ensures r.Crashed? ==> r == Crashed(DecodeUsers(query(body.email.value).value).error)
    ensures r.Answer? ==> r.reply.status in {200, 400, 401, 500}
    ensures r.Answer? ==> (r.grant.Some? <==> r.reply.status == 200)
    ensures r.Answer? && r.grant.Some? ==>
      && Filled(body.email) && Filled(body.password)
      && r.grant == Some(User(body.email.value)) && r.reply.user == r.grant
      && query(body.email.value).Some? && DecodeUsers(query(body.email.value).value).Ok?
      && FirstHash(DecodeUsers(query(body.email.value).value).value).Some?
      && verify(FirstHash(DecodeUsers(query(body.email.value).value).value).value, body.password.value, salt)
    ensures r.Answer? && r.reply.status == 500 <==>
      && Filled(body.email) && Filled(body.password)
      && query(body.email.value).Some? && |query(body.email.value).value| > 0
      && DecodeUsers(query(body.email.value).value).Ok?
      && FirstHash(DecodeUsers(query(body.email.value).value).value).None?
    ensures r.Answer? && r.reply.status != 200 ==> r.reply.user.None?
  {
    if !Filled(body.email) || !Filled(body.password) then Answer(Reply(400, None), None)
    else
      var email, password := body.email.value, body.password.value;
      match query(email)
      case None => Answer(Reply(401, None), None)
      case Some(items) =>
        if |items| == 0 then Answer(Reply(401, None), None)
        else
          match DecodeUsers(items)
          case Err(e) => Crashed(e)
          case Ok(users) =>
            if |users| == 0 then Answer(Reply(500, None), None)
            else
              match users[0].passwordHash
              case None => Answer(Reply(500, None), None)
              case Some(hash) =>
                if verify(hash, password, salt) then Answer(Reply(200, Some(User(email))), Some(User(email)))
                else Answer(Reply(401, None), None)
  }

  /** With a complete request body and a non-empty, well-formed query result,
      the login succeeds exactly when the first record's hash verifies the
      password; no other record is consulted. */
  lemma LoginVerdict(body: LoginBody, query: string -> Option<seq<Item>>,
                     verify: (string, string, string) -> bool, salt: string, hash: string)
    requires Filled(body.email) && Filled(body.password)
    requires query(body.email.value).Some? && |query(body.email.value).value| > 0
    requires DecodeUsers(query(body.email.value).value).Ok?
    requires FirstHash(DecodeUsers(query(body.email.value).value).value) == Some(hash)
    ensures LoginDecision(body, query, verify, salt)
         == if verify(hash, body.password.value, salt)
            then Answer(Reply(200, Some(User(body.email.value))), Some(User(body.email.value)))
            else Answer(Reply(401, None), None)
  {
  }

  /** `handler` of login.ts: early returns in the source's order; on success
      the session user is set to the request's email and the session saved.
      The session is changed on no other path. */
  method HandleLogin(session: Session, body: LoginBody, query: string -> Option<seq<Item>>,
                     verify: (string, string, string) -> bool, salt: string) returns (r: LoginOutcome)
    modifies session
    ensures r == LoginDecision(body, query, verify, salt)
    ensures r.Answer? && r.grant.Some? ==>
      session.user == Some(SessionUser(Some(r.grant.value.email))) && session.cookie == Saved(session.user)
    ensures !(r.Answer? && r.grant.Some?) ==>
      session.user == old(session.user) && session.cookie == old(session.cookie)
  {
    if !Filled(body.email) || !Filled(body.password) {
      return Answer(Reply(400, None), None);
    }
    var email, password := body.email.value, body.password.value;
    var items := query(email);
    if items.None? || |items.value| == 0 {
      return Answer(Reply(401, None), None);
    }
    var users := DecodeUsers(items.value);
    if users.Err? {
      return Crashed(users.error);
    }
    if |users.value| == 0 {
      return Answer(Reply(500, None), None);
    }
    var hash := users.value[0].passwordHash;
    if hash.None? {
      return Answer(Reply(500, None), None);
    }
    if verify(hash.value, password, salt) {
      session.user := Some(SessionUser(Some(email)));
      session.Save();
      r := Answer(Reply(200, Some(User(email))), Some(User(email)));
    } else {
      r := Answer(Reply(401, None), None);
    }
  }

  /** `handler` of checkSession.ts: it only reads the session user. */
  function CheckSession(user: Option<SessionUser>): (r: Reply)
    ensures r.status == 200 <==> user.Some? && Filled(user.value.email)
    ensures r.status == 200 ==> r.user == Some(User(user.value.email.value))
    ensures r.status != 200 ==> r == Reply(401, None)
  {
    match user
    case None => Reply(401, None)
    case Some(u) => if !Filled(u.email) then Reply(401, None) else Reply(200, Some(User(u.email.value)))
  }

  /** `handler` of logout.ts: with a session user the session is destroyed and
      the response is 200 with an empty body, otherwise 401 and the session is
      left as it was. */
  method Logout(session: Session) returns (r: Reply)
    modifies session
    ensures old(session.user).Some? ==> r == Reply(200, None) && session.user.None? && session.cookie == Cleared
    ensures old(session.user).None? ==>
      r == Reply(401, None) && session.user == old(session.user) && session.cookie == old(session.cookie)
  {
    if session.user.Some? {
      session.Destroy();
      r := Reply(200, None);
    } else {
      r := Reply(401, None);
    }
  }
}

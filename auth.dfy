/**
 * The login decisions of the admin and storefront login handlers, the
 * admin session check, and the user document registration stores. Password
 * hashing is a parameter: `matches(password, hash)` is `bcrypt.compare`
 * and `hash(password, salt)` is `bcrypt.hash`.
 */
module Auth {
  import opened Wrappers
  import opened Text
  import opened ObjectIds
  import opened Schema
  import opened Http

  /**
   * The `Email`, `Password` and `Type` fields of a login body. `Password` is
   * None when the body has none: `bcrypt.compare` then throws.
   */
  datatype Credentials = Credentials(Email: string, Password: Option<string>, Type: string)

  /** A cookie set on a reply, with its attributes. */
  datatype Cookie = Cookie(name: string, value: string, httpOnly: bool, secure: bool, sameSite: string, path: string, maxAge: nat)

  const SessionCookieName: string := "admin-token"

  /** 24 hours, in seconds. */
  const SessionMaxAge: nat := 60 * 60 * 24

  /** The session cookie: the user's id, HTTP-only, secure only in production. */
  function SessionCookie(id: ObjectId, production: bool): Cookie {
    Cookie(SessionCookieName, id, true, production, "lax", "/", SessionMaxAge)
  }

  /** A login reply: the reply, the user document echoed as `output`, and the cookie set. */
  datatype LoginReply = LoginReply(reply: Reply, output: Option<User>, cookie: Option<Cookie>)

  /** `Users.findOne({ Email })`: the one user with that email, if any. */
  function FindByEmail(users: map<ObjectId, User>, email: string): (r: Option<(ObjectId, User)>)
    requires UsersUnique(users)
    ensures r.Some? <==> exists id | id in users :: users[id].Email == email
    ensures r.Some? ==> r.value.0 in users && users[r.value.0] == r.value.1 && r.value.1.Email == email
  {
    if exists id | id in users :: users[id].Email == email then
      var id :| id in users && users[id].Email == email;
      Some((id, users[id]))
    else None
  }

  /** `Users.findOne({ ContactNum })`: whether some user has that number. */
  predicate ContactNumTaken(users: map<ObjectId, User>, contactNum: int) {
    exists id | id in users :: users[id].ContactNum == contactNum
  }

  // ---------------------------------------------------------------------------
  // Login
  // ---------------------------------------------------------------------------

  /** `bcrypt.compare(pass, hash)` resolved to true; false when it throws for want of a password. */
  predicate PasswordMatches(creds: Credentials, hashed: string, matches: (string, string) -> bool) {
    creds.Password.Some? && matches(creds.Password.value, hashed)
  }

  /**
   * The admin login handler after its lookup: unknown email 404, no
   * password 500 (the thrown `compare`), wrong password 400, a `Type` other
   * than the stored one 401, and otherwise 200 with the session cookie.
   */
  function AdminLoginDecision(found: Option<(ObjectId, User)>, creds: Credentials,
                              matches: (string, string) -> bool, production: bool): (r: LoginReply)
    ensures r.reply.status in {200, 400, 401, 404, 500}
    ensures r.reply.status == 404 <==> found.None?
    ensures r.reply.status == 500 <==> found.Some? && creds.Password.None?
    ensures r.reply.status == 500 ==> r.reply == Thrown()
    ensures r.reply.status == 400 <==>
              found.Some? && creds.Password.Some? && !matches(creds.Password.value, found.value.1.HashedPass)
    ensures r.reply.status == 200 <==>
              found.Some? && PasswordMatches(creds, found.value.1.HashedPass, matches) && creds.Type == found.value.1.Type
    ensures r.cookie.Some? <==> r.reply.status == 200
    ensures r.output.Some? <==> r.reply.status == 200
    ensures r.reply.status == 200 ==>
              r.cookie == Some(SessionCookie(found.value.0, production)) && r.output == Some(found.value.1)
  {
    match found
    case None => LoginReply(Message(404, "User not found!"), None, None)
    case Some((id, user)) =>
      if creds.Password.None? then
        LoginReply(Thrown(), None, None)
      else if !matches(creds.Password.value, user.HashedPass) then
        LoginReply(Message(400, "Invalid Email or Password!"), None, None)
      else if creds.Type != user.Type then
        LoginReply(Message(401, "This User is not Authenticated for this Operation"), None, None)
      else
        LoginReply(Message(200, "User authenticated"), Some(user), Some(SessionCookie(id, production)))
  }

  /**
   * The storefront login handler after its lookup. It sets no cookie, and
   * has no branch for an unknown email: the handler then returns nothing
   * (None). A missing password makes `compare` throw, which is 500.
   */
  function UserLoginDecision(found: Option<(ObjectId, User)>, creds: Credentials,
                             matches: (string, string) -> bool): (r: Option<LoginReply>)
    ensures r.None? <==> found.None?
    ensures r.Some? ==> r.value.cookie.None?
    ensures r.Some? ==> (r.value.reply == Thrown() <==> creds.Password.None?)
  {
    match found
    case None => None
    case Some((id, user)) =>
      if creds.Password.None? then
        Some(LoginReply(Thrown(), None, None))
      else if !matches(creds.Password.value, user.HashedPass) then
        Some(LoginReply(Message(400, "Invalid Email or Passwor !"), None, None))
      else if creds.Type != user.Type then
        Some(LoginReply(Message(401, "This User is not Authenticated for this Operation"), None, None))
      else
        Some(LoginReply(Message(200, "User authenticated"), Some(user), None))
  }

  /**
   * For a known email both login handlers reach the same status and echo
   * the same user; the storefront one differs only in its 400 text and in
   * setting no cookie.
   */
  lemma UserLoginAgreesWithAdminLogin(found: Option<(ObjectId, User)>, creds: Credentials,
                                      matches: (string, string) -> bool, production: bool)
    requires found.Some?
    ensures var admin := AdminLoginDecision(found, creds, matches, production);
            var user := UserLoginDecision(found, creds, matches);
            && user.Some?
            && user.value.reply.status == admin.reply.status
            && user.value.output == admin.output
            && (admin.reply.status != 400 ==> user.value.reply == admin.reply)
  {
  }

  // ---------------------------------------------------------------------------
  // Session check
  // ---------------------------------------------------------------------------

  datatype SessionUser = SessionUser(id: ObjectId, email: string, userType: string)

  /** The session check's reply and, on success, the user it reports. */
  datatype CheckReply = CheckReply(reply: Reply, user: Option<SessionUser>)

  /**
   * The admin session check on the `admin-token` cookie (None when absent):
   * it succeeds only for the id of a stored user whose type is "admin".
   * Every failure, including an unreachable store, is a 401.
   */
  function AuthCheck(users: map<ObjectId, User>, online: bool, token: Option<string>): (r: CheckReply)
    ensures r.reply.status == 200 || r.reply.status == 401
    ensures r.reply.status == 200 <==>
              && token.Some? && online && IsValidObjectId(token.value)
              && var id := ParseObjectId(token.value).value; id in users && users[id].Type == "admin"
    ensures r.user.Some? <==> r.reply.status == 200
    ensures r.user.Some? ==>
              && r.user.value.id in users && users[r.user.value.id].Type == "admin"
              && r.user.value.email == users[r.user.value.id].Email
              && EqualsIgnoreCase(r.user.value.id, token.value)
  {
    if token.None? || token.value == "" then CheckReply(Message(401, "Not authenticated"), None)
    else if !IsValidObjectId(token.value) then CheckReply(Message(401, "Invalid token"), None)
    else if !online then CheckReply(Message(401, "Authentication check failed"), None)
    else
      var id := ParseObjectId(token.value).value;
      if id in users && users[id].Type == "admin" then
        CheckReply(Reply(200, "authenticated", "true"), Some(SessionUser(id, users[id].Email, users[id].Type)))
      else CheckReply(Message(401, "User not found or not authorized"), None)
  }

  /**
   * The cookie of a successful admin login passes the session check exactly
   * when the user's stored type is "admin": a login with any other
   * (matching) type yields a cookie the check refuses.
   */
  lemma SessionCookieChecksType(users: map<ObjectId, User>, creds: Credentials,
                                matches: (string, string) -> bool, production: bool)
    requires UsersUnique(users)
    ensures var found := FindByEmail(users, creds.Email);
            var login := AdminLoginDecision(found, creds, matches, production);
            login.cookie.Some? ==>
              var check := AuthCheck(users, true, Some(login.cookie.value.value));
              && (check.reply.status == 200 <==> found.value.1.Type == "admin")
              && (check.user.Some? ==> check.user.value.id == found.value.0)
  {
    var found := FindByEmail(users, creds.Email);
    if AdminLoginDecision(found, creds, matches, production).cookie.Some? {
      ParseCanonical(found.value.0);
      var check := AuthCheck(users, true, Some(found.value.0));
      if check.user.Some? {
        assert EqualsIgnoreCase(check.user.value.id, found.value.0);
        ToLowerIdempotent(found.value.0);
        assert ToLower(check.user.value.id) == check.user.value.id;
      }
    }
  }

  // ---------------------------------------------------------------------------
  // Registration
  // ---------------------------------------------------------------------------

  /** The body of a registration request; `Password` is None when absent, and `bcrypt.hash` then throws. */
  datatype RegisterRequest = RegisterRequest(ContactNum: int, Username: string, Email: string, Password: Option<string>, Type: string)

  /**
   * The document registration creates once `bcrypt.hash` has produced the
   * hash: the salted hash and the salt, never the password.
   */
  function RegisteredUser(req: RegisterRequest, hash: (string, string) -> string, salt: string, now: nat): (u: User)
    requires req.Password.Some?
    ensures u.HashedPass == hash(req.Password.value, salt) && u.SaltPass == salt
    ensures u.ContactNum == req.ContactNum && u.Username == req.Username && u.Email == req.Email && u.Type == req.Type
  {
    User(req.ContactNum, req.Username, req.Email, hash(req.Password.value, salt), salt, req.Type, Timestamps(now, now))
  }

  /**
   * A registered user logs in as an admin with the password and type they
   * registered with, provided `compare` accepts what `hash` produced; the
   * cookie carries their id.
   */
  lemma RegisteredUserLogsIn(users: map<ObjectId, User>, id: ObjectId, req: RegisterRequest,
                             hash: (string, string) -> string, salt: string, now: nat,
                             matches: (string, string) -> bool, production: bool)
    requires req.Password.Some? && UsersUnique(users) && id in users && users[id] == RegisteredUser(req, hash, salt, now)
    requires matches(req.Password.value, hash(req.Password.value, salt))
    ensures var login := AdminLoginDecision(FindByEmail(users, req.Email), Credentials(req.Email, req.Password, req.Type), matches, production);
            login.reply.status == 200 && login.cookie == Some(SessionCookie(id, production))
  {
    var found := FindByEmail(users, req.Email);
    assert found.Some?;
    assert found.value.0 == id;
  }
}

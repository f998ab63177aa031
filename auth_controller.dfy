/**
 * The authentication controller: the account lifecycle as a small sequential
 * state machine over the user store, one client's session and the token table.
 *
 * Each handler is a method of `Controller`; its postcondition gives the status,
 * the message and the new state for every branch, and every handler keeps
 * `Valid()`: the store satisfies the user schema and its uniqueness, and every
 * token in the table is a genuine token for the account that owns it.
 */
module AuthController {
  import opened Wrappers
  import opened Crypto
  import opened Users

  /** Errors a handler throws; `catchAsync` passes them to Express's error handler. */
  datatype Failure =
    | SchemaRejected      // `save` failed a `required` or `match` validator
    | DuplicateKey        // `save` hit a unique index
    | BadToken(error: JwtError)  // `jwt.verify` threw

  /** What a handler does with the request. */
  datatype Response =
    | Next
    | Json(status: nat, error: bool, message: string, user: Option<User>)
    | SendStatus(status: nat)
    | Thrown(failure: Failure)

  function Reply(status: nat, message: string): Response {
    Json(status, false, message, None)
  }

  /** The link a mail carries: `/verify/<token>` or `/reset/<email>/<token>` under the front-end origin. */
  datatype Link = VerifyLink(token: Jwt) | ResetLink(email: string, token: Jwt)

  /** A request to the mailer, recorded instead of sent. */
  datatype Mail = Mail(template: string, to: string, name: string, link: Link)

  /** Both mails use the template named "register". */
  const Template := "register"

  const AlreadyInUse := "The email already in use!"
  const Registered := "Successfully registered!"
  const AlreadyLoggedIn := "You are already logged in!"
  const InvalidEmail := "Invalid email address!"
  const IncorrectPassword := "Incorrect password!"
  const LoggedIn := "Successfully Logged In!"
  const NotAuthenticated := "User not authenticated"
  const AlreadyVerified := "Email already verified"
  const VerificationSent := "Email verification link sent!"
  const UserNotFound := "User not found!"
  const EmailVerified := "Email verified"
  const InvalidToken := "Invalid token or token is expired"
  const ResetSent := "Email reset link sent!"
  const EmailNotFound := "Email not found"
  const PasswordUpdated := "Password updated"

  /**
   * What `save()` reports for a new record: a schema violation first, then a clash with a
   * unique index, otherwise nothing (the record is inserted).
   */
  function SaveOutcome(users: map<string, User>, u: User): (r: Option<Failure>)
    ensures r == None <==> SatisfiesSchema(u) && !ClashesWithAny(users, u)
    ensures r == Some(SchemaRejected) <==> !SatisfiesSchema(u)
  {
    if !SatisfiesSchema(u) then Some(SchemaRejected)
    else if ClashesWithAny(users, u) then Some(DuplicateKey)
    else None
  }

  class Controller {
    /** `process.env.SECRET`, the token signing key. */
    const secret: string
    /** The `Users` collection, keyed by the (trimmed) email of each record. */
    var users: map<string, User>
    /** `req.session.user`: a copy of the record taken at login or registration. */
    var session: Option<User>
    /** The `Token` collection, one token per account, keyed by the owner's email. */
    var tokens: map<string, Jwt>
    /** Mails handed to the mailer, oldest first. */
    var outbox: seq<Mail>

    ghost predicate Valid()
      reads this
    {
      && StoreValid(users)
      && tokens.Keys <= users.Keys
      && (forall k | k in tokens :: tokens[k].Signed? && tokens[k].claims.email == k && tokens[k].signature == HS256(secret, tokens[k].claims))
      && (session.Some? ==> WellFormed(session.value))
    }

    /** No field differs from the pre-state: the handler answered without touching any state. */
    twostate predicate Unchanged()
      reads this
    {
      users == old(users) && session == old(session) && tokens == old(tokens) && outbox == old(outbox)
    }

    constructor (secret: string)
      ensures Valid()
      ensures this.secret == secret && users == map[] && session == None && tokens == map[] && outbox == []
    {
      this.secret := secret;
      users, session, tokens, outbox := map[], None, map[], [];
    }

    /**
     * `generateToken`: signs `{email}` for one hour and upserts it as the account's only
     * token, so the last token issued wins; every other account's entry is untouched.
     */
    method GenerateToken(user: User, now: int) returns (token: Jwt)
      requires Valid() && user.email in users
      modifies this
      ensures Valid()
      ensures token == Sign(user.email, secret, now)
      ensures tokens == old(tokens)[user.email := token]
      ensures tokens.Keys == old(tokens).Keys + {user.email}
      ensures forall k | k in old(tokens) && k != user.email :: tokens[k] == old(tokens)[k]
      ensures users == old(users) && session == old(session) && outbox == old(outbox)
    {
      token := Sign(user.email, secret, now);
      tokens := tokens[user.email := token];
    }

    /**
     * `CreateVerificationEmail`: refuses an account that is already verified with 403;
     * otherwise issues a token and asks the mailer to send the verification link.
     */
    method CreateVerificationEmail(user: User, now: int) returns (refusal: Option<Response>)
      requires Valid() && user.email in users
      modifies this
      ensures Valid()
      ensures users == old(users) && session == old(session)
      ensures user.isVerified ==> refusal == Some(Reply(403, AlreadyVerified)) && tokens == old(tokens) && outbox == old(outbox)
      ensures !user.isVerified ==>
        && refusal == None
        && tokens == old(tokens)[user.email := Sign(user.email, secret, now)]
        && outbox == old(outbox) + [Mail(Template, user.email, user.name, VerifyLink(Sign(user.email, secret, now)))]
    {
      if user.isVerified {
        return Some(Reply(403, AlreadyVerified));
      }
      var token := GenerateToken(user, now);
      outbox := outbox + [Mail(Template, user.email, user.name, VerifyLink(token))];
      refusal := None;
    }

    /** `newUser.save()`: the schema's validators, then the unique indexes, then the insert. */
    method Save(u: User) returns (failure: Option<Failure>)
      requires Valid() && IsTrimmed(u.name) && IsTrimmed(u.username) && IsTrimmed(u.email) && u.email !in users
      modifies this
      ensures Valid()
      ensures failure == SaveOutcome(old(users), u)
      ensures users == if failure.None? then old(users)[u.email := u] else old(users)
      ensures session == old(session) && tokens == old(tokens) && outbox == old(outbox)
    {
      if !SatisfiesSchema(u) {
        return Some(SchemaRejected);
      }
      if ClashesWithAny(users, u) {
        return Some(DuplicateKey);
      }
      InsertKeepsStoreValid(users, u);
      users := users[u.email := u];
      failure := None;
    }

    /**
     * `register` after its lookup found no record for the email: the new record is saved with
     * the password's hash; when `save()` throws nothing changes, otherwise a verification
     * token is issued and mailed and the session holds the new record.
     */
    method Enrol(u: User, now: int) returns (res: Response)
      requires Valid() && IsTrimmed(u.name) && IsTrimmed(u.username) && IsTrimmed(u.email) && u.email !in users
      requires !u.isVerified
      modifies this
      ensures Valid()
      ensures SaveOutcome(old(users), u).Some? ==> res == Thrown(SaveOutcome(old(users), u).value) && Unchanged()
      ensures SaveOutcome(old(users), u).None? ==>
        && res == Reply(201, Registered)
        && users == old(users)[u.email := u]
        && session == Some(u)
        && tokens == old(tokens)[u.email := Sign(u.email, secret, now)]
        && outbox == old(outbox) + [Mail(Template, u.email, u.name, VerifyLink(Sign(u.email, secret, now)))]
    {
      var failure := Save(u);
      if failure.Some? {
        return Thrown(failure.value);
      }
      var _ := CreateVerificationEmail(u, now);
      session := Some(u);
      res := Reply(201, Registered);
    }

    /**
     * `register`: an email already in the store is answered 201 "already in use" and changes
     * nothing; otherwise the record is stored with the password's hash, never the password,
     * a verification token is issued and mailed, and the session holds the new record.
     */
    method Register(name: string, username: string, email: string, password: string, salt: string, now: int)
      returns (res: Response)
      requires Valid()
      modifies this
      ensures Valid()
      ensures Trim(email) in old(users) ==> res == Reply(201, AlreadyInUse) && Unchanged()
      ensures Trim(email) !in old(users) ==>
        var u := NewUser(name, username, email, Hash(password, salt), None);
        var failure := SaveOutcome(old(users), u);
        if failure.Some? then res == Thrown(failure.value) && Unchanged()
        else
          && res == Reply(201, Registered)
          && users == old(users)[Trim(email) := u]
          && users[Trim(email)].password == Hash(password, salt)
          && !users[Trim(email)].isVerified
          && session == Some(u)
          && tokens == old(tokens)[Trim(email) := Sign(Trim(email), secret, now)]
          && outbox == old(outbox) + [Mail(Template, Trim(email), u.name, VerifyLink(Sign(Trim(email), secret, now)))]
    {
      var key := Trim(email);  // `findOne` runs its filter through the `trim` setter
      if key in users {
        return Reply(201, AlreadyInUse);
      }
      var hashPass := Hash(password, salt);
      var newUser := NewUser(name, username, email, hashPass, None);
      res := Enrol(newUser, now);
    }

    /**
     * `login`: refused with 400 while a session user exists; 422 for an unknown email and
     * for a wrong password; otherwise the session holds the stored record. It succeeds
     * exactly when no one is logged in, the email is stored and the password matches.
     */
    method Login(email: string, password: string) returns (res: Response)
      requires Valid()
      modifies this
      ensures Valid()
      ensures users == old(users) && tokens == old(tokens) && outbox == old(outbox)
      ensures old(session).Some? ==> res == Json(400, true, AlreadyLoggedIn, None) && session == old(session)
      ensures old(session).None? && Trim(email) !in users ==> res == Reply(422, InvalidEmail) && session == None
      ensures old(session).None? && Trim(email) in users && !Compare(password, users[Trim(email)].password) ==>
        res == Reply(422, IncorrectPassword) && session == None
      ensures res.Json? && res.status == 200 <==>
        old(session).None? && Trim(email) in users && Compare(password, users[Trim(email)].password)
      ensures res.Json? && res.status == 200 ==>
        session == Some(users[Trim(email)]) && res == Json(200, false, LoggedIn, session)
    {
      if session.Some? {
        return Json(400, true, AlreadyLoggedIn, None);
      }
      var key := Trim(email);
      if key !in users {
        return Reply(422, InvalidEmail);
      }
      var user := users[key];
      var passMatch := Compare(password, user.password);
      if !passMatch {
        return Reply(422, IncorrectPassword);
      }
      assert WellFormed(user);
      session := Some(user);
      res := Json(200, false, LoggedIn, Some(user));
    }

    /** `logout`: whatever the state, the session ends and the reply is 200; the next `auth` refuses. */
    method Logout() returns (res: Response)
      requires Valid()
      modifies this
      ensures Valid()
      ensures session == None && res == SendStatus(200)
      ensures users == old(users) && tokens == old(tokens) && outbox == old(outbox)
      ensures Auth() == Json(401, true, NotAuthenticated, None)
    {
      session := None;
      res := SendStatus(200);
    }

    /** `auth`: lets the request through exactly when a session user exists, and answers 401 otherwise. */
    function Auth(): (r: Response)
      reads this
      ensures r == Next <==> session.Some?
      ensures session.None? ==> r == Json(401, true, NotAuthenticated, None)
    {
      if session.Some? then Next else Json(401, true, NotAuthenticated, None)
    }

    /** `getAuth`: 200 with the session's copy of the record. */
    function GetAuth(): (r: Response)
      reads this
      ensures r.Json? && r.status == 200 && r.user == session
    {
      Json(200, false, LoggedIn, session)
    }

    /**
     * `reqEmailVerify`: for a stored, unverified account a new token is issued and mailed and
     * the reply is 201; a verified account gets the 403 of `CreateVerificationEmail`; an
     * unknown email gets "User not found!" with the default status 200.
     */
    method ReqEmailVerify(email: string, now: int) returns (res: Response)
      requires Valid()
      modifies this
      ensures Valid()
      ensures users == old(users) && session == old(session)
      ensures Trim(email) !in users ==> res == Reply(200, UserNotFound) && Unchanged()
      ensures Trim(email) in users && users[Trim(email)].isVerified ==> res == Reply(403, AlreadyVerified) && Unchanged()
      ensures Trim(email) in users && !users[Trim(email)].isVerified ==>
        && res == Reply(201, VerificationSent)
        && tokens == old(tokens)[Trim(email) := Sign(Trim(email), secret, now)]
        && outbox == old(outbox) + [Mail(Template, Trim(email), users[Trim(email)].name, VerifyLink(Sign(Trim(email), secret, now)))]
    {
      var key := Trim(email);
      if key in users {
        var user := users[key];
        var refusal := CreateVerificationEmail(user, now);
        if refusal.Some? {
          return refusal.value;
        }
        return Reply(201, VerificationSent);
      }
      res := Reply(200, UserNotFound);
    }

    /**
     * `verifyEmail`: a token that does not verify throws (not the 404 branch); a token whose
     * email differs from the supplied one is answered 404 and changes nothing; otherwise the
     * record under that email, if any, becomes verified and nothing else changes.
     */
    method VerifyEmail(email: string, token: Jwt, now: int) returns (res: Response)
      requires Valid()
      modifies this
      ensures Valid()
      ensures session == old(session) && tokens == old(tokens) && outbox == old(outbox)
      ensures Verify(token, secret, now).Failure? ==>
        res == Thrown(BadToken(Verify(token, secret, now).error)) && users == old(users)
      ensures Verify(token, secret, now).Success? && Verify(token, secret, now).value != email ==>
        res == Reply(404, InvalidToken) && users == old(users)
      ensures Verify(token, secret, now) == Success(email) ==>
        && res == Reply(200, EmailVerified)
        && users == if Trim(email) in old(users)
                    then old(users)[Trim(email) := old(users)[Trim(email)].(isVerified := true)]
                    else old(users)
    {
      var decode := Verify(token, secret, now);
      if decode.Failure? {
        return Thrown(BadToken(decode.error));
      }
      if decode.value == email {
        var key := Trim(email);
        if key in users {
          UpdateKeepsStoreValid(users, key, users[key].(isVerified := true));
          users := users[key := users[key].(isVerified := true)];
        }
        res := Reply(200, EmailVerified);
      } else {
        res := Reply(404, InvalidToken);
      }
    }

    /**
     * `resetPassword`: for a stored email a new token is issued and a reset link mailed,
     * and the reply is 200; an unknown email is answered 404 and changes nothing.
     */
    method ResetPassword(email: string, now: int) returns (res: Response)
      requires Valid()
      modifies this
      ensures Valid()
      ensures users == old(users) && session == old(session)
      ensures Trim(email) !in users ==> res == Reply(404, EmailNotFound) && Unchanged()
      ensures Trim(email) in users ==>
        && res == Reply(200, ResetSent)
        && tokens == old(tokens)[Trim(email) := Sign(Trim(email), secret, now)]
        && outbox == old(outbox) + [Mail(Template, email, users[Trim(email)].name, ResetLink(email, Sign(Trim(email), secret, now)))]
    {
      var key := Trim(email);
      if key in users {
        var user := users[key];
        var token := GenerateToken(user, now);
        outbox := outbox + [Mail(Template, email, user.name, ResetLink(email, token))];
      } else {
        return Reply(404, EmailNotFound);
      }
      res := Reply(200, ResetSent);
    }

    /**
     * `changePassword`: a token that does not verify throws; a token whose email differs
     * from the supplied one is answered 404 and changes nothing; otherwise the record under
     * that email, if any, gets the new password's hash and nothing else changes. The
     * confirmation field is never read, and the token stays usable.
     */
    method ChangePassword(newPass: string, email: string, token: Jwt, salt: string, now: int) returns (res: Response)
      requires Valid()
      modifies this
      ensures Valid()
      ensures session == old(session) && tokens == old(tokens) && outbox == old(outbox)
      ensures Verify(token, secret, now).Failure? ==>
        res == Thrown(BadToken(Verify(token, secret, now).error)) && users == old(users)
      ensures Verify(token, secret, now).Success? && Verify(token, secret, now).value != email ==>
        res == Reply(404, InvalidToken) && users == old(users)
      ensures Verify(token, secret, now) == Success(email) ==>
        && res == Reply(200, PasswordUpdated)
        && users == if Trim(email) in old(users)
                    then old(users)[Trim(email) := old(users)[Trim(email)].(password := Hash(newPass, salt))]
                    else old(users)
    {
      var decode := Verify(token, secret, now);
      if decode.Failure? {
        return Thrown(BadToken(decode.error));
      }
      if decode.value == email {
        var hashPass := Hash(newPass, salt);
        var key := Trim(email);
        if key in users {
          UpdateKeepsStoreValid(users, key, users[key].(password := hashPass));
          users := users[key := users[key].(password := hashPass)];
        }
        res := Reply(200, PasswordUpdated);
      } else {
        res := Reply(404, InvalidToken);
      }
    }
  }

  /**
   * A password change carried through: once `changePassword` accepts a token for a stored
   * email, logging in with a password whose bcrypt key differs from the new one's is
   * refused, and logging in with the new one succeeds with the updated record.
   */
  method ChangeThenLogin(c: Controller, email: string, token: Jwt, newPass: string, oldPass: string, salt: string, now: int)
    returns (changed: Response, withOld: Response, withNew: Response)
    requires c.Valid() && c.session.None? && email in c.users
    requires Verify(token, c.secret, now) == Success(email)
    requires Key(oldPass) != Key(newPass)
    modifies c
    ensures changed == Reply(200, PasswordUpdated)
    ensures withOld == Reply(422, IncorrectPassword)
    ensures withNew.Json? && withNew.status == 200
    ensures c.session.Some? && c.session.value.email == email && c.session.value.password == Hash(newPass, salt)
  {
    assert WellFormed(c.users[email]);
    changed := c.ChangePassword(newPass, email, token, salt, now);
    withOld := c.Login(email, oldPass);
    withNew := c.Login(email, newPass);
  }

  /**
   * Registration followed by the mailed link: within the hour, the token the registration
   * mailed verifies the new account.
   */
  method RegisterThenVerify(c: Controller, name: string, username: string, email: string, password: string, salt: string, now: int, later: int)
    returns (registered: Response, verified: Response)
    requires c.Valid() && Trim(email) !in c.users
    requires SaveOutcome(c.users, NewUser(name, username, email, Hash(password, salt), None)).None?
    requires now <= later < now + ExpiresIn
    modifies c
    ensures registered == Reply(201, Registered)
    ensures verified == Reply(200, EmailVerified)
    ensures Trim(email) in c.users && c.users[Trim(email)].isVerified
  {
    ghost var u := NewUser(name, username, email, Hash(password, salt), None);
    registered := c.Register(name, username, email, password, salt, now);
    var key := Trim(email);
    var token := Sign(key, c.secret, now);
    assert c.outbox[|c.outbox| - 1] == Mail(Template, key, u.name, VerifyLink(token));
    assert c.users[key] == u;
    var mail := c.outbox[|c.outbox| - 1];
    VerifySigned(key, c.secret, now, later);
    verified := c.VerifyEmail(key, mail.link.token, later);
  }
}

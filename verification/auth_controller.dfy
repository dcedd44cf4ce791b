/**
 Signup and login (`server/controllers/authController.js`) as decisions over
 the e-mail-keyed user collection. Signing a JSON Web Token is replaced by a
 token value that records the user id and its validity window.
 */
module AuthController {
  import opened Http
  import opened UserModel

  /** `expiresIn: "7d"`, in seconds. */
  const TokenLifetime: nat := 7 * 24 * 60 * 60

  /** A signed token `{ userId }` with its `iat` and `exp` claims (seconds). */
  datatype Token = Token(userId: UserId, issuedAt: nat, expiresAt: nat)

  /** `jwt.sign({ userId }, secret, { expiresIn: "7d" })` at time `now`
      (milliseconds): `iat` is the current time in whole seconds. */
  function Issue(id: UserId, now: Timestamp): (t: Token)
    ensures t.userId == id
    ensures t.expiresAt == t.issuedAt + TokenLifetime
    ensures t.issuedAt * 1000 <= now < (t.issuedAt + 1) * 1000
  {
    Token(id, now / 1000, now / 1000 + TokenLifetime)
  }

  /** The `user` object of a response: id, name and e-mail, and no password. */
  datatype PublicUser = PublicUser(id: UserId, name: string, email: string)

  /** The body of a successful signup or login. */
  datatype Session = Session(msg: string, token: Token, user: PublicUser)

  /** The collection afterwards and the response. */
  datatype AuthStep = AuthStep(users: Users, reply: Reply<Session>)

  const MissingFields: string := "Missing required fields"
  const EmailTaken: string := "Email already registered"
  const Registered: string := "User registered successfully"
  const UserNotFound: string := "User not found"
  const InvalidPassword: string := "Invalid password"
  const LoggedIn: string := "Login successful"

  /** JavaScript truthiness of a string body field: absent and empty strings
      are falsy. */
  predicate Truthy(v: Option<string>)
  {
    v.Some? && v.value != ""
  }

  /** The response's view of a stored user. */
  function Public(doc: UserDoc): PublicUser
  {
    PublicUser(doc.id, doc.name, doc.email)
  }

  /** Storing a document under a new e-mail adds exactly that key and keeps
      every other document. */
  lemma StoreUnder(users: Users, e: string, doc: UserDoc)
    requires e !in users
    ensures users[e := doc].Keys == users.Keys + {e}
    ensures |users[e := doc]| == |users| + 1
    ensures forall e' :: e' in users ==> users[e := doc][e'] == users[e']
  {
    assert users[e := doc].Keys == users.Keys + {e};
  }

  /** `signup`. The checks run in order: a missing or empty field answers 400
      "Missing required fields", then an e-mail already registered answers 400
      "Email already registered"; both leave the collection alone. Otherwise the
      new document (password hashed by the pre-save hook) is stored under its
      e-mail and the answer is 201 with a token for its id. A duplicate `_id`
      fails the save and answers 500. */
  function Signup(users: Users, name: Option<string>, email: Option<string>, password: Option<string>,
                  newId: UserId, salt: Salt, now: Timestamp): (r: AuthStep)
    ensures !(Truthy(name) && Truthy(email) && Truthy(password)) ==>
              r == AuthStep(users, Error(BadRequest, MissingFields))
    ensures Truthy(name) && Truthy(email) && Truthy(password) && email.value in users ==>
              r == AuthStep(users, Error(BadRequest, EmailTaken))
    ensures r.reply.Ok? <==> Truthy(name) && Truthy(email) && Truthy(password)
                             && email.value !in users && !IdTaken(users, newId)
    ensures r.reply.Error? ==> r.users == users
    ensures r.reply.Ok? ==>
              && r.reply.status == Created
              && r.users.Keys == users.Keys + {email.value}
              && |r.users| == |users| + 1
              && (forall e :: e in users ==> r.users[e] == users[e])
              && r.users[email.value].id == newId
              && r.users[email.value].name == name.value
              && r.users[email.value].password.Hashed?
              && ComparePassword(r.users[email.value], password.value)
              && r.reply.value == Session(Registered, Issue(newId, now), PublicUser(newId, name.value, email.value))
  {
    if !Truthy(name) || !Truthy(email) || !Truthy(password) then
      AuthStep(users, Error(BadRequest, MissingFields))
    else if email.value in users then
      AuthStep(users, Error(BadRequest, EmailTaken))
    else if exists e :: e in users && users[e].id == newId then
      AuthStep(users, Error(ServerError, ServerErrorMsg))
    else
      var doc := PreSave(NewUser(newId, name.value, email.value, password.value, now), salt);
      var users' := users[email.value := doc];
      StoreUnder(users, email.value, doc);
      AuthStep(users', Ok(Created, Session(Registered, Issue(newId, now), Public(doc))))
  }

  /** `login`: 404 "User not found" for an unregistered e-mail; a missing
      password makes `bcrypt.compare` throw, which answers 500; a password that
      does not match the stored hash answers 401 "Invalid password"; otherwise
      200 with a token for the stored user. Login returns no new collection: it
      writes nothing. */
  function Login(users: Users, email: string, password: Option<string>, now: Timestamp): (r: Reply<Session>)
    ensures email !in users ==> r == Error(NotFound, UserNotFound)
    ensures email in users && password.None? ==> r == Error(ServerError, ServerErrorMsg)
    ensures email in users && password.Some? && !ComparePassword(users[email], password.value) ==>
              r == Error(Unauthorized, InvalidPassword)
    ensures r.Ok? <==> email in users && password.Some? && ComparePassword(users[email], password.value)
    ensures r.Ok? ==> && r.status == OK
                      && r.value.token.userId == users[email].id
                      && r.value.user == Public(users[email])
  {
    if email !in users then Error(NotFound, UserNotFound)
    else
      var doc := users[email];
      if password.None? then Error(ServerError, ServerErrorMsg)
      else if !ComparePassword(doc, password.value) then Error(Unauthorized, InvalidPassword)
      else Ok(OK, Session(LoggedIn, Issue(doc.id, now), Public(doc)))
  }

  /** Storing a hashed, complete document under its new e-mail and with an
      unused id keeps the collection well formed. */
  lemma StoreKeepsWellFormed(users: Users, doc: UserDoc)
    requires WellFormed(users)
    requires doc.email !in users && !IdTaken(users, doc.id)
    requires doc.password.Hashed? && HasRequiredFields(doc)
    ensures WellFormed(users[doc.email := doc])
  {
    var r := users[doc.email := doc];
    forall e1, e2 | e1 in r && e2 in r && r[e1].id == r[e2].id
      ensures e1 == e2
    {
      assert e1 != doc.email ==> r[e1] == users[e1];
      assert e2 != doc.email ==> r[e2] == users[e2];
    }
  }

  /** A successful signup keeps the collection well formed. */
  lemma SignupKeepsUsersWellFormed(users: Users, name: Option<string>, email: Option<string>, password: Option<string>,
                                   newId: UserId, salt: Salt, now: Timestamp)
    requires WellFormed(users)
    ensures WellFormed(Signup(users, name, email, password, newId, salt, now).users)
  {
    var r := Signup(users, name, email, password, newId, salt, now);
    if r.reply.Ok? {
      var doc := PreSave(NewUser(newId, name.value, email.value, password.value, now), salt);
      assert r.users == users[email.value := doc];
      StoreKeepsWellFormed(users, doc);
    }
  }

  /** After a successful signup, logging in with the same e-mail and password
      succeeds and yields a token for the new user. */
  lemma SignupThenLogin(users: Users, name: Option<string>, email: Option<string>, password: Option<string>,
                         newId: UserId, salt: Salt, now: Timestamp, later: Timestamp)
    requires Signup(users, name, email, password, newId, salt, now).reply.Ok?
    ensures var r := Signup(users, name, email, password, newId, salt, now);
            var l := Login(r.users, email.value, password, later);
            && l.Ok? && l.value.token.userId == newId
            && l.value.user == r.reply.value.user
  {
  }

  /** A signup with a registered e-mail fails whatever name and password come
      with it. */
  lemma DuplicateSignupRejected(users: Users, name: Option<string>, password: Option<string>,
                                email: string, newId: UserId, salt: Salt, now: Timestamp)
    requires email in users && Truthy(name) && Truthy(password) && email != ""
    ensures Signup(users, name, Some(email), password, newId, salt, now) == AuthStep(users, Error(BadRequest, EmailTaken))
  {
  }
}

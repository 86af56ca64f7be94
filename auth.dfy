/**
 * The authentication routes of the blog API (`/auth`): registration, login and
 * the current-user lookup, over an in-memory user collection. Password hashing
 * and token signing are foreign; they appear here as plain records.
 */
module Auth {
  import opened Wrappers
  import opened Http
  import Lookup

  /** A stored password digest. Verifying a password against it succeeds exactly for the hashed password. */
  datatype Hash = Hashed(password: string)

  function HashPassword(password: string): (h: Hash) {
    Hashed(password)
  }

  /** `comparePassword`: does `password` verify against the digest `h`? */
  predicate PasswordMatches(h: Hash, password: string) {
    h == HashPassword(password)
  }

  /** A password verifies against the digest saved for a password exactly when it is that password. */
  lemma PasswordMatchesExactly(saved: string, attempt: string)
    ensures PasswordMatches(HashPassword(saved), attempt) <==> attempt == saved
  {
  }

  datatype User = User(id: UserId, username: string, email: string, password: Hash)

  /** A user as the API returns it: every field but the password. */
  datatype PublicUser = PublicUser(id: UserId, username: string, email: string)

  function Public(u: User): PublicUser {
    PublicUser(u.id, u.username, u.email)
  }

  /** A signed token's claims: its subject, when it was issued, and when it expires (seconds). */
  datatype Token = Token(userId: UserId, issuedAt: int, expiresAt: int)

  /** `expiresIn: '24h'`. */
  const TokenLifetime := 24 * 60 * 60

  /** The token issued at `now` for `userId`. */
  function IssueToken(userId: UserId, now: int): (t: Token)
    ensures t.userId == userId && t.expiresAt - t.issuedAt == 86400 && t.issuedAt == now
  {
    Token(userId, now, now + TokenLifetime)
  }

  /** The body of a successful register or login reply. */
  datatype Session = Session(message: string, user: PublicUser, token: Token)

  /** Request bodies; "" stands for a field that is absent or empty. */
  datatype RegisterBody = RegisterBody(username: string, email: string, password: string)
  datatype LoginBody = LoginBody(email: string, password: string)

  const MissingRegisterFields := "Please provide all required fields"
  const EmailTaken := "Email already registered"
  const UsernameTaken := "Username already taken"
  const Registered := "User registered successfully"
  const MissingLoginFields := "Please provide email and password"
  const InvalidCredentials := "Invalid email or password"
  const LoggedIn := "Login successful"
  const UserNotFound := "User not found"

  /** Usernames and emails are each unique across the store, and ids are unique and below `nextId`. */
  ghost predicate UniqueUsers(users: seq<User>, nextId: UserId) {
    && (forall i, j :: 0 <= i < j < |users| ==> users[i].username != users[j].username)
    && (forall i, j :: 0 <= i < j < |users| ==> users[i].email != users[j].email)
    && (forall i, j :: 0 <= i < j < |users| ==> users[i].id != users[j].id)
    && (forall i :: 0 <= i < |users| ==> users[i].id < nextId)
  }

  /** `findOne({ $or: [{ email }, { username }] })`: the first user with that email or that username. */
  function FindConflict(users: seq<User>, email: string, username: string): (r: Option<nat>)
    ensures r.Some? ==> r.value < |users| && (users[r.value].email == email || users[r.value].username == username)
    ensures r.Some? ==> forall j :: 0 <= j < r.value ==> users[j].email != email && users[j].username != username
    ensures r.None? <==> forall j :: 0 <= j < |users| ==> users[j].email != email && users[j].username != username
  {
    Lookup.FindFirst(users, (u: User) => u.email == email || u.username == username)
  }

  /**
   * The message register gives when the requested email or username is in use:
   * none when no user has either; otherwise it is chosen by the first user
   * found, "Email already registered" exactly when that user has the email.
   */
  function ConflictMessage(users: seq<User>, email: string, username: string): (r: Option<string>)
    ensures r.None? <==> forall u :: u in users ==> u.email != email && u.username != username
    ensures r == Some(EmailTaken) ==> exists u :: u in users && u.email == email
    ensures r == Some(UsernameTaken) ==> exists u :: u in users && u.username == username && u.email != email
    ensures r.Some? ==> r == Some(EmailTaken) || r == Some(UsernameTaken)
    ensures forall i :: 0 <= i < |users| && (users[i].email == email || users[i].username == username)
                     && (forall j :: 0 <= j < i ==> users[j].email != email && users[j].username != username)
                     ==> r == Some(if users[i].email == email then EmailTaken else UsernameTaken)
  {
    match FindConflict(users, email, username)
    case None =>
      assert forall u :: u in users ==> u.email != email && u.username != username by {
        forall u | u in users ensures u.email != email && u.username != username {
          var i :| 0 <= i < |users| && users[i] == u;
        }
      }
      None
    case Some(k) => Some(if users[k].email == email then EmailTaken else UsernameTaken)
  }

  /** `findOne({ email })`: the first user with that email. */
  function FindByEmail(users: seq<User>, email: string): (r: Option<nat>)
    ensures r.Some? ==> r.value < |users| && users[r.value].email == email
    ensures r.Some? ==> forall j :: 0 <= j < r.value ==> users[j].email != email
    ensures r.None? <==> forall j :: 0 <= j < |users| ==> users[j].email != email
  {
    Lookup.FindFirst(users, (u: User) => u.email == email)
  }

  /** The user found by email is the first holder of that email. */
  lemma FirstHolderFound(users: seq<User>, email: string, i: nat)
    requires i < |users| && users[i].email == email
    requires forall j :: 0 <= j < i ==> users[j].email != email
    ensures FindByEmail(users, email) == Some(i)
  {
    var found := FindByEmail(users, email);
    assert found.Some?;
    assert !(found.value < i) && !(i < found.value);
  }

  /** `findById`: the first user with that id. */
  function FindById(users: seq<User>, id: UserId): (r: Option<nat>)
    ensures r.Some? ==> r.value < |users| && users[r.value].id == id
    ensures r.Some? ==> forall j :: 0 <= j < r.value ==> users[j].id != id
    ensures r.None? <==> forall j :: 0 <= j < |users| ==> users[j].id != id
  {
    Lookup.FindFirst(users, (u: User) => u.id == id)
  }

  /**
   * The `POST /auth/login` route at time `now`: 400 when a field is missing;
   * 401 with one and the same message for an unknown email and for a wrong
   * password; otherwise the user without the password and a 24-hour token for it.
   */
  function Login(users: seq<User>, body: LoginBody, now: int): (r: Reply<Session>)
    ensures (body.email == "" || body.password == "") <==> r == Fail(BadRequest, MissingLoginFields)
    ensures body.email != "" && body.password != "" && (forall u :: u in users ==> u.email != body.email)
      ==> r == Fail(Unauthorized, InvalidCredentials)
    ensures r.Fail? ==> r == Fail(BadRequest, MissingLoginFields) || r == Fail(Unauthorized, InvalidCredentials)
    ensures r.Ok? ==> r.status == OK && r.value.message == LoggedIn
    ensures r.Ok? ==> exists u :: u in users && u.email == body.email && PasswordMatches(u.password, body.password)
                               && r.value.user == Public(u) && r.value.token == IssueToken(u.id, now)
    ensures forall i :: 0 <= i < |users| && users[i].email == body.email
                     && (forall j :: 0 <= j < i ==> users[j].email != body.email)
                     && body.email != "" && body.password != ""
                     ==> r == if PasswordMatches(users[i].password, body.password)
                             then Ok(OK, Session(LoggedIn, Public(users[i]), IssueToken(users[i].id, now)))
                             else Fail(Unauthorized, InvalidCredentials)
  {
    assert forall i :: 0 <= i < |users| && users[i].email == body.email
                     && (forall j :: 0 <= j < i ==> users[j].email != body.email)
                     ==> FindByEmail(users, body.email) == Some(i) by {
      forall i | 0 <= i < |users| && users[i].email == body.email && (forall j :: 0 <= j < i ==> users[j].email != body.email)
        ensures FindByEmail(users, body.email) == Some(i)
      {
        FirstHolderFound(users, body.email, i);
      }
    }
    if body.email == "" || body.password == "" then Fail(BadRequest, MissingLoginFields)
    else match FindByEmail(users, body.email)
      case None => Fail(Unauthorized, InvalidCredentials)
      case Some(i) =>
        var u := users[i];
        if !PasswordMatches(u.password, body.password) then Fail(Unauthorized, InvalidCredentials)
        else Ok(OK, Session(LoggedIn, Public(u), IssueToken(u.id, now)))
  }

  /** With unique emails, the user holding the email logs in with the password saved for them. */
  lemma RightPasswordLogsIn(users: seq<User>, nextId: UserId, i: nat, password: string, now: int)
    requires UniqueUsers(users, nextId)
    requires i < |users| && users[i].email != "" && password != ""
    requires users[i].password == HashPassword(password)
    ensures Login(users, LoginBody(users[i].email, password), now)
         == Ok(OK, Session(LoggedIn, Public(users[i]), IssueToken(users[i].id, now)))
  {
  }

  /** With unique emails, a known email and a wrong password fail exactly like an unknown email. */
  lemma WrongPasswordLooksLikeUnknownEmail(users: seq<User>, nextId: UserId, body: LoginBody, now: int)
    requires UniqueUsers(users, nextId)
    requires body.email != "" && body.password != ""
    requires exists u :: u in users && u.email == body.email && !PasswordMatches(u.password, body.password)
    ensures Login(users, body, now) == Fail(Unauthorized, InvalidCredentials)
  {
    var u :| u in users && u.email == body.email && !PasswordMatches(u.password, body.password);
    var k :| 0 <= k < |users| && users[k] == u;
    var found := FindByEmail(users, body.email);
    assert found.Some?;
    var i := found.value;
    assert i == k;
  }

  /** The `GET /auth/me` route for the token's subject `userId`: that user without the password, or 404. */
  function Me(users: seq<User>, userId: UserId): (r: Reply<PublicUser>)
    ensures r.Fail? <==> forall u :: u in users ==> u.id != userId
    ensures r.Fail? ==> r == Fail(NotFound, UserNotFound)
    ensures r.Ok? ==> r.status == OK && r.value.id == userId
    ensures r.Ok? ==> exists u :: u in users && u.id == userId && r.value == Public(u)
  {
    match FindById(users, userId)
    case None =>
      assert forall u :: u in users ==> u.id != userId by {
        forall u | u in users ensures u.id != userId {
          var i :| 0 <= i < |users| && users[i] == u;
        }
      }
      Fail(NotFound, UserNotFound)
    case Some(i) => Ok(OK, Public(users[i]))
  }

  /** Saving a user whose username and email nobody has, under a fresh id, keeps the store's uniqueness. */
  lemma AppendKeepsUnique(users: seq<User>, nextId: UserId, u: User)
    requires UniqueUsers(users, nextId)
    requires ConflictMessage(users, u.email, u.username).None?
    requires u.id == nextId
    ensures UniqueUsers(users + [u], nextId + 1)
  {
    var after := users + [u];
    forall i, j | 0 <= i < j < |after|
      ensures after[i].username != after[j].username && after[i].email != after[j].email
      ensures after[i].id != after[j].id
    {
      if j == |users| {
        assert after[i] in users;
      }
    }
  }

  /** The user collection; `nextId` is the id the store gives to the next user it saves. */
  class UserStore {
    var users: seq<User>
    var nextId: UserId

    ghost predicate Valid()
      reads this
    {
      UniqueUsers(users, nextId)
    }

    constructor ()
      ensures Valid() && users == []
    {
      users := [];
      nextId := 0;
    }

    /**
     * The `POST /auth/register` route at time `now`: 400 when a field is
     * missing; 400 when some user already has the email or the username;
     * otherwise saves exactly one new user with a hashed password and replies
     * 201 with that user, without the password, and a 24-hour token for it.
     */
    method Register(body: RegisterBody, now: int) returns (r: Reply<Session>)
      requires Valid()
      modifies this
      ensures Valid()
      ensures body.username == "" || body.email == "" || body.password == "" ==>
        r == Fail(BadRequest, MissingRegisterFields) && users == old(users) && nextId == old(nextId)
      ensures body.username != "" && body.email != "" && body.password != "" ==>
        var conflict := ConflictMessage(old(users), body.email, body.username);
        if conflict.Some? then
          r == Fail(BadRequest, conflict.value) && users == old(users) && nextId == old(nextId)
        else
          var u := User(old(nextId), body.username, body.email, HashPassword(body.password));
          && users == old(users) + [u]
          && r == Ok(Created, Session(Registered, Public(u), IssueToken(u.id, now)))
    {
      if body.username == "" || body.email == "" || body.password == "" {
        return Fail(BadRequest, MissingRegisterFields);
      }
      var conflict := ConflictMessage(users, body.email, body.username);
      if conflict.Some? {
        return Fail(BadRequest, conflict.value);
      }
      var u := User(nextId, body.username, body.email, HashPassword(body.password));
      AppendKeepsUnique(users, nextId, u);
      users := users + [u];
      nextId := nextId + 1;
      r := Ok(Created, Session(Registered, Public(u), IssueToken(u.id, now)));
    }
  }

  /**
   * In the model, where `findOne` follows store order: when one user has the
   * requested username and a later one has the requested email, register
   * reports the username, not the email.
   */
  lemma FirstMatchDecidesMessage()
    ensures var users := [User(0, "amy", "amy@x.com", Hashed("p1")), User(1, "bob", "bob@x.com", Hashed("p2"))];
      ConflictMessage(users, "bob@x.com", "amy") == Some(UsernameTaken)
  {
  }
}

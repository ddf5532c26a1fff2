/**
 * The authentication routes of the flat-file backend: registration over the
 * shared in-memory `users` array, login, and the current-user lookup.
 * Password hashing and comparison, token signing and verification, id
 * generation and the clock are parameters.
 */
module AuthRoutes {
  import opened Wrappers
  import opened JsText
  import Validation
  import Bearer

  /** A stored user; `password` holds the hash, never the password itself. */
  datatype User = User(id: string, username: string, email: string, password: string, createdAt: int)

  /** A user as the routes send it: the stored record without its `password`. */
  datatype PublicUser = PublicUser(id: string, username: string, email: string, createdAt: int)

  /** The JSON body of a registration; None is a field not sent. */
  datatype RegisterBody = RegisterBody(username: Option<string>, email: Option<string>, password: Option<string>)

  /** The replies of the three routes. None of them has room for a password. */
  datatype AuthReply =
    | Failed(status: int, message: string)
    | Registered(user: PublicUser)
    | LoggedIn(token: string, user: PublicUser)
    | Profile(user: PublicUser)
  {
    /** The HTTP status of the reply. */
    function Status(): int {
      match this
      case Failed(status, _) => status
      case Registered(_) => 201
      case LoggedIn(_, _) => 200
      case Profile(_) => 200
    }
  }

  const FieldsRequired := "All fields are required"
  const InvalidEmail := "Invalid email format"
  const ShortPassword := "Password must be at least 6 characters long"
  const AlreadyExists := "User with this email or username already exists"
  const CredentialsRequired := "Email and password are required"
  const InvalidCredentials := "Invalid credentials"
  const NoToken := "No token provided"
  const InvalidToken := "Invalid token"
  const UserNotFound := "User not found"

  /** `const { password: _, ...userResponse } = user` */
  function WithoutPassword(u: User): (p: PublicUser)
    ensures p.id == u.id && p.username == u.username && p.email == u.email && p.createdAt == u.createdAt
  {
    PublicUser(u.id, u.username, u.email, u.createdAt)
  }

  /** `users.find(matches)`: the first user that matches, if any. */
  function Find(users: seq<User>, matches: User -> bool): (found: Option<User>)
    ensures found.None? <==> forall u :: u in users ==> !matches(u)
    ensures found.Some? ==>
      var i := FindIndex(users, matches);
      0 <= i && found.value == users[i] && matches(found.value)
  {
    var i := FindIndex(users, matches);
    if i < 0 then None else Some(users[i])
  }

  /** No two users share an email and no two share a username. */
  ghost predicate UniqueCredentials(users: seq<User>) {
    forall i, j :: 0 <= i < j < |users| ==> users[i].email != users[j].email && users[i].username != users[j].username
  }

  /** Some user already has this email or this username. */
  ghost predicate Taken(users: seq<User>, username: string, email: string) {
    exists u :: u in users && (u.email == email || u.username == username)
  }

  /** The 400 message of a registration, or None when it is accepted: the
      checks of the route in their order, the first failing one answering. */
  function RegistrationError(users: seq<User>, body: RegisterBody): (e: Option<string>)
    ensures !IsTruthy(body.username) || !IsTruthy(body.email) || !IsTruthy(body.password) ==>
      e == Some(FieldsRequired)
    ensures IsTruthy(body.username) && IsTruthy(body.email) && IsTruthy(body.password) ==>
      && (!Validation.ValidateEmail(body.email.value) ==> e == Some(InvalidEmail))
      && (Validation.ValidateEmail(body.email.value) && |body.password.value| < 6 ==> e == Some(ShortPassword))
      && ((&& Validation.ValidateEmail(body.email.value) && |body.password.value| >= 6
           && Taken(users, body.username.value, body.email.value)) ==> e == Some(AlreadyExists))
    ensures e.None? <==>
      && IsTruthy(body.username) && IsTruthy(body.email) && IsTruthy(body.password)
      && Validation.ValidateEmail(body.email.value) && |body.password.value| >= 6
      && !Taken(users, body.username.value, body.email.value)
  {
    if !IsTruthy(body.username) || !IsTruthy(body.email) || !IsTruthy(body.password) then Some(FieldsRequired)
    else if !Validation.ValidateEmail(body.email.value) then Some(InvalidEmail)
    else if !Validation.ValidatePassword(body.password) then Some(ShortPassword)
    else
      var username, email := body.username.value, body.email.value;
      if Find(users, (u: User) => u.email == email || u.username == username).Some? then Some(AlreadyExists)
      else None
  }

  /** The record an accepted registration appends; `hash` stands for
      `bcrypt.hash`, `newId` for `uuidv4()`, `now` for the current time. */
  function NewUser(body: RegisterBody, hash: string -> string, newId: string, now: int): (u: User)
    requires body.username.Some? && body.email.Some? && body.password.Some?
    ensures u.password == hash(body.password.value)
  {
    User(newId, body.username.value, body.email.value, hash(body.password.value), now)
  }

  /** POST `/login`: `compare` stands for `bcrypt.compare`, `sign` for
      `jwt.sign` of the user's id and email. */
  function Login(users: seq<User>, email: Option<string>, password: Option<string>,
                 compare: (string, string) -> bool, sign: (string, string) -> string): (r: AuthReply)
    ensures !IsTruthy(email) || !IsTruthy(password) ==> r == Failed(400, CredentialsRequired)
    ensures r.Failed? && r.status == 401 ==> r == Failed(401, InvalidCredentials)
    ensures r.Failed? ==> r.status == 400 || r.status == 401
    ensures IsTruthy(email) && IsTruthy(password) ==>
      var i := FindIndex(users, (u: User) => u.email == email.value);
      (r.LoggedIn? <==> 0 <= i && compare(password.value, users[i].password))
      && (r.LoggedIn? ==> r == LoggedIn(sign(users[i].id, users[i].email), WithoutPassword(users[i])))
    ensures IsTruthy(email) && IsTruthy(password) && !r.LoggedIn? ==> r == Failed(401, InvalidCredentials)
    ensures r.Failed? || r.LoggedIn?
  {
    if !IsTruthy(email) || !IsTruthy(password) then Failed(400, CredentialsRequired)
    else
      match Find(users, (u: User) => u.email == email.value)
      case None => Failed(401, InvalidCredentials)
      case Some(user) =>
        if !compare(password.value, user.password) then Failed(401, InvalidCredentials)
        else LoggedIn(sign(user.id, user.email), WithoutPassword(user))
  }

  /** An unknown email and a wrong password get the same reply, so the reply
      does not tell whether the email is registered. */
  lemma LoginFailuresAlike(users: seq<User>, email: string, password: string, other: string,
                           compare: (string, string) -> bool, sign: (string, string) -> string)
    requires email != "" && password != "" && other != ""
    requires forall u :: u in users ==> u.email != email
    requires var i := FindIndex(users, (u: User) => u.email == other);
      0 <= i && !compare(password, users[i].password)
    ensures Login(users, Some(email), Some(password), compare, sign)
         == Login(users, Some(other), Some(password), compare, sign)
         == Failed(401, InvalidCredentials)
  {
  }

  /** GET `/me`: `verify` stands for `jwt.verify` and gives the token's user id,
      or None when it throws. */
  function Me(users: seq<User>, authorization: Option<string>, verify: string -> Option<string>): (r: AuthReply)
    ensures r == Failed(401, NoToken) <==> !IsTruthy(Bearer.TokenOf(authorization))
    ensures r == Failed(401, InvalidToken) <==>
      IsTruthy(Bearer.TokenOf(authorization)) && verify(Bearer.TokenOf(authorization).value).None?
    ensures r.Failed? ==> r == Failed(401, NoToken) || r == Failed(401, InvalidToken) || r == Failed(404, UserNotFound)
    ensures r == Failed(404, UserNotFound) <==>
      && IsTruthy(Bearer.TokenOf(authorization))
      && var id := verify(Bearer.TokenOf(authorization).value);
      && id.Some? && forall u :: u in users ==> u.id != id.value
    ensures r.Profile? ==>
      && IsTruthy(Bearer.TokenOf(authorization))
      && var id := verify(Bearer.TokenOf(authorization).value);
      && id.Some?
      && var i := FindIndex(users, (u: User) => u.id == id.value);
      && 0 <= i && r.user == WithoutPassword(users[i])
    ensures !r.Failed? ==> r.Profile?
    ensures IsTruthy(Bearer.TokenOf(authorization)) ==>
      var id := verify(Bearer.TokenOf(authorization).value);
      id.Some? && (exists u :: u in users && u.id == id.value) ==> r.Profile?
  {
    var token := Bearer.TokenOf(authorization);
    if !IsTruthy(token) then Failed(401, NoToken)
    else
      match verify(token.value)
      case None => Failed(401, InvalidToken)
      case Some(userId) =>
        match Find(users, (u: User) => u.id == userId)
        case None => Failed(404, UserNotFound)
        case Some(user) => Profile(WithoutPassword(user))
  }

  /** The shared `users` array that registration appends to (`saveUsers`, a
      file write, is not modelled). `Valid` is kept by every method; the
      array loaded at start-up is not checked, so the constructor does not
      establish it. */
  class UserRegistry {
    var users: seq<User>

    ghost predicate Valid()
      reads this
    {
      UniqueCredentials(users)
    }

    constructor (initial: seq<User>)
      ensures users == initial
    {
      users := initial;
    }

    /** What POST `/register` does once `await bcrypt.hash` returns, as written:
        the user is pushed without looking at `users` again, although other
        requests may have changed it during the await. */
    method Append(body: RegisterBody, hash: string -> string, newId: string, now: int) returns (r: AuthReply)
      requires body.username.Some? && body.email.Some? && body.password.Some?
      modifies this
      ensures users == old(users) + [NewUser(body, hash, newId, now)]
      ensures r == Registered(WithoutPassword(NewUser(body, hash, newId, now)))
    {
      var user := NewUser(body, hash, newId, now);
      users := users + [user];
      r := Registered(WithoutPassword(user));
    }

    /** The same step with the duplicate lookup repeated against `users` as
        it is after the await, so that uniqueness no longer depends on what
        ran in between. */
    method AppendIfFree(body: RegisterBody, hash: string -> string, newId: string, now: int) returns (r: AuthReply)
      requires body.username.Some? && body.email.Some? && body.password.Some?
      modifies this
      ensures Taken(old(users), body.username.value, body.email.value) ==>
        r == Failed(400, AlreadyExists) && users == old(users)
      ensures !Taken(old(users), body.username.value, body.email.value) ==>
        && users == old(users) + [NewUser(body, hash, newId, now)]
        && r == Registered(WithoutPassword(NewUser(body, hash, newId, now)))
      ensures old(Valid()) ==> Valid()
    {
      var username, email := body.username.value, body.email.value;
      if Find(users, (u: User) => u.email == email || u.username == username).Some? {
        return Failed(400, AlreadyExists);
      }
      var user := NewUser(body, hash, newId, now);
      users := users + [user];
      r := Registered(WithoutPassword(user));
    }

    /** POST `/register`: the checks, then the append with its lookup repeated. */
    method Register(body: RegisterBody, hash: string -> string, newId: string, now: int) returns (r: AuthReply)
      modifies this
      ensures RegistrationError(old(users), body).Some? ==>
        r == Failed(400, RegistrationError(old(users), body).value) && users == old(users)
      ensures RegistrationError(old(users), body).None? ==>
        var u := NewUser(body, hash, newId, now);
        && users == old(users) + [u]
        && r == Registered(WithoutPassword(u))
      ensures old(Valid()) ==> Valid()
    {
      var error := RegistrationError(users, body);
      if error.Some? {
        return Failed(400, error.value);
      }
      r := AppendIfFree(body, hash, newId, now);
    }
  }

  /** Two registrations that overlap at the await: both pass the checks against
      the same users, then both are pushed. With a shared email the users are
      no longer unique. */
  method OverlappingRegistrations(registry: UserRegistry, first: RegisterBody, second: RegisterBody,
                                  hash: string -> string, firstId: string, secondId: string, now: int)
    requires RegistrationError(registry.users, first).None? && RegistrationError(registry.users, second).None?
    modifies registry
    ensures registry.users == old(registry.users) + [NewUser(first, hash, firstId, now), NewUser(second, hash, secondId, now)]
    ensures first.email == second.email ==> !registry.Valid()
  {
    var r1 := registry.Append(first, hash, firstId, now);
    var r2 := registry.Append(second, hash, secondId, now);
    if first.email == second.email {
      OverlappingRegistrationsCollide(old(registry.users), first, second, hash, firstId, secondId, now);
    }
  }

  /** The same overlap with the lookup repeated after the await: the second
      registration is refused and the users stay unique. */
  method OverlappingRegistrationsRechecked(registry: UserRegistry, first: RegisterBody, second: RegisterBody,
                                           hash: string -> string, firstId: string, secondId: string, now: int)
      returns (r2: AuthReply)
    requires RegistrationError(registry.users, first).None? && RegistrationError(registry.users, second).None?
    requires first.email == second.email
    modifies registry
    ensures registry.users == old(registry.users) + [NewUser(first, hash, firstId, now)]
    ensures r2 == Failed(400, AlreadyExists)
    ensures old(registry.Valid()) ==> registry.Valid()
  {
    var r1 := registry.AppendIfFree(first, hash, firstId, now);
    assert registry.users[|registry.users| - 1].email == second.email.value;
    r2 := registry.AppendIfFree(second, hash, secondId, now);
  }

  /** Two registrations accepted against the same users with the same email
      cannot both be kept without a duplicate. */
  lemma OverlappingRegistrationsCollide(users: seq<User>, first: RegisterBody, second: RegisterBody,
                                        hash: string -> string, firstId: string, secondId: string, now: int)
    requires RegistrationError(users, first).None? && RegistrationError(users, second).None?
    requires first.email == second.email
    ensures !UniqueCredentials(users + [NewUser(first, hash, firstId, now), NewUser(second, hash, secondId, now)])
  {
    var all := users + [NewUser(first, hash, firstId, now), NewUser(second, hash, secondId, now)];
    assert all[|users|].email == all[|users| + 1].email;
  }

  /** Two such registrations exist: "ann" and "bob" both registering with
      "a@b.co" on an empty user list pass every check. */
  lemma OverlapExample()
    ensures RegistrationError([], RegisterBody(Some("ann"), Some("a@b.co"), Some("secret1"))).None?
    ensures RegistrationError([], RegisterBody(Some("bob"), Some("a@b.co"), Some("secret2"))).None?
  {
    var email := "a@b.co";
    assert IndexOf(email, '@') == 1;
    assert email[2..] == "b.co" && "b.co"[1..3] == ".c" && ".c"[0] == '.';
    assert Validation.ValidateEmail(email);
  }

  /** An accepted registration makes the new user the only one with its email,
      so the user logs in with the password they registered with. */
  lemma RegisterThenLogin(users: seq<User>, body: RegisterBody, hash: string -> string, newId: string, now: int,
                          compare: (string, string) -> bool, sign: (string, string) -> string)
    requires RegistrationError(users, body).None?
    requires compare(body.password.value, hash(body.password.value))
    ensures var u := NewUser(body, hash, newId, now);
      Login(users + [u], body.email, body.password, compare, sign) == LoggedIn(sign(newId, u.email), WithoutPassword(u))
  {
    var u := NewUser(body, hash, newId, now);
    var all := users + [u];
    assert all[|users|] == u;
    var found := Find(all, (v: User) => v.email == body.email.value);
    assert found.Some?;
  }

  /** Registration keeps emails and usernames unique. */
  lemma RegisterKeepsUnique(users: seq<User>, body: RegisterBody, hash: string -> string, newId: string, now: int)
    requires UniqueCredentials(users) && RegistrationError(users, body).None?
    ensures UniqueCredentials(users + [NewUser(body, hash, newId, now)])
  {
    var all := users + [NewUser(body, hash, newId, now)];
    forall i, j | 0 <= i < j < |all|
      ensures all[i].email != all[j].email && all[i].username != all[j].username
    {
      if j == |users| {
        assert all[i] in users;
      }
    }
  }
}

/** Registration and login: the duplicate checks made before a user is
    inserted, and the credential check that issues an access token. The user
    lookups are first-match scans of the `users` table. */
module Auth {
  import opened Wrappers
  import opened Models
  import opened Schemas
  import opened Http
  import Security

  // ------------------------------------------------------------ user lookups

  /** `get_user_by_email`. */
  function FindByEmail(users: seq<User>, email: string): (r: Option<User>)
    ensures r.Some? ==> r.value in users && r.value.email == email
    ensures r.None? <==> forall u :: u in users ==> u.email != email
  {
    if users == [] then None
    else if users[0].email == email then Some(users[0])
    else FindByEmail(users[1..], email)
  }

  /** `get_user_by_username`. */
  function FindByUsername(users: seq<User>, username: string): (r: Option<User>)
    ensures r.Some? ==> r.value in users && r.value.username == username
    ensures r.None? <==> forall u :: u in users ==> u.username != username
  {
    if users == [] then None
    else if users[0].username == username then Some(users[0])
    else FindByUsername(users[1..], username)
  }

  /** With unique emails, looking a user up by their own email finds them. */
  lemma {:induction false} FindByOwnEmail(users: seq<User>, u: User)
    requires UniqueEmails(users) && u in users
    ensures FindByEmail(users, u.email) == Some(u)
  {
    if users[0] != u {
      assert users[0].email != u.email by {
        var j :| 0 <= j < |users| && users[j] == u;
        assert j != 0;
      }
      assert UniqueEmails(users[1..]) by {
        forall i, j | 0 <= i < j < |users[1..]|
          ensures users[1..][i].email != users[1..][j].email
        {
          assert users[1..][i] == users[i + 1] && users[1..][j] == users[j + 1];
        }
      }
      FindByOwnEmail(users[1..], u);
    }
  }

  // ------------------------------------------------------------ registration

  /** The guards of `register`, in their order: the email first, then the username. */
  function RegistrationError(users: seq<User>, body: UserCreate): (r: Option<HttpError>)
    ensures r == Some(EmailAlreadyRegistered) <==> exists u :: u in users && u.email == body.email
    ensures r == Some(UsernameAlreadyTaken) <==>
      (forall u :: u in users ==> u.email != body.email)
      && (exists u :: u in users && u.username == body.username)
    ensures r.None? <==> forall u :: u in users ==> u.email != body.email && u.username != body.username
  {
    if FindByEmail(users, body.email).Some? then Some(EmailAlreadyRegistered)
    else if FindByUsername(users, body.username).Some? then Some(UsernameAlreadyTaken)
    else None
  }

  /** The duplicate check sees the address after validation: a body whose
      email normalizes to a registered address is refused, whatever its
      spelling as sent. */
  lemma NormalizedEmailAlreadyRegistered(users: seq<User>, raw: UserCreate, normalizeEmail: string -> Option<string>)
    requires ValidateUserCreate(raw, normalizeEmail).Success?
    requires exists u :: u in users && Some(u.email) == normalizeEmail(raw.email)
    ensures RegistrationError(users, ValidateUserCreate(raw, normalizeEmail).value) == Some(EmailAlreadyRegistered)
  {
  }

  /** Appending a user whose email, username and id are all new keeps every
      uniqueness constraint. */
  lemma AppendKeepsUsersValid(users: seq<User>, u: User)
    requires ValidUsers(users)
    requires forall v :: v in users ==> v.email != u.email && v.username != u.username && v.id != u.id
    ensures ValidUsers(users + [u])
  {
    var us := users + [u];
    forall i, j | 0 <= i < j < |us|
      ensures us[i].email != us[j].email && us[i].username != us[j].username && us[i].id != us[j].id
    {
      if j == |users| { assert us[i] in users; } else { assert us[i] == users[i] && us[j] == users[j]; }
    }
  }

  /** The `users` table. */
  class UserTable {
    var users: seq<User>

    ghost predicate Valid()
      reads this
    {
      ValidUsers(users)
    }

    constructor ()
      ensures Valid() && users == []
    {
      users := [];
    }

    /** `register`: rejects a taken email, then a taken username, and otherwise
        inserts the user with the password hashed under `salt` and `is_active`
        set. `id` is the fresh UUID the column default generates. `body` is the
        parsed body, as `ValidateUserCreate` gives it: its email is the
        normalized address, which is what is looked up and stored. */
    method Register(body: UserCreate, id: string, salt: string, now: Time) returns (r: Result<UserResponse, HttpError>)
      requires Valid()
      requires forall v :: v in users ==> v.id != id
      modifies this
      ensures Valid()
      ensures r.Failure? ==> Some(r.error) == RegistrationError(old(users), body) && users == old(users)
      ensures r.Success? <==> RegistrationError(old(users), body).None?
      ensures r.Success? ==>
        var u := NewUser(id, body.email, body.username, Security.HashPassword(body.password, salt), now);
        users == old(users) + [u] && r.value == ToResponse(u)
    {
      if FindByEmail(users, body.email).Some? {
        return Failure(EmailAlreadyRegistered);
      }
      if FindByUsername(users, body.username).Some? {
        return Failure(UsernameAlreadyTaken);
      }
      var u := NewUser(id, body.email, body.username, Security.HashPassword(body.password, salt), now);
      AppendKeepsUsersValid(users, u);
      users := users + [u];
      r := Success(ToResponse(u));
    }
  }

  // ------------------------------------------------------------------- login

  /** The form fields of `/auth/login`; `username` holds an email or a username. */
  datatype LoginForm = LoginForm(username: string, password: string)

  /** The JSON body of `/auth/login-json`. */
  datatype LoginRequest = LoginRequest(username: string, password: string)

  datatype TokenResponse = TokenResponse(accessToken: Security.Token, tokenType: string)

  /** Token lifetime in seconds. */
  const AccessTokenTtl: int := Security.AccessTokenExpireMinutes * 60

  /** The identifier is looked up as an email and, only when no email matches,
      as a username. */
  function LookupIdentifier(users: seq<User>, identifier: string): (r: Option<User>)
    ensures r.Some? ==> r.value in users
    ensures r.Some? ==>
      (r.value.email == identifier
       || (r.value.username == identifier && forall v :: v in users ==> v.email != identifier))
    ensures r.None? <==> forall v :: v in users ==> v.email != identifier && v.username != identifier
  {
    var byEmail := FindByEmail(users, identifier);
    if byEmail.Some? then byEmail else FindByUsername(users, identifier)
  }

  /** The decision shared by both login endpoints. */
  function Authenticate(users: seq<User>, key: string, identifier: string, password: string, now: Security.Time)
    : Result<TokenResponse, HttpError>
  {
    var user := LookupIdentifier(users, identifier);
    if user.None? || !Security.VerifyPassword(password, user.value.hashedPassword) then
      Failure(IncorrectCredentials)
    else
      Success(TokenResponse(Security.CreateAccessToken(key, user.value.email, now, AccessTokenTtl), "bearer"))
  }

  /** `/auth/login`: one uniform 401 for an unknown identifier and for a wrong
      password; on success a bearer token whose subject is the found user's
      email, whichever identifier was typed, valid for 30 minutes. */
  function Login(users: seq<User>, key: string, form: LoginForm, now: Security.Time): (r: Result<TokenResponse, HttpError>)
    ensures r.Failure? ==> r.error == IncorrectCredentials
    ensures r.Failure? <==>
      LookupIdentifier(users, form.username).None?
      || !Security.VerifyPassword(form.password, LookupIdentifier(users, form.username).value.hashedPassword)
    ensures r.Success? ==>
      var u := LookupIdentifier(users, form.username).value;
      r.value.tokenType == "bearer"
      && r.value.accessToken.subject == u.email
      && r.value.accessToken.expires == now + 30 * 60
      && Security.VerifyToken(key, r.value.accessToken, now) == Some(u.email)
  {
    Authenticate(users, key, form.username, form.password, now)
  }

  /** `/auth/login-json`: the same decision as `/auth/login` for a JSON body. */
  function LoginJson(users: seq<User>, key: string, body: LoginRequest, now: Security.Time): (r: Result<TokenResponse, HttpError>)
    ensures r.Failure? ==> r.error == IncorrectCredentials
    ensures r.Failure? <==>
      LookupIdentifier(users, body.username).None?
      || !Security.VerifyPassword(body.password, LookupIdentifier(users, body.username).value.hashedPassword)
    ensures r.Success? ==>
      var u := LookupIdentifier(users, body.username).value;
      r.value.tokenType == "bearer"
      && r.value.accessToken.subject == u.email
      && r.value.accessToken.expires == now + 30 * 60
      && Security.VerifyToken(key, r.value.accessToken, now) == Some(u.email)
  {
    Authenticate(users, key, body.username, body.password, now)
  }

  /** Both endpoints decide alike on the same identifier and password. */
  lemma LoginJsonAgreesWithLogin(users: seq<User>, key: string, identifier: string, password: string, now: Security.Time)
    ensures LoginJson(users, key, LoginRequest(identifier, password), now)
         == Login(users, key, LoginForm(identifier, password), now)
  {
  }

  /** No account enumeration: an identifier nobody has and a wrong password for
      an existing account get the identical answer. */
  lemma UnknownUserLikeWrongPassword(users: seq<User>, key: string, unknown: string, pw1: string,
                                     u: User, pw2: string, now: Security.Time)
    requires forall v :: v in users ==> v.email != unknown && v.username != unknown
    requires ValidUsers(users) && u in users && !Security.VerifyPassword(pw2, u.hashedPassword)
    ensures Login(users, key, LoginForm(unknown, pw1), now) == Login(users, key, LoginForm(u.email, pw2), now)
  {
    FindByOwnEmail(users, u);
  }

  /** Email precedence: when the identifier is some user's email, only that
      user's password is checked, even if it is another user's username. */
  lemma EmailTakesPrecedence(users: seq<User>, key: string, a: User, password: string, now: Security.Time)
    requires UniqueEmails(users) && a in users
    ensures Login(users, key, LoginForm(a.email, password), now).Success?
        <==> Security.VerifyPassword(password, a.hashedPassword)
    ensures Login(users, key, LoginForm(a.email, password), now).Success? ==>
        Login(users, key, LoginForm(a.email, password), now).value.accessToken.subject == a.email
  {
    FindByOwnEmail(users, a);
  }
}

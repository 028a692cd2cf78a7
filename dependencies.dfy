/** The resolver every protected route depends on: bearer token to email to
    user, then the active check. */
module Dependencies {
  import opened Wrappers
  import opened Models
  import opened Http
  import Security
  import Auth

  /** What the `Authorization` header carried. Reading the header is the web
      framework's job; a missing or non-Bearer header arrives as `Missing`. */
  datatype Credentials = Missing | Bearer(token: Security.Token)

  /** `get_current_user`: a token that does not verify and a subject no user
      has as email get the same 401; the subject is never tried as a username. */
  function GetCurrentUser(users: seq<User>, key: string, cred: Credentials, now: Security.Time): (r: Result<User, HttpError>)
    ensures cred.Missing? ==> r == Failure(NotAuthenticated)
    ensures cred.Bearer? && r.Failure? ==> r.error == CouldNotValidate
    ensures r.Success? ==>
      cred.Bearer? && r.value in users
      && Security.VerifyToken(key, cred.token, now) == Some(r.value.email)
    ensures cred.Bearer? ==>
      (r.Success? <==>
        Security.VerifyToken(key, cred.token, now).Some?
        && exists u :: u in users && u.email == Security.VerifyToken(key, cred.token, now).value)
  {
    match cred
    case Missing => Failure(NotAuthenticated)
    case Bearer(token) =>
      var email := Security.VerifyToken(key, token, now);
      if email.None? then Failure(CouldNotValidate)
      else
        var user := Auth.FindByEmail(users, email.value);
        if user.None? then Failure(CouldNotValidate)
        else Success(user.value)
  }

  /** `get_current_active_user`: an inactive user is refused with 400, a code
      distinct from the 401 of the token path; an active user passes unchanged. */
  function GetCurrentActiveUser(users: seq<User>, key: string, cred: Credentials, now: Security.Time): (r: Result<User, HttpError>)
    ensures GetCurrentUser(users, key, cred, now).Failure? ==> r == GetCurrentUser(users, key, cred, now)
    ensures GetCurrentUser(users, key, cred, now).Success? ==>
      (if GetCurrentUser(users, key, cred, now).value.isActive
       then r == GetCurrentUser(users, key, cred, now)
       else r == Failure(InactiveUser))
    ensures r.Success? ==> r.value.isActive && r.value in users
  {
    var user := GetCurrentUser(users, key, cred, now);
    if user.Failure? then user
    else if !user.value.isActive then Failure(InactiveUser)
    else user
  }

  /** Round trip: a token from a successful login, presented before it
      expires, resolves to exactly the user who logged in, whether they typed
      their email or their username. */
  lemma LoginThenResolve(users: seq<User>, key: string, form: Auth.LoginForm, issued: Security.Time, now: Security.Time)
    requires ValidUsers(users)
    requires Auth.Login(users, key, form, issued).Success?
    requires now <= issued + Auth.AccessTokenTtl
    ensures GetCurrentUser(users, key, Bearer(Auth.Login(users, key, form, issued).value.accessToken), now)
         == Success(Auth.LookupIdentifier(users, form.username).value)
  {
    var u := Auth.LookupIdentifier(users, form.username).value;
    Security.IssueThenVerify(key, u.email, issued, Auth.AccessTokenTtl, now);
    Auth.FindByOwnEmail(users, u);
  }

  /** The same token is refused once its expiry has passed. */
  lemma ExpiredLoginTokenRejected(users: seq<User>, key: string, form: Auth.LoginForm, issued: Security.Time, now: Security.Time)
    requires Auth.Login(users, key, form, issued).Success?
    requires now > issued + Auth.AccessTokenTtl
    ensures GetCurrentUser(users, key, Bearer(Auth.Login(users, key, form, issued).value.accessToken), now)
         == Failure(CouldNotValidate)
  {
    var u := Auth.LookupIdentifier(users, form.username).value;
    Security.IssueThenVerify(key, u.email, issued, Auth.AccessTokenTtl, now);
  }
}

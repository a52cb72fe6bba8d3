/** The client's session: the signed-in user and token, their copy in the browser's
    local storage, the loading flag and the last error message. */
module AuthContext {
  import opened Optional
  import opened ClientTypes

  const TokenKey := "token"
  const UserKey := "user"
  const LoginFailed := "Login failed. Please try again."
  const RegistrationFailed := "Registration failed. Please try again."

  /** What the authentication service answered: the user and token, or a rejection
      whose message may be empty. */
  datatype Answer = Granted(user: User, token: string) | Denied(message: string)

  /** A `login` promise: resolved with the user, or rejected with the service's error. */
  datatype LoginResult = Resolved(user: User) | Rejected(message: string)

  /** `localStorage.getItem(key)` is truthy: present and not empty. */
  predicate Stored(storage: map<string, string>, key: string)
  {
    key in storage && storage[key] != ""
  }

  /** The state `loadUserFromStorage` leaves behind. */
  datatype Restored = Restored(user: Option<User>, token: Option<string>, storage: map<string, string>)

  /** `loadUserFromStorage`, with `parse` standing for `JSON.parse` (`None` when it throws).
      Both keys truthy and parsable restore the session; both truthy but unparsable
      clears both keys; otherwise nothing happens. */
  function Restore(storage: map<string, string>, parse: string -> Option<User>): (r: Restored)
    ensures r.user.Some? <==> Stored(storage, TokenKey) && Stored(storage, UserKey) && parse(storage[UserKey]).Some?
    ensures r.user.Some? ==> r.user == parse(storage[UserKey]) && r.token == Some(storage[TokenKey]) && r.storage == storage
    ensures r.user.None? ==> r.token.None?
    ensures Stored(storage, TokenKey) && Stored(storage, UserKey) && parse(storage[UserKey]).None? ==>
              r.storage == storage - {TokenKey, UserKey}
    ensures !(Stored(storage, TokenKey) && Stored(storage, UserKey)) ==> r.storage == storage
  {
    if Stored(storage, TokenKey) && Stored(storage, UserKey) then
      match parse(storage[UserKey])
      case Some(u) => Restored(Some(u), Some(storage[TokenKey]), storage)
      case None => Restored(None, None, storage - {TokenKey, UserKey})
    else Restored(None, None, storage)
  }

  /** The storage after a successful login or registration. */
  function Persist(storage: map<string, string>, user: User, token: string, stringify: User -> string): (s: map<string, string>)
    ensures TokenKey in s && s[TokenKey] == token
    ensures UserKey in s && s[UserKey] == stringify(user)
    ensures forall k :: k != TokenKey && k != UserKey ==> (k in s <==> k in storage) && (k in storage ==> s[k] == storage[k])
  {
    storage[TokenKey := token][UserKey := stringify(user)]
  }

  /** A page reload after signing in restores the same user and token, provided the
      stored JSON reads back as the user it was written from and the token is not empty. */
  lemma ReloadAfterSignIn(storage: map<string, string>, user: User, token: string,
                          stringify: User -> string, parse: string -> Option<User>)
    requires parse(stringify(user)) == Some(user)
    requires token != "" && stringify(user) != ""
    ensures Restore(Persist(storage, user, token, stringify), parse).user == Some(user)
    ensures Restore(Persist(storage, user, token, stringify), parse).token == Some(token)
  {
  }

  /** An unreadable stored user is removed together with the token, so the next load
      finds nothing and changes nothing. */
  lemma CorruptStorageClearedOnce(storage: map<string, string>, parse: string -> Option<User>)
    requires Stored(storage, TokenKey) && Stored(storage, UserKey) && parse(storage[UserKey]).None?
    ensures var once := Restore(storage, parse).storage;
            && TokenKey !in once && UserKey !in once
            && Restore(once, parse) == Restored(None, None, once)
  {
  }

  class Session {
    var user: Option<User>
    var token: Option<string>
    var isAuthenticated: bool
    var loading: bool
    var error: Option<string>
    /** The browser's local storage. */
    var storage: map<string, string>

    /** Signed in exactly when there is a user, exactly when there is a token, and the
        token is the one in storage. */
    ghost predicate Valid()
      reads this
    {
      && (isAuthenticated <==> user.Some?)
      && (user.Some? <==> token.Some?)
      && (token.Some? ==> TokenKey in storage && storage[TokenKey] == token.value && UserKey in storage)
    }

    /** The provider's first render, before the storage is read. */
    constructor (storage: map<string, string>)
      ensures Valid()
      ensures user.None? && token.None? && !isAuthenticated && loading && error.None?
      ensures this.storage == storage
    {
      user := None;
      token := None;
      isAuthenticated := false;
      loading := true;
      error := None;
      this.storage := storage;
    }

    /** The mount effect `loadUserFromStorage`. */
    method Load(parse: string -> Option<User>)
      requires Valid()
      modifies this
      ensures Valid()
      ensures var r := Restore(old(storage), parse);
              user == r.user && token == r.token && storage == r.storage
      ensures isAuthenticated <==> user.Some?
      ensures !loading && error == old(error)
    {
      var r := Restore(storage, parse);
      user := r.user;
      token := r.token;
      isAuthenticated := r.user.Some?;
      storage := r.storage;
      loading := false;
    }

    /** `login(email, password)` once the service has answered. */
    method Login(answer: Answer, stringify: User -> string) returns (result: LoginResult)
      requires Valid()
      modifies this
      ensures Valid()
      ensures answer.Granted? ==>
                && result == Resolved(answer.user)
                && user == Some(answer.user) && token == Some(answer.token) && isAuthenticated
                && storage == Persist(old(storage), answer.user, answer.token, stringify)
                && error.None?
      ensures answer.Denied? ==>
                && result == Rejected(answer.message)
                && user == old(user) && token == old(token) && isAuthenticated == old(isAuthenticated)
                && storage == old(storage)
                && error == Some(if answer.message != "" then answer.message else LoginFailed)
      ensures !loading
    {
      loading := true;
      error := None;
      match answer {
        case Granted(u, t) =>
          storage := Persist(storage, u, t, stringify);
          user := Some(u);
          token := Some(t);
          isAuthenticated := true;
          result := Resolved(u);
        case Denied(m) =>
          error := Some(if m != "" then m else LoginFailed);
          result := Rejected(m);
      }
      loading := false;
    }

    /** `register(data)` once the service has answered; `None` means it resolved. */
    method Register(answer: Answer, stringify: User -> string) returns (rejection: Option<string>)
      requires Valid()
      modifies this
      ensures Valid()
      ensures answer.Granted? ==>
                && rejection.None?
                && user == Some(answer.user) && token == Some(answer.token) && isAuthenticated
                && storage == Persist(old(storage), answer.user, answer.token, stringify)
                && error.None?
      ensures answer.Denied? ==>
                && rejection == Some(answer.message)
                && user == old(user) && token == old(token) && isAuthenticated == old(isAuthenticated)
                && storage == old(storage)
                && error == Some(if answer.message != "" then answer.message else RegistrationFailed)
      ensures !loading
    {
      loading := true;
      error := None;
      match answer {
        case Granted(u, t) =>
          storage := Persist(storage, u, t, stringify);
          user := Some(u);
          token := Some(t);
          isAuthenticated := true;
          rejection := None;
        case Denied(m) =>
          error := Some(if m != "" then m else RegistrationFailed);
          rejection := Some(m);
      }
      loading := false;
    }

    /** `logout()`: both keys leave the storage and the session is empty. */
    method Logout()
      requires Valid()
      modifies this
      ensures Valid()
      ensures user.None? && token.None? && !isAuthenticated
      ensures storage == old(storage) - {TokenKey, UserKey}
      ensures loading == old(loading) && error == old(error)
    {
      storage := storage - {TokenKey, UserKey};
      user := None;
      token := None;
      isAuthenticated := false;
    }

    /** `updateUserBananaCount(count)`: only the in-memory user changes; the stored copy
        keeps the count it was written with. */
    method UpdateUserBananaCount(count: int)
      requires Valid()
      modifies this
      ensures Valid()
      ensures old(user).None? ==> user.None?
      ensures old(user).Some? ==> user == Some(old(user).value.(bananaCount := count))
      ensures token == old(token) && isAuthenticated == old(isAuthenticated) && storage == old(storage)
      ensures loading == old(loading) && error == old(error)
    {
      if user.Some? {
        user := Some(user.value.(bananaCount := count));
      }
    }

    /** `clearError()`. */
    method ClearError()
      modifies this
      ensures error.None?
      ensures user == old(user) && token == old(token) && isAuthenticated == old(isAuthenticated)
      ensures storage == old(storage) && loading == old(loading)
    {
      error := None;
    }
  }
}

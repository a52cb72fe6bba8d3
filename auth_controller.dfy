/** `register` (`POST /api/auth/register`): the same ladder as `createUser` without
    the role check, a save, a signed token and the public user view. */
module AuthController {
  import opened Optional
  import opened UserStore

  /** The request body; "" stands for a missing field.  A `role` in the body is
      carried here only to show that it is never read. */
  datatype RegisterRequest = RegisterRequest(
    username: string,
    email: string,
    password: string,
    displayName: string,
    avatarUrl: string,
    role: string)

  const RegisteredMessage := "User registered successfully!"
  const FallbackMessage := "Registration failed due to validation issues."
  const ServerErrorMessage := "Server error during registration."

  /** The early returns of `register`, in source order, when both lookups answer. */
  function Rejection(users: seq<UserRecord>, req: RegisterRequest, isEmail: string -> bool): (r: Option<Response>)
    ensures r.Some? ==> r.value.status == 400
    ensures r.None? <==>
              && req.username != "" && req.email != "" && req.password != "" && isEmail(req.email)
              && !EmailTaken(users, req.email) && !UsernameTaken(users, req.username)
    ensures CredentialCheck(req.username, req.email, req.password, isEmail).Some? ==>
              r == CredentialCheck(req.username, req.email, req.password, isEmail)
  {
    match CredentialCheck(req.username, req.email, req.password, isEmail)
    case Some(bad) => Some(bad)
    case None => DuplicateCheck(users, req.username, req.email)
  }

  /** An empty body is refused with the missing-fields message, whatever the store
      holds and whatever the email validator says. */
  lemma EmptyBodyRejected(users: seq<UserRecord>, isEmail: string -> bool)
    ensures Rejection(users, RegisterRequest("", "", "", "", "", ""), isEmail)
            == Some(Response(400, Message(MissingFieldsMessage)))
  {
  }

  /** The document `new User({...})` builds: the role is the schema default. */
  function NewUser(req: RegisterRequest, hash: string -> string, now: int): (u: UserRecord)
    ensures u.username == req.username && u.email == req.email && u.password == hash(req.password)
    ensures u.displayName == req.displayName && u.avatarUrl == req.avatarUrl
    ensures u.role == Player
    ensures u.bananaCount == 0 && !u.isBlocked && !u.isDeleted
  {
    UserRecord(0, req.username, req.email, hash(req.password), req.displayName, req.avatarUrl,
               Player, 0, false, false, now, now)
  }

  /** Two requests that differ only in `role` build the same user. */
  lemma RoleNeverRead(req: RegisterRequest, role: string, hash: string -> string, now: int)
    ensures NewUser(req.(role := role), hash, now) == NewUser(req, hash, now)
  {
  }

  /** The registering user's view: no password, no block or delete flags. */
  function PublicView(u: UserRecord): (v: UserView)
    ensures v.id == u.id && v.username == u.username && v.email == u.email && v.role == u.role
    ensures v.bananaCount == u.bananaCount && v.flags.None?
  {
    UserView(u.id, u.username, u.email, u.displayName, u.avatarUrl, u.role, u.bananaCount,
             None, u.createdAt, u.updatedAt)
  }

  /** `register`.  `generateToken` stands for the JWT signing of `{ id, role }`,
      `faults` for what the two `findOne` lookups throw and `saveError` for what
      `save()` throws, if anything.  Every throw lands in the same `catch` block. */
  method Register(db: UserDb, req: RegisterRequest, isEmail: string -> bool, hash: string -> string,
                  generateToken: (UserId, Role) -> string, faults: LookupFaults, saveError: Option<DbError>, now: int)
    returns (res: Response)
    requires db.Valid()
    modifies db
    ensures db.Valid()
    ensures CredentialCheck(req.username, req.email, req.password, isEmail).Some? ==>
              res == CredentialCheck(req.username, req.email, req.password, isEmail).value && db.users == old(db.users)
    ensures CredentialCheck(req.username, req.email, req.password, isEmail).None? ==>
              var stage := Lookups(old(db.users), req.username, req.email, faults);
              && (stage.Stop? ==> res == stage.response && db.users == old(db.users))
              && (stage.Thrown? ==>
                    res == SaveErrorResponse(stage.error, FallbackMessage, ServerErrorMessage) &&
                    db.users == old(db.users))
              && (stage.Pass? && saveError.Some? ==>
                    res == SaveErrorResponse(saveError.value, FallbackMessage, ServerErrorMessage) &&
                    db.users == old(db.users))
              && (stage.Pass? && saveError.None? ==>
                    && db.users == old(db.users) + [NewUser(req, hash, now).(id := old(db.nextId))]
                    && res == Response(201, Registered(RegisteredMessage, generateToken(old(db.nextId), Player),
                                                       PublicView(db.users[|db.users| - 1]))))
    ensures faults == NoFaults && Rejection(old(db.users), req, isEmail).Some? ==>
              res == Rejection(old(db.users), req, isEmail).value && db.users == old(db.users)
    ensures res.status == 201 <==>
              Rejection(old(db.users), req, isEmail).None? && faults == NoFaults && saveError.None?
    ensures res.status == 201 ==> db.users[|db.users| - 1].role == Player
    ensures res.status != 201 ==> db.users == old(db.users)
  {
    var bad := CredentialCheck(req.username, req.email, req.password, isEmail);
    if bad.Some? {
      return bad.value;
    }
    match Lookups(db.users, req.username, req.email, faults) {
      case Stop(r) =>
        return r;
      case Thrown(e) =>
        return SaveErrorResponse(e, FallbackMessage, ServerErrorMessage);
      case Pass =>
    }
    var draft := NewUser(req, hash, now);
    if saveError.Some? {
      return SaveErrorResponse(saveError.value, FallbackMessage, ServerErrorMessage);
    }
    var stored := db.Insert(draft);
    var token := generateToken(stored.id, stored.role);
    res := Response(201, Registered(RegisteredMessage, token, PublicView(stored)));
  }
}

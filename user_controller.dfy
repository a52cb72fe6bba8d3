/** `createUser` (`POST /api/users`, admin only): an ordered ladder of early
    returns, a save, and the mapping of save errors to responses. */
module UserController {
  import opened Optional
  import opened UserStore

  /** The request body; "" stands for a field that is missing or falsy. */
  datatype CreateRequest = CreateRequest(
    username: string,
    email: string,
    password: string,
    displayName: string,
    avatarUrl: string,
    role: string)

  const InvalidRoleMessage := "Invalid role specified. Must be \"player\" or \"admin\"."
  const CreatedMessage := "User created successfully by admin!"
  const FallbackMessage := "User creation failed due to validation issues."
  const ServerErrorMessage := "Server error during user creation."

  /** `role && !['player', 'admin'].includes(role)` is false. */
  predicate RoleAccepted(role: string)
  {
    role == "" || role == "player" || role == "admin"
  }

  /** `role || 'player'` for an accepted role. */
  function RoleOf(role: string): (r: Role)
    ensures r == Admin <==> role == "admin"
  {
    if role == "admin" then Admin else Player
  }

  /** The early returns of `createUser` that look only at the request: credentials,
      email format, then role. */
  function InputRejection(req: CreateRequest, isEmail: string -> bool): (r: Option<Response>)
    ensures r.Some? ==> r.value.status == 400
    ensures r.None? <==>
              req.username != "" && req.email != "" && req.password != "" && isEmail(req.email) && RoleAccepted(req.role)
    ensures CredentialCheck(req.username, req.email, req.password, isEmail).Some? ==>
              r == CredentialCheck(req.username, req.email, req.password, isEmail)
    ensures CredentialCheck(req.username, req.email, req.password, isEmail).None? && !RoleAccepted(req.role) ==>
              r == Some(Response(400, Message(InvalidRoleMessage)))
  {
    match CredentialCheck(req.username, req.email, req.password, isEmail)
    case Some(bad) => Some(bad)
    case None => if !RoleAccepted(req.role) then Some(Response(400, Message(InvalidRoleMessage))) else None
  }

  /** All early returns of `createUser`, in source order, when both lookups answer:
      the input checks, then the two uniqueness lookups.  `None` means the user gets
      created. */
  function Rejection(users: seq<UserRecord>, req: CreateRequest, isEmail: string -> bool): (r: Option<Response>)
    ensures r.Some? ==> r.value.status == 400
    ensures r.None? <==>
              && req.username != "" && req.email != "" && req.password != ""
              && isEmail(req.email) && RoleAccepted(req.role)
              && !EmailTaken(users, req.email) && !UsernameTaken(users, req.username)
    ensures InputRejection(req, isEmail).Some? ==> r == InputRejection(req, isEmail)
  {
    if InputRejection(req, isEmail).Some? then InputRejection(req, isEmail)
    else DuplicateCheck(users, req.username, req.email)
  }

  /** The input checks never consult the store: a request rejected for a missing
      field, a bad email or a bad role gets the same answer whatever is stored. */
  lemma InputChecksIgnoreStore(users1: seq<UserRecord>, users2: seq<UserRecord>, req: CreateRequest, isEmail: string -> bool)
    requires CredentialCheck(req.username, req.email, req.password, isEmail).Some? || !RoleAccepted(req.role)
    ensures Rejection(users1, req, isEmail) == Rejection(users2, req, isEmail)
    ensures Rejection(users1, req, isEmail) == InputRejection(req, isEmail)
  {
  }

  /** The document `new User({...})` builds, before the store assigns its `_id`. */
  function NewUser(req: CreateRequest, hash: string -> string, now: int): (u: UserRecord)
    requires RoleAccepted(req.role)
    ensures u.username == req.username && u.email == req.email && u.password == hash(req.password)
    ensures u.displayName == req.displayName && u.avatarUrl == req.avatarUrl
    ensures u.role == Admin <==> req.role == "admin"
    ensures u.bananaCount == 0 && !u.isBlocked && !u.isDeleted
  {
    UserRecord(0, req.username, req.email, hash(req.password), req.displayName, req.avatarUrl,
               RoleOf(req.role), 0, false, false, now, now)
  }

  /** The admin's view of a user: every field except the password. */
  function AdminView(u: UserRecord): (v: UserView)
    ensures v.id == u.id && v.username == u.username && v.email == u.email && v.role == u.role
    ensures v.bananaCount == u.bananaCount && v.flags == Some((u.isBlocked, u.isDeleted))
  {
    UserView(u.id, u.username, u.email, u.displayName, u.avatarUrl, u.role, u.bananaCount,
             Some((u.isBlocked, u.isDeleted)), u.createdAt, u.updatedAt)
  }

  /** `createUser`.  `isEmail` is `validator.isEmail`, `hash` the pre-save bcrypt hook,
      `faults` what the two `findOne` lookups throw and `saveError` what `save()`
      throws, if anything.  Every throw lands in the same `catch` block. */
  method CreateUser(db: UserDb, req: CreateRequest, isEmail: string -> bool, hash: string -> string,
                    faults: LookupFaults, saveError: Option<DbError>, now: int) returns (res: Response)
    requires db.Valid()
    modifies db
    ensures db.Valid()
    ensures InputRejection(req, isEmail).Some? ==>
              res == InputRejection(req, isEmail).value && db.users == old(db.users)
    ensures InputRejection(req, isEmail).None? ==>
              var stage := Lookups(old(db.users), req.username, req.email, faults);
              && (stage.Stop? ==> res == stage.response && db.users == old(db.users))
              && (stage.Thrown? ==>
                    res == SaveErrorResponse(stage.error, FallbackMessage, ServerErrorMessage) &&
                    db.users == old(db.users))
              && (stage.Pass? && saveError.Some? ==>
                    res == SaveErrorResponse(saveError.value, FallbackMessage, ServerErrorMessage) &&
                    db.users == old(db.users))
              && (stage.Pass? && saveError.None? ==>
                    && db.users == old(db.users) + [NewUser(req, hash, now).(id := old(db.nextId))]
                    && res == Response(201, UserCreated(CreatedMessage, AdminView(db.users[|db.users| - 1]))))
    ensures faults == NoFaults && Rejection(old(db.users), req, isEmail).Some? ==>
              res == Rejection(old(db.users), req, isEmail).value && db.users == old(db.users)
    ensures res.status == 201 <==>
              Rejection(old(db.users), req, isEmail).None? && faults == NoFaults && saveError.None?
    ensures res.status == 201 ==> |db.users| == |old(db.users)| + 1
    ensures res.status != 201 ==> db.users == old(db.users)
  {
    var bad := InputRejection(req, isEmail);
    if bad.Some? {
      return bad.value;
    }
    match Lookups(db.users, req.username, req.email, faults) {
      case Stop(r) =>
        return r;
      case Thrown(e) =>
        return SaveErrorResponse(e, FallbackMessage, ServerErrorMessage);
      case Pass =>
    }
    var draft := NewUser(req, hash, now);
    if saveError.Some? {
      return SaveErrorResponse(saveError.value, FallbackMessage, ServerErrorMessage);
    }
    var stored := db.Insert(draft);
    res := Response(201, UserCreated(CreatedMessage, AdminView(stored)));
  }
}

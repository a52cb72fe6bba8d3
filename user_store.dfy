/** The backend's user collection (the `User` model) as the handlers see it: records
    in the collection's natural order, lookups, the two writes the core performs
    (insert a new user, store a new banana count), and the shape of the errors a
    failed write raises. */
module UserStore {
  import opened Optional

  /** A document `_id`; the store hands out fresh ones. */
  type UserId = nat

  datatype Role = Player | Admin

  datatype UserRecord = UserRecord(
    id: UserId,
    username: string,
    email: string,
    password: string,      // the stored (hashed) password
    displayName: string,   // "" when not given
    avatarUrl: string,     // "" when not given
    role: Role,
    bananaCount: int,
    isBlocked: bool,
    isDeleted: bool,
    createdAt: int,
    updatedAt: int)

  /** The query `{ isDeleted: false, isBlocked: false }`. */
  predicate IsActive(u: UserRecord)
  {
    !u.isDeleted && !u.isBlocked
  }

  predicate UniqueIds(users: seq<UserRecord>)
  {
    forall i, j :: 0 <= i < j < |users| ==> users[i].id != users[j].id
  }

  /** The position of the first record satisfying `p`, as `findOne` returns it. */
  function FindFirst(users: seq<UserRecord>, p: UserRecord -> bool): (r: Option<nat>)
    ensures r.Some? ==> r.value < |users| && p(users[r.value])
    ensures r.Some? ==> forall k :: 0 <= k < r.value ==> !p(users[k])
    ensures r.None? ==> forall k :: 0 <= k < |users| ==> !p(users[k])
    decreases |users|
  {
    if users == [] then None
    else if p(users[0]) then Some(0)
    else match FindFirst(users[1..], p)
      case None => None
      case Some(k) => Some(k + 1)
  }

  /** The position of the record with `_id` equal to `id`. */
  function IndexOfId(users: seq<UserRecord>, id: UserId): (r: Option<nat>)
    ensures r.Some? ==> r.value < |users| && users[r.value].id == id
    ensures r.None? <==> forall k :: 0 <= k < |users| ==> users[k].id != id
  {
    FindFirst(users, (u: UserRecord) => u.id == id)
  }

  /** `User.findById(id)`. */
  function FindById(users: seq<UserRecord>, id: UserId): (r: Option<UserRecord>)
    ensures r.Some? <==> exists k :: 0 <= k < |users| && users[k].id == id
    ensures r.Some? ==> r.value in users && r.value.id == id
  {
    match IndexOfId(users, id)
    case None => None
    case Some(k) => Some(users[k])
  }

  /** With unique ids, the record at position `k` is the one `findById` returns for its id. */
  lemma {:induction false} IndexOfUniqueId(users: seq<UserRecord>, k: nat)
    requires UniqueIds(users) && k < |users|
    ensures IndexOfId(users, users[k].id) == Some(k)
  {
    var r := IndexOfId(users, users[k].id);
    assert r.Some?;
    if r.value != k {
      assert false;
    }
  }

  /** Storing a new banana count for one record changes what `findById` returns for
      that record's id only, and only in its `bananaCount`. */
  lemma {:induction false} SetCountLookups(users: seq<UserRecord>, k: nat, count: int)
    requires UniqueIds(users) && k < |users|
    ensures UniqueIds(users[k := users[k].(bananaCount := count)])
    ensures FindById(users[k := users[k].(bananaCount := count)], users[k].id) == Some(users[k].(bananaCount := count))
    ensures forall id :: id != users[k].id ==>
              FindById(users[k := users[k].(bananaCount := count)], id) == FindById(users, id)
  {
    var updated := users[k := users[k].(bananaCount := count)];
    assert forall j :: 0 <= j < |users| ==> updated[j].id == users[j].id;
    IndexOfUniqueId(updated, k);
    forall id | id != users[k].id
      ensures FindById(updated, id) == FindById(users, id)
    {
      match IndexOfId(users, id)
      case None =>
        assert IndexOfId(updated, id).None?;
      case Some(j) =>
        IndexOfUniqueId(users, j);
        IndexOfUniqueId(updated, j);
        assert j != k;
    }
  }

  /** `User.findOne({ email })` finds something. */
  predicate EmailTaken(users: seq<UserRecord>, email: string)
  {
    FindFirst(users, (u: UserRecord) => u.email == email).Some?
  }

  /** `User.findOne({ username })` finds something. */
  predicate UsernameTaken(users: seq<UserRecord>, username: string)
  {
    FindFirst(users, (u: UserRecord) => u.username == username).Some?
  }

  /** The store as one mutable collection.  Ids come from `nextId`, so they never collide. */
  class UserDb {
    var users: seq<UserRecord>
    var nextId: UserId

    ghost predicate Valid()
      reads this
    {
      && UniqueIds(users)
      && forall k :: 0 <= k < |users| ==> users[k].id < nextId
    }

    constructor (initial: seq<UserRecord>, firstFreeId: UserId)
      requires UniqueIds(initial)
      requires forall k :: 0 <= k < |initial| ==> initial[k].id < firstFreeId
      ensures Valid() && users == initial && nextId == firstFreeId
    {
      users := initial;
      nextId := firstFreeId;
    }

    /** `new User({...}).save()` succeeding: the record gets a fresh `_id`. */
    method Insert(u: UserRecord) returns (stored: UserRecord)
      requires Valid()
      modifies this
      ensures Valid()
      ensures stored == u.(id := old(nextId))
      ensures users == old(users) + [stored]
      ensures FindById(old(users), stored.id).None?
    {
      stored := u.(id := nextId);
      users := users + [stored];
      nextId := nextId + 1;
    }

    /** `user.bananaCount = count; user.save()` for the record at position `k`. */
    method SetBananaCount(k: nat, count: int)
      requires Valid() && k < |users|
      modifies this
      ensures Valid() && nextId == old(nextId)
      ensures users == old(users)[k := old(users)[k].(bananaCount := count)]
    {
      users := users[k := users[k].(bananaCount := count)];
    }
  }

  /** What a failed `save` throws: a Mongoose error (`name`), a MongoDB duplicate-key
      error (`code` 11000 with the offending `keyValue`), or anything else. */
  datatype DbError = DbError(
    name: string,
    code: int,
    keyValue: Option<map<string, string>>,
    errors: Option<seq<string>>)   // `Object.values(error.errors).map(v => v.message)`

  /** The `details` of a 400 response: `error.errors || error.keyValue`. */
  datatype Details = ErrorsDetail(messages: seq<string>) | KeyValueDetail(keyValue: map<string, string>) | NoDetail

  /** The public view of a user in a controller response: no password field. */
  datatype UserView = UserView(
    id: UserId,
    username: string,
    email: string,
    displayName: string,
    avatarUrl: string,
    role: Role,
    bananaCount: int,
    flags: Option<(bool, bool)>,   // (isBlocked, isDeleted), present only in the admin view
    createdAt: int,
    updatedAt: int)

  datatype Body =
    | Message(message: string)
    | MessageWithDetails(message: string, details: Details)
    | UserCreated(message: string, user: UserView)
    | Registered(message: string, token: string, user: UserView)

  datatype Response = Response(status: int, body: Body)

  const MissingFieldsMessage := "Please provide username, email, and password."
  const InvalidEmailMessage := "Please provide a valid email address."
  const EmailInUseMessage := "Email already in use."
  const UsernameTakenMessage := "Username already taken."

  /** `messages.join(sep)`. */
  function Join(messages: seq<string>, sep: string): string
    decreases |messages|
  {
    if messages == [] then ""
    else if |messages| == 1 then messages[0]
    else messages[0] + sep + Join(messages[1..], sep)
  }

  /** A key of `keyValue` holding a truthy (non-empty) value. */
  predicate HasKey(keyValue: Option<map<string, string>>, key: string)
  {
    keyValue.Some? && key in keyValue.value && keyValue.value[key] != ""
  }

  /** The `catch` block shared by `createUser` and `register`: duplicate-key and
      validation errors become a 400 with a message and details, anything else a
      500 with `serverMessage`. */
  function SaveErrorResponse(e: DbError, fallback: string, serverMessage: string): (r: Response)
    ensures r.status == 400 <==> e.name == "ValidationError" || e.code == 11000
    ensures r.status != 400 ==> r == Response(500, Message(serverMessage))
    ensures e.code == 11000 && HasKey(e.keyValue, "email") ==>
              r.body.message == EmailInUseMessage
    ensures e.code == 11000 && !HasKey(e.keyValue, "email") && HasKey(e.keyValue, "username") ==>
              r.body.message == UsernameTakenMessage
    ensures e.code == 11000 && !HasKey(e.keyValue, "email") && !HasKey(e.keyValue, "username") ==>
              r.body.message == fallback
    ensures e.name == "ValidationError" && e.code != 11000 && e.errors.Some? ==>
              r.body.message == "Validation Error: " + Join(e.errors.value, ", ")
    ensures e.name == "ValidationError" && e.code != 11000 && e.errors.None? ==>
              r.body.message == fallback
    ensures r.status == 400 ==>
              r.body.MessageWithDetails? &&
              r.body.details == (if e.errors.Some? then ErrorsDetail(e.errors.value)
                                 else if e.keyValue.Some? then KeyValueDetail(e.keyValue.value)
                                 else NoDetail)
  {
    if e.name == "ValidationError" || e.code == 11000 then
      var message :=
        if e.code == 11000 then
          (if HasKey(e.keyValue, "email") then EmailInUseMessage
           else if HasKey(e.keyValue, "username") then UsernameTakenMessage
           else fallback)
        else if e.errors.Some? then "Validation Error: " + Join(e.errors.value, ", ")
        else fallback;
      var details :=
        if e.errors.Some? then ErrorsDetail(e.errors.value)
        else if e.keyValue.Some? then KeyValueDetail(e.keyValue.value)
        else NoDetail;
      Response(400, MessageWithDetails(message, details))
    else
      Response(500, Message(serverMessage))
  }

  /** The first two checks of `createUser` and `register`: the three credentials
      must be present (non-empty), then `validator.isEmail` must accept the email. */
  function CredentialCheck(username: string, email: string, password: string, isEmail: string -> bool): (r: Option<Response>)
    ensures username == "" || email == "" || password == "" ==>
              r == Some(Response(400, Message(MissingFieldsMessage)))
    ensures username != "" && email != "" && password != "" && !isEmail(email) ==>
              r == Some(Response(400, Message(InvalidEmailMessage)))
    ensures r.None? <==> username != "" && email != "" && password != "" && isEmail(email)
  {
    if username == "" || email == "" || password == "" then Some(Response(400, Message(MissingFieldsMessage)))
    else if !isEmail(email) then Some(Response(400, Message(InvalidEmailMessage)))
    else None
  }

  /** The uniqueness checks, email first: `findOne({ email })`, then `findOne({ username })`. */
  function DuplicateCheck(users: seq<UserRecord>, username: string, email: string): (r: Option<Response>)
    ensures EmailTaken(users, email) ==> r == Some(Response(400, Message(EmailInUseMessage)))
    ensures !EmailTaken(users, email) && UsernameTaken(users, username) ==>
              r == Some(Response(400, Message(UsernameTakenMessage)))
    ensures r.None? <==> !EmailTaken(users, email) && !UsernameTaken(users, username)
  {
    if EmailTaken(users, email) then Some(Response(400, Message(EmailInUseMessage)))
    else if UsernameTaken(users, username) then Some(Response(400, Message(UsernameTakenMessage)))
    else None
  }

  /** What each of the two awaited `findOne` lookups throws, if it throws. */
  datatype LookupFaults = LookupFaults(email: Option<DbError>, username: Option<DbError>)

  const NoFaults := LookupFaults(None, None)

  /** How the uniqueness stage ends: both lookups answered and found nothing, one
      found a clash and returned early, or one threw into the `catch` block. */
  datatype Stage = Pass | Stop(response: Response) | Thrown(error: DbError)

  /** The uniqueness stage with lookups that may throw.  The username lookup runs only
      when the email lookup answered and found nothing. */
  function Lookups(users: seq<UserRecord>, username: string, email: string, faults: LookupFaults): (r: Stage)
    ensures faults.email.Some? ==> r == Thrown(faults.email.value)
    ensures faults.email.None? && EmailTaken(users, email) ==> r == Stop(Response(400, Message(EmailInUseMessage)))
    ensures faults.email.None? && !EmailTaken(users, email) && faults.username.Some? ==>
              r == Thrown(faults.username.value)
    ensures r == Pass <==> faults == NoFaults && DuplicateCheck(users, username, email).None?
    ensures faults == NoFaults ==> (r.Stop? <==> DuplicateCheck(users, username, email).Some?)
    ensures faults == NoFaults && r.Stop? ==> r.response == DuplicateCheck(users, username, email).value
  {
    if faults.email.Some? then Thrown(faults.email.value)
    else if EmailTaken(users, email) then Stop(Response(400, Message(EmailInUseMessage)))
    else if faults.username.Some? then Thrown(faults.username.value)
    else if UsernameTaken(users, username) then Stop(Response(400, Message(UsernameTakenMessage)))
    else Pass
  }

  /** `EmailTaken` means some stored record has exactly that email. */
  lemma EmailTakenIff(users: seq<UserRecord>, email: string)
    ensures EmailTaken(users, email) <==> exists k :: 0 <= k < |users| && users[k].email == email
  {
    var r := FindFirst(users, (u: UserRecord) => u.email == email);
    if r.None? {
      assert forall k :: 0 <= k < |users| ==> users[k].email != email;
    }
  }

  /** `UsernameTaken` means some stored record has exactly that username. */
  lemma UsernameTakenIff(users: seq<UserRecord>, username: string)
    ensures UsernameTaken(users, username) <==> exists k :: 0 <= k < |users| && users[k].username == username
  {
    var r := FindFirst(users, (u: UserRecord) => u.username == username);
    if r.None? {
      assert forall k :: 0 <= k < |users| ==> users[k].username != username;
    }
  }
}

/** The admin user-management page: merging live status updates into the loaded
    list, the create/edit form validator, search, client-side pagination, and the
    guards in front of the delete and block/unblock calls. */
module UserManagement {
  import opened Optional
  import opened ClientTypes
  import Seqs
  import Text
  import FormRules

  // ---------------------------------------------------------------------------
  // Live status updates.

  /** A `user_status_update` payload; `online` is `status === 'online'`. */
  datatype StatusData = StatusData(userId: string, online: bool, bananaCount: int)

  /** `prevUsers.map(user => user._id === data.userId ? {...} : user)`. */
  function MergeStatus(users: seq<User>, data: StatusData): (r: seq<User>)
    ensures |r| == |users|
    ensures forall i :: 0 <= i < |users| ==> r[i].id == users[i].id
    ensures forall i :: 0 <= i < |users| && users[i].id != data.userId ==> r[i] == users[i]
    ensures forall i :: 0 <= i < |users| && users[i].id == data.userId ==>
              r[i] == users[i].(bananaCount := data.bananaCount, isOnline := Some(data.online))
  {
    seq(|users|, i requires 0 <= i < |users| =>
      if users[i].id == data.userId then users[i].(bananaCount := data.bananaCount, isOnline := Some(data.online))
      else users[i])
  }

  /** Receiving the same update twice leaves the list as receiving it once. */
  lemma MergeStatusIdempotent(users: seq<User>, data: StatusData)
    ensures MergeStatus(MergeStatus(users, data), data) == MergeStatus(users, data)
  {
  }

  /** Updates for two different users commute. */
  lemma MergeStatusCommutes(users: seq<User>, d1: StatusData, d2: StatusData)
    requires d1.userId != d2.userId
    ensures MergeStatus(MergeStatus(users, d1), d2) == MergeStatus(MergeStatus(users, d2), d1)
  {
  }

  // ---------------------------------------------------------------------------
  // The form validator.

  datatype Mode = Create | Edit
  datatype Field = UsernameField | EmailField | PasswordField | AvatarField

  datatype FormData = FormData(
    username: string,
    email: string,
    displayName: string,
    avatarUrl: string,
    role: Role,
    password: string)

  const UsernameRequired := "Username is required"
  const EmailRequired := "Email is required"
  const EmailInvalid := "Email is invalid"
  const PasswordRequired := "Password is required for new users"
  const PasswordShort := "Password must be at least 6 characters"
  const AvatarInvalid := "Avatar URL must be a valid URL"
  const MinPasswordLength := 6

  /** The password rule: required only when creating; a given password needs 6 characters. */
  predicate PasswordAcceptable(password: string, mode: Mode)
  {
    if password == "" then mode == Edit else Text.Utf16Length(password) >= MinPasswordLength
  }

  /** The form the validator lets through, stated field by field. */
  predicate FormAcceptable(form: FormData, mode: Mode)
  {
    && !Text.Blank(form.username)
    && !Text.Blank(form.email) && FormRules.EmailLike(form.email)
    && PasswordAcceptable(form.password, mode)
    && (form.avatarUrl == "" || FormRules.UrlLike(form.avatarUrl))
  }

  /** `validateForm()`: the errors it records, one per failing field, and whether none was. */
  method ValidateForm(form: FormData, mode: Mode) returns (errors: map<Field, string>, ok: bool)
    ensures ok <==> errors == map[]
    ensures ok <==> FormAcceptable(form, mode)
    ensures UsernameField in errors <==> Text.Blank(form.username)
    ensures UsernameField in errors ==> errors[UsernameField] == UsernameRequired
    ensures EmailField in errors <==> Text.Blank(form.email) || !FormRules.EmailLike(form.email)
    ensures EmailField in errors ==>
              errors[EmailField] == if Text.Blank(form.email) then EmailRequired else EmailInvalid
    ensures PasswordField in errors <==> !PasswordAcceptable(form.password, mode)
    ensures PasswordField in errors ==>
              errors[PasswordField] == if mode == Create && form.password == "" then PasswordRequired else PasswordShort
    ensures AvatarField in errors <==> form.avatarUrl != "" && !FormRules.UrlLike(form.avatarUrl)
    ensures AvatarField in errors ==> errors[AvatarField] == AvatarInvalid
  {
    errors := map[];
    Text.TrimEmptyIffBlank(form.username);
    if Text.Trim(form.username) == "" {
      errors := errors[UsernameField := UsernameRequired];
    }
    Text.TrimEmptyIffBlank(form.email);
    if Text.Trim(form.email) == "" {
      errors := errors[EmailField := EmailRequired];
    } else if !FormRules.EmailLike(form.email) {
      errors := errors[EmailField := EmailInvalid];
    }
    if mode == Create && form.password == "" {
      errors := errors[PasswordField := PasswordRequired];
    } else if form.password != "" && Text.Utf16Length(form.password) < MinPasswordLength {
      errors := errors[PasswordField := PasswordShort];
    }
    if form.avatarUrl != "" && !FormRules.UrlLike(form.avatarUrl) {
      errors := errors[AvatarField := AvatarInvalid];
    }
    ok := |errors.Keys| == 0;
    if !ok {
      assert errors != map[];
    }
  }

  /** Editing without typing a password keeps the old one and is not an error;
      creating without one is. */
  lemma EmptyPasswordOnlyForEdits(form: FormData)
    requires form.password == ""
    ensures FormAcceptable(form, Create) == false
    ensures FormAcceptable(form, Edit) <==>
              !Text.Blank(form.username) && !Text.Blank(form.email) && FormRules.EmailLike(form.email)
              && (form.avatarUrl == "" || FormRules.UrlLike(form.avatarUrl))
  {
  }

  /** Display name and role are never checked. */
  lemma DisplayNameAndRoleUnchecked(form: FormData, mode: Mode, displayName: string, role: Role)
    ensures FormAcceptable(form.(displayName := displayName, role := role), mode) == FormAcceptable(form, mode)
  {
  }

  // ---------------------------------------------------------------------------
  // Search and pagination.

  /** `user.username`, `user.email` or a truthy `user.displayName` contains the term,
      both lower-cased. */
  predicate Matches(u: User, term: string)
  {
    var t := Text.ToLower(term);
    || Text.Contains(Text.ToLower(u.username), t)
    || Text.Contains(Text.ToLower(u.email), t)
    || (u.displayName.Some? && u.displayName.value != "" && Text.Contains(Text.ToLower(u.displayName.value), t))
  }

  function MatchesTerm(term: string): User -> bool
  {
    (u: User) => Matches(u, term)
  }

  /** `filteredUsers`. */
  function FilteredUsers(users: seq<User>, term: string): (r: seq<User>)
    ensures |r| <= |users|
    ensures forall i :: 0 <= i < |r| ==> Matches(r[i], term)
  {
    Seqs.Filter(users, MatchesTerm(term))
  }

  /** The search keeps the matching users, all of them, in their original order,
      and an empty term keeps everyone. */
  lemma FilteredUsersSpec(users: seq<User>, term: string)
    ensures Seqs.SubsequenceOf(FilteredUsers(users, term), users)
    ensures forall u :: u in FilteredUsers(users, term) <==> u in users && Matches(u, term)
    ensures term == "" ==> FilteredUsers(users, term) == users
  {
    Seqs.FilterIsSubsequence(users, MatchesTerm(term));
    forall u
      ensures u in FilteredUsers(users, term) <==> u in users && Matches(u, term)
    {
      Seqs.FilterMembership(users, MatchesTerm(term), u);
    }
    if term == "" {
      forall i | 0 <= i < |users|
        ensures MatchesTerm(term)(users[i])
      {
        Text.ContainsEmpty(Text.ToLower(users[i].username));
      }
      Seqs.FilterAll(users, MatchesTerm(term));
    }
  }

  const Limit := 10

  /** `Math.ceil(n / LIMIT)`. */
  function TotalPages(n: nat): (t: nat)
    ensures n == 0 <==> t == 0
    ensures (t - 1) * Limit < n <= t * Limit || n == 0
  {
    (n + Limit - 1) / Limit
  }

  /** `filteredUsers.slice((page - 1) * LIMIT, (page - 1) * LIMIT + LIMIT)`. */
  function Paginate(filtered: seq<User>, page: int): (r: seq<User>)
    ensures |r| <= Limit
    ensures 1 <= page && page * Limit <= |filtered| ==> r == filtered[(page - 1) * Limit .. page * Limit]
    ensures 1 <= page && (page - 1) * Limit <= |filtered| < page * Limit ==> r == filtered[(page - 1) * Limit ..]
    ensures 1 <= page && (page - 1) * Limit >= |filtered| ==> r == []
  {
    Seqs.JsSlice(filtered, (page - 1) * Limit, (page - 1) * Limit + Limit)
  }

  /** Pages 1 to `k`, one after another. */
  function FirstPages(filtered: seq<User>, k: nat): seq<User>
  {
    if k == 0 then [] else FirstPages(filtered, k - 1) + Paginate(filtered, k)
  }

  lemma {:induction false} FirstPagesPrefix(filtered: seq<User>, k: nat)
    ensures FirstPages(filtered, k) == filtered[..if k * Limit <= |filtered| then k * Limit else |filtered|]
  {
    if k > 0 {
      FirstPagesPrefix(filtered, k - 1);
    }
  }

  /** Paging through all pages shows every filtered user exactly once, in order. */
  lemma PagesCoverFiltered(filtered: seq<User>)
    ensures FirstPages(filtered, TotalPages(|filtered|)) == filtered
  {
    FirstPagesPrefix(filtered, TotalPages(|filtered|));
  }

  /** `setPage(p => Math.max(1, p - 1))`. */
  function PrevPage(page: int): (r: int)
    ensures r >= 1
    ensures page > 1 ==> r == page - 1
    ensures page <= 1 ==> r == 1
  {
    if page - 1 > 1 then page - 1 else 1
  }

  /** `setPage(p => Math.min(totalPages, p + 1))`. */
  function NextPage(page: int, totalPages: nat): (r: int)
    ensures r <= totalPages
    ensures page < totalPages ==> r == page + 1
    ensures page >= totalPages ==> r == totalPages
  {
    if page + 1 < totalPages then page + 1 else totalPages
  }

  /** From a page in range, Prev and Next keep it in range when there is at least one page. */
  lemma PageStaysInRange(page: int, totalPages: nat)
    requires 1 <= page <= totalPages
    ensures 1 <= PrevPage(page) <= totalPages
    ensures 1 <= NextPage(page, totalPages) <= totalPages
  {
  }

  /** A search that matches nobody leaves 0 pages while the page is 1, and the Next
      button, enabled because `page !== totalPages`, moves to page 0; the slice for
      page 0 is empty and Prev brings the page back to 1. */
  lemma NextWithNoPages()
    ensures NextPage(1, TotalPages(0)) == 0
    ensures Paginate([], 0) == []
    ensures PrevPage(0) == 1
  {
  }

  // ---------------------------------------------------------------------------
  // Delete and block/unblock guards.

  datatype ServiceCall = DeleteUser(id: string) | BlockUser(id: string) | UnblockUser(id: string)

  /** What a click leads to: an error notification, a cancelled confirm, or a service call. */
  datatype Outcome = Refused(message: string) | Cancelled | Call(call: ServiceCall)

  function DeletePrompt(u: User): string
  {
    "Are you sure you want to delete " + u.username + "?"
  }

  /** `handleDeleteUser(user)`; `confirm` is `window.confirm` with the prompt it is shown. */
  function DeleteOutcome(u: User, confirm: string -> bool): (r: Outcome)
    ensures u.role == Admin ==> r == Refused("Cannot delete admin users")
    ensures r.Call? <==> u.role != Admin && confirm(DeletePrompt(u))
    ensures r.Call? ==> r.call == DeleteUser(u.id)
  {
    if u.role == Admin then Refused("Cannot delete admin users")
    else if confirm(DeletePrompt(u)) then Call(DeleteUser(u.id))
    else Cancelled
  }

  function ToggleAction(u: User): string
  {
    if u.isBlocked then "unblock" else "block"
  }

  function TogglePrompt(u: User): string
  {
    "Are you sure you want to " + ToggleAction(u) + " " + u.username + "?"
  }

  /** `handleToggleBlockUser(user)`: unblock a blocked user, block any other. */
  function ToggleOutcome(u: User, confirm: string -> bool): (r: Outcome)
    ensures u.role == Admin ==> r == Refused("Cannot block admin users")
    ensures r.Call? <==> u.role != Admin && confirm(TogglePrompt(u))
    ensures r.Call? ==> r.call.id == u.id && (r.call.UnblockUser? <==> u.isBlocked) && !r.call.DeleteUser?
  {
    if u.role == Admin then Refused("Cannot block admin users")
    else if confirm(TogglePrompt(u)) then
      Call(if u.isBlocked then UnblockUser(u.id) else BlockUser(u.id))
    else Cancelled
  }

  /** No click on this page ever sends a delete, block or unblock for an admin, whatever
      the confirm dialog answers. */
  lemma AdminsNeverTargeted(u: User, confirm: string -> bool)
    requires u.role == Admin
    ensures !DeleteOutcome(u, confirm).Call? && !ToggleOutcome(u, confirm).Call?
  {
  }
}

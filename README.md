# Banana clicker — a Dafny model of its game logic

Banana clicker is a multiplayer clicking game. Players sign in and click a banana, and every click raises their stored count. A live ranking of the top 100 players is pushed to everyone. Admins manage users and watch a live activity monitor.

This project models the game's sequential decision and state-update code and proves what each piece promises. It covers both halves of the system.

The server:
- The Socket.IO handshake check (`SocketAuth`).
- The registry of live sockets per user, the rooms, and the `connection`, `disconnect`, `banana_click` and `request_initial_ranks` handlers with their event log (`Presence`).
- `getRanks` (`Presence.Ranks`).
- The `createUser` and `register` validation ladders and their save-error mapping (`UserController`, `AuthController`, `UserStore`).
- The Express error handler (`ErrorHandler`).

The client:
- The admin activity monitor (`ActivityMonitor`).
- The admin user-management page (`UserManagement`).
- The rank page (`RankPage`).
- The click handler with its combo multiplier (`HomePage`).
- The login and register forms (`LoginPage`, `RegisterPage`).
- The route guard (`ProtectedRoute`).
- The toast list (`Notifications`).
- The session state (`AuthContext`).

Shared modules hold the JavaScript primitives the code relies on:
- `Seqs`: `filter`, `slice` with clamping, sums.
- `Sorting`: a stable sort by a strict "before" relation.
- `Text`: `trim`, ASCII `toLowerCase`, `includes`, string `<` and `.length` in UTF-16 code units.
- `FormRules`: the two form regexes.

Where the code updates state in place, the model is a class:
- `Presence.Server`
- `UserStore.UserDb`
- `SocketAuth.Socket`
- `ActivityMonitor.Monitor`
- `HomePage.Clicker`
- `Notifications.Notifier`
- `AuthContext.Session`

Each handler is one method whose `ensures` gives the whole new state. Pure code (filters, comparators, ladders of conditional returns) is modelled as functions, with lemmas about them.

Libraries and effects the code calls into are parameters of the operations:
- `jwt.verify`, `generateToken`, bcrypt, `validator.isEmail`, `JSON.parse` and `JSON.stringify`;
- the outcome of a `save`, a failing query or a throwing lookup;
- `window.confirm`;
- the authentication service's answer;
- `Date.now()`.

Where the code differs from what one might expect, the model follows the code:
- A status event goes to admins on every connect and every disconnect.
- A disconnect reports the `bananaCount` the socket was authenticated with.
- `player_score_update` goes to the clicking socket only.
- A click is counted for a blocked or deleted user as long as the record exists.
- The store is modelled as a sequence in collection order with unique ids, not as a map from id to record. The query in `getRanks` sorts by `bananaCount` alone and leaves the order among equal counts open; the model chooses store order for them (a stable sort of the sequence). `findById` is a lookup by id in that sequence.

## Model

| member | source | states |
|---|---|---|
| SocketAuth.Decide | backend/src/middleware/socketAuthMiddleware.js:4-27 | rejects with "No token provided" iff the token is missing or empty; accepts iff the token verifies, the lookup does not throw and finds a user that is neither deleted nor blocked; the accepted user has the verified id and no password; a failed verification or a throwing lookup gives "Token verification failed" |
| SocketAuth.ErrorMessage | backend/src/middleware/socketAuthMiddleware.js:7-25 | every rejection carries a non-empty message |
| SocketAuth.InactiveUserNeverAccepted | backend/src/middleware/socketAuthMiddleware.js:15-19 | a blocked or deleted user is never accepted, whatever the token |
| SocketAuth.Socket.constructor | backend/app.js:78 | a new socket has no `socket.user` |
| SocketAuth.Socket.Authenticate | backend/src/middleware/socketAuthMiddleware.js:21-26 | `next()` without error exactly on acceptance; `socket.user` is then the accepted user and is left untouched on rejection |
| Presence.SessionCount | backend/app.js:109 | the reported count is 0 iff the user has no socket set or an empty one |
| Presence.AddSocket | backend/app.js:87-90 | after a connect the user is listed and holds the socket: the old set plus the id, or a new singleton; other users unchanged |
| Presence.RemoveSocket | backend/app.js:188-194 | the socket leaves the user's set; the key is deleted iff the set becomes empty; other users unchanged |
| Presence.AddSocketIdempotent | backend/app.js:87-90 | re-adding the same socket id changes nothing |
| Presence.UpdatesKeepNoEmptySets | backend/app.js:87-94 | connect and disconnect never leave a user with an empty set |
| Presence.ReplayIsLive | backend/app.js:87-90 | after any sequence of connects and disconnects a user is listed iff it has live sockets, its set is exactly those sockets, and no set is empty |
| Presence.SessionCountIsLive | backend/app.js:109 | the count in status events is the number of live sockets |
| Presence.ToEntry | backend/app.js:38 | a ranked entry keeps the user's id, username and count |
| Presence.MoreBananasAsymmetric | backend/app.js:36 | the `bananaCount` descending comparator is a strict order |
| Presence.TopActive | backend/app.js:35-38 | the query returns at most 100 records |
| Presence.Ranks | backend/app.js:33-47 | at most 100 entries; a failing query gives the empty list |
| Presence.DescendingPairwise | backend/app.js:36 | in the sorted list an earlier record never has fewer bananas than a later one |
| Presence.RanksDescending | backend/app.js:33-47 | the ranking is non-increasing in `bananaCount` |
| Presence.RanksAreActiveUsers | backend/app.js:35 | every entry is a stored user who is neither deleted nor blocked |
| Presence.RanksAreTop | backend/app.js:35-38 | an active user left out of a non-empty ranking has no more bananas than its last entry |
| Presence.SmallStoresFullyRanked | backend/app.js:35-38 | with at most 100 active users every one of them is ranked |
| Presence.EqualCountsKeepStoreOrder | backend/app.js:35-38 | under the tie rule the model chooses, active users with equal counts come out of the ranking sort in the store's order; the query itself leaves that order open |
| Sorting.InsertKeepsTieOrder | backend/app.js:36 | an inserted element goes ahead of the elements it ties with and leaves their order alone |
| Sorting.SortIsStable | backend/app.js:36 | the sort keeps elements that tie in their input order |
| Presence.RoomsFor | backend/app.js:95-99 | every authenticated socket joins its own user's room and no other user's; only admins join `admin_room` |
| Presence.Server.constructor | backend/app.js:31 | an empty registry, no rooms, no events |
| Presence.Server.Connect | backend/app.js:78-117 | an unauthenticated socket changes nothing; otherwise the socket is registered, joins its rooms, and exactly one `online` status event with the new set size goes to `admin_room` |
| Presence.Server.Disconnect | backend/app.js:181-209 | the socket's rooms go; an unregistered user changes nothing and emits nothing; otherwise the socket is removed and one status event goes to admins, `offline` iff no socket remains, with the remaining count and the handshake-time `bananaCount` |
| Presence.Server.RequestInitialRanks | backend/app.js:120-139 | ignored without `socket.user`; otherwise one `rank_update` with `getRanks()` to the asking socket only |
| Presence.Server.BananaClick | backend/app.js:141-179 | ignored without `socket.user`, for a missing user or on a store failure; otherwise exactly that record's count rises by 1 and `player_score_update` (to the socket), `user_status_update` (to admins) and `rank_update` (to everyone) follow in that order |
| Presence.ClickTouchesOnlyClicker | backend/app.js:148-151 | after a click `findById` gives the clicker's old count plus one and every other id's record unchanged |
| UserStore.FindFirst | backend/src/controllers/userController.js:32-40 | `findOne` returns the first matching record, and none when nothing matches |
| UserStore.IndexOfId | backend/app.js:148 | the position found holds the id; none iff no record has it |
| UserStore.FindById | backend/app.js:148 | `findById` finds a record iff one has that id, and it is a stored record with that id |
| UserStore.IndexOfUniqueId | backend/src/middleware/socketAuthMiddleware.js:13 | with unique ids the lookup of a record's id finds that record's position |
| UserStore.SetCountLookups | backend/app.js:150-151 | saving a new count keeps ids unique, changes that id's record only in its count, and leaves every other lookup as it was |
| UserStore.UserDb.constructor | backend/src/models/User.js:4-76 | the store starts with the given records and a fresh id above all of them |
| UserStore.UserDb.Insert | backend/src/controllers/userController.js:43-52 | a successful `save` appends the record with a fresh `_id` that no stored record has |
| UserStore.UserDb.SetBananaCount | backend/app.js:150-151 | only the given record's `bananaCount` changes |
| UserStore.SaveErrorResponse | backend/src/controllers/userController.js:73-92 | 400 iff a validation or duplicate-key error; duplicate key names the email message first, then the username message, else the fallback; validation errors join their messages with ", "; `details` is `errors`, else `keyValue`; anything else gives 500 with the server message |
| UserStore.CredentialCheck | backend/src/controllers/userController.js:13-23 | a missing username, email or password gives the missing-fields 400 before the email check; an email the validator rejects gives the invalid-email 400; passes iff neither |
| UserStore.DuplicateCheck | backend/src/controllers/userController.js:32-40 | a taken email is reported before a taken username; passes iff neither is taken |
| UserStore.Lookups | backend/src/controllers/userController.js:32-40 | the email lookup runs first: if it throws, that error goes to the `catch`; a taken email stops; only then can the username lookup throw or stop; the stage passes iff nothing throws and nothing is taken |
| UserStore.EmailTakenIff | backend/src/controllers/userController.js:32-35 | the email lookup succeeds iff some record has exactly that email |
| UserStore.UsernameTakenIff | backend/src/controllers/userController.js:36-40 | the username lookup succeeds iff some record has exactly that username |
| UserController.RoleOf | backend/src/controllers/userController.js:49 | the created role is admin iff the request asked for `admin`; otherwise player |
| UserController.InputRejection | backend/src/controllers/userController.js:13-29 | credential errors first, then an unknown role; each a 400; none iff the credentials are present, the email is valid and the role is absent or known |
| UserController.Rejection | backend/src/controllers/userController.js:13-40 | with both lookups answering: every early return is a 400; none iff the credentials are present, the email is valid, the role is absent or known, and neither email nor username is taken; input errors come first |
| UserController.InputChecksIgnoreStore | backend/src/controllers/userController.js:13-29 | a request refused by the credential or role check is refused the same way whatever the store holds |
| UserController.NewUser | backend/src/controllers/userController.js:43-50 | the new document carries the request's fields, the hashed password, the requested or default role, 0 bananas, not blocked or deleted |
| UserController.AdminView | backend/src/controllers/userController.js:55-67 | the response user has the record's id, names, role, count and flags and no password |
| UserController.CreateUser | backend/src/controllers/userController.js:7-94 | an input rejection returns its 400; then a taken email or username returns its 400, and a lookup that throws is answered like a save error; a failed save returns the mapped error; none of these saves anything; otherwise exactly the new user is appended and 201 returns its view; 201 iff no rejection, no throw and no save error |
| AuthController.Rejection | backend/src/controllers/authController.js:16-36 | every early return is a 400; none iff the credentials are present, the email is valid, and neither email nor username is taken; credential errors come first |
| AuthController.EmptyBodyRejected | backend/tests/server.test.js:25-31 | an empty body gets 400 with the missing-fields message |
| AuthController.NewUser | backend/src/controllers/authController.js:38-44 | the new document carries the request's fields and the hashed password, and has role player, 0 bananas and no flags |
| AuthController.RoleNeverRead | backend/src/models/User.js:31-35 | a `role` in the request body never changes the created user |
| AuthController.PublicView | backend/src/controllers/authController.js:50-59 | the response user has the record's id, names, role and count, and neither password nor flags |
| AuthController.Register | backend/src/controllers/authController.js:12-88 | credential errors, then a taken email or username, return their 400; a lookup that throws or a failed save gets the mapped error; none of these saves anything; otherwise the user is appended and 201 returns the token for its id and role player with its public view |
| ErrorHandler.StatusAsWritten | backend/src/middleware/errorHandlerMiddleware.js:6-7 | as written: 500 whenever the error has a status code or the response is still 200, else the response's status |
| ErrorHandler.OwnStatusIgnored | backend/src/middleware/errorHandlerMiddleware.js:6-7 | a 404 error is answered with 500 |
| ErrorHandler.Status | backend/src/middleware/errorHandlerMiddleware.js:6-7 | corrected: the error's own status wins, else 500 for a 200 response, else the response's status |
| ErrorHandler.StatusReadingsAgree | backend/src/middleware/errorHandlerMiddleware.js:6-7 | the two readings agree iff the error has no status of its own or its status is 500 |
| ErrorHandler.Body | backend/src/middleware/errorHandlerMiddleware.js:11-15 | the message is the error's, or "An unexpected error occurred." when empty; the stack appears iff in development; details appear iff truthy |
| ActivityMonitor.IndexOf | frontend/src/pages/AdminActivityMonitorPage.tsx:73 | `findIndex` gives the first row with the id, none iff absent |
| ActivityMonitor.UpsertRefreshesKnownRow | frontend/src/pages/AdminActivityMonitorPage.tsx:74-82 | a known id keeps its place and display fields and gets the new username, count, online flag and `lastActive` |
| ActivityMonitor.UpsertAppendsUnseenRow | frontend/src/pages/AdminActivityMonitorPage.tsx:83-92 | an unseen id is appended with its username as display name and no avatar |
| ActivityMonitor.UpsertLeavesOthers | frontend/src/pages/AdminActivityMonitorPage.tsx:72-93 | rows of other ids are unchanged |
| ActivityMonitor.UpsertKeepsIdsUnique | frontend/src/pages/AdminActivityMonitorPage.tsx:72-93 | the upsert never duplicates an id |
| ActivityMonitor.InsertElements | frontend/src/pages/AdminActivityMonitorPage.tsx:94 | sorting introduces no new row |
| ActivityMonitor.InsertKeepsIdsUnique | frontend/src/pages/AdminActivityMonitorPage.tsx:94 | inserting a row with a new id keeps ids unique |
| ActivityMonitor.SortKeepsIdsUnique | frontend/src/pages/AdminActivityMonitorPage.tsx:94 | the recency sort keeps ids unique |
| ActivityMonitor.PushActivity | frontend/src/pages/AdminActivityMonitorPage.tsx:104-113 | the new entry comes first, followed by at most 49 older ones in order, so the feed never exceeds 50 |
| ActivityMonitor.ClickDelta | frontend/src/pages/AdminActivityMonitorPage.tsx:63-70 | the delta is never negative and is positive iff the new count exceeds the row's old count (0 for an unseen id) |
| ActivityMonitor.OnlineCount | frontend/src/pages/AdminActivityMonitorPage.tsx:131-132 | the online count is at most the table size |
| ActivityMonitor.OnlineCountExtremes | frontend/src/pages/AdminActivityMonitorPage.tsx:131-132 | it equals the table size iff everyone is online and 0 iff no one is |
| ActivityMonitor.OnlineCountAfterRefresh | frontend/src/pages/AdminActivityMonitorPage.tsx:131-132 | refreshing one row moves the count only by that row's flag |
| ActivityMonitor.FilterPointUpdate | frontend/src/pages/AdminActivityMonitorPage.tsx:131-132 | replacing one element changes a filter's length by that element's test alone |
| ActivityMonitor.NextSortConfig | frontend/src/pages/AdminActivityMonitorPage.tsx:181-187 | the key is the one clicked; descending iff the same key was ascending |
| ActivityMonitor.RepeatedSortAlternates | frontend/src/pages/AdminActivityMonitorPage.tsx:181-187 | clicking the same header again always flips the direction |
| ActivityMonitor.BeforeAsymmetric | frontend/src/pages/AdminActivityMonitorPage.tsx:192-198 | the comparator's "strictly before" is a strict order for every key and direction |
| ActivityMonitor.SortedUsers | frontend/src/pages/AdminActivityMonitorPage.tsx:189-203 | the sorted copy is a permutation of the table |
| ActivityMonitor.SortedUsersOrdered | frontend/src/pages/AdminActivityMonitorPage.tsx:189-203 | no row comes strictly before its predecessor in the chosen order, so descending by count is non-increasing |
| ActivityMonitor.FormatTimestamp | frontend/src/pages/AdminActivityMonitorPage.tsx:207-223 | seconds under 60 s, minutes under 60 min, hours under 24 h, else the date; each number is the floor of the elapsed time in its unit |
| ActivityMonitor.Monitor.constructor | frontend/src/pages/AdminActivityMonitorPage.tsx:27-37 | empty table, feed and buffer, 0 clicks per minute, sorted by `lastActive` descending |
| ActivityMonitor.Monitor.HandleStatusUpdate | frontend/src/pages/AdminActivityMonitorPage.tsx:53-114 | the table becomes the upserted rows sorted by recency; a click entry is prepended iff the delta is positive; one activity entry is pushed; the table keeps unique ids and the feed at most 50 |
| ActivityMonitor.Monitor.CalculateCpm | frontend/src/pages/AdminActivityMonitorPage.tsx:145-164 | the buffer keeps only the last 120000 ms and the rate is the sum of clicks of the last 60000 ms |
| ActivityMonitor.Monitor.RequestSort | frontend/src/pages/AdminActivityMonitorPage.tsx:181-187 | only the sort setting changes, as `NextSortConfig` says |
| ActivityMonitor.HandledTableShape | frontend/src/pages/AdminActivityMonitorPage.tsx:72-94 | after an update the table has unique ids, is ordered by recency, holds the updated user with its new username, count, online flag and `lastActive`, and keeps every other row |
| UserManagement.MergeStatus | frontend/src/pages/AdminUserManagementPage.tsx:63-69 | length, order and ids are kept; only the matching rows change, and only in `bananaCount` and `isOnline` |
| UserManagement.MergeStatusIdempotent | frontend/src/pages/AdminUserManagementPage.tsx:63-69 | receiving the same update twice is receiving it once |
| UserManagement.MergeStatusCommutes | frontend/src/pages/AdminUserManagementPage.tsx:63-69 | updates for different users commute |
| UserManagement.ValidateForm | frontend/src/pages/AdminUserManagementPage.tsx:152-177 | valid iff no errors; a username error iff blank; an email error iff blank or not `\S+@\S+\.\S+`; a password error iff missing when creating, or non-empty and under 6 UTF-16 code units (`.length`); an avatar error iff non-empty and not an http(s) URL; each with its message |
| UserManagement.EmptyPasswordOnlyForEdits | frontend/src/pages/AdminUserManagementPage.tsx:165-169 | an empty password fails when creating and is accepted when editing |
| UserManagement.DisplayNameAndRoleUnchecked | frontend/src/pages/AdminUserManagementPage.tsx:152-177 | display name and role never affect validity |
| UserManagement.FilteredUsers | frontend/src/pages/AdminUserManagementPage.tsx:284-289 | every kept user matches the term |
| UserManagement.FilteredUsersSpec | frontend/src/pages/AdminUserManagementPage.tsx:284-289 | the result keeps its order, holds exactly the matching users, and keeps everyone for an empty term |
| UserManagement.TotalPages | frontend/src/pages/AdminUserManagementPage.tsx:298 | `ceil(n/10)`: 0 iff no users, else the least page count that holds them |
| UserManagement.Paginate | frontend/src/pages/AdminUserManagementPage.tsx:292-296 | a page holds at most 10 users, exactly the filtered users `[(page-1)*10, page*10)` clamped to the list |
| UserManagement.FirstPagesPrefix | frontend/src/pages/AdminUserManagementPage.tsx:292-296 | pages 1..k together are the first `10k` users |
| UserManagement.PagesCoverFiltered | frontend/src/pages/AdminUserManagementPage.tsx:292-298 | paging through all pages shows every filtered user once, in order |
| UserManagement.PrevPage | frontend/src/pages/AdminUserManagementPage.tsx:464 | Prev never goes below 1 |
| UserManagement.NextPage | frontend/src/pages/AdminUserManagementPage.tsx:478 | Next never goes above the page count |
| UserManagement.PageStaysInRange | frontend/src/pages/AdminUserManagementPage.tsx:464-478 | from a page in range, Prev and Next stay in range |
| UserManagement.NextWithNoPages | frontend/src/pages/AdminUserManagementPage.tsx:478 | with no matching users Next moves page 1 to page 0, which shows nothing, and Prev brings it back to 1 |
| UserManagement.DeleteOutcome | frontend/src/pages/AdminUserManagementPage.tsx:216-243 | an admin is refused with "Cannot delete admin users"; the delete call happens iff the user is not an admin and the prompt is confirmed |
| UserManagement.ToggleOutcome | frontend/src/pages/AdminUserManagementPage.tsx:245-281 | an admin is refused with "Cannot block admin users"; a call happens iff the user is not an admin and the prompt is confirmed; it is an unblock iff the user is blocked |
| UserManagement.AdminsNeverTargeted | frontend/src/pages/AdminUserManagementPage.tsx:216-264 | no service call ever targets an admin |
| RankPage.RankList | frontend/src/pages/PlayerRankPage.tsx:25-31 | the list is replaced wholesale, in server order |
| RankPage.RanksAreOneToN | frontend/src/pages/PlayerRankPage.tsx:27-30 | entry i has rank i+1, so ranks strictly increase and are exactly 1..n |
| RankPage.Search | frontend/src/pages/PlayerRankPage.tsx:59-62 | every kept entry matches the term |
| RankPage.FilterKeepsRankOrder | frontend/src/pages/PlayerRankPage.tsx:59-62 | filtering keeps ranks strictly increasing |
| RankPage.SearchSpec | frontend/src/pages/PlayerRankPage.tsx:59-62 | the search keeps its order, holds exactly the matching entries with their ranks, and keeps all for an empty term |
| RankPage.CurrentUserRank | frontend/src/pages/PlayerRankPage.tsx:64-67 | none without a user; otherwise an entry with the user's id, or none iff no entry has it |
| RankPage.CurrentUserRankIsFirst | frontend/src/pages/PlayerRankPage.tsx:64-67 | the entry found has the best rank among the user's entries |
| RankPage.ShownRowsOf | frontend/src/pages/PlayerRankPage.tsx:187 | the first `min(n, 20)` rows are shown |
| RankPage.Footer | frontend/src/pages/PlayerRankPage.tsx:239 | the footer says `min(n, 20)` of `n` |
| RankPage.RankBadge | frontend/src/pages/PlayerRankPage.tsx:72-82 | a crown iff the rank is 1 to 3, gold for 1; any other rank shows its number |
| RankPage.RowStyleOf | frontend/src/pages/PlayerRankPage.tsx:85-96 | the current user's style iff it is the current user; otherwise a medal style iff the rank is 1 to 3, matching the badge |
| HomePage.NextCombo | frontend/src/pages/PlayerHomePage.tsx:87-97 | `min(prev+1, 10)` when the last click was under 500 ms ago and `lastClickTime` is not 0, else 1; stays in [1, 10] |
| HomePage.QuickClicksClimb | frontend/src/pages/PlayerHomePage.tsx:87-97 | clicks each under 500 ms after a non-zero previous click raise the combo, through `NextCombo`, by one per click up to 10 |
| HomePage.BurstClimbs | frontend/src/pages/PlayerHomePage.tsx:87-97 | a slow (or first) click followed by quick ones leaves the combo at `min(n, 10)` after n clicks |
| HomePage.ClickParticles | frontend/src/pages/PlayerHomePage.tsx:71-79 | a click makes exactly 5 particles at its coordinates, the k-th with id `Date.now() + k` from the k-th clock read |
| HomePage.ParticleIdsIncrease | frontend/src/pages/PlayerHomePage.tsx:72-78 | with a clock that never goes back the ids of a click strictly increase, and are consecutive when the clock does not move during the loop |
| HomePage.Clicker.constructor | frontend/src/pages/PlayerHomePage.tsx:15-21 | nothing counted, combo 1 and hidden, no particles, no timer |
| HomePage.Clicker.HandleClick | frontend/src/pages/PlayerHomePage.tsx:52-114 | disconnected: only a notification, nothing else changes; connected: one `banana_click`, count +1, `lastClickTime` = now, combo per `NextCombo`, 5 more particles from the five clock reads; the reset timer is re-armed when the combo or click time changed and left as it was otherwise; the combo stays in [1, 10] |
| HomePage.Clicker.Tick | frontend/src/pages/PlayerHomePage.tsx:33-50 | a due reset timer puts the combo back to 1 and hides it; nothing else changes |
| RegisterPage.ValidateForm | frontend/src/pages/RegisterPage.tsx:31-62 | valid iff no errors; username required, then at least 3 untrimmed UTF-16 code units; email required, then `\S+@\S+\.\S+`; password required, then at least 6 code units; a confirm error iff the passwords differ, regardless of the other fields; avatar URL optional but http(s) |
| RegisterPage.SubmitPayload | frontend/src/pages/RegisterPage.tsx:72-78 | the display name defaults to the username and an empty avatar URL is left out |
| RegisterPage.AcceptedPayloadHasDisplayName | frontend/src/pages/RegisterPage.tsx:72-78 | an accepted form never submits an empty display name |
| RegisterPage.HandleSubmit | frontend/src/pages/RegisterPage.tsx:64-78 | `register` is called, with the payload, iff the form is valid |
| LoginPage.ValidateForm | frontend/src/pages/LoginPage.tsx:20-37 | valid iff no errors; email required, then `\S+@\S+\.\S+`; password required, then at least 6 UTF-16 code units; each with its message, at most one per field |
| LoginPage.HandleSubmit | frontend/src/pages/LoginPage.tsx:39-47 | `login` is called, with the credentials, iff the form is valid |
| LoginPage.RedirectAfterLogin | frontend/src/pages/LoginPage.tsx:53-57 | admins go to `/admin/users`, everyone else to `/` |
| ProtectedRoute.Guard | frontend/src/components/common/ProtectedRoute.tsx:10-40 | loading shows the loading screen; no session or no user redirects to `/login`; a role mismatch sends admins to `/admin/users` and players to `/`; children render iff not loading, signed in and the role is absent or matches |
| ProtectedRoute.MismatchGoesHome | frontend/src/components/common/ProtectedRoute.tsx:34-36 | a mismatched user goes to its own role's home, never to the login page |
| Notifications.WithoutId | frontend/src/contexts/NotificationContext.tsx:50-52 | no remaining toast has the closed id |
| Notifications.WithoutIdSpec | frontend/src/contexts/NotificationContext.tsx:50-52 | closing keeps every other toast, in order |
| Notifications.CloseAbsentAndTwice | frontend/src/contexts/NotificationContext.tsx:50-52 | closing an absent id is a no-op and closing twice is closing once |
| Notifications.Notifier.constructor | frontend/src/contexts/NotificationContext.tsx:33 | no toasts and no timers |
| Notifications.Notifier.Show | frontend/src/contexts/NotificationContext.tsx:34-48 | exactly one toast is appended, with id `now` and duration 5000 by default; a close is scheduled iff the duration is positive |
| Notifications.Notifier.Close | frontend/src/contexts/NotificationContext.tsx:50-52 | the list becomes the list without that id; timers unchanged |
| AuthContext.Restore | frontend/src/contexts/AuthContext.tsx:64-90 | signed in iff both keys are truthy and the stored user parses; then with the stored token and storage untouched; both keys removed iff they are truthy but the user does not parse |
| AuthContext.Persist | frontend/src/contexts/AuthContext.tsx:104-105 | the storage holds the token and the serialized user; other keys unchanged |
| AuthContext.ReloadAfterSignIn | frontend/src/contexts/AuthContext.tsx:64-108 | when serialization round-trips, a reload after signing in restores the same user and token |
| AuthContext.CorruptStorageClearedOnce | frontend/src/contexts/AuthContext.tsx:76-79 | an unreadable stored user is removed with the token, so the next load changes nothing |
| AuthContext.Session.constructor | frontend/src/contexts/AuthContext.tsx:57-61 | no user, no token, not authenticated, loading, no error |
| AuthContext.Session.Load | frontend/src/contexts/AuthContext.tsx:63-94 | the state and storage are as `Restore` says, authenticated iff a user was restored, and loading ends |
| AuthContext.Session.Login | frontend/src/contexts/AuthContext.tsx:96-115 | success stores the token and user, sets them in state, authenticates and resolves with the user; failure sets the error (or the default message), rejects, and leaves user, token and storage unchanged; loading ends false |
| AuthContext.Session.Register | frontend/src/contexts/AuthContext.tsx:117-135 | as login, with the registration default message and no resolved value |
| AuthContext.Session.Logout | frontend/src/contexts/AuthContext.tsx:137-143 | both keys leave the storage; user, token and authentication are cleared |
| AuthContext.Session.UpdateUserBananaCount | frontend/src/contexts/AuthContext.tsx:145-152 | no-op without a user; otherwise only the in-memory user's `bananaCount` changes |
| AuthContext.Session.ClearError | frontend/src/contexts/AuthContext.tsx:154-156 | only the error is cleared |
| FormRules.EmailLikeIffPattern | frontend/src/pages/RegisterPage.tsx:42 | the scanning check accepts exactly the strings containing non-space, `@`, non-space, `.`, non-space |
| FormRules.DotTailIff | frontend/src/pages/RegisterPage.tsx:42 | the tail check finds exactly a non-space run, a dot and a non-space character |
| FormRules.AtFromIff | frontend/src/pages/RegisterPage.tsx:42 | the `@` scan finds exactly the pattern from a given start |
| FormRules.UrlLike | frontend/src/pages/RegisterPage.tsx:56 | an accepted URL starts with `http://` or `https://` and is not blank |
| Text.TrimEmptyIffBlank | frontend/src/pages/RegisterPage.tsx:34 | `trim()` is empty iff the string is all white space |
| Text.Utf16Length | frontend/src/pages/RegisterPage.tsx:48 | `.length` counts code units: between the number of characters and twice it, 0 iff empty |
| Text.Utf16LengthOfBmp | frontend/src/pages/RegisterPage.tsx:48 | without characters beyond U+FFFF `.length` is the number of characters |
| Text.ThreeEmojiAreSixUnits | frontend/src/pages/LoginPage.tsx:31 | three emoji have `.length` 6, so they meet the six-character password minimum |

## Left out

- The Socket.IO transport, room fan-out and Express wiring: rooms and emits are entries of an event log.
- MongoDB: the store is a sequence of records with unique ids, and every handler is one atomic step. The read-modify-write of a click across awaits is not modelled under interleaving.
- The Mongoose schema setters (`trim`, `lowercase`) and validators, and the `pre('save')` hook: hashing is a parameter.
- JWT signing and verification, bcrypt and `validator.isEmail` are parameters; RFC 7519 is not modelled.
- React scheduling: each handler is a sequential reducer over the state it reads.
- Timers: the combo reset is a due time checked by `HomePage.Clicker.Tick`, and the auto-close of a toast is recorded as a scheduled close, not fired. Particle removal after 3000 ms and the loading timeouts are left out.
- Floats and randomness: `getBananaSize`, particle motion and the banana rain are left out.
- Locale formatting: `toLocaleDateString` is `ActivityMonitor.FormatTimestamp`'s `LocaleDate(timestamp)`.
- Presence.EqualCountsKeepStoreOrder: the order among users with equal counts is a modelling choice (store order); the query has no tie-breaker and the database guarantees no order for ties.
- `toLowerCase` lowers ASCII letters only, and string `<` compares characters, not UTF-16 code units (`.length` is counted in code units by `Text.Utf16Length`).
- Notifications.Notifier.Show: the id is `Date.now()` as a number; the code stores its string form, which identifies the same toasts.
- AuthContext.Restore: `JSON.parse` is a parameter returning a user or failing; parsing to some other JSON value is not modelled.
- AuthContext.Session.Load: the outer `catch` for a storage access that throws is not modelled; reading the storage map cannot fail.
- The forced-logout listener, the admin block, delete and unblock server handlers and the login route are not part of this model; their controllers are not in the repository.
- The user-management page's `handleSubmit` and the HTTP and socket client services are plumbing around the modelled validator and guards.
- Logging, Swagger, layouts and routing tables are presentation.

## Findings

| source | as written | input that shows it | evidently intended | confidence | as-written member | corrected member |
|---|---|---|---|---|---|---|
| backend/src/middleware/errorHandlerMiddleware.js:6-7 | `err.statusCode \|\| res.statusCode === 200 ? 500 : res.statusCode` parses as `(err.statusCode \|\| res.statusCode === 200) ? 500 : res.statusCode` | an error with `statusCode` 404 while the response status is 200 gets 500 | the error's own status code wins, else 500 for a 200 response, else the response's status | high, not executed | ErrorHandler.StatusAsWritten, ErrorHandler.OwnStatusIgnored | ErrorHandler.Status, ErrorHandler.StatusReadingsAgree |

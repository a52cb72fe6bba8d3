/** The realtime server: the registry of connected sockets per user, the rooms a
    socket joins, the ranking query, and the events each socket handler emits. */
module Presence {
  import opened Optional
  import opened UserStore
  import opened SocketAuth
  import Seqs
  import Sorting

  // ---------------------------------------------------------------------------
  // The `activeUsers` registry: user id -> ids of that user's live sockets.

  type Registry = map<UserId, set<SocketId>>

  /** No user is listed with an empty set of sockets. */
  predicate NoEmptySets(m: Registry)
  {
    forall u :: u in m ==> m[u] != {}
  }

  /** `activeUsers.get(userId)?.size || 0`. */
  function SessionCount(m: Registry, u: UserId): (n: nat)
    ensures n == 0 <==> u !in m || m[u] == {}
  {
    if u in m then |m[u]| else 0
  }

  /** Registering a socket on connection: creates the user's set if missing, then adds. */
  function AddSocket(m: Registry, u: UserId, s: SocketId): (r: Registry)
    ensures u in r && s in r[u]
    ensures u in m ==> r[u] == m[u] + {s}
    ensures u !in m ==> r[u] == {s}
    ensures forall v :: v != u ==> (v in r <==> v in m)
    ensures forall v :: v != u && v in m ==> r[v] == m[v]
  {
    m[u := (if u in m then m[u] else {}) + {s}]
  }

  /** Unregistering a socket on disconnect: the user's key goes when its set empties. */
  function RemoveSocket(m: Registry, u: UserId, s: SocketId): (r: Registry)
    requires u in m
    ensures u in r <==> m[u] - {s} != {}
    ensures u in r ==> r[u] == m[u] - {s}
    ensures forall v :: v != u ==> (v in r <==> v in m)
    ensures forall v :: v != u && v in m ==> r[v] == m[v]
  {
    var rest := m[u] - {s};
    if rest == {} then m - {u} else m[u := rest]
  }

  /** A connection that repeats a socket id changes nothing. */
  lemma AddSocketIdempotent(m: Registry, u: UserId, s: SocketId)
    ensures AddSocket(AddSocket(m, u, s), u, s) == AddSocket(m, u, s)
  {
  }

  /** Both updates keep every listed set non-empty. */
  lemma UpdatesKeepNoEmptySets(m: Registry, u: UserId, s: SocketId)
    requires NoEmptySets(m)
    ensures NoEmptySets(AddSocket(m, u, s))
    ensures u in m ==> NoEmptySets(RemoveSocket(m, u, s))
  {
  }

  /** One registry event: a user's socket connected or disconnected. */
  datatype RegistryOp = Connected(user: UserId, socket: SocketId) | Disconnected(user: UserId, socket: SocketId)

  /** The registry after a sequence of events, from an empty map; a disconnect for a
      user who is not listed changes nothing (`activeUsers.has(userId)` is false). */
  function Replay(ops: seq<RegistryOp>): (m: Registry)
    decreases |ops|
  {
    if ops == [] then map[]
    else
      var m := Replay(ops[..|ops| - 1]);
      match ops[|ops| - 1]
      case Connected(u, s) => AddSocket(m, u, s)
      case Disconnected(u, s) => if u in m then RemoveSocket(m, u, s) else m
  }

  /** The sockets of `u` that connected and have not disconnected since. */
  function Live(ops: seq<RegistryOp>, u: UserId): set<SocketId>
    decreases |ops|
  {
    if ops == [] then {}
    else
      var live := Live(ops[..|ops| - 1], u);
      var op := ops[|ops| - 1];
      if op.user != u then live
      else if op.Connected? then live + {op.socket}
      else live - {op.socket}
  }

  /** The registry is exactly the live-socket relation: a user is listed iff it has a
      live socket, listed with exactly those sockets, and no set is ever empty. */
  lemma {:induction false} ReplayIsLive(ops: seq<RegistryOp>, u: UserId)
    ensures u in Replay(ops) <==> Live(ops, u) != {}
    ensures u in Replay(ops) ==> Replay(ops)[u] == Live(ops, u)
    ensures NoEmptySets(Replay(ops))
    decreases |ops|
  {
    if ops != [] {
      var prefix := ops[..|ops| - 1];
      ReplayIsLive(prefix, u);
      var m := Replay(prefix);
      var op := ops[|ops| - 1];
      UpdatesKeepNoEmptySets(m, op.user, op.socket);
    }
  }

  /** The number of live sockets the status events report. */
  lemma SessionCountIsLive(ops: seq<RegistryOp>, u: UserId)
    ensures SessionCount(Replay(ops), u) == |Live(ops, u)|
  {
    ReplayIsLive(ops, u);
  }

  // ---------------------------------------------------------------------------
  // `getRanks`: the 100 active users with the most bananas.

  /** A ranked entry: `_id` plus the four selected fields. */
  datatype RankEntry = RankEntry(id: UserId, username: string, displayName: string, avatarUrl: string, bananaCount: int)

  function ToEntry(u: UserRecord): (e: RankEntry)
    ensures e.id == u.id && e.bananaCount == u.bananaCount && e.username == u.username
  {
    RankEntry(u.id, u.username, u.displayName, u.avatarUrl, u.bananaCount)
  }

  const RankLimit := 100

  /** `sort({ bananaCount: -1 })`: a record goes before another with fewer bananas. */
  predicate MoreBananas(a: UserRecord, b: UserRecord)
  {
    a.bananaCount > b.bananaCount
  }

  lemma MoreBananasAsymmetric()
    ensures Sorting.Asymmetric(MoreBananas)
  {
  }

  /** Active users with `c` bananas. */
  function ActiveWithCount(c: int): UserRecord -> bool
  {
    (u: UserRecord) => IsActive(u) && u.bananaCount == c
  }

  /** The model's tie rule for the query's sort: active users with equal counts
      come out of it in the store's order.  The query names no tie-breaker, so the
      database may return them in any order; store order is the model's choice. */
  lemma EqualCountsKeepStoreOrder(users: seq<UserRecord>, c: int)
    ensures Seqs.Filter(Sorting.SortBy(Seqs.Filter(users, IsActive), MoreBananas), ActiveWithCount(c))
            == Seqs.Filter(users, ActiveWithCount(c))
  {
    assert Sorting.Ties(ActiveWithCount(c), MoreBananas);
    Sorting.SortIsStable(Seqs.Filter(users, IsActive), MoreBananas, ActiveWithCount(c));
    Seqs.FilterWeakerFirst(users, IsActive, ActiveWithCount(c));
  }

  /** The sorted, limited query result, before projection. */
  function TopActive(users: seq<UserRecord>): (t: seq<UserRecord>)
    ensures |t| <= RankLimit
  {
    var sorted := Sorting.SortBy(Seqs.Filter(users, IsActive), MoreBananas);
    if |sorted| <= RankLimit then sorted else sorted[..RankLimit]
  }

  /** `getRanks()`; a failing query is logged and answered with `[]`. */
  function Ranks(users: seq<UserRecord>, queryFails: bool): (r: seq<RankEntry>)
    ensures |r| <= RankLimit
    ensures queryFails ==> r == []
  {
    if queryFails then []
    else
      var t := TopActive(users);
      seq(|t|, i requires 0 <= i < |t| => ToEntry(t[i]))
  }

  lemma {:induction false} DescendingPairwise(s: seq<UserRecord>, i: nat, j: nat)
    requires Sorting.Ordered(s, MoreBananas) && i <= j < |s|
    ensures s[i].bananaCount >= s[j].bananaCount
    decreases j - i
  {
    if i < j {
      DescendingPairwise(s, i, j - 1);
      assert !MoreBananas(s[j], s[j - 1]);
    }
  }

  /** The ranking is ordered by banana count, most first. */
  lemma RanksDescending(users: seq<UserRecord>, queryFails: bool)
    ensures var r := Ranks(users, queryFails);
            forall i, j :: 0 <= i <= j < |r| ==> r[i].bananaCount >= r[j].bananaCount
  {
    if !queryFails {
      var sorted := Sorting.SortBy(Seqs.Filter(users, IsActive), MoreBananas);
      MoreBananasAsymmetric();
      Sorting.SortOrdered(Seqs.Filter(users, IsActive), MoreBananas);
      forall i, j | 0 <= i <= j < |TopActive(users)|
        ensures TopActive(users)[i].bananaCount >= TopActive(users)[j].bananaCount
      {
        DescendingPairwise(sorted, i, j);
      }
    }
  }

  /** Every ranked entry is a stored user who is neither deleted nor blocked. */
  lemma RanksAreActiveUsers(users: seq<UserRecord>, queryFails: bool)
    ensures var r := Ranks(users, queryFails);
            forall i :: 0 <= i < |r| ==> exists u :: u in users && IsActive(u) && r[i] == ToEntry(u)
  {
    if !queryFails {
      var filtered := Seqs.Filter(users, IsActive);
      var sorted := Sorting.SortBy(filtered, MoreBananas);
      var t := TopActive(users);
      forall i | 0 <= i < |t|
        ensures t[i] in users && IsActive(t[i])
      {
        assert t[i] == sorted[i];
        assert t[i] in multiset(sorted);
        Seqs.FilterMembership(users, IsActive, t[i]);
      }
    }
  }

  /** No active user is left out in favour of one with fewer bananas: an active user
      missing from a successful ranking has at most the count of the last entry. */
  lemma RanksAreTop(users: seq<UserRecord>, u: UserRecord)
    requires u in users && IsActive(u)
    ensures var r := Ranks(users, false);
            r != [] && ToEntry(u) !in r ==> u.bananaCount <= r[|r| - 1].bananaCount
  {
    var r := Ranks(users, false);
    var filtered := Seqs.Filter(users, IsActive);
    var sorted := Sorting.SortBy(filtered, MoreBananas);
    var t := TopActive(users);
    Seqs.FilterMembership(users, IsActive, u);
    assert u in multiset(sorted);
    var k :| 0 <= k < |sorted| && sorted[k] == u;
    if k < |t| {
      assert r[k] == ToEntry(u);
    }
    if r != [] && ToEntry(u) !in r {
      MoreBananasAsymmetric();
      Sorting.SortOrdered(filtered, MoreBananas);
      DescendingPairwise(sorted, |t| - 1, k);
    }
  }

  /** An active user with no entry while the ranking has room is impossible: with fewer
      than 100 active users, every one of them is ranked. */
  lemma SmallStoresFullyRanked(users: seq<UserRecord>, u: UserRecord)
    requires u in users && IsActive(u)
    requires |Seqs.Filter(users, IsActive)| <= RankLimit
    ensures ToEntry(u) in Ranks(users, false)
  {
    var filtered := Seqs.Filter(users, IsActive);
    var sorted := Sorting.SortBy(filtered, MoreBananas);
    Seqs.FilterMembership(users, IsActive, u);
    assert u in multiset(sorted);
    var k :| 0 <= k < |sorted| && sorted[k] == u;
    assert Ranks(users, false)[k] == ToEntry(u);
  }

  // ---------------------------------------------------------------------------
  // Rooms and emitted events.

  datatype Room = UserRoom(user: UserId) | AdminRoom

  /** The rooms a connecting socket joins: its user's own room, and `admin_room` for admins. */
  function RoomsFor(u: UserRecord): (rs: set<Room>)
    ensures UserRoom(u.id) in rs
    ensures AdminRoom in rs <==> u.role == Admin
    ensures forall v :: UserRoom(v) in rs ==> v == u.id
  {
    {UserRoom(u.id)} + (if u.role == Admin then {AdminRoom} else {})
  }

  datatype Audience = ToSocket(socket: SocketId) | ToRoom(room: Room) | Everyone

  datatype Presence = Online | Offline

  datatype Payload =
    | StatusUpdate(userId: UserId, username: string, status: Presence, bananaCount: int, activeSockets: nat)
    | ScoreUpdate(userId: UserId, bananaCount: int)
    | RankUpdate(ranks: seq<RankEntry>)

  datatype Emit = Emit(audience: Audience, event: string, payload: Payload)

  const StatusEvent := "user_status_update"
  const ScoreEvent := "player_score_update"
  const RankEvent := "rank_update"

  /** The `io` server with its registry, the rooms of each socket, and the events sent so far. */
  class Server {
    var activeUsers: Registry
    var rooms: map<SocketId, set<Room>>
    var emitted: seq<Emit>
    const db: UserDb

    ghost predicate Valid()
      reads this, db
    {
      NoEmptySets(activeUsers) && db.Valid()
    }

    constructor (db: UserDb)
      requires db.Valid()
      ensures Valid()
      ensures this.db == db && activeUsers == map[] && rooms == map[] && emitted == []
    {
      this.db := db;
      activeUsers := map[];
      rooms := map[];
      emitted := [];
    }

    /** The `connection` handler.  An authenticated socket is registered, joins its rooms,
        and admins are told the user is online with the new socket count. */
    method Connect(socket: Socket)
      requires Valid()
      modifies this
      ensures Valid()
      ensures socket.user.None? ==>
                activeUsers == old(activeUsers) && rooms == old(rooms) && emitted == old(emitted)
      ensures socket.user.Some? ==>
                var u := socket.user.value;
                && activeUsers == AddSocket(old(activeUsers), u.id, socket.id)
                && rooms == old(rooms)[socket.id := (if socket.id in old(rooms) then old(rooms)[socket.id] else {}) + RoomsFor(u)]
                && emitted == old(emitted) +
                     [Emit(ToRoom(AdminRoom), StatusEvent,
                           StatusUpdate(u.id, u.username, Online, u.bananaCount, SessionCount(activeUsers, u.id)))]
      ensures socket.user.Some? ==> SessionCount(activeUsers, socket.user.value.id) >= 1
    {
      if socket.user.Some? {
        var u := socket.user.value;
        UpdatesKeepNoEmptySets(activeUsers, u.id, socket.id);
        activeUsers := AddSocket(activeUsers, u.id, socket.id);
        var joined := if socket.id in rooms then rooms[socket.id] else {};
        rooms := rooms[socket.id := joined + RoomsFor(u)];
        emitted := emitted + [Emit(ToRoom(AdminRoom), StatusEvent,
                                   StatusUpdate(u.id, u.username, Online, u.bananaCount, |activeUsers[u.id]|))];
      }
    }

    /** The `disconnect` handler.  The socket leaves the registry (and the user's key when
        it was the last one) and admins hear the remaining count, `offline` at zero.  The
        reported banana count is the one read at handshake time. */
    method Disconnect(socket: Socket)
      requires Valid()
      modifies this
      ensures Valid()
      ensures rooms == old(rooms) - {socket.id}
      ensures socket.user.None? || socket.user.value.id !in old(activeUsers) ==>
                activeUsers == old(activeUsers) && emitted == old(emitted)
      ensures socket.user.Some? && socket.user.value.id in old(activeUsers) ==>
                var u := socket.user.value;
                var remaining := old(activeUsers)[u.id] - {socket.id};
                && activeUsers == RemoveSocket(old(activeUsers), u.id, socket.id)
                && emitted == old(emitted) +
                     [Emit(ToRoom(AdminRoom), StatusEvent,
                           StatusUpdate(u.id, u.username, if remaining == {} then Offline else Online,
                                        u.bananaCount, |remaining|))]
      ensures socket.user.Some? ==> socket.id !in SetOrEmpty(activeUsers, socket.user.value.id)
    {
      if socket.user.Some? {
        var u := socket.user.value;
        if u.id in activeUsers {
          var remaining := activeUsers[u.id] - {socket.id};
          UpdatesKeepNoEmptySets(activeUsers, u.id, socket.id);
          activeUsers := RemoveSocket(activeUsers, u.id, socket.id);
          emitted := emitted + [Emit(ToRoom(AdminRoom), StatusEvent,
                                     StatusUpdate(u.id, u.username, if |remaining| == 0 then Offline else Online,
                                                  u.bananaCount, |remaining|))];
        }
      }
      // a closed socket leaves every room it joined
      rooms := rooms - {socket.id};
    }

    /** The `request_initial_ranks` handler: the current ranking, to the asking socket only. */
    method RequestInitialRanks(socket: Socket, rankQueryFails: bool)
      requires Valid()
      modifies this
      ensures Valid()
      ensures activeUsers == old(activeUsers) && rooms == old(rooms)
      ensures socket.user.None? ==> emitted == old(emitted)
      ensures socket.user.Some? ==>
                emitted == old(emitted) + [Emit(ToSocket(socket.id), RankEvent, RankUpdate(Ranks(db.users, rankQueryFails)))]
    {
      if socket.user.Some? {
        var ranks := Ranks(db.users, rankQueryFails);
        emitted := emitted + [Emit(ToSocket(socket.id), RankEvent, RankUpdate(ranks))];
      }
    }

    /** The `banana_click` handler.  The clicker's stored count goes up by one and three
        events follow: the new score to the clicking socket, a status update to admins,
        and the new ranking to everyone.  A missing user, or a failing lookup or save
        (`storeFails`), leaves the store and the events as they were. */
    method BananaClick(socket: Socket, storeFails: bool, rankQueryFails: bool)
      requires Valid()
      modifies this, db
      ensures Valid()
      ensures activeUsers == old(activeUsers) && rooms == old(rooms) && db.nextId == old(db.nextId)
      ensures socket.user.None? || storeFails || IndexOfId(old(db.users), socket.user.value.id).None? ==>
                db.users == old(db.users) && emitted == old(emitted)
      ensures socket.user.Some? && !storeFails && IndexOfId(old(db.users), socket.user.value.id).Some? ==>
                var id := socket.user.value.id;
                var k := IndexOfId(old(db.users), id).value;
                var clicked := old(db.users)[k].(bananaCount := old(db.users)[k].bananaCount + 1);
                && db.users == old(db.users)[k := clicked]
                && emitted == old(emitted) + [
                     Emit(ToSocket(socket.id), ScoreEvent, ScoreUpdate(id, clicked.bananaCount)),
                     Emit(ToRoom(AdminRoom), StatusEvent,
                          StatusUpdate(id, clicked.username, Online, clicked.bananaCount, SessionCount(activeUsers, id))),
                     Emit(Everyone, RankEvent, RankUpdate(Ranks(db.users, rankQueryFails)))]
    {
      if socket.user.None? || storeFails {
        return;
      }
      var id := socket.user.value.id;
      var found := IndexOfId(db.users, id);
      if found.None? {
        return;
      }
      var k := found.value;
      var count := db.users[k].bananaCount + 1;
      var username := db.users[k].username;
      db.SetBananaCount(k, count);
      emitted := emitted + [Emit(ToSocket(socket.id), ScoreEvent, ScoreUpdate(id, count))];
      emitted := emitted + [Emit(ToRoom(AdminRoom), StatusEvent,
                                 StatusUpdate(id, username, Online, count, SessionCount(activeUsers, id)))];
      var ranks := Ranks(db.users, rankQueryFails);
      emitted := emitted + [Emit(Everyone, RankEvent, RankUpdate(ranks))];
    }
  }

  /** The set a registry lists for `u`, empty when `u` is not listed. */
  function SetOrEmpty(m: Registry, u: UserId): set<SocketId>
  {
    if u in m then m[u] else {}
  }

  /** A click changes the clicker's stored count by exactly one and no other user's
      record: every other id still looks up the same record. */
  lemma ClickTouchesOnlyClicker(users: seq<UserRecord>, id: UserId)
    requires UniqueIds(users) && IndexOfId(users, id).Some?
    ensures var k := IndexOfId(users, id).value;
            var after := users[k := users[k].(bananaCount := users[k].bananaCount + 1)];
            && FindById(after, id).Some?
            && FindById(after, id).value.bananaCount == FindById(users, id).value.bananaCount + 1
            && forall other :: other != id ==> FindById(after, other) == FindById(users, other)
  {
    var k := IndexOfId(users, id).value;
    SetCountLookups(users, k, users[k].bananaCount + 1);
  }
}

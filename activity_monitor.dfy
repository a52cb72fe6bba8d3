/** The admin activity monitor: the table of users seen in status updates, the
    recent-activity feed, the clicks-per-minute window, and the table's sorting and
    relative timestamps.  Times are milliseconds since the epoch. */
module ActivityMonitor {
  import opened Optional
  import Seqs
  import Sorting
  import Text

  /** A row of the table. */
  datatype ActiveUser = ActiveUser(
    id: string,
    username: string,
    displayName: Option<string>,
    avatarUrl: Option<string>,
    bananaCount: int,
    lastActive: int,
    isOnline: bool)

  /** An entry of the activity feed; its React key is `userId + "-" + timestamp`. */
  datatype ClickEvent = ClickEvent(userId: string, username: string, bananaCount: int, timestamp: int)

  /** An entry of the clicks-per-minute buffer. */
  datatype CpmEvent = CpmEvent(timestamp: int, clicks: int)

  /** A `user_status_update` payload; `online` is `status === 'online'`. */
  datatype StatusData = StatusData(userId: string, username: string, online: bool, bananaCount: int)

  const RecentLimit := 50
  const CpmWindow := 60000
  const BufferWindow := 120000

  predicate UniqueIds(users: seq<ActiveUser>)
  {
    forall i, j :: 0 <= i < |users| && 0 <= j < |users| && users[i].id == users[j].id ==> i == j
  }

  /** `findIndex(u => u._id === id)`. */
  function IndexOf(users: seq<ActiveUser>, id: string): (r: Option<nat>)
    ensures r.Some? ==> r.value < |users| && users[r.value].id == id
    ensures r.Some? ==> forall k :: 0 <= k < r.value ==> users[k].id != id
    ensures r.None? <==> forall k :: 0 <= k < |users| ==> users[k].id != id
    decreases |users|
  {
    if users == [] then None
    else if users[0].id == id then Some(0)
    else match IndexOf(users[1..], id)
      case None => None
      case Some(k) => Some(k + 1)
  }

  /** The row for an id seen for the first time. */
  function FreshRow(data: StatusData, now: int): ActiveUser
  {
    ActiveUser(data.userId, data.username, Some(data.username), None, data.bananaCount, now, data.online)
  }

  /** The row for a known id after an update: the other fields stay. */
  function RefreshedRow(u: ActiveUser, data: StatusData, now: int): ActiveUser
  {
    u.(username := data.username, bananaCount := data.bananaCount, isOnline := data.online, lastActive := now)
  }

  /** The upsert of one status update into the table, before sorting. */
  function Upserted(users: seq<ActiveUser>, data: StatusData, now: int): seq<ActiveUser>
  {
    match IndexOf(users, data.userId)
    case Some(i) => users[i := RefreshedRow(users[i], data, now)]
    case None => users + [FreshRow(data, now)]
  }

  /** A known id gets its username, count, online flag and `lastActive` replaced, in place. */
  lemma UpsertRefreshesKnownRow(users: seq<ActiveUser>, data: StatusData, now: int, i: nat)
    requires UniqueIds(users) && i < |users| && users[i].id == data.userId
    ensures |Upserted(users, data, now)| == |users|
    ensures Upserted(users, data, now)[i] == RefreshedRow(users[i], data, now)
    ensures Upserted(users, data, now)[i].displayName == users[i].displayName
    ensures Upserted(users, data, now)[i].avatarUrl == users[i].avatarUrl
  {
    var r := IndexOf(users, data.userId);
    assert r.Some? && r.value == i;
  }

  /** An unseen id is appended, with its username as display name and no avatar. */
  lemma UpsertAppendsUnseenRow(users: seq<ActiveUser>, data: StatusData, now: int)
    requires forall k :: 0 <= k < |users| ==> users[k].id != data.userId
    ensures Upserted(users, data, now) == users + [FreshRow(data, now)]
    ensures FreshRow(data, now).displayName == Some(data.username) && FreshRow(data, now).avatarUrl.None?
  {
  }

  /** Rows of other ids keep their place and every field. */
  lemma UpsertLeavesOthers(users: seq<ActiveUser>, data: StatusData, now: int, k: nat)
    requires k < |users| && users[k].id != data.userId
    ensures k < |Upserted(users, data, now)| && Upserted(users, data, now)[k] == users[k]
  {
  }

  /** The upsert never creates a second row for an id. */
  lemma UpsertKeepsIdsUnique(users: seq<ActiveUser>, data: StatusData, now: int)
    requires UniqueIds(users)
    ensures UniqueIds(Upserted(users, data, now))
  {
    var r := Upserted(users, data, now);
    match IndexOf(users, data.userId)
    case Some(i) =>
      assert forall k :: 0 <= k < |r| ==> r[k].id == users[k].id;
    case None =>
      assert forall k :: 0 <= k < |users| ==> r[k].id == users[k].id;
  }

  /** `b.lastActive - a.lastActive` as a comparator: the more recent row first. */
  predicate MoreRecent(a: ActiveUser, b: ActiveUser)
  {
    a.lastActive > b.lastActive
  }

  /** Every element of `Insert(x, s)` is `x` or an element of `s`. */
  lemma InsertElements(x: ActiveUser, s: seq<ActiveUser>, before: (ActiveUser, ActiveUser) -> bool, y: ActiveUser)
    requires y in Sorting.Insert(x, s, before)
    ensures y == x || y in s
  {
    assert y in multiset(Sorting.Insert(x, s, before));
  }

  /** Inserting a row whose id is new keeps the ids unique. */
  lemma {:induction false} InsertKeepsIdsUnique(x: ActiveUser, s: seq<ActiveUser>, before: (ActiveUser, ActiveUser) -> bool)
    requires UniqueIds(s) && forall k :: 0 <= k < |s| ==> s[k].id != x.id
    ensures UniqueIds(Sorting.Insert(x, s, before))
    decreases |s|
  {
    if s != [] && before(s[0], x) {
      var tail := s[1..];
      InsertKeepsIdsUnique(x, tail, before);
      var rest := Sorting.Insert(x, tail, before);
      var r := Sorting.Insert(x, s, before);
      assert r == [s[0]] + rest;
      forall k | 0 <= k < |rest|
        ensures rest[k].id != s[0].id
      {
        InsertElements(x, tail, before, rest[k]);
        if rest[k] != x {
          var j :| 0 <= j < |tail| && tail[j] == rest[k];
          assert s[j + 1] == rest[k];
        }
      }
    }
  }

  /** Sorting the table never duplicates an id. */
  lemma {:induction false} SortKeepsIdsUnique(s: seq<ActiveUser>, before: (ActiveUser, ActiveUser) -> bool)
    requires UniqueIds(s)
    ensures UniqueIds(Sorting.SortBy(s, before))
    decreases |s|
  {
    if s != [] {
      var tail := s[1..];
      SortKeepsIdsUnique(tail, before);
      var sorted := Sorting.SortBy(tail, before);
      forall k | 0 <= k < |sorted|
        ensures sorted[k].id != s[0].id
      {
        assert sorted[k] in multiset(sorted);
        var j :| 0 <= j < |tail| && tail[j] == sorted[k];
        assert s[j + 1] == sorted[k];
      }
      InsertKeepsIdsUnique(s[0], sorted, before);
    }
  }

  /** `[newActivity, ...prev.slice(0, 49)]`. */
  function PushActivity(prev: seq<ClickEvent>, e: ClickEvent): (r: seq<ClickEvent>)
    ensures 1 <= |r| <= RecentLimit
    ensures r[0] == e
    ensures |prev| < RecentLimit ==> r == [e] + prev
    ensures r[1..] == prev[..if |prev| < RecentLimit - 1 then |prev| else RecentLimit - 1]
  {
    [e] + Seqs.JsSlice(prev, 0, RecentLimit - 1)
  }

  /** The clicks an update reveals: the rise over the row's last known count (0 for an
      unseen id), or 0 when the count did not rise. */
  function ClickDelta(users: seq<ActiveUser>, data: StatusData): (d: int)
    ensures d >= 0
    ensures d > 0 <==> data.bananaCount > (match IndexOf(users, data.userId)
                                            case Some(i) => users[i].bananaCount
                                            case None => 0)
  {
    var oldCount := match IndexOf(users, data.userId)
                    case Some(i) => users[i].bananaCount
                    case None => 0;
    if data.bananaCount > oldCount then data.bananaCount - oldCount else 0
  }

  /** The buffer entries no older than `t`. */
  function Since(t: int): CpmEvent -> bool
  {
    (e: CpmEvent) => e.timestamp >= t
  }

  function ClicksOf(e: CpmEvent): int
  {
    e.clicks
  }

  /** `activeUsers.filter(user => user.isOnline).length`. */
  function OnlineCount(users: seq<ActiveUser>): (n: nat)
    ensures n <= |users|
  {
    |Seqs.Filter(users, (u: ActiveUser) => u.isOnline)|
  }

  /** The count is the whole table exactly when everyone is online, and 0 exactly when no one is. */
  lemma OnlineCountExtremes(users: seq<ActiveUser>)
    ensures OnlineCount(users) == |users| <==> forall i :: 0 <= i < |users| ==> users[i].isOnline
    ensures OnlineCount(users) == 0 <==> forall i :: 0 <= i < |users| ==> !users[i].isOnline
  {
    Seqs.FilterKeepsAllIff(users, (u: ActiveUser) => u.isOnline);
    Seqs.FilterEmptyIff(users, (u: ActiveUser) => u.isOnline);
  }

  /** An update for a row that exists changes the online count only by that row's flag. */
  lemma OnlineCountAfterRefresh(users: seq<ActiveUser>, i: nat, u: ActiveUser)
    requires i < |users|
    ensures OnlineCount(users[i := u]) ==
            OnlineCount(users) - (if users[i].isOnline then 1 else 0) + (if u.isOnline then 1 else 0)
  {
    FilterPointUpdate(users, i, u, (v: ActiveUser) => v.isOnline);
  }

  lemma {:induction false} FilterPointUpdate(s: seq<ActiveUser>, i: nat, u: ActiveUser, p: ActiveUser -> bool)
    requires i < |s|
    ensures |Seqs.Filter(s[i := u], p)| == |Seqs.Filter(s, p)| - (if p(s[i]) then 1 else 0) + (if p(u) then 1 else 0)
    decreases |s|
  {
    if i == 0 {
      assert s[i := u][1..] == s[1..];
    } else {
      FilterPointUpdate(s[1..], i - 1, u, p);
      assert s[i := u][1..] == s[1..][i - 1 := u];
    }
  }

  // ---------------------------------------------------------------------------
  // Table sorting.

  datatype SortKey = Username | BananaCount | LastActive
  datatype Direction = Asc | Desc
  datatype SortConfig = SortConfig(key: SortKey, direction: Direction)

  /** `requestSort(key)`: descending only when the same key is currently ascending. */
  function NextSortConfig(cfg: SortConfig, key: SortKey): (r: SortConfig)
    ensures r.key == key
    ensures r.direction == Desc <==> cfg.key == key && cfg.direction == Asc
  {
    SortConfig(key, if cfg.key == key && cfg.direction == Asc then Desc else Asc)
  }

  /** Clicking the same header again always flips the direction. */
  lemma RepeatedSortAlternates(cfg: SortConfig, key: SortKey)
    ensures NextSortConfig(NextSortConfig(cfg, key), key).direction != NextSortConfig(cfg, key).direction
  {
  }

  /** `a[key] < b[key]`: strings lexicographically, numbers and dates numerically. */
  predicate KeyLess(a: ActiveUser, b: ActiveUser, key: SortKey)
  {
    match key
    case Username => Text.Less(a.username, b.username)
    case BananaCount => a.bananaCount < b.bananaCount
    case LastActive => a.lastActive < b.lastActive
  }

  /** The comparator's "strictly before": `a < b` ascending, `a > b` descending. */
  function Before(cfg: SortConfig): (ActiveUser, ActiveUser) -> bool
  {
    (a: ActiveUser, b: ActiveUser) =>
      if cfg.direction == Asc then KeyLess(a, b, cfg.key) else KeyLess(b, a, cfg.key)
  }

  lemma BeforeAsymmetric(cfg: SortConfig)
    ensures Sorting.Asymmetric(Before(cfg))
  {
    forall a: ActiveUser, b: ActiveUser
      ensures Before(cfg)(a, b) ==> !Before(cfg)(b, a)
    {
      Text.LessAsymmetric(a.username, b.username);
    }
  }

  /** `getSortedActiveUsers()`: a sorted copy; the table itself is not touched. */
  function SortedUsers(users: seq<ActiveUser>, cfg: SortConfig): (r: seq<ActiveUser>)
    ensures multiset(r) == multiset(users)
    ensures |r| == |users|
  {
    Sorting.SortBy(users, Before(cfg))
  }

  /** The sorted copy is in the requested order: no row is strictly before its predecessor. */
  lemma SortedUsersOrdered(users: seq<ActiveUser>, cfg: SortConfig)
    ensures Sorting.Ordered(SortedUsers(users, cfg), Before(cfg))
    ensures cfg.direction == Desc && cfg.key == BananaCount ==>
              forall i :: 0 < i < |users| ==>
                SortedUsers(users, cfg)[i - 1].bananaCount >= SortedUsers(users, cfg)[i].bananaCount
  {
    BeforeAsymmetric(cfg);
    Sorting.SortOrdered(users, Before(cfg));
  }

  // ---------------------------------------------------------------------------
  // Relative timestamps.

  /** What `formatTimestamp` shows: "Ns ago", "Nm ago", "Nh ago", or the locale date. */
  datatype Ago = SecondsAgo(n: int) | MinutesAgo(n: int) | HoursAgo(n: int) | LocaleDate(timestamp: int)

  /** `formatTimestamp(date)` at time `now`, with `Math.floor` divisions. */
  function FormatTimestamp(date: int, now: int): (r: Ago)
    ensures r.SecondsAgo? <==> now - date < 60000
    ensures r.SecondsAgo? ==> r.n * 1000 <= now - date < (r.n + 1) * 1000
    ensures r.MinutesAgo? <==> 60000 <= now - date < 3600000
    ensures r.MinutesAgo? ==> 1 <= r.n < 60 && r.n * 60000 <= now - date < (r.n + 1) * 60000
    ensures r.HoursAgo? <==> 3600000 <= now - date < 86400000
    ensures r.HoursAgo? ==> 1 <= r.n < 24 && r.n * 3600000 <= now - date < (r.n + 1) * 3600000
    ensures r.LocaleDate? <==> now - date >= 86400000
    ensures r.LocaleDate? ==> r.timestamp == date
  {
    var diffMs := now - date;
    // Dafny's `/` by a positive divisor is `Math.floor` of the quotient
    var diffSec := diffMs / 1000;
    var diffMin := diffSec / 60;
    var diffHour := diffMin / 60;
    if diffSec < 60 then SecondsAgo(diffSec)
    else if diffMin < 60 then MinutesAgo(diffMin)
    else if diffHour < 24 then HoursAgo(diffHour)
    else LocaleDate(date)
  }

  // ---------------------------------------------------------------------------
  // The page state.

  class Monitor {
    var activeUsers: seq<ActiveUser>
    var recentClicks: seq<ClickEvent>
    var cpmBuffer: seq<CpmEvent>
    var clicksPerMinute: int
    var sortConfig: SortConfig

    ghost predicate Valid()
      reads this
    {
      && UniqueIds(activeUsers)
      && |recentClicks| <= RecentLimit
      && (forall i :: 0 <= i < |cpmBuffer| ==> cpmBuffer[i].clicks > 0)
      && clicksPerMinute >= 0
    }

    /** The state after mounting: everything empty, sorted by `lastActive` descending. */
    constructor ()
      ensures Valid()
      ensures activeUsers == [] && recentClicks == [] && cpmBuffer == [] && clicksPerMinute == 0
      ensures sortConfig == SortConfig(LastActive, Desc)
    {
      activeUsers := [];
      recentClicks := [];
      cpmBuffer := [];
      clicksPerMinute := 0;
      sortConfig := SortConfig(LastActive, Desc);
    }

    /** `handleUserStatusUpdate(data)` at time `now`: upsert the row and re-sort by
        recency, record the revealed clicks, and put the update at the head of the feed. */
    method HandleStatusUpdate(data: StatusData, now: int)
      requires Valid()
      modifies this
      ensures Valid()
      ensures activeUsers == Sorting.SortBy(Upserted(old(activeUsers), data, now), MoreRecent)
      ensures var d := ClickDelta(old(activeUsers), data);
              cpmBuffer == if d > 0 then [CpmEvent(now, d)] + old(cpmBuffer) else old(cpmBuffer)
      ensures recentClicks == PushActivity(old(recentClicks), ClickEvent(data.userId, data.username, data.bananaCount, now))
      ensures clicksPerMinute == old(clicksPerMinute) && sortConfig == old(sortConfig)
    {
      var delta := ClickDelta(activeUsers, data);
      var updated := activeUsers;
      var i := IndexOf(updated, data.userId);
      if i.Some? {
        updated := updated[i.value := RefreshedRow(updated[i.value], data, now)];
      } else {
        updated := updated + [FreshRow(data, now)];
      }
      UpsertKeepsIdsUnique(activeUsers, data, now);
      SortKeepsIdsUnique(updated, MoreRecent);
      activeUsers := Sorting.SortBy(updated, MoreRecent);
      if delta > 0 {
        cpmBuffer := [CpmEvent(now, delta)] + cpmBuffer;
      }
      recentClicks := PushActivity(recentClicks, ClickEvent(data.userId, data.username, data.bananaCount, now));
    }

    /** `calculateCPM()` at time `now`: drop buffer entries older than two minutes and
        report the clicks of the last minute. */
    method CalculateCpm(now: int)
      requires Valid()
      modifies this
      ensures Valid()
      ensures cpmBuffer == Seqs.Filter(old(cpmBuffer), Since(now - BufferWindow))
      ensures clicksPerMinute == Seqs.SumBy(Seqs.Filter(old(cpmBuffer), Since(now - CpmWindow)), ClicksOf)
      ensures activeUsers == old(activeUsers) && recentClicks == old(recentClicks) && sortConfig == old(sortConfig)
    {
      var pruned := Seqs.Filter(cpmBuffer, Since(now - BufferWindow));
      if |pruned| < |cpmBuffer| {
        cpmBuffer := pruned;
      } else {
        Seqs.FilterKeepsAllIff(cpmBuffer, Since(now - BufferWindow));
        Seqs.FilterAll(cpmBuffer, Since(now - BufferWindow));
      }
      forall i | 0 <= i < |pruned|
        ensures pruned[i].clicks > 0
      {
        Seqs.FilterMembership(old(cpmBuffer), Since(now - BufferWindow), pruned[i]);
      }
      var lastMinute := Seqs.Filter(pruned, Since(now - CpmWindow));
      forall i | 0 <= i < |lastMinute|
        ensures ClicksOf(lastMinute[i]) >= 0
      {
        Seqs.FilterMembership(pruned, Since(now - CpmWindow), lastMinute[i]);
      }
      Seqs.FilterWeakerFirst(old(cpmBuffer), Since(now - BufferWindow), Since(now - CpmWindow));
      Seqs.SumByNonNegative(lastMinute, ClicksOf);
      clicksPerMinute := Seqs.SumBy(lastMinute, ClicksOf);
    }

    /** `requestSort(key)`. */
    method RequestSort(key: SortKey)
      requires Valid()
      modifies this
      ensures Valid()
      ensures sortConfig == NextSortConfig(old(sortConfig), key)
      ensures activeUsers == old(activeUsers) && recentClicks == old(recentClicks)
      ensures cpmBuffer == old(cpmBuffer) && clicksPerMinute == old(clicksPerMinute)
    {
      sortConfig := NextSortConfig(sortConfig, key);
    }
  }

  /** After an update the table is ordered by recency, holds the updated id exactly
      once, and still holds every other row it held. */
  lemma HandledTableShape(users: seq<ActiveUser>, data: StatusData, now: int)
    requires UniqueIds(users)
    ensures var t := Sorting.SortBy(Upserted(users, data, now), MoreRecent);
            && UniqueIds(t)
            && (forall i :: 0 < i < |t| ==> t[i - 1].lastActive >= t[i].lastActive)
            && (exists k :: 0 <= k < |t| && t[k].id == data.userId && t[k].lastActive == now
                                         && t[k].username == data.username
                                         && t[k].bananaCount == data.bananaCount && t[k].isOnline == data.online)
            && (forall u :: u in users && u.id != data.userId ==> u in t)
  {
    var up := Upserted(users, data, now);
    var t := Sorting.SortBy(up, MoreRecent);
    UpsertKeepsIdsUnique(users, data, now);
    SortKeepsIdsUnique(up, MoreRecent);
    assert Sorting.Asymmetric(MoreRecent);
    Sorting.SortOrdered(up, MoreRecent);
    var k: nat := match IndexOf(users, data.userId) case Some(i) => i case None => |users|;
    assert up[k].id == data.userId && up[k].lastActive == now;
    assert up[k] in multiset(t);
    forall u | u in users && u.id != data.userId
      ensures u in t
    {
      var j :| 0 <= j < |users| && users[j] == u;
      UpsertLeavesOthers(users, data, now, j);
      assert up[j] in multiset(t);
    }
  }
}

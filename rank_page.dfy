/** The player ranking page: numbering of the server's ranking, search, the current
    user's entry, the first twenty rows, and the rank badge and row style. */
module RankPage {
  import opened Optional
  import Seqs
  import Text

  /** One entry of a `rank_update` list, as the server selects it. */
  datatype Entry = Entry(id: string, username: string, displayName: Option<string>, avatarUrl: Option<string>, bananaCount: int)

  datatype RankUser = RankUser(entry: Entry, rank: nat)

  /** `handleRankUpdate(list)`: the server's order, numbered from 1. */
  function RankList(server: seq<Entry>): (r: seq<RankUser>)
    ensures |r| == |server|
    ensures forall i :: 0 <= i < |r| ==> r[i].entry == server[i]
  {
    seq(|server|, i requires 0 <= i < |server| => RankUser(server[i], i + 1))
  }

  /** The ranks are exactly 1..n: entry i has rank i + 1, so they strictly increase and
      each lies in 1..n. */
  lemma {:induction false} RanksAreOneToN(server: seq<Entry>)
    ensures forall i :: 0 <= i < |server| ==> RankList(server)[i].rank == i + 1
    ensures StrictlyRanked(RankList(server))
    ensures forall u :: u in RankList(server) ==> 1 <= u.rank <= |server|
  {
  }

  predicate StrictlyRanked(s: seq<RankUser>)
  {
    forall i, j :: 0 <= i < j < |s| ==> s[i].rank < s[j].rank
  }

  /** Username or a truthy display name contains the term, both lower-cased. */
  predicate Matches(u: RankUser, term: string)
  {
    var t := Text.ToLower(term);
    || Text.Contains(Text.ToLower(u.entry.username), t)
    || (u.entry.displayName.Some? && u.entry.displayName.value != ""
        && Text.Contains(Text.ToLower(u.entry.displayName.value), t))
  }

  function MatchesTerm(term: string): RankUser -> bool
  {
    (u: RankUser) => Matches(u, term)
  }

  /** `filteredUsers`: the search keeps entries with their server-given ranks. */
  function Search(list: seq<RankUser>, term: string): (r: seq<RankUser>)
    ensures |r| <= |list|
    ensures forall i :: 0 <= i < |r| ==> Matches(r[i], term)
  {
    Seqs.Filter(list, MatchesTerm(term))
  }

  lemma {:induction false} FilterKeepsRankOrder(s: seq<RankUser>, p: RankUser -> bool)
    requires StrictlyRanked(s)
    ensures StrictlyRanked(Seqs.Filter(s, p))
    decreases |s|
  {
    if s != [] {
      FilterKeepsRankOrder(s[1..], p);
      var rest := Seqs.Filter(s[1..], p);
      if p(s[0]) {
        forall k | 0 <= k < |rest|
          ensures s[0].rank < rest[k].rank
        {
          Seqs.FilterMembership(s[1..], p, rest[k]);
          var j :| 0 <= j < |s[1..]| && s[1..][j] == rest[k];
          assert s[j + 1] == rest[k];
        }
      }
    }
  }

  /** The search result is an order-preserving selection of the ranking: every match
      is kept with its rank, ranks stay increasing, and an empty term keeps all. */
  lemma SearchSpec(server: seq<Entry>, term: string)
    ensures var list := RankList(server);
            && Seqs.SubsequenceOf(Search(list, term), list)
            && (forall u :: u in Search(list, term) <==> u in list && Matches(u, term))
            && StrictlyRanked(Search(list, term))
            && (term == "" ==> Search(list, term) == list)
  {
    var list := RankList(server);
    Seqs.FilterIsSubsequence(list, MatchesTerm(term));
    forall u
      ensures u in Search(list, term) <==> u in list && Matches(u, term)
    {
      Seqs.FilterMembership(list, MatchesTerm(term), u);
    }
    FilterKeepsRankOrder(list, MatchesTerm(term));
    if term == "" {
      forall i | 0 <= i < |list|
        ensures MatchesTerm(term)(list[i])
      {
        Text.ContainsEmpty(Text.ToLower(list[i].entry.username));
      }
      Seqs.FilterAll(list, MatchesTerm(term));
    }
  }

  /** `getCurrentUserRank()`: nothing without a user, else the first entry with the user's id. */
  function CurrentUserRank(list: seq<RankUser>, userId: Option<string>): (r: Option<RankUser>)
    ensures userId.None? ==> r.None?
    ensures r.Some? ==> userId.Some? && r.value in list && r.value.entry.id == userId.value
    ensures userId.Some? && r.None? ==> forall i :: 0 <= i < |list| ==> list[i].entry.id != userId.value
    decreases |list|
  {
    if userId.None? || list == [] then None
    else if list[0].entry.id == userId.value then Some(list[0])
    else CurrentUserRank(list[1..], userId)
  }

  /** The entry found is the first one with the user's id, so its rank is the best such rank. */
  lemma {:induction false} CurrentUserRankIsFirst(list: seq<RankUser>, id: string, k: nat)
    requires k < |list| && list[k].entry.id == id && StrictlyRanked(list)
    ensures CurrentUserRank(list, Some(id)).Some?
    ensures CurrentUserRank(list, Some(id)).value.rank <= list[k].rank
    decreases |list|
  {
    if list[0].entry.id != id {
      assert k > 0;
      CurrentUserRankIsFirst(list[1..], id, k - 1);
    }
  }

  const ShownRows := 20

  /** `filteredUsers.slice(0, 20)`. */
  function ShownRowsOf(filtered: seq<RankUser>): (r: seq<RankUser>)
    ensures |r| == if |filtered| < ShownRows then |filtered| else ShownRows
    ensures r == filtered[..|r|]
  {
    Seqs.JsSlice(filtered, 0, ShownRows)
  }

  /** "Showing `min(n, 20)` of `n` players". */
  function Footer(filtered: seq<RankUser>): (shownOfTotal: (nat, nat))
    ensures shownOfTotal.0 == |ShownRowsOf(filtered)| && shownOfTotal.1 == |filtered|
  {
    (if |filtered| < ShownRows then |filtered| else ShownRows, |filtered|)
  }

  datatype Medal = Gold | Silver | Bronze
  datatype RankDisplay = Crown(medal: Medal) | Number(rank: int)

  /** `getRankDisplay(rank)`. */
  function RankBadge(rank: int): (d: RankDisplay)
    ensures d.Crown? <==> 1 <= rank <= 3
    ensures d.Number? ==> d.rank == rank
    ensures rank == 1 ==> d == Crown(Gold)
  {
    if rank == 1 then Crown(Gold)
    else if rank == 2 then Crown(Silver)
    else if rank == 3 then Crown(Bronze)
    else Number(rank)
  }

  datatype RowStyle = CurrentUserRow | MedalRow(medal: Medal) | PlainRow

  /** `getRowStyle(rank, isCurrentUser)`: the current user's highlight wins over medals. */
  function RowStyleOf(rank: int, isCurrentUser: bool): (s: RowStyle)
    ensures isCurrentUser <==> s == CurrentUserRow
    ensures !isCurrentUser ==> (s.MedalRow? <==> 1 <= rank <= 3)
    ensures s.MedalRow? ==> RankBadge(rank) == Crown(s.medal)
  {
    if isCurrentUser then CurrentUserRow
    else if rank == 1 then MedalRow(Gold)
    else if rank == 2 then MedalRow(Silver)
    else if rank == 3 then MedalRow(Bronze)
    else PlainRow
  }

  /** `user ? rankUser._id === user._id : false`. */
  predicate IsCurrentUser(u: RankUser, userId: Option<string>)
  {
    userId.Some? && u.entry.id == userId.value
  }
}

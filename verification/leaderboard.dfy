/** The leaderboard (src/pages/Leaderboard.jsx): the store query per tab, the
    normalisation and activity filter applied to its answer, the current
    user's rank, and the decorations given to the top three. */
module Leaderboard {
  import opened Js
  import opened Users

  datatype Tab = Referrals | Earnings

  /** The field a tab ranks users by. */
  function RankField(tab: Tab): Field {
    match tab
    case Referrals => TotalReferrals
    case Earnings => TotalEarned
  }

  /** The value a tab ranks by, a missing value counting as 0. */
  function Score(tab: Tab, u: User): real {
    match tab
    case Referrals => OrInt(u.total_referrals, 0) as real
    case Earnings => OrNum(u.total_earned, 0.0)
  }

  /** The sort key handed to `User.list`: descending ('-') on the very field
      the tab's score reads, so a store that honours it answers with a list
      ranked as `RankedBy` asks; the two tabs ask for different orders. */
  function SortField(tab: Tab): (f: string)
    ensures f == "-" + FieldName(RankField(tab))
    ensures forall u, v :: Get(u, RankField(tab)) == Get(v, RankField(tab)) ==> Score(tab, u) == Score(tab, v)
    ensures forall other :: other != tab ==> f != "-" + FieldName(RankField(other))
  {
    match tab
    case Referrals => "-total_referrals"
    case Earnings => "-total_earned"
  }

  /** `{ ...user, total_referrals: user.total_referrals || 0,
      total_earned: user.total_earned || 0 }`. */
  function Normalize(u: User): (v: User)
    ensures v.total_referrals == Some(OrInt(u.total_referrals, 0))
    ensures v.total_earned == Some(OrNum(u.total_earned, 0.0))
    ensures OnlyChanged(u, v, {TotalReferrals, TotalEarned})
  {
    var ws := [SetTotalReferrals(OrInt(u.total_referrals, 0)), SetTotalEarned(OrNum(u.total_earned, 0.0))];
    MergeLiteral(u, ws, {TotalReferrals, TotalEarned});
    assert Get(Merge(u, ws), TotalReferrals) == Written(ws[0]);
    assert Get(Merge(u, ws), TotalEarned) == Written(ws[1]);
    Merge(u, ws)
  }

  /** Normalising does not move a user on either tab, and twice is once. */
  lemma NormalizeKeepsScores(tab: Tab, u: User)
    ensures Score(tab, Normalize(u)) == Score(tab, u)
    ensures Normalize(Normalize(u)) == Normalize(u)
  {
    SameFieldsSameUser(Normalize(Normalize(u)), Normalize(u));
  }

  /** `user.total_referrals > 0 || user.total_earned > 0` on a normalised user. */
  predicate Active(u: User) {
    OrInt(u.total_referrals, 0) > 0 || OrNum(u.total_earned, 0.0) > 0.0
  }

  /** The `.map(...).filter(...)` applied to the store's answer. */
  function ActiveUsers(listed: seq<User>): (r: seq<User>)
    ensures |r| <= |listed|
    ensures forall j :: 0 <= j < |r| ==> Active(r[j]) && r[j].total_referrals.Some? && r[j].total_earned.Some?
    ensures forall i :: 0 <= i < |listed| && Active(listed[i]) ==> Normalize(listed[i]) in r
    ensures forall j :: 0 <= j < |r| ==> exists i :: 0 <= i < |listed| && r[j] == Normalize(listed[i])
    decreases |listed|
  {
    if listed == [] then []
    else
      var rest := ActiveUsers(listed[1..]);
      assert forall i :: 1 <= i < |listed| ==> listed[i] == listed[1..][i - 1];
      if Active(Normalize(listed[0])) then [Normalize(listed[0])] + rest else rest
  }

  /** The page's list is the store's answer filtered in place: one user maps
      to itself normalised or to nothing, and the list of two runs is the two
      lists one after the other, so the store's order is kept, ties included. */
  lemma {:induction false} ActiveUsersKeepOrder(xs: seq<User>, ys: seq<User>, u: User)
    ensures ActiveUsers([u]) == if Active(Normalize(u)) then [Normalize(u)] else []
    ensures ActiveUsers(xs + ys) == ActiveUsers(xs) + ActiveUsers(ys)
    decreases |xs|
  {
    assert [u][1..] == [];
    if xs != [] {
      assert (xs + ys)[1..] == xs[1..] + ys;
      assert (xs + ys)[0] == xs[0];
      ActiveUsersKeepOrder(xs[1..], ys, u);
    } else {
      assert xs + ys == ys;
    }
  }

  /** Ranked descending on a tab: no user scores above one ranked before them. */
  predicate RankedBy(tab: Tab, users: seq<User>) {
    forall i, j :: 0 <= i < j < |users| ==> Score(tab, users[i]) >= Score(tab, users[j])
  }

  /** Normalising and filtering never raise a score: a bound on the store's
      answer bounds the page's list. */
  lemma {:induction false} ActiveUsersBounded(tab: Tab, listed: seq<User>, bound: real)
    requires forall i :: 0 <= i < |listed| ==> Score(tab, listed[i]) <= bound
    ensures forall j :: 0 <= j < |ActiveUsers(listed)| ==> Score(tab, ActiveUsers(listed)[j]) <= bound
    decreases |listed|
  {
    if listed != [] {
      ActiveUsersBounded(tab, listed[1..], bound);
      NormalizeKeepsScores(tab, listed[0]);
    }
  }

  /** A leader no lower than everyone after it keeps a ranked list ranked. */
  lemma PrependRanked(tab: Tab, x: User, rest: seq<User>)
    requires RankedBy(tab, rest)
    requires forall j :: 0 <= j < |rest| ==> Score(tab, rest[j]) <= Score(tab, x)
    ensures RankedBy(tab, [x] + rest)
  {
    var r := [x] + rest;
    forall i, j | 0 <= i < j < |r|
      ensures Score(tab, r[i]) >= Score(tab, r[j])
    {
      assert r[j] == rest[j - 1];
      if i > 0 {
        assert r[i] == rest[i - 1];
      }
    }
  }

  /** When the store ranks its answer on the tab's field, the page's list is
      ranked the same way: normalising and filtering keep the order. */
  lemma {:induction false} ActiveUsersKeepRanking(tab: Tab, listed: seq<User>)
    requires RankedBy(tab, listed)
    ensures RankedBy(tab, ActiveUsers(listed))
    decreases |listed|
  {
    if listed != [] {
      var rest := ActiveUsers(listed[1..]);
      assert RankedBy(tab, listed[1..]) by {
        forall i, j | 0 <= i < j < |listed[1..]|
          ensures Score(tab, listed[1..][i]) >= Score(tab, listed[1..][j])
        {
          assert listed[1..][i] == listed[i + 1] && listed[1..][j] == listed[j + 1];
        }
      }
      ActiveUsersKeepRanking(tab, listed[1..]);
      assert forall i :: 0 <= i < |listed[1..]| ==> Score(tab, listed[1..][i]) <= Score(tab, listed[0]) by {
        forall i | 0 <= i < |listed[1..]|
          ensures Score(tab, listed[1..][i]) <= Score(tab, listed[0])
        {
          assert listed[1..][i] == listed[i + 1];
        }
      }
      ActiveUsersBounded(tab, listed[1..], Score(tab, listed[0]));
      NormalizeKeepsScores(tab, listed[0]);
      if Active(Normalize(listed[0])) {
        assert ActiveUsers(listed) == [Normalize(listed[0])] + rest;
        PrependRanked(tab, Normalize(listed[0]), rest);
      } else {
        assert ActiveUsers(listed) == rest;
      }
    }
  }

  /** Where `findIndex` finds the current user's email, by its own reference
      definition. */
  function IndexOfEmail(users: seq<User>, email: string): (r: Option<nat>)
    ensures r.Some? ==> r.value < |users| && users[r.value].email == email
    ensures r.None? ==> forall j :: 0 <= j < |users| ==> users[j].email != email
    decreases |users|
  {
    if users == [] then None
    else if users[0].email == email then Some(0)
    else
      var rest := IndexOfEmail(users[1..], email);
      if rest.None? then None else Some(rest.value + 1)
  }

  /** A position found in a suffix starting at k, as a position in the whole. */
  function Shift(found: Option<nat>, k: nat): Option<nat> {
    if found.None? then None else Some(found.value + k)
  }

  /** `getCurrentUserRank()`: the 1-based position of the first entry with the
      current user's email, or null (None) when there is no current user or
      they are not on the list. */
  method CurrentUserRank(users: seq<User>, currentUser: Option<User>) returns (rank: Option<nat>)
    ensures currentUser.None? ==> rank.None?
    ensures currentUser.Some? ==>
      rank == (var k := IndexOfEmail(users, currentUser.value.email); if k.None? then None else Some(k.value + 1))
    ensures rank.Some? ==>
      && 1 <= rank.value <= |users|
      && users[rank.value - 1].email == currentUser.value.email
      && forall j :: 0 <= j < rank.value - 1 ==> users[j].email != currentUser.value.email
  {
    if currentUser.None? {
      return None;
    }
    var email := currentUser.value.email;
    var i := 0;
    while i < |users|
      invariant 0 <= i <= |users|
      invariant forall j :: 0 <= j < i ==> users[j].email != email
      invariant IndexOfEmail(users, email) == Shift(IndexOfEmail(users[i..], email), i)
    {
      assert users[i..][0] == users[i];
      if users[i].email == email {
        return Some(i + 1);
      }
      assert users[i..][1..] == users[i + 1..];
      assert IndexOfEmail(users[i..], email) == Shift(IndexOfEmail(users[i + 1..], email), 1);
      i := i + 1;
    }
    return None;
  }

  datatype RankIcon = Crown | Trophy | Medal | Award

  /** `getRankIcon(rank)`. */
  function GetRankIcon(rank: int): RankIcon {
    if rank == 1 then Crown else if rank == 2 then Trophy else if rank == 3 then Medal else Award
  }

  const GOLD_ROW: string := "bg-gradient-to-r from-yellow-500/20 to-orange-500/20 border-yellow-500/50"
  const SILVER_ROW: string := "bg-gradient-to-r from-gray-400/20 to-gray-500/20 border-gray-400/50"
  const BRONZE_ROW: string := "bg-gradient-to-r from-orange-500/20 to-red-500/20 border-orange-500/50"
  const PLAIN_ROW: string := "bg-white/5 border-white/10"

  /** `getRankBg(rank)`. */
  function GetRankBg(rank: int): string {
    if rank == 1 then GOLD_ROW
    else if rank == 2 then SILVER_ROW
    else if rank == 3 then BRONZE_ROW
    else PLAIN_ROW
  }

  /** Icon and background agree: both single out exactly ranks 1 to 3, and
      give each of them a look of its own. */
  lemma DecorationsMarkTopThree(rank: int, other: int)
    ensures GetRankIcon(rank) == Award <==> !(1 <= rank <= 3)
    ensures GetRankBg(rank) == PLAIN_ROW <==> !(1 <= rank <= 3)
    ensures 1 <= rank <= 3 && 1 <= other <= 3 ==>
      (GetRankIcon(rank) == GetRankIcon(other) <==> rank == other)
      && (GetRankBg(rank) == GetRankBg(other) <==> rank == other)
  {
    assert |GOLD_ROW| == 73 && |SILVER_ROW| == 67 && |BRONZE_ROW| == 70 && |PLAIN_ROW| == 26;
  }

  /** The podium, drawn second, first, third from left to right, appears
      only with at least three ranked users. */
  function Podium(users: seq<User>): (p: Option<seq<User>>)
    ensures p.Some? <==> |users| >= 3
    ensures p.Some? ==> |p.value| == 3 && multiset(p.value) == multiset(users[..3])
    ensures p.Some? ==> p.value[0] == users[1] && p.value[1] == users[0] && p.value[2] == users[2]
  {
    if |users| >= 3 then
      assert users[..3] == [users[0], users[1], users[2]];
      Some([users[1], users[0], users[2]])
    else None
  }

  /** On a ranked list the podium's middle step holds the top score. */
  lemma PodiumCentreLeads(tab: Tab, users: seq<User>)
    requires RankedBy(tab, users) && |users| >= 3
    ensures var p := Podium(users).value;
      Score(tab, p[1]) >= Score(tab, p[0]) && Score(tab, p[1]) >= Score(tab, p[2])
  {
  }
}

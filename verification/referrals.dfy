/** The referral page (src/pages/Referrals.jsx): the shareable referral link
    and the texts offered for sharing it. The page's user may be absent when
    loading failed, hence the optional user throughout. */
module Referrals {
  import opened Js
  import opened Users
  import Dashboard

  const REF_QUERY: string := "?ref="

  /** The opening of both share texts. */
  const SHARE_INTRO: string :=
    "\U{1F389} Join me on Bonkers - the hottest Web3 airdrop platform! Get free BONK tokens daily and earn more through referrals! \U{1F680}\n\nUse my code: "

  /** `user?.referral_code`. */
  function CodeOf(user: Option<User>): Option<string> {
    if user.None? then None else user.value.referral_code
  }

  /** `getReferralLink()`: empty without a truthy code, else the page origin
      with the code as the `ref` query parameter. */
  function GetReferralLink(user: Option<User>, origin: string): (link: string)
    ensures !Truthy(CodeOf(user)) <==> link == ""
    ensures Truthy(CodeOf(user)) ==>
      && |link| == |origin| + |REF_QUERY| + |CodeOf(user).value|
      && link[..|origin|] == origin
      && link[|origin|..|origin| + |REF_QUERY|] == REF_QUERY
      && link[|origin| + |REF_QUERY|..] == CodeOf(user).value
  {
    var code := CodeOf(user);
    if !Truthy(code) then "" else origin + REF_QUERY + code.value
  }

  /** Reading the code back from a link: what follows the origin and "?ref=". */
  function CodeFromLink(link: string, origin: string): Option<string> {
    if |link| >= |origin| + |REF_QUERY| && link[..|origin|] == origin && link[|origin|..|origin| + |REF_QUERY|] == REF_QUERY
    then Some(link[|origin| + |REF_QUERY|..])
    else None
  }

  /** Round trip: a non-empty link gives back exactly the user's code, so two
      users' links on one origin differ exactly when their codes do. */
  lemma ReferralLinkRoundTrip(user: Option<User>, other: Option<User>, origin: string)
    requires Truthy(CodeOf(user)) && Truthy(CodeOf(other))
    ensures CodeFromLink(GetReferralLink(user, origin), origin) == CodeOf(user)
    ensures GetReferralLink(user, origin) == GetReferralLink(other, origin) <==> CodeOf(user) == CodeOf(other)
  {
    var a, b := GetReferralLink(user, origin), GetReferralLink(other, origin);
    if a == b {
      assert CodeOf(user).value == a[|origin| + |REF_QUERY|..] == CodeOf(other).value;
    }
  }

  /** Once the dashboard has loaded a user, the referral link is non-empty,
      both for the dashboard's copy and for the stored record, which is the
      one the referrals page reads back. */
  lemma DashboardUserHasLink(u: User, suffix: nat, origin: string)
    requires suffix < Dashboard.SUFFIX_BOUND
    requires Dashboard.LoadUserData(u, suffix).Ok?
    ensures GetReferralLink(Some(Dashboard.LoadUserData(u, suffix).value.shown), origin) != ""
    ensures GetReferralLink(Some(Dashboard.LoadUserData(u, suffix).value.stored), origin) != ""
  {
  }

  /** `${user?.referral_code}`: a missing code prints as "undefined". */
  function CodeText(user: Option<User>): string {
    var code := CodeOf(user);
    if code.Some? then code.value else "undefined"
  }

  /** The text of `shareOnTwitter()`; the link travels as a separate parameter. */
  function TwitterText(user: Option<User>): string {
    SHARE_INTRO + CodeText(user) + "\n\n"
  }

  /** The text of `shareOnTelegram()`: the link is appended to the text. */
  function TelegramText(user: Option<User>, origin: string): string {
    SHARE_INTRO + CodeText(user) + "\n\n" + GetReferralLink(user, origin)
  }

  /** The code can be read back out of either share text: it stands right
      after the intro, followed by the blank line. A missing code reads as
      "undefined", and two users with codes get the same text exactly when
      their codes agree. */
  lemma CodeReadBackFromShareText(user: Option<User>, other: Option<User>, origin: string)
    ensures var t, n := TwitterText(user), |SHARE_INTRO|;
      && |t| == n + |CodeText(user)| + 2
      && t[n..n + |CodeText(user)|] == CodeText(user)
      && t[n + |CodeText(user)|..] == "\n\n"
    ensures var t, n := TelegramText(user, origin), |SHARE_INTRO|;
      |t| >= n + |CodeText(user)| && t[n..n + |CodeText(user)|] == CodeText(user)
    ensures CodeOf(user).Some? ==> CodeText(user) == CodeOf(user).value
    ensures CodeOf(user).None? ==> CodeText(user) == "undefined"
    ensures CodeOf(user).Some? && CodeOf(other).Some? ==>
      (TwitterText(user) == TwitterText(other) <==> CodeOf(user) == CodeOf(other))
  {
    var n := |SHARE_INTRO|;
    var t := TwitterText(user);
    var code := CodeText(user);
    Middle(SHARE_INTRO, code, "\n\n");
    assert TelegramText(user, origin) == t + GetReferralLink(user, origin);
    assert TelegramText(user, origin)[n..n + |code|] == t[n..n + |code|];
    if CodeOf(user).Some? && CodeOf(other).Some? && t == TwitterText(other) {
      Middle(SHARE_INTRO, CodeText(other), "\n\n");
      assert |code| == |CodeText(other)|;
    }
  }

  /** In `a + b + c`, `b` stands right after `a` and `c` right after `b`. */
  lemma Middle(a: string, b: string, c: string)
    ensures |a + b + c| == |a| + |b| + |c|
    ensures (a + b + c)[|a|..|a| + |b|] == b
    ensures (a + b + c)[|a| + |b|..] == c
  {
    assert (a + b + c)[|a|..|a| + |b|] == (a + b)[|a|..];
  }

  /** The two share texts agree up to the link: the Telegram text is the
      Twitter text followed by the link, so it starts with the intro and the
      code, and without a code it reads "undefined" and carries no link. */
  lemma ShareTextsAgree(user: Option<User>, origin: string)
    ensures TelegramText(user, origin) == TwitterText(user) + GetReferralLink(user, origin)
    ensures TwitterText(user)[..|SHARE_INTRO|] == SHARE_INTRO
    ensures CodeOf(user).None? ==> TelegramText(user, origin) == SHARE_INTRO + "undefined\n\n"
  {
    assert TwitterText(user) == SHARE_INTRO + (CodeText(user) + "\n\n");
  }
}

/** The daily-claim button (src/components/dashboard/ClaimButton.jsx):
    eligibility after a 24-hour cooldown, the time-left display, and the
    claim itself, which pays 100 BONK plus 10 per referral. */
module Claim {
  import opened Js
  import opened Users
  import opened Clock

  const DAILY_BONUS: int := 100
  const BONUS_PER_REFERRAL: int := 10

  /** `canClaim()`: no stored claim date, or at least 24 hours since it,
      measured as a fractional number of hours. */
  predicate CanClaim(u: User, now: int) {
    if u.last_claim_date.None? then true
    else
      var hoursSinceClaim := (now - u.last_claim_date.value) as real / HOUR_MS as real;
      hoursSinceClaim >= 24.0
  }

  /** The hour-based test is exactly a millisecond cooldown of one cycle. */
  lemma CanClaimIffCycleElapsed(u: User, now: int)
    ensures u.last_claim_date.None? ==> CanClaim(u, now)
    ensures u.last_claim_date.Some? ==>
      (CanClaim(u, now) <==> now - u.last_claim_date.value >= DAY_MS)
  {
  }

  /** 23h59m59s after the stored date is too early; 24h00m00s is not. */
  lemma CooldownBoundary(u: User, last: int)
    requires u.last_claim_date == Some(last)
    ensures !CanClaim(u, last + 23 * HOUR_MS + 59 * MINUTE_MS + 59 * SECOND_MS)
    ensures CanClaim(u, last + 24 * HOUR_MS)
  {
  }

  /** The "Next claim in {h}h {m}m" label's numbers. */
  datatype Wait = Wait(hours: int, minutes: int)

  /** `getTimeUntilNextClaim()`: null when no date is stored or the cycle is
      over, otherwise whole hours and leftover whole minutes of the wait. */
  function TimeUntilNextClaim(u: User, now: int): (r: Option<Wait>)
    ensures u.last_claim_date.None? ==> r.None?
    ensures r.Some? ==> now < u.last_claim_date.value + DAY_MS
    ensures r.Some? ==>
      var left := u.last_claim_date.value + DAY_MS - now;
      && 0 <= r.value.minutes < 60
      && 0 <= r.value.hours
      && r.value.hours * HOUR_MS + r.value.minutes * MINUTE_MS <= left
      && left < r.value.hours * HOUR_MS + (r.value.minutes + 1) * MINUTE_MS
    ensures r.Some? && now >= u.last_claim_date.value ==> r.value.hours <= 24
    ensures r.Some? && now > u.last_claim_date.value ==> r.value.hours <= 23
  {
    if u.last_claim_date.None? then None
    else
      var nextClaim := u.last_claim_date.value + DAY_MS;
      var timeLeft := nextClaim - now;
      if timeLeft <= 0 then None
      else Some(Wait(timeLeft / HOUR_MS, (timeLeft % HOUR_MS) / MINUTE_MS))
  }

  /** At the very instant of the stored date the label reads "24h 0m". */
  lemma FullCycleLabel(u: User, last: int)
    requires u.last_claim_date == Some(last)
    ensures TimeUntilNextClaim(u, last) == Some(Wait(24, 0))
  {
  }

  /** The button shows a countdown exactly when it refuses to claim. */
  lemma CountdownIffCannotClaim(u: User, now: int)
    ensures TimeUntilNextClaim(u, now).Some? <==> !CanClaim(u, now)
  {
  }

  /** `dailyBonus + referralBonus`: 100 plus 10 per referral. */
  function DailyReward(u: User): (r: int)
    ensures r == DAILY_BONUS + BONUS_PER_REFERRAL * (if u.total_referrals.Some? then u.total_referrals.value else 0)
  {
    DAILY_BONUS + OrInt(u.total_referrals, 0) * BONUS_PER_REFERRAL
  }

  /** 0 referrals (or none recorded) pay 100; 3 referrals pay 130. */
  lemma DailyRewardExamples(u: User)
    ensures u.total_referrals.None? ==> DailyReward(u) == 100
    ensures u.total_referrals == Some(0) ==> DailyReward(u) == 100
    ensures u.total_referrals == Some(3) ==> DailyReward(u) == 130
  {
  }

  /** The partial object `handleClaim` sends to the store. */
  function ClaimWrites(u: User, now: int): seq<Write> {
    [ SetAirdropBalance(OrNum(u.airdrop_balance, 0.0) + DailyReward(u) as real),
      SetLastClaimDate(DayStart(now)) ]
  }

  /** `handleClaim()` applied to the user the button is given, which on the
      dashboard is the page's copy: nothing happens while a claim is in flight
      or the user is not eligible; otherwise the reward is added to the
      balance (absent counting as 0) and the claim date becomes the calendar
      day of now. What the store holds afterwards is `ClaimOnStore`. */
  function HandleClaim(u: User, now: int, claiming: bool): (r: User)
    ensures !CanClaim(u, now) || claiming ==> r == u
    ensures CanClaim(u, now) && !claiming ==>
      && r.airdrop_balance == Some((if u.airdrop_balance.Some? then u.airdrop_balance.value else 0.0) + DailyReward(u) as real)
      && r.last_claim_date == Some(DayStart(now))
      && OnlyChanged(u, r, {AirdropBalance, LastClaimDate})
  {
    if !CanClaim(u, now) || claiming then u
    else
      var ws := ClaimWrites(u, now);
      assert Get(Merge(u, ws), AirdropBalance) == Written(ws[0]);
      assert Get(Merge(u, ws), LastClaimDate) == Written(ws[1]);
      MergeOnlyChanges(u, ws);
      Merge(u, ws)
  }

  /** What the store holds after a claim made from the page's copy `shown` of
      the stored record: `updateMyUserData` merges the claim's writes, which
      are computed from the page's copy, into the stored record. When the
      copy is the stored record itself this is `HandleClaim`. */
  function ClaimOnStore(stored: User, shown: User, now: int, claiming: bool): (r: User)
    ensures !CanClaim(shown, now) || claiming ==> r == stored
    ensures CanClaim(shown, now) && !claiming ==>
      && r.airdrop_balance == HandleClaim(shown, now, false).airdrop_balance
      && r.last_claim_date == Some(DayStart(now))
      && OnlyChanged(stored, r, {AirdropBalance, LastClaimDate})
    ensures stored == shown ==> r == HandleClaim(shown, now, claiming)
  {
    if !CanClaim(shown, now) || claiming then stored
    else
      var ws := ClaimWrites(shown, now);
      assert Get(Merge(stored, ws), AirdropBalance) == Written(ws[0]);
      assert Get(Merge(stored, ws), LastClaimDate) == Written(ws[1]);
      MergeOnlyChanges(stored, ws);
      Merge(stored, ws)
  }

  /** Because the stored date is day-truncated, a claim at instant t blocks
      further claims until the next UTC midnight and no longer: that is at
      most 24 hours, and the wait shown right after the claim is positive. */
  lemma NextClaimAtNextMidnight(u: User, t: int)
    requires CanClaim(u, t)
    ensures var v := HandleClaim(u, t, false);
      && !CanClaim(v, t)
      && TimeUntilNextClaim(v, t).Some?
      && CanClaim(v, DayStart(t) + DAY_MS)
      && (forall t' :: t' < DayStart(t) + DAY_MS ==> !CanClaim(v, t'))
      && 0 < DayStart(t) + DAY_MS - t <= DAY_MS
  {
    var v := HandleClaim(u, t, false);
    assert v.last_claim_date == Some(DayStart(t));
    CanClaimIffCycleElapsed(v, t);
    CanClaimIffCycleElapsed(v, DayStart(t) + DAY_MS);
    forall t' | t' < DayStart(t) + DAY_MS
      ensures !CanClaim(v, t')
    {
      CanClaimIffCycleElapsed(v, t');
    }
    CountdownIffCannotClaim(v, t);
  }

  /** The ledger grows by exactly the reward on a successful claim. */
  lemma ClaimCreditsReward(u: User, now: int)
    requires CanClaim(u, now)
    requires u.airdrop_balance.Some?
    ensures HandleClaim(u, now, false).airdrop_balance.value - u.airdrop_balance.value == DailyReward(u) as real
    ensures DailyReward(u) >= DAILY_BONUS || (u.total_referrals.Some? && u.total_referrals.value < 0)
  {
  }

  /** As written, two claims one second apart both pay out: a claim at
      23:59:59 UTC stores that day's midnight, so the cooldown is already over
      at 00:00:00. */
  lemma ClaimsOneSecondApart(u: User)
    requires u.last_claim_date.None?
    ensures var t := DAY_MS - SECOND_MS;
      && CanClaim(u, t)
      && CanClaim(HandleClaim(u, t, false), t + SECOND_MS)
  {
    var t := DAY_MS - SECOND_MS;
    var v := HandleClaim(u, t, false);
    assert v.last_claim_date == Some(DayStart(t));
    assert DayStart(t) == 0;
    CanClaimIffCycleElapsed(v, t + SECOND_MS);
  }

  /** The claim with the full instant stored instead of its calendar day, which
      is what the 24-hour test of `canClaim` evidently expects. */
  function HandleClaimExact(u: User, now: int, claiming: bool): (r: User)
    ensures !CanClaim(u, now) || claiming ==> r == u
    ensures CanClaim(u, now) && !claiming ==>
      && r.airdrop_balance == Some((if u.airdrop_balance.Some? then u.airdrop_balance.value else 0.0) + DailyReward(u) as real)
      && r.last_claim_date == Some(now)
      && OnlyChanged(u, r, {AirdropBalance, LastClaimDate})
  {
    if !CanClaim(u, now) || claiming then u
    else
      var ws := [SetAirdropBalance(OrNum(u.airdrop_balance, 0.0) + DailyReward(u) as real), SetLastClaimDate(now)];
      assert Get(Merge(u, ws), AirdropBalance) == Written(ws[0]);
      assert Get(Merge(u, ws), LastClaimDate) == Written(ws[1]);
      MergeOnlyChanges(u, ws);
      Merge(u, ws)
  }

  /** With the instant stored, the next claim opens exactly one full cycle
      after the previous one and not a millisecond earlier. */
  lemma ExactClaimWaitsFullCycle(u: User, t: int)
    requires CanClaim(u, t)
    ensures var v := HandleClaimExact(u, t, false);
      && (forall t' :: t' < t + DAY_MS ==> !CanClaim(v, t'))
      && CanClaim(v, t + DAY_MS)
  {
    var v := HandleClaimExact(u, t, false);
    forall t' | t' < t + DAY_MS
      ensures !CanClaim(v, t')
    {
      CanClaimIffCycleElapsed(v, t');
    }
    CanClaimIffCycleElapsed(v, t + DAY_MS);
  }
}

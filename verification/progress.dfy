/** The charging bar above the claim button
    (src/components/dashboard/ProgressBar.jsx): how much of the 24-hour cycle
    has passed, the h:m:s countdown, and the "ready" flag it derives. */
module Progress {
  import opened Js
  import opened Users
  import opened Clock
  import Claim

  datatype Countdown = Countdown(hours: int, minutes: int, seconds: int)

  /** The two pieces of component state `updateProgress` sets. */
  datatype View = View(progress: real, timeLeft: Option<Countdown>)

  function Min(a: real, b: real): real {
    if a <= b then a else b
  }

  /** `updateProgress()` at instant now. */
  function UpdateProgress(u: User, now: int): (v: View)
    ensures u.last_claim_date.None? ==> v == View(100.0, None)
    ensures v.progress <= 100.0
    ensures v.timeLeft.None? <==> v.progress == 100.0 || u.last_claim_date.None?
    ensures u.last_claim_date.Some? ==>
      var remaining := u.last_claim_date.value + DAY_MS - now;
      && (remaining <= 0 ==> v == View(100.0, None))
      && (remaining > 0 ==> v.progress < 100.0 && v.timeLeft.Some?)
  {
    if u.last_claim_date.None? then View(100.0, None)
    else
      var lastClaim := u.last_claim_date.value;
      var nextClaim := lastClaim + DAY_MS;
      var totalTime := DAY_MS;
      var timeElapsed := now - lastClaim;
      var timeRemaining := nextClaim - now;
      if timeRemaining <= 0 then View(100.0, None)
      else
        var progressPercent := (timeElapsed as real / totalTime as real) * 100.0;
        var hours := timeRemaining / HOUR_MS;
        var minutes := (timeRemaining % HOUR_MS) / MINUTE_MS;
        var seconds := (timeRemaining % MINUTE_MS) / SECOND_MS;
        View(Min(progressPercent, 100.0), Some(Countdown(hours, minutes, seconds)))
  }

  /** While waiting, the bar shows the elapsed share of the cycle. */
  lemma ProgressIsElapsedShare(u: User, now: int)
    requires u.last_claim_date.Some?
    requires now < u.last_claim_date.value + DAY_MS
    ensures UpdateProgress(u, now).progress * DAY_MS as real == (now - u.last_claim_date.value) as real * 100.0
  {
  }

  /** The countdown splits the remaining milliseconds into whole hours,
      minutes below 60 and seconds below 60, dropping under a second. */
  lemma CountdownDecomposesRemaining(u: User, now: int)
    requires UpdateProgress(u, now).timeLeft.Some?
    ensures var c := UpdateProgress(u, now).timeLeft.value;
      var remaining := u.last_claim_date.value + DAY_MS - now;
      && 0 <= c.minutes < 60 && 0 <= c.seconds < 60 && 0 <= c.hours
      && c.hours * HOUR_MS + c.minutes * MINUTE_MS + c.seconds * SECOND_MS <= remaining
      && remaining < c.hours * HOUR_MS + c.minutes * MINUTE_MS + c.seconds * SECOND_MS + SECOND_MS
  {
    var remaining := u.last_claim_date.value + DAY_MS - now;
    SplitMilliseconds(remaining);
  }

  /** Whole hours, minutes and seconds of a positive span of milliseconds. */
  lemma SplitMilliseconds(ms: int)
    requires ms > 0
    ensures var h, m, s := ms / HOUR_MS, (ms % HOUR_MS) / MINUTE_MS, (ms % MINUTE_MS) / SECOND_MS;
      && 0 <= m < 60 && 0 <= s < 60 && 0 <= h
      && h * HOUR_MS + m * MINUTE_MS + s * SECOND_MS <= ms < h * HOUR_MS + m * MINUTE_MS + s * SECOND_MS + SECOND_MS
  {
    assert HOUR_MS == 3600000 && MINUTE_MS == 60000 && SECOND_MS == 1000;
    var h, rh := ms / 3600000, ms % 3600000;
    var m, rm := rh / 60000, rh % 60000;
    assert ms == (h * 60 + m) * 60000 + rm;
    MinuteRemainder(h * 60 + m, rm);
  }

  /** Whole minutes leave no trace in the remainder modulo a minute. */
  lemma MinuteRemainder(q: int, r: int)
    requires 0 <= r < 60000
    ensures (q * 60000 + r) % 60000 == r
  {
  }

  /** `const canClaim = progress >= 100`. */
  predicate Ready(v: View) {
    v.progress >= 100.0
  }

  /** The bar's "Ready to claim!" agrees with the claim button's eligibility. */
  lemma ReadyAgreesWithClaimButton(u: User, now: int)
    ensures Ready(UpdateProgress(u, now)) <==> Claim.CanClaim(u, now)
  {
    Claim.CanClaimIffCycleElapsed(u, now);
  }

  /** The bar's countdown and the button's label show the same hours and
      minutes of the same wait. */
  lemma CountdownAgreesWithButton(u: User, now: int)
    ensures UpdateProgress(u, now).timeLeft.Some? <==> Claim.TimeUntilNextClaim(u, now).Some?
    ensures UpdateProgress(u, now).timeLeft.Some? ==>
      && UpdateProgress(u, now).timeLeft.value.hours == Claim.TimeUntilNextClaim(u, now).value.hours
      && UpdateProgress(u, now).timeLeft.value.minutes == Claim.TimeUntilNextClaim(u, now).value.minutes
  {
  }
}

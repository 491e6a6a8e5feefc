/** First-visit initialisation of a user on the dashboard
    (src/pages/Dashboard.jsx): defaulted economy fields, the referral code
    generated once, and when the defaults are written back to the store. */
module Dashboard {
  import opened Js
  import opened Strings
  import opened Users
  import Claim

  const STARTING_BALANCE: real := 100.0
  const CODE_PREFIX_LENGTH: nat := 6
  /** The random suffix is `Math.floor(Math.random() * 1000)`. */
  const SUFFIX_BOUND: nat := 1000

  /** The name part of a referral code: whitespace removed, at most six
      characters, upper-cased. */
  function CodePrefix(name: string): (p: string)
    ensures |p| <= CODE_PREFIX_LENGTH
    ensures |p| == if |StripSpaces(name)| < CODE_PREFIX_LENGTH then |StripSpaces(name)| else CODE_PREFIX_LENGTH
    ensures forall i :: 0 <= i < |p| ==> p[i] == UpperChar(StripSpaces(name)[i])
    ensures NoSpaces(p)
    ensures forall i :: 0 <= i < |p| ==> !IsLowerAscii(p[i])
  {
    Upper(Take(StripSpaces(name), CODE_PREFIX_LENGTH))
  }

  /** `generateReferralCode(name)` with the random number passed in. */
  function GenerateReferralCode(name: string, suffix: nat): (code: string)
    requires suffix < SUFFIX_BOUND
    ensures |CodePrefix(name)| < |code| <= CODE_PREFIX_LENGTH + 3
    ensures code[..|CodePrefix(name)|] == CodePrefix(name)
    ensures AllDigits(code[|CodePrefix(name)|..])
    ensures ParseDecimal(code[|CodePrefix(name)|..]) == suffix
    ensures code[|CodePrefix(name)|] == '0' ==> |code| == |CodePrefix(name)| + 1
  {
    var cleanName := CodePrefix(name);
    var digits := NatToDecimal(suffix);
    DecimalRoundTrip(suffix);
    SuffixDigits(suffix);
    assert (cleanName + digits)[|cleanName|..] == digits;
    cleanName + digits
  }

  lemma SuffixDigits(n: nat)
    requires n < SUFFIX_BOUND
    ensures |NatToDecimal(n)| <= 3
  {
    if n >= 10 {
      assert NatToDecimal(n) == NatToDecimal(n / 10) + [DigitChar(n % 10)];
      if n / 10 >= 10 {
        assert NatToDecimal(n / 10) == NatToDecimal(n / 100) + [DigitChar((n / 10) % 10)];
      }
    }
  }

  /** A code never comes out empty, so a generated code is always truthy. */
  lemma GeneratedCodeIsTruthy(name: string, suffix: nat)
    requires suffix < SUFFIX_BOUND
    ensures Truthy(Some(GenerateReferralCode(name, suffix)))
  {
  }

  /** Names that differ only in whitespace give the same code. */
  lemma CodeIgnoresSpacing(name: string, suffix: nat)
    requires suffix < SUFFIX_BOUND
    ensures GenerateReferralCode(StripSpaces(name), suffix) == GenerateReferralCode(name, suffix)
  {
  }

  /** Why `loadUserData` cannot finish: the name is missing when a code has
      to be generated (`name.replace` throws and the page keeps no user). */
  datatype LoadError = MissingName

  /** The referral code `loadUserData` settles on: the stored one when truthy,
      else one generated from the name. */
  function DefaultCode(u: User, suffix: nat): (r: Result<string, LoadError>)
    requires suffix < SUFFIX_BOUND
    ensures r.Err? <==> !Truthy(u.referral_code) && u.full_name.None?
    ensures r.Ok? ==> r.value != []
    ensures Truthy(u.referral_code) ==> r == Ok(u.referral_code.value)
  {
    if Truthy(u.referral_code) then Ok(u.referral_code.value)
    else if u.full_name.None? then Err(MissingName)
    else Ok(GenerateReferralCode(u.full_name.value, suffix))
  }

  /** The airdrop balance `loadUserData` shows: `airdrop_balance || 100`, so a
      stored 0 shows as 100 too. */
  function ShownBalance(u: User): real {
    OrNum(u.airdrop_balance, STARTING_BALANCE)
  }

  /** The `userData` object `loadUserData` builds around a settled code and
      the balance it shows. */
  function DefaultWrites(u: User, balance: real, code: string): seq<Write> {
    [ SetAirdropBalance(balance),
      SetTotalReferrals(OrInt(u.total_referrals, 0)),
      SetTotalEarned(OrNum(u.total_earned, 0.0)),
      SetReferralCode(code),
      SetUsdtBalance(OrNum(u.usdt_balance, 0.0)) ]
  }

  /** Spreading the defaults over the user sets the five economy fields and
      nothing else. */
  lemma DefaultsSpread(u: User, balance: real, code: string)
    ensures var s := Merge(u, DefaultWrites(u, balance, code));
      && s.airdrop_balance == Some(balance)
      && s.total_referrals == Some(OrInt(u.total_referrals, 0))
      && s.total_earned == Some(OrNum(u.total_earned, 0.0))
      && s.referral_code == Some(code)
      && s.usdt_balance == Some(OrNum(u.usdt_balance, 0.0))
      && OnlyChanged(u, s, {AirdropBalance, TotalReferrals, TotalEarned, ReferralCode, UsdtBalance})
  {
    var ws := DefaultWrites(u, balance, code);
    MergeLiteral(u, ws, {AirdropBalance, TotalReferrals, TotalEarned, ReferralCode, UsdtBalance});
    assert Get(Merge(u, ws), AirdropBalance) == Written(ws[0]);
    assert Get(Merge(u, ws), TotalReferrals) == Written(ws[1]);
    assert Get(Merge(u, ws), TotalEarned) == Written(ws[2]);
    assert Get(Merge(u, ws), ReferralCode) == Written(ws[3]);
    assert Get(Merge(u, ws), UsdtBalance) == Written(ws[4]);
  }

  /** The write-back condition: the code is missing, or either balance is
      undefined (a stored 0 does not trigger it). */
  predicate NeedsWriteBack(u: User) {
    !Truthy(u.referral_code) || u.airdrop_balance.None? || u.usdt_balance.None?
  }

  /** What the store holds afterwards and what the page shows. */
  datatype Loaded = Loaded(stored: User, shown: User)

  /** `loadUserData()`: the shown user is the stored one with the defaults
      spread over it; the store receives the defaults only when
      `NeedsWriteBack` holds. */
  function LoadUserData(u: User, suffix: nat): (r: Result<Loaded, LoadError>)
    requires suffix < SUFFIX_BOUND
    ensures r.Err? <==> !Truthy(u.referral_code) && u.full_name.None?
    ensures r.Ok? ==>
      var s := r.value.shown;
      && s.airdrop_balance == Some(if u.airdrop_balance.Some? && u.airdrop_balance.value != 0.0 then u.airdrop_balance.value else STARTING_BALANCE)
      && s.total_referrals == Some(if u.total_referrals.Some? then u.total_referrals.value else 0)
      && s.total_earned == Some(if u.total_earned.Some? then u.total_earned.value else 0.0)
      && s.usdt_balance == Some(if u.usdt_balance.Some? then u.usdt_balance.value else 0.0)
      && (Truthy(u.referral_code) ==> s.referral_code == u.referral_code)
      && Truthy(s.referral_code)
      && OnlyChanged(u, s, {AirdropBalance, TotalReferrals, TotalEarned, ReferralCode, UsdtBalance})
      && r.value.stored == (if NeedsWriteBack(u) then s else u)
  {
    var code := DefaultCode(u, suffix);
    if code.Err? then Err(code.error)
    else
      DefaultsSpread(u, ShownBalance(u), code.value);
      var shown := Merge(u, DefaultWrites(u, ShownBalance(u), code.value));
      var stored := if NeedsWriteBack(u) then shown else u;
      Ok(Loaded(stored, shown))
  }

  /** A stored balance of 0 is shown as the starting 100 and is not written
      back when the other fields are present. */
  lemma ZeroBalanceShownAsStarting(u: User, suffix: nat)
    requires suffix < SUFFIX_BOUND
    requires u.airdrop_balance == Some(0.0) && u.usdt_balance.Some? && Truthy(u.referral_code)
    ensures LoadUserData(u, suffix).Ok?
    ensures LoadUserData(u, suffix).value.shown.airdrop_balance == Some(STARTING_BALANCE)
    ensures LoadUserData(u, suffix).value.stored == u
  {
  }

  /** Initialisation happens once: loading again from what the store holds
      writes nothing and shows the same user, whatever the new random number. */
  lemma LoadIsStable(u: User, suffix: nat, suffix': nat)
    requires suffix < SUFFIX_BOUND && suffix' < SUFFIX_BOUND
    requires LoadUserData(u, suffix).Ok?
    ensures var first := LoadUserData(u, suffix).value;
      && LoadUserData(first.stored, suffix').Ok?
      && LoadUserData(first.stored, suffix').value.stored == first.stored
      && LoadUserData(first.stored, suffix').value.shown == first.shown
  {
    var first := LoadUserData(u, suffix).value;
    var code := DefaultCode(u, suffix).value;
    if NeedsWriteBack(u) {
      var s := first.shown;
      DefaultsSpread(u, ShownBalance(u), code);
      assert DefaultCode(s, suffix') == Ok(code);
      DefaultsSpread(s, ShownBalance(s), code);
      var t := Merge(s, DefaultWrites(s, ShownBalance(s), code));
      assert Get(t, AirdropBalance) == Get(s, AirdropBalance);
      assert Get(t, TotalReferrals) == Get(s, TotalReferrals);
      assert Get(t, TotalEarned) == Get(s, TotalEarned);
      assert Get(t, ReferralCode) == Get(s, ReferralCode);
      assert Get(t, UsdtBalance) == Get(s, UsdtBalance);
      SameFieldsSameUser(t, s);
    } else {
      assert DefaultCode(u, suffix') == Ok(code);
    }
  }

  /** As written, a stored balance of 0 (everything swapped away) is shown as
      100 and left at 0 in the store, and a claim from the dashboard writes
      the shown 100 plus the reward back: the starting balance is granted
      again. */
  lemma ZeroBalanceClaimRegrantsStart(u: User, suffix: nat, now: int)
    requires suffix < SUFFIX_BOUND
    requires u.airdrop_balance == Some(0.0) && u.usdt_balance.Some? && Truthy(u.referral_code)
    requires Claim.CanClaim(u, now)
    ensures var l := LoadUserData(u, suffix).value;
      && l.stored == u
      && Claim.DailyReward(l.shown) == Claim.DailyReward(u)
      && Claim.ClaimOnStore(l.stored, l.shown, now, false).airdrop_balance
         == Some(STARTING_BALANCE + Claim.DailyReward(u) as real)
  {
    var l := LoadUserData(u, suffix).value;
    assert l.shown.last_claim_date == u.last_claim_date by {
      assert Get(l.shown, LastClaimDate) == Get(u, LastClaimDate);
    }
  }

  /** The balance the load evidently means to show: 100 only for a user who
      has none (`=== undefined`, as the write-back test reads it). */
  function IntendedBalance(u: User): real {
    if u.airdrop_balance.Some? then u.airdrop_balance.value else STARTING_BALANCE
  }

  /** `loadUserData()` with the starting balance given only to a user without
      one: the page then shows the balance the store holds. */
  function LoadUserDataIntended(u: User, suffix: nat): (r: Result<Loaded, LoadError>)
    requires suffix < SUFFIX_BOUND
    ensures r.Err? <==> !Truthy(u.referral_code) && u.full_name.None?
    ensures r.Ok? ==>
      && r.value.stored.airdrop_balance.Some?
      && r.value.shown.airdrop_balance == r.value.stored.airdrop_balance
      && r.value.shown.usdt_balance == r.value.stored.usdt_balance
      && r.value.shown.last_claim_date == u.last_claim_date
      && (u.airdrop_balance.Some? ==> r.value.stored.airdrop_balance == u.airdrop_balance)
  {
    var code := DefaultCode(u, suffix);
    if code.Err? then Err(code.error)
    else
      IntendedSpreadKeepsBalances(u, code.value);
      var shown := Merge(u, DefaultWrites(u, IntendedBalance(u), code.value));
      var stored := if NeedsWriteBack(u) then shown else u;
      Ok(Loaded(stored, shown))
  }

  /** The intended spread keeps every present balance and the claim date. */
  lemma IntendedSpreadKeepsBalances(u: User, code: string)
    ensures var s := Merge(u, DefaultWrites(u, IntendedBalance(u), code));
      && s.airdrop_balance.Some? && s.usdt_balance.Some?
      && (u.airdrop_balance.Some? ==> s.airdrop_balance == u.airdrop_balance)
      && (u.usdt_balance.Some? ==> s.usdt_balance == u.usdt_balance)
      && s.last_claim_date == u.last_claim_date
  {
    var s := Merge(u, DefaultWrites(u, IntendedBalance(u), code));
    DefaultsSpread(u, IntendedBalance(u), code);
    assert Get(s, LastClaimDate) == Get(u, LastClaimDate);
  }

  /** With the intended load, a claim from the dashboard adds exactly the
      reward to the balance the store holds; for a stored 0 that is the
      reward alone. */
  lemma IntendedClaimCreditsStoredBalance(u: User, suffix: nat, now: int)
    requires suffix < SUFFIX_BOUND
    requires LoadUserDataIntended(u, suffix).Ok?
    requires Claim.CanClaim(u, now)
    ensures var l := LoadUserDataIntended(u, suffix).value;
      Claim.ClaimOnStore(l.stored, l.shown, now, false).airdrop_balance
        == Some(l.stored.airdrop_balance.value + Claim.DailyReward(l.shown) as real)
    ensures u.airdrop_balance == Some(0.0) ==>
      var l := LoadUserDataIntended(u, suffix).value;
      Claim.ClaimOnStore(l.stored, l.shown, now, false).airdrop_balance
        == Some(Claim.DailyReward(u) as real)
  {
    var l := LoadUserDataIntended(u, suffix).value;
    assert Claim.CanClaim(l.shown, now);
    if u.airdrop_balance == Some(0.0) {
      assert l.shown.total_referrals == Some(OrInt(u.total_referrals, 0)) by {
        DefaultsSpread(u, IntendedBalance(u), DefaultCode(u, suffix).value);
      }
    }
  }
}

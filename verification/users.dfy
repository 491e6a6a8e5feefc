/** The User entity as the backend hands it to the pages, and the one way it
    changes: merging a partial object of field writes into it. Both
    `User.updateMyUserData(partial)` on the store and the local
    `{ ...user, ...partial }` spreads are this merge. */
module Users {
  import opened Js

  /** Every field but the e-mail key may be absent. `last_claim_date` is the
      stored calendar date read back as an instant in milliseconds. */
  datatype User = User(
    email: string,
    full_name: Option<string>,
    airdrop_balance: Option<real>,
    usdt_balance: Option<real>,
    total_referrals: Option<int>,
    total_earned: Option<real>,
    last_claim_date: Option<int>,
    referral_code: Option<string>,
    wallet_address: Option<string>,
    wallet_connected: Option<bool>,
    twitter_handle: Option<string>,
    telegram_username: Option<string>)

  /** A User with only its key, as an object literal of defaults starts out. */
  function Bare(email: string): (b: User)
    ensures forall f :: f != Email ==> Get(b, f) == Missing(f)
  {
    User(email, None, None, None, None, None, None, None, None, None, None, None)
  }

  datatype Field =
    | Email | FullName | AirdropBalance | UsdtBalance | TotalReferrals | TotalEarned
    | LastClaimDate | ReferralCode | WalletAddress | WalletConnected
    | TwitterHandle | TelegramUsername

  /** The key a field is stored under. */
  function FieldName(f: Field): string {
    match f
    case Email => "email"
    case FullName => "full_name"
    case AirdropBalance => "airdrop_balance"
    case UsdtBalance => "usdt_balance"
    case TotalReferrals => "total_referrals"
    case TotalEarned => "total_earned"
    case LastClaimDate => "last_claim_date"
    case ReferralCode => "referral_code"
    case WalletAddress => "wallet_address"
    case WalletConnected => "wallet_connected"
    case TwitterHandle => "twitter_handle"
    case TelegramUsername => "telegram_username"
  }

  /** The content of one field, whatever its type. */
  datatype Value =
    | Text(text: Option<string>)
    | Amount(amount: Option<real>)
    | Count(count: Option<int>)
    | Instant(instant: Option<int>)
    | Flag(flag: Option<bool>)

  function Get(u: User, f: Field): Value {
    match f
    case Email => Text(Some(u.email))
    case FullName => Text(u.full_name)
    case AirdropBalance => Amount(u.airdrop_balance)
    case UsdtBalance => Amount(u.usdt_balance)
    case TotalReferrals => Count(u.total_referrals)
    case TotalEarned => Amount(u.total_earned)
    case LastClaimDate => Instant(u.last_claim_date)
    case ReferralCode => Text(u.referral_code)
    case WalletAddress => Text(u.wallet_address)
    case WalletConnected => Flag(u.wallet_connected)
    case TwitterHandle => Text(u.twitter_handle)
    case TelegramUsername => Text(u.telegram_username)
  }

  /** v differs from u at most in the fields fs. */
  ghost predicate OnlyChanged(u: User, v: User, fs: set<Field>) {
    forall f :: f !in fs ==> Get(u, f) == Get(v, f)
  }

  /** One key of a partial update object. */
  datatype Write =
    | SetAirdropBalance(amount: real)
    | SetUsdtBalance(amount: real)
    | SetTotalReferrals(count: int)
    | SetTotalEarned(amount: real)
    | SetLastClaimDate(instant: int)
    | SetReferralCode(text: string)
    | SetWalletAddress(text: string)
    | SetWalletConnected(flag: bool)
    | SetTwitterHandle(text: string)
    | SetTelegramUsername(text: string)

  function Target(w: Write): Field {
    match w
    case SetAirdropBalance(_) => AirdropBalance
    case SetUsdtBalance(_) => UsdtBalance
    case SetTotalReferrals(_) => TotalReferrals
    case SetTotalEarned(_) => TotalEarned
    case SetLastClaimDate(_) => LastClaimDate
    case SetReferralCode(_) => ReferralCode
    case SetWalletAddress(_) => WalletAddress
    case SetWalletConnected(_) => WalletConnected
    case SetTwitterHandle(_) => TwitterHandle
    case SetTelegramUsername(_) => TelegramUsername
  }

  function Written(w: Write): Value {
    match w
    case SetAirdropBalance(a) => Amount(Some(a))
    case SetUsdtBalance(a) => Amount(Some(a))
    case SetTotalReferrals(n) => Count(Some(n))
    case SetTotalEarned(a) => Amount(Some(a))
    case SetLastClaimDate(t) => Instant(Some(t))
    case SetReferralCode(s) => Text(Some(s))
    case SetWalletAddress(s) => Text(Some(s))
    case SetWalletConnected(b) => Flag(Some(b))
    case SetTwitterHandle(s) => Text(Some(s))
    case SetTelegramUsername(s) => Text(Some(s))
  }

  /** The fields a partial update object names. */
  function Fields(ws: seq<Write>): set<Field>
    decreases |ws|
  {
    if ws == [] then {} else Fields(ws[..|ws| - 1]) + {Target(ws[|ws| - 1])}
  }

  /** The value the last key naming f carries, if any key does. */
  function LastWrite(ws: seq<Write>, f: Field): Option<Value>
    decreases |ws|
  {
    if ws == [] then None
    else if Target(ws[|ws| - 1]) == f then Some(Written(ws[|ws| - 1]))
    else LastWrite(ws[..|ws| - 1], f)
  }

  /** Setting one key: that field takes the written value, no other field moves. */
  function SetOne(u: User, w: Write): (v: User)
    ensures forall f :: Get(v, f) == (if f == Target(w) then Written(w) else Get(u, f))
  {
    match w
    case SetAirdropBalance(a) => u.(airdrop_balance := Some(a))
    case SetUsdtBalance(a) => u.(usdt_balance := Some(a))
    case SetTotalReferrals(n) => u.(total_referrals := Some(n))
    case SetTotalEarned(a) => u.(total_earned := Some(a))
    case SetLastClaimDate(t) => u.(last_claim_date := Some(t))
    case SetReferralCode(s) => u.(referral_code := Some(s))
    case SetWalletAddress(s) => u.(wallet_address := Some(s))
    case SetWalletConnected(b) => u.(wallet_connected := Some(b))
    case SetTwitterHandle(s) => u.(twitter_handle := Some(s))
    case SetTelegramUsername(s) => u.(telegram_username := Some(s))
  }

  /** `{ ...u, ...partial }`: each named field takes the value of the last key
      naming it, every other field keeps u's value. */
  function Merge(u: User, ws: seq<Write>): (v: User)
    ensures forall f :: Get(v, f) == (if LastWrite(ws, f).Some? then LastWrite(ws, f).value else Get(u, f))
    decreases |ws|
  {
    if ws == [] then u else SetOne(Merge(u, ws[..|ws| - 1]), ws[|ws| - 1])
  }

  /** A merge touches no field outside the keys of the partial object. */
  lemma {:induction false} MergeOnlyChanges(u: User, ws: seq<Write>)
    ensures OnlyChanged(u, Merge(u, ws), Fields(ws))
  {
    forall f | f !in Fields(ws)
      ensures Get(u, f) == Get(Merge(u, ws), f)
    {
      NotNamedNotWritten(ws, f);
    }
  }

  lemma {:induction false} NotNamedNotWritten(ws: seq<Write>, f: Field)
    requires f !in Fields(ws) || forall i :: 0 <= i < |ws| ==> Target(ws[i]) != f
    ensures LastWrite(ws, f).None?
    decreases |ws|
  {
    if ws != [] {
      NotNamedNotWritten(ws[..|ws| - 1], f);
    }
  }

  /** A key no later key overrides decides its field. */
  lemma {:induction false} LastKeyWins(ws: seq<Write>, i: int)
    requires 0 <= i < |ws|
    requires forall j :: i < j < |ws| ==> Target(ws[j]) != Target(ws[i])
    ensures LastWrite(ws, Target(ws[i])) == Some(Written(ws[i]))
    decreases |ws|
  {
    if i < |ws| - 1 {
      LastKeyWins(ws[..|ws| - 1], i);
    }
  }

  /** An update object whose keys are all distinct, as in an object literal,
      sets every field it names and changes nothing outside fs. */
  lemma MergeLiteral(u: User, ws: seq<Write>, fs: set<Field>)
    requires forall i, j :: 0 <= i < j < |ws| ==> Target(ws[i]) != Target(ws[j])
    requires forall i :: 0 <= i < |ws| ==> Target(ws[i]) in fs
    ensures forall i :: 0 <= i < |ws| ==> Get(Merge(u, ws), Target(ws[i])) == Written(ws[i])
    ensures OnlyChanged(u, Merge(u, ws), fs)
  {
    forall i | 0 <= i < |ws|
      ensures Get(Merge(u, ws), Target(ws[i])) == Written(ws[i])
    {
      LastKeyWins(ws, i);
    }
    forall f | f !in fs
      ensures Get(u, f) == Get(Merge(u, ws), f)
    {
      NotNamedNotWritten(ws, f);
    }
  }

  /** Two users that agree on every field are the same record. */
  lemma {:induction false} SameFieldsSameUser(u: User, v: User)
    requires forall f :: Get(u, f) == Get(v, f)
    ensures u == v
  {
    assert Get(u, Email) == Get(v, Email);
    assert Get(u, FullName) == Get(v, FullName);
    assert Get(u, AirdropBalance) == Get(v, AirdropBalance);
    assert Get(u, UsdtBalance) == Get(v, UsdtBalance);
    assert Get(u, TotalReferrals) == Get(v, TotalReferrals);
    assert Get(u, TotalEarned) == Get(v, TotalEarned);
    assert Get(u, LastClaimDate) == Get(v, LastClaimDate);
    assert Get(u, ReferralCode) == Get(v, ReferralCode);
    assert Get(u, WalletAddress) == Get(v, WalletAddress);
    assert Get(u, WalletConnected) == Get(v, WalletConnected);
    assert Get(u, TwitterHandle) == Get(v, TwitterHandle);
    assert Get(u, TelegramUsername) == Get(v, TelegramUsername);
  }

  /** Merging the same partial object twice is the same as merging it once. */
  lemma MergeIdempotent(u: User, ws: seq<Write>)
    ensures Merge(Merge(u, ws), ws) == Merge(u, ws)
  {
    SameFieldsSameUser(Merge(Merge(u, ws), ws), Merge(u, ws));
  }

  /** `{ ...base, ...top }` for two whole records: every field top has wins. */
  function Overlay(base: User, top: User): (v: User)
    ensures forall f :: f != Email ==> Get(v, f) == (if Get(top, f) == Missing(f) then Get(base, f) else Get(top, f))
    ensures v.email == top.email
  {
    User(
      top.email,
      Pick(base.full_name, top.full_name),
      Pick(base.airdrop_balance, top.airdrop_balance),
      Pick(base.usdt_balance, top.usdt_balance),
      Pick(base.total_referrals, top.total_referrals),
      Pick(base.total_earned, top.total_earned),
      Pick(base.last_claim_date, top.last_claim_date),
      Pick(base.referral_code, top.referral_code),
      Pick(base.wallet_address, top.wallet_address),
      Pick(base.wallet_connected, top.wallet_connected),
      Pick(base.twitter_handle, top.twitter_handle),
      Pick(base.telegram_username, top.telegram_username))
  }

  function Pick<T>(base: Option<T>, top: Option<T>): Option<T> {
    if top.Some? then top else base
  }

  /** The content of an absent field. */
  function Missing(f: Field): Value {
    match f
    case Email => Text(None)
    case FullName => Text(None)
    case AirdropBalance => Amount(None)
    case UsdtBalance => Amount(None)
    case TotalReferrals => Count(None)
    case TotalEarned => Amount(None)
    case LastClaimDate => Instant(None)
    case ReferralCode => Text(None)
    case WalletAddress => Text(None)
    case WalletConnected => Flag(None)
    case TwitterHandle => Text(None)
    case TelegramUsername => Text(None)
  }
}

/** The profile page (src/pages/Profile.jsx): a three-field form filled from
    the user, edited field by field, and saved as a partial update. The saved
    wallet address is the one withdrawals are later sent to. */
module Profile {
  import opened Js
  import opened Users
  import opened Ledger
  import Withdraw

  datatype ProfileForm = ProfileForm(wallet_address: string, twitter_handle: string, telegram_username: string)

  datatype FormField = WalletField | TwitterField | TelegramField

  function FieldOf(form: ProfileForm, f: FormField): string {
    match f
    case WalletField => form.wallet_address
    case TwitterField => form.twitter_handle
    case TelegramField => form.telegram_username
  }

  /** The form `loadUserData()` fills: each field from the user, missing or
      empty as "". */
  function FormFromUser(u: User): (form: ProfileForm)
    ensures form.wallet_address == (if u.wallet_address.Some? then u.wallet_address.value else "")
    ensures form.twitter_handle == (if u.twitter_handle.Some? then u.twitter_handle.value else "")
    ensures form.telegram_username == (if u.telegram_username.Some? then u.telegram_username.value else "")
  {
    ProfileForm(OrStr(u.wallet_address, ""), OrStr(u.twitter_handle, ""), OrStr(u.telegram_username, ""))
  }

  /** `handleInputChange(field, value)`: one field takes the typed value. */
  function HandleInputChange(form: ProfileForm, field: FormField, value: string): (r: ProfileForm)
    ensures FieldOf(r, field) == value
    ensures forall g :: g != field ==> FieldOf(r, g) == FieldOf(form, g)
  {
    match field
    case WalletField => form.(wallet_address := value)
    case TwitterField => form.(twitter_handle := value)
    case TelegramField => form.(telegram_username := value)
  }

  /** Typing into a field and typing the old value back leaves the form as it was. */
  lemma InputChangeUndone(form: ProfileForm, field: FormField, value: string)
    ensures HandleInputChange(HandleInputChange(form, field, value), field, FieldOf(form, field)) == form
  {
  }

  /** The form as a partial update: all three fields, always. */
  function FormWrites(form: ProfileForm): seq<Write> {
    [ SetWalletAddress(form.wallet_address),
      SetTwitterHandle(form.twitter_handle),
      SetTelegramUsername(form.telegram_username) ]
  }

  /** `handleSave()`: the store receives the whole form, and the page's copy
      becomes `{ ...prev, ...formData }`, the same merge. Nothing else changes,
      in particular not `wallet_connected`. */
  function HandleSave(u: User, form: ProfileForm): (r: User)
    ensures r.wallet_address == Some(form.wallet_address)
    ensures r.twitter_handle == Some(form.twitter_handle)
    ensures r.telegram_username == Some(form.telegram_username)
    ensures OnlyChanged(u, r, {WalletAddress, TwitterHandle, TelegramUsername})
    ensures r.wallet_connected == u.wallet_connected
  {
    var ws := FormWrites(form);
    MergeLiteral(u, ws, {WalletAddress, TwitterHandle, TelegramUsername});
    assert Get(Merge(u, ws), WalletAddress) == Written(ws[0]);
    assert Get(Merge(u, ws), TwitterHandle) == Written(ws[1]);
    assert Get(Merge(u, ws), TelegramUsername) == Written(ws[2]);
    assert Get(Merge(u, ws), WalletConnected) == Get(u, WalletConnected);
    Merge(u, ws)
  }

  /** Round trip: reopening the page after a save shows the saved form, and
      saving the same form again changes nothing. */
  lemma SaveThenLoad(u: User, form: ProfileForm)
    ensures FormFromUser(HandleSave(u, form)) == form
    ensures HandleSave(HandleSave(u, form), form) == HandleSave(u, form)
  {
    SameFieldsSameUser(HandleSave(HandleSave(u, form), form), HandleSave(u, form));
  }

  /** Opening the page and saving untouched only turns missing fields into "". */
  lemma LoadThenSaveOnlyFillsBlanks(u: User)
    requires u.wallet_address.Some? && u.twitter_handle.Some? && u.telegram_username.Some?
    ensures HandleSave(u, FormFromUser(u)) == u
  {
    SameFieldsSameUser(HandleSave(u, FormFromUser(u)), u);
  }

  /** The profile can move the wallet address without the wallet card: a
      connected user who clears it is refused every otherwise valid
      withdrawal, while the store still says the wallet is connected. */
  lemma ClearedAddressBlocksWithdrawal(u: User, form: ProfileForm, amount: real)
    requires u.wallet_connected == Some(true)
    requires form.wallet_address == ""
    requires Withdraw.MIN_WITHDRAWAL <= amount <= Withdraw.AvailableUsdt(u)
    ensures HandleSave(u, form).wallet_connected == Some(true)
    ensures Withdraw.ValidateWithdrawal(Number(amount), HandleSave(u, form)) == Some(WalletNotConnected)
  {
    assert Get(HandleSave(u, form), UsdtBalance) == Get(u, UsdtBalance);
  }

  /** After a save with a non-empty address, withdrawals go to the typed
      address, whichever wallet was connected. */
  lemma WithdrawalGoesToTypedAddress(a: Account, form: ProfileForm, amount: real, txHash: string)
    requires a.user.wallet_connected == Some(true)
    requires form.wallet_address != ""
    requires Withdraw.MIN_WITHDRAWAL <= amount <= Withdraw.AvailableUsdt(a.user)
    ensures var r := Withdraw.HandleWithdraw(Account(HandleSave(a.user, form), a.history), Number(amount), txHash);
      r.rejection.None? && r.account.history[0].wallet_address == Some(form.wallet_address)
  {
    assert Get(HandleSave(a.user, form), UsdtBalance) == Get(a.user, UsdtBalance);
  }
}

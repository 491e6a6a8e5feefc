/** USDT withdrawal to the connected wallet
    (src/components/swap/WithdrawInterface.jsx): the ordered validation and
    the effects of a successful withdrawal. */
module Withdraw {
  import opened Js
  import opened Users
  import opened Ledger

  const MIN_WITHDRAWAL: real := 5.0

  /** `user?.usdt_balance || 0`. */
  function AvailableUsdt(u: User): real {
    OrNum(u.usdt_balance, 0.0)
  }

  /** `!user?.wallet_connected || !user?.wallet_address`. */
  predicate WalletMissing(u: User) {
    !OrBool(u.wallet_connected, false) || !Truthy(u.wallet_address)
  }

  /** `validateWithdrawal(amount)`: null (None) or the first failing check,
      in the order not-a-number, below $5, above the USDT balance, no wallet. */
  function ValidateWithdrawal(amount: AmountInput, u: User): (r: Option<Rejection>)
    ensures r == Some(InvalidAmount) <==> !amount.Number?
    ensures r == Some(BelowMinimum) <==> amount.Number? && amount.value < MIN_WITHDRAWAL
    ensures r == Some(InsufficientBalance) <==>
      amount.Number? && MIN_WITHDRAWAL <= amount.value && amount.value > (if u.usdt_balance.Some? then u.usdt_balance.value else 0.0)
    ensures r == Some(WalletNotConnected) <==>
      && amount.Number? && MIN_WITHDRAWAL <= amount.value <= (if u.usdt_balance.Some? then u.usdt_balance.value else 0.0)
      && (u.wallet_connected != Some(true) || u.wallet_address.None? || u.wallet_address == Some(""))
  {
    if amount.Blank? || amount.NotANumber? then Some(InvalidAmount)
    else if amount.value < MIN_WITHDRAWAL then Some(BelowMinimum)
    else if amount.value > AvailableUsdt(u) then Some(InsufficientBalance)
    else if WalletMissing(u) then Some(WalletNotConnected)
    else None
  }

  /** The boundaries are inclusive, and a request above the balance reports
      the balance even when no wallet is connected. */
  lemma WithdrawalValidationExamples(u: User)
    ensures u.usdt_balance == Some(100.0) ==> ValidateWithdrawal(Number(4.0), u) == Some(BelowMinimum)
    ensures u.usdt_balance == Some(100.0) && u.wallet_connected == Some(false) ==>
      ValidateWithdrawal(Number(10.0), u) == Some(WalletNotConnected)
    ensures u.usdt_balance == Some(3.0) && u.wallet_connected == Some(false) ==>
      ValidateWithdrawal(Number(10.0), u) == Some(InsufficientBalance)
    ensures u.usdt_balance == Some(5.0) && u.wallet_connected == Some(true) && u.wallet_address == Some("0xabc") ==>
      ValidateWithdrawal(Number(5.0), u).None?
  {
  }

  /** The Transaction record a withdrawal creates; the hash is a random
      placeholder supplied by the caller. */
  function WithdrawalRecord(u: User, amount: real, txHash: string): (t: Transaction)
    ensures t.transaction_type == "withdrawal" && t.status == "completed"
    ensures t.from_currency == "USDT" && t.to_currency == "USDT"
    ensures t.amount_from == amount && t.amount_to == amount
    ensures t.wallet_address == u.wallet_address && t.transaction_hash == Some(txHash)
    ensures t.fee_amount.None? && t.exchange_rate.None?
  {
    Transaction(u.email, "withdrawal", "USDT", "USDT", amount, amount, None, None, u.wallet_address, Some(txHash), "completed")
  }

  /** `handleWithdraw()`: a refused request leaves the account as it was; an
      accepted one debits the USDT and records the withdrawal to the user's
      own, non-empty wallet address. */
  function HandleWithdraw(a: Account, amount: AmountInput, txHash: string): (r: Submitted)
    ensures r.rejection == ValidateWithdrawal(amount, a.user)
    ensures r.rejection.Some? ==> r.account == a
    ensures r.rejection.None? ==>
      && r.account.user.usdt_balance == Some(a.user.usdt_balance.value - amount.value)
      && r.account.user.usdt_balance.value >= 0.0
      && OnlyChanged(a.user, r.account.user, {UsdtBalance})
      && |r.account.history| == |a.history| + 1
      && r.account.history == [WithdrawalRecord(a.user, amount.value, txHash)] + a.history
      && r.account.history[0].amount_from == amount.value
      && r.account.history[0].wallet_address == a.user.wallet_address
      && Truthy(r.account.history[0].wallet_address)
  {
    var validationError := ValidateWithdrawal(amount, a.user);
    if validationError.Some? then Submitted(a, validationError)
    else
      var withdrawAmount := amount.value;
      var tx := WithdrawalRecord(a.user, withdrawAmount, txHash);
      var ws := [SetUsdtBalance(OrNum(a.user.usdt_balance, 0.0) - withdrawAmount)];
      MergeLiteral(a.user, ws, {UsdtBalance});
      assert Get(Merge(a.user, ws), UsdtBalance) == Written(ws[0]);
      Submitted(Account(Merge(a.user, ws), [tx] + a.history), None)
  }
}

/** BONK to USDT conversion (src/components/swap/SwapInterface.jsx): the
    fixed-rate quote with its 10% fee, the ordered validation, and the
    effects of a successful swap. */
module SwapEngine {
  import opened Js
  import opened Users
  import opened Ledger

  /** 100 BONK = 1 USDT. */
  const EXCHANGE_RATE: real := 0.01
  const MIN_SWAP: real := 1000.0
  const FEE_PERCENTAGE: real := 0.1

  datatype Quote = Quote(usdt: real, fee: real, net: real)

  /** `calculateSwap(bonkAmount)`; None stands for NaN. */
  function CalculateSwap(bonkAmount: Option<real>): (q: Quote)
    ensures q.fee + q.net == q.usdt
    ensures bonkAmount.None? ==> q == Quote(0.0, 0.0, 0.0)
    ensures bonkAmount.Some? ==>
      && q.usdt == bonkAmount.value / 100.0
      && q.fee == q.usdt / 10.0
      && q.net == bonkAmount.value * 9.0 / 1000.0
  {
    if bonkAmount.None? || bonkAmount.value == 0.0 then Quote(0.0, 0.0, 0.0)
    else
      var usdtGross := bonkAmount.value * EXCHANGE_RATE;
      var fee := usdtGross * FEE_PERCENTAGE;
      var usdtNet := usdtGross - fee;
      Quote(usdtGross, fee, usdtNet)
  }

  /** 1000 BONK quote 10 USDT, of which 1 is fee and 9 reach the user. */
  lemma QuoteExample()
    ensures CalculateSwap(Some(1000.0)) == Quote(10.0, 1.0, 9.0)
    ensures CalculateSwap(Some(0.0)) == Quote(0.0, 0.0, 0.0)
  {
  }

  /** The airdrop balance the form compares against: `user?.airdrop_balance || 0`. */
  function SwapBalance(u: User): real {
    OrNum(u.airdrop_balance, 0.0)
  }

  /** `validateSwap(amount)`: null (None) or the first failing check, in the
      order not-a-number, below the minimum, above the balance. */
  function ValidateSwap(amount: AmountInput, u: User): (r: Option<Rejection>)
    ensures r == Some(InvalidAmount) <==> !amount.Number?
    ensures r == Some(BelowMinimum) <==> amount.Number? && amount.value < MIN_SWAP
    ensures r == Some(InsufficientBalance) <==>
      amount.Number? && MIN_SWAP <= amount.value && amount.value > (if u.airdrop_balance.Some? then u.airdrop_balance.value else 0.0)
    ensures r != Some(WalletNotConnected)
  {
    if amount.Blank? || amount.NotANumber? then Some(InvalidAmount)
    else if amount.value < MIN_SWAP then Some(BelowMinimum)
    else if amount.value > SwapBalance(u) then Some(InsufficientBalance)
    else None
  }

  /** Both boundaries are inclusive: 1000 and the whole balance of 5000 are
      accepted, 500 is below the minimum, 2000 exceeds a balance of 1000. */
  lemma SwapValidationExamples(u: User)
    ensures u.airdrop_balance == Some(1000.0) ==> ValidateSwap(Number(1000.0), u).None?
    ensures u.airdrop_balance == Some(5000.0) ==> ValidateSwap(Number(5000.0), u).None?
    ensures u.airdrop_balance == Some(10000.0) ==> ValidateSwap(Number(500.0), u) == Some(BelowMinimum)
    ensures u.airdrop_balance == Some(1000.0) ==> ValidateSwap(Number(2000.0), u) == Some(InsufficientBalance)
    ensures u.airdrop_balance.None? ==> ValidateSwap(Number(1000.0), u) == Some(InsufficientBalance)
  {
  }

  /** `disabled={swapping || !fromAmount || !!validateSwap(fromAmount)}`,
      negated. */
  predicate SwapEnabled(amount: AmountInput, u: User, swapping: bool) {
    !swapping && !amount.Blank? && ValidateSwap(amount, u).None?
  }

  /** The empty-field test adds nothing: the button is live exactly when no
      swap is running and the amount lies between the minimum and the balance. */
  lemma SwapEnabledIffAccepted(amount: AmountInput, u: User, swapping: bool)
    ensures SwapEnabled(amount, u, swapping) <==>
      !swapping && amount.Number? && MIN_SWAP <= amount.value <= SwapBalance(u)
  {
  }

  /** The Transaction record a swap of `amount` creates. */
  function SwapRecord(u: User, amount: real): (t: Transaction)
    ensures t.transaction_type == "swap" && t.status == "completed"
    ensures t.from_currency == "BONK" && t.to_currency == "USDT"
    ensures t.amount_from == amount
    ensures t.amount_to == CalculateSwap(Some(amount)).net
    ensures t.fee_amount == Some(CalculateSwap(Some(amount)).fee)
    ensures t.exchange_rate == Some(EXCHANGE_RATE)
    ensures t.amount_to + t.fee_amount.value == amount * EXCHANGE_RATE
  {
    var quote := CalculateSwap(Some(amount));
    Transaction(u.email, "swap", "BONK", "USDT", amount, quote.net, Some(quote.fee), Some(EXCHANGE_RATE), None, None, "completed")
  }

  /** `handleSwap()`: a refused amount leaves the account as it was; an
      accepted one debits the BONK, credits the net USDT, and records the swap. */
  function HandleSwap(a: Account, amount: AmountInput): (r: Submitted)
    ensures r.rejection == ValidateSwap(amount, a.user)
    ensures r.rejection.Some? ==> r.account == a
    ensures r.rejection.None? ==>
      var bal := if a.user.airdrop_balance.Some? then a.user.airdrop_balance.value else 0.0;
      var usdt := if a.user.usdt_balance.Some? then a.user.usdt_balance.value else 0.0;
      && r.account.user.airdrop_balance == Some(bal - amount.value)
      && r.account.user.usdt_balance == Some(usdt + amount.value * 9.0 / 1000.0)
      && r.account.user.airdrop_balance.value >= 0.0
      && OnlyChanged(a.user, r.account.user, {AirdropBalance, UsdtBalance})
      && r.account.history == [SwapRecord(a.user, amount.value)] + a.history
  {
    var validationError := ValidateSwap(amount, a.user);
    if validationError.Some? then Submitted(a, validationError)
    else
      var bonkAmount := amount.value;
      var quote := CalculateSwap(Some(bonkAmount));
      var tx := SwapRecord(a.user, bonkAmount);
      var ws := [ SetAirdropBalance(OrNum(a.user.airdrop_balance, 0.0) - bonkAmount),
                  SetUsdtBalance(OrNum(a.user.usdt_balance, 0.0) + quote.net) ];
      MergeLiteral(a.user, ws, {AirdropBalance, UsdtBalance});
      assert Get(Merge(a.user, ws), AirdropBalance) == Written(ws[0]);
      assert Get(Merge(a.user, ws), UsdtBalance) == Written(ws[1]);
      Submitted(Account(Merge(a.user, ws), [tx] + a.history), None)
  }

  /** Round trip of a swap on the ledger: BONK goes down by exactly the
      amount, USDT up by exactly the quoted net, and the total value at the
      exchange rate drops by exactly the fee. */
  lemma SwapConservesValueLessFee(a: Account, x: real)
    requires a.user.airdrop_balance.Some? && a.user.usdt_balance.Some?
    requires ValidateSwap(Number(x), a.user).None?
    ensures var b := HandleSwap(a, Number(x)).account.user;
      && a.user.airdrop_balance.value - b.airdrop_balance.value == x
      && b.usdt_balance.value - a.user.usdt_balance.value == CalculateSwap(Some(x)).net
      && (a.user.airdrop_balance.value * EXCHANGE_RATE + a.user.usdt_balance.value)
         - (b.airdrop_balance.value * EXCHANGE_RATE + b.usdt_balance.value)
         == CalculateSwap(Some(x)).fee
  {
  }

  /** A swap keeps both balances non-negative when they were. */
  lemma SwapKeepsBalancesNonNegative(a: Account, amount: AmountInput)
    requires a.user.airdrop_balance.Some? ==> a.user.airdrop_balance.value >= 0.0
    requires a.user.usdt_balance.Some? ==> a.user.usdt_balance.value >= 0.0
    ensures var b := HandleSwap(a, amount).account.user;
      && (b.airdrop_balance.Some? ==> b.airdrop_balance.value >= 0.0)
      && (b.usdt_balance.Some? ==> b.usdt_balance.value >= 0.0)
  {
  }
}

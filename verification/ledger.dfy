/** What the swap and withdrawal forms share: the amount typed into a text
    field, the rejections a form reports, the Transaction entity, and an
    account as the user record plus its transaction history. */
module Ledger {
  import opened Js
  import opened Users

  /** The amount field: empty, text `isNaN` rejects, or a number as
      `parseFloat` reads it. */
  datatype AmountInput = Blank | NotANumber | Number(value: real)

  /** The validation messages, first failure first. */
  datatype Rejection = InvalidAmount | BelowMinimum | InsufficientBalance | WalletNotConnected

  /** One Transaction record as the forms create it. Fields a kind of
      transaction leaves out are absent. */
  datatype Transaction = Transaction(
    user_email: string,
    transaction_type: string,
    from_currency: string,
    to_currency: string,
    amount_from: real,
    amount_to: real,
    fee_amount: Option<real>,
    exchange_rate: Option<real>,
    wallet_address: Option<string>,
    transaction_hash: Option<string>,
    status: string)

  /** The store's view of one user: the record and its transactions,
      newest first as `Transaction.filter(.., '-created_date')` lists them. */
  datatype Account = Account(user: User, history: seq<Transaction>)

  /** The outcome of submitting a form: the account afterwards and the
      message shown, if the form refused. */
  datatype Submitted = Submitted(account: Account, rejection: Option<Rejection>)
}

/** The Swap page (src/pages/Swap.jsx): how it defaults the loaded user, how
    it mirrors a wallet change locally, and how it labels transactions. */
module SwapPage {
  import opened Js
  import opened Users
  import opened Ledger
  import Wallet

  /** `loadData()`'s `{ usdt_balance: .. || 0, wallet_connected: .. || false,
      ...currentUser }`: the defaults only fill fields the user lacks. */
  function LoadSwapUser(u: User): (r: User)
    ensures r.usdt_balance == Some(if u.usdt_balance.Some? then u.usdt_balance.value else 0.0)
    ensures r.wallet_connected == Some(u.wallet_connected.Some? && u.wallet_connected.value)
    ensures OnlyChanged(u, r, {UsdtBalance, WalletConnected})
  {
    var ws := [ SetUsdtBalance(OrNum(u.usdt_balance, 0.0)),
                SetWalletConnected(OrBool(u.wallet_connected, false)) ];
    MergeLiteral(Bare(u.email), ws, {UsdtBalance, WalletConnected});
    var defaults := Merge(Bare(u.email), ws);
    assert Get(defaults, UsdtBalance) == Written(ws[0]);
    assert Get(defaults, WalletConnected) == Written(ws[1]);
    Overlay(defaults, u)
  }

  /** A user with both fields stored is taken as is, even when they are falsy. */
  lemma LoadKeepsStoredFields(u: User)
    requires u.usdt_balance.Some? && u.wallet_connected.Some?
    ensures LoadSwapUser(u) == u
  {
    SameFieldsSameUser(LoadSwapUser(u), u);
  }

  /** `handleWalletConnect(address)`: the local copy takes the address and
      counts as connected exactly when the address is non-empty. */
  function HandleWalletConnect(prev: User, address: string): (r: User)
    ensures r.wallet_address == Some(address)
    ensures r.wallet_connected == Some(address != "")
    ensures OnlyChanged(prev, r, {WalletAddress, WalletConnected})
  {
    var ws := [SetWalletAddress(address), SetWalletConnected(address != "")];
    MergeLiteral(prev, ws, {WalletAddress, WalletConnected});
    assert Get(Merge(prev, ws), WalletAddress) == Written(ws[0]);
    assert Get(Merge(prev, ws), WalletConnected) == Written(ws[1]);
    Merge(prev, ws)
  }

  /** A store write of the wallet fields that `handleWalletConnect(address)`
      mirrors on the page's copy `LoadSwapUser(s)` leaves the two the same
      record exactly when the store already held a USDT balance, since the
      copy's default of 0 is never written back. */
  lemma MirroredWriteMatchesStore(s: User, stored: User, address: string)
    requires stored.wallet_address == Some(address)
    requires stored.wallet_connected == Some(address != "")
    requires OnlyChanged(s, stored, {WalletAddress, WalletConnected})
    ensures HandleWalletConnect(LoadSwapUser(s), address) == stored <==> s.usdt_balance.Some?
  {
    var local := HandleWalletConnect(LoadSwapUser(s), address);
    assert Get(local, UsdtBalance) == Get(LoadSwapUser(s), UsdtBalance);
    assert Get(stored, UsdtBalance) == Get(s, UsdtBalance);
    if s.usdt_balance.Some? {
      SameFieldsSameUser(local, stored);
    }
  }

  /** After a connection through the wallet card, which writes to the
      stored record `s` while the page mirrors it on its own copy
      `LoadSwapUser(s)`: the two agree on the address, agree on the flag
      unless the wallet reported an empty account name, and with a named
      account are the same record exactly when the store already held a
      USDT balance. */
  lemma ConnectKeepsPageInStep(s: User, accounts: seq<string>)
    requires accounts != []
    ensures var c := Wallet.ConnectWallet(s, Some(accounts)).value;
      var local := HandleWalletConnect(LoadSwapUser(s), c.address);
      && local.wallet_address == c.stored.wallet_address
      && (local.wallet_connected == c.stored.wallet_connected <==> accounts[0] != "")
      && (accounts[0] != "" ==> (local == c.stored <==> s.usdt_balance.Some?))
  {
    var c := Wallet.ConnectWallet(s, Some(accounts)).value;
    if accounts[0] != "" {
      MirroredWriteMatchesStore(s, c.stored, c.address);
    }
  }

  /** After a disconnect, the page's copy and the stored record agree on both
      wallet fields, and are the same record exactly when the store already
      held a USDT balance. */
  lemma DisconnectKeepsPageInStep(s: User)
    ensures var c := Wallet.DisconnectWallet(s);
      var local := HandleWalletConnect(LoadSwapUser(s), c.address);
      && local.wallet_address == c.stored.wallet_address
      && local.wallet_connected == c.stored.wallet_connected
      && (local == c.stored <==> s.usdt_balance.Some?)
  {
    var c := Wallet.DisconnectWallet(s);
    MirroredWriteMatchesStore(s, c.stored, c.address);
  }

  const ARROW: string := " \U{2192} "

  /** `formatTransactionType(transaction)`. */
  function FormatTransactionType(t: Transaction): string {
    if t.transaction_type == "swap" then "Swap " + t.from_currency + ARROW + t.to_currency
    else if t.transaction_type == "withdrawal" then "Withdraw " + t.from_currency
    else t.transaction_type
  }

  /** The labels of swaps and withdrawals never coincide, the label of a
      swap names both of its currencies in order, that of a withdrawal its
      currency, and a transaction of any other type is labelled by the type. */
  lemma LabelsTellKindsApart(s: Transaction, w: Transaction, o: Transaction)
    requires s.transaction_type == "swap" && w.transaction_type == "withdrawal"
    requires o.transaction_type != "swap" && o.transaction_type != "withdrawal"
    ensures FormatTransactionType(s) != FormatTransactionType(w)
    ensures var r := FormatTransactionType(s);
      && |r| == 5 + |s.from_currency| + |ARROW| + |s.to_currency|
      && r[5..5 + |s.from_currency|] == s.from_currency
      && r[|r| - |s.to_currency|..] == s.to_currency
    ensures var r := FormatTransactionType(w);
      |r| == 9 + |w.from_currency| && r[9..] == w.from_currency
    ensures FormatTransactionType(o) == o.transaction_type
  {
    var r := FormatTransactionType(s);
    assert r[1] == 'w' && FormatTransactionType(w)[1] == 'i';
  }
}

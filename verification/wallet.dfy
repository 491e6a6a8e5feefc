/** Wallet connection (src/components/swap/WalletConnection.jsx): the
    abbreviated address display, and connect and disconnect as writes to the
    user record. The browser wallet is reduced to the account list it returns. */
module Wallet {
  import opened Js
  import opened Strings
  import opened Users

  const ELLIPSIS: string := "..."

  /** `formatAddress(address)`: empty stays empty; otherwise the first six
      characters, "...", and the last four (on a short address the two slices
      overlap instead of failing). */
  function FormatAddress(address: string): (r: string)
    ensures address == "" ==> r == ""
    ensures |address| >= 6 ==>
      && |r| == 13
      && r[..6] == address[..6]
      && r[6..9] == ELLIPSIS
      && r[9..] == address[|address| - 4..]
    ensures 0 < |address| < 6 ==> r == address + ELLIPSIS + TakeLast(address, 4)
  {
    if address == "" then ""
    else Take(address, 6) + ELLIPSIS + TakeLast(address, 4)
  }

  /** Two addresses of six characters or more look the same exactly when
      their first six and last four characters agree: the middle is lost. */
  lemma SameAbbreviationIffSameEnds(a: string, b: string)
    requires |a| >= 6 && |b| >= 6
    ensures FormatAddress(a) == FormatAddress(b) <==>
      a[..6] == b[..6] && a[|a| - 4..] == b[|b| - 4..]
  {
    var ra, rb := FormatAddress(a), FormatAddress(b);
    if ra == rb {
      assert a[..6] == ra[..6] == rb[..6] == b[..6];
      assert a[|a| - 4..] == ra[9..] == rb[9..] == b[|b| - 4..];
    }
  }

  /** A ten-character address is recovered from its abbreviation. */
  lemma TenCharacterAddressRecovered(a: string)
    requires |a| == 10
    ensures var r := FormatAddress(a); r[..6] + r[9..] == a
  {
    var r := FormatAddress(a);
    assert a == a[..6] + a[6..];
  }

  /** Why a connection attempt fails: no wallet extension, or it offers no
      unlocked account. */
  datatype ConnectError = NoProvider | NoAccounts

  /** The user record after the write, and the address handed to the
      page's `onWalletConnect` callback. */
  datatype Connection = Connection(stored: User, address: string)

  /** `connectWallet()` with the extension's answer passed in: None when the
      extension is absent, else the account list it returns. */
  function ConnectWallet(u: User, provider: Option<seq<string>>): (r: Result<Connection, ConnectError>)
    ensures provider.None? <==> r == Err(NoProvider)
    ensures provider.Some? && provider.value == [] <==> r == Err(NoAccounts)
    ensures r.Ok? ==>
      && r.value.address == provider.value[0]
      && r.value.stored.wallet_address == Some(provider.value[0])
      && r.value.stored.wallet_connected == Some(true)
      && OnlyChanged(u, r.value.stored, {WalletAddress, WalletConnected})
  {
    if provider.None? then Err(NoProvider)
    else if |provider.value| == 0 then Err(NoAccounts)
    else
      var address := provider.value[0];
      var ws := [SetWalletAddress(address), SetWalletConnected(true)];
      MergeLiteral(u, ws, {WalletAddress, WalletConnected});
      assert Get(Merge(u, ws), WalletAddress) == Written(ws[0]);
      assert Get(Merge(u, ws), WalletConnected) == Written(ws[1]);
      Ok(Connection(Merge(u, ws), address))
  }

  /** `disconnectWallet()`: the address is cleared and the flag dropped. */
  function DisconnectWallet(u: User): (r: Connection)
    ensures r.address == ""
    ensures r.stored.wallet_address == Some("") && r.stored.wallet_connected == Some(false)
    ensures OnlyChanged(u, r.stored, {WalletAddress, WalletConnected})
  {
    var ws := [SetWalletAddress(""), SetWalletConnected(false)];
    MergeLiteral(u, ws, {WalletAddress, WalletConnected});
    assert Get(Merge(u, ws), WalletAddress) == Written(ws[0]);
    assert Get(Merge(u, ws), WalletConnected) == Written(ws[1]);
    Connection(Merge(u, ws), "")
  }

  /** Disconnecting after a connection restores every field but the two
      wallet fields, which end up cleared. */
  lemma ConnectThenDisconnect(u: User, accounts: seq<string>)
    requires accounts != []
    ensures var c := ConnectWallet(u, Some(accounts)).value.stored;
      && DisconnectWallet(c).stored == DisconnectWallet(u).stored
  {
    var c := ConnectWallet(u, Some(accounts)).value.stored;
    SameFieldsSameUser(DisconnectWallet(c).stored, DisconnectWallet(u).stored);
  }
}

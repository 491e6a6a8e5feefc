# Bonkers airdrop: a Dafny model of its front-end business rules

Bonkers is a React single-page application for a token airdrop. Users claim
100 BONK a day plus 10 BONK per referral. They earn more BONK through social
tasks, and they swap BONK for USDT at a fixed rate with a 10% fee. USDT can
be withdrawn to a connected wallet. A leaderboard ranks users by referrals or
by earnings. There is no server-side logic of its own: every rule lives in
the pages and components, and the backend is a generic entity store.

This project models those rules as pure Dafny functions over immutable data
and proves what they promise:

- **Users** (`users.dfy`): the User entity with every field optional. A
  partial update `User.updateMyUserData(partial)` and a local spread
  `{ ...user, ...partial }` are both modelled as one merge of field writes.
- **Js** (`js.dfy`): JavaScript's `x || d` with falsy `0`, `""` and `false`.
- **Strings** (`strings.dfy`): whitespace stripping, ASCII case mapping,
  decimal rendering, and splitting at one character.
- **Clock** (`clock.dfy`): time in integer milliseconds, the 24-hour cycle,
  and truncation to a UTC calendar day.
- **Claim**, **Progress**, **Dashboard**: the daily claim, its progress bar,
  and first-visit initialisation with the referral code.
- **Ledger**, **SwapEngine**, **Withdraw**, **Wallet**, **SwapPage**: swaps,
  withdrawals, the wallet connection, and the Swap page.
- **Tasks**, **TaskCard**: the social tasks and the card that gates them.
- **Leaderboard**, **Pages**, **Referrals**, **Profile**: the remaining pages.

The environment is passed in as parameters:

- the current instant;
- the random referral suffix and transaction hash;
- the answer to the WhatsApp prompt;
- the wallet extension's account list;
- the page origin;
- the id the store gives a new record.

## Model

| member | source | states |
|---|---|---|
| Users.Merge | src/pages/Profile.jsx:58-59 | After a partial update, each field named by the update holds the value of the last key naming it, and every other field keeps its old value |
| Users.MergeOnlyChanges | src/pages/Profile.jsx:58 | A partial update changes no field outside the keys it names |
| Users.LastKeyWins | src/pages/Profile.jsx:59 | In a spread, a key that no later key overrides decides its field |
| Users.MergeLiteral | src/pages/Profile.jsx:58-59 | An object literal with distinct keys sets every field it names to the written value and changes nothing outside its field set |
| Users.MergeIdempotent | src/pages/Profile.jsx:58 | Sending the same partial update twice leaves the same user as sending it once |
| Users.Overlay | src/pages/Swap.jsx:35-39 | `{ ...defaults, ...currentUser }`: every field the user has wins, and the defaults fill only absent fields |
| Clock.DayStart | src/components/dashboard/ClaimButton.jsx:45 | The stored claim date is midnight UTC of the claim's day: at most the instant, less than a day before it, and a whole number of days |
| Claim.CanClaimIffCycleElapsed | src/components/dashboard/ClaimButton.jsx:11-17 | Eligibility holds with no stored date, and otherwise exactly when at least 86,400,000 ms have passed since the stored date |
| Claim.CooldownBoundary | src/components/dashboard/ClaimButton.jsx:15-16 | 23h59m59s after the stored date is too early, and exactly 24h is allowed |
| Claim.TimeUntilNextClaim | src/components/dashboard/ClaimButton.jsx:19-32 | No label without a date or once the cycle is over. Otherwise whole hours and minutes below 60 whose sum bounds the remaining wait to the minute, with hours at most 24 (at most 23 once time has passed) |
| Claim.FullCycleLabel | src/components/dashboard/ClaimButton.jsx:22-31 | At the instant of the stored date the label reads 24h 0m |
| Claim.CountdownIffCannotClaim | src/components/dashboard/ClaimButton.jsx:11-32 | The countdown is shown exactly when the button refuses to claim |
| Claim.DailyReward | src/components/dashboard/ClaimButton.jsx:39-41 | The reward is 100 plus 10 per referral, with no recorded referrals counting as 0 |
| Claim.DailyRewardExamples | src/components/dashboard/ClaimButton.jsx:39-41 | Zero or unknown referrals pay 100, and three referrals pay 130 |
| Claim.HandleClaim | src/components/dashboard/ClaimButton.jsx:34-46 | For the user the button is given: no change while a claim is in flight or when ineligible. Otherwise the balance (absent as 0) grows by the reward, the date becomes the claim's UTC day, and no other field moves |
| Claim.ClaimOnStore | src/components/dashboard/ClaimButton.jsx:43-46 | The store merges the claim's writes, computed from the page's copy, into the stored record: its balance becomes the copy's balance plus the reward, its date the claim's UTC day, and nothing else moves; when the copy is the stored record this is `HandleClaim` |
| Claim.NextClaimAtNextMidnight | src/components/dashboard/ClaimButton.jsx:11-17 | After a claim at t, claiming is blocked until the next UTC midnight and allowed from then on. That wait is positive and at most 24 hours |
| Claim.ClaimCreditsReward | src/components/dashboard/ClaimButton.jsx:39-46 | A successful claim raises the balance by exactly the reward, which is at least 100 unless the referral count is negative |
| Claim.ClaimsOneSecondApart | src/components/dashboard/ClaimButton.jsx:45 | As written, claims at 23:59:59 UTC and one second later both pay out |
| Claim.HandleClaimExact | src/components/dashboard/ClaimButton.jsx:34-46 | The corrected claim stores the instant itself. It has the same eligibility, reward and untouched fields |
| Claim.ExactClaimWaitsFullCycle | src/components/dashboard/ClaimButton.jsx:11-17 | With the instant stored, the next claim opens exactly 24h later and not a millisecond earlier |
| Progress.UpdateProgress | src/components/dashboard/ProgressBar.jsx:10-37 | Without a date, or once the cycle is over, the bar is full with no countdown. While waiting, progress is below 100 and a countdown is shown. Progress never exceeds 100 |
| Progress.ProgressIsElapsedShare | src/components/dashboard/ProgressBar.jsx:20-29 | While waiting, progress is the elapsed share of the 24-hour cycle, in percent |
| Progress.CountdownDecomposesRemaining | src/components/dashboard/ProgressBar.jsx:31-33 | The countdown splits the remaining milliseconds into hours, minutes below 60 and seconds below 60, losing less than a second |
| Progress.ReadyAgreesWithClaimButton | src/components/dashboard/ProgressBar.jsx:45 | The bar's "ready" flag holds exactly when the claim button allows a claim |
| Progress.CountdownAgreesWithButton | src/components/dashboard/ProgressBar.jsx:24-33 | The bar's countdown appears exactly when the button's label does, with the same hours and minutes |
| Dashboard.CodePrefix | src/pages/Dashboard.jsx:69 | The name part of a code is the first six non-whitespace characters of the name (all of them when fewer), each upper-cased; so it has no whitespace and no lower-case ASCII letter |
| Dashboard.GenerateReferralCode | src/pages/Dashboard.jsx:68-72 | A code is the name prefix followed by one to three digits that read back as the random number, with no leading zero |
| Dashboard.GeneratedCodeIsTruthy | src/pages/Dashboard.jsx:68-72 | A generated code is never empty |
| Strings.StripSpacesPiecewise | src/pages/Dashboard.jsx:69 | `replace(/\s+/g, '')` drops a single character exactly when it is whitespace, and strips a string part by part, so the non-whitespace characters stay in order |
| Dashboard.CodeIgnoresSpacing | src/pages/Dashboard.jsx:69 | Names that differ only in whitespace give the same code |
| Dashboard.DefaultCode | src/pages/Dashboard.jsx:42 | Settling the code fails exactly when a code must be generated and there is no name; a truthy stored code is kept, and a settled code is never empty |
| Dashboard.DefaultsSpread | src/pages/Dashboard.jsx:38-51 | `{ ...currentUser, ...userData }` sets the airdrop balance to the one to be shown, the counters and USDT balance to 0 when falsy, and the code to the settled one, and leaves every other field as stored |
| Dashboard.LoadUserData | src/pages/Dashboard.jsx:33-51 | Fails exactly without a code and a name. Otherwise the shown user has the defaulted balances (a stored 0 shows as 100) and a truthy code, and nothing else changes. The store receives it exactly when the code or either balance was undefined |
| Dashboard.ZeroBalanceShownAsStarting | src/pages/Dashboard.jsx:39-49 | A stored balance of 0 shows as 100 but is not written back when the other fields are present |
| Dashboard.LoadIsStable | src/pages/Dashboard.jsx:47-51 | Loading again from what the store holds writes nothing and shows the same user, whatever the new random number |
| Dashboard.ZeroBalanceClaimRegrantsStart | src/pages/Dashboard.jsx:39 | A stored balance of 0 stays 0 in the store while the page shows 100, and a claim from the dashboard then stores 100 plus the reward |
| Dashboard.LoadUserDataIntended | src/pages/Dashboard.jsx:38-51 | With 100 given only to a user without a balance, the page shows the airdrop and USDT balances the store holds, and a present balance is kept |
| Dashboard.IntendedClaimCreditsStoredBalance | src/components/dashboard/ClaimButton.jsx:43-46 | With the intended load, a claim from the dashboard adds exactly the reward to the stored balance; a stored 0 becomes the reward alone |
| SwapEngine.CalculateSwap | src/components/swap/SwapInterface.jsx:26-38 | Fee plus net equals gross. No amount gives zeros. Otherwise gross is 1/100 of the BONK, the fee is a tenth of gross, and net is 9/1000 of the BONK |
| SwapEngine.QuoteExample | src/components/swap/SwapInterface.jsx:15-38 | 1000 BONK quote 10 USDT: 1 goes to the fee and 9 to the user |
| SwapEngine.ValidateSwap | src/components/swap/SwapInterface.jsx:52-66 | Each message is shown exactly under its condition, in order: not a number, below 1000, above the balance (absent as 0). No wallet check |
| SwapEngine.SwapValidationExamples | src/components/swap/SwapInterface.jsx:52-66 | Both bounds are inclusive: 1000 and 5000 are accepted against balances of 1000 and 5000, 500 is refused as below the minimum, 2000 against a balance of 1000 as insufficient |
| SwapEngine.SwapEnabledIffAccepted | src/components/swap/SwapInterface.jsx:262 | The swap button is live exactly when no swap runs and 1000 ≤ amount ≤ balance |
| SwapEngine.SwapRecord | src/components/swap/SwapInterface.jsx:82-92 | The recorded swap is completed BONK→USDT, with the net received, the fee, and a net plus fee equal to the gross at the rate |
| SwapEngine.HandleSwap | src/components/swap/SwapInterface.jsx:68-114 | A refusal reports the validation message and changes nothing. Otherwise BONK drops by the amount, USDT rises by 9/1000 of it, the balance stays non-negative, only those two fields change, and the record is prepended |
| SwapEngine.SwapConservesValueLessFee | src/components/swap/SwapInterface.jsx:82-98 | Valued at the rate, an accepted swap loses exactly the fee |
| SwapEngine.SwapKeepsBalancesNonNegative | src/components/swap/SwapInterface.jsx:52-98 | A swap keeps non-negative balances non-negative |
| Withdraw.ValidateWithdrawal | src/components/swap/WithdrawInterface.jsx:23-41 | Each message is shown exactly under its condition, in order: not a number, below $5, above the USDT balance, then no connected wallet or an empty or absent address |
| Withdraw.WithdrawalValidationExamples | src/components/swap/WithdrawInterface.jsx:23-41 | $4 is below the minimum. A balance shortfall is reported before a missing wallet. $5 against a $5 balance with a wallet passes |
| Withdraw.WithdrawalRecord | src/components/swap/WithdrawInterface.jsx:60-70 | The record is a completed USDT→USDT withdrawal of the amount, to the user's address, with the given hash and no fee or rate |
| Withdraw.HandleWithdraw | src/components/swap/WithdrawInterface.jsx:43-93 | A refusal changes nothing. Otherwise USDT drops by the amount and stays non-negative, only that field changes, and exactly the `WithdrawalRecord` of the amount and hash, to the user's non-empty address, is prepended to the history |
| Wallet.FormatAddress | src/components/swap/WalletConnection.jsx:82-85 | Empty stays empty. An address of six or more characters becomes its first six, "...", and its last four. A shorter one overlaps itself |
| Wallet.SameAbbreviationIffSameEnds | src/components/swap/WalletConnection.jsx:82-85 | Two long addresses look the same exactly when their first six and last four characters agree |
| Wallet.TenCharacterAddressRecovered | src/components/swap/WalletConnection.jsx:82-85 | A ten-character address is recovered from its abbreviation |
| Wallet.ConnectWallet | src/components/swap/WalletConnection.jsx:18-56 | No extension and no account each fail. Otherwise the first account is stored as the address, marked connected, and nothing else changes |
| Wallet.DisconnectWallet | src/components/swap/WalletConnection.jsx:58-72 | The address becomes "" and the flag false, and nothing else changes |
| Wallet.ConnectThenDisconnect | src/components/swap/WalletConnection.jsx:18-72 | Disconnecting after a connection gives the same user as disconnecting directly |
| SwapPage.LoadSwapUser | src/pages/Swap.jsx:35-39 | USDT and the connected flag default to 0 and false only when absent, and nothing else changes |
| SwapPage.LoadKeepsStoredFields | src/pages/Swap.jsx:35-39 | A user with both fields present is taken as is, even when they are falsy |
| SwapPage.HandleWalletConnect | src/pages/Swap.jsx:58-64 | The local copy takes the address and counts as connected exactly when the address is non-empty |
| SwapPage.ConnectKeepsPageInStep | src/pages/Swap.jsx:35-64 | After a connection the store holds the merged wallet fields while the page's copy, loaded as `LoadSwapUser(stored)`, takes `handleWalletConnect`'s. The two agree on the address, and on the flag exactly when the account name is non-empty. With a non-empty name they are the same record exactly when the store already held a USDT balance, since the copy's default 0 is never written back |
| SwapPage.DisconnectKeepsPageInStep | src/pages/Swap.jsx:35-64 | After a disconnect the page's copy, loaded as `LoadSwapUser(stored)`, and the store agree on both wallet fields, and are the same record exactly when the store already held a USDT balance |
| SwapPage.LabelsTellKindsApart | src/pages/Swap.jsx:66-73 | `formatTransactionType`: swap and withdrawal labels never coincide; a swap label names both currencies in order, a withdrawal label its currency, and any other type is labelled by the type itself |
| Tasks.RewardsOnOffer | src/pages/Tasks.jsx:8-50 | The cards offer 20, 30 and 15 BONK, and "Total Available" is 65 |
| Tasks.FindUserTask | src/pages/Tasks.jsx:79-81 | The record found is the first of its type, hence the newest. None means no record has the type |
| Tasks.HandleStartTask | src/pages/Tasks.jsx:83-136 | Twitter and Telegram always add one pending record carrying the card's reward. WhatsApp adds one only for a non-empty number. Nothing else changes |
| Tasks.StartTwiceCreatesTwo | src/pages/Tasks.jsx:83-128 | Nothing prevents a second start: two pending records result and the newer one is looked at |
| Tasks.HandleVerifyTask | src/pages/Tasks.jsx:138-197 | With no record, nothing happens. Otherwise the newest record becomes completed (verified for WhatsApp) with a date, and the balance and earned total (absent as 0) both grow by the card's reward. The status is not checked |
| Tasks.VerifyTwiceCreditsTwice | src/pages/Tasks.jsx:142-188 | Two verifications with no button in between credit the reward twice |
| Tasks.CompletedCount | src/pages/Tasks.jsx:199-203 | The completed count never exceeds the number of records |
| Tasks.TalliesAreSums | src/pages/Tasks.jsx:199-209 | `getCompletedTasks` and `getTotalRewards` are sums over the records: a record adds 1 and its reward (missing as 0) exactly when completed or verified, and the tallies of two runs of records add up |
| Tasks.TalliesAfterUpdate | src/pages/Tasks.jsx:199-209 | Replacing one record moves the count and the earned total by exactly that record's change |
| Tasks.VerifyMovesTalliesWithLedger | src/pages/Tasks.jsx:138-209 | Verifying a pending record raises the count by 1, and both the page tally and the user's earned total by the reward |
| TaskCard.CardStatusFromNewestRecord | src/components/tasks/TaskCard.jsx:38-41 | The card shows "not_started" exactly when no record of its type exists, and otherwise the status of the record `getUserTask` finds; a newer record of the type decides the status, one of another type changes nothing |
| TaskCard.StatusBadge | src/components/tasks/TaskCard.jsx:43-70 | There is a badge exactly for the four known statuses, and the pending badge exactly for pending |
| TaskCard.ActionButton | src/components/tasks/TaskCard.jsx:72-119 | The button is inert exactly when done or busy. It verifies exactly when pending and not busy, and starts in every other case |
| TaskCard.NoteOnlyWhilePending | src/components/tasks/TaskCard.jsx:181 | Twitter and WhatsApp show their note exactly while pending, and Telegram never does |
| TaskCard.DifficultyDots | src/components/tasks/TaskCard.jsx:151-162 | No dots for difficulty 0. Otherwise three dots, the i-th lit exactly when i < difficulty |
| TaskCard.LitDotsClampDifficulty | src/components/tasks/TaskCard.jsx:151-162 | The number of lit dots is the difficulty clamped to 0..3 |
| TaskCard.Click | src/components/tasks/TaskCard.jsx:72-119 | A click does what its button shows: nothing, a start, or a verification |
| TaskCard.ClickCreditsAtMostOnce | src/components/tasks/TaskCard.jsx:75-100 | A click that credits the user found the task pending and leaves it done, and every later click on the card does nothing |
| TaskCard.RejectedTaskRestarts | src/components/tasks/TaskCard.jsx:102-118 | A rejected task can be started again, and the card then offers verification |
| Leaderboard.SortField | src/pages/Leaderboard.jsx:21 | The key is "-" and the name of the very field the tab's score reads (the score depends on nothing else), and it differs from the other tab's key |
| Leaderboard.Normalize | src/pages/Leaderboard.jsx:26-30 | Both totals become present (absent as 0) and nothing else changes |
| Leaderboard.NormalizeKeepsScores | src/pages/Leaderboard.jsx:26-30 | Normalising moves no user on either tab and is idempotent |
| Leaderboard.ActiveUsers | src/pages/Leaderboard.jsx:25-31 | The list holds only active, normalised users. Every active listed user appears, and nothing else does |
| Leaderboard.ActiveUsersKeepOrder | src/pages/Leaderboard.jsx:25-31 | The list is the store's answer filtered in place: one user maps to itself normalised exactly when active, and the list of two runs is the two lists in turn, so the store's order, ties included, is kept |
| Leaderboard.ActiveUsersKeepRanking | src/pages/Leaderboard.jsx:21-31 | If the store's answer is ranked on the tab's field, so is the page's list |
| Leaderboard.CurrentUserRank | src/pages/Leaderboard.jsx:59-63 | The rank is the 1-based position of the first entry with the user's e-mail, or none without a user or a match |
| Leaderboard.DecorationsMarkTopThree | src/pages/Leaderboard.jsx:41-57 | `getRankIcon` and `getRankBg` both single out exactly ranks 1-3, each with a look of its own |
| Leaderboard.Podium | src/pages/Leaderboard.jsx:165-205 | The podium appears exactly with three or more users. It holds exactly the top three, drawn second, first, third from left to right |
| Leaderboard.PodiumCentreLeads | src/pages/Leaderboard.jsx:165-205 | On a ranked list the centre of the podium has the top score |
| Pages.LastSegment | src/pages/index.jsx:34-40 | The page segment contains no '/' and no '?' |
| Pages.GetCurrentPage | src/pages/index.jsx:33-44 | The result is always a page name: Dashboard, or one matching the segment ignoring case |
| Pages.PageNamesDistinctIgnoringCase | src/pages/index.jsx:17-31 | No two page names differ only in case |
| Pages.RouteRoundTrip | src/pages/index.jsx:33-44 | A path ending in a page's name, in any ASCII case and under any prefix, selects that page |
| Pages.TrailingSlashIgnored | src/pages/index.jsx:34-36 | One trailing slash does not change the page |
| Pages.QueryIgnored | src/pages/index.jsx:38-40 | A query after the page's name does not change the page |
| Pages.UnknownSegmentShowsDashboard | src/pages/index.jsx:42-43 | A segment that names no page selects the Dashboard |
| Pages.RootShowsDashboard | src/pages/index.jsx:33-44 | "/" and "" select the Dashboard |
| Pages.DoubleSlashShowsDashboard | src/pages/index.jsx:34-43 | A path ending in "//" selects the Dashboard |
| Pages.OnlyLastSegmentMatters | src/pages/index.jsx:37 | Only the last segment decides the page |
| Referrals.GetReferralLink | src/pages/Referrals.jsx:46-49 | The link is empty exactly without a truthy code. Otherwise it is the origin, "?ref=", then the code |
| Referrals.ReferralLinkRoundTrip | src/pages/Referrals.jsx:46-49 | The code is read back from a link, so two links on one origin differ exactly when the codes do |
| Referrals.DashboardUserHasLink | src/pages/Referrals.jsx:31-49 | Once the dashboard has loaded a user, both the stored record (the one `User.me()` returns to the referrals page) and the dashboard's copy give a non-empty link |
| Referrals.CodeReadBackFromShareText | src/pages/Referrals.jsx:61-71 | The code stands right after the intro in both share texts and can be read back; a missing code reads "undefined"; two users with codes get the same text exactly when their codes agree |
| Referrals.ShareTextsAgree | src/pages/Referrals.jsx:61-71 | The Telegram text is the Twitter text followed by the link. Both start with the intro. Without a code they read "undefined" and carry no link |
| Profile.FormFromUser | src/pages/Profile.jsx:36-40 | Each form field is the user's value, or "" when absent |
| Profile.HandleInputChange | src/pages/Profile.jsx:48-53 | The edited field takes the value and the others keep theirs |
| Profile.InputChangeUndone | src/pages/Profile.jsx:48-53 | Typing the old value back restores the form |
| Profile.HandleSave | src/pages/Profile.jsx:55-65 | The three fields take the form's values, and nothing else changes, in particular not `wallet_connected` |
| Profile.SaveThenLoad | src/pages/Profile.jsx:32-65 | Reopening after a save shows the saved form, and saving it again changes nothing |
| Profile.LoadThenSaveOnlyFillsBlanks | src/pages/Profile.jsx:32-65 | Saving the untouched form of a user with all three fields changes nothing |
| Profile.ClearedAddressBlocksWithdrawal | src/pages/Profile.jsx:58 | Clearing the address in the profile makes every otherwise valid withdrawal fail for want of a wallet, while the user still counts as connected |
| Profile.WithdrawalGoesToTypedAddress | src/pages/Profile.jsx:58 | After saving an address, withdrawals are recorded to that typed address |

## Left out

- Store failures and partially applied writes are not modelled. Every `await` succeeds, and a try/catch only hides errors. The one exception is a missing name during initialisation (`Dashboard.LoadError`).
- Concurrency, timers and re-rendering are not modelled. Two tabs, the progress bar's one-second interval and the 3-second "claimed" flash are left out. The WhatsApp verification's 2-second delay is modelled as immediate, so the lost update it allows is not covered.
- IEEE-754 arithmetic is out: amounts are exact reals. Rounding, `toFixed` formatting and `Math.round` of the task percentage are left out.
- Amount text is taken as already classified (`Ledger.AmountInput`). The quirks of JavaScript's string-to-number coercion are left out, for example whitespace-only text passing `isNaN`.
- JSON `null` is modelled as an absent field. So for a stored `null` balance the model's `NeedsWriteBack` (a `None?` test) writes the defaults back, while the page's `=== undefined` test (Dashboard.jsx:47) does not.
- Case mapping covers ASCII letters only. The full Unicode `toUpperCase`/`toLowerCase` (for example the Kelvin sign) is not modelled.
- Strings are sequences of code points, not UTF-16 units, so `substring` and `slice` on astral characters may differ.
- The browser is a parameter:
  - `Math.random`, `window.open`, `prompt`, the clipboard and `window.ethereum`;
  - `encodeURIComponent`, so the share URLs and the Twitter callback address are taken already encoded.
- The store's own sorting and limiting is a given: `User.list` returning at most 50 users, and the newest-first order of `filter`. `Task.update` by id is modelled as an update of the record `getUserTask` found.
- Layout.jsx, StatsCard.jsx and base44Client.js are not part of this model. They hold navigation chrome, display cards and client set-up with no business rule.
- Display-only text, icons and colours are left out. This covers the "50 BONK per referral" copy, which no code pays, and the referral status colours.
- Claim.TimeUntilNextClaim: the hours bound is 24, not 23, at the very instant of the stored date, where the wait is a full cycle. `Claim.FullCycleLabel` states that case.
- Claim.HandleClaim: `canClaim` tests `hoursSinceClaim >= 24` (ClaimButton.jsx:15-16), so the cooldown reads as 24 hours of elapsed time. The claim stores only the calendar day, so the model follows the code and the difference is recorded under Findings. `Claim.NextClaimAtNextMidnight` states the resulting cooldown.

## Findings

| source | as written | input that shows it | evidently intended | confidence | as-written member | corrected member |
|---|---|---|---|---|---|---|
| src/components/dashboard/ClaimButton.jsx:45 | The claim stores `toISOString().split('T')[0]`, the UTC day. The 24-hour test then runs from that midnight | A claim at 23:59:59 UTC, then another at 00:00:00 UTC the next day: both pay out | The next claim opens 24 hours after the previous claim | medium, not executed | Claim.ClaimsOneSecondApart | Claim.HandleClaimExact, Claim.ExactClaimWaitsFullCycle |
| src/pages/Dashboard.jsx:39 | `airdrop_balance: currentUser.airdrop_balance \|\| 100` shows a stored 0 as 100 but, the balance being defined, does not write it back. The claim button gets the shown copy and stores its balance plus the reward | A user who swapped their whole balance (stored 0), with a code and a USDT balance, claims with no referrals: the store then holds 200 instead of 100 | 100 is the starting balance of a user who has none (the block is commented as initialising fields that are not set, and the write-back test on line 47 uses `=== undefined`), so the page shows the stored 0 and the claim stores 100 | medium, not executed | Dashboard.ZeroBalanceClaimRegrantsStart | Dashboard.LoadUserDataIntended, Dashboard.IntendedClaimCreditsStoredBalance |

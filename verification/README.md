# Xetral money path: a verified model

A Dafny model of the code a customer's money passes through before it reaches the
ledger, with proofs of what that code promises. `dafny verify dfyconfig.toml` checks all
of it.

| files | what they model |
|---|---|
| `Text`, `Decimal` | JavaScript strings (`trim`, `split`, `replace`, `padEnd`) and decimal numerals, with their laws |
| `AmountEntry`, `Keypad`, `Typed`, `Compare`, `Fee`, `Grouping` | `packages/client/src/amount-entry.ts`: every function, and the theorems about them; the Convert input of `fx.tsx` |
| `Loads` | `useLoad`: generations, cancellation, retries |
| `Ledger`, `Activity` | keyset paging under tab switches, against an append-only history |
| `Fx` | quotes in flight while the pair and the amount change |
| `Sending` | idempotency keys, at three endpoints, over a network that loses, delays and repeats |
| `SendFlow` | the five steps of the Send screen and every request they end in |
| `Admin` | warming the line and re-authenticating, for operations writes |
| `EnvList`, `Config`, `Phone`, `TestAccounts` | comma-separated settings, keyrings and their rotation, rates, phone numbers |
| `DayRuns`, `Announcements` | day headings over a paged list; the seen and told markers |

Protocols are step functions over a whole system -- screen, network and server -- and
theorems about them quantify over every sequence of events. Where the source updates
fields, a class does too, and each of its methods is proved to be that step.

## Where the code does less than it says

Each of these is kept as the code has it, with the condition under which the promise
holds and a family of runs that breaks it.

* **Bulk cleaning is not the keypad for currencies without decimals.** The comments
  have `typedAmount` and `pressKey` agree. For a currency with decimals they do, exactly
  up to twelve digits. Without decimals `12.5` is cleaned to `12` and keyed to `125`.
  `Typed.TypedIsKeyedWithoutDecimals` says exactly when they agree.
* **An amount that does not parse can cost something.** The comment in `feeOn` promises
  that it costs nothing. `1.20.3` is no amount at any scale and is charged as `1.20`.
  `Fee.CostsNothingExactly`, `Fee.NotADecimalIsCharged`.
* **A key can post twice.** The Send screen sends one key to three endpoints, and each
  keeps keys of its own (`apps/api/src/wallet/wallet.service.ts:749`,
  `apps/api/src/fx/fx.service.ts:807-816`, `apps/api/src/payouts/payout.service.ts:1752-1758`).
  A transfer whose answer was lost, retried in another currency, is posted again as a
  remittance. `Sending.RunPostsOnceExactly`, `Sending.TwoEndpointsPostTwice`.
* **The confirmation can name another currency or recipient than what moved.** A
  remittance or a payout retried after an edit is answered with the first posting's
  amount, which the dialog shows beside the new box's currency and name; a transfer is
  refused instead. `Sending.ConfirmationIsATap`, `Sending.RetrySaysWhatMovedExactly`.
* **Activity can lose rows.** An older page is appended if its tab is on screen, not if
  the rows it was asked below still are. A first page that replaces those rows while the
  older page is in flight leaves a gap. Leaving the tab and coming back does it, and so
  does a late first page of a cancelled load, which `useLoad` discards and
  `activity.tsx` does not. `Activity.StretchesExactly`, `Activity.LateFirstPageSkips`.
* **A payout can name another recipient's currency.** Saving a new recipient is
  answered late; if the amount step is by then open on somebody else, it stays mounted,
  keeps its currency and takes the new recipient. `SendFlow.OneCurrencyExactly`,
  `SendFlow.LateSaveSendsWrongCurrency`.
* **A bare national number that starts with the dialling code's digits is taken for an
  international one**, and a plus before a zero is believed. `Phone.BareNumberExactly`,
  `Phone.RefusedExactly`.
* **An announcement can be raised twice**: when polls overlap, when the newest time goes
  back, and when the marker cannot be written. `Announcements.PollCoversExactly`,
  `Announcements.RaisedAgainExactly`, `Announcements.OverlapRaisesTwice`,
  `Announcements.NewestGoingBackRaisesAgain`.

## Model

| member | source | states |
|---|---|---|
| Keypad.PressSimulates | packages/client/src/amount-entry.ts:42-67 | One key, on any string the box can hold: the string keeps its shape (one integer digit at least, no redundant zero, at most one point, at most the currency's decimals, twelve digits in all) and its minor units move as an integer machine moves: `10v + d*10^e` before the point, `v + d*10^(e-k-1)` after `k` decimals, unchanged when a limit is met |
| Keypad.KeypadSimulatesTill | packages/client/src/amount-entry.ts:42-67 | The same over every run of keys from an empty box, for every exponent |
| Keypad.KeypadKeepsForm | packages/client/src/amount-entry.ts:42-67 | With no exponent given, every run keeps the shape but for the bound on decimals |
| Keypad.TillDeterminesText | packages/client/src/amount-entry.ts:42-67 | The machine's state determines the string: no two boxes read alike and differ |
| Keypad.FigureKeepsValue | packages/client/src/amount-entry.ts:198-201 | On every non-empty box the figure drawn is a well-formed decimal worth exactly the box's minor units |
| Typed.TypedIsKeyedIffShort | packages/client/src/amount-entry.ts:42-84 | For a currency with decimals and any raw string, cleaning equals typing its digits and points on the keypad if and only if the cleaned amount has at most twelve digits |
| Typed.TypedIsKeyedWithoutDecimals | packages/client/src/amount-entry.ts:42-84 | For a currency without decimals, the exact condition: the integer part fits, and what follows a point has no digit, or no room, or is zero after zero |
| Typed.KeyedWithoutDecimals | packages/client/src/amount-entry.ts:42-67 | What the keypad makes of any typing without decimals: the first twelve significant digits, wherever the points stood |
| Typed.TypedIdempotent | packages/client/src/amount-entry.ts:78-84 | Cleaning twice is cleaning once, for every string and exponent |
| Compare.MinorForm | packages/client/src/amount-entry.ts:87-93 | `minorOf` answers exactly on decimals whose places the scale covers, and the answer is their digits times a power of ten |
| Compare.MinorIsValue | packages/client/src/amount-entry.ts:87-93 | Where it answers, it is the decimal's value in minor units |
| Compare.MinorScales | packages/client/src/amount-entry.ts:87-93 | A scale larger by `k` multiplies the answer by `10^k` |
| Compare.ExceedsIsExact | packages/client/src/amount-entry.ts:106-117 | A claim is made exactly when the balance is known and the scale covers both decimals, and it is that the amount is larger than what is held, nothing being held on a negative balance |
| Compare.ExceedsVersusComparison | packages/client/src/amount-entry.ts:106-117 | The claim is plain comparison of the two decimals except, exactly, for a zero amount against a negative balance |
| Compare.ExceedsAtEveryScale | packages/client/src/amount-entry.ts:106-117 | A claim made at one scale is the claim at every larger one |
| Compare.SignedBalance | packages/client/src/amount-entry.ts:106-117 | In plain characters: for every decimal `d` the scale covers, a balance of minus `d` is exceeded by any amount above zero, and a balance of `d` by any larger amount, and nothing else |
| Compare.NoBalanceNoClaim | packages/client/src/amount-entry.ts:106-115 | An unknown balance, or an amount or a balance that is no covered decimal once one leading minus is taken off, makes no claim |
| Compare.DecimalExactly | packages/client/src/amount-entry.ts:87-90 | What counts as a decimal: digits, and at most one point among them that does not come first |
| Compare.FigureExactly | packages/client/src/amount-entry.ts:198-201 | For every string: what is drawn is the amount without spaces around it and without a point at its end, if that is digits with at most one point inside, and otherwise `0` |
| Fee.FeePrintedExactly | packages/client/src/amount-entry.ts:154-186 | For every string, exponent and rate, zero and negative ones included, the fee text has exactly the currency's decimals and reads back as the fee on what the string is charged on |
| Fee.FeeIsCeiling | packages/client/src/amount-entry.ts:181-183 | That fee covers the rate with less than one minor unit to spare |
| Fee.FeeIsLeast | packages/client/src/amount-entry.ts:181-183 | No smaller whole number of minor units covers the rate |
| Fee.FeeMonotone | packages/client/src/amount-entry.ts:181-183 | A larger amount or a higher rate never costs less |
| Fee.FeeOfSplit | packages/client/src/amount-entry.ts:181-183 | Fees on the parts of any split sum to at least the fee on the whole, and to at most one minor unit more for each extra part |
| Fee.FeeWithinAmount | packages/client/src/amount-entry.ts:181-183 | At a rate of at most ten thousand basis points the fee is at most the amount |
| Fee.MajorTextReadsBack | packages/client/src/amount-entry.ts:184-186 | Printing minor units in major units and reading them back is the identity at every scale |
| Fee.TypedMinorTruncates | packages/client/src/amount-entry.ts:175-177 | On a decimal, what is charged on is its value with the decimals past the currency's own dropped |
| Fee.ChargedOn | packages/client/src/amount-entry.ts:170-178 | For every string, decimal or not: the fee is taken on the number named by what stands before the first point and as many characters of what stands before the second as the currency has decimals, if those are digits, and on nothing otherwise |
| Fee.CostsNothingExactly | packages/client/src/amount-entry.ts:170-178 | A string costs nothing if and only if those characters are not digits, or are all zeros; the comment promises it of every amount that does not parse |
| Fee.NotADecimalIsCharged | packages/client/src/amount-entry.ts:170-178 | Digits, a point, digits and then anything not a digit, as in `1.20.3`: no scale parses it, and it is charged as if the rest were not there |
| Fee.FeeShownMonotone | packages/client/src/amount-entry.ts:154-186 | The figure the screen shows grows with the amount and with the rate |
| Grouping.FoldBuildsGroups | packages/client/src/amount-entry.ts:132-139 | The reduce over reversed digits, from any point of its run, ends in the right-aligned groups of three |
| Grouping.DrawnGroups | packages/client/src/amount-entry.ts:132-139 | Cut at its commas, what is drawn is the integer part in groups of three, the first of one to three digits, and the decimals stand as typed |
| Grouping.GroupedExactly | packages/client/src/amount-entry.ts:132-139 | For every string: the first run of digits before the point in groups of three, and what stands between the first point and the second as it is |
| Grouping.FirstRunExactly | packages/client/src/amount-entry.ts:134 | That run starts at the first digit and ends before the next character that is none |
| Grouping.UngroupGrouped | packages/client/src/amount-entry.ts:132-139 | Taking out what is not a digit or a point gives back the amount |
| Grouping.TypedUndoesGrouping | packages/client/src/amount-entry.ts:78-84 | An amount built on the keypad survives being drawn and pasted back, for every exponent |
| Grouping.ConvertInputIsPlain | apps/mobile/app/fx.tsx:201-210 | Every edit, whatever was typed or pasted, leaves digits and at most one point |
| Grouping.ConvertInputExactly | apps/mobile/app/fx.tsx:201-210 | An edit keeps every digit typed, in order, and the first point where it was typed; later points go |
| Grouping.ConvertInputFixpoint | apps/mobile/app/fx.tsx:199-211 | The controlled input is stable: drawing what it holds and reading the drawing back changes nothing |
| Loads.LoadsSettleOnCurrent | apps/mobile/src/hooks.ts:71-120 | Over every interleaving, a hook that is not loading and shows no error holds the current generation's own answer, asked with the current inputs |
| Loads.DataIsTheLastAnswer | apps/mobile/src/hooks.ts:97-115 | Over every run, told from the events alone: the data is the value of the last answer that reached the generation of its moment while that waited, with the inputs of that moment, and there is none before the first |
| Loads.SettledShowsItsAnswer | apps/mobile/src/hooks.ts:97-115 | A hook that is not loading and shows no error shows the value its own generation was answered, with no reload and no change of inputs since |
| Loads.HookFollows | apps/mobile/src/hooks.ts:91-117 | Every generation waits, sleeps or is over as the events say -- asked with the inputs of its moment, tried again twice at most -- and the error shown is the current one's own |
| Loads.LoadingExactly | apps/mobile/src/hooks.ts:86-111 | The hook is loading exactly while the current generation waits or sleeps, and shows the failure that ended it |
| Loads.DataNeverGoesBack | apps/mobile/src/hooks.ts:91-117 | Over every interleaving an answer is replaced only by one of the same or a newer generation |
| Loads.CancelledChangesNothing | apps/mobile/src/hooks.ts:101-115 | Nothing a superseded generation does moves a field a screen reads |
| Loads.RetriesAreBounded | packages/client/src/retry.ts:19-33 | A generation's loop has at most two retries |
| Loads.UseLoad.Begin | apps/mobile/src/hooks.ts:91-117 | Starting a generation cancels the one before, clears the error, keeps the data and asks once |
| Loads.UseLoad.Render | apps/mobile/src/hooks.ts:91-117 | Changed inputs, and only changed inputs, start a generation |
| Loads.UseLoad.AskAgain | apps/mobile/src/hooks.ts:119 | A reload starts a generation on the same inputs |
| Loads.UseLoad.Succeed | apps/mobile/src/hooks.ts:101-109 | An answer is stored with its generation unless that was cancelled |
| Loads.UseLoad.Fail | apps/mobile/src/hooks.ts:103-109 | A network failure waits for another attempt while one is left; any other is shown unless its generation was cancelled |
| Loads.UseLoad.AwakeFrom | apps/mobile/src/hooks.ts:97-101 | A retry asks with the newest inputs, in whichever generation it runs |
| Ledger.HistoryIncreasing | packages/ledger/src/ledger-service.ts:471-487 | A tab's history keeps the order of posting ids |
| Ledger.HistoryGrows | packages/ledger/src/ledger-service.ts:471-487 | A longer log only adds newer rows to a history |
| Ledger.BelowRow | packages/ledger/src/ledger-service.ts:481-487 | The rows below a row's id are exactly the rows before it |
| Ledger.HistoryHasAll | packages/ledger/src/ledger-service.ts:471-487 | A history holds exactly the postings of the log that are of its currency and of its kinds, if any are named |
| Ledger.BelowExactly | packages/ledger/src/ledger-service.ts:481 | What is below a cursor is exactly the rows with lesser ids |
| Ledger.PageExactly | apps/api/src/wallet/wallet.service.ts:451-467 | A page is full or holds everything below its cursor, newest first, and names its last row as the next cursor exactly when it is full |
| Activity.SettledRowsAreOfTab | apps/mobile/app/activity.tsx:64-110 | Over every interleaving of tab switches, first pages, older pages, failures, retries and new postings, each row on a settled screen is of the selected tab's currency and of its kinds |
| Activity.SelectsLastTapped | apps/mobile/app/activity.tsx:53-72 | The selected tab is always the one last tapped |
| Activity.OlderPageIsStable | apps/mobile/app/activity.tsx:16-18 | The page below a row is the same however many newer postings arrived since |
| Activity.AppendExactly | apps/mobile/app/activity.tsx:92-99 | Appending the page below a row to a stretch of the history gives a stretch from the same top if and only if the row is the cursor, or the page brings nothing to a screen at the oldest posting |
| Activity.OlderAnswerExactly | apps/mobile/app/activity.tsx:92-99 | When an older page lands on a settled screen of its tab, the screen still shows its history from the first page's newest row if and only if the page follows on from the cursor there |
| Activity.StretchesExactly | apps/mobile/app/activity.tsx:64-110 | Over every run, on a history of any length: at every moment a settled screen shows its tab's history from the first page's newest row down, without a gap and with the cursor at the last row, if and only if every older page that lands on a settled screen of its tab follows on |
| Activity.CalmRunsShowStretches | apps/mobile/app/activity.tsx:64-110 | That is so in every run in which no first page replaces the rows under a pending older page of the same tab, however many postings arrive |
| Activity.StretchHasNoDuplicates | apps/mobile/app/activity.tsx:16-18 | Such a stretch holds no posting twice, newest first |
| Activity.LateFirstPageSkips | apps/mobile/app/activity.tsx:74-83 | For every page size, any two tabs and any history with a page of the first: a run after which a settled screen lacks a posting with the cursor already past it, though the tab was not left while the older page was in flight |
| Activity.AskingExactly | apps/mobile/app/activity.tsx:87-93 | An older page is asked for below the cursor and for the tab of the moment, and only on a settled screen with a cursor and nothing pending; it takes an earlier report away |
| Activity.OlderFailureIsReported | apps/mobile/app/activity.tsx:100-105 | An older page that failed is reported on its own tab and only there, leaves rows and cursor as they were and can be asked for again |
| Activity.FirstPageClearsReport | apps/mobile/app/activity.tsx:77-81 | A first page of the selected tab takes the report away |
| Activity.FirstFailureIsShown | apps/mobile/app/activity.tsx:74-83 | A first page that failed is tried again, twice, for the tab selected by then, and the last failure is shown instead of rows; a superseded load changes nothing |
| Activity.ActivityScreen.constructor | apps/mobile/app/activity.tsx:58-85 | A screen opens on its first load with no rows, no cursor and nothing in flight |
| Activity.ActivityScreen.Select | apps/mobile/app/activity.tsx:53-72 | Choosing a tab starts its load and leaves rows and cursor as they were |
| Activity.ActivityScreen.FirstPage | apps/mobile/app/activity.tsx:74-83 | A first page replaces rows and cursor when its tab is on screen, cancelled or not |
| Activity.ActivityScreen.LoadMore | apps/mobile/app/activity.tsx:87-93 | One older page at a time, below the cursor of the moment, for the tab of the moment |
| Activity.ActivityScreen.OlderPage | apps/mobile/app/activity.tsx:93-106 | An older page or its failure counts only for the tab on screen, and always ends the paging |
| Fx.KeyInjective | apps/mobile/app/fx.tsx:133 | The key names its pair and amount, whatever the amount holds, when no code holds a separator |
| Fx.DrawnIsForNow | apps/mobile/app/fx.tsx:134-153 | A quote on screen is the server's answer for exactly the pair and the amount on screen |
| Fx.ConvertsAsQuoted | apps/mobile/app/fx.tsx:332-354 | Over every interleaving of edits, timers and answers, each conversion sent carries as its least a figure the server quoted for the very pair and amount it sends |
| Fx.TypedQuotedConverted | apps/mobile/app/fx.tsx:133-153 | From any reachable state: what is typed is asked about, its answer is drawn as it was given, and one tap converts it for exactly that answer |
| Fx.TapExactly | apps/mobile/app/fx.tsx:328-354 | A tap with a quote drawn sends exactly one conversion, of what is on screen and for what was quoted; without one it asks for exactly one quote of what is on screen; while busy, with no amount or with one currency twice, it does nothing |
| Fx.AnswerIsDrawn | apps/mobile/app/fx.tsx:143-147 | An answer to a request that is still waited for, about what is on screen, is drawn as it was given |
| Fx.StaleAnswerIsDropped | apps/mobile/app/fx.tsx:145 | An answer the effect no longer waits for changes nothing drawn |
| Fx.TypingAsks | apps/mobile/app/fx.tsx:138-153 | Typing retires what was asked before, and is asked about once if it can be quoted and never if it cannot; by hand it drops the quote |
| Fx.AsksAboutNow | apps/mobile/app/fx.tsx:138-153 | Over every run, the timer and every live request of the effect stand for what is on screen |
| Fx.HeededUntilChanged | apps/mobile/app/fx.tsx:141-152 | A request waited for stays so until it is answered or fails, or the pair or the amount changes |
| Fx.ShowsWhatWasTyped | apps/mobile/app/fx.tsx:133 | What is on screen is the last edit, its amount emptied by each conversion that came back since |
| Fx.ConvertedOnce | apps/mobile/app/fx.tsx:348-353 | A conversion that came back leaves no amount, no quote and a tap that does nothing; a failed one leaves the quote to retry |
| Fx.FailureIsReported | apps/mobile/app/fx.tsx:146 | A failed quote is reported exactly when the effect still waits for it, and frees the button exactly when the button asked |
| Fx.FxScreen.Edit | apps/mobile/app/fx.tsx:133-153 | An edit retires the effect's quotes, restarts the timer for what can be quoted, and by hand drops the quote held |
| Fx.FxScreen.Timer | apps/mobile/app/fx.tsx:143-148 | The timer asks about the pair and amount it was started for |
| Fx.FxScreen.Answer | apps/mobile/app/fx.tsx:145 | An answer is held under the key it was asked with, unless its effect is no longer live |
| Fx.FxScreen.Fail | apps/mobile/app/fx.tsx:146 | A failure is shown only for a live effect |
| Fx.FxScreen.Press | apps/mobile/app/fx.tsx:328-347 | The one button asks without a quote, converts with one, and is inert while busy, empty or on one currency |
| Fx.FxScreen.Finish | apps/mobile/app/fx.tsx:348-353 | A conversion empties the amount and drops the quote; a failed one keeps both |
| Sending.EndpointIsDispatched | apps/mobile/app/transfer.tsx:1687-1726 | Which endpoint a payment goes to is what the Send flow dispatches: it follows from the recipient and the two currencies |
| Sending.KeysPerConfirmation | apps/mobile/src/hooks.ts:37-40 | Every run, over a network that loses, delays and repeats, with any edits and with forms left and mounted again: the keys that posted are at least the confirmations and at most one more for each form, and no key is confirmed twice |
| Sending.PostsOnceExactly | apps/mobile/app/transfer.tsx:1683-1726 | In every reachable state, whatever requests still arrive and in whatever order, each key posts once if and only if all taps under it went to one endpoint |
| Sending.RunPostsOnceExactly | apps/mobile/app/transfer.tsx:1672-1731 | After every run, each key posts once if and only if no tap took a used key to another endpoint |
| Sending.PostedOncePerConfirmation | apps/mobile/src/hooks.ts:28-40 | In every such run, entries posted are at least the confirmations and at most one more for each form |
| Sending.OneFormPostsOnceMore | apps/mobile/src/hooks.ts:28-40 | Within one mounted form such a run posts at most one entry more than was confirmed |
| Sending.TwoEndpointsPostTwice | apps/mobile/app/transfer.tsx:1531-1541 | For any two payments that go to different endpoints, as when the currency sent is changed between retries: one form posts both under one key and confirms neither |
| Sending.LostAnswerMeetsBound | apps/mobile/app/transfer.tsx:1672-1731 | A lost answer leaves exactly one entry more than was confirmed, under the key the next tap uses |
| Sending.TapSendsTheBox | apps/mobile/src/hooks.ts:142-155 | A tap sends what the box holds under the form's key, once, whatever is tapped while it waits |
| Sending.TapPostsAndConfirms | apps/mobile/app/transfer.tsx:1672-1731 | Answered under an unused key, from any reachable state: the payment is posted as it was tapped and confirmed, and the form is empty, idle and under a key no tap has used |
| Sending.TapReplaysAndConfirms | apps/mobile/app/transfer.tsx:1672-1731 | Answered under a used key: nothing is posted again and what was posted is confirmed |
| Sending.FailedTapCanBeRetried | apps/mobile/src/hooks.ts:149-154 | However it failed and whatever reached the server: the form is idle with the same key and box, and nothing was confirmed |
| Sending.RemountIsFresh | apps/mobile/src/hooks.ts:37-40 | A form mounted again is empty and idle under a key no tap has used, and the one left behind still waits |
| Sending.UnconfirmedIsHeld | apps/mobile/src/hooks.ts:28-40 | A key that posted, at whatever endpoint, was confirmed or is still held by some form |
| Sending.PostingsStand | apps/mobile/src/hooks.ts:28-40 | No later event changes a posting |
| Sending.ConfirmationIsATap | apps/mobile/app/transfer.tsx:1683-1730 | Every confirmation: its amount is its posting's, and the posting is what some tap under its key held; a confirmed transfer is the very payment tapped; otherwise the dialog says what moved if and only if the currency and the recipient are still the ones posted |
| Sending.EditedTransferIsRefused | apps/api/src/wallet/wallet.service.ts:876-892 | A transfer edited under a used key changes nothing and is never answered, however often it arrives |
| Sending.RetrySaysWhatMovedExactly | apps/api/src/fx/fx.service.ts:393-394 | For a remittance or a payout, whatever arrives and in whatever order, the dialog says what moved if and only if its key has posted this currency and recipient there, or has posted nothing there and no tap under it named others |
| Sending.SendForm.Tap | apps/mobile/src/hooks.ts:142-155 | A tap sends what the box holds under the form's key, and nothing while one is running |
| Sending.SendForm.Confirm | apps/mobile/app/transfer.tsx:1727-1731 | A confirmation takes a new key and empties the box |
| Sending.SendForm.Refuse | apps/mobile/src/hooks.ts:149-154 | A failure keeps the key and the box |
| SendFlow.AmountHasRecipient | apps/mobile/app/transfer.tsx:110-142 | In every reachable state the amount step has a recipient and a currency to send, and what a bank account or wallet receives is its own currency |
| SendFlow.RequestsNameRecipients | apps/mobile/app/transfer.tsx:1687-1726 | Over every run, each request that went out is of the amount typed and is the one its recipient calls for: a transfer of the currency it leaves and lands in, a remittance from the currency it leaves to the one it lands in, to that Xetral account; or a payout of the currency it leaves to that recipient's own destination, country, rail and branch |
| SendFlow.PressSendsOne | apps/mobile/app/transfer.tsx:1670-1731 | Pressing Send on the amount step sends one such request, for the recipient, the amount and the two currencies on screen; anywhere else, nothing |
| SendFlow.OnlyPressingSends | apps/mobile/app/transfer.tsx:1670-1731 | Nothing else sends anything |
| SendFlow.ShownIsDecided | apps/mobile/app/transfer.tsx:191-259 | Over every run: whom the amount step pays and what lands there is what the last saved recipient tapped, or the last save answered, said |
| SendFlow.SendsWhatWasPicked | apps/mobile/app/transfer.tsx:1378-1380 | Over every run: the amount step sends the currency last picked there since it opened, or the one it opened with -- the customer's own for a Xetral recipient, else what lands |
| SendFlow.SavesWereAsked | apps/mobile/app/transfer.tsx:1080-1099 | A save in flight was asked for on the details step, with what was found there and the currency chosen by then |
| SendFlow.ReceiveStep | apps/mobile/app/transfer.tsx:213-220 | The currency picked on its step is what lands until something else is picked or decided |
| SendFlow.HomeIsLastHeard | apps/mobile/app/transfer.tsx:129 | The customer's own currency is the one last heard of, the naira before that |
| SendFlow.BackUndoesForward | apps/mobile/app/transfer.tsx:131-142 | One step forward and back again is where one was; a new recipient starts with nobody chosen |
| SendFlow.BackLeadsOut | apps/mobile/app/transfer.tsx:137-142 | Back leads from anywhere to the list within four taps, and straight there from the details of a flow opened by a link |
| SendFlow.WhereItStarts | apps/mobile/app/transfer.tsx:109-114 | A flow starts on the list, or on the details when opened by a link; a payment leads back to the list; a save is answered once |
| SendFlow.OneCurrencyExactly | apps/mobile/app/transfer.tsx:110-280 | Every run -- forward, back, saved, new, by link: whenever Send is pressed a payout would carry its recipient's currency, if and only if every save answered on an open amount step brings a Xetral account or the currency being sent |
| SendFlow.PressingExactly | apps/mobile/app/transfer.tsx:1704-1726 | The payout that goes out is in its recipient's currency if and only if the amount step holds that currency |
| SendFlow.PayoutsHaveOneCurrency | apps/mobile/app/transfer.tsx:1704-1726 | In every such run from the start, each payout that went out named its recipient's account and that recipient's currency |
| SendFlow.OtherEventsKeepOneCurrency | apps/mobile/app/transfer.tsx:131-142 | No other event can break that |
| SendFlow.LateSaveExactly | apps/mobile/app/transfer.tsx:240-259 | A save answered on an open amount step keeps it if and only if it brings a Xetral account or the currency already being sent |
| SendFlow.LateSaveSendsWrongCurrency | apps/mobile/app/transfer.tsx:1080-1099 | For any recipient being saved and any other already saved, of different currencies: a run whose one payout goes to the first in the second's currency |
| SendFlow.OpenedIsGood | apps/mobile/app/transfer.tsx:109-120 | Opened from the menu or by a link, the flow starts well |
| SendFlow.SendScreen.Render | apps/mobile/app/transfer.tsx:1378-1380 | The amount step takes its currency when it is mounted and keeps it until it is not shown |
| SendFlow.SendScreen.New | apps/mobile/app/transfer.tsx:131-135 | A new recipient drops the chosen one and the draft |
| SendFlow.SendScreen.GoBack | apps/mobile/app/transfer.tsx:137-142 | Back goes one question back, to the list when the flow was opened by a link |
| SendFlow.SendScreen.Pick | apps/mobile/app/transfer.tsx:191-196 | A saved recipient goes straight to the amount, in its own currency |
| SendFlow.SendScreen.PickReceiveCurrency | apps/mobile/app/transfer.tsx:213-220 | The currency chosen is what the recipient receives |
| SendFlow.SendScreen.PickWay | apps/mobile/app/transfer.tsx:223-232 | The method chosen leads to the details |
| SendFlow.SendScreen.Submit | apps/mobile/app/transfer.tsx:1080-1099 | Going on asks for a save and stays; the answer comes when it comes |
| SendFlow.SendScreen.Send | apps/mobile/app/transfer.tsx:1687-1726 | The three-way dispatch sends what the step of the model sends, for the recipient and the currencies of the moment |
| SendFlow.SendScreen.OnReady | apps/mobile/app/transfer.tsx:240-259 | An answered save opens the amount step, with the currency chosen for a Xetral account and the destination's own otherwise |
| Admin.WritesActAtMostOnce | packages/client/src/admin.ts:2238-2267 | In every world a write is sent at most twice and acted on at most once, given that a 401 acts on nothing; and the reply tells which |
| Admin.QuietWriteIsProbed | packages/client/src/admin.ts:2238-2294 | On a line quiet for over twenty seconds the first write goes out right after a probe that connected and a token that worked, with only dropped probes before; and some write goes out if and only if a probe has connected with a working token right after |
| Admin.DeadLineSendsNothing | packages/client/src/admin.ts:2269-2294 | When three probes cannot connect, nothing else was sent and the line counts as unheard |
| Admin.ProbesOnlyWhenQuiet | packages/client/src/admin.ts:2239-2242 | The first thing sent is a probe exactly for a write on a line unheard for more than 20000 milliseconds |
| Admin.DeadLineTakes | packages/client/src/retry.ts:19-33 | The probe is tried three times, 700 and then 2000 milliseconds apart |
| Admin.HeardExactly | packages/client/src/admin.ts:2258-2267 | An answer marks the line as heard at that moment; a failure leaves a read's mark as it was, and a write's unless a probe connected |
| Admin.RequestIsPasses | packages/client/src/admin.ts:2238-2294 | Every request is one or two passes of probes, token, request and refresh, each sent if and only if the one before worked; the second only after a 401 and a refresh that worked, probing again exactly when the line is then quiet; and the reply is how the last one ended |
| Admin.AdminClient.WarmUp | packages/client/src/retry.ts:19-33 | The probe is repeated after each delay until one connects or the delays run out |
| Admin.AdminClient.RequestIt | packages/client/src/admin.ts:2238-2267 | The client sends what the passes above say, in that order |
| EnvList.EntriesOfWritten | apps/api/src/config.ts:634-636 | However a list is spaced and wherever it has empty parts, it reads as its entries in order |
| EnvList.EntriesAppend | apps/api/src/config.ts:634-636 | A comma and an entry at the end of the text add that entry at the end of the list |
| Config.ParseKeyring | apps/api/src/config.ts:629-668 | The loop that pushes keys accepts and refuses as the specification does, naming the first fault |
| Config.ParseEncryptionKeyring | apps/api/src/config.ts:694-738 | The same for keys of exactly 32 bytes, with both variables set or neither |
| Config.CollectExactly | apps/api/src/config.ts:634-658 | Entries are accepted if and only if each is a key and no version comes twice, and then they are exactly those keys in order |
| Config.RingExactly | apps/api/src/config.ts:629-668 | A keyring is accepted if and only if its keys are the entries, versions are pairwise distinct, and its current key is the one of the current version |
| Config.SessionKeysExactly | apps/api/src/config.ts:629-668 | In plain characters: the ring is accepted if and only if both variables are set and not blank, every entry is `v`, digits, a colon and a text that decodes to at least 32 bytes, versions are distinct, and the current one is among them |
| Config.EncryptionKeysExactly | apps/api/src/config.ts:694-738 | The same with exactly 32 bytes; none without either variable; refused with one of them |
| Config.RefusalIsNamed | apps/api/src/config.ts:603-609 | A variable that is missing is named, and so is a current version the list does not have |
| Config.FirstFault | apps/api/src/config.ts:634-658 | A list that is refused is refused for its first fault, and the fault is what the refusal says |
| Config.RingRoundTrip | apps/api/src/config.ts:621-668 | A printed keyring reads back as itself, whatever spaces and empty entries it is written with |
| Config.DeployedReads | apps/api/src/config.ts:624-628 | What one instance reads before and after the new key and the switch; a switch without the key does not start |
| Config.HealthyExactly | apps/api/src/config.ts:624-628 | With the key on some instances and the switch on some, every instance starts and accepts what every other signs if and only if nothing is switched or the key is everywhere |
| Config.RotationExactly | apps/api/src/config.ts:624-628 | Any sequence of deploys keeps that at every moment if and only if no instance is switched before all have the key, in any order within each deploy |
| Config.PrintedFleetRotates | apps/api/src/config.ts:621-668 | A fleet that holds one printed keyring, each instance spacing it as it likes, meets those conditions and so rotates safely exactly in two deploys |
| Config.RateExactly | apps/api/src/config.ts:672-681 | A set rate is taken if and only if it is a whole number from 0 to 10000; an unset one is 0 |
| Config.ConfiguredFeeWithinAmount | apps/api/src/config.ts:672-681 | No rate the configuration admits charges more than the amount, and an unset one charges nothing |
| Phone.SpellingsOfANumber | apps/api/src/phone.ts:37-79 | A text is stored as a given number if and only if it is one of its spellings: plus and code, code alone, one or more trunk zeros, or bare and not starting with the code |
| Phone.PlusExactly | apps/api/src/phone.ts:47-61 | A plus counts exactly when nothing but spaces comes before it |
| Phone.BareNumberExactly | apps/api/src/phone.ts:51-72 | A bare national number gets the code if and only if it does not start with the code's digits; if it does it is stored as itself, or refused when shorter than eight digits |
| Phone.StoredAsOneExactly | apps/api/src/phone.ts:1-36 | Two spellings are stored as one if and only if they are of one number |
| Phone.SeparatorsDoNotMatter | apps/api/src/phone.ts:37-79 | Spaces, dashes and brackets change nothing about how a number is stored unless they bring or take away its leading plus |
| Phone.SeparatorsInside | apps/api/src/phone.ts:37-79 | After any first character that is not a space they change nothing |
| Phone.E164Idempotent | apps/api/src/phone.ts:76-79 | On all inputs, an answer is in stored form and asking again, under any country's code, changes nothing |
| Phone.StoredIsFixed | apps/api/src/phone.ts:37-79 | Any text in stored form is read as itself under every code |
| Phone.RefusedExactly | apps/api/src/phone.ts:44-71 | The exact inputs refused, and that a stored number has a zero after its plus only if it was written so |
| TestAccounts.MappedExactly | apps/api/src/config.ts:1199-1212 | The list is accepted if and only if every entry is a phone, none dropped, in order |
| TestAccounts.FirstRefused | apps/api/src/config.ts:1203-1210 | Otherwise the first entry that is not a phone is named |
| TestAccounts.AccountPhoneExactly | apps/api/src/config.ts:1204-1205 | A phone is a plus or nothing, a digit from 1 to 9 and seven to fourteen more digits, once spaces and dashes are gone |
| TestAccounts.SpacingDoesNotCount | apps/api/src/config.ts:1204 | Spaces and dashes do not count, wherever they stand |
| TestAccounts.UnsetNamesNone | apps/api/src/config.ts:1191-1195 | No variable, or a blank one, names no phone |
| TestAccounts.AcceptedIsFixed | apps/api/src/config.ts:1203-1212 | Every accepted phone is what registration would store for it, under every country's code |
| TestAccounts.RegisteredAsListedExactly | apps/api/src/config.ts:1181-1187 | The entry's own text, given at registration, is stored as the accepted phone if and only if it starts with a plus or with the country's code |
| TestAccounts.PhonesRoundTrip | apps/api/src/config.ts:1191-1212 | Accepted phones joined with commas are accepted again as they are |
| DayRuns.GroupByDay | apps/mobile/src/tx-list.tsx:61-72 | The groups are the list in its own order, cut into non-empty runs of one day, neighbours of different days |
| DayRuns.RunsUnique | apps/mobile/src/tx-list.tsx:51-60 | No other cut of the list is such a cut |
| DayRuns.GroupedByPages | apps/mobile/src/tx-list.tsx:51-60 | Grouping a page and more below it is grouping each and merging at the seam: groups already drawn stay, the last may only grow |
| DayRuns.HeadingsAreChanges | apps/mobile/src/tx-list.tsx:57-59 | There is one heading for the first entry and one for every change of day, returns included |
| Announcements.NewestAt | packages/client/src/announcements.ts:25-32 | The loop answers the latest instant among items whose time can be read, and nothing exactly when none can |
| Announcements.HasUnread | packages/client/src/announcements.ts:17-22 | The bell lights exactly when some readable item is later than what was seen, or nothing readable was seen |
| Announcements.SeenExactly | packages/client/src/announcements.ts:17-32 | After a feed is seen, a later feed is unread if and only if it holds a readable item strictly newer than all of it |
| Announcements.SeenMarker.MarkSeen | apps/mobile/src/announcements-seen.ts:27-36 | The same of the stored marker; a feed nothing of which can be read marks nothing |
| Announcements.LatestCovers | apps/mobile/src/push.ts:139 | The reduce answers the time of some item of the feed that none of its items is later than, in the order of their text |
| Announcements.EachPollRaisesFew | apps/mobile/src/push.ts:141-154 | However polls overlap and whatever fails, a poll without a marker raises nothing, and any poll at most three, each later than the marker it read |
| Announcements.RaisesTheFirstThree | apps/mobile/src/push.ts:145-154 | What a poll raises is the first three of its feed's items later than the marker it read, in the feed's order, or as many as there are or can be raised |
| Announcements.LaterExactly | apps/mobile/src/push.ts:139 | Times compare as text: the first character that differs decides, and a text that goes on is later than one that stops |
| Announcements.EmptyFeedChangesNothing | apps/mobile/src/push.ts:140 | An empty feed changes nothing, the marker included |
| Announcements.PollRaisesNew | apps/mobile/src/push.ts:145-154 | While the marker covers what was raised, what a poll raises is strictly later than all of it |
| Announcements.NothingRaisedTwice | apps/mobile/src/push.ts:135-158 | Every run of polls that do not overlap, whose newest is never older than what was raised, or that have nothing to raise when they cannot write: no announcement is raised twice, even with its words changed |
| Announcements.ForwardIsSteady | apps/mobile/src/push.ts:135-158 | With a working store and feeds whose newest time never goes back, every run is of that kind, from the first poll on |
| Announcements.PollCoversExactly | apps/mobile/src/push.ts:139-154 | One poll leaves the marker covering everything raised if and only if it wrote a newest not older than any of it, or could not write and had read no marker, could raise none, or held nothing later than the marker |
| Announcements.RaisedAgainExactly | apps/mobile/src/push.ts:145 | Some feed can raise something again if and only if the marker does not cover everything raised |
| Announcements.OverlapRaisesTwice | apps/mobile/src/push.ts:141-154 | Two polls that both read before either wrote raise one announcement twice |
| Announcements.NewestGoingBackRaisesAgain | apps/mobile/src/push.ts:139-145 | After a feed whose newest went back, the next feed raises an old announcement again |
| Announcements.Handset.NotifyNew | apps/mobile/src/push.ts:135-158 | A poll moves the marker and raises notifications as the step of the model does, stopping where one fails |

## Left out

- Rendering, styling, navigation and error text: no behaviour to prove.
- The exponent of a currency (`exponentFor`), what makes an amount valid (`isValidAmount`), the day of an entry (`dayOf`), base64 decoding, `Number`, `Date.parse` and the store are parameters.
- JavaScript strings are sequences of 16-bit units and Dafny's are of characters; lengths and the text order of times agree on everything but characters outside the first plane.
- A React render and its effects happen in one step with the event that caused them, so a tap always acts on what was last rendered.
- Unmounting is modelled for the Send form only; the other screens stay mounted for the whole run.
- Tabs of the Activity screen are compared as currency and kinds, not through the string that joins them.
- The server is assumed to append postings in id order and to serve keyset pages of a history at some moment between request and answer, to post at most once per key at each of its three endpoints and replay afterwards (a transfer only if it is the same transfer), to act on nothing when it answers 401, and to return a saved recipient row with the destination and currency of its resolution. Fresh UUIDs are a counter.
- Announcements.NothingRaisedTwice: each feed is taken to name an announcement once and always at the same time, and writing the marker and raising are one step; a poll is `Begin` and `End`, with anything between them.
- Announcements.Handset.NotifyNew: keeps what was raised as a field where the source hands it to the operating system.
- SendFlow: what the details form resolves, removing a recipient, quotes, minimum amounts and the PIN gate the same request and are not modelled.
- Sending covers the Send screen's use of the key; other screens that use the same hooks follow the same pattern. Amounts are what the server reads of them, in minor units; a recipient is what the server resolves it to. A payout the rail returns later is still posted, and its refusal is one of the failures a tap can meet.
- Fx: recent trades, balances and the message after a conversion are not modelled.
- Admin: only the request plumbing; the endpoint wrappers add no behaviour.
- Config: only keyrings, basis points and test phones; the remaining settings are read field by field. Dropping a retired key from a keyring, and the check that email entries look like addresses, are not modelled.
- DayRuns.GroupByDay returns groups as values where the source pushes onto the last group's array, so aliasing of that array is not modelled.
- Ledger postings themselves, providers, sessions and the rate limiter: their behaviour enters only as the assumptions above.

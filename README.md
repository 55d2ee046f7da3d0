# Focus timer dapp: verified model of its logic

This project models the self-contained logic of a wallet-gated focus-timer
front end (`packages/dapp`). It covers three things:

- **The focus timer** (`FocusTimer.tsx`). The state machine is pure
  transition functions in `FocusTimerSpec`. The component itself is the class
  `FocusTimerComponent.FocusTimer`: its state cells `timeLeft`, `isActive`,
  `isWaitingForTx`, `isWaitingForFocus` and `message` are fields, and its
  handlers and effects are methods.
- **The `mm:ss` display** (`formatTime`), in `TimeFormat`.
- **Two read-only computations.** The connect button's address truncation
  (`formatAddress`) is in `AddressFormat`. The balance query of
  `useWatchAddress` is in `WatchAddress`: satoshi balance, token balance, and
  token UTXOs.

The model's timer state adds two things to the five cells:

- the `duration` prop;
- `txInFlight`, which says whether an `onStart()` promise is still
  outstanding.

The code after `await onStart()` is its own event,
`TxResolved(ok, hidden, confirmThrows)`. `ok` says whether the promise
resolved. `hidden` is `document.hidden` at that moment. `confirmThrows` says
whether `onTransactionConfirmed()` throws inside the same `try`. Page visibility is also a parameter. Timer ticks and the two effects
(duration and completion) are explicit steps. The environment may run the
effects at any point, so any order React could run them in is covered.

A callback such as `onStart`, `onTransactionConfirmed` or `onEnd` is not
called. The step returns it as a `Signal` instead.

`Run` applies any sequence of events a user and the runtime can produce.
`RunKeepsInv` proves that every reachable state keeps the invariant:

- at most one of `isActive`, `isWaitingForTx` and `isWaitingForFocus` holds;
- `timeLeft` is never negative;
- `isWaitingForTx` holds exactly while a transaction is outstanding.

`Countdown` runs seconds of a session, each a tick followed by the completion
effect. An active session with `n` seconds left ends after exactly `n` of
them, and `onEnd` is called once within those `n` seconds.

The source probably calls `onEnd` twice per session (nothing was executed to
confirm this):

- The completion clears `isActive`.
- That change re-runs both effects of the render in which `timeLeft` is still 0.
- The duration effect asks for `timeLeft := duration`.
- The countdown effect, whose dependencies include `isActive` (`:67`), still
  sees `timeLeft === 0` and calls `onEnd` again (`:60-63`).

The model shows that second call: `CompletionRerunCallsOnEndAgain`.

A pause always loses the remaining time. Pausing clears `isActive`, and the
duration effect that follows sets `timeLeft` back to the full `duration`
(`PauseThenEffectResets`).

`onTransactionConfirmed()` is called inside the same `try` as `await
onStart()` (`:76-98`). If it throws on a visible page, the `catch` runs after
the timer was made active. The result is an active timer showing
"Transaction failed!". `TxResolved` models this with a `confirmThrows`
parameter, and the invariant still holds.

Some behaviour of the code follows JavaScript semantics, and the model keeps
it:

- `utxo.token?.tokenId === tokenId` is true for a token-less UTXO when no
  `tokenId` is given (`undefined === undefined`). Such a UTXO adds
  `amount ?? 0n`, which is 0, so the token balance without a token id is 0
  (`NoTokenIdHasZeroTokenBalance`).
- `tokenId ? filter : utxos` tests truthiness. An empty-string token id
  therefore returns all UTXOs unfiltered (`Truthy`, `TokenUtxos`).
- The comments in `formatAddress` (`ConnectButton.tsx:41` and `:46`) say
  "prefix + 5 chars + ... + 3 chars". The code takes the first 13 characters,
  which is the same thing for an 8-character `bchtest:` prefix. The model
  follows the code.

## Model

| member | source | states |
|---|---|---|
| TimeFormat.Decimal | packages/dapp/src/components/FocusTimer.tsx:26 | `toString` of a non-negative integer is a non-empty digit string, one character long exactly below 10, with no leading zero (it starts with '0' only for 0) |
| TimeFormat.PadStart | packages/dapp/src/components/FocusTimer.tsx:26 | `padStart` keeps the string as its suffix, fills the front with the pad character, and gives length max(width, length) |
| TimeFormat.DecimalRoundTrip | packages/dapp/src/components/FocusTimer.tsx:26 | reading the decimal digits back gives the number |
| TimeFormat.PaddedValue | packages/dapp/src/components/FocusTimer.tsx:26 | zero-padding to two places keeps the number a digit string denoting the same value |
| TimeFormat.FormatTime | packages/dapp/src/components/FocusTimer.tsx:23-27 | the last two characters are digits denoting `seconds % 60` (00..59), preceded by ':'; the field before denotes `seconds / 60`; mins*60 + secs == seconds |
| TimeFormat.JoinedFields | packages/dapp/src/components/FocusTimer.tsx:26 | joining a minutes field and a two-digit seconds field with ':' puts each field where a display of those seconds has it |
| TimeFormat.ParseDisplayed | packages/dapp/src/components/FocusTimer.tsx:23-27 | any string with the fields of a display of `seconds` parses back to `seconds` |
| TimeFormat.DecimalLength | packages/dapp/src/components/FocusTimer.tsx:24-26 | a number has at most two digits exactly when it is below 100 |
| TimeFormat.FormatTimeLength | packages/dapp/src/components/FocusTimer.tsx:23-27 | the display is exactly five characters `MM:SS` if and only if seconds < 6000 |
| TimeFormat.FormatTimeRoundTrip | packages/dapp/src/components/FocusTimer.tsx:23-27 | parsing the `mm:ss` display gives back the number of seconds |
| FocusTimerSpec.Initial | packages/dapp/src/components/FocusTimer.tsx:16-21 | the mounted timer is idle, keeps the given `duration`, has `timeLeft == duration` and an empty message, and satisfies the invariant |
| FocusTimerSpec.Toggle | packages/dapp/src/components/FocusTimer.tsx:69-75 | from idle: waiting for the transaction, "Sending transaction...", `timeLeft` restored to `duration` if it was 0, `onStart` called; while active: only `isActive` cleared; while waiting: nothing changes; keeps the invariant |
| FocusTimerSpec.TxResolved | packages/dapp/src/components/FocusTimer.tsx:76-98 | clears `isWaitingForTx`; resolved on a visible page: active, `onTransactionConfirmed` called, "Timer started!", or "Transaction failed!" if that callback throws; hidden: waiting for focus with the confirmation message; rejected: both waits cleared, "Transaction failed!", activity unchanged; keeps the invariant when a transaction was outstanding |
| FocusTimerSpec.Failed | packages/dapp/src/components/FocusTimer.tsx:94-97 | the `catch` block clears both waits and shows "Transaction failed!", leaving activity and time as they were |
| FocusTimerSpec.VisibilityChanged | packages/dapp/src/components/FocusTimer.tsx:29-37 | changes the state, or calls back, if and only if the page is visible while waiting for focus; then it starts the timer with "Timer started!" and calls `onTransactionConfirmed`; keeps the invariant |
| FocusTimerSpec.Reset | packages/dapp/src/components/FocusTimer.tsx:105-111 | all three flags false, `timeLeft == duration`, empty message; keeps the invariant when no transaction is outstanding |
| FocusTimerSpec.Tick | packages/dapp/src/components/FocusTimer.tsx:56-59 | while active with time left, `timeLeft` drops by exactly 1 and nothing else changes; otherwise nothing changes; never goes below 0 |
| FocusTimerSpec.CompletionEffect | packages/dapp/src/components/FocusTimer.tsx:56-64 | at 0: inactive, "Focus session complete!", `onEnd` called, nothing else changed; otherwise no change |
| FocusTimerSpec.DurationEffect | packages/dapp/src/components/FocusTimer.tsx:46-51 | while not active, `timeLeft` becomes `duration`; while active nothing changes |
| FocusTimerSpec.SetDuration | packages/dapp/src/components/FocusTimer.tsx:9-16 | a new `duration` prop changes `duration` and nothing else |
| FocusTimerSpec.ButtonLabel | packages/dapp/src/components/FocusTimer.tsx:159-165 | "Confirming..." exactly while waiting for the transaction; "Focus to Start" exactly while waiting for focus and not for the transaction; "Start Focus" exactly when idle; "Pause" exactly while active (given mutual exclusion) |
| FocusTimerSpec.StepKeepsInv | packages/dapp/src/components/FocusTimer.tsx:29-111 | every event that can happen keeps the invariant |
| FocusTimerSpec.RunKeepsInv | packages/dapp/src/components/FocusTimer.tsx:17-21 | every state reachable by any event sequence keeps the invariant: at most one flag, `timeLeft >= 0`, waiting for the transaction exactly while one is outstanding |
| FocusTimerSpec.Reachable | packages/dapp/src/components/FocusTimer.tsx:16-111 | from mounting, every reachable state has at most one flag set and a non-negative `timeLeft` |
| FocusTimerSpec.CountdownRunning | packages/dapp/src/components/FocusTimer.tsx:56-59 | fewer seconds than remain only count down by that many, without calling `onEnd` |
| FocusTimerSpec.CountdownCompletes | packages/dapp/src/components/FocusTimer.tsx:56-64 | an active session with n >= 1 seconds left ends after exactly n seconds: time 0, inactive, "Focus session complete!", `onEnd` called once |
| FocusTimerSpec.CompletionRerunCallsOnEndAgain | packages/dapp/src/components/FocusTimer.tsx:56-67 | after a session completes, re-running the countdown effect before `timeLeft` is reset calls `onEnd` again |
| FocusTimerSpec.PauseThenEffectResets | packages/dapp/src/components/FocusTimer.tsx:47-51 | a pause followed by the duration effect puts `timeLeft` back to the full duration |
| FocusTimerSpec.StartThenConfirm | packages/dapp/src/components/FocusTimer.tsx:69-93 | from idle, a start request confirmed on a visible page starts the timer with the restored time |
| FocusTimerComponent.FocusTimer.constructor | packages/dapp/src/components/FocusTimer.tsx:16-21 | the fields start as the initial state and are valid |
| FocusTimerComponent.FocusTimer.ToggleTimer | packages/dapp/src/components/FocusTimer.tsx:69-75 | updates the fields in place to `Toggle` of the old state and returns its callback; keeps `Valid()` |
| FocusTimerComponent.FocusTimer.TxResolved | packages/dapp/src/components/FocusTimer.tsx:76-98 | updates the fields to `TxResolved` of the old state, including the `catch` after a throwing confirmation callback; only while a transaction is outstanding |
| FocusTimerComponent.FocusTimer.HandleVisibilityChange | packages/dapp/src/components/FocusTimer.tsx:29-37 | updates the fields to `VisibilityChanged` of the old state |
| FocusTimerComponent.FocusTimer.ResetTimer | packages/dapp/src/components/FocusTimer.tsx:105-111 | updates the fields to `Reset` of the old state |
| FocusTimerComponent.FocusTimer.Tick | packages/dapp/src/components/FocusTimer.tsx:56-59 | updates `timeLeft` to `Tick` of the old state |
| FocusTimerComponent.FocusTimer.CompletionEffect | packages/dapp/src/components/FocusTimer.tsx:60-64 | updates the fields to `CompletionEffect` of the old state and returns whether `onEnd` was called |
| FocusTimerComponent.FocusTimer.DurationEffect | packages/dapp/src/components/FocusTimer.tsx:47-51 | updates `timeLeft` to `DurationEffect` of the old state |
| FocusTimerComponent.FocusTimer.SetDuration | packages/dapp/src/components/FocusTimer.tsx:9-16 | records a new `duration` prop |
| FocusTimerComponent.FocusTimer.Display | packages/dapp/src/components/FocusTimer.tsx:126-128 | the shown time is five characters exactly below 6000 seconds and parses back to `timeLeft` |
| AddressFormat.FormatAddress | packages/dapp/src/components/ConnectButton.tsx:42-50 | empty gives empty; at most 13 characters: unchanged; longer: 19 characters with "..." at positions 13..15; never longer than 19 |
| AddressFormat.KeepsPrefixAndSuffix | packages/dapp/src/components/ConnectButton.tsx:44-49 | the display starts with the first min(13, n) characters and ends with the last min(3, n) characters of the address |
| AddressFormat.Idempotent | packages/dapp/src/components/ConnectButton.tsx:44-49 | formatting a displayed address again leaves it unchanged |
| AddressFormat.SameDisplay | packages/dapp/src/components/ConnectButton.tsx:49 | two long addresses look the same exactly when they share their first 13 and last 3 characters |
| WatchAddress.Matches | packages/dapp/src/hooks/useWatchAddress.tsx:48 | a UTXO with a token matches a token id exactly when it is its own; a token-less UTXO matches exactly when no token id is given; with no token id, exactly the token-less UTXOs match |
| WatchAddress.FilterMatching | packages/dapp/src/hooks/useWatchAddress.tsx:52 | the filter keeps only matching UTXOs of the input, and keeps each matching UTXO exactly as often as the input has it |
| WatchAddress.Balance | packages/dapp/src/hooks/useWatchAddress.tsx:38-41 | `balance` equals the satoshi sum over exactly the token-less UTXOs |
| WatchAddress.TokenBalance | packages/dapp/src/hooks/useWatchAddress.tsx:45-50 | `tokenBalance` equals the amount sum over exactly the UTXOs whose token id matches |
| WatchAddress.TokenUtxos | packages/dapp/src/hooks/useWatchAddress.tsx:51-53 | with a token id, the order-preserving subsequence of the UTXOs carrying it, each as often as in the input; without one (or with ""), the input itself |
| WatchAddress.Query | packages/dapp/src/hooks/useWatchAddress.tsx:22-54 | without a wallet the result is the initial data (empty lists, both balances 0); with one, `utxos` is what the wallet returned |
| WatchAddress.BalanceAppend | packages/dapp/src/hooks/useWatchAddress.tsx:38-41 | `balance` is additive over concatenation of UTXO lists |
| WatchAddress.TokenBalanceAppend | packages/dapp/src/hooks/useWatchAddress.tsx:45-50 | `tokenBalance` is additive over concatenation of UTXO lists |
| WatchAddress.NoTokenIdHasZeroTokenBalance | packages/dapp/src/hooks/useWatchAddress.tsx:45-50 | without a token id the token balance is 0 |
| WatchAddress.FilterIsSubsequence | packages/dapp/src/hooks/useWatchAddress.tsx:52 | the filter result is an order-preserving subsequence of the input |
| WatchAddress.TokenBalanceOverTokenUtxos | packages/dapp/src/hooks/useWatchAddress.tsx:45-53 | with a token id, `tokenBalance` equals the token amount held by `tokenUtxos` |
| WatchAddress.QueryConsistent | packages/dapp/src/hooks/useWatchAddress.tsx:37-54 | the query result's balances are the reference sums; without a token id, the token balance is 0 and `tokenUtxos` is `utxos` |

The folds `Balance` and `TokenBalance` (lines 38-41 and 45-50 of
`useWatchAddress.tsx`) are `reduce` from the left: each adds the last element
to the fold of the rest. Their contracts are proved against the reference
sums through the append lemmas `WithoutTokenAppend`, `FilterAppend`,
`SumSatoshisAppend` and `SumAmountsAppend`. `SumSatoshis`, `SumAmounts` and `WithoutToken` are
independent reference definitions. `Run`, `Apply`, `Enabled`, `Second` and
`Countdown` compose the timer's steps.

## Left out

- `formatBalance` (`ConnectButton.tsx:53-57`): it divides by 1e8 in floating point and formats by locale.
- `connectWallet`, `disconnectWallet` and the `loading` flag: these are asynchronous calls into the wallet connector and `alert`.
- Wallet construction, the network provider, react-query caching and the 10-second polling in `useWatchAddress`: external libraries. The UTXO list the wallet returns is a parameter of `Query`.
- The address subscription and its cleanup in `useWatchAddress`: external push notifications.
- `useWallet.ts` is not part of this model. It is a thin wrapper over the wallet library.
- Real time, `setInterval`, listener registration and React's render and effect scheduling. Ticks, visibility changes and effect runs are explicit steps in the model, so React's exact re-run behaviour is not captured. The model shows that one re-run of the countdown effect after completion calls `onEnd` again (`CompletionRerunCallsOnEndAgain`). It does not fix the total number of `onEnd` calls React produces.
- Callbacks that throw outside the `try` of `toggleTimer`:
  - If `onTransactionConfirmed()` throws inside `handleVisibilityChange`, its state updates have already been made, so the model's outcome is the same. The exception itself goes to the browser's event dispatch.
  - If `onEnd()` throws inside the countdown effect, React's error handling takes over the component. The model assumes `onEnd` returns.
- JSX, CSS classes and duration labels: presentation only. The button label is kept as `ButtonLabel`.
- FocusTimerComponent.FocusTimer.ResetTimer: requires that no transaction is outstanding. The source's reset button is enabled only while the timer is active, and under the invariant that implies no transaction is outstanding. The model therefore admits every reset the UI allows.
- FocusTimerComponent.FocusTimer.TxResolved: requires an outstanding `onStart()` promise, since the continuation exists only after a start request.
- The `duration` prop is modelled as a whole non-negative number (`nat`), though the source types it as any `number` (`FocusTimer.tsx:14`). The invariant `timeLeft >= 0`, and the fact that a session completes at all, depend on this restriction. With a fractional duration such as 0.5, a tick reaches -0.5 and never hits `timeLeft === 0` (`:56`, `:60`), so the session would never complete. The default `25 * 60` (`:9`) is just the value a caller passes to the constructor or to `Initial`.
- TimeFormat.FormatTime: takes non-negative whole seconds only. A negative or fractional input is never produced, because `timeLeft` is proved non-negative and `duration` is modelled as a natural number.
- AddressFormat.FormatAddress: works on Dafny characters. JavaScript measures lengths in UTF-16 code units, which is the same for the ASCII addresses the wallet produces.
- The `balance` number of `useWatchAddress` is a JavaScript double. The model uses exact integers, which agree while the sum stays below 2^53 satoshis; every real supply does.

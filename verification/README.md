# Live price feed of the Cypher terminal, in Dafny

This project models the live market-data path of a terminal-style crypto
dashboard and proves properties of it. The path has four parts:

- the shared WebSocket manager (`lib/websocketManager.ts`). It holds one
  connection to the exchange's all-tickers stream, reconnects with capped
  exponential backoff and fans every parsed frame out to a set of subscriber
  callbacks;
- the market store (`lib/store.ts`). It folds ticker batches into a price
  map keyed by symbol; the last ticker delivered wins. It also keeps the
  asset list, the active symbol and the search text;
- the per-component socket hook (`hooks/useWebSocket.ts`). It keeps a
  readyState (3 CLOSED, 1 OPEN), the last parsed message and the component's
  own socket. It also builds the exchange's stream URLs;
- the application shell's subscriber (`components/AppShell.tsx`). It passes
  array frames from the manager to the store.

Files:

- `wire.dfy` (module `Wire`): the ticker record, the parsed frame
  (`Array` of tickers or any other JSON value), and the browser transport
  states of a socket (`Connecting`, `Open`, `Closing`, `Closed`).
- `store.dfy` (module `Store`): `ApplyBatch`, the pure fold that specifies
  `updatePrices`. It comes with lemmas on last-wins, untouched symbols, key
  sets, whole-record replacement and batch concatenation. The class
  `MarketStore` has the store's fields and one method per setter.
- `manager.dfy` (module `Manager`): the backoff function and its lemmas, and
  the Set operations on subscribers (an insertion-ordered sequence without
  duplicates). The class `WebSocketManager` has one method per handler. Its
  `Valid()` invariant says four things. Only the current socket can be
  live. At most one reconnect timer is pending, and then the current socket
  is closed. `isConnected` is true exactly when the current socket is open.
  `reconnectAttempts` never exceeds 10.
- `hook.dfy` (module `Hook`): the class `WebSocketHook`, one object per
  mounted component, with its effect, cleanup and socket handlers.
- `streams.dfy` (module `StreamUrls`): ASCII lower-casing, `join`, a `split`
  partner for it, and the three stream URLs.
- `shell.dfy` (module `Shell`): the shell's callback, and one frame traced
  from the manager's `onmessage` to the price map.

The transport, the timer and `JSON.parse` are abstract events. Every handler
takes the index of the socket that raised it, and a message also takes a
flag saying whether the frame parsed. The handlers do not check which socket
raised the event, just as the source never detaches the handlers of a socket
it replaces. The event methods require only the transport states in which a
browser can deliver that event: `open` on a connecting socket, `message` on
an open one, `close` and `error` on one not yet closed. Pending
`setTimeout` calls are the list `pendingTimers` of their delays. Any pending
timer may fire next, because wall-clock time is not modelled. The
module-level singleton is an explicitly constructed `WebSocketManager`, and
its constructor connects.

The manager has no `stop()` operation, no per-stream reference counts, no
subscriptions that are replayed after a reconnect, no cache of the latest
frame and no degraded or failed state. When it reaches the retry cap it only
logs and schedules nothing; the model does the same.

Subscriber callbacks are identified by numbers. Any subscriber may throw,
and the set of those that throw on a frame is a parameter of `notify`.
Because the `try` around `JSON.parse` also wraps `notify`, the first throw
stops the fan-out, and the subscribers after it do not receive that frame.

## Model

| member | source | states |
|---|---|---|
| Wire.CloseRequested | lib/websocketManager.ts:18-20 | `close()` leaves no socket live; only a socket that was already closed counts as closed afterwards |
| Store.MarketStore.constructor | lib/store.ts:27-32 | initial state: no assets, empty price map, active symbol "bitcoin", ticker "btc", empty search query |
| Store.MarketStore.UpdatePrices | lib/store.ts:36-47 | the loop leaves the price map equal to the fold `ApplyBatch` of the old map over the batch; the other four fields are untouched |
| Store.MarketStore.SetAssets | lib/store.ts:34 | replaces the asset list only |
| Store.MarketStore.SetActiveSymbol | lib/store.ts:49 | sets `activeSymbol` and `activeTicker` together, nothing else |
| Store.MarketStore.SetSearchQuery | lib/store.ts:50 | replaces the search query only |
| Store.ApplyBatch | lib/store.ts:42-45 | writing a batch into the map keeps every old key and adds only symbols that occur in the batch |
| Store.ApplyBatchLastWins | lib/store.ts:43-45 | the ticker that comes last in the batch for its symbol is exactly that symbol's entry afterwards |
| Store.ApplyBatchUntouched | lib/store.ts:42 | a symbol not in the batch keeps its entry or stays absent; for an empty batch this covers every symbol, so the map is unchanged |
| Store.ApplyBatchKeys | lib/store.ts:42-45 | the key set after the update is the old key set plus the batch's symbols |
| Store.ApplyBatchWholeRecords | lib/store.ts:44 | each batch symbol's entry is one of the batch's own records, never a field-level merge with the old one |
| Store.ApplyBatchAppend | lib/store.ts:36-47 | two consecutive updates equal one update on the concatenated batch, so the last delivered ticker wins across batches too |
| Manager.Backoff | lib/websocketManager.ts:67 | the delay `min(1000 * 2^n, 30000)` always lies between 1000 and 30000 ms |
| Manager.Pow2Monotone | lib/websocketManager.ts:67 | `2^m <= 2^n` for `m <= n`, by induction |
| Manager.BackoffMonotone | lib/websocketManager.ts:67 | the delay is non-decreasing in the attempt number |
| Manager.BackoffDoubles | lib/websocketManager.ts:66-67 | each delay is twice the previous one until the 30 s cap |
| Manager.BackoffCapped | lib/websocketManager.ts:67 | from attempt 5 on the delay is the cap |
| Manager.BackoffSchedule | lib/websocketManager.ts:66-67 | the ten allowed attempts wait 1, 2, 4, 8, 16 s and then 30 s five times |
| Manager.SetAdd | lib/websocketManager.ts:87 | `Set.add`: adds the callback once; existing members keep their order; no duplicates arise |
| Manager.SetDelete | lib/websocketManager.ts:88 | `Set.delete`: exactly the given callback disappears; a missing callback changes nothing; no duplicates arise |
| Manager.SetDeleteAppend | lib/websocketManager.ts:88 | deleting from a concatenation deletes from each part |
| Manager.DisposeRemovesOnlyItsCallback | lib/websocketManager.ts:86-89 | the disposer removes its callback at whatever position and leaves the others in their order |
| Manager.SubscribeThenDispose | lib/websocketManager.ts:86-89 | subscribing a new callback and then calling its disposer restores the subscriber set exactly |
| Manager.DisposeTwiceIsNoOp | lib/websocketManager.ts:88 | calling a disposer a second time changes nothing |
| Manager.WebSocketManager.constructor | lib/websocketManager.ts:4-15 | the singleton starts with no subscribers, no attempts, not connected, and one connecting socket, because the constructor connects |
| Manager.WebSocketManager.Connect | lib/websocketManager.ts:17-29 | asks the current socket, if any, to close, then opens a new socket that becomes current; no other field changes |
| Manager.WebSocketManager.OnOpen | lib/websocketManager.ts:31-36 | connected, attempt counter reset to 0, the socket that opened is the current one, invariant kept |
| Manager.FirstThrow | lib/websocketManager.ts:92 | the position of the first subscriber, in insertion order, that throws; every subscriber before it does not throw |
| Manager.Deliveries | lib/websocketManager.ts:92 | one delivery of the data per callback, in the callbacks' order |
| Manager.NoThrowReachesAll | lib/websocketManager.ts:38-45 | when no subscriber throws, every subscriber receives the data exactly once, in insertion order, and no one else does |
| Manager.WebSocketManager.Notify | lib/websocketManager.ts:91-93 | the subscribers receive the data in insertion order up to and including the first that throws, and no one else; the throw is reported exactly when some subscriber threw; no callback receives it twice |
| Manager.WebSocketManager.OnMessage | lib/websocketManager.ts:38-45 | a parsed frame goes to the subscribers up to and including the first that throws, whose exception is caught as a parse error; an unparsable frame reaches none; no state changes |
| Manager.WebSocketManager.AttemptReconnect | lib/websocketManager.ts:60-74 | at or past 10 attempts no timer is scheduled; below that exactly one, with delay `Backoff(attempts)` |
| Manager.WebSocketManager.OnClose | lib/websocketManager.ts:47-52 | disconnected; the closing socket is the current one; exactly one reconnect is evaluated; nothing is scheduled once the cap is reached |
| Manager.WebSocketManager.OnError | lib/websocketManager.ts:54-57 | an error alone changes no state |
| Manager.WebSocketManager.TimerFire | lib/websocketManager.ts:70-73 | the attempt counter rises by exactly one and a new current socket is connecting; the old one was already closed; the counter stays at most 10 |
| Manager.WebSocketManager.Subscribe | lib/websocketManager.ts:86-89 | adds the callback with `Set.add` and returns the disposer for that callback |
| Manager.WebSocketManager.Dispose | lib/websocketManager.ts:88 | removes that callback with `Set.delete`; the connection state is untouched |
| Manager.RetriesUntilExhausted | lib/websocketManager.ts:60-74 | if no connection ever opens, the manager waits 1, 2, 4, 8, 16, 30, 30, 30, 30, 30 s, ends with 10 attempts and schedules nothing more |
| StreamUrls.LowerChar | hooks/useWebSocket.ts:40 | ASCII lower-casing maps A-Z to a-z, keeps every other character and never yields an upper-case letter |
| StreamUrls.Lower | hooks/useWebSocket.ts:40 | lower-casing keeps the length, works character by character and leaves no upper-case letter |
| StreamUrls.LowerIdempotent | hooks/useWebSocket.ts:40 | lower-casing twice is lower-casing once |
| StreamUrls.TickerStream | hooks/useWebSocket.ts:40 | the stream name is the symbol lower-cased character by character, followed by `@ticker` |
| StreamUrls.TickerUrl | hooks/useWebSocket.ts:40-41 | the url is the single-stream base, then the lower-cased symbol, then `@ticker` |
| StreamUrls.AggTradeUrl | hooks/useWebSocket.ts:46-47 | the url is the single-stream base, then the lower-cased symbol, then `@aggTrade` |
| StreamUrls.Join | hooks/useWebSocket.ts:53 | the length of a join is the parts' total length plus one separator between each neighbouring pair; the first part starts the result |
| StreamUrls.MultiTickerUrl | hooks/useWebSocket.ts:53-54 | the url starts with the combined-stream base; no symbols leave the `streams=` value empty; one symbol gives its ticker stream alone |
| StreamUrls.TickerStreams | hooks/useWebSocket.ts:53 | one `<lower-cased symbol>@ticker` stream per symbol, in input order |
| StreamUrls.SplitJoin | hooks/useWebSocket.ts:53 | splitting a `join('/')` of separator-free parts gives back the parts |
| StreamUrls.JoinSeparators | hooks/useWebSocket.ts:53 | n separator-free parts are joined with n - 1 separators |
| StreamUrls.TickerStreamsSeparatorFree | hooks/useWebSocket.ts:53 | stream names of symbols without '/' contain no '/' |
| StreamUrls.MultiTickerUrlStreams | hooks/useWebSocket.ts:51-56 | the combined url's `streams=` value splits into the symbols' ticker streams in order, with n - 1 separators; an empty list gives an empty value |
| StreamUrls.TickerUrlSameIff | hooks/useWebSocket.ts:39-43 | two symbols get the same ticker url if and only if they agree up to ASCII case |
| StreamUrls.AggTradeUrlSameIff | hooks/useWebSocket.ts:45-49 | two symbols get the same aggregate-trade url if and only if they agree up to ASCII case |
| StreamUrls.TickerAndAggTradeUrlsDiffer | hooks/useWebSocket.ts:39-49 | a ticker url is never an aggregate-trade url |
| Hook.AfterCleanup | hooks/useWebSocket.ts:31-33 | closing the previous run's socket leaves it not live and every other socket as it was |
| Hook.WebSocketHook.constructor | hooks/useWebSocket.ts:5-15 | mount: readyState 3 and no message; a null or empty url opens no socket; any other url opens exactly one connecting socket, held in the ref |
| Hook.WebSocketHook.RunCleanup | hooks/useWebSocket.ts:31-33 | the cleanup closes the socket its effect run opened and nothing else |
| Hook.WebSocketHook.RunEffect | hooks/useWebSocket.ts:10-14 | a null or empty url (both falsy) does nothing; otherwise one new connecting socket for that url goes into the ref and the cleanup |
| Hook.WebSocketHook.Rerender | hooks/useWebSocket.ts:10-34 | the same url changes nothing; a new url closes the previous run's socket, and a non-empty new url appends one connecting socket that becomes the ref; afterwards only the current url's socket can be live; readyState and the last message are not reset |
| Hook.WebSocketHook.Unmount | hooks/useWebSocket.ts:31-33 | after unmount no socket of the component is live; only the previous run's socket changes state |
| Hook.WebSocketHook.OnOpen | hooks/useWebSocket.ts:16 | readyState becomes 1; only the current socket can open |
| Hook.WebSocketHook.OnClose | hooks/useWebSocket.ts:17 | readyState becomes 3 whichever socket closed, current or stale, while mounted; only that socket's transport state changes besides |
| Hook.WebSocketHook.OnError | hooks/useWebSocket.ts:18-21 | readyState becomes 3 while mounted; nothing else changes |
| Hook.WebSocketHook.OnMessage | hooks/useWebSocket.ts:22-29 | a parsed frame replaces the last message; a parse failure leaves it as it was |
| Hook.StaleSocketScenario | hooks/useWebSocket.ts:13-17 | after a url change readyState still says OPEN while the new socket only connects; a late close of the old socket sets CLOSED while the new socket is open |
| Shell.ShellCallback | components/AppShell.tsx:11-15 | an array frame is folded into the price map; any other frame leaves the store as it was |
| Shell.DeliverFrame | components/AppShell.tsx:10-17 | one frame moves the price map by one fold exactly when it parsed, is an array and the fan-out reaches the shell before any other subscriber throws; otherwise the map is unchanged; other fields never change |

## Left out

- Logging (`console.log`/`console.error`) is left out because it has no effect on state.
- The heartbeat (`startHeartbeat`, `stopHeartbeat`, `pingInterval`) is left out. `pingInterval` is never assigned, so both methods do nothing.
- The `streams` set and the `url` field of the manager are left out because the code never reads them; `connect` always opens the all-tickers stream.
- `JSON.parse` is replaced by a parse-success flag and an already-parsed `Payload`. An array frame is assumed to hold ticker-shaped objects; what the store does with other array elements is not modelled.
- Timing is not modelled: no clock and no timer ordering. The delays are recorded, and any pending timer may fire next.
- What subscriber callbacks do is not modelled, apart from the shell's and apart from whether they throw. A callback that subscribes or unsubscribes while `notify` is iterating is not modelled either.
- Zustand's subscription and re-render machinery, and React's effect scheduling and state batching, are not modelled. Store setters and hook state updates take effect at once. The hook's effect runs at the moment of the render whose url changed.
- `Asset` keeps only its string fields. Its floating-point fields are not used by the feed.
- StreamUrls.Lower: models ASCII lower-casing only; JavaScript's `toLowerCase` also lower-cases non-ASCII letters.
- View components, REST clients, chart maths (SMA, EMA, percent change), the random order-book depth, configuration and styling are not part of this model.

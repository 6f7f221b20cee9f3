# binance-ws order-book synchronisation, in Dafny

This project models the order-book synchronisation engine of the
`binance-ws` client (`lib/binance.js`). The client keeps one order book per
subscribed asset. Each book has a `lastUpdateId`, a bid ladder, an ask
ladder and a `lastUpdate` time. The books are built from two sources:

- an HTTP depth snapshot;
- a stream of depth diffs over a WebSocket.

Diffs that arrive before the snapshot are queued in a per-asset FIFO
buffer. Once the snapshot is installed, a drain loop pops one buffered item
per tick:

- a diff whose final id `u` is not newer than the book's `lastUpdateId` is
  dropped;
- any other diff is applied by upserting its `(price, qty)` deltas into
  the ladders and re-sorting them (bids descending, asks ascending);
- a kill sentinel, queued when an UNSUBSCRIBE is confirmed, removes both the
  buffer and the book.

Control commands (SUBSCRIBE, UNSUBSCRIBE, LIST_SUBSCRIPTIONS) are recorded
under their request id until the server confirms them.

The modules follow the structure of the program:

- `Symbols`: symbol normalisation (`toLowerCase`) and stream names.
- `Ladder`: one side of a book. The functions `IndexOf`, `Upsert`,
  `ApplyAll`, `Insert` and `Sort` say what `_.findIndex`, `_process` and
  `_.orderBy` compute. The methods `FindIndex`, `Process`, `ProcessAll`,
  `InsertSorted` and `SortLadder` are the loops, proved against those
  functions.
- `OrderBook`: the book as a value (`BookState`), the diff rule `ApplyDiff`,
  and the class `Book`, which the client mutates in place.
- `Sync`: the state of every asset as values, i.e. the books and the
  buffers. It has one function per step of the client and the ordering
  theorem for the kill sentinel.
- `Binance`: the class `Engine`. It holds the three dictionaries
  `orderBook`, `buffer` and `storage` as maps, and one method per callback
  of the client. Each state-changing method states its effect on `Core()`,
  the engine's state as a `Sync.State` value, through the matching `Sync`
  function.

Asynchrony becomes explicit steps:

- a snapshot arrival is a call of `OnSnapshot`;
- each tick of the drain loop is a call of `DrainStep`, whose result says
  whether the source schedules another tick;
- an inbound message is a call of `OnMessage`;
- the end of a SUBSCRIBE's snapshot fetches is a call of `SettleSubscribe`.

Prices and quantities are integers. Times and request ids are parameters.

Where the intended design of the client and its code differ, the model follows the
code:

- An absent price is inserted only when its quantity is strictly positive
  (`q > 0`, lib/binance.js:266-267).
- A present price takes any new quantity, including a negative one. It is
  removed only when the quantity is zero (lib/binance.js:270-273).
- `updateBook` creates an empty book with `lastUpdateId` 0 when the asset
  has none (lib/binance.js:238). So a diff is never dropped for lack of a
  book.
- The event table holds both `depthUpdate` and `updateBook`
  (lib/binance.js:14-17). An inbound event named `updateBook` is therefore
  applied at once, without going through the buffer.
- `unsubscribe` sends nothing for an asset that has no book
  (lib/binance.js:85-87). So an UNSUBSCRIBE cannot be issued while the
  asset is still waiting for its snapshot.

## Model

| member | source | states |
|---|---|---|
| Symbols.SameKeyIffEqualIgnoringCase | lib/binance.js:71-72 | two symbols get the same dictionary key exactly when they differ only in the case of their letters |
| Symbols.SameStreamIffSameKey | lib/binance.js:76-78 | two symbols name the same diff stream exactly when they have the same lower-cased key |
| Symbols.StreamOfKey | lib/binance.js:76-78 | the stream name built from the lower-cased key is the stream name of the symbol as given |
| Ladder.IndexOf | lib/binance.js:263 | the index is -1 exactly when no level has the price; otherwise it is the first level with that price |
| Ladder.FindIndex | lib/binance.js:263 | the scanning loop returns `IndexOf`: -1 exactly when the price is absent |
| Ladder.Process | lib/binance.js:261-275 | the in-place edit of one delta yields `Upsert` of the list |
| Ladder.ProcessAll | lib/binance.js:254-255 | applying the deltas one after another in a loop yields `ApplyAll` |
| Ladder.InsertSorted | lib/binance.js:257-258 | the scan for the insertion point yields the stable insertion `Insert` |
| Ladder.SortLadder | lib/binance.js:257-258 | re-ordering yields a list sorted for its side (bids non-increasing, asks non-decreasing) that is a permutation of the input, namely `Sort` |
| Ladder.UpsertLevels | lib/binance.js:262-275 | on a list with unique prices, an upsert keeps prices unique and keeps every other price's level. At the delta's price it holds exactly the delta when the quantity is non-zero and either positive or replacing an existing level; otherwise it holds nothing there (append if absent and > 0, overwrite if present, remove on zero) |
| Ladder.RemoveAtLevels | lib/binance.js:273 | `_.pullAt` at one index of a list with unique prices removes exactly that price's level and keeps the rest unique |
| Ladder.OverwriteAtLevels | lib/binance.js:270 | overwriting the quantity at one index replaces exactly that level and keeps prices unique |
| Ladder.UpsertKeepsNoZero | lib/binance.js:265-273 | no upsert stores a zero quantity |
| Ladder.UpsertKeepsPositive | lib/binance.js:265-271 | with a non-negative delta, all stored quantities stay positive |
| Ladder.ApplyAllKeepsUniqueNoZero | lib/binance.js:254-255 | any sequence of deltas keeps prices unique and quantities non-zero |
| Ladder.ApplyAllKeepsPositive | lib/binance.js:254-255 | any sequence of non-negative deltas keeps every quantity positive |
| Ladder.InsertPermutes | lib/binance.js:257-258 | insertion adds exactly the one level (multiset) |
| Ladder.InsertSorts | lib/binance.js:257-258 | inserting into a sorted ladder keeps it sorted for its side |
| Ladder.SortSortsAndPermutes | lib/binance.js:257-258 | the re-ordering is sorted for its side and a permutation of its input |
| Ladder.SortKeepsLevels | lib/binance.js:257-258 | sorting keeps exactly the same levels and preserves unique prices, non-zero and positive quantities |
| Ladder.SortedIsCanonical | lib/binance.js:257-258 | two sorted ladders with unique prices and the same levels are equal, so the order of a uniquely priced ladder is determined by its contents |
| OrderBook.ApplyDiffEffect | lib/binance.js:240-248 | a stale diff (`u <= lastUpdateId`) changes nothing. Otherwise `lastUpdateId` strictly increases to `u`, the time is stamped, and each ladder is sorted for its side and a permutation of the upserted list |
| OrderBook.ApplyDiffKeepsWellFormed | lib/binance.js:245-258 | a book with unique, non-zero, sorted ladders stays so after any diff |
| OrderBook.ApplyDiffKeepsPositive | lib/binance.js:262-275 | with non-negative deltas, every quantity stays positive |
| OrderBook.LastUpdateIdIsHighest | lib/binance.js:241-247 | after any sequence of diffs, each applied at its own time, `lastUpdateId` is the highest of its start and their final ids, so it never decreases |
| OrderBook.ApplyDiffsKeepsInvariants | lib/binance.js:235-258 | any sequence of diffs keeps a well-formed book well-formed, and keeps it positive when every delta is non-negative |
| OrderBook.Book.constructor | lib/binance.js:175-176 | the new book holds exactly the given contents |
| OrderBook.Book.UpdateOrderBook | lib/binance.js:253-258 | each ladder becomes `Sort` of `ApplyAll` of the old ladder for its side; `lastUpdateId` and `lastUpdate` are unchanged |
| OrderBook.Book.Update | lib/binance.js:240-247 | the book becomes `ApplyDiff` of its old contents; the result says whether the diff was newer than the book |
| Sync.DrainStepEffect | lib/binance.js:195-209 | a drain step on a non-empty buffer removes exactly its front item. A kill removes that asset's buffer and book and nothing else. A diff goes to that asset's book, which is unchanged when the diff is stale |
| Sync.DrainIdleEffect | lib/binance.js:190-194 | a drain step on an empty buffer changes nothing. On an absent buffer it only creates an empty one. Either way it reschedules and notifies nothing |
| Sync.EnqueuedEffect | lib/binance.js:229-232 | queueing puts the item at the end of that key's buffer, behind everything already there (creating an empty buffer first); other buffers and all books are unchanged |
| Sync.OnlyKillRemovesBook | lib/binance.js:197-202 | a book disappears only when a drain step of its own asset consumes a kill sentinel |
| Sync.SnapshotSplicesBufferedDiffs | lib/binance.js:173-247 | diffs ending at 5 and 8 are buffered, then a snapshot at id 6 is installed: the first drain step skips the diff ending at 5 without notifying, the second applies the one ending at 8 and notifies, leaving the book at id 8 and the buffer empty |
| Sync.StepsKeepBuffersKeyed | lib/binance.js:226-233 | every step keeps each buffered diff in the buffer of its own lower-cased symbol |
| Sync.TouchMoves | lib/binance.js:235-251 | applying a diff or installing a snapshot leaves the buffers alone and removes no book |
| Sync.StepTowardsKill | lib/binance.js:188-212 | with a kill queued behind some items, one step consumes at most the next of them, or, once all are consumed, the kill, together with the book |
| Sync.KillHonouredInOrder | lib/binance.js:188-212 | along any run of steps, the drain steps consume the items queued before a kill in order, and the book stays. The buffer and book go away only after exactly those items and then the kill were consumed |
| Binance.StreamsDistinct | lib/binance.js:38-41 | distinct lower-cased keys have distinct stream names, so the bulk SUBSCRIBE names no stream twice |
| Binance.RespondEffect | lib/binance.js:136-163 | an unknown id changes nothing. A SUBSCRIBE stays pending with only its response recorded, changes no book or buffer and asks for one snapshot fetch per asset. An UNSUBSCRIBE puts the kill behind everything queued for its asset, is removed, and fetches and delivers nothing. A LIST_SUBSCRIPTIONS is removed and its confirmation delivered exactly when it has a callback. Only a SUBSCRIBE starts fetches and only a LIST_SUBSCRIPTIONS delivers. A repeated non-SUBSCRIBE confirmation is ignored |
| Binance.Engine.constructor | lib/binance.js:29-34 | the engine starts with no books, buffers or pending requests, not ready |
| Binance.Engine.SendMessage | lib/binance.js:216-224 | the request is recorded under its id (a repeated id overwrites the entry) and appended to the sent commands; nothing else changes |
| Binance.Engine.Subscribe | lib/binance.js:68-79 | nothing when the lower-cased asset has a book; otherwise one SUBSCRIBE for its stream is recorded and sent |
| Binance.Engine.Unsubscribe | lib/binance.js:81-92 | nothing when the lower-cased asset has no book; otherwise one UNSUBSCRIBE for its stream is recorded and sent |
| Binance.Engine.ListSubscriptions | lib/binance.js:60-66 | a LIST_SUBSCRIPTIONS without params, whose confirmation goes to the caller, is recorded and sent |
| Binance.Engine.AssetKeys | lib/binance.js:38 | lists every asset with a book exactly once |
| Binance.Engine.OnOpen | lib/binance.js:35-42 | marks the engine ready. When assets have books, one bulk SUBSCRIBE naming exactly those assets, each once, with their stream names, no stream twice, is recorded and sent; otherwise nothing is sent |
| Binance.Engine.DepthUpdate | lib/binance.js:226-233 | the state becomes `Enqueued` of the diff under its lower-cased symbol |
| Binance.Engine.Push | lib/binance.js:229-232 | the buffers become those of `Enqueued`; books and requests are unchanged |
| Binance.Engine.UpdateBook | lib/binance.js:235-251 | the state becomes `BookUpdated`. An update notification for the asset is logged exactly when the diff is newer than its book |
| Binance.Engine.BookFor | lib/binance.js:238 | returns the asset's book, or a fresh empty book stored under the key; no other entry changes |
| Binance.Engine.DrainStep | lib/binance.js:188-213 | the state becomes `Drained`. It reschedules unless it consumed a kill, and notifies exactly when it applied a diff |
| Binance.Engine.Forget | lib/binance.js:199-200 | the asset's buffer and book are removed and nothing else |
| Binance.Engine.Pop | lib/binance.js:196 | returns the front item and leaves the rest of that buffer |
| Binance.Engine.OnSnapshot | lib/binance.js:173-177 | the state becomes `Drained` after `Installed`: the snapshot becomes the book, stamped with the time, and one drain step runs |
| Binance.Engine.Install | lib/binance.js:175-176 | the state becomes `Installed` |
| Binance.Engine.HandleResponse | lib/binance.js:136-164 | the state, the pending requests, the fetches started and the response delivered are `Respond` of the old ones; every asset to fetch is a lower-cased key |
| Binance.Engine.SettleSubscribe | lib/binance.js:149-151 | the request is removed from the pending ones once its snapshot fetches settle |
| Binance.Engine.OnMessage | lib/binance.js:115-130 | a message with an id goes to `HandleResponse`. An event named `depthUpdate` is queued, and one named `updateBook` is applied and logs an update notification exactly when the diff is newer than its book. Nothing but `updateBook` logs a notification, and anything else changes nothing |

## Left out

- The WebSocket connection, `connectWs`, the `init` reconnect loop and the close handler (lib/binance.js:95-134). These are transport. Only the routing of a parsed message is modelled, as `OnMessage`, and the open handler as `OnOpen`.
- JSON parsing and serialisation. Messages are the parsed variant `Inbound`, and commands are the values `Request`.
- The HTTP fetch and URL building in `fetchSnapshot` (lib/binance.js:166-172, 182-185). Its success is a call of `OnSnapshot`; a failed fetch is a snapshot that never arrives.
- `setTimeout` and promises (lib/binance.js:149-151, 192, 212). Scheduling is up to the caller, who calls `DrainStep` again when it returns true and calls `SettleSubscribe` once the fetches have settled. Two drain loops running for the same asset after a reconnect are therefore just interleaved calls.
- `Date.now()`. Times are the parameter `now`, and request ids the parameter `id`.
- Event emission, `debug` logging, the `bitstatejs` state, the `instance()` singleton and the `orderBook`/`state` getters. The `update` notifications are kept as the ghost log `updates`. The per-asset event named after the asset carries the same name and is not logged separately.
- Binance.Engine.constructor: the dictionaries `orderBook`, `buffer` and `storage` are module-level in the source (lib/binance.js:13, 18-19), shared by every instance, and the constructor neither creates nor clears them (lib/binance.js:29-34). The model gives each engine its own, so its empty starting state holds in the source only for the first instance in a process.
- Binance.Engine.OnSnapshot: requires the asset to be a lower-cased key. In the source the fetched assets are always such keys, because they come from `storage` entries created by `subscribe` with the lower-cased asset (lib/binance.js:71-78) or by the re-subscribe with the keys of `orderBook` (lib/binance.js:38-41); `HandleResponse` ensures this of every asset it asks to fetch.
- Binance.Engine.HandleResponse: the source throws when an UNSUBSCRIBE confirmation arrives for an asset without a buffer (lib/binance.js:155). The model requires that buffer to exist instead of modelling the exception.
- The conversion of decimal strings to numbers (`+qty`, `_.toNumber`). Prices and quantities are integers. Because of this, the model does not distinguish matching by string `==` (lib/binance.js:263) from ordering by numeric value.
- Symbols.Lower: lower-cases ASCII letters only, not the full Unicode mapping of `toLowerCase`.
- `conn` being undefined before the first open. A command sent then is recorded as sent.
- Binance.Engine.AssetKeys: `_.keys` enumerates in insertion order; the model fixes no order and promises only that each key appears exactly once.
- The first-update id `U` of a diff is carried but never checked, as in the source. Gaps in the update-id sequence are not detected.
- test/test.js is a live-network integration test and is not part of this model.

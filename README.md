# Pixel ingestion pipeline, modelled in Dafny

This project models the sequential core of a shared-canvas server's backend,
written in Go. It covers the path a pixel takes from the HTTP endpoint to the
WebSocket consumers:

- `Pixels` (`pixels.dfy`): the `PixelUpdate` record and `validatePixel`. The
  colour regular expression `^#[0-9A-Fa-f]{6}$` is written out as a small
  anchored matcher.
- `Queue` (`queue.dfy`): the bounded FIFO `PixelQueue`. `Enqueue` fails when
  the queue is full. `DequeueBatch` takes up to `batchSize` items from the
  head. `Len` and `IsEmpty` are snapshots. The pure functions `Offer` and
  `Take` state what each call does. `Replay` runs a sequence of calls, and the
  FIFO lemma is proved about it.
- `RateLimit` (`ratelimiter.go`'s `RateLimiter`, in `ratelimiter.dfy`): the
  map from user id to the time of the user's last accepted pixel. `Allow`
  admits or rejects a pixel. `Sweep` is one pass of the cleanup loop. The
  pure functions `Admit` and `Swept` state what each does, and lemmas relate
  successive calls.
- `Broadcast` (`hub.dfy`): the hub's client set and the register, unregister
  and broadcast arms of its event loop. Each arm is one method. A client's
  send channel is a sequence of batches with a capacity of 256 and a
  `closed` flag. The hub's invariant is that every registered client has an
  open mailbox within capacity.
- `Ingest` (`ingest.dfy`): `handlePixelUpdate` as a method on a `Server`
  that holds the queue and the rate limiter. It returns the status code and
  message instead of writing them to HTTP.

Each mutex section is modelled as one method call. The wait loop in
`DequeueBatch` is a precondition (the queue is not empty). Clock readings are
integer parameters in nanoseconds, the unit of Go's `time.Duration`. The
`Ingest.Server.HandlePixelUpdate` contract shows that the `OPTIONS` preflight
branch of `handlePixelUpdate` can never be reached. The method check comes
first and refuses every method but `POST`, so an `OPTIONS` request gets 405.

## Model

| member | source | states |
|---|---|---|
| `Pixels.MatchHexRun` | backend/server.go:28 | matches exactly when the input is exactly k characters long and every one of them is a hex digit of either case |
| `Pixels.MatchesHexColor` | backend/server.go:28 | the colour pattern accepts exactly the 7-character strings made of `#` followed by six characters from `[0-9A-Fa-f]` |
| `Pixels.ValidatePixel` | backend/server.go:168-190 | no error iff 0 <= x <= 999, 0 <= y <= 999, the colour matches and the user id is non-empty; otherwise the error is the message of the first failing check, in the order x, y, colour, user id |
| `Pixels.ValidationIgnoresTimestamp` | backend/server.go:168-190 | the validation result does not depend on the timestamp, which the server overwrites after validation |
| `Queue.Offer` | backend/queue.go:38-43 | the pixel is accepted iff the length is below capacity; if accepted it is appended at the tail, otherwise the items are unchanged; the capacity bound is kept |
| `Queue.Take` | backend/queue.go:68-79 | the batch has length min(batchSize, length), and the batch followed by the kept items is the old contents |
| `Queue.PixelQueue.constructor` | backend/queue.go:18-27 | a new queue is empty, has the given capacity and satisfies the bound |
| `Queue.PixelQueue.Enqueue` | backend/queue.go:31-50 | when full: returns "queue is full" and leaves the items unchanged; otherwise the items become old items + [pixel]; the bound is kept |
| `Queue.PixelQueue.DequeueBatch` | backend/queue.go:54-82 | for a non-empty queue, returns exactly min(batchSize, length) items, the returned prefix followed by the new items is the old contents, the batch is non-empty when batchSize >= 1, and the bound is kept |
| `Queue.PixelQueue.Len` | backend/queue.go:85-89 | returns the number of items; changes nothing |
| `Queue.PixelQueue.IsEmpty` | backend/queue.go:92-96 | true iff there are no items; changes nothing |
| `Queue.ReplayIsFifo` | backend/queue.go:43-79 | over any sequence of Enqueue and DequeueBatch calls, all returned batches concatenated, followed by what is still queued, equal the starting contents followed by every accepted pixel in enqueue order |
| `Queue.ReplayKeepsBound` | backend/queue.go:38-43 | any sequence of calls starting within capacity ends within capacity |
| `RateLimit.Admit` | backend/ratelimiter.go:32-61 | admits iff the user is unseen or at least the cooldown has elapsed; if admitted the user's entry becomes now, otherwise the map is unchanged; no other user's entry changes |
| `RateLimit.Swept` | backend/ratelimiter.go:76-80 | keeps exactly the entries at most 10 minutes old, with their values unchanged |
| `RateLimit.RateLimiter.constructor` | backend/ratelimiter.go:17-28 | a new limiter has an empty map and the given cooldown |
| `RateLimit.RateLimiter.Allow` | backend/ratelimiter.go:32-61 | an unseen user is admitted and recorded at now; a user inside the cooldown is rejected and the map is unchanged; a user whose cooldown has elapsed (exactly the cooldown included) is admitted and recorded at now |
| `RateLimit.RateLimiter.Sweep` | backend/ratelimiter.go:70-83 | the map afterwards is exactly the old map restricted to entries at most 10 minutes old |
| `RateLimit.SameInstantSecondCallRejected` | backend/ratelimiter.go:45-56 | with a positive cooldown, a second call for the same user at the same instant is rejected |
| `RateLimit.FreshUserOnceThenRejected` | backend/ratelimiter.go:41-56 | an unseen user is admitted once and then rejected at the same instant |
| `RateLimit.AdmittedAgainAfterCooldown` | backend/ratelimiter.go:50-60 | after an admitted call, the same user is admitted again once the cooldown has elapsed |
| `RateLimit.RejectedBurstKeepsEntry` | backend/ratelimiter.go:50-56 | a burst of attempts inside the cooldown window is rejected throughout and leaves the map as it was, so the cooldown is neither reset nor extended |
| `RateLimit.SweepBoundary` | backend/ratelimiter.go:77-78 | an entry exactly 10 minutes old survives a sweep; an older one is removed |
| `RateLimit.AdmittedAfterSweep` | backend/ratelimiter.go:41-47 | once swept away, a user is admitted at any time and recorded exactly as a first-seen user |
| `RateLimit.SweepIdempotent` | backend/ratelimiter.go:76-80 | a second sweep at the same instant removes nothing more |
| `Broadcast.Client.constructor` | backend/server.go:106-110 | a new client has an empty, open mailbox |
| `Broadcast.Client.TrySend` | backend/hub.go:70-73 | on an open channel, the batch is appended iff the mailbox has room, and the result says which |
| `Broadcast.Client.Close` | backend/hub.go:62 | closing is only done on an open channel and leaves the buffered batches alone |
| `Broadcast.Hub.constructor` | backend/hub.go:29-37 | a new hub has no clients and keeps the queue it is given |
| `Broadcast.Hub.Register` | backend/hub.go:53-55 | the client is added to the set; registering a present client leaves the set unchanged; the invariant is kept |
| `Broadcast.Hub.Unregister` | backend/hub.go:58-64 | a present client is removed and closed with its mailbox untouched; an absent client changes nothing and is not closed again; no other client is touched; the invariant is kept |
| `Broadcast.Hub.Broadcast` | backend/hub.go:66-80 | the clients kept are exactly those whose mailbox had room, and each gets the batch at its tail; every client with a full mailbox is removed and closed with its mailbox unchanged; no client is added and no outside client is touched; the invariant is kept |
| `Ingest.UnixMillis` | backend/server.go:202-204 | milliseconds from nanoseconds, with the quotient truncated toward zero as in Go's integer division |
| `Ingest.Stamped` | backend/server.go:70 | the stamped pixel keeps coordinates, colour and user id, carries the server's timestamp and validates exactly as before |
| `Ingest.Server.constructor` | backend/server.go:11-16 | a server holds the given queue and rate limiter and has saved nothing yet |
| `Ingest.Server.HandlePixelUpdate` | backend/server.go:31-91 | non-POST (OPTIONS included) gives 405, an undecodable body 400 "Invalid JSON", an invalid pixel 400 with the first failing message, and none of these touches the limiter, the queue or the database; a valid pixel is put to the limiter exactly once; if rejected, 429 with the queue unchanged; if admitted, the pixel carries the server's timestamp, its save is attempted and a failed save does not stop the enqueue, a full queue gives 503 with the limiter entry already updated, otherwise 200 with the stamped pixel at the queue's tail |

## Left out

- Mutexes, the condition variable and the channels (`register`, `unregister`, `broadcast`): each critical section or `select` arm is one sequential method call, and the blocking wait in `DequeueBatch` is its precondition.
- `Queue.Replay`: a `DequeueBatch` issued on an empty queue is treated as still waiting and takes nothing, because the model has no blocking.
- `Hub.processQueue`, with its ticker and the goroutine each tick spawns: concurrent, timer-driven behaviour. Its accumulation buffer is never filled, so the time-based branch is dead code.
- The cleanup goroutine and its five-minute ticker: `Sweep` models one pass of the loop body.
- `RateLimit.RateLimiter.Allow`: `time.Time.Sub` saturates at the bounds of a 64-bit duration. The model subtracts unbounded integers, because that bound is never reached for real clock readings.
- `Ingest.UnixMillis`: does not model the overflow of `UnixNano` outside the years 1678 to 2262.
- The two clock readings become parameters of `HandlePixelUpdate`: the one `Allow` takes and the later one the timestamp comes from. Nothing requires them to be ordered.
- The database (backend/database.go) is not part of this model. A save is an external call whose failure is a flag. The `persisted` field records the saves that succeeded.
- JSON decoding of the request body is given as its result (`None` when decoding fails). Headers, CORS and response writing are not modelled; `http.Error`'s trailing newline is omitted from the messages.
- The client's read and write pumps (backend/client.go), which drain the mailbox, ping and enforce deadlines: transport I/O and timers. In the model mailboxes only grow.
- `handleWebSocket`, `handleGetCanvas`, `main` and logging: HTTP and process wiring. The `Server`'s hub and database references are left out, because the modelled handler does not use them.

# Verification of the IoT metrics service

A Dafny 4.11 model of the parts of the service whose correctness is about whole runs rather than single
calls, with proofs. `dafny verify dfyconfig.toml` checks everything.

## What is modelled

**The store and its paged reads** (`Query`, `Time`, `Repository`, `Paging`, `PagingBounds`, `Isolation`).
Two append-only tables with AUTOINCREMENT ids. A page is a query with a nullable time window and a nullable
(timestamp, id) cursor, sorted newest first, limited to one row more than the page; the extra row is dropped
and the row before it becomes the next cursor. `Query` has the WHERE clause in SQL's three-valued logic and
the statement as a scan; `Repository` has the store as an object. `Paging` lets one client follow cursors
while others insert; `PagingBounds` counts pages; `Isolation` deletes other devices' inserts and renumbers
the ids that remain.

**Page tokens and the string-level walk** (`Calendar`, `Base64Url`, `PageTokens`, `Service`, `EndToEnd`).
A cursor becomes a JSON object with an RFC 3339 time, in unpadded URL-safe base64. `EndToEnd` shows that a
client which sees only these strings walks the same rows.

**Service calls as interleaved steps** (`Calls`, `Service`, `Interleaving`, `Justification`, `Outcomes`, `Sums`).
`RecordMetric` is up to four repository calls with no transaction, `ConfigureDevice` is one. The database has a
single connection, so each repository call is atomic and anything may happen between two. Any of them may
fail. `Service` has the two calls as methods, proved to do what their step machine does when undisturbed;
`Interleaving` and `Justification` reason about every interleaving, and `Outcomes` says in closed form what each call
replies and writes, alone and in every interleaving.

**The stress tool's worker pool** (`WorkerPool`, `PoolInvariant`, `PoolTheorems`, `PoolCode`). Producers,
workers, a closer, waiters and the reader of the error channel, as steps over channels and a wait group, with
panics as outcomes. A select may take any ready case. `PoolCode` has the pool as an object whose methods, run
undisturbed until they return or have to wait, have the effect of runs of the step machine.

**The keyed rate limiter** (`RateLimiter`, `Eviction`, `Visibility`, `RateBound`, `Startup`). A map of token buckets whose
idle entries a collector deletes. Looking a bucket up and reserving from it are two steps; ticks may be stale.
The bucket gains credit at a fixed rate up to its burst, a reservation takes one token and may leave a debt,
and a call is granted for when the debt is paid. Time is counted in units small enough that a token costs a
whole number of them, and credit is counted in the same unit. A run keeps to a gap and a delay if every call
reserves within the gap of its lookup and is admitted with at most the delay. `Visibility` says for which ttl
values clients that keep to given bounds can tell an evicting limiter from one that never evicts; `Startup`
applies the results to the parameters the process is started with.

## Where the code and its intent differ

The model follows the code; these are theorems.

- `README.md:184-185` promises at most `tokens` requests per `seconds` seconds. For clients that keep to a gap and a
  delay, the limiter that runs keeps this if and only if `tokens` is 1 and gap, delay and the refill of one token fit
  into the five minutes of `main.go:93`, but for one unit of time (`Startup.DocumentedLimitIff`). Without a bound on
  how long clients wait, no number at all bounds the grants of a window, whatever the parameters
  (`Startup.LimitNeverKept`): an evicted bucket goes on granting to the calls it has queued. Where eviction does not
  show, at most tokens + min(tokens, 50) - 1 calls are granted (`ConfiguredBound`), and calls that never wait reach
  that number (`RushFits`). If lookup to grant takes at most five minutes, at most
  tokens + min(tokens, 50) * ((seconds - 1) / 300 + 2) - 1 are (`ConfiguredEvictingBound`); for up to five minutes that
  is reached too (`EvictingBoundReached`). A limiter that never evicts would keep the promise if and only if `tokens`
  is 1 (`SingleBucketLimitIff`).
- `main.go:93` fixes the ttl at five minutes. Clients that keep to a gap and a delay cannot notice eviction if and only
  if gap, delay and a full refill take at most one unit more than the ttl (`Visibility.TransparentIff`, and for the
  startup parameters `Startup.ConfiguredTransparentIff`); `Startup.ShortTtlVisible` is one limiter where they can.
- `device/service.go:78-83` lets a config read that fails otherwise than with not-found fall through with the
  zero configuration. `Justification.UnconfiguredAlertIff` says when a device without thresholds then gets an alert
  (`SpuriousAlert` is such a call), and `Justification.RightAlertsIff` when a device with thresholds gets exactly the
  alerts they call for, descriptions included (`LostAlert` is a call that stores none, `WrongThreshold` one whose alert
  names a threshold of zero).
- `sqlite/repository.go:136` and `:148` panic for some arguments; `Repository.FetchPanicsIff` says for which.
  Through the service only a token without a time is left (`EndToEnd.CrashIff`), and such a token exists
  (`EndToEnd.CrashReached`).
- `cmd/stress/worker_pool.go:55-60` can send on the closed job channel. After `close(closed)` some schedule does
  so if and only if some producer is past its first check (`PoolTheorems.PanicIff`); `PoolTheorems.PanicReached` is a
  whole schedule from a new pool.
- A page whose last row has a year without a four-digit form cannot be followed (`EndToEnd.UnencodableIff`,
  `UnencodableReached`).

## Model

| member | source | states |
|---|---|---|
| `Query.WhereExact` | sqlite/sqlc/device.sql.go:15-32 | under three-valued logic the clause is TRUE for exactly the rows of the device in the optional inclusive window that lie lexicographically below the cursor, for every combination of NULL parameters, and it is never NULL |
| `Query.ThreeValued` | sqlite/sqlc/device.sql.go:15-32 | AND and OR of the clause are the lesser and the greater truth value, NULL being between false and true, and no comparison with NULL is true or false |
| `Query.OrderedCorrect` | sqlite/sqlc/device.sql.go:12-33 | the result descends strictly by (timestamp, id) and holds exactly the rows of the table that the clause keeps |
| `Query.NewestFirst` | sqlite/sqlc/device.sql.go:33 | of two rows of the result the earlier one has the larger timestamp, or the same timestamp and the larger id |
| `Query.DescendingUnique` | sqlite/sqlc/device.sql.go:33 | the order leaves no choice: two descending results with the same rows are the same sequence |
| `Query.CursorSelectsSuffix` | sqlite/sqlc/device.sql.go:19-33 | the rows after a cursor, full or partial, are a suffix of the result without one |
| `Query.SelectRows` | sqlite/sqlc/device.sql.go:46-80 | the scan that keeps rows in order and stops at the limit returns the specified result; a negative limit is none |
| `Query.PlaceRow` | sqlite/sqlc/device.sql.go:33 | inserting a row by comparison from the front puts it at its place in the specified order |
| `Time.WholeSeconds` | sqlite/repository.go:38 | cutting to the second drops the nanoseconds beyond a whole number of billions, also before 1970 |
| `Time.TruncatedWindow` | sqlite/repository.go:128-133 | comparing floored seconds loses no record whose exact time is in the window and admits others only from less than one second outside, also before 1970 |
| `Time.TruncationIsTight` | sqlite/repository.go:128-133 | at either end a record one nanosecond short of a full second outside is admitted |
| `Repository.AppendValid` | sqlite/migrations/0001_tables.up.sql:17-24 | an insert under AUTOINCREMENT keeps ids increasing along the table and adds exactly its row |
| `Repository.FetchPanicsIff` | sqlite/repository.go:124-154 | a paged read panics exactly for a token without a time, for size -1, and for size 0 when some row matches, for every int64 size |
| `Repository.FetchPage` | sqlite/repository.go:124-154 | a page of positive size is the first `size` matching rows below the cursor; it carries a token iff more remain, namely that of its last row |
| `Repository.FetchUnlimited` | sqlite/repository.go:126 | size -2 and below, and the largest int64, whose successor wraps around, read everything that matches below the cursor, without a token |
| `Repository.ReadPage` | sqlite/repository.go:118-168 | building the parameters step by step, trimming the peeked row and copying the rows out answers as specified, panics and failures included; shared with the metrics read, which differs only in the payload |
| `Repository.DeviceRepository.UpsertDeviceConfig` | sqlite/repository.go:25-31 | exactly the device's configuration is replaced, or nothing if the call fails |
| `Repository.ReadsLastUpsert` | sqlite/repository.go:25-107 | after any sequence of successful upserts, a config read answers with the last one for its device, with the configuration from before if there was none, and with not-found if there is neither |
| `Repository.DeviceRepository.SaveDeviceMetric` | sqlite/repository.go:33-40 | one metric row is appended under the next id with its time cut to the second, or nothing if the call fails |
| `Repository.DeviceRepository.SaveDeviceAlert` | sqlite/repository.go:109-116 | one alert row is appended under the next id with its time cut to the second, or nothing if the call fails |
| `Repository.DeviceRepository.GetDeviceMetrics` | sqlite/repository.go:42-93 | answers the specified page of the metrics table |
| `Repository.DeviceRepository.GetDeviceAlerts` | sqlite/repository.go:118-169 | answers the specified page of the alerts table |
| `Paging.SavedIsFound` | sqlite/repository.go:109-168 | a saved record in the requested timeframe enters the full read once, cut to the second, with all others in place; a record of another device or a second or more outside changes nothing |
| `Paging.RunInv` | sqlite/repository.go:118-168 | every history of inserts and fetches keeps: rows returned descend and match, the token is that of the last one with a matching row below it, and unreturned rows of the first read lie below it |
| `Paging.ConcurrentWalk` | sqlite/repository.go:118-168 | whatever is inserted between fetches and whatever the page sizes, the pages together descend strictly, repeat no row, hold only matching rows, never panic, and a finished walk has returned every matching row of its first read |
| `Paging.PageShape` | sqlite/repository.go:126-154 | each further page is the first `size` matching rows below the client's last; it has a token iff more than `size` were left, and after a token it is never empty; what remains is the rest |
| `PagingBounds.StaticWalk` | sqlite/repository.go:124-168 | without inserts the pages so far and what remains make up one full sorted read, which a finished walk has returned exactly |
| `PagingBounds.PageCountAbove` | sqlite/repository.go:144-154 | max(1, ceil(n / size)) is the least number of pages that hold n rows |
| `PagingBounds.MatchingCount` | sqlite/sqlc/device.sql.go:12-34 | after any history the full read has grown by the number of matching inserts |
| `PagingBounds.GotAtMostMatching` | sqlite/repository.go:118-168 | a client never holds more rows than match now, and fewer while it has a next page |
| `PagingBounds.BoundedWalk` | sqlite/repository.go:118-168 | with n matching rows at the start and k inserted meanwhile a walk takes at most max(1, ceil((n + k) / size)) pages and has ended once it tried that often |
| `PagingBounds.StaticPageCount` | sqlite/repository.go:124-168 | without inserts a walk ends after exactly max(1, ceil(n / size)) fetches, not before |
| `Isolation.OrderedRenumber` | sqlite/sqlc/device.sql.go:12-33 | selecting and sorting commute with any order-preserving renumbering of ids, cursor included |
| `Isolation.OrderedOfDevice` | sqlite/sqlc/device.sql.go:15 | a query sees only its device's rows |
| `Isolation.RunInStep` | sqlite/migrations/0001_tables.up.sql:17-24 | the walks with and without other devices' inserts stay equal up to an order-preserving renumbering of ids |
| `Isolation.DeviceIsolation` | sqlite/repository.go:156-163 | deleting every insert for other devices changes neither the items handed out, nor their division into pages, nor when the walk ends |
| `Calendar.FromSeconds` | device/pagination.go:8-15 | every second from year 0 on has a valid date and time that counts back to it |
| `Calendar.EpochIs` | sqlite/repository.go:152 | second zero is 1970-01-01 00:00:00 |
| `Calendar.NextDay` | device/pagination.go:8-15 | 86400 seconds lead from each date to the next one of a calendar with months of 31, 28 or 29, 31, 30, 31, 30, 31, 31, 30, 31, 30 and 31 days and the Gregorian leap rule, at the same time of day |
| `Calendar.ToSecondsInjective` | device/pagination.go:8-15 | no two valid dates and times name the same second |
| `Calendar.EncodableIff` | device/pagination.go:8-15 | the seconds with an RFC 3339 form are exactly those whose year has at most four digits |
| `Calendar.EncodableEnds` | device/pagination.go:8-15 | they begin with the first second of year 0 and end with the last of year 9999 |
| `Calendar.TimeRoundTrip` | device/pagination.go:8-29 | each such second comes back from its section 5.6 of RFC 3339 text form |
| `Calendar.FormatParse` | device/pagination.go:17-29 | a text that reads as a date and time is the one that would be written for it |
| `Base64Url.AlphabetOrder` | device/pagination.go:13 | the characters are those of the URL-safe table in section 5 of RFC 4648, in its order |
| `Base64Url.GroupBits` | device/pagination.go:13 | the sextets of a group are the bits of its bytes in order, zero-filled at the end |
| `Base64Url.DecodeEncode` | device/pagination.go:8-29 | every byte string comes back from its encoding, which uses only the URL-safe alphabet, has no padding and the length that section 3.2 of RFC 4648 leaves |
| `Base64Url.DecodableIff` | device/pagination.go:17-21 | a string decodes exactly if it is over the URL-safe alphabet and does not end in a single left-over character; one of whole groups is the encoding of what it decodes to |
| `PageTokens.DecimalRoundTrip` | device/pagination.go:8-29 | every int64 id comes back from its decimal form |
| `PageTokens.TokenRoundTrip` | device/pagination.go:8-29 | a cursor with a whole-second time and an int64 id, either possibly absent, has a token iff its time has a four-digit year; the token brings the cursor back, is never empty and is URL-safe |
| `PageTokens.TextRead` | device/pagination.go:17-29 | a text is read as a cursor only if it is the text written for that cursor, which then has a whole-second time in years 0 to 9999 and an int64 id; the one exception is an id of zero with a minus sign |
| `PageTokens.CursorTexts` | device/pagination.go:8-15 | the whole text inside the tokens of three cursors, keys and separators included: one of 2025-08-31T12:34:56Z with an id, one with a negative id and no time, one with neither |
| `Calls.BlankIff` | device/validation.go:52-54 | a device id counts as blank exactly if trimming white space off both ends leaves nothing |
| `Calls.SpaceIs` | device/validation.go:52-54 | the 25 characters that count as white space |
| `Service.DeviceService.ConfigureDevice` | device/service.go:34-54 | replies invalid exactly for a blank id or a threshold outside -10000 to 10000 or 0 to 100, that the write failed exactly for a request in range whose write fails, and otherwise success; the device's configuration is replaced exactly on success and nothing else changes; so does the step machine's undisturbed call |
| `Service.DeviceService.RecordMetric` | device/service.go:58-122 | leaves the database and gives the reply that the step machine's undisturbed call does, for every fault, the fall-through after a failed config read included |
| `Service.DeviceService.GetDeviceAlerts` | device/service.go:125-173 | validates, clamps, decodes, reads and encodes as specified, for valid and invalid requests, readable and unreadable tokens and repository failures |
| `EndToEnd.InvalidIff` | device/validation.go:34-50 | a request for alerts is refused exactly for a blank id, a zero start or end, an end before its start, or a negative size |
| `EndToEnd.ZeroTime` | device/validation.go:34-47 | the time that counts as absent is the first second of year 1 |
| `EndToEnd.ReplyKinds` | device/service.go:125-155 | which requests are refused, answered as bad tokens, panic, or fail with the repository |
| `EndToEnd.FirstReply` | device/service.go:125-173 | a valid first request, all stored years encodable, gets the newest min(n, s) of n matching alerts, times cut to the second, with s = 100 if it asks for 0, its own size from 1 to 250, and 250 above, and a token exactly if n > s |
| `EndToEnd.CursorToken` | device/service.go:136-167 | the token of an encodable row is not empty and reads back as that row's cursor |
| `EndToEnd.UnencodableIff` | device/service.go:162-167 | a request fails because of its next token exactly when more rows than the page size match below the cursor and the last of the page lies in a year with no four-digit form |
| `EndToEnd.UnencodableReached` | device/service.go:162-167 | two stored alerts of year 10000 and page size 1 are such a request |
| `EndToEnd.CrashIff` | device/service.go:125-155 | whatever the decoder answers, the service panics exactly on a valid request whose token decodes to a cursor without a time; no page size panics it |
| `EndToEnd.CrashReached` | device/service.go:125-155 | any valid request given the token of an empty cursor panics, whatever is stored |
| `EndToEnd.ReplySize` | device/service.go:130-134 | a reply holds at most the requested number of alerts and at most 250, and one with a successor is full |
| `EndToEnd.EndToEndWalk` | device/service.go:125-173 | with inserts between requests, a client passing strings back gets the alerts and the end of the walk over cursors with clamped sizes, and no request fails, provided stored times are encodable |
| `EndToEnd.EndToEndStatic` | device/service.go:125-173 | without inserts the alerts are always a prefix of one full sorted read, all of it when the walk ends, and it does end |
| `EndToEnd.EndToEndBounded` | device/service.go:125-173 | a client of strings that always asks for the same size has the last page after at most max(1, ceil((n + k) / size)) requests, for the size used (100 for 0, at most 250), n alerts matching at the start and k inserted meanwhile |
| `EndToEnd.EndToEndPageCount` | device/service.go:125-173 | without inserts it has the last page after exactly max(1, ceil(n / size)) requests, not before |
| `Interleaving.StepCommitted` | device/service.go:85-119 | a step after the config read moves alerts from what the call owes to what the table holds and changes neither how the call ends nor any configuration |
| `Interleaving.FinishRecord` | device/service.go:58-122 | a whole recording call adds its metric and exactly the alerts it owes once it has its thresholds |
| `Interleaving.CommittingTurn` | device/service.go:77 | a config read or write in an interleaved run has the effect of running the whole call there in the serial run |
| `Interleaving.RunSimulates` | device/service.go:34-122 | at every moment of every interleaving the configurations are those of the serial run of the committed calls, and the tables differ from its tables by early metrics and owed alerts only |
| `Interleaving.Reduction` | device/service.go:34-122 | when all calls of an interleaving have ended, configurations, metrics and alerts (up to ids) and every reply are those of the serial run in commit order, which runs each call once, whatever failed |
| `Interleaving.RealTimeOrder` | device/service.go:34-122 | a call that ended before another began comes before it in the serial order |
| `Justification.RunExplains` | device/service.go:58-122 | in every run both tables are the replay of a log that lists exactly what the calls have written, each row once and in the order of the call |
| `Justification.AlertsJustified` | device/service.go:71-119 | each alert row of a run belongs to exactly one (call, reason) pair, that call saved its metric earlier for the same device and second, and its value strictly breached the thresholds it used |
| `Justification.BreachesStored` | device/service.go:85-121 | a successful call has stored an alert for each breach of the thresholds it used (zero after a failed read) and no other; of two, the temperature alert has the smaller id |
| `Justification.RightAlertsIff` | device/service.go:77-121 | in any run, a valid call whose writes succeed, for a device with a configuration in force at its place in the serial order, succeeds, and the alert rows it stored are those the configuration calls for, description included, iff its read succeeds, or its battery is not below the threshold and its temperature is above zero with a threshold of zero, or not above zero nor the threshold |
| `Justification.RightReasonsIff` | device/service.go:77-121 | the reasons alone are right iff the read succeeds, or the temperature is above both zero and the threshold or neither and the battery is not below the threshold |
| `Justification.LostAlert` | device/service.go:78-83 | a call that breaches both thresholds of its device, fails its read, succeeds and stores nothing |
| `Justification.WrongThreshold` | device/service.go:78-91 | a call that stores an alert for the right reason with a threshold of zero in its description |
| `Justification.TablesExact` | device/service.go:58-122 | at every moment each table holds its initial rows and one row per metric saved and alert stored so far, with the call's own device, second and values: nothing is lost, doubled or made up |
| `Justification.ThresholdSource` | device/service.go:77-83 | the thresholds a call uses are those its config read finds after exactly the configuring calls before it in the serial order: the one in force, none if there is none, zero if the read fails |
| `Justification.UnconfiguredAlertIff` | device/service.go:77-101 | in any run, a valid call with no configuration in force at its place in the serial order stores an alert iff its read fails, its temperature is above zero and neither its metric nor its alert write fails |
| `Justification.SpuriousAlert` | device/service.go:78-83 | one such call and the row it leaves |
| `Outcomes.ConfigureAlone` | device/service.go:34-54 | reply and database after a configuring call, without the step machine: written exactly on success |
| `Outcomes.ConfigureOutcome` | device/service.go:34-54 | in any interleaving a configuring call that has ended replies as it would alone, and exactly one of its turns was the write of its configuration, if it succeeded, while no turn of it changed anything else |
| `Outcomes.RecordAlone` | device/service.go:58-122 | reply, metric and alerts of a recording call, without the step machine: refused outside the ranges, else the first write that fails, else success; the alerts up to the first that fails, from the stored thresholds, or zeros after a failed read |
| `Outcomes.RecordOutcome` | device/service.go:58-122 | in any interleaving a recording call that has ended replies and has written what it would alone with the configuration in force at its place in the serial order |
| `PoolInvariant.NewPoolInv` | cmd/stress/worker_pool.go:21-29 | a new pool of any size satisfies the invariant |
| `PoolInvariant.StepConserved` | cmd/stress/worker_pool.go:31-72 | every step keeps the wait group equal to what is in flight; no Done goes below zero and no error is sent on the closed channel; only a send on closed `jobs` panics |
| `PoolInvariant.StepAllConserved` | cmd/stress/worker_pool.go:31-61 | no step loses or duplicates a job or an error |
| `PoolInvariant.StepSettled` | cmd/stress/worker_pool.go:34-41 | a job that has run and whose error has left its worker stays so under every step |
| `PoolInvariant.ZeroSettles` | cmd/stress/worker_pool.go:63-65 | when the wait group is at zero every accepted job has run and its error is in the channel or received |
| `PoolInvariant.StepInv` | cmd/stress/worker_pool.go:31-72 | one step of any goroutine keeps the whole invariant unless it sends on closed `jobs` |
| `PoolInvariant.RunInv` | cmd/stress/worker_pool.go:31-72 | so does every schedule |
| `PoolTheorems.EveryRun` | cmd/stress/worker_pool.go:31-72 | in every state reached without a panic the wait group counts producers mid-queueing, buffered jobs and jobs being worked on; no worker is about to send on closed `errs`, even when queueing races with closing |
| `PoolTheorems.ClosedPoolRefuses` | cmd/stress/worker_pool.go:48-53 | after `close(closed)`, a job whose producer had not passed its first check is accepted in no schedule |
| `PoolTheorems.NoneLateNoPanic` | cmd/stress/worker_pool.go:48-72 | if no producer is past its first check when `closed` is closed, no schedule panics |
| `PoolTheorems.PanicIff` | cmd/stress/worker_pool.go:55-69 | after `close(closed)` some schedule panics iff some producer is between its first check and the outcome of its select |
| `PoolTheorems.PanicReached` | cmd/stress/worker_pool.go:48-72 | a schedule of five steps from a new pool that panics |
| `PoolTheorems.StepDecreases` | cmd/stress/worker_pool.go:31-72 | every step decreases one measure |
| `PoolTheorems.RunBounded` | cmd/stress/worker_pool.go:31-72 | no schedule is longer than the measure of its first state |
| `PoolTheorems.Progress` | cmd/stress/worker_pool.go:67-72 | with a worker started, a closing pool is never stuck before `close(errs)` |
| `PoolTheorems.Drains` | cmd/stress/worker_pool.go:67-72 | with a worker started and no late producer, every schedule after `close(closed)` is panic-free, bounded, and can go on until `close(errs)`, which it therefore reaches |
| `PoolTheorems.DrainedCompletely` | cmd/stress/worker_pool.go:34-41 | after `close(errs)` every accepted job, and no other, has run exactly once, and every error was read once or can still be read |
| `PoolTheorems.Barrier` | cmd/stress/worker_pool.go:63-65 | when Wait has returned, every job accepted before its call has run once and its error is in the channel or received, even if queueing goes on |
| `PoolTheorems.WaitReturnsIff` | cmd/stress/worker_pool.go:63-65 | in every state reached without a panic a call of Wait may return exactly if no producer is between its Add and the outcome of its select, no job is buffered and no worker has one, whether or not the pool is closed |
| `PoolTheorems.WaitsReturn` | cmd/stress/worker_pool.go:33-65 | with a worker started, every schedule on an open pool is panic-free and bounded, and while a call of Wait has not returned it can go on by steps of work already begun; so every call of Wait returns |
| `PoolTheorems.WaitersServed` | cmd/stress/worker_pool.go:33-65 | such a schedule, of those steps only, to where every call of Wait has returned |
| `PoolCode.StartRun` | cmd/stress/worker_pool.go:31-46 | starting leaves every worker at the receive of its loop |
| `PoolCode.QueueRun` | cmd/stress/worker_pool.go:48-61 | undisturbed, a closed pool turns a job away, an open one with room counts it and buffers it last, and on a full open one the call has counted it and can take neither case of its select |
| `PoolCode.SelectRun` | cmd/stress/worker_pool.go:56-60 | a call in its select can go on exactly if there is room for as many jobs as workers or the pool is closed, and once it is closed may take back its count and return without its job |
| `PoolCode.WaitRun` | cmd/stress/worker_pool.go:63-65 | undisturbed, Wait returns at once when nothing is in flight, closed or not, and otherwise waits |
| `PoolCode.CloseRun` | cmd/stress/worker_pool.go:67-72 | undisturbed, closing ends with `errs` closed when nothing is in flight, and otherwise waits with both other channels closed |
| `PoolCode.WorkRun` | cmd/stress/worker_pool.go:33-44 | undisturbed, a worker runs the buffered jobs once each in order, hands in errors in order and counts off what it finished, until it holds an error with no room for it, or has run all and leaves a closed channel or waits at an open one |
| `PoolCode.WorkerPool.QueueJob` | cmd/stress/worker_pool.go:48-61 | from every reachable state the code moves channels, flags and counter as that run of the step machine does, and keeps the invariant (the positions of the goroutines and the history are ghost state that follows the run) |
| `PoolCode.WorkerPool.Work` | cmd/stress/worker_pool.go:33-44 | the loop stops exactly where that run does, with channels and counter as it has them, and keeps the invariant (positions and history as above) |
| `PoolCode.WorkerPool.Wait` | cmd/stress/worker_pool.go:63-65 | the code returns or waits as that run does, and changes nothing |
| `PoolCode.WorkerPool.Close` | cmd/stress/worker_pool.go:67-72 | the code closes and waits as that run does, with flags as it has them, and keeps the invariant (positions and history as above) |
| `RateLimiter.GrantEarliest` | rlimit/rate_limiter.go:64 | a call is granted for the first moment its bucket holds a whole token and refused iff that is beyond its patience; a refusal changes nothing, a grant takes one token from every later balance |
| `RateLimiter.ReserveMoves` | rlimit/rate_limiter.go:64 | a grant moves the moment of being full by at least a token and lies between one token and a whole bucket before it |
| `RateLimiter.RateLimiter.GetLimiter` | rlimit/rate_limiter.go:46-62 | finds the key's bucket or creates a full one, notes the time, and changes no other entry |
| `RateLimiter.RateLimiter.WaitOn` | rlimit/rate_limiter.go:64 | reserves from the bucket that was looked up, evicted since or not, and from no other |
| `RateLimiter.RateLimiter.Sweep` | rlimit/rate_limiter.go:68-80 | visiting the keys in any order deletes exactly the entries idle for more than the ttl at the tick's time |
| `Eviction.RetainedIff` | rlimit/rate_limiter.go:46-80 | after any run the map holds exactly the keys that no tick since their last lookup found idle for more than the ttl |
| `Eviction.StepWellFormed` | rlimit/rate_limiter.go:45-80 | if no call takes longer than the ttl from lookup to reservation, calls never hold an evicted bucket, and keys never share one |
| `Eviction.AlikeStep` | rlimit/rate_limiter.go:45-80 | one step keeps the evicting limiter and the one that never evicts alike: same answers, same credit per key, forgotten keys full |
| `Eviction.GcTransparent` | rlimit/rate_limiter.go:45-80 | if gaps stay within the ttl and every evicted bucket is full at the tick that evicts it, every run gives every call the same answer and grant time as without eviction, stale ticks included |
| `Eviction.LongTtlTransparent` | rlimit/rate_limiter.go:45-80 | a ttl that covers the longest gap, the longest admitted delay and a full refill, but for one unit, suffices for that |
| `Eviction.ServeAt` | rlimit/rate_limiter.go:64 | the i-th of n simultaneous calls is granted when i tokens beyond the present credit have been refilled |
| `Eviction.EvictionInvisibleIff` | rlimit/rate_limiter.go:50-59 | replacing a bucket by a fresh one goes unnoticed by every number of later calls iff the bucket is full |
| `Visibility.TransparentIff` | rlimit/rate_limiter.go:45-80 | for every rate, burst and ttl: all clients that keep to a gap and a delay get the answers they would get without eviction iff gap + delay + full refill is at most ttl plus one unit |
| `Visibility.Indebt` | rlimit/rate_limiter.go:46-64 | for all bounds some run that keeps to them leaves the bucket owing exactly the delay, reserved exactly the gap after the last lookup |
| `Visibility.TooClose` | rlimit/rate_limiter.go:46-80 | with a burst of one and bounds beyond that ttl, some run grants two calls less than a token apart |
| `Visibility.Pile` | rlimit/rate_limiter.go:46-80 | n rounds of patient calls and an eviction leave n buckets that grant in one window as short as a token |
| `Visibility.GrantsAreAnswers` | rlimit/rate_limiter.go:64 | the recorded grants of a window are those a client counts from its answers |
| `RateBound.RunTracked` | rlimit/rate_limiter.go:45-80 | in every run the grants of a key cost more credit than they were refilled only by what its evictions gave back, and all but one of these took more than a ttl each |
| `RateBound.EvictingBound` | rlimit/rate_limiter.go:50-76 | if lookup to grant takes at most the ttl, the grants of a key in a window cost less than a bucket, the window's refill, and a bucket for each eviction that fits, one more than (window - 1) / ttl |
| `RateBound.SingleBucketBound` | rlimit/rate_limiter.go:45-65 | without eviction they cost less than a bucket and the window's refill |
| `Startup.SimultaneousCalls` | main.go:91-92 | of any number of calls of one device at one moment, the first min(tokens, 50) are granted then and each further one the refill of a token after the one before, evicting or not |
| `Startup.SingleBucketConfigured` | main.go:91-92 | a limiter with the configured rate and burst that never evicts grants one key at most tokens + min(tokens, 50) - 1 calls in any window of `seconds` |
| `Startup.ConfiguredBound` | main.go:91-93 | so does the limiter that runs, for clients whose gap and delay the five minutes cover together with a full refill |
| `Startup.ConfiguredEvictingBound` | main.go:91-93 | the limiter that runs grants at most tokens + min(tokens, 50) * ((seconds - 1) / 300 + 2) - 1, if lookup to grant takes at most five minutes |
| `Startup.EvictingBoundReached` | main.go:91-93 | for `seconds` up to 300, and time counted so that a token costs more than one unit, a run reaches exactly that number |
| `Startup.RushFits` | main.go:91-93 | calls that never wait are granted tokens + min(tokens, 50) - 1 times in one window, evicting or not |
| `Startup.DocumentedLimitIff` | README.md:182-185 | the limiter that runs keeps the documented limit, for all clients that keep to a gap and a delay, iff `tokens` is 1 and the five minutes cover gap, delay and one refill but for one unit |
| `Startup.LimitNeverKept` | README.md:182-185 | for all parameters and every number, some run of the limiter that runs grants more than that number in one window of `seconds` |
| `Startup.SingleBucketLimitIff` | README.md:182-185 | a limiter that never evicts keeps the documented limit in every run iff `tokens` is 1 |
| `Startup.ConfiguredTransparentIff` | main.go:93 | for all startup parameters, gaps and delays: eviction after five minutes is invisible iff gap + delay + full refill is at most the five minutes plus one unit |
| `Startup.ShortTtlVisible` | main.go:91-93 | at one token per 600 seconds a key idle for 301 is granted at once where without eviction it would wait until 600 |

## Left out

- HTTP and Connect handlers, middleware, error rendering, logging and the generated protocol code.
- Configuration files, command line, opening and migrating the database, health checks, the mock repository, and the
  stress tool's random values and client.
- The database engine: a table is a sequence, an insert appends, a query scans. A failed repository call is taken to
  have had no effect.
- AppendValid: ids are unbounded; what happens when AUTOINCREMENT runs out of int64 ids is not modelled.
- GetDeviceConfig: the int32 battery column is not wrapped when read back; stored thresholds passed validation first.
- UpsertDeviceConfig: temperatures are reals, so NaN, which the range checks at `device/validation.go:13` and `:26` let
  through, and rounding are not modelled.
- SaveDeviceAlert: descriptions are kept as the two numbers they are rendered from, not as `%.2f` text.
- Validation is a yes or no; field names and messages are not modelled.
- TokenRoundTrip: times are whole seconds, as the repository makes them. Decoding covers the object shape that encoding
  produces; other JSON, other time zones, fractional seconds and line breaks inside base64 are not modelled.
- GetDeviceAlerts: of the service, answers tokens of any other shape than encoding produces as bad tokens, although the
  program decodes some of them; `CrashIff`, `UnencodableIff` and `ReplySize` hold for whatever a decoder answers.
- GrantEarliest: credit and time are exact integers; float rounding, tokens given back by a cancelled wait, and
  reservations at times before an earlier one are not modelled. A wait is granted or refused.
- Sweep: the ticker and the lock are not modelled; a tick carries any time not later than the present.
- StepInv: concurrent goroutines are steps on values, so aliasing and memory ordering are not captured; a single call
  of Close is modelled, and the wait group's own misuse panic (Add racing with Wait at zero) is not.
- QueueJob: like `Wait`, `Work` and `Close` of the same class, covers a call up to where it returns or waits, with nothing
  overlapping it; what happens to it while it waits, and overlapping calls, are covered by the step machine.
- EvictingBoundReached: for windows of more than five minutes the bound is proved, not that it is reached.
- The example token at `README.md:153` is not computed; `TokenRoundTrip` covers the tokens of all cursors, and
  `CursorTexts` gives the text inside three.
- Reduction: calls are steps on values over a shared database value; the methods of `Service` cover the undisturbed call
  in place.
- ReadPage: result rows are appended to a sequence where the program fills a slice of known length.
- Job timeouts and contexts in the worker pool: every job ends, with or without an error.

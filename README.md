# Price aggregator core, modelled in Dafny

This project models the core of a Go service. The service subscribes to
several exchange price streams for one ticker (BTCUSD). It keeps the last
valid price each stream reported and prints the mean of those prices once a
minute, aligned to the minute boundary.

The model has four parts.

- **`TickersAggregator`** (`internal/aggregator.go`) is the class `Aggregator.TickersAggregator`. Its fields are:
  - `lastPrices: map<int, real>`, the slot-to-price map;
  - one `Status` per supervisor.

  The goroutines, channels and `RWMutex` are replaced by one sequential interleaving of actions:
  - a turn of supervisor `i` (`Deliver(i, event)`);
  - a sampler tick (`Tick`);
  - the sampler seeing `ctx.Done()`.

  A supervisor's rules, taken one slot at a time, are the pure functions of module `Supervisor`. The meaning of the whole map after any interleaving is `Aggregator.Prices(n, trace)`. The class invariant `Valid()` ties `lastPrices` to it.
- **The sampler** (`serveOutput`) covers:
  - the alignment sleep `Minute - now % Minute`, computed with Go's truncating `%` (module `GoInt`);
  - the tick instants;
  - the empty-map skip;
  - the snapshot copy loop into an `array<real>`;
  - the mean (module `Sampler` and `TickersAggregator.Snapshot`/`Tick`).
- **The two subscribers** (`internal/sources/exmocom/subscriber.go` and `internal/sources/eodhistoricaldata/subscriber.go`) are each a reference function `Subscribe` plus a method `SubscribePriceStream` proved equal to it. The websocket client's outcomes are inputs:
  - whether `Connect` succeeded;
  - whether `SubscribeToTicker` succeeded;
  - the sequence of read-loop turns, each one a message, a read error, or a cancellation together with whether `Disconnect` succeeded.

  Both subscribers share module `Feed`, which holds the sample type, the millisecond timestamp split and the error kinds.
- **The price parse.** `decimal.NewFromString` is `Decimal.Parse` for plain decimal notation: an optional sign, digits, at most one point, and at least one digit. Prices are exact rationals (`real`).

In two places the documented design of the service says something other than the code; the model follows the code.

- **First tick.** After the alignment sleep, `time.NewTicker(time.Minute)` fires first one minute later. A start at `HH:MM:37` therefore prints its first line at `HH:(MM+2):00`, not at `HH:(MM+1):00` as the documented design expects (`Sampler.StartAtSecond37`).
- **Cancellation error.** The documented design has a cancelled subscriber push no error. In the code it pushes one when `Disconnect` fails (`Feed.StopErrors`).

## Model

| member | source | states |
|---|---|---|
| GoInt.QuotRem | internal/aggregator.go:82 | Go's truncating division: `q*b + r == a`, `Abs(r) < Abs(b)`, a non-zero r has the sign of a, and it agrees with Dafny's `/` and `%` for a >= 0 |
| Feed.ErrorText | internal/sources/exmocom/subscriber.go:30-71 | the text of each pushed error; the text is "ticker is not supported" exactly for the unsupported-ticker error |
| Feed.FromMillis | internal/sources/exmocom/subscriber.go:80 | the `(ts/1000, ts%1000*1000000)` pair recombines to ts milliseconds (and to ts*10^6 ns), nsec is a whole number of milliseconds, lies in [0, 999000000] with sec = ts/1000 for ts >= 0 and in [-999000000, 0] for ts < 0 |
| Feed.FirstStop | internal/sources/exmocom/subscriber.go:59-74 | the read loop ends at the first turn that is not a message: every earlier turn is a message |
| Feed.FirstStopAt | internal/sources/exmocom/subscriber.go:59-74 | the stopping index is determined by where the first non-message turn is |
| Feed.StopErrors | internal/sources/exmocom/subscriber.go:61-73 | the turn that ends the loop pushes at most one error: a read error pushes exactly one, and a cancellation pushes none exactly when Disconnect succeeds |
| Exmocom.TickersMapEntries | internal/sources/exmocom/subscriber.go:12-14 | tickersMap supports BTCUSD and nothing else, under the topic "spot/ticker:BTC_USD" |
| Exmocom.IsUpdate | internal/sources/exmocom/subscriber.go:75-77 | only a message that was read can be forwarded (its event must be "update", see `Exmocom.UpdatesStep`) |
| Exmocom.Updates | internal/sources/exmocom/subscriber.go:75-82 | at most one sample per turn, every sample under the requested ticker |
| Exmocom.Subscribe | internal/sources/exmocom/subscriber.go:25-87 | at most one error, and an error implies both channels closed; every sample is under the requested ticker; a topic is subscribed exactly when the connect succeeded and the ticker has a topic; samples only after a completed setup |
| Exmocom.SubscribePriceStream | internal/sources/exmocom/subscriber.go:25-87 | the setup sequence and the read loop produce exactly the reference outcome `Subscribe` |
| Exmocom.UnsupportedTicker | internal/sources/exmocom/subscriber.go:37-44 | any ticker other than BTCUSD yields the single error whose text is "ticker is not supported", no topic and no samples |
| Exmocom.SetupFails | internal/sources/exmocom/subscriber.go:28-53 | when connect, ticker lookup or subscribe fails, the subscriber pushes exactly that step's error, no sample, and closes both channels |
| Exmocom.ConnectFirst | internal/sources/exmocom/subscriber.go:28-35 | a failed connect reports only the connect error, whatever the ticker |
| Exmocom.UpdatesAppend | internal/sources/exmocom/subscriber.go:59-84 | the samples of consecutive reads are the samples of each part, in read order |
| Exmocom.UpdatesStep | internal/sources/exmocom/subscriber.go:75-82 | a message whose event is not "update" adds nothing; an update adds exactly one sample: its buy price, stamped `(ts/1000, ts%1000*1000000)`, under the requested generic ticker rather than the exchange topic |
| Exmocom.StopIsFinal | internal/sources/exmocom/subscriber.go:59-74 | after the first read error or cancellation there are only the samples of earlier messages, that turn's error, closed channels, and nothing from later turns |
| Exmocom.StopErrorCount | internal/sources/exmocom/subscriber.go:61-73 | a read error ends the stream with exactly one error; a cancellation ends it with none exactly when Disconnect succeeds |
| Eodhistoricaldata.Samples | internal/sources/eodhistoricaldata/subscriber.go:69-79 | at most one sample per turn, every sample under the requested ticker |
| Eodhistoricaldata.Subscribe | internal/sources/eodhistoricaldata/subscriber.go:25-85 | at most one error, and an error implies closed channels; samples under the requested ticker; a symbol is subscribed exactly when the connect succeeded and the ticker is mapped; samples only after a completed setup |
| Eodhistoricaldata.SubscribePriceStream | internal/sources/eodhistoricaldata/subscriber.go:25-85 | the setup sequence and the unfiltered read loop produce exactly the reference outcome `Subscribe` |
| Eodhistoricaldata.UnsupportedTicker | internal/sources/eodhistoricaldata/subscriber.go:37-44 | any ticker other than BTCUSD yields the single error whose text is "ticker is not supported" and no samples |
| Eodhistoricaldata.TickersMapEntries | internal/sources/eodhistoricaldata/subscriber.go:12-14 | tickersMap supports BTCUSD and nothing else, under the symbol "BTC-USD" |
| Eodhistoricaldata.SetupFails | internal/sources/eodhistoricaldata/subscriber.go:28-53 | when connect, ticker lookup or subscribe fails, the subscriber pushes exactly that step's error, no sample, and closes both channels |
| Eodhistoricaldata.ConnectFirst | internal/sources/eodhistoricaldata/subscriber.go:28-35 | a failed connect reports only the connect error, whatever the ticker |
| Eodhistoricaldata.OneSamplePerMessage | internal/sources/eodhistoricaldata/subscriber.go:69-79 | every message read yields exactly one sample, position for position, with no filtering: its price, stamped `(ts/1000, ts%1000*1000000)`, under the requested generic ticker |
| Eodhistoricaldata.StopIsFinal | internal/sources/eodhistoricaldata/subscriber.go:59-79 | the number of samples equals the number of messages read before the first stop, in read order, followed by that turn's error (if any) and nothing later |
| Decimal.Parse | internal/aggregator.go:49 | decimal.NewFromString on plain decimal notation; a string that parses is not empty (its values are stated by the lemmas below) |
| Decimal.DotIndex | internal/aggregator.go:49 | finds the first decimal point, or the end of the string |
| Decimal.DotIndexAt | internal/aggregator.go:49 | the first-point position is unique |
| Decimal.UnsignedDecimal | internal/aggregator.go:49 | digits, a point and digits denote whole + frac / 10^len(frac) |
| Decimal.ParseUnsignedStart | internal/aggregator.go:49 | a string that does not start with a sign is parsed as unsigned |
| Decimal.ParseMinus | internal/aggregator.go:49 | a leading minus negates the value, and rejects whatever the unsigned parse rejects |
| Decimal.ParseDecimal | internal/aggregator.go:49 | `whole.frac` parses to whole + frac / 10^len(frac) |
| Decimal.ParseInteger | internal/aggregator.go:49 | a digit string parses to its integer value |
| Decimal.UnsignedInteger | internal/aggregator.go:49 | a digit string is an unsigned integer |
| Decimal.DotIndexOfDigits | internal/aggregator.go:49 | a digit string contains no point |
| Decimal.UnsignedWithoutPoint | internal/aggregator.go:49 | a digit string is a literal with an empty fraction |
| Decimal.IntegerLiteral | internal/aggregator.go:49 | a literal with an empty fraction is the integer |
| Decimal.TrailingZero | internal/aggregator.go:49 | a trailing zero after the point does not change the value, with or without a leading sign ("102.50" is 102.5, "-102.50" is -102.5) |
| Decimal.NoDigitsRejected | internal/aggregator.go:49-50 | a string without any digit (the empty string included, which is what a closed result channel yields) is rejected |
| Decimal.NoDigitsUnsigned | internal/aggregator.go:49-50 | an unsigned string without digits is rejected |
| Decimal.TwoPointsRejected | internal/aggregator.go:49-50 | any string with two decimal points is rejected, signed or not, whatever surrounds them |
| Supervisor.Step | internal/aggregator.go:45-66 | one turn of the select loop: only a sample keeps a running supervisor running; it fails exactly on an error while running; only a sample or an error of a running supervisor changes its key |
| Supervisor.Replay | internal/aggregator.go:43-68 | the slot after a sequence of turns: a stopped supervisor ignores every later event, and one still running has received only samples |
| Supervisor.Expected | internal/aggregator.go:43-68 | the slot stated without replay: running exactly when every event was a sample; a failed slot holds no price; a price held is the parse of some sample received |
| Supervisor.StopIndex | internal/aggregator.go:43-68 | the supervisor consumes samples until the first error or cancellation: every event before that index is a sample |
| Supervisor.StopIndexAt | internal/aggregator.go:43-68 | the stopping index is determined by where the first non-sample event is |
| Supervisor.ReplayIsExpected | internal/aggregator.go:43-68 | replaying the events from an idle slot gives the declarative outcome: failed with no price after an error, otherwise the parse of the last consumed sample |
| Supervisor.StoppedIsFinal | internal/aggregator.go:45-66 | once a supervisor has returned, no later event changes its slot |
| Supervisor.ErrorIsPermanent | internal/aggregator.go:61-66 | a feed error removes the key and stops the supervisor for good: no later event re-inserts it |
| Supervisor.CancelKeepsPrice | internal/aggregator.go:45-47 | cancellation stops the supervisor with lastPrices unchanged |
| Supervisor.LastSampleWins | internal/aggregator.go:48-60 | a running supervisor's latest sample sets the slot to its parse, or removes the key if it does not parse, and the supervisor keeps running |
| Sampler.TickTime | internal/aggregator.go:82-83 | the k-th tick (from 0) of a clock started at now >= 0 fires more than k+1 and at most k+2 minutes after now |
| Sampler.UnixSeconds | internal/aggregator.go:102 | currentTime.Unix(): the whole second that contains the instant |
| Sampler.Mean | internal/aggregator.go:101 | decimal.Avg: the mean times the number of prices is their sum |
| Sampler.Consensus | internal/aggregator.go:91-101 | nothing exactly when lastPrices is empty; otherwise a value that times len(lastPrices) is the sum of the slots' prices |
| Sampler.AlignDelay | internal/aggregator.go:82 | the sleep ends exactly on a minute boundary; for now >= 0 it is in (0, Minute] and no boundary lies strictly before its end |
| Sampler.NoBoundaryBefore | internal/aggregator.go:82 | no minute boundary lies strictly between now and the end of the sleep |
| Sampler.TickOnMinute | internal/aggregator.go:82-83 | every tick falls on a minute boundary, so every printed Unix timestamp is a multiple of 60 |
| Sampler.TicksOneMinuteApart | internal/aggregator.go:83 | consecutive ticks are one minute (60 printed seconds) apart |
| Sampler.StartAtSecond37 | internal/aggregator.go:82-83 | a start at second 37 sleeps 23 s; the first tick is one minute after that boundary |
| Sampler.SlotSumRemove | internal/aggregator.go:94-101 | removing one slot's price removes it from the sum |
| Sampler.SlotSumUnaffected | internal/aggregator.go:94-101 | keys outside the slot range 0 .. n-1, negative or at least n, do not contribute |
| Sampler.SlotSumEmpty | internal/aggregator.go:94-101 | the empty map sums to zero |
| Sampler.SumEnumeration | internal/aggregator.go:94-101 | the prices copied in any key order add up to the sum of the slots' prices |
| Sampler.MeanOfSnapshot | internal/aggregator.go:94-101 | a snapshot that lists every key once has len(lastPrices) values, and its mean is the consensus of the map |
| Sampler.EnumeratedKeys | internal/aggregator.go:94-99 | the keys a snapshot visits are exactly the map's keys |
| Sampler.EnumerationSize | internal/aggregator.go:94-99 | a snapshot that lists every key once is as long as the map |
| Aggregator.Project | internal/aggregator.go:39-69 | the events supervisor i receives: at most one per turn, each one a turn of supervisor i |
| Aggregator.SlotAfter | internal/aggregator.go:43-68 | slot i after the interleaving; a supervisor still running has received only samples |
| Aggregator.Prices | internal/aggregator.go:36-64 | every key ever present is a slot in [0, len(subscribers)) |
| Aggregator.SlotAfterAppend | internal/aggregator.go:39-69 | a turn of supervisor i changes slot i by one Step and no other slot |
| Aggregator.PricesFromSlots | internal/aggregator.go:18 | lastPrices is determined slot by slot |
| Aggregator.PricesAfter | internal/aggregator.go:49-66 | supervisor i writes or deletes only key i; every other key keeps its value |
| Aggregator.PricesPerSlot | internal/aggregator.go:48-66 | after any interleaving, key i holds exactly what slot i's own events determine: the parse of its last consumed sample, or nothing after an error or an invalid price |
| Aggregator.FailedSlotStaysAbsent | internal/aggregator.go:61-66 | after a feed error on slot i, no continuation of the interleaving puts key i back |
| Aggregator.ProjectConcat | internal/aggregator.go:39-69 | a slot's events in consecutive traces are its events in each, in order |
| Aggregator.TwoFeeds | internal/aggregator.go:48-66 | A sends a1 then a2 and B sends b: lastPrices is {A: a2, B: b}; after B fails it is {A: a2} |
| Aggregator.WorkedExample | internal/aggregator.go:48-101 | "100.00", "102.50" from A and "101.00" from B give mean 101.75; after B's error, 102.50 |
| Aggregator.TwoFeedMaps | internal/aggregator.go:101 | the consensus of two prices is their mean, of one price that price |
| Aggregator.QuoteValue | internal/aggregator.go:49 | a price ddd.dd parses to its value |
| Aggregator.Quote100 | internal/aggregator.go:49 | "100.00" parses to 100 |
| Aggregator.Quote102 | internal/aggregator.go:49 | "102.50" parses to 102.5 |
| Aggregator.Quote101 | internal/aggregator.go:49 | "101.00" parses to 101 |
| Aggregator.Emitted | internal/aggregator.go:84-103 | the lines printed: at most one per tick |
| Aggregator.Printed | internal/aggregator.go:89-102 | one tick prints at most one line, and prints none exactly when lastPrices is empty |
| Aggregator.NothingAfterDone | internal/aggregator.go:86-88 | once the sampler has seen ctx.Done() it prints nothing more, whatever the later actions |
| Aggregator.StoppedStaysStopped | internal/aggregator.go:86-88 | the sampler, once returned, stays returned |
| Aggregator.EmittedOnMinutes | internal/aggregator.go:82-102 | every printed timestamp is a whole minute |
| Aggregator.TickersAggregator.constructor | internal/aggregator.go:23-30 | NewTickersAggregator: an empty lastPrices and every supervisor running |
| Aggregator.TickersAggregator.Deliver | internal/aggregator.go:43-68 | one supervisor turn: a parsed price overwrites key i; an invalid price deletes key i and keeps running; an error deletes key i and stops; cancellation stops with no change; a returned supervisor changes nothing; the invariant is kept |
| Aggregator.TickersAggregator.DeliverKeepsValid | internal/aggregator.go:49-66 | the map a turn leaves behind is lastPrices after the longer trace |
| Aggregator.TickersAggregator.Snapshot | internal/aggregator.go:94-99 | the copy has len(lastPrices) entries, one per key, each key visited exactly once in some order |
| Aggregator.TickersAggregator.Tick | internal/aggregator.go:89-102 | no line exactly when lastPrices is empty; otherwise the tick's Unix second and the consensus mean of the copied prices |
| Aggregator.TickersAggregator.Start | internal/aggregator.go:32-105 | after any interleaving, lastPrices is the map the applied turns determine, and the printed lines are exactly `Emitted` |
| LockLeak.LockedStep | internal/aggregator.go:45-100 | one action as written, with the lock: a leaked read lock stays leaked, a blocked supervisor stays blocked, a blocked sampler prints nothing, and a tick prints at most one line |
| LockLeak.AsWritten | internal/aggregator.go:39-105 | the run as written: one tick counted per Tick action and at most one line per tick |
| LockLeak.DoneKeepsPrices | internal/aggregator.go:45-47 | cancellation does not change lastPrices |
| LockLeak.SilencedStep | internal/aggregator.go:90-92 | once the read lock has leaked, no action writes to lastPrices or prints |
| LockLeak.SilencedAfter | internal/aggregator.go:90-92 | the leaked state persists through any continuation |
| LockLeak.NothingAfterEmptyTick | internal/aggregator.go:90-92 | as written, after a tick that finds lastPrices empty no line is ever printed again |
| LockLeak.LeakedMeansEmpty | internal/aggregator.go:90-92 | as written, the read lock leaks only on a tick that finds lastPrices empty, and lastPrices stays empty from then on |
| LockLeak.StuckForever | internal/aggregator.go:43-66 | a supervisor blocked in Lock() stays blocked and never sees ctx.Done() |
| LockLeak.EarlyTick | internal/aggregator.go:52-102 | one feed with an empty first tick, then a valid sample, a tick and cancellation: as written nothing is printed and the supervisor is stuck; with the lock released the second tick prints the price |
| LockLeak.AsWrittenEarlyTick | internal/aggregator.go:90-92 | the as-written half of EarlyTick |
| LockLeak.EmittedEarlyTick | internal/aggregator.go:89-102 | the corrected half of EarlyTick |
| LockLeak.OneSample | internal/aggregator.go:94-101 | one feed with one valid sample: its price is the consensus |

## Left out

- Concurrency: goroutines, `sync.WaitGroup`, `select`'s random choice, channel buffering and blocking are not modelled. Any interleaving of supervisor turns and sampler ticks is an input (`Action` sequence), so every schedule the runtime could choose is covered. The `RWMutex` appears only in module `LockLeak`.
- A closed channel yields zero values to the supervisor's `select`. A closed result channel yields a price `""`, which `Parse` rejects, so the key is deleted. A closed error channel yields a nil error, which the supervisor treats like a feed error. Both are ordinary events of the arbitrary input trace.
- Clocks: `time.Now()` is the parameter `now`, and tick instants are the nominal `TickTime`. Ticker jitter, dropped ticks and `time.Sleep`, including the 5 s grace wait at `internal/aggregator.go:74`, are left out.
- Output: `fmt.Println` is the returned list of `ConsensusSample` lines. `decimal.String()` formatting is not modelled.
- `Decimal.Parse` covers plain decimal notation only. Exponent notation (`1e3`) of shopspring/decimal is not modelled.
- `TickersAggregator.Tick` computes `decimal.Avg` as an exact rational. The library rounds the division to its division precision, and that is not modelled.
- Logging (zap) has no effect on the outcome and is left out.
- The websocket clients (`internal/sources/*/client.go`) and `main.go` (flags, logger, signal wiring) are left out. The clients' outcomes are inputs to the subscribers.
- `Exmocom.Message`: `Data` is taken to be present on every message. A nil `Data` on an update would make the code panic on a nil dereference; that is not behaviour the code promises.
- `Exmocom.SubscribePriceStream`, `Exmocom.SetupFails`, `Exmocom.ConnectFirst`: after a failed `Connect` the EXMO client's connection is nil (`internal/sources/exmocom/client.go:50-52`). The `Disconnect` at `internal/sources/exmocom/subscriber.go:31` then calls `WriteMessage` on it (`internal/sources/exmocom/client.go:79`), a nil dereference that panics in the calling supervisor goroutine before either channel is closed, and the panic ends the process. The model gives the path the code evidently intends: one connect error and both channels closed. The EOD client's `Disconnect` returns early on a nil connection (`internal/sources/eodhistoricaldata/client.go:83-85`), so the EOD subscriber is not affected.
- `Feed.FromMillis` returns the `(sec, nsec)` arguments of `time.Unix`. For negative timestamps `time.Unix` would normalise them into a different, equal pair, and that normalisation is not modelled.

## Findings

| source | as written | input that shows it | evidently intended | confidence | as-written member | corrected member |
|---|---|---|---|---|---|---|
| internal/aggregator.go:90-92 | a tick that finds lastPrices empty `continue`s while holding the read lock, so the lock is never released; every later supervisor `Lock()` blocks, the sampler blocks behind it, and the blocked supervisors never see cancellation (modelled by `LockLeak.AsWritten`; `LockLeak.EarlyTick` sets it beside the corrected `Aggregator.Emitted`) | one feed; a tick before its first sample, then a valid sample, a tick, and cancellation: nothing is printed and the supervisor never returns | release the read lock before skipping: an empty tick prints nothing and changes nothing | not executed | LockLeak.NothingAfterEmptyTick | Aggregator.TickersAggregator.Tick |

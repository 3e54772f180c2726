# Verified model of the market-data connector and order gateway

This project models, in Dafny 4.11, the stateful core of a Rust exchange connector and proves its
central promises for all inputs, all runs and all reachable states.

* **Order books and their recovery** (`Exchange`, `OrderBook`, `Sequence`, `RecoveryBuffer`,
  `Recovery`, `Feed`). Deltas arrive late, twice, overlapping or not at all; snapshots are of any
  age and may be depth-capped. The exchange is a ghost history, one price-to-quantity map per side
  and update id. The main result follows one symbol through every run: whenever the validator has
  seen a snapshot, the local book equals the exchange's book at the validator's position, on every
  price the snapshots are exact on. Spot (dense `U`/`u` ids) and futures (`pu` chaining, ids that
  jump) share one theory with two sets of rules.
* **The book in price order and its checksum** (`BookChecksum`). The canonical iteration order, the
  FNV-1a hash over it, and exactly what that hash can and cannot tell apart.
* **The order machine and the gateway** (`OrderMachine`, `Trades`, `MachineRuns`, `MachineEnds`,
  `OrderGateway`, `GatewayLog`, `MachineGateway`). The machine reorders and deduplicates exchange events into actions; the gateway
  turns accepted actions into transitions and journal entries. Proved: each fill counts once,
  delivery order does not matter, which event ends an order and how, what the journal says of an
  order is what the gateway knows of it, the gateway never refuses an action of an honest run, opening the
  journal after any run of calls and restarts rebuilds the gateway field for field exactly while no
  length prefix loses bits and the id counter has not wrapped away, and opening one torn in the
  middle of a write is refused or goes back to exactly an earlier state of the run.
* **Journal bytes and client order ids** (`RecordLog`, `Framing`, `Journal`, `JournalLayout`,
  `ClientOrderId`). The place of every byte, round trips, torn tails, and ids that never repeat across restarts.
* **The wire codec** (`FieldLists`, `WireCodec`, `WireHeader`, `WireMessages`, `WireLayout`,
  `WireEncoder`, `WireDecoder`). All eighteen message layouts field by field, encoded in place and decoded with a cursor: round
  trip, no strict prefix decodes, and the publish-time patch changes nothing else.
* **Three smaller cores**: decimal scaling on the JSON, SBE and database paths (`Decimal`), latency
  percentiles against true order statistics (`Histogram`), and the rate bound of the recovery
  circuit breaker (`CircuitBreaker`).

Objects the source mutates are classes whose methods are proved against specification functions of
the old state; the theorems are about those functions. Fixed-width integers are explicit (`u8` to
`i64`), release-build wrap-around is written out, and strings are byte sequences in the UTF-8 syntax
of section 4 of RFC 3629.

## What turned out to hold only under a condition

Where a plausible promise fails, the model keeps the code as it is and states when it does hold.

* A recovery tells a stale validator by a flagged book if and only if the book was flagged before
  the call or no buffered event newer than the snapshot starts beyond the chain replayed before it
  (`Recovery.FlagIsKeptIff`); with no event missing, that is a comparison on the first such event
  (`Recovery.ContiguousFlagIsKeptIff`). A caller who does not look into the buffer is safe if and
  only if the book is flagged (`Recovery.FlaggedBooksAreSafeIff`). Over a whole run the flag tells
  of every stale validator exactly when that holds of each snapshot (`Feed.RunStaysFlaggedIff`). The
  drivers' loops apply snapshots to flagged books only; the entry points `run_spot_recovery`
  (crates/binance-spot-adapter/src/recovery.rs:112) and `run_futures_recovery`
  (crates/binance-futures-adapter/src/recovery.rs:110) do not ask. With them, every first snapshot
  older than the buffered stream misses the flag (`Feed.FirstSyncCanMissTheFlag`), and no later
  delta repairs it (`Feed.UnflaggedStaysFrozen`).
* A delta may be applied above the book's position without harm exactly when it names every price:
  otherwise some exchange makes it wrong (`Exchange.SkippingIsUnsound`,
  `Exchange.NamingEverythingIsSound`).
* The journal's length prefixes are casts: an entry alone survives if and only if no prefix loses
  bits (`Journals.SurvivesIffFits`), and a journal reads back what was appended to it if and only if
  that is so of every entry (`Journals.JournalRoundTripIff`).
* After any run the gateway's journal rebuilds it if and only if each call journalled something that
  fits its length prefixes and the counter has not wrapped away: fewer than 2^64 enqueues, or the
  generator has come round to its last counter (`OrderGateways.CrashRecoveryIsExact`). Call by call,
  an enqueue does if and only if the symbol has at most 255 bytes and the counter was not `u64::MAX`
  (`OrderGateways.EnqueueReopensIff`), and a report if and only if its entry, if any, fits
  (`OrderGateways.ReportReopensIff`). Restarts are invisible throughout a run if and only if each
  comes at such a moment (`OrderGateways.RestartsAreInvisibleIff`).
* Machine and gateway that agree still do after an event, whatever it is, if and only if no fill but
  the last of those it hands on completes the order, and: after a check that reports the order
  filled there are such fills and they do complete it; after an acknowledgement without any there is
  something left to fill; after one with some they add up to something or complete the order
  (`MachineGateway.ProcessAgreesIff`, over whole runs `MachineGateway.RunAgreesIff`). Of an honest
  exchange that always holds (`MachineGateway.RunNeverRefused`).
* Seeding the spot validator with the first delta is sound, whatever the exchange, if and only if
  the delta names every level the book still has (`Feed.SeedIsSoundIff`), as it does of a new symbol.
* On futures the delta that showed a gap is dropped, so once another delta is buffered a snapshot
  recovers the book only if it contains the dropped delta (`Feed.FuturesGapClosesIff`); on spot it
  must reach the oldest delta held (`Feed.SpotStreamRecoversIff`).
* Two client order ids sort as strings by instance and counter if and only if the lower instance is
  at most the higher one cut to as many printed hex digits (`ClientOrderIds.SortsIff`): always for
  equal instances or equal widths. All ids of instances up to a bound do if and only if the bound
  is at most 0xffff (`ClientOrderIds.AllSortIff`).
* The checksum does not hash where bids end and asks begin: two books hash the same bytes if and
  only if they stand at the same position and list the same levels (`BookChecksums.SameStreamIff`),
  so a lone bid and a lone ask at one price collide (`BookChecksums.SidesAreNotTold`). The comments
  at crates/order-book/src/lib.rs:148-160 do not mention this.
* A decimal string without a sign is scaled correctly if and only if the scaled number fits an i64
  (`Decimals.DecimalReadsIff`), a negative one if and only if, moreover, it has an integer digit and
  keeps no fractional digit but zeros (`Decimals.NegativeScalesIff`).

## Model

| member | source | states |
|---|---|---|
| Exchange.Advance | crates/order-book/src/lib.rs:142-146 | from any position inside the span an honest delta speaks for, applying it lands exactly on the exchange's book at the delta's final id |
| Exchange.SkippingIsUnsound | crates/binance-spot-adapter/src/sequence.rs:105-154 | the position rule cannot be relaxed: for every book and every delta that starts above the book's position and leaves a price unnamed there is an exchange for which both are honest and applying the delta is wrong |
| Exchange.NamingEverythingIsSound | crates/order-book/src/lib.rs:142-146 | the only exception: a delta that names every price yields the exchange's book from any book whatever |
| Exchange.ShowsMeansRight | readme:825 | on the prices a capped snapshot covers the book is right, it shows no level the exchange does not have, and with every price covered it is the exchange's book |
| Exchange.SnapshotShows | crates/order-book/src/lib.rs:123-137 | installing a snapshot whose list is that of the exchange's levels on its cover shows the exchange's book at its id |
| OrderBooks.ApplyLevelsIsOverlay | crates/order-book/src/lib.rs:195-203 | level-by-level update is a last-write-wins overlay: the last entry for a price decides its quantity and whether it stays, all other prices keep theirs |
| OrderBooks.OnlyLastWritesMatter | crates/order-book/src/lib.rs:195-203 | two level lists that agree on the last word per price produce the same side from every side |
| OrderBooks.ApplyLevelsCompose | crates/order-book/src/lib.rs:142-146 | two deltas in sequence equal one delta with both level lists |
| OrderBooks.StoredQuantitiesArePositive | crates/order-book/src/lib.rs:123-146 | over every run of snapshots and of deltas with non-negative quantities every stored quantity is positive |
| OrderBooks.OrderBook.ApplySnapshot | crates/order-book/src/lib.rs:123-137 | each side holds exactly the prices with an entry of positive quantity, each at the quantity of the last such entry, at the snapshot's id, staleness untouched |
| OrderBooks.SnapshotSideHolds | crates/order-book/src/lib.rs:126-135 | of any list of levels a side keeps a price exactly when some entry gives it a positive quantity, and then the quantity of the last such entry |
| OrderBooks.HoldsIff | crates/order-book/src/lib.rs:126-135 | no other side does |
| OrderBooks.DistinctLevelsAllRest | crates/order-book/src/lib.rs:126-135 | of distinct prices with positive quantities none is lost |
| OrderBooks.OrderBook.ApplyDelta | crates/order-book/src/lib.rs:142-146 | both sides become the overlay of their lists and the position the delta's final id |
| OrderBooks.ApplyLevelList | crates/order-book/src/lib.rs:195-203 | the loop over a delta's levels computes the overlay |
| OrderBooks.OrderBook.MarkStale | crates/order-book/src/lib.rs:107-110 | only the flag and its reason change |
| OrderBooks.OrderBook.MarkRecovered | crates/order-book/src/lib.rs:114-117 | only the flag and its reason are cleared |
| BookChecksums.AscendingListsSide | crates/order-book/src/lib.rs:95-99 | the iteration of a side lists exactly its levels |
| BookChecksums.AscendingAscends | crates/order-book/src/lib.rs:95-99 | asks are listed in strictly ascending price order |
| BookChecksums.AscendingIsUnique | crates/order-book/src/lib.rs:157-160 | the order is canonical: any strictly ascending list of a side's levels is its iteration |
| BookChecksums.DescendingDescends | crates/order-book/src/lib.rs:87-92 | bids are listed in strictly descending price order, all of them |
| BookChecksums.BestAreExtremes | crates/order-book/src/lib.rs:71-84 | the best bid is the level at the highest bid price and the best ask the level at the lowest ask price, quantities included, and each exists unless its side is empty |
| BookChecksums.Checksum | crates/order-book/src/lib.rs:161-188 | the accumulator loops hash the position, then bids best first, then asks best first, as one byte stream |
| BookChecksums.Feed | crates/order-book/src/lib.rs:166-171 | feeding bytes one at a time is the FNV-1a fold over them |
| BookChecksums.StepFlipsThenMultiplies | crates/order-book/src/lib.rs:166-171 | undoing the multiplication gives back the state, with each of its low eight bits flipped exactly where the byte has a one |
| BookChecksums.FnvOfNothing | crates/order-book/src/lib.rs:161-165 | the published FNV-1a value of the empty stream |
| BookChecksums.FnvOfA | crates/order-book/src/lib.rs:166-171 | the published FNV-1a value of "a" |
| BookChecksums.FnvOfFoobar | crates/order-book/src/lib.rs:166-171 | the published FNV-1a value of "foobar" |
| BookChecksums.StreamStands | crates/order-book/src/lib.rs:173-185 | the hashed stream byte for byte: the position, then sixteen bytes a level, bids from the highest price down and asks from the lowest up, price before quantity |
| Integers.LeDigits | crates/order-book/src/lib.rs:173-185 | the byte at position i of a little-endian number is its i-th digit to the base 256 |
| Integers.BitsAreModulo | crates/order-book/src/lib.rs:173-185 | the bits of a signed number are its value modulo 2^64 |
| BookChecksums.StepIsInjective | crates/order-book/src/lib.rs:166-171 | one FNV-1a step never merges two states on the same byte nor two bytes in the same state |
| BookChecksums.OneByteChangesChecksum | crates/order-book/src/lib.rs:161-188 | books whose hashed streams have equal length and differ in exactly one byte never share a checksum |
| BookChecksums.OrderInsideDeltaIsInvisible | crates/order-book/src/lib.rs:157-160 | deltas that agree on the last word per price leave the same checksum |
| BookChecksums.SameStreamIff | crates/order-book/src/lib.rs:173-185 | two books hash the same bytes exactly when position and the bids-then-asks list agree |
| BookChecksums.StreamDeterminesBook | crates/connector-core/src/message.rs:620-634 | together with the bid depth the hashed stream determines position and both sides, in both directions |
| BookChecksums.SidesAreNotTold | crates/order-book/src/lib.rs:161-188 | a lone bid and a lone ask at the same price and quantity have the same checksum |
| Sequence.SequenceValidator.Validate | crates/binance-spot-adapter/src/sequence.rs:105-154 | verdict and new state are those of the spot rules on U and u |
| Sequence.FuturesSequenceValidator.Validate | crates/binance-futures-adapter/src/sequence.rs:125-172 | verdict and new state are those of the futures rules on U, u and pu |
| Sequence.SequenceValidator.OnSnapshot | crates/binance-spot-adapter/src/sequence.rs:95-97 | a snapshot starts bridging at its id from any state |
| RecoveryBuffers.PushKeepsBounds | crates/binance-spot-adapter/src/recovery_buffer.rs:105-133 | every push, accepted or refused, keeps event count, byte total and age within the limits and the total equal to the sum of the sizes held |
| RecoveryBuffers.NeverOverflowsIff | crates/binance-spot-adapter/src/recovery_buffer.rs:105-133 | a stream pushed into an empty buffer is held whole exactly when it has at most the maximal count, at most the maximal bytes, and each event is within the maximal age of the first |
| RecoveryBuffers.RefusalIff | crates/binance-spot-adapter/src/recovery_buffer.rs:105-133 | a refusal names age before count before bytes, and is none exactly when all three limits allow |
| RecoveryBuffers.AfterKeepsCounts | crates/binance-spot-adapter/src/recovery_buffer.rs:141-148 | draining keeps each event as often as it came |
| RecoveryBuffers.AfterKeeps | crates/binance-spot-adapter/src/recovery_buffer.rs:141-148 | draining keeps exactly the events with a final id above the snapshot's |
| RecoveryBuffers.AfterConcat | crates/binance-spot-adapter/src/recovery_buffer.rs:141-148 | what is kept of a stream is what is kept of its parts, in order |
| RecoveryBuffers.RecoveryBuffer.Push | crates/binance-spot-adapter/src/recovery_buffer.rs:105-133 | the event is appended or the first violated limit is reported and nothing changes, and the bounds hold |
| RecoveryBuffers.RecoveryBuffer.DrainAfter | crates/binance-spot-adapter/src/recovery_buffer.rs:141-148 | returns the newer events in order and empties the buffer |
| RecoveryBuffers.RecoveryBuffer.Clear | crates/binance-futures-adapter/src/recovery_buffer.rs:156-159 | the buffer is empty |
| Recovery.ApplySpotSnapshot | crates/binance-spot-adapter/src/recovery.rs:53-101 | book, validator, outcome and buffer after the loop, including the early return on a gap, are those of the recovery function |
| Recovery.ApplyFuturesSnapshot | crates/binance-futures-adapter/src/recovery.rs:52-104 | the same for the futures rules |
| Recovery.JudgeTracks | crates/binance-futures-adapter/src/sequence.rs:125-172 | both validators are sound: an accepted honest delta leads to the exchange's book at its final id, every other verdict leaves the book in sync, and only a gap turns a validator stale |
| Recovery.ReplayTracks | crates/binance-spot-adapter/src/recovery.rs:66-94 | replaying honest events keeps book and validator in sync, clears the flag only on success and ends stale exactly on a gap |
| Recovery.GapIsNamed | crates/binance-futures-adapter/src/sequence.rs:125-172 | a gap carries the last valid position and what is missing there: on spot the ids from the expected one up to the first one seen, on futures the link from the position to the id the delta follows |
| Recovery.BuffersIff | crates/binance-futures-adapter/src/sequence.rs:125-172 | a validator asks to hold a delta exactly while it awaits a snapshot or is stale |
| Recovery.ReplayCounts | crates/binance-spot-adapter/src/recovery.rs:66-101 | a replay without a gap reports the chain as replayed and the rest as discarded, ends on the last id of the chain and clears the flag with its reason |
| Recovery.ReplayFailsAtFirst | crates/binance-spot-adapter/src/recovery.rs:82-90 | a replay with one fails at the first event beyond the chain, reports the gap found there and leaves the validator stale at the position reached |
| Recovery.RecoverTracks | crates/binance-spot-adapter/src/recovery.rs:53-101 | recovery from any buffer of honest events ends in sync, also on early return, and a stale validator implies a flagged book exactly when the book was flagged before or no event newer than the snapshot starts beyond the chain before it |
| Recovery.FlagIsKeptIff | crates/binance-spot-adapter/src/recovery.rs:66-94 | for any buffer on both venues, recovery fails exactly when some event newer than the snapshot starts beyond the chain replayed before it, and the flag is kept exactly when that is not so or the book was flagged |
| Recovery.ContiguousFlagIsKeptIff | crates/binance-spot-adapter/src/recovery.rs:66-94 | with no event missing the flag is kept exactly when the book was flagged, nothing is newer than the snapshot, or the first newer event starts at most one id after it |
| Recovery.FlaggedBooksAreSafeIff | crates/binance-spot-adapter/src/recovery.rs:53-101 | a book is flagged exactly when no snapshot and no gapless buffer can lose the flag |
| Recovery.RecoverSucceedsIff | crates/binance-futures-adapter/src/recovery.rs:52-104 | with no event missing, recovery succeeds exactly when the first event newer than the snapshot bridges it; then every such event is replayed, none discarded, the flag is clear and the position is the last final id |
| Recovery.SpotRecoverSucceedsIff | crates/binance-spot-adapter/src/recovery.rs:53-101 | on spot that is a condition on the oldest buffered event alone |
| Feed.SpotSymbolState.HandleDelta | bin/connector/examples/spot_e2e.rs:499-600 | validate, then apply, drop, buffer, or mark stale and buffer: the driver's objects move as the step relation says |
| Feed.SpotSymbolState.HandleSeedingDelta | bin/connector/examples/spot_e2e.rs:490-600 | a waiting validator is placed just before the delta, then the delta is handled |
| Feed.SpotSymbolState.PushToRecovery | bin/connector/examples/spot_e2e.rs:921-942 | an overflow clears the buffer and is reported, otherwise the event is held |
| Feed.SpotSymbolState.HandleSnapshot | bin/connector/examples/spot_e2e.rs:600-724 | a fetched snapshot runs the recovery on the driver's own book, validator and buffer and returns its outcome or gap |
| Feed.FuturesSymbolState.HandleDelta | bin/connector/examples/futures_e2e.rs:282-350 | the futures driver buffers unasked while flagged or unseeded and does not buffer the delta that showed the gap |
| Feed.FuturesSymbolState.HandleSnapshot | bin/connector/examples/futures_e2e.rs:350-390 | a fetched snapshot runs the futures recovery and returns its outcome or gap |
| Feed.StepTracks | bin/connector/examples/spot_e2e.rs:499-724 | one honest input, the startup seed included, keeps the book in sync with the exchange at the validator's position |
| Feed.StepKeepsFlagIff | bin/connector/examples/spot_e2e.rs:600-724 | any input, honest or not, keeps every stale validator behind a flagged book exactly when it is not a snapshot that meets an unflagged book and a buffer it cannot replay |
| Feed.RunTracks | bin/connector/examples/spot_e2e.rs:499-724 | over every run of honest seeds, deltas, gaps, overflows, snapshots, marks and resets the book is the exchange's book at the validator's position on the cover |
| Feed.UnresetSeedsClean | bin/connector/examples/spot_e2e.rs:490-497 | without a reset every seed meets an empty book, which is all RunTracks asks of seeds |
| Feed.SeedTracks | bin/connector/examples/spot_e2e.rs:490-497 | the first delta of a seeded new symbol is applied and puts the book in sync on the prices it names |
| Feed.SeedIsSoundIff | bin/connector/examples/spot_e2e.rs:490-497 | seeding is sound for every exchange exactly when the delta names every level still in the book |
| Feed.RunShowsWatchedPrices | readme:825 | a set of prices on which every snapshot is exact is shown exactly at all times but between a seed and the next snapshot, and the book's id is the validator's; with uncapped snapshots the book is the exchange's |
| Feed.RunStaysFlaggedIff | bin/connector/examples/spot_e2e.rs:600-724 | over every run of any inputs a stale validator always has a flagged book exactly when each snapshot was applied to a flagged book or could replay the buffer it met |
| Feed.FirstSyncCanMissTheFlag | crates/binance-spot-adapter/src/recovery.rs:112-123 | on both venues, whenever the unconditional entry point meets a new symbol with a snapshot older than the buffered event, an honest run of some exchange ends with a stale validator behind an unflagged book |
| Feed.UnflaggedStaysFrozen | crates/binance-spot-adapter/src/sequence.rs:150-154 | from there no sequence of deltas changes the book or raises the flag |
| Feed.SpotStreamRecoversIff | bin/connector/examples/spot_e2e.rs:490-724 | from a new symbol through a complete stream, a gap and a complete stream again: the book is flagged, the buffer holds the deltas from the gap on, or their tail since the last overflow, and a snapshot recovers exactly when it reaches the oldest of them |
| Feed.SeededStreamIsLive | bin/connector/examples/spot_e2e.rs:490-520 | a complete stream keeps a seeded symbol active at its last final id, unflagged and with nothing buffered |
| Feed.FuturesGapClosesIff | bin/connector/examples/futures_e2e.rs:282-390 | after a gap the futures buffer lacks the delta that showed it: once another delta is held, recovery succeeds exactly when the snapshot contains the dropped delta and reaches the first held one it does not contain |
| Feed.NothingHeldWhileLive | bin/connector/examples/spot_e2e.rs:499-724 | over every run without seeds a symbol whose deltas are taken holds none back |
| Feed.ResetStartsOver | crates/binance-spot-adapter/src/sequence.rs:166-168 | after a reset the next snapshot starts over from it, with nothing held before replayed |
| OrderMachine.OrderSm.ProcessInput | crates/order-gateway/src/machine.rs:240-253 | fields and actions after any input are those of the transition function |
| OrderMachine.OrderSm.HandlePending | crates/order-gateway/src/machine.rs:255-313 | the pending order's inputs: flush on acknowledgement, hold unseen fills, close on reject and cancel, ignore the rest |
| OrderMachine.OrderSm.HandleLive | crates/order-gateway/src/machine.rs:315-362 | the live order's inputs: apply unseen fills with their wrapped sum and status, close on cancel, expire and reject |
| OrderMachine.OrderSm.HandleUnknown | crates/order-gateway/src/machine.rs:364-416 | the unknown order's inputs, including the status check |
| OrderMachine.OrderSm.ResolveFromCheck | crates/order-gateway/src/machine.rs:418-495 | every outcome of a status check |
| OrderMachine.OrderSm.ApplyReported | crates/order-gateway/src/machine.rs:431-465 | a reported fill list is applied without the trades already delivered, then the held fills, one action each, and the order is filled |
| OrderMachine.OrderSm.CheckTimeout | crates/order-gateway/src/machine.rs:589-600 | a pending order past its timeout, by saturating subtraction, becomes unknown and nothing else changes |
| OrderMachine.StateMachineEngine.Track | crates/order-gateway/src/machine.rs:543-547 | exactly this order is added, pending and with empty accounts, as its own object |
| OrderMachine.StateMachineEngine.ProcessEvent | crates/order-gateway/src/machine.rs:562-583 | only the named order moves, unknown ids are an error, and an order that ends is dropped: no tracked order is terminal after its own event |
| OrderMachine.StateMachineEngine.Tick | crates/order-gateway/src/machine.rs:589-600 | exactly the timed-out orders turn unknown and each is reported once |
| MachineEnds.CancelledIff | crates/order-gateway/src/machine.rs:255-495 | an open order becomes cancelled exactly by a confirmed cancellation or, in doubt, a check that says so; then its status alone changes and the one action is the cancellation |
| MachineEnds.ExpiredIff | crates/order-gateway/src/machine.rs:255-495 | an open order expires exactly by an expiry of a live order or, in doubt, a check that says so, with the one matching action |
| MachineEnds.RejectedIff | crates/order-gateway/src/machine.rs:255-495 | an open order becomes rejected exactly by a rejection unless in doubt, or, in doubt, by a check that says so or does not find it |
| MachineEnds.RejectionRejects | crates/order-gateway/src/machine.rs:255-495 | the rejection is passed on with its reason, and nothing but the status changes |
| MachineEnds.NotFoundRejects | crates/order-gateway/src/machine.rs:418-495 | an order that is not found is rejected with the reason for that |
| MachineEnds.FilledIff | crates/order-gateway/src/machine.rs:255-495 | an open order is filled exactly by a check that says so, or by an acknowledgement or new fill that brings it to its quantity |
| MachineEnds.AckLeavesLive | crates/order-gateway/src/machine.rs:255-281 | an acknowledged order is filled, partially filled or new exactly as its sum has reached its quantity, lies below it above zero, or neither |
| MachineEnds.OthersLeaveStatus | crates/order-gateway/src/machine.rs:255-495 | nothing else fills an open order or makes it live |
| MachineEnds.FinishedStays | crates/order-gateway/src/machine.rs:240-253 | a finished order never moves again |
| MachineEnds.EndTellsItsCause | crates/order-gateway/src/machine.rs:240-495 | every run that ended was closed by one event, and the status it ended in is cancelled, expired, rejected or filled exactly by what that event said to the order as it then was |
| MachineEnds.OneEventCloses | crates/order-gateway/src/machine.rs:240-495 | after the event that closed it the order is as it will stay and everything that arrives is ignored |
| MachineEnds.TimedOutIff | crates/order-gateway/src/machine.rs:589-600 | a pending order is in doubt exactly when it is older than the timeout |
| MachineEnds.TicksTimeOutIff | crates/order-gateway/src/machine.rs:589-600 | over every run of ticks a pending order is in doubt exactly when one of them found it overdue |
| MachineEnds.AsksIff | crates/order-gateway/src/machine.rs:418-600 | a status is asked for exactly when a tick finds a pending order overdue or a check failed, and the order is then in doubt |
| MachineRuns.NextAccounts | crates/order-gateway/src/machine.rs:240-495 | every event either emits or holds each first-delivered trade, adds exactly what it emits to the filled quantity, and waiting orders emit nothing |
| MachineRuns.RunsBalance | crates/order-gateway/src/machine.rs:255-495 | conservation over every run, honest or not: emitted fills plus held fills are the first deliveries of all trades offered, and the filled quantity is the sum of what was emitted |
| MachineRuns.FirstDeliveriesAreDistinct | crates/order-gateway/src/machine.rs:255-295 | no trade id comes up twice among first deliveries and every offered id comes up |
| MachineRuns.LostFillsMeanClosedUnacknowledged | crates/order-gateway/src/machine.rs:283-313 | held fills are lost only when a cancel, reject or expiry closes an order that never emitted a fill |
| MachineRuns.DeliveriesSettle | crates/order-gateway/src/machine.rs:255-416 | after any delivery of acknowledgements, fills and ticks the state is a function of the set of trades delivered and of whether an acknowledgement was |
| MachineRuns.DeliveryOrderIsIrrelevant | crates/order-gateway/src/machine.rs:255-416 | two deliveries of the same trades and acknowledgements, in any order with any duplicates and ticks, emit the same fills and leave the same quantity and status |
| OrderGateways.OrderGateway.Enqueue | crates/order-gateway/src/gateway.rs:62-86 | issues the next id, journals the request and adds the pending order; nothing else changes |
| OrderGateways.OrderGateway.OnAck | crates/order-gateway/src/gateway.rs:90-114 | outcome and state of an acknowledgement, with its refusals and its idempotent case |
| OrderGateways.OrderGateway.OnFill | crates/order-gateway/src/gateway.rs:118-157 | outcome and state of a fill, final exactly when the wrapped sum reaches the quantity |
| OrderGateways.OrderGateway.OnCancel | crates/order-gateway/src/gateway.rs:161-183 | outcome and state of a cancel |
| OrderGateways.OrderGateway.OnReject | crates/order-gateway/src/gateway.rs:187-212 | outcome and state of a reject |
| OrderGateways.OrderGateway.OnExpire | crates/order-gateway/src/gateway.rs:216-236 | outcome and state of an expiry |
| OrderGateways.OrderGateway.Open | crates/order-gateway/src/gateway.rs:33-44 | opening a journal gives the replayed gateway or the decoder's error, and keeps the bytes |
| OrderGateways.OrderGateway.ReplayJournal | crates/order-gateway/src/gateway.rs:300-401 | the loop rebuilds the orders entry by entry and starts the generator after the largest counter journalled |
| GatewayLogs.VerdictIff | crates/order-gateway/src/gateway.rs:90-236 | a report is accepted exactly by an order that has not ended, refused exactly by one that has, duplicates apart; the entry journalled repeats what the report said, at its time |
| GatewayLogs.ReportOutcomeIff | crates/order-gateway/src/gateway.rs:90-236 | a report changes nothing unless accepted, and then adds one entry and moves one order |
| GatewayLogs.OrdersAreAsJournalled | crates/order-gateway/src/gateway.rs:62-236 | over every run the entries of an order tell the order: first and only request, last entry's status and time, the wrapped sum of the fills, the last acknowledged exchange id, nothing after an end, a fill final exactly when it completes the quantity |
| OrderGateways.EntryReplaysToOrder | crates/order-gateway/src/gateway.rs:300-401 | the entry journalled for an accepted report replays to the very order the report produced |
| OrderGateways.ReopensIff | crates/order-gateway/src/gateway.rs:33-44 | opening the journal of a gateway rebuilds it exactly when its log fits, replays to its orders and ends at its counter |
| OrderGateways.NextIdIsFresh | crates/order-gateway/src/gateway.rs:62-86 | the next id names no order the gateway knows |
| OrderGateways.StepStaysRecoverableIff | crates/order-gateway/src/gateway.rs:62-236 | a call keeps a recoverable gateway recoverable, one counter further for an enqueue and unchanged by a restart, exactly when what it journals fits and an enqueue does not take the last counter |
| OrderGateways.CrashRecoveryIsExact | crates/order-gateway/src/gateway.rs:300-401 | after any calls, accepted, refused or idempotent, and any restarts at moments when the same held, opening the journal bytes gives back the same orders field for field and the same next counter exactly when every call journalled something that fits and the counter, which is the number of enqueues modulo 2^64, has not wrapped away |
| OrderGateways.ShortRunsAreWhole | crates/order-gateway/src/gateway.rs:62-236 | that holds at every moment of a run with symbols of at most 255 bytes, reject reasons of at most 65504 and fewer than 2^64 enqueues |
| OrderGateways.TornJournalGoesBack | crates/order-gateway/src/gateway.rs:33-44 | after any such run, opening the journal cut at any byte of its fitting part is refused exactly when the cut is inside a record, and otherwise gives the gateway as it was after some of the run's calls, but for a counter that has wrapped away |
| OrderGateways.RestartsAreInvisibleIff | crates/order-gateway/src/gateway.rs:300-401 | a run is at every moment in the state of the run without its restarts exactly when each restart comes at a moment from which the journal rebuilds the gateway |
| OrderGateways.IdCountsEnqueues | crates/order-gateway/src/gateway.rs:395-398 | whatever restarts lie between, an enqueue issues the id numbered by the enqueues before it, modulo 2^64 |
| OrderGateways.IdsNeverRepeat | crates/order-gateway/src/cloid.rs:86-98 | no id is issued twice in a run of at most 2^64 enqueues, with restarts |
| OrderGateways.IdsRepeatIff | crates/order-gateway/src/cloid.rs:86-98 | two enqueues, in any runs, issue the same id exactly when the instance is the same and the enqueues before them are a multiple of 2^64 apart |
| OrderGateways.LastCounterIsNotRecovered | crates/order-gateway/src/cloid.rs:86-98 | at counter u64::MAX the live generator wraps to zero while the log explains, and so reopens to, a gateway whose counter stays at the maximum |
| OrderGateways.EnqueueReopensIff | crates/order-gateway/src/gateway.rs:62-86 | after an enqueue on a recoverable gateway its journal rebuilds it exactly when the symbol has at most 255 bytes and the counter was not u64::MAX |
| OrderGateways.ReportReopensIff | crates/order-gateway/src/gateway.rs:90-236 | after a report to a recoverable gateway its journal rebuilds it exactly when the entry written, if any, fits its length prefixes |
| MachineGateway.FillsDispatchIff | crates/order-gateway/src/gateway.rs:118-157 | the gateway takes a run of fills exactly when none but the last completes the order, and then holds their sum and a status to match |
| MachineGateway.ProcessSimulates | crates/order-gateway/src/machine.rs:240-495 | for every input of an honest exchange the gateway accepts the machine's actions in order and both agree on status and filled quantity |
| MachineGateway.ResolveSimulates | crates/order-gateway/src/machine.rs:418-495 | the same for every outcome of a status check |
| MachineGateway.ReportedFilledAgreesIff | crates/order-gateway/src/machine.rs:431-465 | for any reported trades and any order: the actions are never refused exactly when no fill but the last completes the order, and then both sides agree exactly when there are fills and they complete it |
| MachineGateway.HonestCheckAgreesIff | crates/order-gateway/src/machine.rs:431-465 | of an honest exchange a check reporting the order filled is never refused, and leaves both sides in agreement exactly when the trades reported and seen complete the order |
| MachineGateway.AckAgreesIff | crates/order-gateway/src/machine.rs:255-281 | for any held fills and any quantity, after an acknowledgement, in time or late, or a live status check: the actions are never refused exactly when no fill but the last completes the order, and then both sides agree exactly when, with fills, they add up to something or complete it, and without, something is left to fill |
| MachineGateway.ProcessAgreesIff | crates/order-gateway/src/machine.rs:240-495 | for any machine and order that agree and any input at all: exactly when no action is refused, and then exactly when both sides agree |
| MachineGateway.RunAgreesIff | crates/order-gateway/src/machine.rs:240-495 | over every run, honest or not, no action is refused and both sides agree after every event exactly when every event meets that condition |
| MachineGateway.RunNeverRefused | crates/order-gateway/src/gateway.rs:90-236 | over every honest run of events and ticks no action is refused and both sides agree after every event |
| MachineGateway.EnqueueHandsOver | crates/order-gateway/src/gateway.rs:62-86 | an enqueue leaves a pending order with its request, its time, nothing filled and no exchange id, and a machine tracking it agrees with it |
| MachineGateway.FirstAckIsTaken | crates/order-gateway/src/gateway.rs:90-116 | its first acknowledgement is accepted, journalled and records the exchange id |
| MachineGateway.EnqueuedRunNeverRefused | crates/order-gateway/src/machine.rs:16-50 | from the enqueue on, no action of an honest run is refused and both sides agree |
| MachineGateway.Submit | crates/order-gateway/src/machine.rs:16-50 | enqueue and track on the objects: both sides agree on the new order, and no other order moves |
| MachineGateway.ActionIsJournalled | crates/order-gateway/src/gateway.rs:90-236 | an action that moves the gateway is journalled once, in its own words |
| MachineGateway.FillsAreJournalled | crates/order-gateway/src/gateway.rs:118-157 | the fills handed on are journalled once each and in order, with quantity and price, and marked final exactly when they complete the order |
| MachineGateway.DispatchTo | crates/order-gateway/src/gateway.rs:90-236 | dispatching a list of actions to the gateway object leaves the whole gateway, journal included, as after reporting them in turn up to the first refusal, and returns that refusal |
| MachineGateway.ReportedAllDispatches | crates/order-gateway/src/gateway.rs:90-236 | seen from the one order that is dispatching its actions, refused with the same error or ending in the same order, and no other order moves |
| MachineGateway.ProcessAndDispatch | crates/order-gateway/src/machine.rs:562-583 | any event, honest or not: machine, engine and whole gateway afterwards are those of the transition function and of its actions reported in turn, and a finished order is no longer tracked |
| MachineGateway.HandleEvent | crates/order-gateway/src/machine.rs:562-583 | engine and gateway objects together: an event of an honest exchange succeeds, keeps both in agreement and moves no other order |
| Journals.EncodePayload | crates/order-gateway/src/journal.rs:263-340 | the put calls write the documented payload of every entry kind |
| Journals.EncodeFrame | crates/order-gateway/src/journal.rs:340-352 | tag, timestamp, sixteen-bit length, payload |
| Journals.DecodeOneRecord | crates/order-gateway/src/journal.rs:354-465 | one record or the first error met, by the cursor's reads in order |
| Journals.DecodeAllRecords | crates/order-gateway/src/journal.rs:470-479 | the loop terminates on arbitrary bytes and returns all records or the first error |
| Journals.Journal.Append | crates/order-gateway/src/journal.rs:536-552 | the encoded entry goes after the bytes already there |
| JournalLayouts.RecordStands | crates/order-gateway/src/journal.rs:1-16 | the offset table of a record |
| JournalLayouts.TagsAreNumbered | crates/order-gateway/src/journal.rs:28-36 | the tag of each kind of entry |
| JournalLayouts.CodesAreNumbered | crates/order-gateway/src/journal.rs:263-290 | the codes of side, type and time in force, and that no others are read |
| JournalLayouts.IdStands | crates/order-gateway/src/journal.rs:263-340 | every payload begins with the client order id behind its length |
| JournalLayouts.RequestStands | crates/order-gateway/src/journal.rs:263-290 | where each field of a request stands |
| JournalLayouts.ReportStands | crates/order-gateway/src/journal.rs:290-340 | where each field of the other entries stands |
| Framing.DecodeOne | crates/order-gateway/src/journal.rs:354-366 | every record read from arbitrary bytes advances by at least eleven and stays inside the buffer |
| Journals.SurvivesIffFits | crates/order-gateway/src/journal.rs:151-163 | an entry written alone is read back exactly when id and symbol are at most 255 bytes and the payload at most 65535 |
| Journals.JournalRoundTripIff | crates/order-gateway/src/journal.rs:470-479 | a journal decodes to exactly the entries appended exactly when all of them fit |
| Journals.DecodedAllFit | crates/order-gateway/src/journal.rs:354-465 | whatever bytes are decoded, every entry that comes out fits its length prefixes |
| Journals.CutJournalDecodes | crates/order-gateway/src/journal.rs:470-479 | a journal cut at any byte decodes exactly when the cut is at a record boundary, and then to exactly the entries before it |
| RecordLog.PrefixDecodes | crates/order-gateway/src/journal.rs:470-479 | the same for any self-delimiting records whose writer and reader agree |
| RecordLog.WholeLogDecodes | crates/order-gateway/src/journal.rs:470-479 | the round trip for any such records |
| ClientOrderIds.ClientOrderIdGenerator.Next | crates/order-gateway/src/cloid.rs:94-98 | issues the id of the current counter, at most 28 bytes of ASCII, and wraps the counter |
| ClientOrderIds.ParseInvertsGenerate | crates/order-gateway/src/cloid.rs:35-56 | both parsers invert the generator for every instance and counter |
| ClientOrderIds.GenerateIsInjective | crates/order-gateway/src/cloid.rs:94-98 | different instances or counters give different ids |
| ClientOrderIds.GeneratedIsShortAscii | crates/order-gateway/src/cloid.rs:94-98 | every id has 24 to 28 ASCII bytes |
| ClientOrderIds.IdStands | crates/order-gateway/src/cloid.rs:1-12 | an id byte for byte: cc, dash, the hex digits of the instance, dash, the sixteen of the counter |
| ClientOrderIds.WidthIff | crates/order-gateway/src/cloid.rs:94-98 | an instance takes more than four digits exactly as many as it has |
| ClientOrderIds.StringOrderIsCounterOrder | crates/order-gateway/src/cloid.rs:94-98 | for instances of at most 16 bits ids sort as strings exactly by instance, then counter |
| ClientOrderIds.SortsIff | crates/order-gateway/src/cloid.rs:94-98 | for any instances and counters, two ids sort as strings by instance, then counter, exactly when the lower instance is at most the higher one cut to the lower one's printed width |
| ClientOrderIds.AllSortIff | crates/order-gateway/src/cloid.rs:94-98 | all ids of instances up to a bound sort so exactly when the bound is at most 0xffff |
| FieldLists.AllReadBack | crates/connector-core/src/codec.rs:84-162 | if each field reads back, a list of fields standing in a buffer reads back whole, whatever follows |
| FieldLists.CutOffIsNoticed | crates/connector-core/src/codec.rs:84-162 | a list of fields cut short at any byte fails to read |
| Utf8.ValidUtf8Iff | crates/connector-core/src/codec.rs:140-157 | a byte sequence is a string exactly when reading one character after the other from its front succeeds |
| Utf8.CharLengthIff | crates/connector-core/src/codec.rs:140-157 | a character is the shortest form of a scalar value, surrogates excluded, as section 4 of RFC 3629 has it |
| WireCodec.FieldsAreCodec | crates/connector-core/src/codec.rs:14-79 | every field kind that fits its length prefix reads back from its own bytes and fails when cut short |
| WireHeader.HeaderRoundTrip | crates/connector-core/src/header.rs:51-96 | a header is read back from its 56 bytes whatever follows |
| WireHeader.PatchedHeader | bin/connector/src/main.rs:113-114 | overwriting bytes 48 to 56 of any buffer changes at most the publish time the header decodes to |
| WireLayouts.HeaderStands | crates/connector-core/src/header.rs:8-22 | the offset table of the header |
| WireLayouts.HeaderFailsIff | crates/connector-core/src/header.rs:74-96 | which headers are refused, and for which reason first |
| WireLayouts.TypesAreNumbered | crates/connector-core/src/types.rs:41-60 | the number of each message type, and that any other is refused by name |
| WireLayouts.BodiesAreNumbered | crates/connector-core/src/types.rs:41-60 | each message carries the number of its own type |
| WireLayouts.PlacesAreNumbered | crates/connector-core/src/types.rs:5-38 | the numbers of venues and markets |
| WireLayouts.StatesAreNumbered | crates/connector-core/src/types.rs:148-196 | the numbers of feed states and aggressor sides |
| WireLayouts.ReasonsAreNumbered | crates/connector-core/src/types.rs:198-224 | the numbers of staleness reasons |
| WireMessages.FieldsHaveLayout | crates/connector-core/src/message.rs:91-106 | every encoder writes the fields its decoder reads, kind by kind |
| WireMessages.FieldsGiveBody | crates/connector-core/src/message.rs:108-130 | every decoder puts each field back where the encoder took it from |
| WireLayouts.FieldAt | crates/connector-core/src/codec.rs:14-79 | every field stands where those before it end |
| WireCodec.LevelStands | crates/connector-core/src/message.rs:24-37 | each level takes sixteen bytes, price before quantity |
| WireLayouts.InstrumentDefinitionStands | crates/connector-core/src/message.rs:91-106 | the place of every field of the message, for all its values |
| WireLayouts.TradingStatusStands | crates/connector-core/src/message.rs:139-144 | the place of every field of the message, for all its values |
| WireLayouts.SnapshotStands | crates/connector-core/src/message.rs:174-183 | the place of every field of the message, for all its values |
| WireLayouts.DeltaStands | crates/connector-core/src/message.rs:220-231 | the place of every field of the message, for all its values |
| WireLayouts.BestBidOfferStands | crates/connector-core/src/message.rs:269-280 | the place of every field of the message, for all its values |
| WireLayouts.TradeStands | crates/connector-core/src/message.rs:318-330 | the place of every field of the message, for all its values |
| WireLayouts.MarkPriceStands | crates/connector-core/src/message.rs:365-372 | the place of every field of the message, for all its values |
| WireLayouts.FundingRateStands | crates/connector-core/src/message.rs:403-410 | the place of every field of the message, for all its values |
| WireLayouts.LiquidationStands | crates/connector-core/src/message.rs:443-454 | the place of every field of the message, for all its values |
| WireLayouts.OpenInterestStands | crates/connector-core/src/message.rs:486-492 | the place of every field of the message, for all its values |
| WireLayouts.FeedStatusStands | crates/connector-core/src/message.rs:538-542 | the place of every field of the message, for all its values |
| WireLayouts.GapDetectedStands | crates/connector-core/src/message.rs:567-573 | the place of every field of the message, for all its values |
| WireLayouts.BookStaleStands | crates/connector-core/src/message.rs:599-604 | the place of every field of the message, for all its values |
| WireLayouts.BookRecoveredStands | crates/connector-core/src/message.rs:629-634 | the place of every field of the message, for all its values |
| WireLayouts.BookChecksumStands | crates/connector-core/src/message.rs:686-694 | the place of every field of the message, for all its values |
| WireMessages.DecodesIff | crates/connector-core/src/message.rs:777-805 | an encoded message followed by any bytes is read back exactly when its header names its own type and that type belongs on the stream |
| WireMessages.NoPrefixDecodes | crates/connector-core/src/message.rs:777-805 | no strict prefix of an encoded message decodes, as any type |
| WireMessages.EncodingsArePrefixFree | crates/connector-core/src/message.rs:777-827 | no encoded message begins with the encoding of another |
| WireMessages.PatchChangesPublishTsOnly | bin/connector/src/main.rs:113-114 | overwriting bytes 48 to 56 of any buffer, valid or not, changes the outcome of decoding it in the publish time alone |
| WireEncoder.WriteHeader | crates/connector-core/src/header.rs:51-72 | writes exactly the header over the first 56 bytes, or fails and writes nothing |
| WireEncoder.Encoder.PutText | crates/connector-core/src/codec.rs:63-75 | a string goes in with its prefix, or stops at the first part that does not fit |
| WireEncoder.Encoder.PutLevels | crates/connector-core/src/message.rs:24-37 | a level list goes in with its count, or stops at the first number that does not fit |
| WireEncoder.PutFieldsIff | crates/connector-core/src/codec.rs:19-75 | a body goes in exactly when every field fits its prefix and the total fits the room, and then its bytes are written |
| WireEncoder.EncodeInto | crates/connector-core/src/message.rs:807-827 | succeeds exactly when the message is encodable and fits; then exactly its bytes are written and the rest of the buffer is unchanged; on failure the error and the bytes written are those up to the first put that failed |
| WireEncoder.EncodeAndStamp | bin/connector/src/main.rs:95-117 | what is published decodes to the very message with the new publish time |
| WireDecoder.Decoder.Levels | crates/connector-core/src/message.rs:39-49 | the counted loop reads the level list or stops at the first short read |
| WireDecoder.Decoder.ReadValue | crates/connector-core/src/codec.rs:104-157 | every kind of field is read by the cursor as specified, with its errors |
| WireDecoder.DecodeMessage | crates/connector-core/src/message.rs:777-805 | decoding any bytes with the cursor gives the specified message or error |
| Decimals.DecimalReadsIff | crates/binance-spot-adapter/src/normalizer.rs:234-263 | a digit string, with a dot or without, parses to the digits of its integer part followed by exactly the scale's decimals exactly when that number is at most i64::MAX |
| Decimals.DecimalIsFloored | crates/binance-spot-adapter/src/normalizer.rs:250-263 | which is the decimal number times the power of ten of the scale, rounded down |
| Decimals.JsonAndSbeAgree | crates/protocol-sbe/src/decimal.rs:75-87 | parsing the eight-decimal rendering of any non-negative mantissa to a scale of at most 8 equals scaling the SBE mantissa, and rescaling for the database loses exactly the digits below the scale |
| Decimals.ScalesDown | bin/clickhouse-bridge/src/rows.rs:26-32 | scaling down floors and stays in range, and scaling back up gives the mantissa without its low digits |
| Decimals.ScalesTowardZero | crates/protocol-sbe/src/decimal.rs:75-87 | downward a negative mantissa is cut toward zero, on both paths |
| Decimals.ScalesUpIff | bin/clickhouse-bridge/src/rows.rs:26-32 | upward a mantissa is multiplied exactly when the product fits an i64, on both paths |
| Decimals.NegativeScalesIff | crates/binance-spot-adapter/src/normalizer.rs:262 | a negative decimal string, with a dot or without, is scaled correctly exactly when it has an integer digit, every kept fractional digit is zero and the result is at least i64::MIN |
| Histograms.Histogram.Record | crates/metrics/src/histogram.rs:83-92 | bucket counts, count and sum, each wrapping at 2^64, always account for exactly the non-negative samples recorded |
| Histograms.Histogram.Percentile | crates/metrics/src/histogram.rs:110-124 | nothing exactly when the wrapped count is zero; below 2^64 samples, for any floating product of count and fraction, the end of the bucket of the true order statistic of the rank it rounds up to, the first bound for rank 0 and u64::MAX beyond the last sample |
| Histograms.RankIsClose | crates/metrics/src/histogram.rs:110-124 | for up to 2^53 samples and any fraction, whatever the product's rounding to the nearest double, the rank is that of a sample and the exact one, or the one before it; the exact one when the product is whole |
| Histograms.LeastBoundIsLeast | crates/metrics/src/histogram.rs:105-109 | the end of a sample's bucket is the least bound not below it, or u64::MAX when none is |
| Histograms.RankIff | crates/metrics/src/histogram.rs:110-124 | the k-th smallest sample is at most x exactly when k samples are |
| Histograms.CountBelowIsCountAtMost | crates/metrics/src/histogram.rs:87-88 | the first k buckets hold exactly the samples up to the k-th bound, and all of them hold all |
| Histograms.BucketsAddUp | crates/metrics/src/histogram.rs:83-92 | below 2^64 samples the bucket counts add up to the number of samples |
| CircuitBreakers.CircuitBreaker.Check | crates/binance-spot-adapter/src/circuit_breaker.rs:77-90 | open before its time, else closed and reset |
| CircuitBreakers.CircuitBreaker.RecordFailure | crates/binance-spot-adapter/src/circuit_breaker.rs:107-119 | counts a failure of a closed breaker, opens it at the limit and reports that, and leaves an open one alone |
| CircuitBreakers.OpensAtTheLimit | crates/binance-spot-adapter/src/circuit_breaker.rs:107-119 | any run of failures opens the breaker exactly when it is a burst long, until a cooldown after the failure that completed it |
| CircuitBreakers.TellsWhenItOpens | crates/binance-spot-adapter/src/circuit_breaker.rs:107-119 | exactly the failure that opens the breaker is told so, and an open one is left as it is |
| CircuitBreakers.ReopensOnTime | crates/binance-spot-adapter/src/circuit_breaker.rs:77-119 | whatever is asked or fails meanwhile, an open breaker answers with its time until then, and from then on lets the next attempt through with its count at zero |
| CircuitBreakers.RunStaysPaced | crates/binance-spot-adapter/src/circuit_breaker.rs:77-119 | over every run of failing attempts an attempt and the one a burst later are at least a cooldown apart |
| CircuitBreakers.RateIsBounded | crates/binance-spot-adapter/src/circuit_breaker.rs:1-9 | any window of time T holds at most max_attempts times (T / cooldown + 1) attempts |

## Left out

- Network, Aeron publications, ClickHouse inserts, HTTP fetching, timers, signals and logging: inputs arrive as events and snapshots.
- The drivers' counters, feed-state messages and circuit checks around recovery, and the order in which publications leave.
- File-backed journals: appends never fail here. With a failing append the gateway's methods would already have changed the order, so replay would not be exact.
- The reason texts inside journal errors, Display and Error formatting, and the accessors that only read a field.
- The two venues' recovery buffers and verdict types are the same code twice; they are modelled once.
- Recovery.JudgeTracks: asks that exchange update ids start at 1, as the venue numbers them.
- OrderGateways.CrashRecoveryIsExact: restarts lie between whole calls (OrderGateways.TornJournalGoesBack covers torn writes), each at a moment from which the journal rebuilds the gateway; what a gateway does after a restart that did not rebuild it is not modelled.
- MachineGateway.RunNeverRefused: asks for an honest exchange, that is, one positive fill per trade id, within the order's quantity, and "filled" reported only of completed orders.
- Histograms.Histogram.Percentile: the f64 product is a parameter; Histograms.RankIsClose asks of its rounding that it is monotone and exact on whole numbers up to 2^53. Counts beyond 2^53 are themselves rounded, and atomics have sequential meaning.
- CircuitBreakers.RateIsBounded: attempts fail before the next is asked for, none succeeds, and the clock stays a cooldown below i64::MAX.
- Decimals.JsonAndSbeAgree: text is ASCII and the kinds of failure are not told apart; to_d8 is modelled up to scale 26, beyond which its divisor overflows.
- WireMessages.FieldsHaveLayout: the put and get calls of each message struct are listed as field values in order, and one loop runs over the list where the source has straight-line calls; allocation failure on a huge level count is not modelled.
- MachineRuns.DeliveryOrderIsIrrelevant: covers acknowledgements, fills and ticks; a cancel, reject or expiry is by nature order-dependent.
- Timestamps carried by machine inputs, which the machine does not read.
- Bucket bounds, default limits and timeouts are the source's numbers; nothing is proved of their values but that the bounds ascend.
- Backoff, sharding, backpressure, BBO and snapshot validators, refdata, reconciler, redundancy arbiter and replay: short threshold or library-driven logic that would add only easy members.
- serde JSON parsing and SBE message framing: not shown in the repository's own code.

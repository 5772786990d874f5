# Icicle: models and proofs

Icicle indexes Avalanche chains into ClickHouse and serves them over HTTP and WebSocket. Most of it is SQL and
request handling; this project models the parts whose correctness is a property of logic rather than of a query, and
proves what the rest of the system relies on them for. There is one module per source file or protocol:

| area | modules |
|---|---|
| shared | `Base` (options, integer widths), `Decimal`, `Text`, `Utf8`, `Lex` (byte and array order), `Sorting` |
| ABI signatures, `pkg/enrich/selector.go` | `Selector` (the code), `Abi` (types, values and their encoding), `SelectorProofs` |
| keyset pagination, `pkg/api` | `Keyset` (any endpoint), `TraceCursor` and `TxIdCursor` (the two cursor formats) |
| shared state, `pkg/api`, `pkg/circuitbreaker` | `StablecoinProtocol`, `StablecoinCache`, `WsHub`, `BlockFeed`, `CircuitBreaker` |
| watermarks, `pkg/evmindexer`, `cmd`, `pkg/dexvolume` | `Calendar`, `Periods`, `GranularRunner`, `IncrementalRunner`, `AddressBackfill`, `DexVolume` |
| arithmetic and indexes | `WeightDiv`, `Staking`, `BlockCache`, `LiqDaily` |

Conventions. Code that loops or updates fields is a method, proved equal to a function or a protocol step; the laws
are lemmas about that function or step. Concurrent parts are step relations: a run is any sequence of enabled steps,
so every interleaving, cancellation, crash and failure is covered, and a failed write may still have been applied. Go's
`int`, `uint32` and `uint64` wrap around explicitly (`Wrap64`, `WrapU32`, `WrapU64`) wherever a wrap could matter.
Instants are whole nanoseconds since 1970, days are day numbers, and money and percentages are exact reals. The clock, the
answers of the database, the contents of the raw tables and whether a call fails are parameters. `dafny verify
dfyconfig.toml` checks everything.

## Where the code and its comments differ

The models follow the code.

- `pkg/enrich/selector.go:106` says a static list must match the head size exactly. A parsed `T[k]` multiplies in Go's
  `int`, so a list of 2^64 head bytes passes for an empty call; `StaticListsMatchOnlyTheirLength` has the exact condition.
- `pkg/enrich/selector.go:69` says ChooseSignature fails only without candidates; it also fails when all of them have an
  empty signature (`ChooseIsBest`).
- `pkg/api/websocket.go:330-333` promises a contiguous feed. A stream that ends with `rows.Err` after ready rows
  drops them and still advances (360-363); `NoGapIffClean` has the exact condition for one fetch, `FeedIsConsecutiveIff` for a
  whole run.
- `pkg/api/websocket.go:192` caps the clients of a chain, but does not see pending reservations: two handlers can
  pass a cap of 1 (`ChainCapCanBeExceeded`). `ChainCapIff` says exactly when a chain stays within its cap.
- `pkg/api/handlers_staking.go:38-40` calls the first fee bucket exactly the 2% minimum; the code puts every fee up
  to 2% there.
- `cmd/cmd_address_backfill.go:115-128` gives a chain with nothing captured everything up to its head. With a head in
  block 2^32 - 1 the cutoff wraps to 0 and the run reports completion at once (`WrappedCutoffCopiesNothing`);
  `WrappedCutoffIff` says when that is right.
- `pkg/dexvolume/dexvolume.go:151-153` calls Sync safe to re-run. A rollup that fails after inserting only some rows of
  its range can leave others out for good (`PartialLeavesGap`, `PartialBackwardLeavesGap`). `PartialForwardIff` and
  `PartialBackwardIff` say exactly when one does, `NoGapsIff` what that means for a whole run.
- `pkg/cache/cache.go:126` promises the blocks of a range. A longer key in the store is filed under the block it starts
  with (`ForeignKeyAtFive`), and the cache writes such keys itself for blocks from 10^14 on
  (`OverlongBlockIsMisfiled`); `RangeIsBlocksIff` has the exact condition. The iterator's error is never looked at, so a scan
  that fails on the way passes for complete (`PartialIsLowerPart`).
- `pkg/evmindexer/incremental.go` with a start block of 0 never indexes anything (`StartsIffPositive`).
- `pkg/circuitbreaker/circuitbreaker.go:79-81` lets one request through in the half-open state. A caller that returns
  without reporting, as `pkg/evmrpc/fetcher.go:231-236` does on an RPC error in a batch, leaves the circuit refusing
  everything; `UnreportedTrialBlocks` says exactly how long.

## Model

| member | source | states |
|---|---|---|
| Abi.EncTupleLength | pkg/enrich/selector.go:169-223 | The encoding of an argument list (Solidity Contract ABI Specification, "Formal Specification of the Encoding") has at least 32 bytes per head word, and exactly that many when every type is static: the ground truth that head sizes are measured against |
| Selector.ComputeSplitTopLevel | pkg/enrich/selector.go:144-165 | The scanning loop never slices out of range and returns the trimmed depth-0 pieces on every string |
| SelectorProofs.PiecesAreTheCut | pkg/enrich/selector.go:144-165 | Cutting a string loses nothing: the pieces joined by commas are the string again, and no piece has a comma at depth 0 |
| SelectorProofs.NoCutMeans | pkg/enrich/selector.go:146-162 | A comma at depth 0 is one before which as many parentheses are opened as closed |
| SelectorProofs.DepthCounts | pkg/enrich/selector.go:146-162 | The depth after a text is the number of its opening parentheses less that of its closing ones |
| SelectorProofs.PiecesUndoJoin | pkg/enrich/selector.go:144-165 | The other inverse: pieces without depth-0 commas come back unchanged from their join |
| SelectorProofs.SplitPrinted | pkg/enrich/selector.go:136-165 | Any list of type trees, nested tuples included, is recovered component by component from its printed form |
| Selector.ComputeHeadWords | pkg/enrich/selector.go:169-223 | headWords terminates on every string, well-formed or not, and its loops and recursion compute the grammar's head |
| SelectorProofs.HeadWordsPrinted | pkg/enrich/selector.go:169-223 | On the printed form of every type tree headWords gives back exactly the tree's head size (as a wrapping int) and whether it is dynamic |
| SelectorProofs.PlausiblePrinted | pkg/enrich/selector.go:109-132 | Plausible on a printed signature holds exactly when the argument bytes equal (static) or reach (dynamic) the head bytes |
| SelectorProofs.PlausibleAcceptsEncoding | pkg/enrich/selector.go:104-132 | For every parameter list and all values of those types, the signature is plausible at 4 plus the length of their encoding: a genuine signature is never rejected |
| SelectorProofs.StaticListsMatchOnlyTheirLength | pkg/enrich/selector.go:104-132 | A static list is plausible at no other length, if and only if its head bytes do not wrap to another possible length |
| SelectorProofs.OversizedArrayWraps | pkg/enrich/selector.go:169-195 | The wrap happens: `f(uint8[2^59])` is plausible for a call without arguments |
| SelectorProofs.NotACallIsPlausible | pkg/enrich/selector.go:104-113 | A signature without an opening parenthesis, or without a closing one at its end, is plausible for every calldata |
| SelectorProofs.ParametersOf | pkg/enrich/selector.go:134-142 | Otherwise its parameters are the depth-0 pieces between the first parenthesis and the last character |
| SelectorProofs.BadParameterIsPlausible | pkg/enrich/selector.go:104-125 | Once any parameter does not parse the signature is plausible for every calldata of at least 4 bytes; with parameters it is never plausible for less |
| SelectorProofs.NamesThatParse | pkg/enrich/selector.go:208-223 | Which types without brackets and parentheses parse, to how many words, and which of them are dynamic |
| SelectorProofs.HeadWordsOfArray | pkg/enrich/selector.go:170-195 | Every array type, printed or not: T[] is one dynamic word, a count that is not all digits does not parse, and T[k] is k times the words of T unless T is dynamic |
| SelectorProofs.TupleIs | pkg/enrich/selector.go:196-212 | Every tuple type, printed or not: its components are read in turn up to the first dynamic one, which makes the tuple one dynamic word; one that does not parse before that makes the tuple unparseable; otherwise their words add up |
| SelectorProofs.UnbalancedIsBad | pkg/enrich/selector.go:170-200 | A type that ends in a bracket that was never opened, or opens a parenthesis it does not close, does not parse |
| SelectorProofs.TrimSpaceIs | pkg/enrich/selector.go:144-165 | Trimming a piece takes away spaces at both ends, all of them and nothing else |
| Selector.ComputePlausible | pkg/enrich/selector.go:109-132 | The loop over parameters stops at the first one that does not parse, and decides what the laws above are about |
| Selector.ChooseSignature | pkg/enrich/selector.go:70-102 | Filtering, scoring and the stable sort return the head of the ordered candidates, or failure |
| SelectorProofs.ChooseIsBest | pkg/enrich/selector.go:66-102 | It fails exactly when all signatures are empty, and otherwise returns an eligible candidate that no other one beats |
| SelectorProofs.ChosenIsAtLeastAsGood | pkg/enrich/selector.go:86-101 | What is chosen, said about the candidates alone: for every other non-empty candidate it fits the calldata and the other does not, or else its priority number is smaller, or else it has fewer UTF-8 bytes, or else its bytes are less where the two first differ, or they are the same |
| SelectorProofs.AsciiIsShortest | pkg/enrich/selector.go:96-99 | Among ASCII signatures of equal plausibility and priority the chosen one is a shortest one, and of the shortest the first in the alphabet |
| SelectorProofs.ByteLenIsLength | pkg/enrich/selector.go:96-98 | The length compared is the number of UTF-8 bytes (RFC 3629, section 3) |
| Utf8.Lead | pkg/enrich/selector.go:96-98 | A code point takes one, two, three or four bytes, by its size |
| Utf8.BytesConcat | pkg/enrich/selector.go:96-98 | The bytes of a text are those of its parts in turn |
| Utf8.BytesOrder | pkg/enrich/selector.go:99 | Comparing bytes, as Go does, and comparing code points give the same order |
| SelectorProofs.ChooseIgnoresOrder | pkg/enrich/selector.go:66-102 | The choice depends on the set of candidates only, not on the order or multiplicity in which they are stored |
| SelectorProofs.TrueSignatureWins | pkg/enrich/selector.go:66-132 | When the calldata encodes one of the candidates, the chosen one is plausible, and it is the true one as soon as every other plausible candidate has a larger priority number |
| Keyset.RestAfter | pkg/api/server.go:407-412 | For any endpoint whose printed cursor selects the rows after its row, the rows left after following a row's cursor are the rows behind it |
| Keyset.HandlePage | pkg/api/handlers_txs.go:776-847 | Any request: without a cursor it returns rows offset to offset + limit of the ordered table, with one the first limit rows behind it whatever the offset; has_more says whether a row follows, and the next cursor is that of the last row returned |
| Keyset.WalkIsTable | pkg/api/server.go:407-412 | Following next_cursor until has_more is false gives the whole ordered table once, for every page size, if and only if no key is stored twice |
| Keyset.WalkMissesNothing | pkg/api/server.go:407-412 | Even with duplicate keys no row is skipped altogether |
| Keyset.TourListsTable | pkg/api/server.go:407-412 | While the table gains rows between requests that are listed before the ones already given out, like new blocks on a descending list, the client is given the rows that were there at its first request: once, in order, all of them once has_more is false, and after finitely many requests |
| TraceCursor.GetTraceCursor | pkg/api/handlers_txs.go:682-713 | The parsing loops accept exactly the texts of the cursor grammar, with the uint32 and uint16 ranges checked |
| TraceCursor.ParseIff | pkg/api/handlers_txs.go:682-713 | Said without the parser: a cursor is read from a uint32 and a uint16 numeral with a colon between them and, behind another colon, uint16 numerals with dots between them, perhaps none; any other text is no cursor |
| TraceCursor.ParseShow | pkg/api/handlers_txs.go:670-729 | getTraceCursor undoes String: a cursor comes back unchanged exactly when it carries a trace position |
| TraceCursor.OldFormSkipsTransaction | pkg/api/handlers_txs.go:670-721 | The old two-part form still parses, and selects exactly the rows of earlier transactions |
| TraceCursor.OrderMeans | pkg/api/handlers_txs.go:771-796 | The listing: later blocks first, then later transactions, then later trace positions, compared where they first differ |
| TraceCursor.ConditionMeans | pkg/api/handlers_txs.go:715-721 | A cursor selects what that listing has after its position, and without a trace position what belongs to earlier transactions |
| TraceCursor.HandleAddressInternalTxs | pkg/api/handlers_txs.go:762-854 | The handler's page, its has_more and its next cursor are those of the keyset walk, an offset counts only without a cursor, and there is an error instead exactly when the query, a row that is reached, or the end of the rows fails |
| TraceCursor.WalkListsTable | pkg/api/handlers_txs.go:744-855 | Walking an address's internal transactions lists them once, in descending (block, tx index, trace array) order, for every table and page size, if and only if no key is stored twice |
| TxIdCursor.ParseShow | pkg/api/server.go:361-399 | getTxIDCursor undoes cursorBlockTxID for every block and every id, ids with colons included |
| TxIdCursor.ParseOldForm | pkg/api/server.go:361-394 | A bare block number still parses and resumes at the next lower block |
| TxIdCursor.ParseIff | pkg/api/server.go:370-385 | Said without the parser: a cursor is read from a uint64 numeral, and behind the first colon comes the id, whatever it is; any other text is no cursor |
| TxIdCursor.OrderMeans | pkg/api/server.go:361-394 | The listing: later blocks first, and within a block ids in the order of their characters where they first differ |
| TxIdCursor.ConditionSelectsAfter | pkg/api/server.go:388-394 | The condition selects exactly the rows after the cursor in (block DESC, id ASC) order if and only if the id is not empty |
| TxIdCursor.FaithfulIff | pkg/api/server.go:361-399 | Over a whole table the printed cursor of each row selects exactly the rows listed after it, if and only if rows with an empty id share their block with no other id |
| TxIdCursor.WalkListsTable | pkg/api/server.go:361-412 | Under that condition, so in particular for non-empty ids, walking a (block DESC, id ASC) list gives it once and in order for every page size, if and only if no key is stored twice |
| StablecoinProtocol.RunInv | pkg/api/stablecoin_cache.go:43-124 | Every interleaving of gets, cancellations, wake-ups, cold-load ends and refresh ends keeps the invariant that ties map, entries, channels, goroutines and waiters together |
| StablecoinProtocol.SingleFlight | pkg/api/stablecoin_cache.go:11-21 | At most one load runs per chain, and the map holds only chains with data or a running cold load, so unknown chains never grow it |
| StablecoinProtocol.DataNeverLost | pkg/api/stablecoin_cache.go:85-124 | Once a chain has data it has data at every later point of the run |
| StablecoinProtocol.WaitersAreServed | pkg/api/stablecoin_cache.go:57-83 | The channel of every waiting request is closed already or will be closed by a running cold load of its entry |
| StablecoinProtocol.WokenGetsOutcome | pkg/api/stablecoin_cache.go:65-83 | A woken request returns the error or the empty list of the load it waited for, and after a load that brought data exactly what the chain's entry holds, even though that may have been refreshed since |
| StablecoinProtocol.RefreshIffStale | pkg/api/stablecoin_cache.go:43-56 | In every run, a get on a chain with data starts a refresh if and only if the copy is at least one ttl old and no refresh of the chain is running, so after a get on an old copy one is always running; nothing else changes |
| StablecoinProtocol.ColdGetWaits | pkg/api/stablecoin_cache.go:57-67 | A get on a chain without data waits for the chain's one running cold load, which it starts exactly when there is none; no refresh starts and no other entry changes |
| StablecoinProtocol.LoadEnds | pkg/api/stablecoin_cache.go:85-124 | A load that ends with a list stores it with the time; a failed or empty refresh keeps copy and time, a failed or empty cold load leaves no entry; afterwards no load of the chain runs, and a cold load's waiters get its result |
| StablecoinProtocol.CopyIsLastLoad | pkg/api/stablecoin_cache.go:85-124 | At any point of a run a chain's copy is what its last load that returned a list brought, stamped with the end of that load |
| StablecoinProtocol.GuardsNeverFire | pkg/api/stablecoin_cache.go:96-113 | A cold load that ends finds its own entry in the map with its channel open, and a refresh that ends finds an entry with data |
| StablecoinCache.StablecoinCache.Get | pkg/api/stablecoin_cache.go:43-63 | The first critical section on the objects and the map is exactly the protocol's get step; what it serves is the data there was, and with data a refresh starts exactly when the copy is at least one ttl old and not being refreshed |
| StablecoinCache.StablecoinCache.ColdLoadEnd | pkg/api/stablecoin_cache.go:85-101 | The end of a cold load on the objects is exactly the protocol's step; errors and empty lists are not kept |
| StablecoinCache.StablecoinCache.RefreshEnd | pkg/api/stablecoin_cache.go:103-124 | The end of a refresh on the objects is exactly the protocol's step; a failed refresh keeps the stale copy |
| StablecoinCache.StablecoinCache.Wake | pkg/api/stablecoin_cache.go:74-82 | The second critical section answers from the entry the request waited on |
| CircuitBreaker.CircuitBreaker.Allow | pkg/circuitbreaker/circuitbreaker.go:66-84 | One Allow is one protocol step: granted while closed, and once when open and the cooldown is over |
| CircuitBreaker.CountsTrailingFailures | pkg/circuitbreaker/circuitbreaker.go:87-103 | After any call trace the failure counter is the length of the trailing run of failures |
| CircuitBreaker.ClosedIffFewFailures | pkg/circuitbreaker/circuitbreaker.go:51-113 | After every call trace the circuit is closed exactly while that run is below the threshold, if and only if the threshold is at least 1 |
| CircuitBreaker.TrialsAreSpaced | pkg/circuitbreaker/circuitbreaker.go:66-103 | With a monotone clock and no success in between, two grants of a tripped breaker are at least one cooldown apart |
| CircuitBreaker.UnreportedTrialBlocks | pkg/circuitbreaker/circuitbreaker.go:66-103 | After a trial the circuit stays half-open through a stretch of calls if and only if no call in it records an outcome, and while it does every request is refused at every time |
| CircuitBreaker.AllowedIff | pkg/circuitbreaker/circuitbreaker.go:66-103 | Which requests go through, said over the call trace alone, for thresholds of at least 1: all while fewer failures than the threshold trail it, and otherwise exactly the first that comes a cooldown or more after the last failure |
| Calendar.YearLength | pkg/evmindexer/period_utils.go:46-63 | January firsts are counted from 1970 and differ by 366 days in Gregorian leap years and 365 otherwise |
| Calendar.MonthStep | pkg/evmindexer/period_utils.go:46-63 | Consecutive months are apart by the Gregorian month length, across year ends |
| Periods.ToStartOfPeriod | pkg/evmindexer/period_utils.go:9-27 | Truncation, and the loop back to Sunday for weeks, end at the period start |
| Periods.PeriodsPartitionTime | pkg/evmindexer/period_utils.go:9-63 | Every instant, before 1970 too, lies in exactly one hour, day, week or month: from its start to just before the next start |
| Periods.StartsAre | pkg/evmindexer/period_utils.go:9-27 | Periods start on whole hours, at UTC midnights, at the midnights of Sundays, and at the midnight of a month's first day |
| Periods.NextIsLeastStart | pkg/evmindexer/period_utils.go:46-63 | nextPeriod(t) is the least period start after t |
| Periods.StartIsMonotone | pkg/evmindexer/period_utils.go:9-27 | Later instants have no earlier period start |
| Periods.StartIsIdempotent | pkg/evmindexer/period_utils.go:9-27 | A period start is its own start |
| Periods.GetPeriodsToProcess | pkg/evmindexer/period_utils.go:66-92 | The loop terminates with exactly the consecutive complete periods after the last one |
| Periods.CompleteMeans | pkg/evmindexer/period_utils.go:29-92 | These are all the period starts after lastProcessed whose period has ended at the latest block time, in order |
| Periods.CapReachesEverything | pkg/evmindexer/granular.go:30-37 | Cycles capped at 6 periods run, in order, exactly the periods of the uncapped list |
| GranularRunner.CycleInv | pkg/evmindexer/granular.go:13-59 | A cycle keeps the coverage invariant however its SQL and its save end |
| GranularRunner.NoGaps | pkg/evmindexer/granular.go:13-59 | Over any run of cycles with SQL failures, save failures and restarts, everything from nextPeriod(epoch) through the saved watermark's period lies in an executed range, and no range passes the block time it ran at |
| GranularRunner.WatermarkAdvances | pkg/evmindexer/granular.go:30-56 | A cycle with work and without failure moves the watermark strictly forward; any other leaves it |
| GranularRunner.CycleDoes | pkg/evmindexer/granular.go:22-57 | A cycle takes up to six complete periods after the watermark, or the epoch; unless the SQL fails it executes from the first one's start to the last one's end, and the watermarks move to the last one as far as the save went |
| GranularRunner.IndexRunner.ProcessGranularMetrics | pkg/evmindexer/granular.go:13-59 | The loops take one step for every metric at every granularity, but only the daily one when "_snapshot" occurs in the metric's name; no other track changes, and a failure of one affects no other |
| IncrementalRunner.NoGaps | pkg/evmindexer/incremental.go:16-68 | For startBlock >= 1, over any run with failures and restarts, the executed ranges have at most 2000 blocks each and together are exactly startBlock through a block that no watermark is past |
| IncrementalRunner.RangeBounds | pkg/evmindexer/incremental.go:30-50 | No uint64 wrap in a cycle that runs: the batch follows the last block and ends at the head or 2000 blocks on |
| IncrementalRunner.SavedCycleAdvances | pkg/evmindexer/incremental.go:30-66 | A cycle with work whose SQL succeeds executes exactly the blocks after the last one to the head or 2000 on; memory moves there when the save succeeds, the database also when a failed save was applied; any other cycle changes nothing |
| IncrementalRunner.WatermarkNeverDecreases | pkg/evmindexer/incremental.go:16-68 | The watermark in memory never decreases, restarts included |
| IncrementalRunner.SavedNeverDecreases | pkg/evmindexer/incremental.go:16-68 | With a head that never goes back the saved watermark never decreases either, though a failed save may have been applied |
| IncrementalRunner.StartsIffPositive | pkg/evmindexer/incremental.go:24-33 | Some run executes something if and only if startBlock is at least 1 |
| IncrementalRunner.IndexRunner.ProcessIncrementalBatch | pkg/evmindexer/incremental.go:16-68 | The loop takes one step for every indexer independently, and hasWork says whether any watermark moved |
| AddressBackfill.NextInv | cmd/cmd_address_backfill.go:105-173 | Every step of the backfill and of the live writer, crashes and half-applied chunks included, keeps the coverage invariant if and only if it does not fix an unusable cutoff: from a head in block 2^32 - 1 with nothing captured and rows still missing |
| AddressBackfill.RunInvIff | cmd/cmd_address_backfill.go:105-173 | Over a whole run the coverage invariant holds throughout if and only if every head that is read is usable in that sense |
| AddressBackfill.BackfillCovers | cmd/cmd_address_backfill.go:45-51 | Over any such interleaving with one in-order writer, the lookup table files only raw rows, each only under its sender or receiver and traces only if they move value or create a contract, and has all of that for blocks below the saved next block and from the cutoff up; once done it has it for all blocks |
| AddressBackfill.WrappedCutoffIff | cmd/cmd_address_backfill.go:114-139 | A first run with nothing captured fixes a usable cutoff if and only if its head is below 2^32 - 1 or nothing is missing; from 2^32 - 1 it reports completion at once, rightly only when nothing is missing |
| AddressBackfill.WrappedCutoffCopiesNothing | cmd/cmd_address_backfill.go:114-139 | The failing case is reached from every start with a row to copy in block 2^32 - 1 |
| AddressBackfill.ChunkAdvances | cmd/cmd_address_backfill.go:149-156 | Each chunk moves on and stays below the cutoff despite uint32 wrap, if and only if the chunk size is at least 1 |
| AddressBackfill.ChunksTile | cmd/cmd_address_backfill.go:149-170 | The chunks tile [next, cutoff) without gap or overlap, none longer than the chunk size |
| AddressBackfill.Database.BackfillAddressTable | cmd/cmd_address_backfill.go:105-173 | The whole function, with a writer at work between its calls, takes the protocol's steps, ends, succeeds when no call fails, and on success the lookup table has exactly every raw row under its sender and its receiver, traces only if they move value or create a contract, provided the head it read is usable; it is on any run but a first one, when the view has captured something, and while no row is in block 2^32 - 1 |
| AddressBackfill.Database.CopyChunks | cmd/cmd_address_backfill.go:147-172 | The loop terminates with the cutoff saved as next block, or stops at the first failure with the invariant intact |
| WsHub.RunInv | pkg/api/websocket.go:113-196 | Every interleaving of reserve, release, register and unregister keeps the accounting invariant |
| WsHub.Accounting | pkg/api/websocket.go:113-196 | At every point total is the sum of the per-IP counts and the number of pending reservations plus registered clients, each IP's count is its own number, no zero or negative entry survives, and the total and per-IP caps hold |
| WsHub.GrantedIffRoom | pkg/api/websocket.go:159-196 | In every state of a run a reservation is granted if and only if each positive cap is above what it counts: pending plus registered clients in all, those of the IP, and the registered ones of the chain; it then is pending, and otherwise nothing changes |
| WsHub.StepMoves | pkg/api/websocket.go:116-148 | Releasing and registering use up a reservation; unregistering a registered client closes its channel and takes it out, and the chain's last block is forgotten exactly with its last client; unregistering any other client does nothing |
| WsHub.ClampUnreachable | pkg/api/websocket.go:171-183 | The clamp of total at 0 never acts |
| WsHub.ClosedOnce | pkg/api/websocket.go:129-148 | A send channel is closed at most once, and only after its client has left for good |
| WsHub.ChainCapCanBeExceeded | pkg/api/websocket.go:185-196 | A run that ends with two clients on a chain capped at one |
| WsHub.ChainCapIff | pkg/api/websocket.go:159-196 | Over any run a chain's registered and reserved clients stay within the per-chain cap if and only if each reservation granted for it found fewer than the cap, reserved ones counted |
| WsHub.AllPendingRegister | pkg/api/websocket.go:113-196 | From any point of a run the reserved clients may all register, and then as many are registered on the chain as were registered and reserved: what goes over the cap does show |
| WsHub.ChainCapHoldsOneAtATime | pkg/api/websocket.go:185-196 | In particular the cap holds when no two reservations for a chain are pending at once |
| WsHub.WSHub.CanAddConnectionLocked | pkg/api/websocket.go:185-196 | The three caps, read from the hub's maps with missing keys as 0; when the accounting is right, as it is in every run, this allows a client exactly when each positive cap is above the clients it counts |
| WsHub.WSHub.ReserveConnection | pkg/api/websocket.go:159-169 | Reserving is exactly the protocol's step, and when the accounting is right it succeeds exactly when there is room under each cap |
| WsHub.WSHub.ReleaseReservedConnection | pkg/api/websocket.go:171-183 | Releasing is exactly the protocol's step, clamp included |
| WsHub.WSHub.Register | pkg/api/websocket.go:116-127 | Registering a reserved client is exactly the protocol's step; one without a reservation is counted as well |
| WsHub.WSHub.Unregister | pkg/api/websocket.go:129-148 | Unregistering closes, uncounts and removes exactly one registered client, and an unknown one changes nothing |
| BlockFeed.FetchBlocksWithBurn | pkg/api/websocket.go:330-366 | The row loop returns the longest run of rows from the first one on that scan and have as many rows in raw_txs as transactions, or nothing when the stream fails, and in either case the number of the run's last block |
| BlockFeed.NoGapIffClean | pkg/api/websocket.go:330-366 | Over a dense table the fetch advances exactly to its last returned block if and only if no error follows ready rows |
| BlockFeed.RunInvIff | pkg/api/websocket.go:210-263 | In every interleaving of polls with table growth and forgotten chains, the last block stays in step with the broadcasts throughout if and only if every fetch is gapless: its ready rows are consecutive from the first block asked for, and no error follows them |
| BlockFeed.UncleanFetchSkips | pkg/api/websocket.go:247-260 | After a fetch whose stream fails behind ready rows nothing is broadcast, and the last block has moved past all the ready blocks that were read |
| BlockFeed.DenseIsGapless | pkg/api/websocket.go:330-366 | Over a dense raw_blocks a fetch is gapless exactly when no error follows ready rows |
| BlockFeed.FeedIsConsecutive | pkg/api/websocket.go:210-263 | With gapless fetches each broadcast is the block right after the previous broadcast or start, with all its transactions indexed, and a restart never goes back |
| BlockFeed.FeedIsConsecutiveIff | pkg/api/websocket.go:210-263 | What a run has broadcast by any point is consecutive between starts in that sense if and only if no fetch that was not gapless has been followed by a broadcast before the next start, holes in raw_blocks and failing streams included |
| BlockFeed.BroadcastsIncrease | pkg/api/websocket.go:210-263 | Whatever holes raw_blocks has and however the streams end, broadcast numbers strictly increase over the whole run, restarts included, and only blocks with all transactions indexed are broadcast |
| BlockFeed.Hub.PollChain | pkg/api/websocket.go:224-262 | One poll of one chain is exactly the protocol's steps in order, and touches no other chain: it starts at the head, does nothing, or sends what the fetch returns and moves the last block to its end, never back |
| WeightDiv.FormatWeightDiv | pkg/api/handlers_validators.go:178-199 | The division loop and the trimming write the digits that the laws below are about |
| WeightDiv.DigitsValue | pkg/api/handlers_validators.go:178-199 | The written digits, padded, are floor(remainder * 10^n / factor), and the loop stops early only when the division has come out even |
| WeightDiv.OneDigit | pkg/api/handlers_validators.go:186-193 | Every quotient written is a single decimal digit |
| WeightDiv.FormatIsQuotient | pkg/api/handlers_validators.go:176-199 | For every weight and factor > 0 the text parses back to floor(weight * 10^18 / factor) / 10^18, has no leading zero, trailing fractional zero or bare point, and is exact if and only if the division ends within 18 digits |
| WeightDiv.FormatWithoutFactor | pkg/api/handlers_validators.go:178-182 | Without a usable factor the text parses back to the weight and has no leading zero |
| Staking.ComputeConcentration | pkg/api/handlers_staking.go:265-298 | The cumulative loop finds the first positions over a third and a half and the shares of the first 10, 50 and 100 |
| Staking.BuildStakingSummary | pkg/api/handlers_staking.go:196-300 | The whole summary: sums, median, histogram, supply share and concentration |
| Staking.SummaryFields | pkg/api/handlers_staking.go:196-262 | Field by field: the number of validators, the sums of their own and delegated stake and of their delegations (in uint64), all stake as a percentage of the supply when there is one, and in each bucket, bounded by 2, 5, 10 and 20 percent, the validators with such a fee and their uint64 totals |
| Staking.SummaryMedian | pkg/api/handlers_staking.go:248-256 | The median fee is the one in the middle of the fees in order, the mean of the two middle ones of an even number, and 0 without validators |
| Staking.LargestSets | pkg/api/handlers_staking.go:265-298 | The exchange argument: no k validators, chosen in any way, hold more than the k largest |
| Staking.LeastMajority | pkg/api/handlers_staking.go:265-298 | Measured against any total, the loop finds the least size of any subset of validators that holds more than the given part of it, and 0 exactly when none does |
| Staking.NakamotoIsMinimal | pkg/api/handlers_staking.go:51-57 | Measured against the sum, that is the Nakamoto number, and it is 0 exactly when there is no stake |
| Staking.NakamotoAgreesWithSql | pkg/api/handlers_subnets.go:266-282 | It equals the cumulative-sum definition of the SQL on the same weights |
| Staking.SummaryNakamoto | pkg/api/handlers_staking.go:262-300 | nakamoto_33 and nakamoto_50 as reported are the least sizes of coalitions whose uint64 totals add up to more than a third and a half of all stake; unless a total overflows these are own plus delegated stake and the numbers agree with the SQL |
| Staking.OverflowHidesStake | pkg/api/handlers_staking.go:221-298 | With an overflow they miss stake: a single validator with 2^64 in all is reported as no coalition at all |
| Staking.NeverBelowTrueNakamoto | pkg/api/handlers_staking.go:221-298 | Overflows only ever hide stake: a reported number is 0 or at least the least size of a true majority |
| Staking.SummaryTopShares | pkg/api/handlers_staking.go:265-298 | top10, top50 and top100 are at least the share of any 10, 50 or 100 validators' uint64 totals, fewer validators than that and overflows included |
| Staking.TopPercentIsLargestShare | pkg/api/handlers_staking.go:265-298 | The top-n percentage of a total is exceeded by no n validators, and attained by some unless there are fewer than n and their weights fall short of the total |
| Staking.TotalsAddUp | pkg/api/handlers_staking.go:221-244 | The per-validator totals add up to the total stake if and only if none of them overflows uint64 |
| Staking.HistogramConserves | pkg/api/handlers_staking.go:221-240 | The histogram counts every validator once, and its stakes add up to the total stake if and only if no total overflows |
| Staking.BucketBounds | pkg/api/handlers_staking.go:192-236 | A fee is above the lower and at most the upper bound of its bucket |
| Staking.MedianSplits | pkg/api/handlers_staking.go:248-256 | At least half of the validators charge no more than the median fee, and at least half no less |
| BlockCache.ParseFormat | pkg/cache/cache.go:70-90 | parseBlockKey undoes formatBlockKey on exactly the int64 numbers that fit into 14 characters |
| BlockCache.KeyIs | pkg/cache/cache.go:70-73 | The key of a block below 10^14 is "block:" and its numeral with zeros before it, 20 characters in all |
| BlockCache.ParseIntIff | pkg/cache/cache.go:85-195 | What parses as a stored number: exactly the decimal numerals in int64, perhaps signed or with leading zeros |
| BlockCache.KeysAreOrdered | pkg/cache/cache.go:70-73 | On block numbers below 10^14 byte order of keys is numeric order |
| BlockCache.LowerBoundIsExact | pkg/cache/cache.go:133-140 | The iterator's lower bound keeps exactly the blocks from `from` on, negative `from` included |
| BlockCache.UpperBoundIsExact | pkg/cache/cache.go:133-140 | Its upper bound keeps exactly the blocks below `to + 1` while that has 14 digits |
| BlockCache.LongUpperBound | pkg/cache/cache.go:133-140 | Beyond that it keeps exactly the blocks up to its first 14 digits |
| BlockCache.WindowIs | pkg/cache/cache.go:127-140 | So for every int64 `to` the blocks that can be listed are known: all of [from, to], those up to the first 14 digits of to + 1, or none when to + 1 wraps |
| BlockCache.HitExtendsKey | pkg/cache/cache.go:70-90 | A key in the bounds that parses to a number is that block's key, possibly with something behind it, and then it comes later; signed numerals never get in |
| BlockCache.RangeIsBlocksIff | pkg/cache/cache.go:127-159 | For every store, the range scan returns exactly the stored blocks of the window if and only if for each number the last key filed under it carries what is stored as that block |
| BlockCache.RangeIffNoForeign | pkg/cache/cache.go:127-159 | Without foreign keys in the scan it does, and where no two keys hold the same value only then |
| BlockCache.PartialIsLowerPart | pkg/cache/cache.go:145-158 | When the iterator fails on the way, which the code does not notice, what is returned without foreign keys are stored blocks, and with each of them all lower ones of the window |
| BlockCache.OwnKeysAreNotForeign | pkg/cache/cache.go:70-159 | Blocks below 10^14 and the checkpoint are never foreign, in any range |
| BlockCache.LongerKeyShadows | pkg/cache/cache.go:145-156 | A longer key replaces the block it starts with in the result |
| BlockCache.ForeignKeyAtFive | pkg/cache/cache.go:145-156 | For one: what block:00000000000005x holds is returned as block 5 |
| BlockCache.OverlongBlockIsMisfiled | pkg/cache/cache.go:70-159 | The cache writes such a key itself for block 10^14, and every scan over block 10^13 then returns block 10^14 in its place |
| BlockCache.Cache.GetBlockRange | pkg/cache/cache.go:127-159 | Whatever is in the store, the result files the keys that the iterator delivers in key order, later ones over earlier ones; with a complete scan and no foreign keys it is exactly the stored blocks of the window; it is an error exactly when from > to or the iterator cannot be opened |
| BlockCache.Cache.GetCompleteBlock | pkg/cache/cache.go:93-124 | For every int64 number and any store, a hit serves the stored block, a miss serves and stores the fetched one, and no other block or the checkpoint changes |
| BlockCache.Cache.SetCheckpoint | pkg/cache/cache.go:201-207 | Setting the checkpoint changes no block, and nothing at all when the store refuses |
| BlockCache.CheckpointRoundTrip | pkg/cache/cache.go:182-207 | Every int64 checkpoint is read back as it was set |
| DexVolume.SyncInv | pkg/dexvolume/dexvolume.go:154-165 | However its calls end, one Sync keeps the coverage invariant if and only if each of its partly applied rollups meets its condition, and leaves a gap otherwise; a forward loop that succeeds leaves every complete day from the covered day on rolled up |
| DexVolume.SyncRollsUp | pkg/dexvolume/dexvolume.go:266-301 | A Sync whose forward loop succeeds rolls up every day from the one after the newest in the table, or from 365 days back when it is empty, to the last complete day; anything else it rolls up is history between the first pool's day and the oldest covered one |
| DexVolume.FirstSync | pkg/dexvolume/dexvolume.go:266-301 | From an empty table a Sync without failures rolls up the 365 days before the first incomplete one, and exactly these when it does not come to history |
| DexVolume.ForwardSucceedsIff | pkg/dexvolume/dexvolume.go:288-299 | The forward loop succeeds if and only if the first of its rollups do, as many as there are stretches of 31 days, begun ones included |
| DexVolume.NoGapsIff | pkg/dexvolume/dexvolume.go:154-165 | For a fixed factory set, after any number of Syncs with failures at any call: if all partly applied rollups met their conditions, every day from the covered day to the newest one in dex_daily is rolled up, and there dex_daily has exactly the days with swaps; if one did not, some day in between is missing or incomplete ever after |
| DexVolume.AllDaysComplete | pkg/dexvolume/dexvolume.go:403-465 | In such a run without a harmful rollup, once the backward fill has reached the first pool's day, all complete days since then are rolled up |
| DexVolume.OnlyCompleteDays | pkg/dexvolume/dexvolume.go:266-301 | In every run, partly applied rollups included, no day is rolled up before the sync watermark has passed its end |
| DexVolume.HistoryAdvances | pkg/dexvolume/dexvolume.go:444-463 | A Sync without failures and with time for one batch extends history by seven days or to the first pool, and by no more when there is no time for a second one |
| DexVolume.HistoryCompletes | pkg/dexvolume/dexvolume.go:403-465 | So from any reachable store history is complete after one seventh of the missing days in such Syncs |
| DexVolume.PartialForwardIff | pkg/dexvolume/dexvolume.go:288-299 | A forward rollup applied in part keeps the invariant if and only if no day that is still missing or incomplete lies before a shown day with swaps or is one, and after a day in the table or, in an empty table, after a shown day with swaps or is one |
| DexVolume.PartialBackwardIff | pkg/dexvolume/dexvolume.go:444-462 | A backward rollup applied in part keeps the invariant if and only if a watermark is saved or no day that is still missing or incomplete lies after a shown day with swaps or is one |
| DexVolume.GapStays | pkg/dexvolume/dexvolume.go:266-301 | A gap, once there, is filled by no later Sync |
| DexVolume.PartialLeavesGap | pkg/dexvolume/dexvolume.go:288-299 | A harmful forward rollup with its permanent gap, for every later run |
| DexVolume.PartialBackwardLeavesGap | pkg/dexvolume/dexvolume.go:444-462 | A harmful backward rollup, before any watermark is saved, with its permanent gap |
| DexVolume.DexRollup.SyncDays | pkg/dexvolume/dexvolume.go:269-301 | The forward loop terminates and rolls up, in chunks of 31, from the day after the newest one or 365 days back |
| DexVolume.DexRollup.BackfillHistory | pkg/dexvolume/dexvolume.go:406-465 | The backward loop terminates and writes the watermark after each batch of 7, from the watermark or the oldest day down; nothing happens when one of its reads fails |
| DexVolume.DexRollup.SyncOnce | pkg/dexvolume/dexvolume.go:154-165 | One Sync on the tables is the step that the laws above are about |
| LiqDaily.LoadLiqDaily | pkg/api/handlers_lending_liquidations.go:153-223 | The streaming loop with its flush gives one entry per stretch of equal dates, with its total and both sorted splits; without assets or rows, or with an unreadable row, there is nothing but an error |
| LiqDaily.DailyTotals | pkg/api/handlers_lending_liquidations.go:153-223 | For rows ordered by day every day comes out once and in order; each count and amount of its totals is the sum over that day's rows, the entries of its splits are those of the day's protocols and of the collateral assets as the asset list resolves them, each once with the sums of its rows, and both splits add up to the totals and are sorted by protocol and by seized amount |
| LiqDaily.SplitConserves | pkg/api/handlers_lending_liquidations.go:174-187 | A split loses no row and counts none twice |
| LiqDaily.AllDaysConserve | pkg/api/handlers_lending_liquidations.go:188-222 | The days together add up to all rows, in whatever order these come |

## Left out

- HTTP routing, JSON, ClickHouse, Pebble, RPC clients, metrics, commands, swagger and the front end: plumbing. The database appears as tables, streams and failing calls.
- The SQL builders (`deriveSQL`, `rollupSQL`, `icmTransfersSQL`, `poolsSQL`): only the loops that drive them are modelled. A rollup is "the days of this range"; the figures it computes are not part of this model.
- Packages `lending`, `evmsyncer`, `pchainsyncer`, `icm`, `perps`, `stealtime`, and `pkg/api/ratelimit.go`: their own logic is not part of this model.
- Floating point: USD amounts, fees, percentages and stake sums are exact, so rounding at a threshold is not modelled. `Staking` compares cumulative sums as integers.
- Library sorting: `Sorting.Sort` stands for `sort.Slice`, `sort.SliceStable` and ClickHouse's `ORDER BY`; only their contract is used. The order of ties in `LiqDaily` is left open, as the source's sort leaves it.
- Text: strings are sequences of code points. Only ChooseSignature measures and compares bytes, as `Utf8` has them; the other formats are ASCII, where the two agree.
- Keyset.TourListsTable: rows do not leave the table during the walk, and none arrive behind the cursor; the walk starts at offset 0.
- TxIdCursor.WalkListsTable: for tables where rows with an empty id are alone in their blocks; `FaithfulIff` shows that the cursors are right exactly then, and the tables have no empty ids at all.
- StablecoinCache.StablecoinCache.Get: the load itself, its timeout and the logging are not modelled; a load ends with any result at any time, or never.
- WsHub.RunInv: clients without a reservation are counted by `Register` but take no part in runs, as both handlers reserve first; pings, sends and the race between a send and a close are not modelled.
- BlockFeed.FeedIsConsecutive: for runs with gapless fetches; `FeedIsConsecutiveIff` has the exact condition for all runs. One poller runs, burn amounts and lending alerts are left out, and a client whose buffer is full misses blocks.
- BlockCache.Cache.GetBlockRange: "everything below the checkpoint is cached" is not claimed, since chunks finish out of order.
- TraceCursor.HandleAddressInternalTxs: the optional total count, and the columns of a row beside its key, are not modelled.
- AddressBackfill.BackfillCovers: heads that make the cutoff unusable are excluded, as `WrappedCutoffIff` shows they must be. One backfill process at a time, and one writer per chain that inserts blocks in order, as `cmd/cmd_address_backfill.go:46-48` states.
- DexVolume.NoGapsIff: swaps are dated 2000 or later. The factory set is fixed: the restart for a new factory, whose failure between pool scan and restart is not recovered, is not modelled. The pool scan and `repairNonFinite`, which re-rolls days that are in the table already, are only points where a Sync may stop.
- LiqDaily.LoadLiqDaily: counts are unbounded, and an asset's decimals, which the daily totals do not use, are not modelled.
- GranularRunner.NoGaps and IncrementalRunner.NoGaps: one runner per chain; which SQL runs for a range is not modelled.
- Intent rules, address validators, window clamps, retry backoff, `ttlCache`: one branch each, easy members.

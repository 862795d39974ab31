# Verified model of the 0x API backend

A Dafny model of the parts of the 0x API server whose correctness rests on state kept over time or on
arithmetic spread over several functions, with proofs of what they keep, compute and promise.

* **Meta-transaction watcher.** `Transactions`, `Signers`, `Phases`, `WatcherInvariants`, `WatcherRuns`,
  `QueuedRows`, `SyncTwice`, `LoadBalance` and `Watcher` model the polling state machine that cancels, signs,
  tracks, replaces and confirms transactions. The table maps primary keys to rows; fetched rows are copies; every
  answer of the Ethereum node, the rate limiter, the gas station and the signers is a parameter that may take any
  value. The class `TransactionWatcherSignerService` writes the table row by row as the source does, each method is
  tied to a specification function, and the run theorems speak about those functions. `SignOutcome`, `SyncOutcome`,
  `UnstickOutcome` and `ConfirmOutcome` say, in the fields of the rows and the answers alone, what each loop makes of
  every row; `PassOutcome` carries this over passes and runs, and `ReplacementRun` exhibits a run with a replacement.
* **Market depth.** `Rounding`, `NativeOrders`, `BucketPrices`, `Amounts`, `DepthBuckets`, `DepthChart`, `MarketDepth`
  and `NormalizedDepth` model the greedy fill of native orders, the geometric price grid, the allocation of samples to
  buckets and the in-place running maximum. The optimality proof weighs any allocation against the surplus of the
  fills above a price and shows that the greedy fill reaches that bound.
* **Order cache.** `Chunking`, `MeshClient`, `OrderCache` and `OrderWatcher` model the synchronisation of the
  order table with a Mesh node, through full syncs and event batches, over both transports.
* **Order book view.** `Orders`, `Sorting` and `OrderBook` model asset data, the ignore list, freshness, the
  comparators and the pages.
* **Affiliate fee.** `AffiliateFee` models the scaling of a purchase and the fee taken from it.
* **Websocket.** `Subscriptions`, `SocketRegistry` and `Websocket` model the registration maps and order updates.
* **Result cache.** `ResultCache` models the cache in front of an asynchronous function as interleaved calls.

`Wrappers` holds the two result shapes, `Filtering` the filter and the positions it keeps. Exceptions are `None`, or
the `ok` flag of an `Outcome`, next to the state they leave behind. Where the source has lists sorted by a
comparator, the model uses a stable insertion sort.
`dafny verify dfyconfig.toml` checks everything.

Three findings are stated with their exact conditions. The order book filter passes the position of an order as
its expiry buffer (`OrderBook.FilterAgreesExactly`). Applying an event batch in groups differs from Mesh's order when the
last event about an order and the last one in group order disagree (`OrderCache.GroupsMatchExactly`). The price
grid of a chart turns back for a distribution base that rounds below zero, which a request may ask for
(`MarketDepth.DepthPricesOrderedExactly`). In addition
the sync loop may revive an aborted row from a stale copy (`SyncOutcome.RevivedExactly`), which is why the
theorems about the table are stated for pass boundaries.

Assumptions of the run theorems, named where they are used:

* Passes follow one another. The service's constructor starts a pass and its runner calls another
  (src/runners/transaction_watcher_signer_service_runner.ts:75); two overlapping passes are not modelled.
* A queued row is unsubmitted, has call data, and its key is new. The handler that queues rows looks the key up first.
  Runs queue rows between passes; `QueuedRows` shows that a row queued during a pass comes to the same.
* `HonestRun`: a hash the node returns for a replacement names that very transaction. `FreshRun`: it is not on
  file yet. `EveryRunWellFormed` needs neither.

## Model

| member | source | states |
|---|---|---|
| WatcherRuns.EveryRunWellFormed | lib/services/transaction_watcher_signer_service.js:152-246 | In every table reachable from an empty one by queued submissions and passes, for any answers of node, limiter and gas station and whatever stale copies are written back: at most one row per (from, nonce) is included or confirmed, transaction hashes are unique, unsubmitted and cancelled rows have no hash, nonce or sender and all other rows have all three |
| WatcherRuns.StatusesOverRuns | src/types.ts:573-593 | Between any two pass boundaries of a run whose replacements got fresh hashes: no row vanishes, cancelled and aborted never change, dropped and confirmed can only become aborted, and a broadcast row keeps hash, sender, nonce and gas price for good |
| WatcherRuns.BroadcastsOverRuns | lib/services/transaction_watcher_signer_service.js:122-151 | The same permanence of hash, sender, nonce and gas price, needing only that a hash the node returns names its transaction |
| WatcherRuns.EveryReplacementDescends | lib/services/transaction_watcher_signer_service.js:346-403 | Every replacement in any reachable table has a finite chain of ancestors in its own (from, nonce) slot with strictly falling gas prices, ending in a signed meta-transaction |
| WatcherRuns.EveryRunHasParents | lib/services/transaction_watcher_signer_service.js:368-404 | Every reachable table with honest hashes keeps, for each replacement, a row of its slot that it outbids |
| WatcherRuns.FollowParents | lib/services/transaction_watcher_signer_service.js:346-367 | Following outbid rows ends: the chain of a replacement is finite and leaves the replacements |
| WatcherRuns.PassMoves | lib/services/transaction_watcher_signer_service.js:105-121 | One whole pass for any answers: every row moves only along the status graph, a resent replacement may also return to submitted, and every new row is a replacement just submitted |
| WatcherRuns.PassKeepsParents | lib/services/transaction_watcher_signer_service.js:105-121 | One whole pass with honest hashes keeps parents and every broadcast row's slot, hash and bid |
| WatcherInvariants.MinedKeeps | lib/services/transaction_watcher_signer_service.js:185-188 | Recording a mined row and then aborting its rivals leaves it the only settled row of its slot |
| WatcherInvariants.SignRowKeeps | lib/services/transaction_watcher_signer_service.js:259-303 | Cancelling or signing one row touches no other row, keeps all invariants, and sets hash, nonce, sender and gas together or not at all |
| WatcherInvariants.SignRowsKeep | lib/services/transaction_watcher_signer_service.js:253-305 | The same for the whole loop, up to the exception that may end it |
| WatcherInvariants.SyncRowKeeps | lib/services/transaction_watcher_signer_service.js:167-229 | Handling one fetched copy, even one whose row was aborted meanwhile, keeps all invariants; other rows are at most aborted |
| WatcherInvariants.SyncRowsKeep | lib/services/transaction_watcher_signer_service.js:152-166 | The same for the whole loop over the snapshot |
| WatcherInvariants.UnstickRowKeeps | lib/services/transaction_watcher_signer_service.js:378-402 | Replacing a stuck row keeps all invariants and writes only the row keyed by the returned hash |
| WatcherInvariants.UnstickRowsKeep | lib/services/transaction_watcher_signer_service.js:368-404 | The same for the whole loop |
| WatcherInvariants.UnstickRowParents | lib/services/transaction_watcher_signer_service.js:386-397 | A replacement is sent only above the gas price of the row it replaces, so it has a parent |
| WatcherInvariants.UnstickRowsParents | lib/services/transaction_watcher_signer_service.js:368-404 | The same for the whole loop, each replaced row being still on file when its turn comes |
| WatcherInvariants.ConfirmRowKeeps | lib/services/transaction_watcher_signer_service.js:416-461 | Confirming or undoing an included row keeps all invariants and changes nothing but status, block, gas used and transaction status |
| WatcherInvariants.ConfirmRowsKeep | lib/services/transaction_watcher_signer_service.js:405-464 | The same for the whole loop |
| SyncTwice.SyncIdempotent | lib/services/transaction_watcher_signer_service.js:152-229 | With chain and clock frozen and every request answered, a second sync leaves the table as it is, whatever orders the two queries return the rows in |
| SyncTwice.SyncRowsSteady | lib/services/transaction_watcher_signer_service.js:162-164 | After one such sync every row still pending is one the node has nothing new to say about |
| SyncTwice.StaleCopyRevives | lib/services/transaction_watcher_signer_service.js:162-246 | For any two rows of one slot, a pending one found mined and a submitted, unexpired one the node still has waiting: the latter is pending again if its copy comes up second, and aborted if it comes up first |
| SyncOutcome.EveryOutcome | lib/services/transaction_watcher_signer_service.js:152-246 | After the sync loop, ended by an exception or not, every fetched row is exactly this row: its own turn, if reached, writes what the reply asks for over whatever happened before; an abort before it counts only if it writes nothing; an abort after it always counts. A turn aborts a row exactly if it is reached, finds its own row mined, and has the row's sender and nonce but another hash |
| SyncOutcome.OtherOutcome | lib/services/transaction_watcher_signer_service.js:152-246 | Every row not fetched is aborted exactly if a reached turn finds such a competitor mined, and otherwise is as before; the loop returns exactly if no turn lacks the block date or meets a node error other than an unknown transaction |
| SyncOutcome.AbortedForAReason | lib/services/transaction_watcher_signer_service.js:231-246 | A row newly aborted by the loop has the sender and nonce of another row, with another hash, that a reached turn found mined |
| SyncOutcome.RevivedExactly | lib/services/transaction_watcher_signer_service.js:162-246 | Among rows with a competitor found mined, those pending again after the loop are exactly those whose own turn was reached, came after every such competitor's and wrote that the node still has the transaction waiting |
| SyncOutcome.TurnOutcome | lib/services/transaction_watcher_signer_service.js:167-246 | What one turn writes to the row it handles, and which other rows it aborts, in their fields |
| SignOutcome.SignedExactly | lib/services/transaction_watcher_signer_service.js:253-305 | After the sign loop, ended by an exception or not: a fetched row is cancelled if and only if its turn came and the limiter refused it (with an API key to report), or allowed it when the clock was past its expected time; it is submitted if and only if its turn came, it was allowed in time, to, value, gas price and data are there, a signer is configured, the broadcast was sent and no other row held the hash; then hash, nonce and gas are the broadcast's and the sender is a least loaded, and among those a richest, signer of that turn; any other row is as before |
| SignOutcome.SignatureOutcome | lib/services/transaction_watcher_signer_service.js:122-151 | The same for the signing of one row: every missing field, failed broadcast or taken hash leaves the table alone |
| SignOutcome.NextSignerIsLeastLoaded | lib/services/transaction_watcher_signer_service.js:313-345 | In counts of waiting rows and known balances: the signer chosen has fewest waiting rows, and the largest balance among equals |
| SignOutcome.OthersStay | lib/services/transaction_watcher_signer_service.js:253-305 | The sign loop touches no row it did not fetch |
| UnstickOutcome.ReplacementStands | lib/services/transaction_watcher_signer_service.js:346-404 | After the unstick loop: if a turn was reached, the row's sender is a configured signer, it has a nonce, its price is missing or below the one asked, and the transfer was accepted under a hash no row held then and no later transfer got, then under that hash stands a submitted empty transfer of the sender to itself with the same nonce, the price asked, gas 21000, no data and the expiry counted from the turn's clock |
| UnstickOutcome.NothingElseWritten | lib/services/transaction_watcher_signer_service.js:368-404 | No other row is written or added: rows at or above the price, without sender or nonce, or with a refused transfer or a taken hash cause no write; the loop returns exactly if every sender to be outbid is configured |
| ConfirmOutcome.ConfirmedExactly | lib/services/transaction_watcher_signer_service.js:405-464 | After the confirm loop, ended by an exception or not, a fetched row with hash and block is confirmed if and only if its turn came, the node shows it in a block, its block plus the configured depth lies below the head and there is a receipt, with the receipt's gas and status; it is submitted if and only if the answer was absent, and in the pool without a block if and only if the answer had none; otherwise it is as before |
| ConfirmOutcome.OthersStay | lib/services/transaction_watcher_signer_service.js:405-464 | The confirm loop touches no row it did not fetch |
| PassOutcome.PhasesRun | lib/services/transaction_watcher_signer_service.js:105-121 | Which phases of a pass run: a failing sign loop skips nothing, an exception while syncing or unsticking, or a missing gas price or head, skips the rest, each in terms of the answers |
| PassOutcome.GivenUpInPass | lib/services/transaction_watcher_signer_service.js:105-121 | A row the sign loop gave up is cancelled at the end of the pass |
| PassOutcome.SyncedInPass | lib/services/transaction_watcher_signer_service.js:105-121 | A pending row, one just signed included, is at the end of the pass what the sync loop made of it, unless it was mined, when only the confirm loop may change it |
| PassOutcome.ReplacedInPass | lib/services/transaction_watcher_signer_service.js:105-121 | A replacement sent in the pass is in the table at its end |
| PassOutcome.AbortedInPass | lib/services/transaction_watcher_signer_service.js:105-246 | A row newly aborted over a pass has the sender and nonce of another row that the node reported mined in that pass |
| PassOutcome.AbortedRowsLost | lib/services/transaction_watcher_signer_service.js:231-246 | In every reachable table, every aborted row lost its nonce: some pass of the run found another row of its sender and nonce, with another hash, mined |
| PassOutcome.ConfirmedRowsAreBuried | lib/services/transaction_watcher_signer_service.js:436-461 | In every reachable table, every confirmed row was confirmed by some pass of the run in which the node showed it in a block and whose head lay more than the configured depth above the row's block |
| PassOutcome.OneMinedPerNonce | lib/services/transaction_watcher_signer_service.js:231-246 | In every reachable table, two rows of the same sender and nonce that are both included or confirmed are the same row |
| ReplacementRun.ReplacementSent | lib/services/transaction_watcher_signer_service.js:346-404 | A possible and honest run, given in full, whose table holds a replacement next to the stuck row it outbids |
| ReplacementRun.ReplacementWins | lib/services/transaction_watcher_signer_service.js:105-121 | One pass more, after which the replacement is confirmed and the row it outbid aborted |
| LoadBalance.SigningKeepsSpread | lib/services/transaction_watcher_signer_service.js:253-305 | Through the sign loop the difference between the most and the least loaded signer never exceeds the larger of its initial value and one |
| LoadBalance.SigningEvensOut | lib/services/transaction_watcher_signer_service.js:313-345 | Each successful signing closes the gap to the initial maximum by one; when exactly the gap was signed all loads are equal, and from then on they differ by at most one |
| LoadBalance.SignRowLoads | lib/services/transaction_watcher_signer_service.js:140-149 | One step of the loop adds exactly one pending transaction to the chosen signer, or changes no load |
| LoadBalance.BroadcastClosesGap | lib/services/transaction_watcher_signer_service.js:83-97 | Giving the next transaction to the least loaded signer closes the gap by one without passing the maximum |
| Signers.AvailabilityIsPreorder | lib/services/transaction_watcher_signer_service.js:85-95 | The comparator is a total preorder, so sorting by it is meaningful |
| Signers.SortedByAvailabilityOrder | lib/services/transaction_watcher_signer_service.js:83-97 | The published order is a permutation of the signers: fewer pending transactions first, larger balance among equals |
| Signers.NextSignerLeastLoaded | lib/services/transaction_watcher_signer_service.js:313-345 | The next signer is one of the configured ones, nobody has less pending work, nobody with as little has a larger balance, and there is none exactly when none is configured |
| Transactions.Find | lib/services/transaction_watcher_signer_service.js:154-160 | A query answers with every row that passes the filter, once, as copies |
| Watcher.TransactionWatcherSignerService.SyncTransactionStatus | lib/services/transaction_watcher_signer_service.js:105-121 | The pass: the table becomes the pass function of the old table for lists the queries could have returned and exactly the answers given, and stays well formed |
| Watcher.TransactionWatcherSignerService.CancelOrSign | lib/services/transaction_watcher_signer_service.js:259-303 | One turn of the sign loop equals its specification, which `SignOutcome.SignedExactly` fixes in terms of the row and the answers: limiter, expiry, missing fields, failed broadcast and a taken hash |
| Watcher.TransactionWatcherSignerService.CancelOrSignAndBroadcastTransactions | lib/services/transaction_watcher_signer_service.js:253-305 | The loop over the fetched unsubmitted rows, stopped by an exception, equals its specification |
| Watcher.TransactionWatcherSignerService.AbortTransactionsWithTheSameNonce | lib/services/transaction_watcher_signer_service.js:231-246 | A row changes exactly if its sender and nonce are there and the winner's, and its hash is there and differs; it then becomes aborted and keeps all else; no row is added or lost |
| Watcher.TransactionWatcherSignerService.FindTransactionStatusAndUpdate | lib/services/transaction_watcher_signer_service.js:167-229 | One turn of the sync loop equals its specification for every kind of reply and exception |
| Watcher.TransactionWatcherSignerService.SyncBroadcastedTransactionStatus | lib/services/transaction_watcher_signer_service.js:152-166 | The loop over fetched copies equals its specification |
| Watcher.TransactionWatcherSignerService.CheckForStuckTransactions | lib/services/transaction_watcher_signer_service.js:368-404 | The unstick phase equals its specification, whose writes `UnstickOutcome.ReplacementStands` and `UnstickOutcome.NothingElseWritten` fix: gas price asked only when something is stuck, skipped rows, unknown signer, refused transfer |
| Watcher.TransactionWatcherSignerService.CheckIncluded | lib/services/transaction_watcher_signer_service.js:416-461 | One turn of the confirm loop equals its specification, which `ConfirmOutcome.ConfirmedExactly` fixes in terms of the row and the answers |
| Watcher.TransactionWatcherSignerService.CheckForConfirmedTransactions | lib/services/transaction_watcher_signer_service.js:405-464 | The confirm loop equals its specification |
| QueuedRows.QueuedDuringPass | lib/services/transaction_watcher_signer_service.js:105-121 | A row queued anywhere after the first query of a pass does not disturb it: the later queries still return the same lists, and the outcome is the pass followed by the queued row |
| QueuedRows.QueuedDuringPassIsARun | lib/services/transaction_watcher_signer_service.js:105-121 | So a pass with a row queued in its midst ends in the table of a run that polls and then queues, which the run theorems cover |
| QueuedRows.SignRowsAround | lib/services/transaction_watcher_signer_service.js:253-305 | Queueing a row before any turn of the sign loop, or after the loop, gives the same table; the choice of signers does not notice it |
| QueuedRows.SyncRowsAround | lib/services/transaction_watcher_signer_service.js:152-166 | The same for the sync loop and its aborts |
| QueuedRows.UnstickRowsAround | lib/services/transaction_watcher_signer_service.js:368-404 | The same for the unstick loop, unless the node names a replacement like the row |
| QueuedRows.ConfirmRowsAround | lib/services/transaction_watcher_signer_service.js:405-464 | The same for the confirm loop |
| NativeOrders.GreedyIsOptimal | lib/utils/market_depth_utils.js:43-62 | Before rounding, no allocation of the same total input over the same fills gives more output when selling or needs less when buying |
| NativeOrders.AnyAllocationBounded | lib/utils/market_depth_utils.js:43-62 | For every price, no allocation earns more above that price than the fills' surplus above it |
| NativeOrders.GreedyMeetsBound | lib/utils/market_depth_utils.js:48-56 | The greedy fill earns the whole surplus above the rate of the last fill it touches: the bound above is reached |
| NativeOrders.SampleNearlyOptimal | lib/utils/market_depth_utils.js:43-62 | With each fill rounded on its own, the sample is within half a unit per used fill of the best of all allocations |
| NativeOrders.RoundingError | lib/utils/market_depth_utils.js:53-54 | Rounding fill by fill moves the output by at most half a unit per used fill |
| NativeOrders.SampleMonotone | lib/utils/market_depth_utils.js:43-62 | Among targets the fills cover, a larger target never yields less, rounding included |
| NativeOrders.SampleCoversExactly | lib/utils/market_depth_utils.js:57-60 | The sample is given up exactly when the fills together cannot cover the target |
| NativeOrders.SortedPathBestFirst | lib/utils/market_depth_utils.js:44-45 | The sorted, for buyers reversed, path is a permutation of the fills with the best rate for the side first |
| NativeOrders.SortInPlace | lib/utils/market_depth_utils.js:44-45 | The array ends up as the sorted path |
| NativeOrders.TakeFills | lib/utils/market_depth_utils.js:46-56 | The loop over the array, with its early exit, computes the greedy totals |
| NativeOrders.SampleNativeOrders | lib/utils/market_depth_utils.js:43-62 | The method sorts its array in place and returns the sample of the fills it was given |
| BucketPrices.DistributionExactly | lib/utils/market_depth_utils.js:16 | Share i is the i-th power of the base to 18 places, for every i |
| BucketPrices.GridExactly | lib/utils/market_depth_utils.js:14-25 | Every price is the point, to 18 places, that lies as far from best to limit as the first shares are of all of them |
| BucketPrices.GridEnds | lib/utils/market_depth_utils.js:14-25 | The grid has one entry more than steps, starts at the best price and ends at the limit rounded to 18 places |
| BucketPrices.GridOrdered | lib/utils/market_depth_utils.js:14-25 | If no share is negative the prices run from best to limit without turning back, despite the rounding of each |
| BucketPrices.GridOrderedExactly | lib/utils/market_depth_utils.js:87-104 | For every distribution and slippage: whatever the best price, the bucket prices are numbers that run from it to its limit if and only if there is no step, or the slippage is positive and there is one step or the base does not round below zero, or there is no slippage and the shares do not cancel out |
| BucketPrices.GridKeepsDirection | lib/utils/market_depth_utils.js:14-25 | Under that condition the grid of every best price runs to its limit without turning back |
| BucketPrices.GridFails | lib/utils/market_depth_utils.js:14-25 | Otherwise some positive best price has a grid that turns back or holds a price that is no number |
| BucketPrices.GridTurnsBack | lib/utils/market_depth_utils.js:14-25 | For every base that rounds below zero, more than one step and any positive slippage, a positive best price whose grid turns back on its way to the limit |
| BucketPrices.CancelledShares | lib/utils/market_depth_utils.js:15-17 | The shares cancel out only if there is a second one, below zero: the first step is then infinite and all later ones sum infinities of both signs |
| BucketPrices.SharesSign | lib/utils/market_depth_utils.js:16-17 | No share is negative exactly when the base does not round below zero |
| BucketPrices.FirstFromFinds | lib/utils/market_depth_utils.js:109-113 | The search finds the first bucket the price meets, or none if it meets none |
| BucketPrices.BucketIdExact | lib/utils/market_depth_utils.js:109-113 | On an ordered grid that bucket is the only one met without the one before; the price is dropped exactly when worse than the last, and goes to bucket 0 exactly when it meets the first |
| DepthBuckets.PoolsAreToldApart | lib/utils/market_depth_utils.js:115-133 | Two samples share a key exactly if they have the same source and, for Curve, Balancer and UniswapV2, the same pool |
| DepthBuckets.SamplePriceNear | lib/utils/market_depth_utils.js:145 | A sample's price is its output per input, to within half a unit of the 18th decimal place |
| DepthBuckets.LastLandedExactly | lib/utils/market_depth_utils.js:141-158 | The amount a path leaves in a bucket is the input of its last sample landing there, and nothing if none does |
| DepthBuckets.PlaceAllExact | lib/utils/market_depth_utils.js:134-159 | A bucket holds a key exactly if some path of that key has a sample there, and then the input of the last such sample of the last such path |
| DepthBuckets.BucketsKeepPrices | lib/utils/market_depth_utils.js:108 | Every bucket keeps its price and its number |
| DepthBuckets.AddSampleBalanced | lib/utils/market_depth_utils.js:151-157 | Adding a sample, replacing an earlier one or not, keeps the bucket's total equal to the sum of its sources |
| DepthBuckets.PlacePathExact | lib/utils/market_depth_utils.js:134-159 | After a path, each bucket holds under the path's key exactly the input of the path's last sample landing there, everything else is unchanged, and totals are sums |
| DepthBuckets.PlaceAllBalanced | lib/utils/market_depth_utils.js:134-159 | After all paths every total is the sum of its sources and every key belongs to a known source |
| DepthBuckets.AllocatePath | lib/utils/market_depth_utils.js:141-158 | The inner loop over the array of buckets equals its specification and keeps every bucket balanced |
| DepthBuckets.Allocate | lib/utils/market_depth_utils.js:134-159 | The outer loop equals its specification and keeps every bucket balanced |
| DepthBuckets.MergeKeyKeeps | lib/utils/market_depth_utils.js:174-182 | Moving one pool's amount to its source changes neither the sum of all amounts nor the merged amounts, so the order of the keys does not matter |
| DepthBuckets.MergePools | lib/utils/market_depth_utils.js:174-182 | The merging loop, in any key order, leaves one plain key per source with the sum of its pools and preserves the total |
| DepthChart.PrefixMaxIsMaximum | lib/utils/market_depth_utils.js:184-188 | The running amount is reached in some bucket so far, or zero, and exceeded in none |
| DepthChart.ScanIsPrefixMax | lib/utils/market_depth_utils.js:163-173 | The backward scan over buckets already rewritten finds the maximum of the merged amounts before |
| DepthChart.FindLastNonEmptyBucket | lib/utils/market_depth_utils.js:163-173 | The scan loop with its break returns the nearest earlier non-zero amount |
| DepthChart.NormalizeBucket | lib/utils/market_depth_utils.js:161-191 | One bucket: merged, then raised for every known source to its running maximum |
| DepthChart.NormalizeBuckets | lib/utils/market_depth_utils.js:161-192 | The whole in-place pass returns the chart of running maxima with the cumulative sum of each bucket |
| DepthChart.MergedSum | lib/utils/market_depth_utils.js:174-182 | Merged amounts add up to what the pools added up to |
| DepthChart.CumulativeGrows | lib/utils/market_depth_utils.js:189-190 | The cumulative amount never decreases from bucket to bucket |
| DepthChart.CumulativeBounds | lib/utils/market_depth_utils.js:189-190 | It lies between the bucket's own total and the sum of all totals so far |
| DepthChart.CumulativeStarts | lib/utils/market_depth_utils.js:189-190 | In bucket 0 it is the bucket's total |
| MarketDepth.SamplesLand | lib/utils/market_depth_utils.js:194-200 | For any distribution, a sample with output is dropped exactly when its price meets no bucket, otherwise goes to the first it meets, and the best-priced sample goes to bucket 0; where the grid keeps its direction, dropped means worse than the last bucket |
| MarketDepth.CancelledSamplesLand | lib/utils/market_depth_utils.js:107-113 | If the shares cancel out and there is slippage, no sample with output is dropped: it goes to bucket 0 if it meets the best price, else to bucket 1 |
| MarketDepth.DepthPricesOrderedExactly | lib/utils/market_depth_utils.js:194-200 | The bucket prices of the calculation are numbers and run from best to limit for all samples exactly under the condition on steps, base and slippage above |
| MarketDepth.NoPriceNothingShown | lib/utils/market_depth_utils.js:88-105 | If no sample has a positive price, no bucket price is a number, and the chart shows every bucket empty |
| MarketDepth.DepthCurve | lib/utils/market_depth_utils.js:194-200 | For the allocated samples: totals are sums, and the cumulative curve starts at the first total, never falls and stays within its bounds |
| MarketDepth.CalculateDepthForSide | lib/utils/market_depth_utils.js:194-200 | The whole calculation, for any samples, number of steps, base and slippage, equals normalise, price, allocate, accumulate; `NormalizedDepth` fixes what is normalised and how it shows |
| NormalizedDepth.SampledPathsStay | lib/utils/market_depth_utils.js:63-86 | The normalised side begins with every path that is not empty and not native, unchanged, each as often and in the same order; if a raw path is native, exactly one path follows, else nothing |
| NormalizedDepth.NativePathAdded | lib/utils/market_depth_utils.js:63-86 | That path holds native samples at the amounts of the first on-chain path, or at the distinct inputs of the first native one, in order, if there is none; each gives zero if that path's fills cannot cover the amount, else what a best spending of the amount on them yields, to within half a unit for each fill it uses |
| NormalizedDepth.SampleYields | lib/utils/market_depth_utils.js:43-62 | The same for one sample, though each call sorts the path the next one gets |
| NormalizedDepth.NativeOrdersShow | lib/utils/market_depth_utils.js:194-200 | From raw paths to the chart: if a raw path is native, a sample of the added path that gives something, and after which no other meets the same bucket first, counts in the native amount from that bucket on |
| NormalizedDepth.NativeShownBy | lib/utils/market_depth_utils.js:160-192 | And a native amount shown is always the input of such a sample of this or an earlier bucket |
| NormalizedDepth.SampleShows | lib/utils/market_depth_utils.js:160-192 | For every source, the last sample of the last path of a pool in a bucket counts in the amount shown for the source from that bucket on |
| Chunking.TerminatesExactly | lib/utils/utils.js:51-65 | The loop ends if and only if every item fits the limit on its own |
| Chunking.ChunkByByteLength | lib/utils/utils.js:46-71 | The loop over the shrinking clone, with its reset branch and final chunk, computes the greedy split |
| Chunking.GreedySound | lib/utils/utils.js:46-71 | The chunks concatenate to the input, none is empty, each is within the limit |
| Chunking.ChunksAreFewest | lib/utils/utils.js:46-71 | No split of the list in order within the limit uses fewer chunks |
| Chunking.GreedyFewest | lib/utils/utils.js:46-71 | The same against any split of a longer list ending in this one, which carries the induction |
| Chunking.ChunksAreFull | lib/utils/utils.js:46-71 | A chunk is closed only when the next item would not have fitted into it |
| Chunking.ChunkBySound | src/services/order_watcher_service.ts:113-116 | Chunks of a fixed count concatenate to the input, all are full but the last, and that is not empty |
| MeshClient.AddOrders | src/utils/mesh_client.ts:20-82 | The call returns exactly if http is configured and there are more than 200 orders, or every chunk of 200 is delivered; on either transport the reported lists are exactly those of Mesh's replies, one after the other, with a rejection of every order per failed http chunk; every submitted order is among them, exactly once if nothing fails; a failed websocket chunk throws |
| MeshClient.AddOverWebsocket | src/utils/mesh_client.ts:22-30 | Succeeds exactly when all chunks are delivered, and then reports exactly what the replies say |
| MeshClient.AddOverHttp | src/utils/mesh_client.ts:31-80 | Never throws, and reports what the replies say, cut-off ones as far as they go, with a rejection of every order per failed chunk |
| MeshClient.VerdictsExactly | src/utils/mesh_client.ts:20-82 | An info is among the accepted exactly if some reply accepted it, one cut off half way as far as it was read; among the rejected exactly if some reply rejected it or, after any failure, if it is an order of the call under its hash with nothing fillable |
| MeshClient.VerdictsComplete | src/utils/mesh_client.ts:20-82 | The verdicts of all replies cover every submitted order, exactly once if nothing fails; if something fails each is rejected |
| MeshClient.DeliveredReportsOnce | src/utils/mesh_client.ts:26-30 | Delivered chunks report each of their orders exactly once |
| MeshClient.FailureRejectsAll | src/utils/mesh_client.ts:63-78 | One failed chunk rejects every order of the call |
| MeshClient.AcceptedWhereCarried | src/utils/mesh_client.ts:56-61 | An order of a call that is not rejected was accepted in the reply to a chunk that carried it |
| OrderCache.AllowedExactly | src/services/order_watcher_service.ts:96-98 | The filter keeps exactly the orders not ignored, and throws exactly when one does not decode |
| OrderCache.SaveAllExactly | src/services/order_watcher_service.ts:99-105 | Upserting adds exactly the orders' hashes; every row is one of the orders or an untouched old row |
| OrderCache.AddAllStored | src/services/order_watcher_service.ts:94-107 | Adding or updating keeps any property of the rows that the orders have which are not ignored |
| OrderCache.CalculateAddedRemovedUpdated | lib/utils/mesh_utils.js:48-80 | The loop sorts the events into the three lists, each in order, unknown ones in none |
| OrderCache.GroupsByEndState | lib/utils/mesh_utils.js:48-80 | Each list holds exactly the orders of the events with its end states, with the amount Mesh calls fillable, or none |
| OrderCache.OneEvent | src/services/order_watcher_service.ts:70-75 | What a batch of one event does for each end state: removes the order, saves it unless it is ignored or does not decode, or nothing |
| OrderCache.LookupGrouped | src/services/order_watcher_service.ts:70-75 | What the grouped application does to any one order: its last addition, else its last update, else its removal, else nothing; a group with an order that does not decode throws and takes the later groups with it |
| OrderCache.LookupInOrder | src/services/order_watcher_service.ts:70-75 | What applying the events one at a time does to any one order: the last event with an effect before the first that throws |
| OrderCache.AnyBatchMatchesExactly | src/services/order_watcher_service.ts:70-75 | For any batch, throwing ones included: both ways throw for the same batches, and they leave the same table if and only if they leave every single order the same |
| OrderCache.GroupsMatchExactly | src/services/order_watcher_service.ts:70-75 | If every order decodes, Removed, Updated, Added as groups equals one event at a time if and only if for every order the last event in Mesh's order and the last in the order of the groups do the same to it; the table held before does not matter |
| OrderCache.GroupsMatchOrder | src/services/order_watcher_service.ts:70-75 | In particular, if every order decodes, when the events about each order come in the order of the groups |
| OrderCache.NoRepeatsMatchOrder | src/services/order_watcher_service.ts:70-75 | In particular, if every order decodes, when no order hash is repeated |
| OrderCache.UndecodableOrderDiffers | src/services/order_watcher_service.ts:70-75 | An order that does not decode, then a removal: the groups remove, one at a time stops before |
| OrderCache.RepeatedOrderDiffers | src/services/order_watcher_service.ts:70-75 | Added then cancelled in one batch: the groups keep the order, one at a time drops it |
| OrderWatcher.FullSyncExactly | src/services/order_watcher_service.ts:16-66 | After a full sync the cached hashes are exactly the old ones without rejected and accepted-but-expired, plus the fresh, not ignored orders of the snapshot |
| OrderWatcher.SurvivorsAreVouchedFor | src/services/order_watcher_service.ts:16-66 | If Mesh answered every cached order, each row left was accepted and fresh or is in the snapshot |
| OrderWatcher.SurvivorsWereAccepted | src/services/order_watcher_service.ts:29-64 | Every row a full sync leaves is a fresh order of the snapshot, or was accepted, not yet expired, in Mesh's reply to a chunk of the posted lists that carried it; this holds even if the last save throws |
| OrderWatcher.RunsStored | src/services/order_watcher_service.ts:86-122 | Over all runs of syncs and event batches, each undisturbed, every row keeps any property that the infos have which may be saved |
| OrderWatcher.RunsStayPostable | src/services/order_watcher_service.ts:16-38 | So the rows of a table filled from honest infos lie under their own hashes and within the byte limit, as the next sync needs |
| OrderWatcher.FullSyncStored | src/services/order_watcher_service.ts:58-64 | One full sync keeps any property of the rows that the snapshot has |
| OrderWatcher.GroupsStored | src/services/order_watcher_service.ts:70-75 | One event batch keeps any property of the rows that its added and updated orders have |
| OrderWatcher.NeverCachesIgnored | src/services/order_watcher_service.ts:86-122 | Over all runs of syncs and event batches from a clean table, each undisturbed, failing ones included, no ignored order is ever cached |
| OrderWatcher.AnyWritesCacheNothingIgnored | src/services/order_watcher_service.ts:86-122 | Nor over any sequence of single removals and savings, so however the writes of syncs and batches fall between each other |
| OrderWatcher.AnyWritesStored | src/services/order_watcher_service.ts:86-122 | Any such sequence keeps every property of the rows that the saved orders have, ignored ones aside |
| OrderWatcher.ChangeIsItsWrites | src/services/order_watcher_service.ts:53-75 | An undisturbed sync or batch is the sequence of its removals and savings, a group that throws being the last |
| OrderWatcher.OrderWatcherService.Remove | src/services/order_watcher_service.ts:108-116 | Deleting chunk by chunk removes exactly the given hashes |
| OrderWatcher.OrderWatcherService.Add | src/services/order_watcher_service.ts:94-107 | Filter then save equals its specification; an exception in the filter changes nothing |
| OrderWatcher.OrderWatcherService.OnOrderEvents | src/services/order_watcher_service.ts:70-75 | The subscription callback equals the grouped application |
| OrderWatcher.OrderWatcherService.SyncOrderbook | src/services/order_watcher_service.ts:16-66 | Undisturbed by event batches, the table becomes the full sync of the old one for exactly the verdicts of Mesh's replies to the pinned and the other orders of all rows; if a websocket chunk of these fails it throws with nothing changed |
| Orders.IncludesExactly | lib/utils/order_utils.js:133-147 | On any data, the recursive search answers yes exactly when a listed token comes before anything that does not decode, and throws exactly when such a thing comes before any listed token |
| Orders.DecodableIncludes | lib/utils/order_utils.js:133-147 | On data that decodes, it answers whether one of the addresses is a token at any depth |
| Orders.IgnoredExactly | lib/utils/order_utils.js:72-76 | On any order: a listed maker is enough; otherwise the maker's and then the taker's assets are searched as one list, with the same answer and exception |
| Orders.DecodableIgnored | lib/utils/order_utils.js:72-76 | On orders that decode: ignored exactly when the maker or a token on either side is on the list |
| Orders.FreshOrExpired | lib/utils/order_utils.js:96-108 | Fresh and expired partition the orders by their expiry against clock plus buffer |
| Orders.FreshMembers | lib/utils/order_utils.js:96-99 | An order is fresh exactly if it expires later than the buffer after the clock |
| Orders.GroupByFreshness | lib/utils/order_utils.js:100-108 | The loop computes the two lists in order |
| Orders.PinnedMakers | lib/utils/order_utils.js:263-269 | A maker is pinned exactly when configured or a maker of a pinned pool |
| Orders.SplitOrdersByPinning | lib/utils/order_utils.js:270-282 | Every order goes to exactly one list, by its maker |
| OrderBook.ComparatorsAreTotalPreorders | lib/utils/order_utils.js:109-132 | Both comparators are total preorders and antisymmetric, and their strict part is price, then fee ratio, then expiry |
| OrderBook.ComparedInIntegers | lib/utils/order_utils.js:109-132 | In cross-multiplied integers: an ask precedes another if it asks less taker asset for the maker asset, a bid if it offers more maker asset for the taker asset, then by higher fee for the taker asset, then by earlier expiry |
| OrderBook.SidesExactly | lib/services/orderbook_service.js:73-74 | Each side holds exactly the rows whose taker and maker assets put them there, bids taking the base and making the quote asset, each as often and in the same order |
| OrderBook.FreshByIndexExactly | lib/services/orderbook_service.js:75-82 | The filter keeps exactly the orders with more seconds left than their index in the list |
| OrderBook.FilterAgreesExactly | lib/services/orderbook_service.js:77-81 | The filter equals one with a fixed buffer if and only if no order expires after the earlier, but not after the later, of the deadlines set by the buffer and by its index |
| OrderBook.FilterIsNotABuffer | lib/services/orderbook_service.js:77-81 | A lone order about to expire passes, though a ten second buffer would drop it |
| OrderBook.BookIsSorted | lib/services/orderbook_service.js:75-82 | Each side is a sorted permutation of what the filter keeps |
| OrderBook.PagesAreTheCollection | lib/utils/pagination_utils.js:8-16 | Enough pages glued together are the collection, and none exceeds the page size |
| OrderBook.OrderBookPages | lib/services/orderbook_service.js:65-90 | The pages of a side, taken from one table at one time and glued together, are sorted and hold exactly the matching orders that pass the filter |
| AffiliateFee.BuyerNeverShort | lib/services/swap_service.js:335-339 | For any rate and amount, if the worst case is at least the scaled amount and the best case no smaller, what is left after the floored fee is at least the amount asked for |
| AffiliateFee.EnoughExactly | lib/services/swap_service.js:125 | The buyer gets at least the amount asked for if and only if the worst case exceeds (amount - 1)(1 + rate) |
| AffiliateFee.ScalingRoundTrip | lib/services/swap_service.js:335-339 | A quote for exactly the scaled amount leaves exactly the amount asked for: the fee undoes the scaling |
| AffiliateFee.NetIsShareRoundedUp | lib/utils/service_utils.js:171-181 | What the fee leaves of the worst case is its share W / (1 + rate), rounded up |
| AffiliateFee.FeeWithinRate | lib/utils/service_utils.js:171-181 | The fee is between zero and the worst case and never exceeds the rate times what the buyer keeps; it is taken from the bought token only, and costs 15000 gas exactly if it is not zero |
| AffiliateFee.ScaledIsEnough | lib/services/swap_service.js:336-338 | The scaled amount is at least the amount and within one unit below amount times (1 + rate) |
| SocketRegistry.EveryRunAgrees | lib/services/websocket_service.js:170-190 | After every run both maps have the same request ids, and every mapped socket lists the id it is mapped under |
| SocketRegistry.RegisteredExactly | lib/services/websocket_service.js:226-233 | Over every run, an id is mapped if and only if some subscription is in force: none since under the same id, no end of service, and no close of any socket that ever used the id; the maps hold its socket and filter |
| SocketRegistry.NothingAfterClose | lib/services/websocket_service.js:226-233 | A socket that closed and did not subscribe again owns no entry, whatever the others do |
| SocketRegistry.ListedExactly | lib/services/websocket_service.js:182 | A socket lists exactly the ids it has subscribed under |
| Subscriptions.DecodesExactly | lib/services/websocket_service.js:51-66 | Decoding throws exactly on malformed data at some depth |
| Subscriptions.MatchesExactly | lib/services/websocket_service.js:67-104 | On decodable orders a subscription matches exactly when everything was asked for, or an asset data of either side, or both of a pair on any side, or the two token contracts each on its side |
| Subscriptions.PayloadsDecide | lib/services/websocket_service.js:180-184 | In terms of the message a client sends: without payload, or with one that has no field, every order matches; otherwise exactly those its fields ask for |
| Subscriptions.ThrowsExactly | lib/services/websocket_service.js:67-104 | Matching throws exactly when nothing earlier matched and a side does not decode |
| Websocket.WebsocketService.constructor | lib/services/websocket_service.js:37-50 | Starts with empty maps and no connections |
| Websocket.WebsocketService.ProcessConnection | lib/services/websocket_service.js:163-169 | A new socket starts alive with no ids; nothing else changes |
| Websocket.WebsocketService.ProcessMessage | lib/services/websocket_service.js:170-190 | Which of the three errors is thrown, exactly; on an error nothing changes, otherwise the subscription is recorded in both maps and the socket |
| Websocket.WebsocketService.MessageHandler | lib/services/websocket_service.js:204-220 | On an error one failure message goes to the socket, which is terminated, and the maps stay |
| Websocket.WebsocketService.CloseHandler | lib/services/websocket_service.js:226-233 | Every id of the socket leaves both maps, nothing else does, and no entry points to the socket |
| Websocket.WebsocketService.CleanupConnections | lib/services/websocket_service.js:191-203 | Exactly the sockets that had not answered are terminated; the maps stay |
| Websocket.WebsocketService.PongHandler | lib/services/websocket_service.js:221-225 | Marks the socket alive and changes no registration |
| Websocket.WebsocketService.Destroy | lib/services/websocket_service.js:108-126 | Every connection is terminated and both maps are empty |
| Websocket.WebsocketService.CollectMatches | lib/services/websocket_service.js:141-154 | The loop finds exactly the matching ids, or throws exactly when one match throws |
| Websocket.WebsocketService.NotifyOne | lib/services/websocket_service.js:141-160 | One order goes exactly once to each matching id; a throwing match sends nothing for it |
| Websocket.WebsocketService.OrderUpdate | lib/services/websocket_service.js:127-162 | Nothing without clients; otherwise exactly one message per non-ignored order and matching id to the id's socket and no other message, up to an order that does not decode |
| Websocket.DecodableOrdersAreDelivered | lib/services/websocket_service.js:127-162 | If every order decodes the update never stops short |
| Websocket.NoticesDeliver | lib/services/websocket_service.js:155-160 | One notice per matching id is one message per order and id |
| ResultCache.EveryAnswerIsGenuine | lib/utils/result_cache.js:18-36 | However calls overlap, every answer is a result the function returned for that very argument at the stated time |
| ResultCache.PureFunctionsAreTransparent | lib/utils/result_cache.js:18-36 | If the function always returns the same for an argument, no answer differs from calling it |
| ResultCache.CacheIsLastReturn | lib/utils/result_cache.js:25 | The cache holds for each argument exactly the last return, in the order the calls finished |
| ResultCache.AnswersAreFresh | lib/utils/result_cache.js:21-32 | An answer is no older than the expiry at the start of its call, unless the function failed in that call |
| ResultCache.HitsExactly | lib/utils/result_cache.js:19-21 | A call is answered without calling the function exactly when the last return for its argument is truthy, has a time and is within the expiry, and then with that return |
| ResultCache.ThrowsExactly | lib/utils/result_cache.js:27-31 | A failing call throws exactly when the last return before its start was falsy or there was none |
| ResultCache.SeenAtStart | lib/utils/result_cache.js:19-20 | A waiting call holds what the cache held when it started, whatever others wrote since |
| ResultCache.Closure.GetResult | lib/utils/result_cache.js:18-21 | Makes the step of a starting call: reads both fields and answers at once exactly if the result is truthy, stamped and not expired |
| ResultCache.Closure.Settle | lib/utils/result_cache.js:22-35 | Makes the step of a call whose function returned or failed, on the cache and on the call's own variables |

## Left out

- Overlapping watcher passes, and a crash between two saves of one pass.
- Signer balances: the heartbeat may change balances while a pass runs; in the model they are constant within a pass, which affects ties between equally loaded signers only.
- WatcherRuns.StatusesOverRuns: assumes fresh replacement hashes, because a node that returns the hash of a row on file makes the source overwrite that row.
- Transactions.Find: the order of the rows is left open, as the source does not ask for one.
- Updates of rows already on file are plain writes. The unique transaction hash is checked where a hash is written, when signing and replacing, and its violation is caught there as in the source. Saving a missing block number is modelled as clearing it.
- Signer liveness: lib/services/transaction_watcher_signer_service.js:137 tests a promise that is not awaited, so it never stops a signing; the model signs likewise.
- Confirmation depth after a reorganisation is counted from the stored block number, as in the source, not from the node's.
- Gas price rounding to whole units, the gas station cache, metrics, the heartbeat and the status record.
- Signatures, ABI encoding, the database, HTTP, JSON and the Mesh and Ethereum protocols appear only through their answers. Serialising amounts to strings and back is taken as exact.
- Quotients are exact rationals: BigNumber's finite division precision is not modelled, only the explicit roundings to 18 places, to integers and downwards. JavaScript number arithmetic on rates and percentages is taken as exact too.
- MarketDepth.CalculateDepthForSide: amounts of samples and fills are positive, and the number of steps is a natural number.
- `calculateUnitPrice`, which only formats a price.
- MeshClient.AddOverHttp: with an order larger than the byte limit the chunking loop never ends (`Chunking.TerminatesExactly`), so every order is required to fit. Retries are part of one answer.
- MeshClient.AddOrders: once an http chunk fails, accepted and rejected overlap, so no disjointness is claimed.
- OrderWatcher.OrderWatcherService.SyncOrderbook: the two posts are made one after the other, each with its own answers of Mesh. They share no state, so their order does not matter. The source awaits between reading the table, posting, removing and saving; an event batch that lands in between is not part of this contract. `OrderWatcher.AnyWritesStored` says what holds in spite of it. With http and many rows, every row must fit the byte limit, as above.
- OrderCache.GroupsMatchOrder: a batch with an order that does not decode is not covered, for then it is false (`OrderCache.UndecodableOrderDiffers`).
- OrderBook.OrderBookPages: all pages come from one table at one time; the source reads table and clock again for every request, so pages of different requests need not fit together.
- OrderBook.BookIsSorted: orders have positive amounts, as prices are quotients. The other views of the order book service are plain filters.
- Asset data is a datatype of decoded values; equal encoded strings are equal values. The fields of an order the modelled code does not read are left out.
- Websocket.WebsocketService.OrderUpdate: the order in which the ids of one order are served is left open, and so is what a failing `send` does. Request ids that are names of members every JavaScript object has are left out, for they make the source's per-order table misbehave; the same goes for arguments of the result cache.
- Websocket clients sharing one request id take each other's entry over and close it for each other; `SocketRegistry.RegisteredExactly` says exactly when, and no isolation is claimed.
- ResultCache.AnswersAreFresh: assumes a clock that does not run backwards. Two calls that miss at the same time both call the function, and the later one to finish wins, even with older data.
- AffiliateFee.BuyerNeverShort: the rest of the swap quote (gas estimates, protocol fees, prices, gas token refunds, versions) is left out; it adds sums without a further invariant.
- Servers, routers, handlers, schemas, configuration, logging, the dashboard, token metadata and staking queries.

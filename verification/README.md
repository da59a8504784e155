# A verified model of the exchange's trading core, store, state commitment and attestation

This project models, in Dafny 4.11, four parts of a perpetuals exchange with its own chain, and proves what they
keep over every input, every run and every interleaving. `dafny verify dfyconfig.toml` checks all of it.

**The trading core.** `OrderBook` holds a price-time book with its id index and cached best prices; `Depth` its
level-two view; `Matching` the loop that consumes it; `Triggers` the stored take-profit and stop-loss orders;
`Accounting` and `MarkPrice` what fills do to positions, open interest and the mark. `Trading` puts them together:
placing an order can fire triggers, which are placed again, so placing and checking are mutually recursive and
terminate because a fired trigger leaves the store first. `Agreement` says when order records, book and account
lists stay in step, `MarketInvariant` and `Exchange` what every cascade and every run keep, `Drift` how far those
structures can drift apart when orders meet their own or are rejected, and `Engine` is the object that does all
this in place. `Adl` models auto-deleveraging with its truncations; `Snapshots`, `SnapshotObject` and
`RunSnapshots` saving and restoring the engine state, whether or not books and records agree; `Shortfalls` holds runs
that reach the cases in which agreement, calm or an unchanged restored book fail. `Outcomes` says what each operation
does in the fields of orders, fills, requests and positions.

**The key-value store.** `Wal` is the log at the level of bytes, `Store` the operations on memory and disk with a
crash possible between any two effects, `StoreRuns` runs that go on after such crashes, against a plain map,
`StoreLosses` where data is lost and exactly when, and `StoreObject` the object and its directory.

**State commitment.** `Merkle` and `ProofBytes` are trees, proofs and their bytes; `Layouts` where each field stands
in everything that is written or hashed; `EntryTrees`, `StateRoots` and
`Tables` the roots of sorted tables with their byte layouts; `AppHash` the application hash and the state object
that proves balances and nonces. The hash is an arbitrary function. Where a result needs that it has no collisions,
it asks this of the byte strings actually hashed, never of all of them.

**Attestation.** `Attestation` is the tally and the verdict at one height; `Protocol` a state machine in which
every lock-protected section is one step and any number of calls interleave with validator changes, the alert
channel, the handler and manual clears; `HaltRaces` what overlapping halts and clears leave; `AttestationObject`
the two objects.

## Conventions

- Decimals are integers at their scale, with truncation toward zero written out; integers are unbounded.
- Orders, positions and triggers are kept per market (`Slice`); the engine's nested maps are this, transposed.
- The margin check, the deleveraging score, the record codec and the hash are arbitrary functions; clocks and the
  order in which a hash map or a directory is enumerated are parameters.
- Prices are positive where the book is concerned. The code checks only the tick, and `Books.RemoveUndoesInsertIff`
  shows what goes wrong otherwise.
- Hashes and keys in `Attestation` are the numbers their 32 bytes spell; ratios there are real numbers.

## Where the code and its comments differ

The model follows the code in each case.

- A post-only order that is filled entirely is accepted although it took liquidity, and a rejected post-only or
  fill-or-kill order leaves its fills consumed (`Matching.TimeInForceOutcomes`, `Agreement.RejectedDisagrees`).
- A reduce-only order must reduce the position, but only its direction is checked: a larger one turns the position
  over (`Outcomes.AdmittedIff`).
- Restoring a snapshot is meant to give back an earlier state, but books are rebuilt from the records: an order that
  self-trade prevention dropped comes back (`RunSnapshots.RunRestores`, `Shortfalls.RestoredCrossed`).
- The store's rollback resets the height, not the map (`Store.RecoveryExact`, `StoreLosses.WriteSurvivesIff`).
- Auto-deleveraging speaks of the opposite side but takes every profitable position, on either side
  (`Adl.CandidatesIn`).

## Model

| member | source | states |
|---|---|---|
| `Books.InsertKeeps` | crates/engine/src/orderbook.rs:57-75 | inserting adds exactly the order and keeps sides sorted, id index and cached best prices describing one set of orders |
| `Books.RemoveKeeps` | crates/engine/src/orderbook.rs:79-95 | removing by id takes out exactly that order, if there is one, and keeps the same invariant |
| `Books.GetFinds` | crates/engine/src/orderbook.rs:98-115 | lookup by id answers exactly for the orders on the book |
| `Books.BookDeterminedBySides` | crates/engine/src/orderbook.rs:57-95 | two well-formed books with the same orders are identical, index and caches included |
| `Books.InsertIdempotent` | crates/engine/src/orderbook.rs:57-75 | inserting a resting order again changes nothing (the matching loop and the engine both insert a resting taker) |
| `Books.RemoveUndoesInsertIff` | crates/engine/src/orderbook.rs:79-95 | on every well-formed book, removing an order just inserted gives the book back exactly when its bid price is positive (its ask price not negative): the side is read off the sign of the key |
| `Books.InsertAllKeeps` | crates/engine/src/orderbook.rs:348-359 | loading orders with distinct ids in any order gives a well-formed book with exactly those orders |
| `Books.SnapshotRoundTrip` | crates/engine/src/orderbook.rs:335-359 | a book saved and rebuilt is the same book, index and caches included |
| `Books.OrderBook.FromSnapshot` | crates/engine/src/orderbook.rs:348-359 | the rebuilding loops compute that fold |
| `Books.OrderBook.InsertOrder` | crates/engine/src/orderbook.rs:57-75 | the object's new contents are the insert of the old |
| `Books.OrderBook.RemoveOrder` | crates/engine/src/orderbook.rs:79-95 | the object's new contents are the removal from the old, and the order found is the one looked up |
| `Books.OrderBook.FillResting` | crates/engine/src/orderbook.rs:108-115 | a fill in place changes the one order it names and nothing else |
| `Depth.DistinctPricesOrdered` | crates/engine/src/orderbook.rs:288-323 | the listed prices are exactly those that occur, in strict priority order |
| `Depth.L2Full` | crates/engine/src/orderbook.rs:288-323 | once the depth is reached, no later order changes the view |
| `Depth.LevelWithout` | crates/engine/src/orderbook.rs:288-323 | a level counts each order at its price once, with what is left of it |
| `Depth.AggregateLevels` | crates/engine/src/orderbook.rs:288-323 | the accumulating loop returns exactly the first `depth` distinct prices, each with its total remaining size and order count |
| `Matching.WalkIsAllocation` | crates/engine/src/matching.rs:125-262 | the loop's walk equals a closed form: every touched maker gets the part of the taker that earlier makers left, at its own price; own orders are dropped; the walk stops at the first price that does not cross |
| `Matching.WalkConserves` | crates/engine/src/matching.rs:125-262 | what the taker loses, what the makers lose and the sum of the fills are one number |
| `Matching.WalkRest` | crates/engine/src/matching.rs:125-262 | what is left of the queue is in order, and every order in it is untouched or partly filled |
| `Matching.WalkFills` | crates/engine/src/matching.rs:125-262 | every fill is with another account's crossing order at its price and within its size, and no maker is filled twice |
| `Matching.WalkExhausts` | crates/engine/src/matching.rs:125-262 | a taker with size left has nothing crossing in front of it |
| `Matching.WalkFate` | crates/engine/src/matching.rs:125-262 | what becomes of each resting order: untouched, partly filled, filled or dropped, by the closed form |
| `Matching.ProcessKeeps` | crates/engine/src/matching.rs:50-80 | processing any new order keeps the book well formed; it holds what matching left plus a remainder that may rest |
| `Matching.ProcessUncrossed` | crates/engine/src/matching.rs:50-80 | an uncrossed book stays uncrossed through any order, accepted or rejected |
| `Matching.RemoveUncrossed` | crates/engine/src/orderbook.rs:79-95 | removals keep it uncrossed |
| `Matching.TimeInForceOutcomes` | crates/engine/src/matching.rs:266-294 | a post-only or fill-or-kill order is rejected exactly when the crossing orders of others cover part of it; otherwise it trades the smaller of the two sizes |
| `Matching.MatchAgainstAsks` | crates/engine/src/matching.rs:125-193 | the loop over asks computes the walk, in place |
| `Matching.MatchAgainstBids` | crates/engine/src/matching.rs:196-262 | the loop over bids computes the walk, in place |
| `Matching.ProcessOrder` | crates/engine/src/matching.rs:50-80 | the book and result of processing, rejections with a consumed book included |
| `Outcomes.FillsTrade` | crates/engine/src/matching.rs:125-262 | every fill of a new order is with the resting order on the other side that its id names: at that order's price, no worse than the taker's, for no more than its size, between its owner as maker and another account as taker, with market and direction of the taker |
| `Outcomes.SidesInPriority` | crates/engine/src/orderbook.rs:57-75 | bids stand by falling, asks by rising price, then by time, then by id |
| `Outcomes.PriceTimePriority` | crates/engine/src/matching.rs:125-262 | when an order trades, every order on its side with a better price, or the same and earlier, is off the book, traded unless it was the taker's own |
| `Outcomes.OrderOutcome` | crates/engine/src/matching.rs:266-294 | what a new order ends as, by its type: less by what its fills say; filled, resting (good-til-canceled and post-only only), canceled, or rejected with the error of its type; and whether it is on the book |
| `Triggers.AddKeeps` | crates/engine/src/state.rs:354-389 | storing a trigger keeps buckets and index in step and adds exactly that order |
| `Triggers.RemoveTriggerKeeps` | crates/engine/src/state.rs:392-410 | removing by id takes out exactly that trigger; emptied buckets go |
| `Triggers.CancelForExact` | crates/engine/src/state.rs:489-520 | cancelling for an account removes all its triggers in the market and nobody else's |
| `Triggers.PopAllKeeps` | crates/engine/src/state.rs:412-459 | popping at a price removes exactly the triggers that price has reached and leaves none that it has |
| `Triggers.PopAllCount` | crates/engine/src/state.rs:412-459 | every fired trigger leaves the store before it is re-placed (the termination measure) |
| `Outcomes.PopsReached` | crates/engine/src/state.rs:412-459 | popping at a price takes out exactly the orders above with a trigger price up to it and the orders below with one down to it; every order left waits beyond it |
| `Accounting.SettleBalancedIff` | crates/engine/src/lib.rs:612-678 | a fill keeps sizes summing to zero and both open-interest counters exact if and only if both parties have a position record or neither has |
| `Accounting.OpenInterestMatches` | crates/engine/src/lib.rs:612-678 | then long and short open interest are equal |
| `Outcomes.SettleMoves` | crates/engine/src/lib.rs:627-637 | a fill raises the buyer's position by its size and lowers the seller's by as much, opens no position, and touches no other |
| `Outcomes.InterestOfOne` | crates/engine/src/lib.rs:655-672 | a position counts with its size on its own side of open interest and not on the other |
| `Outcomes.ExecuteMoves` | crates/engine/src/lib.rs:190-271 | an accepted buy raises its owner's position by the total of its fills and lowers each maker's by what that maker gave; a sell does the reverse; a rejected order moves none |
| `MarkPrice.MarkBounded` | crates/engine/src/state.rs:711-727 | over any number of fills priced in [lo, hi] the mark stays in [lo rounded down to a multiple of ten, hi], so never more than nine raw units below lo |
| `MarkPrice.FloorReached` | crates/engine/src/state.rs:711-727 | that floor is reached: the band is tight |
| `Outcomes.SmoothIsWeighted` | crates/engine/src/state.rs:711-727 | the first trade sets the mark; after that ten times the mark is nine times the old one plus the trade price, less the remainders of the two by ten |
| `Trading.ApplyFillsMark` | crates/engine/src/lib.rs:709-712 | a batch of fills smooths the mark by their prices in order |
| `Agreement.MatchFate` | crates/engine/src/matching.rs:125-262 | after matching, lookup by id finds each earlier order untouched, partly filled or gone, as its fills say |
| `Agreement.ExecuteAgreesIff` | crates/engine/src/lib.rs:201-271 | records, book and account lists stay in agreement through an order if and only if it meets none of its own orders and is not rejected after a partial fill |
| `Agreement.RejectedDisagrees` | crates/engine/src/matching.rs:275-283 | a rejection after fills leaves the records behind the book |
| `Agreement.SelfMatchDisagrees` | crates/engine/src/matching.rs:148-152 | self-trade prevention leaves a record of an order that is no longer on the book |
| `Shortfalls.SelfMatchRun` | crates/engine/src/matching.rs:148-152 | a run from an empty exchange that does: an account sells and then buys at the same price, and two records face a book of one order |
| `Shortfalls.RejectedRun` | crates/engine/src/matching.rs:275-283 | a run in which a post-only or fill-or-kill bid takes an ask and is rejected: the record of the ask stays, on an empty book |
| `Agreement.RemoveAgrees` | crates/engine/src/state.rs:277-294 | cancelling keeps records, book and account lists in agreement |
| `MarketInvariant.PlaceKeeps` | crates/engine/src/lib.rs:112-284 | placing any order, with the whole cascade of triggers it fires, keeps the market invariant; a plain order adds no trigger, and if the mark had reached no stored trigger before, the final mark has reached none |
| `Outcomes.AdmittedIff` | crates/engine/src/lib.rs:112-171 | a request is admitted if and only if the market trades, price and size are on the grid and within the limits, and it is reduce-only against an open position of the other side, or not and the margin suffices |
| `Outcomes.RefusedFor` | crates/engine/src/lib.rs:519-566 | and otherwise refused for the first reason that applies |
| `Outcomes.PlaceMeans` | crates/engine/src/lib.rs:172-192 | an admitted request becomes an order with its fields under the next id: stored and not traded if it has a trigger price, and executed otherwise; a refused one uses no id |
| `Outcomes.QuietPlacement` | crates/engine/src/lib.rs:273-283 | an order that trades nothing, or is rejected, moves no mark and fires no trigger |
| `MarketInvariant.CheckKeeps` | crates/engine/src/lib.rs:568-610 | after a trigger check no stored trigger is reached by the checked price, whatever the cascade did |
| `Outcomes.CheckFires` | crates/engine/src/lib.rs:568-610 | a check places again, in order of id, exactly the stored orders that the price has reached, from a store without them |
| `Outcomes.CheckLeaves` | crates/engine/src/lib.rs:568-610 | after it, whatever the cascade did, every stored order above waits for a higher price than the checked one, and every order below for a lower one |
| `Outcomes.FiredPlaced` | crates/engine/src/lib.rs:590-607 | a fired order that is admitted is executed with its account, side, price, type and flag, for the size left of it, without trigger, now |
| `MarketInvariant.PlaceAllKeeps` | crates/engine/src/lib.rs:590-607 | re-placing any list of fired triggers keeps the invariant |
| `MarketInvariant.FlatHasNoTriggers` | crates/engine/src/lib.rs:714-730 | after a fill no party that went flat has a trigger left, and no other trigger is touched |
| `MarketInvariant.StoreCalmIff` | crates/engine/src/lib.rs:176-180 | storing a trigger leaves nothing reached by the mark if and only if the mark has not reached it already: it is not checked when stored |
| `Shortfalls.ArmedRun` | crates/engine/src/lib.rs:176-180 | a run that stores a trigger above 3 at a mark of 5: calm before, and not after |
| `MarketInvariant.PlaceAgrees` | crates/engine/src/lib.rs:112-284 | agreement of records, book and lists survives the whole cascade when every order in it meets none of its own and is accepted |
| `ExchangeRuns.RunKeeps` | crates/engine/src/lib.rs:105-329 | every run of market additions, placements, cancellations and trigger checks keeps the invariant of every market |
| `ExchangeRuns.RunConserves` | crates/engine/src/lib.rs:612-678 | over every run from an empty exchange sizes sum to zero, both open-interest counters equal the sum of positive sizes, and books are uncrossed |
| `ExchangeRuns.RunAgrees` | crates/engine/src/lib.rs:201-329 | over every run whose orders meet none of their own and are accepted, records, books and account lists agree |
| `ExchangeRuns.RunCalm` | crates/engine/src/lib.rs:273-283 | over every run that stores no trigger already reached, no stored trigger is ever reached by the current mark |
| `ExchangeRuns.CancelAllExact` | crates/engine/src/lib.rs:312-329 | wherever account lists name their records, cancel-all removes exactly the account's own records and changes no other; also exactly its own orders on the book, if everything there is on record; full agreement is kept |
| `Outcomes.CancelMeans` | crates/engine/src/lib.rs:289-309 | a cancellation takes out exactly that record and that order if the record is the account's own, and changes nothing otherwise |
| `Agreement.ExecuteLoose` | crates/engine/src/lib.rs:190-271 | through any order, one that meets its own or is rejected included, account lists name exactly the records of their accounts, everything on the book is on record with the same owner and in no smaller a size, and records stay under their ids with a price and a size |
| `Drift.AgreeingIsLoose` | crates/engine/src/lib.rs:201-271 | this is no more than agreement asks |
| `Drift.RunLoose` | crates/engine/src/lib.rs:105-329 | it survives every run, with no condition on what its orders meet, and so does that records carry their market |
| `Drift.RunDrifts` | crates/engine/src/lib.rs:312-329 | so after every run from an empty exchange cancel-all takes out exactly the account's own records and orders |
| `EngineObject.ClassifyMakers` | crates/engine/src/lib.rs:208-220 | the loop splits the makers of the fills into those gone from the book and those left, with their sizes |
| `EngineObject.SyncMakers` | crates/engine/src/lib.rs:204-228 | the record-keeping loops compute the declarative synchronisation with the book |
| `EngineObject.SettleFill` | crates/engine/src/lib.rs:612-730 | one fill applied step by step is the settlement of the ledger, the smoothed mark and the cancelled triggers of flat parties |
| `EngineObject.ExecuteOrder` | crates/engine/src/lib.rs:190-271 | matching, synchronisation, fills and the resting remainder, in sequence, compute the execution of the order |
| `EngineObject.TakeTriggered` | crates/engine/src/state.rs:412-459 | the range scan returns and removes exactly the reached buckets and cleans the index |
| `EngineObject.CancelListed` | crates/engine/src/lib.rs:312-329 | the loop cancels the account's open orders in list order and returns each marked canceled; in a market the matching engine does not know, it stops with an error after the first has left the records |
| `EngineObject.Engine.AddNewMarket` | crates/engine/src/lib.rs:105-109 | the exchange with that market added |
| `EngineObject.Engine.SubmitOrder` | crates/engine/src/lib.rs:112-284 | placing an order on the object computes the specified outcome, errors and cascades included, and terminates |
| `EngineObject.Engine.FireTriggers` | crates/engine/src/lib.rs:568-610 | checking triggers on the object computes the specified cascade |
| `EngineObject.Engine.Cancel` | crates/engine/src/lib.rs:289-309 | cancelling: not found, not owned, in a market the matching engine does not know, or removed and returned as canceled, in this order |
| `EngineObject.Engine.CancelAllOrders` | crates/engine/src/lib.rs:312-329 | cancelling all on the object: the specified step and the orders canceled, or, exactly when there are orders to cancel in a market the matching engine does not know, the error, with one record gone |
| `Adl.NeverOverCollects` | crates/engine/src/lib.rs:957-1003 | at a price that is not negative: amounts taken plus remaining deficit equal the deficit, the remainder never goes negative, and no position grows, changes side or is opened |
| `Adl.DeficitShrinksIff` | crates/engine/src/lib.rs:967-995 | the deficit does not grow if and only if the position's value at the price is not negative |
| `Adl.ClosedWorthAtMost` | crates/engine/src/lib.rs:969-982 | for every truncation, what is closed is worth no more than what is credited |
| `Adl.TakenAtWorth` | crates/engine/src/lib.rs:957-1003 | so every counterparty taken is credited something, for something worth no more |
| `Adl.CloseSizeAtLeast` | crates/engine/src/lib.rs:974-982 | a partial close is the proportional share of the position, short by less than one part in a million of the ratio and one unit of size, and never more than the share |
| `Adl.ClosesNothingIff` | crates/engine/src/lib.rs:974-986 | nothing is closed if and only if the size times the truncated ratio is less than one |
| `Adl.NotionalExact` | crates/engine/src/lib.rs:969-970 | the value of a position is its size times the price, rounded down to money |
| `Adl.CandidateTaken` | crates/engine/src/lib.rs:959-995 | a candidate with value is credited the deficit or its whole value, whichever is less, and its position loses that share toward zero and no other position changes; it is passed over only if the share rounds to nothing |
| `Adl.DeficitLeftMeans` | crates/engine/src/lib.rs:957-1003 | if deficit remains, each candidate with value is closed entirely, or its size times the truncated ratio of deficit to value is less than one |
| `Adl.CandidatesIn` | crates/engine/src/lib.rs:938-954 | the candidates are exactly the open positions with a positive score, long or short |
| `Adl.TakenByScore` | crates/engine/src/lib.rs:938-957 | accounts are taken in non-increasing order of score, each at most once, and only profitable ones |
| `Adl.TriggerAdl` | crates/engine/src/lib.rs:931-1004 | the two loops compute that specification |
| `Snapshots.TriggersBack` | crates/engine/src/state.rs:908-921 | saved triggers, added again, rebuild buckets, the order inside each, and the index |
| `Snapshots.BookBack` | crates/engine/src/state.rs:979-981 | the book rebuilt from the records, in whatever order, is well formed and holds exactly the records; it is the book there was if and only if that one agreed with them |
| `Snapshots.SliceBack` | crates/engine/src/state.rs:950-998 | one market saved and rebuilt, its book in agreement with its records or not: all comes back but the order inside account lists and a book that disagreed, which becomes the book of the records |
| `SnapshotObject.RestoreBack` | crates/engine/src/state.rs:950-1040 | the whole state saved and rebuilt: accounts, margin modes, fund and next id come back, and every market as just said |
| `SnapshotObject.TakeSnapshot` | crates/engine/src/state.rs:880-943 | the saving loops list exactly the state, whatever the enumeration order |
| `SnapshotObject.EngineStateObject.Restore` | crates/engine/src/state.rs:950-998 | restoring onto any object gives the rebuilt state, whatever was there |
| `SnapshotObject.EngineStateObject.FromSnapshot` | crates/engine/src/state.rs:1001-1040 | so does building a new one |
| `RunSnapshots.RunRestores` | crates/engine/src/state.rs:880-1040 | after every run from an empty exchange, whatever its orders met, any snapshot restores everything but the books as it was, and each book to its records, which is the book there was if and only if it agreed with them; after runs that keep them in agreement, all books |
| `RunSnapshots.BackUncrossedIff` | crates/engine/src/state.rs:979-981 | a restored book is uncrossed if and only if no two records cross, whether or not they were on the book |
| `Shortfalls.RestoredCrossed` | crates/engine/src/state.rs:950-1040 | the state after the run with the self-match, restored from any snapshot of it, has a crossed book where there was none |
| `Wal.LogRoundTrip` | crates/engine/src/mmap_state.rs:419-482 | replaying a log reads back exactly the records written |
| `Wal.CutReplaysComplete` | crates/engine/src/mmap_state.rs:429-482 | a log cut at any byte replays exactly its complete records |
| `Wal.CompleteExact` | crates/engine/src/mmap_state.rs:443-457 | and those are as many as fit into the bytes left, no more |
| `Layouts.RecordLayout` | crates/engine/src/mmap_state.rs:419-426 | a record is its length in four bytes, least significant first, and its body |
| `Wal.ReplayWal` | crates/engine/src/mmap_state.rs:429-502 | the cursor loop replays the readable records in order and rolls the height back to the last commit |
| `Store.ReplayOverSnapshot` | crates/engine/src/mmap_state.rs:459-478 | replaying a log over a snapshot that already contains its effect changes nothing |
| `Store.RecoveryExact` | crates/engine/src/mmap_state.rs:128-155 | recovery at any point gives back exactly the map, and the height if and only if no block was open |
| `Store.RecoveryKeeps` | crates/engine/src/mmap_state.rs:128-155 | the recovered store satisfies the invariant again |
| `StoreRuns.CrashDuringCommit` | crates/engine/src/mmap_state.rs:227-305 | a crash anywhere between the commit record and the end of the commit (before the rename, with any number of snapshots pruned, before or after truncation) recovers exactly the committed map and height |
| `StoreLosses.CommitOutcome` | crates/engine/src/mmap_state.rs:227-305 | a commit with writes before it at a multiple of the interval replaces the log by a snapshot and keeps the newest of the list; any other adds its record and does nothing else |
| `StoreRuns.RunExact` | crates/engine/src/mmap_state.rs:180-305 | over every disciplined run with any number of crashes, between operations or inside a commit (after its record, after the rename, with any number of snapshots pruned), the store shows the map and height of a store that never touches a disk, and a crash now recovers that map at the last committed height |
| `StoreRuns.RunTornExact` | crates/engine/src/mmap_state.rs:409-457 | so does a crash at any byte of a record being appended at the end of such a run |
| `StoreRuns.TornRunHeals` | crates/engine/src/mmap_state.rs:257-305 | a run that goes on behind a torn record still shows the map and height of the store without a disk, and from the next commit that takes a snapshot on it is, log included, the run in which nothing was torn, so every later crash recovers exactly |
| `StoreRuns.TornRecordIgnored` | crates/engine/src/mmap_state.rs:419-457 | a crash in the middle of a record recovers as if it had not been begun |
| `StoreLosses.TornTailSwallows` | crates/engine/src/mmap_state.rs:409-457 | after a crash at any byte of a record the log is appended to as it is: the bytes missing, of the length or of the body, are taken from the next records; nothing is replayed until they are there, and then one pieced-together body and what follows it |
| `StoreLosses.TornTailLoses` | crates/engine/src/mmap_state.rs:409-457 | so records written behind a torn one are all lost as long as they are shorter together than what it lacks |
| `StoreLosses.WriteSurvivesIff` | crates/engine/src/mmap_state.rs:459-491 | a write survives if and only if no rolled-back height is pending or it changed nothing: the rollback resets the height only |
| `StoreLosses.DeleteSurvivesIff` | crates/engine/src/mmap_state.rs:459-491 | a deletion survives if and only if no rolled-back height is pending or the key was not there |
| `StoreLosses.RunWritesSurviveIff` | crates/engine/src/mmap_state.rs:459-491 | after every disciplined run, a write or deletion survives a crash right after it if and only if the height is the highest begun one or it changed nothing |
| `StoreLosses.RolledBackWriteLost` | crates/engine/src/mmap_state.rs:459-491 | a run from a new store that loses a write: begin, crash, set |
| `StoreLosses.RolledBackDeleteUndone` | crates/engine/src/mmap_state.rs:459-491 | a run that undoes a deletion: begin, set, crash, delete |
| `StoreLosses.CommitRecoversIff` | crates/engine/src/mmap_state.rs:227-305 | for every node, height and bound: a commit that takes a snapshot can be recovered from if and only if one is retained at a height above all others, two at the latest height again, exactly one at a lower height without a snapshot, or everything is deleted and there was nothing to lose |
| `StoreLosses.SameHeightLosesAll` | crates/engine/src/mmap_state.rs:516-529 | a run from a new store that loses everything: begin, set, commit, set, commit, with one snapshot retained |
| `StoreObject.ScanSnapshots` | crates/engine/src/mmap_state.rs:371-407 | the scan lists the snapshot heights in order, each once, whatever the directory order |
| `StoreObject.MmapState.Put` | crates/engine/src/mmap_state.rs:180-195 | new memory and log of a write |
| `StoreObject.MmapState.Remove` | crates/engine/src/mmap_state.rs:198-211 | new memory and log of a deletion |
| `StoreObject.MmapState.StartBlock` | crates/engine/src/mmap_state.rs:214-224 | new memory and log of a block begin |
| `StoreObject.MmapState.EndBlock` | crates/engine/src/mmap_state.rs:227-254 | commit record, then a snapshot when due |
| `StoreObject.MmapState.TakeSnapshot` | crates/engine/src/mmap_state.rs:257-305 | rename, prune, truncate, in that order |
| `StoreObject.MmapState.PruneSnapshots` | crates/engine/src/mmap_state.rs:516-529 | the loop drops the oldest snapshots until few enough are left |
| `StoreObject.MmapState.RestoreSnapshot` | crates/engine/src/mmap_state.rs:308-335 | loads a snapshot that exists and reports one that does not |
| `StoreObject.MmapState.Initialize` | crates/engine/src/mmap_state.rs:128-155 | scan, load the latest snapshot, replay: on a new object, recovery |
| `Merkle.Complete` | crates/chain/src/merkle.rs:258-299 | from every leaf of every non-empty list the path leads to the root, through duplicated last nodes and the single leaf |
| `Merkle.LevelSizes` | crates/chain/src/merkle.rs:183-227 | level k has the number of leaves over 2^k, rounded up |
| `Merkle.DepthIsLog` | crates/chain/src/merkle.rs:183-227 | the number of levels is the logarithm, and at least one |
| `Layouts.SmallTrees` | crates/chain/src/merkle.rs:183-227 | nodes are hashed left before right, a last one without a partner with itself, no leaves as nothing |
| `Layouts.StepSides` | crates/chain/src/merkle.rs:57-68 | a step hashes its sibling on the side it names |
| `Layouts.FirstStep` | crates/chain/src/merkle.rs:258-299 | a proof starts with the leaf's neighbour and the side it is on, or with the leaf itself if it has none |
| `Merkle.Sound` | crates/chain/src/merkle.rs:51-68 | a depth-length proof that leads to the root carries the leaf its directions lead to, if nothing hashed collides |
| `Merkle.RootBinds` | crates/chain/src/merkle.rs:183-227 | equally long lists with the same root are equal, if nothing hashed collides |
| `Merkle.RepeatedLastLeaf` | crates/chain/src/merkle.rs:204-213 | for every hash, an odd list and the list with its last leaf repeated share a root: equal length is needed |
| `Merkle.InnerNodeAccepted` | crates/chain/src/merkle.rs:51-68 | for every hash, any inner node is accepted by a shorter proof: the length is needed |
| `Merkle.FromLeaves` | crates/chain/src/merkle.rs:183-227 | the building loops compute the levels |
| `Merkle.ComputeRoot` | crates/chain/src/merkle.rs:57-68 | the loop folds the steps, as far as siblings and directions both go |
| `Merkle.Prove` | crates/chain/src/merkle.rs:258-299 | there is a proof for exactly the indices there are, it carries that leaf, and it verifies against the root |
| `ProofBytes.EncodeDecodeIff` | crates/chain/src/merkle.rs:71-156 | proof bytes read back as the proof if and only if siblings and directions are equally many and both counters fit 32 bits |
| `ProofBytes.DecodeEncode` | crates/chain/src/merkle.rs:95-156 | bytes that are accepted begin with the encoding of the proof they give |
| `Layouts.ProofLayout` | crates/chain/src/merkle.rs:71-92 | leaf, index and count in four bytes each, then each sibling and the byte of its side |
| `ProofBytes.ToBytes` | crates/chain/src/merkle.rs:71-92 | the writing loop |
| `ProofBytes.FromBytes` | crates/chain/src/merkle.rs:95-156 | the reading loop, refusals included |
| `EntryTrees.EntrySound` | crates/chain/src/state.rs:948-969 | for entries that are not 64 bytes long, a proof of any length is accepted only for a committed entry, if nothing hashed collides |
| `EntryTrees.EntryRootBinds` | crates/chain/src/merkle.rs:232-238 | two lists of such entries with the same root have the same entries, whatever their lengths |
| `StateRoots.RootIgnoresOrder` | crates/chain/src/state.rs:622-651 | the root of a table does not depend on the order in which its map is enumerated |
| `StateRoots.TableRootBinds` | crates/chain/src/state.rs:622-676 | two tables with the same root are equal, whatever their sizes, if nothing hashed collides |
| `StateRoots.CommittedIff` | crates/chain/src/state.rs:630-648 | an entry is committed if and only if the table maps that key to that value |
| `StateRoots.TableSound` | crates/chain/src/state.rs:948-998 | a proof of any length is accepted only for an entry of the table, if nothing hashed collides |
| `Tables.BalancesLawful` | crates/chain/src/state.rs:630-648 | balance entries: fixed widths, readable back, a strict total key order |
| `Tables.NoncesLawful` | crates/chain/src/state.rs:658-676 | nonce entries likewise |
| `Tables.PositionsLawful` | crates/chain/src/state.rs:734-762 | position entries likewise |
| `Tables.OrdersLawful` | crates/chain/src/state.rs:765-797 | order entries likewise |
| `Tables.MarketsLawful` | crates/chain/src/state.rs:800-822 | market entries likewise |
| `Tables.LeverageLawful` | crates/chain/src/state.rs:825-849 | leverage entries likewise |
| `Layouts.BalanceLayout` | crates/chain/src/state.rs:630-648 | balance entries: owner, token, and three amounts at their offsets |
| `Layouts.NonceLayout` | crates/chain/src/state.rs:658-676 | nonce entries: owner and number |
| `Layouts.PositionLayout` | crates/chain/src/state.rs:734-762 | position entries: owner, market, and four amounts at their offsets |
| `Layouts.OrderLayout` | crates/chain/src/state.rs:765-797 | order entries: market, id, owner, side (0 for buy), and three amounts at their offsets |
| `Layouts.MarketLayout` | crates/chain/src/state.rs:800-822 | market entries: number and five amounts at their offsets |
| `Layouts.LeverageLayout` | crates/chain/src/state.rs:825-849 | leverage entries: owner, market, and one byte |
| `Layouts.SignedBytes` | crates/chain/src/state.rs:630-648 | amounts are two's complement in 16 bytes, least significant first |
| `Layouts.Digit` | crates/chain/src/state.rs:630-648 | byte i of a number is its digit for 256 to the i |
| `Layouts.KeyOrders` | crates/chain/src/state.rs:622-676 | the order of keys in each table, owners compared at the first byte that differs |
| `Layouts.EntriesInOrder` | crates/chain/src/state.rs:622-651 | the committed entries stand in that order |
| `AppHash.AppHashBinds` | crates/chain/src/state.rs:439-548 | two states with the same application hash are equal in height, time, previous hash and every table, if nothing hashed for either collides |
| `AppHash.ChainBinds` | crates/chain/src/state.rs:895-904 | two chains of block ends, each carrying the hash of the one before, that end in the same hash agree block by block as far back as the shorter goes, if nothing hashed for them collides |
| `AppHash.ComputeAppHash` | crates/chain/src/state.rs:439-548 | the hash is a function of the state alone, whatever the enumeration orders |
| `Layouts.AppInputLayout` | crates/chain/src/state.rs:439-548 | the bytes hashed: height, time, previous hash, each root and digest at its offset |
| `AppHash.AppState.EndBlock` | crates/chain/src/state.rs:895-904 | caches the trees of the current tables, chains the hash on the previous one and records it under the height |
| `AppHash.AppState.ProveBalance` | crates/chain/src/state.rs:926-942 | as long as balances are unchanged since the block ended, there is a proof for every balance, and it verifies; none for a missing one |
| `AppHash.AppState.VerifyBalanceProof` | crates/chain/src/state.rs:948-969 | accepts exactly a right leaf that leads to the root; so, without collisions, only balances the cached tree was built from, up to date or not, and current ones if none changed |
| `AppHash.AppState.ProveNonce` | crates/chain/src/state.rs:972-984 | the same for nonces |
| `AppHash.AppState.VerifyNonceProof` | crates/chain/src/state.rs:987-998 | the same for nonces |
| `Attestation.VotesExact` | crates/chain/src/attestation_collector.rs:236-243 | the tally lists exactly the hashes that registered validators attested, each with their power |
| `Attestation.VotesSum` | crates/chain/src/attestation_collector.rs:233-243 | the counted power is the sum of the tally |
| `Attestation.VotedBounded` | crates/chain/src/attestation_collector.rs:233-243 | with each validator once, counted power is at most the registered power |
| `Attestation.MinorityMeans` | crates/chain/src/attestation_collector.rs:245-308 | a minority alert means: threshold met, our hash known, and another hash with the most power |
| `Attestation.AlertedIff` | crates/chain/src/attestation_collector.rs:245-281 | a check alerts if and only if power is registered, the attested power is at least the threshold's share of it, and two registered validators attested two hashes |
| `Attestation.MinorityIff` | crates/chain/src/attestation_collector.rs:272-308 | an alert reports the tally and the hash no other beats by power, or by being larger at equal power; it tells us we are in the minority if and only if our hash is known and is not that one, that is, another hash beats ours |
| `Attestation.CheckDivergence` | crates/chain/src/attestation_collector.rs:222-319 | the check alerts if and only if power is registered, the threshold is met and registered validators attested two hashes; the majority is the last hash with the most power |
| `Protocol.StepKeeps` | crates/chain/src/attestation_collector.rs:101-324 | every lock section, of any of any number of concurrent calls, keeps the invariant |
| `Protocol.RunKeeps` | crates/chain/src/attestation_collector.rs:101-324 | so does every interleaving |
| `Protocol.CallOutcome` | crates/chain/src/attestation_collector.rs:155-217 | an uninterrupted call is refused for the first reason that applies (signature, validator, height below the highest of ours by more than the retention, same validator at that height), or stored, and only heights further back than the retention are forgotten |
| `Protocol.RecordOutcome` | crates/chain/src/attestation_collector.rs:136-149 | recording our hash keeps exactly what is within the retention of its height |
| `Protocol.CountedPowerBounded` | crates/chain/src/attestation_collector.rs:195-209 | in every reachable state a height holds one attestation per validator at most, and its counted power is at most the registered power |
| `Protocol.LastCheckSawAll` | crates/chain/src/attestation_collector.rs:195-222 | once no check of a height is pending, its latest check saw every attestation ever accepted for it (within the retention of the highest accepted height) and, with unchanged validators, alerted exactly when those votes diverge |
| `Protocol.HaltedMeansMinority` | crates/chain/src/divergence_handler.rs:124-192 | the flag is up exactly when an alert raised it since it was last lowered; every alert received that calls for a halt raises it; and each comes from a check that met the threshold with another hash than ours in the lead |
| `Protocol.MinorityTold` | crates/chain/src/attestation_collector.rs:226-324 | over every run, every check that found a divergence sent such an alert, minority told exactly so |
| `Protocol.TakenHaltsIff` | crates/chain/src/divergence_handler.rs:124-192 | after every run, the next alert taken raises the flag and notes its height if and only if the policy halts and does so on every alert or this one tells of a minority |
| `Protocol.HistoryIsRecent` | crates/chain/src/divergence_handler.rs:125-133 | the history is the last hundred alerts received, in order |
| `HaltRaces.OverlapInconsistentIff` | crates/chain/src/divergence_handler.rs:99-107 | of the ways in which a halt and a clear can interleave, exactly those that run one entirely between the two writes of the other leave flag and height inconsistent |
| `HaltRaces.OrderlyRunConsistent` | crates/chain/src/divergence_handler.rs:124-192 | over every run in which no flag is raised inside a clear or lowered inside a halt, the flag is up exactly when a height is noted, as soon as neither is half done |
| `HaltRaces.RaisingReached` | crates/chain/src/divergence_handler.rs:124-192 | under every halting policy with a threshold that can be met, a run reaches the point of raising the flag |
| `HaltRaces.InconsistentReached` | crates/chain/src/divergence_handler.rs:99-107 | so runs end with the flag down and a height noted, and with the flag up and none, no call half done |
| `AttestationObject.AttestationCollector.StoreAttestation` | crates/chain/src/attestation_collector.rs:195-217 | stores or refuses a duplicate, and prunes by the attested height |
| `AttestationObject.AttestationCollector.RecordOurHash` | crates/chain/src/attestation_collector.rs:136-149 | records and prunes |
| `AttestationObject.AttestationCollector.IsTooOld` | crates/chain/src/attestation_collector.rs:180-193 | by the latest height recorded |
| `AttestationObject.AttestationCollector.CheckHeight` | crates/chain/src/attestation_collector.rs:226-324 | sends the verdict on the current state |
| `AttestationObject.AttestationCollector.ProcessAttestation` | crates/chain/src/attestation_collector.rs:155-223 | uninterrupted: refused for the first reason that applies, or stored and checked |
| `AttestationObject.DivergenceHandler.HandleAlert` | crates/chain/src/divergence_handler.rs:124-180 | history, flag and height after an alert; flag up exactly when a height is noted, as long as calls do not overlap |
| `AttestationObject.DivergenceHandler.ClearHalt` | crates/chain/src/divergence_handler.rs:99-107 | flag and height cleared |

## Left out

- Fees, account balances, realised profit and the unified balance sheet: a fill changes sizes, open interest, the
  mark and triggers only.
- Funding, liquidation prices, margin formulas and the deleveraging score: arbitrary functions or absent.
- Fill and trade histories, client order ids, block metadata and events: queries beside the trading state.
- Liquidation and deleveraging as steps of a run: they change positions without touching open interest, so the
  conservation results are about runs without them.
- Adding a market a second time, which empties its book under live records: runs add each market once.
- Impact prices, spread and mid prices of the book: one-expression queries.
- Records of the codec that do not fit 32 bits of length, and file-system failures other than crashes.
- SnapshotObject.TakeSnapshot: lists positions and leverage market by market, where the source goes account by
  account; `SnapshotObject.RestoreBack` holds for a listing in any order.
- Taking or restoring store snapshots outside a commit: modelled as methods, not part of the runs.
- Client order ids, engine scalars and the EVM root enter the application hash as digests computed elsewhere.
- Overflow of 64-bit and 128-bit sums, and rounding of the quorum ratio in floating point.
- Signatures: an attestation carries whether it verifies. The alert channel is unbounded, so a check never waits
  for the handler.
- The second handler object that shares only the halt flag with the one that receives alerts.
- Mempool, consensus, networking, RPC, spot engine and the EVM.

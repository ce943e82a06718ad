# Verification of the limit order book matching engine

This project models the matching engine of the trading system and proves what it promises: price-time
priority, conservation of volume, the volume that a round of matching clears, the agreement of the
book's four redundant structures, and the round trips of its wire formats.

## How the model is built

There are two levels, and a proof that the lower one refines the upper one.

* **The exchange as a state machine** (`PriorityBook`, `Exchange`). A book is two lists of orders sorted
  by price and then id, the valid entries of the cancel table, and the number of free pool slots. Add,
  Match and Cancel are functions on it, one for each method that holds the engine's mutex. A run is any
  sequence of them from an empty book, and a history beside the state records what became of every
  order. `Ledger`, `Conservation`, `RunProperties`, `LocationTable` and `Clearing` prove properties of
  all runs and of all books.
* **The engine in place** (`ObjectPool.dfy`, `OrderBook.dfy`, `MatchingEngine.dfy`, `TradingSystem.dfy`).
  Classes with the fields of the source: per-level queues of pool slots, two bitmaps in 64-bit words, a
  pool of order objects with a stack of free slots, and the location table of 10000 slots. Every method
  of the engine is proved to take the step of the state machine (`Abs() == Step(old(Abs()), event)`) and
  to return what that step says, from every valid state, so every property of runs is a property of the
  engine. `Word64`, `Bitmap`, `LevelQueues`, `PoolSlots`, `BookSides` and `BookLayouts` hold the lemmas
  on values that these proofs use: a change to the structures is a change to the two lists.

`Decimals`, `Fields`, `OrderTexts` and `MarketFeed` model the text formats, down to `std::getline`'s
treatment of the end of the text and `std::stoull`'s spaces and signs.

## Integers and errors

Prices, volumes and ids are 64-bit. Every narrowing of the source to a 32-bit int is kept
(`FixedWidth.ToInt32`): in the level of a price, in the ticks of a price, in reading a volume and in
reducing it. Nothing is assumed about the size of volumes unless a lemma says so. Structural results
(priority, refinement, pool, table, termination of matching) hold for all 64-bit volumes. Conservation
does not: it is proved to hold in exactly the runs whose trades satisfy `VolumeArithmetic.Faithful`, runs
of volumes below 2^31 are proved to be of that kind, and `Conservation.LargeVolumeIsLost` is a run that
is not. In the same way `LocationTable` proves exactly when a cancel reaches a resting order, and
`LocationTable.CongruentCancelIsLost` is a run in which a cancel of an id that was never given out makes
the cancel of a resting order do nothing. The comment in the source that a missing entry means the order
may have been matched already does not cover that case; the model follows the code.

Exceptions are `Failure` results. A runtime error inside the try block of matching ends it without a
trade, other errors would escape; both are modelled, and no reachable state leads to either.

Assumptions: the id counter does not wrap (a run has fewer than 2^64 steps), and the book is built with
at least 101 and fewer than 2^31 levels. The engine's lemmas about bitmaps are for any number of words.

## Model

| member | source | states |
|---|---|---|
| PriceLadder.AcceptedPrices | TradingSystem/Matching_Engine/OrderBook/OrderBook.cpp:151-160 | over all 64-bit prices, a price is accepted at level i exactly when i is from 0 to 100 and the price is 950 + i modulo 2^32; every other price is refused |
| PriceLadder.TicksOrderLevels | TradingSystem/Matching_Engine/MatchingEngine.cpp:46-54 | for accepted prices the narrowed ticks are 950 plus the level and the price modulo 2^32, so comparing ticks is comparing levels |
| PriceLadder.IndexPriceRoundTrip | TradingSystem/Matching_Engine/OrderBook/OrderBook.cpp:162-171 | level i converts to 950 + i exactly when the book has it and is refused otherwise; 950 to 1050 convert back to levels 0 to 100, and no higher level's price is accepted |
| PriceLadder.PriceIndexRoundTrip | TradingSystem/Matching_Engine/OrderBook/OrderBook.cpp:151-171 | exactly the prices 950 to 1050 survive conversion to a level and back |
| PriceLadder.BitmapIndexBijection | TradingSystem/Matching_Engine/OrderBook/OrderBook.cpp:179-187 | word and bit identify a level, every pair is the place of one level, the word is within the bitmap, and the bitmap has no more 64-bit words than it needs |
| Word64.ZeroCounts | TradingSystem/Matching_Engine/OrderBook/OrderBook.cpp:264-266 | the leading and trailing zero counts of any 64-bit word locate its highest and lowest set bit, and are 64 exactly for zero |
| Word64.SetBit | TradingSystem/Matching_Engine/OrderBook/OrderBook.cpp:194-196 | or-ing the mask in sets that bit and changes no other |
| Word64.ClearBit | TradingSystem/Matching_Engine/OrderBook/OrderBook.cpp:205 | and-ing the inverted mask clears that bit and changes no other |
| Bitmap.ScanFindsBestLevel | TradingSystem/Matching_Engine/OrderBook/OrderBook.cpp:259-287 | when bitmap and queues agree, the highest (lowest) set bit is the highest (lowest) non-empty level, and there is none exactly when all queues are empty, for any number of levels |
| Bitmap.SetKeepsAgreement | TradingSystem/Matching_Engine/OrderBook/OrderBook.cpp:50-53 | setting a level's bit when its queue becomes non-empty keeps bit i set exactly for non-empty levels i |
| Bitmap.ClearKeepsAgreement | TradingSystem/Matching_Engine/OrderBook/OrderBook.cpp:98-100 | clearing a level's bit when its queue becomes empty keeps that agreement |
| FixedWidth.ConversionToInt32 | TradingSystem/Matching_Engine/OrderBook/Order.cpp:31 | narrowing gives an int of the 32-bit range that agrees with the value modulo 2^32 |
| FixedWidth.ConversionToU64 | TradingSystem/Matching_Engine/OrderBook/OrderBook.cpp:152 | a conversion to 64 bits gives a value of that range that agrees modulo 2^64 |
| VolumeArithmetic.AccountsIffFaithful | TradingSystem/Matching_Engine/MatchingEngine.cpp:55-77 | over all 64-bit volumes, a match accounts for both orders' volumes exactly when `Faithful` holds of the two, and then trades the smaller one |
| VolumeArithmetic.TradeVolumeIs | TradingSystem/Matching_Engine/MatchingEngine.cpp:55-56 | for all 64-bit volumes, whatever ints they read as modulo 2^32, the smaller int widened to 64 bits is traded |
| VolumeArithmetic.ReducedIs | TradingSystem/Matching_Engine/OrderBook/Order.cpp:27-35 | for all 64-bit volumes, the int that the smaller of volume and reduction reads as is taken off modulo 2^64, and nothing is taken off zero |
| VolumeArithmetic.ExhaustedIs | TradingSystem/Matching_Engine/OrderBook/Order.cpp:74 | an order counts as filled exactly when the low 32 bits of its volume are zero |
| VolumeArithmetic.MatchExhaustsASide | TradingSystem/Matching_Engine/OrderBook/Order.cpp:27-35 | whatever the two 64-bit volumes are, after the reductions at least one order counts as filled |
| VolumeArithmetic.SmallVolumesFaithful | TradingSystem/Matching_Engine/OrderBook/Order.cpp:74 | two volumes below 2^31 satisfy `Faithful` |
| PriorityBook.MatchedOrderHasPriority | TradingSystem/Matching_Engine/MatchingEngine.cpp:43-54 | every other order of a traded side has a worse price, or the same price level and a later id |
| PriorityBook.TradePriceSuitsBoth | TradingSystem/Matching_Engine/MatchingEngine.cpp:54-58 | the trade price is the ask's price modulo 2^32, and at most the bid's |
| PriorityBook.MatchOutcome | TradingSystem/Matching_Engine/MatchingEngine.cpp:43-90 | for faithful volumes: with orders on both sides and meeting prices the smaller volume goes off both best orders at the ask's price, filled ones leave with their slot and nothing else changes; otherwise the book is unchanged |
| PriorityBook.MatchOfAnyVolumes | TradingSystem/Matching_Engine/MatchingEngine.cpp:55-78 | for all volumes: what is traded, and whether each best order leaves or stays with which volume |
| PriorityBook.MatchClearsSlots | TradingSystem/Matching_Engine/OrderBook/OrderBook.cpp:96 | for all volumes, a match clears exactly the table slots, modulo 10000, of the orders that leave, whichever order the slots named |
| PriorityBook.MatchKeepsInv | TradingSystem/Matching_Engine/MatchingEngine.cpp:40-91 | a match keeps both lists sorted, on their side, within the pool, and the table within the price levels |
| PriorityBook.AddKeepsInv | TradingSystem/Matching_Engine/OrderBook/OrderBook.cpp:48-68 | an add of a fresh id keeps the same invariant |
| PriorityBook.CancelKeepsInv | TradingSystem/Matching_Engine/OrderBook/OrderBook.cpp:299-334 | a cancel of any id keeps the same invariant |
| PriorityBook.MatchRemovesAnOrder | TradingSystem/Matching_Engine/MatchingEngine.cpp:69-78 | every trade removes an order, zero volumes and volumes above 2^31 included |
| Exchange.RunKeepsInv | TradingSystem/Matching_Engine/MatchingEngine.hpp:25-32 | every state that a run reaches satisfies the invariant, and ids grow by at most one a step |
| Exchange.AddOutcome | TradingSystem/Matching_Engine/MatchingEngine.cpp:18-38 | for any order: it rests exactly as given but for its id, which is the next one and the reply, when a slot is free and its price is 950 to 1050 modulo 2^32; another price costs a slot and an id and is refused; without a free slot nothing changes |
| Exchange.StartIsEmpty | TradingSystem/Matching_Engine/OrderBook/OrderBook.hpp:14-16 | runs start with an empty book, 10000 free slots and no id given out |
| RunProperties.RunRespectsPriority | TradingSystem/Matching_Engine/OrderBook/OrderBook.cpp:227-257 | after any run, what the next trade takes on a side has the best price (modulo 2^32) and, at that price, the smallest id resting |
| RunProperties.IdsRecordArrival | TradingSystem/UtilityClass/OrderIdGenerator.cpp:5-7 | in any run the next id is larger than that of every order that entered before |
| RunProperties.SubmittedAsGiven | TradingSystem/Matching_Engine/MatchingEngine.cpp:20-22 | every order on record is the argument of the add event that was given its id, changed in its id only |
| RunProperties.EnteredIsSubmitted | TradingSystem/Matching_Engine/MatchingEngine.cpp:20-37 | every add that is told an id is on record as it was given, for the rest of the run |
| RunProperties.RestingAsGiven | TradingSystem/Matching_Engine/MatchingEngine.cpp:20-22 | every resting order is, but for id and volume, what some add of the run was called with |
| RunProperties.RunKeepsFronts | TradingSystem/Matching_Engine/MatchingEngine.cpp:60-78 | in every reachable state each order behind the front of its level has the volume it was submitted with |
| RunProperties.RunKeepsSlots | TradingSystem/Matching_Engine/MatchingEngine.cpp:20-32 | at every point of every run, free slots, resting orders and adds refused for their price add up to the pool |
| RunProperties.RunKeepsIds | TradingSystem/Matching_Engine/MatchingEngine.cpp:20-22 | at every point of every run the ids given out are as many as the orders that entered and the adds refused for their price; an add that finds no free slot takes none |
| Ledger.RunKeepsHistory | TradingSystem/Matching_Engine/MatchingEngine.cpp:18-91 | in every reachable state each submitted order is resting on one side or gone, never both, and resting orders differ from their submission in volume at most |
| Conservation.ConservedIffFaithful | TradingSystem/Matching_Engine/MatchingEngine.cpp:55-77 | in any run, filled plus remaining (or cancelled) equals submitted for every order at every point exactly when every trade of the run is faithful |
| Conservation.MatchPerOrder | TradingSystem/Matching_Engine/OrderBook/Order.cpp:27-35 | one match keeps the per-order balance exactly when its two volumes are faithful |
| Conservation.SidesConserved | TradingSystem/Matching_Engine/OrderBook/OrderBook.cpp:299-334 | in faithful runs the volume that entered a side is resting, traded or cancelled, with the same traded volume on both sides |
| Conservation.SmallRunsAreFaithful | TradingSystem/Matching_Engine/OrderBook/Order.cpp:74 | runs that submit volumes below 2^31 trade faithfully throughout |
| Conservation.LargeVolumeIsLost | TradingSystem/Matching_Engine/MatchingEngine.cpp:55-73 | a run in which an ask of volume 2^32 is removed by a trade of volume zero, and its balance is broken |
| Clearing.DrainTradesClearingVolume | TradingSystem/Matching_Engine/MatchingEngine.cpp:54-79 | matching until nothing trades trades in total the maximum over prices p of min(bid volume at p or above, ask volume at p or below) |
| Clearing.DrainIgnoresArrival | TradingSystem/TradingSystem.cpp:34-40 | that total is the same for books with the same volume on every level |
| Clearing.DrainEnds | TradingSystem/Matching_Engine/MatchingEngine.cpp:55-90 | n resting orders yield at most n - 1 trades in a row, and then a side is empty or best bid is strictly below best ask |
| Clearing.DrainFillsAPrefix | TradingSystem/Matching_Engine/MatchingEngine.cpp:43-78 | on each side a drain removes a prefix of the priority order, changes the volume of at most the next order, and leaves all later ones as they were |
| Clearing.DrainConservesVolume | TradingSystem/Matching_Engine/OrderBook/OrderBook.cpp:71-127 | each side loses in a drain exactly what the trades add up to |
| Clearing.RunThenDrain | TradingSystem/TradingSystem.cpp:34-40 | after any run of volumes below 2^31, draining trades the clearing volume, is itself a run of match steps, and the history counts its volume |
| Clearing.DrainIsARun | TradingSystem/TradingSystem.cpp:34-40 | a drain is a run of as many match steps as it has trades |
| Clearing.LevelVolumesFit | TradingSystem/Matching_Engine/OrderBook/OrderBook.hpp:14-16 | sums of volumes below 2^31 over the resting orders never wrap 64 bits |
| LocationTable.EntryNamesNewestResting | TradingSystem/Matching_Engine/OrderBook/OrderBook.cpp:55-56 | in every reachable state a valid table slot names side and price of an order that rests there, and no order with a congruent id entered after it |
| LocationTable.RunKeepsTable | TradingSystem/Matching_Engine/OrderBook/OrderBook.cpp:289-297 | in every reachable state the table's entries are those of the newest orders of their slots, none of which has left |
| LocationTable.CancelFindsIffLeads | TradingSystem/Matching_Engine/OrderBook/OrderBook.cpp:299-329 | in a reachable state a cancel finds a resting order exactly when the table slot is valid and names its side and level, and then it removes that order |
| LocationTable.CancelOfRestingOrder | TradingSystem/Matching_Engine/MatchingEngine.hpp:29-32 | the cancel step on a resting order takes exactly that order out of the book when the table leads to it, and leaves both sides alone when it does not |
| LocationTable.UndisturbedCancelSucceeds | TradingSystem/Matching_Engine/OrderBook/OrderBook.cpp:299-329 | if since an order entered no other congruent id was added, cancelled or matched away, and the order still rests, its cancel finds and removes it |
| LocationTable.CancelIsExact | TradingSystem/Matching_Engine/OrderBook/OrderBook.cpp:304-327 | a cancel of any id removes at most one order, which has that id, leaves every other order unchanged and in its place, and clears the id's table slot modulo 10000, found or not, and no other |
| LocationTable.CancelUndoesAdd | TradingSystem/Matching_Engine/MatchingEngine.hpp:29-32 | cancelling the order just added restores both lists and the pool |
| LocationTable.CongruentCancelIsLost | TradingSystem/Matching_Engine/OrderBook/OrderBook.cpp:329 | a run in which cancelling an id nobody has makes the cancel of a resting order do nothing |
| LevelQueues.AppendIsInsert | TradingSystem/Matching_Engine/OrderBook/OrderBook.cpp:50-51 | appending an order with a fresh id to the queue of its level inserts it in its place by price and id in the side's list |
| LevelQueues.EraseIsRemove | TradingSystem/Matching_Engine/OrderBook/OrderBook.cpp:304-316 | erasing from a level queue removes that one order from the side's list |
| PoolSlots.PartitionedApart | TradingSystem/Matching_Engine/OrderBook/ObjectPool.hpp:22-40 | in a partitioned pool the free stack and the queues list no slot twice and share none, and every slot is within the pool |
| PoolSlots.TakingASlot | TradingSystem/Matching_Engine/OrderBook/ObjectPool.hpp:22-30 | handing out the top of the free stack keeps every slot in exactly one place |
| PoolSlots.ReleasingASlot | TradingSystem/Matching_Engine/OrderBook/ObjectPool.hpp:32-40 | giving back the slot of an order that leaves its queue keeps every slot in exactly one place |
| ObjectPools.ObjectPool.constructor | TradingSystem/Matching_Engine/OrderBook/ObjectPool.hpp:16-20 | the stack starts with the 10000 slots once each, in order |
| ObjectPools.ObjectPool.Acquire | TradingSystem/Matching_Engine/OrderBook/ObjectPool.hpp:22-30 | the top slot is popped; an empty stack fails and changes nothing |
| ObjectPools.ObjectPool.Release | TradingSystem/Matching_Engine/OrderBook/ObjectPool.hpp:32-40 | a slot of the pool is pushed; any other is refused and changes nothing |
| ObjectPools.ObjectPool.ReduceVolume | TradingSystem/Matching_Engine/OrderBook/Order.cpp:27-35 | exactly one order changes, in its volume only, by the reduction returned |
| BookLayouts.QueuedView | TradingSystem/Matching_Engine/OrderBook/OrderBook.cpp:48-68 | queue, bit, table slot and pool slot changed together are an add on the abstract book, and all structures still agree |
| BookLayouts.DequeuedView | TradingSystem/Matching_Engine/OrderBook/OrderBook.cpp:90-100 | a slot leaving its queue, with bit, table and pool, is the removal of that order from the abstract book |
| BookLayouts.BestOfView | TradingSystem/Matching_Engine/OrderBook/OrderBook.cpp:227-257 | when the structures agree, what the scan finds is the first order of the abstract list, never a marked level without orders |
| BookLayouts.BestRemovedView | TradingSystem/Matching_Engine/OrderBook/OrderBook.cpp:71-127 | when the structures agree and the id is the first order's, the removal is not refused, meets no stale bit, and removes the first order |
| BookLayouts.BestRemovedCases | TradingSystem/Matching_Engine/OrderBook/OrderBook.cpp:71-127 | from any well-shaped state, the four cases of removing the best order structure by structure: nothing, one bit cleared, a refusal without change, or queue, bit, free stack and table slot changed for the front order |
| BookLayouts.CancelledView | TradingSystem/Matching_Engine/OrderBook/OrderBook.cpp:299-329 | the search of one queue and the erasure it leads to are the cancel of the abstract book, found or not |
| BookLayouts.QueueVolume | TradingSystem/Matching_Engine/OrderBook/OrderBook.cpp:137-143 | the volume of a level's queue is the volume the abstract book has on that level |
| OrderBooks.OrderBook.constructor | TradingSystem/Matching_Engine/OrderBook/OrderBook.cpp:24-30 | a new book is valid and stands for the empty book with all 10000 slots free and a table of 10000 slots |
| OrderBooks.OrderBook.SetBidBitTo1 | TradingSystem/Matching_Engine/OrderBook/OrderBook.cpp:189-197 | an accepted price's bit is set in the bid bitmap; any other price is refused without a change |
| OrderBooks.OrderBook.SetBidBitTo0 | TradingSystem/Matching_Engine/OrderBook/OrderBook.cpp:199-206 | an accepted price's bit is cleared in the bid bitmap; any other price is refused without a change |
| OrderBooks.OrderBook.SetAskBitTo1 | TradingSystem/Matching_Engine/OrderBook/OrderBook.cpp:208-216 | an accepted price's bit is set in the ask bitmap; any other price is refused without a change |
| OrderBooks.OrderBook.SetAskBitTo0 | TradingSystem/Matching_Engine/OrderBook/OrderBook.cpp:218-225 | an accepted price's bit is cleared in the ask bitmap; any other price is refused without a change |
| OrderBooks.OrderBook.FindBestBidLevel | TradingSystem/Matching_Engine/OrderBook/OrderBook.cpp:259-272 | the highest set bit of the bid bitmap, or -1 when none is set |
| OrderBooks.OrderBook.FindBestAskLevel | TradingSystem/Matching_Engine/OrderBook/OrderBook.cpp:274-287 | the lowest set bit of the ask bitmap, or -1 when none is set |
| OrderBooks.OrderBook.GetBestBid | TradingSystem/Matching_Engine/OrderBook/OrderBook.cpp:227-241 | from any well-shaped state the front slot of the highest marked bid level, with the two errors for no level and for an empty queue; from a valid state the first order of the bids, or no bids |
| OrderBooks.OrderBook.GetBestAsk | TradingSystem/Matching_Engine/OrderBook/OrderBook.cpp:243-257 | from any well-shaped state the front slot of the lowest marked ask level, with the two errors for no level and for an empty queue; from a valid state the first order of the asks, or no asks |
| OrderBooks.OrderBook.AddBid | TradingSystem/Matching_Engine/OrderBook/OrderBook.cpp:48-58 | takes the abstract book's add step and stays valid, or refuses the price and changes nothing |
| OrderBooks.OrderBook.AddAsk | TradingSystem/Matching_Engine/OrderBook/OrderBook.cpp:60-68 | takes the abstract book's add step and stays valid, or refuses the price and changes nothing |
| OrderBooks.OrderBook.RemoveBid | TradingSystem/Matching_Engine/OrderBook/OrderBook.cpp:71-101 | from any well-shaped state, stale bits included: nothing, a cleared stale bit, a refusal of another id, or the removal of the front order |
| OrderBooks.OrderBook.RemoveAsk | TradingSystem/Matching_Engine/OrderBook/OrderBook.cpp:103-127 | from any well-shaped state, stale bits included: nothing, a cleared stale bit, a refusal of another id, or the removal of the front order |
| OrderBooks.OrderBook.GetVolumeAtLevelFromPrice | TradingSystem/Matching_Engine/OrderBook/OrderBook.cpp:129-146 | the volumes the abstract book has on the price's level, modulo 2^64, or a refusal of the price |
| OrderBooks.OrderBook.OrderIdToPrice | TradingSystem/Matching_Engine/OrderBook/OrderBook.cpp:289-297 | price and side of the valid entry in the id's slot, or an error when there is none |
| OrderBooks.OrderBook.RemoveOrderFromOrderId | TradingSystem/Matching_Engine/OrderBook/OrderBook.cpp:299-334 | takes the abstract book's cancel step and stays valid; fails only for an entry whose price is not accepted |
| MatchingEngines.FilledThenDropped | TradingSystem/Matching_Engine/MatchingEngine.cpp:60-78 | reducing both best orders and then removing the exhausted ones, ask first, is one match of the abstract book |
| MatchingEngines.MatchingEngine.constructor | TradingSystem/Matching_Engine/MatchingEngine.cpp:14-16 | an engine on an empty book stands for the start state |
| MatchingEngines.MatchingEngine.AddOrder | TradingSystem/Matching_Engine/MatchingEngine.cpp:18-38 | takes the add step of the state machine; it succeeds exactly with a free slot and a price of 950 to 1050 modulo 2^32, returns the next id, and then the caller's order rests with only its id changed |
| MatchingEngines.MatchingEngine.MatchLimitOrders | TradingSystem/Matching_Engine/MatchingEngine.cpp:40-91 | takes the match step from every valid state and returns the best orders' trade exactly when their prices cross; no error ever escapes, and no trade means no change |
| MatchingEngines.MatchingEngine.CancelOrder | TradingSystem/Matching_Engine/MatchingEngine.hpp:29-32 | takes the cancel step from every valid state, and never fails |
| TradingSystems.MatchUntilQuiet | TradingSystem/TradingSystem.cpp:34-40 | terminates, and its trades and final book are the drain of the book it started from, so they add up to the clearing volume |
| Decimals.DecimalRoundTrip | TradingSystem/Matching_Engine/OrderBook/Order.cpp:65-68 | reading the decimal form of any 64-bit value gives the value back |
| Decimals.DecimalDigits | TradingSystem/Matching_Engine/OrderBook/Order.cpp:41-47 | a value prints as digits that denote it, without a leading zero |
| Decimals.ParseOfParts | TradingSystem/Matching_Engine/OrderBook/Order.cpp:65-68 | what any text reads as: spaces, a sign or none, digits, and a rest that does not matter; errors without digits and from 2^64 on |
| Fields.ReadFields | TradingSystem/Matching_Engine/OrderBook/Order.cpp:52-58 | the getline loop yields the comma-separated fields of any text |
| Fields.NumberOfFields | TradingSystem/Matching_Engine/OrderBook/Order.cpp:56-62 | a text has one field for each comma, and one more unless it is empty or ends with a comma |
| Fields.SplitOfJoin | TradingSystem/Network Servers/Order_Request.hpp:35-52 | splitting undoes joining of comma-free fields exactly when the last field is not empty |
| Fields.JoinOfSplit | TradingSystem/Matching_Engine/OrderBook/Order.cpp:52-58 | joining the fields of any text gives the text back, but for a comma at its end |
| OrderTexts.Serialize | TradingSystem/Matching_Engine/OrderBook/Order.cpp:37-49 | prints BUY or SELL, volume, name, id and price in that order with commas between, SELL exactly for asks |
| OrderTexts.Deserialize | TradingSystem/Matching_Engine/OrderBook/Order.cpp:51-71 | reads an order from the five fields of any text, only the word BUY making a bid; any other number of fields is rejected |
| OrderTexts.WireText | TradingSystem/Matching_Engine/OrderBook/Order.cpp:37-49 | the printed form of an order, spelled out |
| OrderTexts.OrderOfAnyFields | TradingSystem/Matching_Engine/OrderBook/Order.cpp:56-71 | over all lists of fields: accepted exactly when there are five and the three numbers parse, with the order they say; otherwise which error |
| OrderTexts.OrderRoundTrip | TradingSystem/Matching_Engine/OrderBook/Order.cpp:37-71 | an order's printed form reads back as the order exactly when its name has no comma, and is rejected otherwise |
| OrderTexts.FieldsOfOrder | TradingSystem/Matching_Engine/OrderBook/Order.cpp:56-62 | k commas in the name make 5 + k fields |
| OrderTexts.SerializeRequest | TradingSystem/Network Servers/Order_Request.hpp:20-28 | prints id, NEW or CANCEL, and the order's printed form in that order with commas between |
| OrderTexts.RequestWireText | TradingSystem/Network Servers/Order_Request.hpp:20-28 | the printed form of a request, spelled out |
| OrderTexts.DeserializeRequest | TradingSystem/Network Servers/Order_Request.hpp:30-55 | reads a request from the seven fields of any text by rejoining five of them; any other number of fields is rejected |
| OrderTexts.RequestOfAnyText | TradingSystem/Network Servers/Order_Request.hpp:30-55 | over all texts: accepted exactly when there are seven fields and they say a client id, NEW or another word, and an order; otherwise which error |
| OrderTexts.RequestRoundTrip | TradingSystem/Network Servers/Order_Request.hpp:20-55 | a request survives split, rejoin and split again exactly when its order's name has no comma, and is rejected otherwise |
| OrderTexts.ResplitIffLastFieldNotEmpty | TradingSystem/Network Servers/Order_Request.hpp:49-52 | for any seven-field text, rejoining the last five and splitting again gives the same five exactly when the last is not empty |
| MarketFeed.SnapshotRoundTrip | TradingSystem/Network Servers/MarketData.hpp:14-19 | every snapshot of four 64-bit values is stored unchanged when its printed form is read, whatever was stored before |
| MarketFeed.SnapshotText | TradingSystem/Network Servers/MarketData.hpp:14-19 | a snapshot prints as its four numbers in order with three commas between, ending in a digit |
| MarketFeed.ReadAnyText | TradingSystem/Network Servers/MarketData.hpp:37-53 | over all texts, which fields are overwritten with which tokens, and which error is the result; too few fields included |
| MarketFeed.MarketData.Deserialise | TradingSystem/Network Servers/MarketData.hpp:37-53 | overwrites the fields one by one up to the first that does not parse; a printed snapshot is stored exactly |

## Left out

- Sockets, threads, sleeps, the terminal client, the simulated traders and the dashboard: input and output without a property of their own.
- Mutexes and the atomic id counter: each locked method is one atomic step, and the global id generator is a field of the one engine.
- The snapshot loop of the UDP server reads the book without the engine's mutex; the level-volume query is modelled as a call between steps.
- A trade's pointers to its two orders, which may outlive the orders: only the copied volume and price are kept.
- Copying, comparing and printing of prices and orders, debug output, and the text form of a trade.
- Direct use of the book by the benchmarks, random order generation, and functions that are declared but not defined, empty or never called.
- Undefined behaviour of books built with fewer than 101 levels: the constructor asks for at least 101.
- Clearing.DrainTradesClearingVolume: stated for faithful drains (all drains of volumes below 2^31 are); unfaithful trades are characterised one by one by VolumeArithmetic.AccountsIffFaithful, but their errors can cancel out in a total, so the total has no converse.
- LocationTable.UndisturbedCancelSucceeds: a sufficient condition on the run; the exact condition is on the table slot, in LocationTable.CancelFindsIffLeads.
- Exchange.RunKeepsInv: stated for runs of fewer than 2^64 steps, so that ids do not wrap.
